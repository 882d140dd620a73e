# Verification of the eBPF system monitor's concurrent core

A Dafny model of the parts of the monitor that are hard to get right, with proofs over every run.

**The packet path** (`src/dpdk_sim`). A single-producer/single-consumer ring with free-running
64-bit indices and a power-of-two mask; a pool that uses such a ring as its free list; a batch
processor that connects the two. Each is modelled three ways.

- `Words.dfy`, `SpscRing.dfy`, `MemoryPool.dfy`, `PacketProcessor.dfy`: the objects in place, whole
  calls one at a time, with wrapped indices and counters, proved against specifications on
  unbounded counters.
- `RingProtocol.dfy`, `RingWrap.dfy`, `RingSize.dfy`, `RingSolo.dfy`: the two sides of one ring
  interleaved step by step. A call is cut into loading the own index, loading the other index,
  copying one slot at a time, and publishing. A load of the other index may return any value that
  side ever stored which is not older than what the thread has already seen; the newest value is one
  choice among them. The protocol is written once and read at two widths, unbounded counters with
  remainders and 64-bit words with masks, and the two are shown to have the same runs.
- `Pipeline.dfy`, `PipelineCalls.dfy`, `PipelineBursts.dfy`, `PipelineDrop.dfy`: both rings and both
  threads of the batch processor together, the whole calls they can carry out, and what one burst
  receives. An acquire load also brings the reader up to date with what the other thread had done on the
  other ring before the store that the load reads.

**The thread pool** (`src/http/thread_pool.h`). `ThreadPool.dfy` is a transition system at the
granularity of lock sections, counter updates, notifications and the ends of task bodies; wakeups
may be spurious, notifications come after the lock is released, bodies may throw, and anyone may
call `submit` at any time, task bodies included. `ThreadPoolSafety.dfy` has the invariant,
`ThreadPoolTheorems.dfy` what holds of every run, `ThreadPoolProgress.dfy` the measures, and
`ThreadPoolObject.dfy` the object's own fields updated in place by those steps.

**The aggregators.** `RequestStats.dfy`, `StatsReporter.dfy` and `TcpTracer.dfy`: maps kept by
request and connection events, against folds of the event log, and the connect/close probes that
feed the reporter through a map keyed by process id alone.

A run is a sequence of events. `Enabled` says which events a state allows, `Apply` what they do,
and `Exec` folds them; what a run has enqueued, accepted or finished is read off its events, not
off the state. The main results are about every such sequence from the constructor on:

- `RingWrap.Fifo`, `RingWrap.NoSlotRace`, `RingWrap.WidthsAgree`: the ring is a queue, its slots are
  never raced for, and wrapping changes nothing, in runs of any length.
- `Pipeline.NothingDroppedOrLost`, `Pipeline.PacketsStayInOrder` and
  `PipelineDrop.DropsExactlyWhenRingIsSmaller`: with `RingSize >= PoolSize` nothing is dropped,
  leaked, duplicated or reordered in any interleaving, and that condition is exact.
- `PipelineCalls.ProcessBurstDelivers`, `PipelineBursts.BurstTakesWhatItSaw`,
  `PipelineCalls.ThreadsNeverBlock`: what `process_burst` receives and returns, from every reachable
  state and whatever the sender does meanwhile, and that neither thread ever waits for the other.
- `ThreadPoolTheorems`, `ThreadPoolProgress`: no lost wakeup, exactly-once execution, counted before
  ready, a destructor that drains, and bounds on the number of steps.
- `TcpTracers.CloseIsRightExactlyWhen` and `TcpTracers.RowsBelongToSockets`: when a close event
  carries its own socket's addresses, and what then ends up in the reporter's rows.

At two points the code, and not the comment beside it, is modelled. A capacity of zero passes the
compile-time test that is meant to admit powers of two only, so it is included. The dropped-packet
counter counts full rings only, not an exhausted pool.

One natural property is false of the code: that a close event carries its own socket's addresses.
`TcpTracers.TwoConnectsMisattribute` is a concrete run, without any full map or failed reservation,
in which it does not, and `TcpTracers.CloseIsRightExactlyWhen` says exactly when it does.

## Model

| member | source | states |
|---|---|---|
| Words.AcceptedIsPow2OrZero | src/dpdk_sim/spsc_ring.h:24-25 | the compile-time test admits exactly the powers of two that fit in 64 bits, and zero |
| Words.MaskIsRemainder | src/dpdk_sim/spsc_ring.h:30 | `x & (2^k - 1)`, defined bit by bit, is the remainder of `x` by `2^k`, for every `x` and `k` |
| Words.MaskIsSlot | src/dpdk_sim/spsc_ring.h:30-49 | masking an index that has wrapped at 2^64 gives the slot of the counter that never wrapped |
| Words.WrapDistance | src/dpdk_sim/spsc_ring.h:46-48 | wrapped subtraction of two wrapped indices is the true distance whenever that is below 2^64 |
| RingSpec.EnqueueAppends | src/dpdk_sim/spsc_ring.h:45-52 | enqueue succeeds exactly when there is room, and then appends to the contents |
| RingSpec.DequeueTakesOldest | src/dpdk_sim/spsc_ring.h:55-62 | dequeue fails exactly on an empty ring, and otherwise removes the oldest item |
| RingSpec.EnqueueEachAppends | src/dpdk_sim/spsc_ring.h:45-52 | repeated enqueues accept exactly the prefix that fits, in order |
| RingSpec.DequeueEachTakesOldest | src/dpdk_sim/spsc_ring.h:55-62 | repeated dequeues take exactly the oldest items, in order |
| RingSpec.EnqueueEachIsStore | src/dpdk_sim/spsc_ring.h:67-76 | the closed form of a run of enqueues: how far the index moves and what the array holds, across the mask boundary |
| RingSpec.DequeueEachIsWindow | src/dpdk_sim/spsc_ring.h:79-88 | the closed form of a run of dequeues |
| Rings.SpscRing.constructor | src/dpdk_sim/spsc_ring.h:33-38 | a new ring is empty, for every capacity the compile-time test admits |
| Rings.SpscRing.MaskIndex | src/dpdk_sim/spsc_ring.h:30-49 | the masked 64-bit index is the slot of the unwrapped counter |
| Rings.SpscRing.Enqueue | src/dpdk_sim/spsc_ring.h:45-52 | with wrapped indices and the array updated in place, the call does what the specification on unbounded counters does |
| Rings.SpscRing.Dequeue | src/dpdk_sim/spsc_ring.h:55-62 | likewise for dequeue; on failure nothing changes |
| Rings.SpscRing.EnqueueBurst | src/dpdk_sim/spsc_ring.h:67-76 | the burst leaves array, indices and count exactly as that many single enqueues would |
| Rings.SpscRing.DequeueBurst | src/dpdk_sim/spsc_ring.h:79-88 | the burst leaves indices, output and count exactly as that many single dequeues would, and the rest of the output array alone |
| Rings.SpscRing.Size | src/dpdk_sim/spsc_ring.h:92-95 | between calls the size is the number of items in the ring |
| Rings.SpscRing.IsEmpty | src/dpdk_sim/spsc_ring.h:96 | true exactly when the ring holds no item |
| Rings.SpscRing.IsFull | src/dpdk_sim/spsc_ring.h:97 | true exactly when the ring holds as many items as it has slots |
| RingProtocol.StepKeepsInv | src/dpdk_sim/spsc_ring.h:45-88 | every atomic step of either thread keeps the invariant, and the contents change only at the two publishing stores |
| RingProtocol.RunKeepsInv | src/dpdk_sim/spsc_ring.h:45-88 | in every interleaving, items dequeued so far followed by the contents are the items enqueued so far (unbounded counters) |
| RingProtocol.HistoryGrows | src/dpdk_sim/spsc_ring.h:45-97 | index histories only grow, no thread un-sees a value, and each index counts the items of its side |
| RingWrap.StepAgrees | src/dpdk_sim/spsc_ring.h:30-97 | each step is possible with 64-bit indices and masks exactly when it is with unbounded counters and remainders, with corresponding results |
| RingWrap.WidthsAgree | src/dpdk_sim/spsc_ring.h:30-97 | the two widths have the same runs, of any length, ending in corresponding states |
| RingWrap.StoredIsContents | src/dpdk_sim/spsc_ring.h:79-97 | the items read off the 64-bit state through masked indices are the contents |
| RingWrap.Fifo | src/dpdk_sim/spsc_ring.h:45-88 | no loss, duplicate or reordering, in every interleaving of single and burst calls with 64-bit indices and stale loads |
| RingWrap.NoSlotRace | src/dpdk_sim/spsc_ring.h:46-86 | a slot the producer may still write is never a published unread slot, nor one the consumer is copying, whatever old snapshots both act on |
| RingWrap.NeverBlocked | src/dpdk_sim/spsc_ring.h:45-97 | in every reachable state each thread can take its next step, on any value its load of the other index may return |
| RingSize.ProducerMayRelyOnRoom | src/dpdk_sim/spsc_ring.h:45-97 | a producer that read `Capacity - size() = k` finds room for its next `k` items, whatever the consumer does meanwhile |
| RingSize.ConsumerMayRelyOnSize | src/dpdk_sim/spsc_ring.h:45-97 | a consumer that read `size() = k` finds its next `k` items, whatever the producer does meanwhile |
| RingSize.SizeIsExactWhenNew | src/dpdk_sim/spsc_ring.h:92-97 | either owning thread may ask for the size between calls, and on the newest index the answer is the number of items in the ring |
| RingSolo.SoloEnqueue | src/dpdk_sim/spsc_ring.h:45-52 | the steps of an undisturbed enqueue, loading the newest index, have the effect the whole-call specification gives |
| RingSolo.SoloDequeue | src/dpdk_sim/spsc_ring.h:55-62 | likewise for dequeue |
| RingSolo.SoloEnqueueBurst | src/dpdk_sim/spsc_ring.h:67-76 | likewise for the enqueue burst, equal to that many single enqueues |
| RingSolo.SoloDequeueBurst | src/dpdk_sim/spsc_ring.h:79-88 | likewise for the dequeue burst |
| MemoryPools.MemoryPool.constructor | src/dpdk_sim/memory_pool.h:35-39 | the filling loop puts every slot on the free list once, in order |
| MemoryPools.MemoryPool.Alloc | src/dpdk_sim/memory_pool.h:47-54 | the oldest free slot, or null exactly when there is none |
| MemoryPools.MemoryPool.Release | src/dpdk_sim/memory_pool.h:57-59 | the slot joins the free list, or is lost exactly when the list is full |
| MemoryPools.MemoryPool.AllocBurst | src/dpdk_sim/memory_pool.h:64-73 | the loop leaves the free list as that many single allocations would, and the rest of the output array alone |
| MemoryPools.MemoryPool.ReleaseBurst | src/dpdk_sim/memory_pool.h:76-78 | the burst leaves the free list as that many single releases would |
| MemoryPools.MemoryPool.Available | src/dpdk_sim/memory_pool.h:81 | the number of free slots |
| MemoryPools.MemoryPool.InUse | src/dpdk_sim/memory_pool.h:82-83 | slots in use are allocations made less slots returned |
| PacketProcessors.HandledOnce | src/dpdk_sim/packet_processor.h:91-94 | each packet of a burst goes through the handler once and no other packet is touched |
| PacketProcessors.BytesAreSummed | src/dpdk_sim/packet_processor.h:91-94 | the bytes counted for a burst are the lengths its own handler calls left behind |
| PacketProcessors.Create | src/dpdk_sim/packet_processor.h:62-66 | construction fails exactly when there is no handler |
| PacketProcessors.BatchProcessor.constructor | src/dpdk_sim/packet_processor.h:51-66 | all slots free, nothing queued, all counters zero, for any two admitted sizes |
| PacketProcessors.BatchProcessor.AllocPacket | src/dpdk_sim/packet_processor.h:82 | a packet nobody holds, or null exactly when the pool is exhausted |
| PacketProcessors.BatchProcessor.Send | src/dpdk_sim/packet_processor.h:72-79 | accepted exactly when the ring has room; otherwise the packet is back on the free list, which always takes it, and counted as dropped |
| PacketProcessors.BatchProcessor.ProcessBurst | src/dpdk_sim/packet_processor.h:86-100 | the oldest packets, at most 32, are handled in order, counted, and all returned; every slot stays in exactly one place |
| PacketProcessors.BatchProcessor.Stats | src/dpdk_sim/packet_processor.h:39-44 | accepted sends are processed packets plus queued ones, refused sends are the drops, bursts are the calls that found packets, and bursts <= processed <= 32 * bursts |
| Pipeline.SendFindsRoom | src/dpdk_sim/packet_processor.h:72-79 | a sender that holds a packet finds room for it even when it loads a stale tail |
| Pipeline.ReturnFindsRoom | src/dpdk_sim/packet_processor.h:86-99 | the free list has room for the whole burst even when the processor loads a stale tail |
| Pipeline.PerformKeepsInv | src/dpdk_sim/packet_processor.h:72-99 | every step of either thread on either ring keeps the ownership and synchronisation invariant |
| Pipeline.NothingDroppedOrLost | src/dpdk_sim/packet_processor.h:51-99 | with RingSize >= PoolSize, in every interleaving: no drop, no leak, no slot of either ring raced for, and each pool slot in exactly one of free ring, client, packet ring, burst |
| Pipeline.BurstsReturnedWhole | src/dpdk_sim/packet_processor.h:98 | with RingSize >= PoolSize the free list takes every burst whole, although the code ignores how many it took |
| Pipeline.PacketsStayInOrder | src/dpdk_sim/packet_processor.h:72-99 | packets are received as sent, returned as received, and handed out as returned, in every interleaving; the sender holds exactly what it has allocated and not sent |
| PipelineCalls.SysWrapped | src/dpdk_sim/spsc_ring.h:30-97 | every run of the pipeline on unbounded counters is a run with 64-bit indices, the converse of the unwrapping |
| PipelineCalls.ProcessBurstDelivers | src/dpdk_sim/packet_processor.h:86-100 | from every reachable state between calls the processor can run to the end: it receives exactly the oldest packets, min(32, queued), and puts exactly those back, in order |
| PipelineCalls.AllocDelivers | src/dpdk_sim/packet_processor.h:82 | from every reachable state between calls the sender can get the oldest free packet, if there is one |
| PipelineCalls.SendDelivers | src/dpdk_sim/packet_processor.h:72-79 | from every reachable state between calls the sender can queue any packet it holds |
| PipelineCalls.ThreadsNeverBlock | src/dpdk_sim/packet_processor.h:72-99 | in every reachable state both threads can go on with the call they are in, whatever their load returns, and a send in progress cannot be refused |
| PipelineBursts.BurstTakesWhatItSaw | src/dpdk_sim/packet_processor.h:86-89 | every completed receive takes the oldest packets at its load, as many as the head it loaded shows and at most 32; with the newest head, min(32, queued) |
| PipelineDrop.DropsExactlyWhenRingIsSmaller | src/dpdk_sim/packet_processor.h:51-79 | well-behaved clients can see a drop if and only if RingSize < PoolSize |
| ThreadPoolSafety.StepKeepsInv | src/http/thread_pool.h:48-129 | every step of workers, submitters and destructor keeps the lock, staffing and stop invariants |
| ThreadPoolSafety.RunKeeps | src/http/thread_pool.h:38-129 | every run from the constructor keeps them, and its history balances |
| ThreadPoolTheorems.NoLostWakeup | src/http/thread_pool.h:82-126 | while a worker sleeps, workers about to check plus notifications on their way are at least the queued tasks |
| ThreadPoolTheorems.FifoStart | src/http/thread_pool.h:82-126 | tasks start in lock order; the pending counter never underflows and equals the queue length whenever the mutex is free |
| ThreadPoolTheorems.ExactlyOnce | src/http/thread_pool.h:80-129 | every accepted task is in exactly one place: queued, with one worker, or behind a ready future |
| ThreadPoolTheorems.CountedBeforeReady | src/http/thread_pool.h:72-114 | the completed count is the number of bodies over, and a caller holding `k` ready futures reads at least `k` |
| ThreadPoolTheorems.DestructorDrains | src/http/thread_pool.h:48-60 | once the join completes: stopped, queue empty, every accepted task run once, counted, its future ready |
| ThreadPoolTheorems.NothingAcceptedAfterStop | src/http/thread_pool.h:82-87 | after stop no run accepts anything |
| ThreadPoolTheorems.WorkersStay | src/http/thread_pool.h:38-46 | in every reachable state there are as many workers as asked for, or one when none was |
| ThreadPoolTheorems.SleepAndWake | src/http/thread_pool.h:121 | a worker with nothing to do may sleep and wake for no reason, and nothing has changed |
| ThreadPoolProgress.StepWork | src/http/thread_pool.h:82-129 | how every step changes the work measure: only a submission or a spurious wakeup raises it |
| ThreadPoolProgress.StepsAreBounded | src/http/thread_pool.h:82-129 | the pool's own steps in any run are bounded by its submissions and spurious wakeups |
| ThreadPoolProgress.EveryTaskRuns | src/http/thread_pool.h:82-129 | when the pool has no step left to take, every accepted task has run and its future is ready; no deadlock strands work |
| ThreadPoolProgress.ShutdownStep | src/http/thread_pool.h:48-129 | after stop every step but a rejected submit lowers the shutdown measure, spurious wakeups included |
| ThreadPoolProgress.ShutdownTerminates | src/http/thread_pool.h:48-129 | after stop the effective steps are bounded, and until the destructor is done some step is possible |
| ThreadPoolObjects.ThreadPool.constructor | src/http/thread_pool.h:38-46 | as many workers as asked for, or one when none was, all about to check the empty queue; not stopped, both counters zero |
| ThreadPoolObjects.ThreadPool.Size | src/http/thread_pool.h:93 | the number of workers of the transition system |
| ThreadPoolObjects.ThreadPool.Pending | src/http/thread_pool.h:96-98 | between critical sections, the queue length as long as that fits in 64 bits |
| ThreadPoolObjects.ThreadPool.Completed | src/http/thread_pool.h:103-105 | the number of bodies over, as long as that fits in 64 bits |
| ThreadPoolObjects.ThreadPool.Submit | src/http/thread_pool.h:82-87 | the critical section refuses exactly after stop, and performs the submit steps with 64-bit counters |
| ThreadPoolObjects.ThreadPool.SetStop | src/http/thread_pool.h:50-53 | the destructor's critical section performs the stop step |
| ThreadPoolObjects.ThreadPool.Turn | src/http/thread_pool.h:118-127 | one pass takes the front task, runs its body, counts it, and makes its future ready with that body's outcome |
| ThreadPoolObjects.ThreadPool.WorkerLoop | src/http/thread_pool.h:116-129 | one worker after stop takes every queued task in order and returns with the queue empty; the results counted and shown by the futures are exactly each task with what its own body came to |
| RequestStatistics.OrderDoesNotMatter | src/http/request_stats.h:42-50 | any permutation of the records gives the same map |
| RequestStatistics.FoldSums | src/http/request_stats.h:42-50 | a route is present exactly when it has a record; its sums are the log's modulo 2^64 |
| RequestStatistics.FoldExtremes | src/http/request_stats.h:27-50 | the stored minimum and maximum are the least and greatest times recorded for the route |
| RequestStatistics.MeanWithinExtremes | src/http/request_stats.h:27-50 | without overflow, errors <= requests and requests * min <= total <= requests * max |
| RequestStatistics.RequestStats.Note | src/http/request_stats.h:42-50 | one record appended to the log, and the map stays the log's fold |
| RequestStatistics.RequestStats.Snapshot | src/http/request_stats.h:53-56 | the copy is the fold of the log |
| RequestStatistics.RequestStats.TotalRequests | src/http/request_stats.h:58-63 | the loop's sum is the length of the log modulo 2^64 |
| RequestStatistics.RequestStats.TotalErrors | src/http/request_stats.h:65-70 | the loop's sum is the number of failed records modulo 2^64, which is at most the number of records |
| RequestStatistics.RequestTimer.Finish | src/http/request_stats.h:92-98 | a record on the first call, nothing on later ones |
| RequestStatistics.TimerLife | src/http/request_stats.h:84-100 | any use of a timer, destructor included, adds exactly one record: that of the first finish, or a failure |
| StatsReporters.RowTotals | src/stats_reporter.h:61-75 | a row's connects and bytes are the log's totals for its key modulo 2^64 |
| StatsReporters.RowShowsLast | src/stats_reporter.h:61-75 | a row exists exactly when its key has an event, and shows the name, user and time of the last one |
| StatsReporters.CString | src/stats_reporter.h:66 | the longest prefix of at most `n` characters without a NUL |
| StatsReporters.TrafficIsSum | src/stats_reporter.h:86-90 | the sort key is the bytes sent and received together, modulo 2^64 |
| StatsReporters.PrefixIsTop | src/stats_reporter.h:80-116 | in any order of all rows with descending bytes both ways modulo 2^64, the first `n` are a correct top `n`, whatever the order of ties |
| StatsReporters.TopIsBusiest | src/stats_reporter.h:86-116 | the rows shown are in non-increasing order of the bytes the log has for their keys, and no key of the log left out has more |
| StatsReporters.StatsReporter.Record | src/stats_reporter.h:61-75 | one event appended to the log, and the map stays the log's fold |
| StatsReporters.StatsReporter.Clear | src/stats_reporter.h:126-130 | the log starts afresh |
| StatsReporters.StatsReporter.SumRows | src/stats_reporter.h:135-140 | a counter summed over all rows is the log's grand total modulo 2^64 |
| StatsReporters.StatsReporter.SortedRows | src/stats_reporter.h:80-90 | all rows, each once, in non-increasing order of the bytes the log has for their keys, both ways, modulo 2^64 |
| StatsReporters.StatsReporter.PrintTop | src/stats_reporter.h:78-118 | min(max(n, 0), rows) distinct rows, busiest first by the bytes the log has for their keys, and no key of the log left out is busier than one shown |
| TcpTracers.Tracer.TraceConnect | bpf/tcp_tracer.bpf.c:34-87 | unless a non-zero filter names another process or port, the event, given field by field, is sent when the stream has room and stored when the map has; otherwise nothing changes |
| TcpTracers.Tracer.TraceClose | bpf/tcp_tracer.bpf.c:90-127 | the event, given field by field from the pending entry or else the socket, is sent and the entry removed; nothing changes when the reservation fails |
| TcpTracers.ConnectIsSentExactlyWhen | bpf/tcp_tracer.bpf.c:34-84 | over any history, a connect reaches the stream if and only if there is room and neither filter rejects it, with the probe's own fields |
| TcpTracers.PendingIsLatest | bpf/tcp_tracer.bpf.c:60-104 | an entry of the pending map is always the latest admitted connect of its process not consumed by a close, despite full-map failures |
| TcpTracers.NothingForgotten | bpf/tcp_tracer.bpf.c:19-104 | with at most 4096 processes an entry is present exactly when the process has such a connect |
| TcpTracers.CloseIsRightExactlyWhen | bpf/tcp_tracer.bpf.c:90-118 | a close carries its own socket's addresses if and only if the process's open connect, when the map took it, is for the same ones |
| TcpTracers.CloseReports | bpf/tcp_tracer.bpf.c:96-123 | a close reports the addresses, user and name of the process's open connect when the map took it, otherwise its own, and always its own time and bytes |
| TcpTracers.TwoConnectsMisattribute | bpf/tcp_tracer.bpf.c:90-118 | a concrete run in which a close is booked on another socket |
| TcpTracers.DisciplinedCloseIsRight | bpf/tcp_tracer.bpf.c:51-118 | when each process closes a socket before connecting the next and no close is dropped, every close carries its own socket's addresses |
| TcpTracers.RowsBelongToSockets | bpf/tcp_tracer.bpf.c:34-127 | under that discipline each reporter row holds exactly the connects and bytes of its own socket and process, modulo 2^64 |

## Left out

- The full C++ memory model: index loads may be stale and acquire loads synchronise, but steps are otherwise interleaved; that slot contents are not read stale rests on the race freedom that is proved.
- `size()` called from a third thread, which the code calls approximate, and `size()` inside the composed pipeline; the two owning threads' calls on one ring are covered.
- The free ring under real concurrency when RingSize < PoolSize: after a drop two threads fill it, so the pipeline model allows anything from there on; with whole calls taken one at a time that case is covered by the batch processor class.
- Pipeline.NothingDroppedOrLost: assumes clients that send only packets they allocated, once each, from one thread.
- PacketProcessors.BatchProcessor.Send: takes packets the caller holds; sending a pointer that was not allocated is not modelled.
- Packet handlers are functions of the packet they are given; a handler that touches other packets or calls back into the processor is not modelled.
- Packet fields other than the length, cache-line alignment, raw storage and placement construction: pool slots are numbers.
- ThreadPoolObjects.ThreadPool.WorkerLoop: covers one worker after stop with the others standing by; the loop among other workers and before stop is the transition system's.
- The thread pool's counters are unbounded in the transition system; the object keeps them in 64 bits.
- Exceptions from memory allocation and thread creation, and the stop token, which the worker loop does not use.
- The mean latency as a floating-point number; the integer inequality behind it is proved. The clock is a parameter.
- `std::sort` is modelled by insertion; the order of ties, which it leaves open, does not matter to the result. The counter of shown rows is not cut to 32 bits.
- Each probe is one atomic step, and a socket's addresses do not change between its connect and its close.
- Screen output, address and byte formatting, the key's hash function, the number of connections.
- `src/http/async_server.h`, `src/http/metrics.h`, the JSON routes and argument parsing of `src/monitor.cpp`, `src/ebpf_loader.h`: sockets, text formatting and library wrappers.
- `bpf/syscall_audit.bpf.c`, `bpf/net_stats.bpf.c`: short filters and counters that would only add easy members.
