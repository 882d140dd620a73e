/**
 The thread pool as a transition system: workers, submitting threads and the destructor
 interleave at the granularity of lock acquisition, counter updates, notifications and the
 ends of task bodies. Condition-variable waits may end spuriously, notifications are sent
 after the lock is released, bodies may throw, and anything may call `submit` at any time,
 task bodies and latecomers included.
 */
module ThreadPools {
  import opened Options

  /** A packaged task; two submissions may carry the same one. */
  type Task = nat

  datatype Outcome = Returned | Threw

  /** A task's outcome as its future shows it. */
  type Result = (Task, Outcome)

  datatype Worker =
    | Checking                                  // awake, about to take the lock and test the predicate
    | Asleep                                    // blocked in the condition variable
    | Popping(task: Task)                       // holds the lock, task popped, m_pending not yet lowered
    | Holding(task: Task)                       // running a task body
    | Counted(task: Task, outcome: Outcome)     // body over, guard has run, future not yet ready
    | Exited

  /** Who holds m_mtx in the middle of a critical section that has changed the queue. */
  datatype Lock = Free | BySubmitter | ByWorker(w: nat)

  datatype Destructor = Running | StopSet | Joining | Done

  datatype Pool = Pool(
    workers: seq<Worker>,
    queue: seq<Task>,
    stop: bool,
    pending: int,             // m_pending, before it is cut to 64 bits
    completed: nat,           // m_completed, before it is cut to 64 bits
    lock: Lock,
    unnotified: nat,          // submitters that have released the lock and not yet called notify_one
    dtor: Destructor)

  /** The constructor starts at least one worker. */
  ghost function Start(threads: nat): Pool {
    Pool(seq(if threads == 0 then 1 else threads, _ => Checking), [], false, 0, 0, Free, 0, Running)
  }

  datatype Event =
    | Accept(task: Task)                                 // submit: lock taken, not stopped, task queued
    | Reject                                             // submit: lock taken, stopped, throws
    | CountPush                                          // submit: ++m_pending, lock released
    | NotifyOne(woken: Option<nat>)                      // submit: notify_one reaches a sleeper, if any
    | Sleep(w: nat)                                      // predicate false: lock released, worker blocks
    | Take(w: nat, task: Task)                           // predicate true: front task popped
    | CountPop(w: nat)                                   // --m_pending, lock released
    | Exit(w: nat)                                       // stopped and nothing queued: worker returns
    | Finish(w: nat, task: Task, outcome: Outcome)       // body over, CompletionGuard bumps m_completed
    | Resolve(w: nat, task: Task, outcome: Outcome)      // packaged_task makes the future ready
    | Wake(w: nat)                                       // spurious wakeup
    | SetStop                                            // destructor: m_stop = true
    | NotifyAll                                          // destructor: notify_all
    | Joined                                             // destructor: every worker joined

  ghost predicate Is(s: Pool, w: nat, p: Worker) {
    w < |s.workers| && s.workers[w] == p
  }

  ghost predicate Enabled(s: Pool, e: Event) {
    match e
    case Accept(_) => s.lock.Free? && !s.stop
    case Reject => s.lock.Free? && s.stop
    case CountPush => s.lock.BySubmitter?
    case NotifyOne(woken) =>
      && s.unnotified > 0
      && (woken.Some? ==> Is(s, woken.value, Asleep))
      && (woken.None? ==> Asleep !in s.workers)
    case Sleep(w) => s.lock.Free? && Is(s, w, Checking) && !s.stop && s.queue == []
    case Take(w, task) => s.lock.Free? && Is(s, w, Checking) && s.queue != [] && task == s.queue[0]
    case CountPop(w) => s.lock == ByWorker(w) && w < |s.workers| && s.workers[w].Popping?
    case Exit(w) => s.lock.Free? && Is(s, w, Checking) && s.stop && s.queue == []
    case Finish(w, task, _) => Is(s, w, Holding(task))
    case Resolve(w, task, outcome) => Is(s, w, Counted(task, outcome))
    case Wake(w) => Is(s, w, Asleep)
    case SetStop => s.dtor.Running? && s.lock.Free?
    case NotifyAll => s.dtor.StopSet?
    case Joined => s.dtor.Joining? && forall w :: 0 <= w < |s.workers| ==> s.workers[w].Exited?
  }

  ghost function Set(s: Pool, w: nat, p: Worker): Pool
    requires w < |s.workers|
  {
    s.(workers := s.workers[w := p])
  }

  ghost function Awake(p: Worker): Worker {
    if p.Asleep? then Checking else p
  }

  ghost function WakeAll(ws: seq<Worker>): (ws': seq<Worker>)
    ensures |ws'| == |ws|
  {
    seq(|ws|, i requires 0 <= i < |ws| => Awake(ws[i]))
  }

  ghost function Apply(s: Pool, e: Event): Pool
    requires Enabled(s, e)
  {
    match e
    case Accept(task) => s.(queue := s.queue + [task], lock := BySubmitter)
    case Reject => s
    case CountPush => s.(pending := s.pending + 1, lock := Free, unnotified := s.unnotified + 1)
    case NotifyOne(woken) =>
      var s1 := s.(unnotified := s.unnotified - 1);
      if woken.Some? then Set(s1, woken.value, Checking) else s1
    case Sleep(w) => Set(s, w, Asleep)
    case Take(w, task) => Set(s, w, Popping(task)).(queue := s.queue[1..], lock := ByWorker(w))
    case CountPop(w) => Set(s, w, Holding(s.workers[w].task)).(pending := s.pending - 1, lock := Free)
    case Exit(w) => Set(s, w, Exited)
    case Finish(w, task, outcome) => Set(s, w, Counted(task, outcome)).(completed := s.completed + 1)
    case Resolve(w, task, outcome) => Set(s, w, Checking)
    case Wake(w) => Set(s, w, Checking)
    case SetStop => s.(stop := true, dtor := StopSet)
    case NotifyAll => s.(workers := WakeAll(s.workers), dtor := Joining)
    case Joined => s.(dtor := Done)
  }

  /** The state after a run, or nothing when some step of it was not possible. */
  ghost function Exec(s: Pool, es: seq<Event>): Option<Pool> {
    if es == [] then Some(s)
    else
      match Exec(s, es[..|es| - 1])
      case None => None
      case Some(s1) => if Enabled(s1, es[|es| - 1]) then Some(Apply(s1, es[|es| - 1])) else None
  }

  // ---------- What a run has done ----------

  /** The tasks accepted, in lock order. */
  ghost function Accepted(es: seq<Event>): seq<Task> {
    if es == [] then []
    else
      var e := es[|es| - 1];
      Accepted(es[..|es| - 1]) + if e.Accept? then [e.task] else []
  }

  /** The tasks taken off the queue, in order. */
  ghost function Taken(es: seq<Event>): seq<Task> {
    if es == [] then []
    else
      var e := es[|es| - 1];
      Taken(es[..|es| - 1]) + if e.Take? then [e.task] else []
  }

  /** The bodies that have returned or thrown and whose guard has run. */
  ghost function Finished(es: seq<Event>): multiset<Result> {
    if es == [] then multiset{}
    else
      var e := es[|es| - 1];
      Finished(es[..|es| - 1]) + if e.Finish? then multiset{(e.task, e.outcome)} else multiset{}
  }

  /** The futures that have become ready. */
  ghost function Ready(es: seq<Event>): multiset<Result> {
    if es == [] then multiset{}
    else
      var e := es[|es| - 1];
      Ready(es[..|es| - 1]) + if e.Resolve? then multiset{(e.task, e.outcome)} else multiset{}
  }

  /** The tasks whose futures have become ready. */
  ghost function ReadyTasks(es: seq<Event>): multiset<Task> {
    if es == [] then multiset{}
    else
      var e := es[|es| - 1];
      ReadyTasks(es[..|es| - 1]) + if e.Resolve? then multiset{e.task} else multiset{}
  }

  lemma ExecThen(s0: Pool, es: seq<Event>, s: Pool, e: Event)
    requires Exec(s0, es) == Some(s) && Enabled(s, e)
    ensures Exec(s0, es + [e]) == Some(Apply(s, e))
    ensures Taken(es + [e]) == Taken(es) + if e.Take? then [e.task] else []
  {
    assert (es + [e])[..|es|] == es;
  }

  lemma ResultsThen(es: seq<Event>, e: Event)
    ensures if e.Finish? then Finished(es + [e]) == Finished(es) + multiset{(e.task, e.outcome)}
            else Finished(es + [e]) == Finished(es)
    ensures if e.Resolve? then Ready(es + [e]) == Ready(es) + multiset{(e.task, e.outcome)}
            else Ready(es + [e]) == Ready(es)
  {
    assert (es + [e])[..|es|] == es;
  }
}
