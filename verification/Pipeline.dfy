/**
 The batch processor under real concurrency: a sending thread that allocates packets and
 sends them, and a processing thread that receives bursts and returns them to the pool.

 Both rings run step by step as in RingProtocol.dfy. Slots go round: free ring, sender,
 packet ring, burst, free ring. Index loads may be stale; what ties the two rings together is
 that an acquire load sees everything the other thread did before the release store it reads.
 The stamps below record, for every store to a head, how far the storing thread's own tail
 stores on the other ring had got, and an acquire load raises the reader's view to that.
 */
module Pipeline {
  import opened Options
  import opened Words
  import opened RingSpec
  import opened RingProtocol
  import opened RingWrap
  import opened PoolSlots

  datatype Sys = Sys(
    pkt: State<nat>,          // ring_, filled by the sender, drained by the processor
    free: State<nat>,         // pool_.free_ring_, filled by the processor, drained by the sender
    held: multiset<nat>,      // packets the sender has allocated and not yet sent
    burst: seq<nat>,          // packets the processor has received and not yet returned
    leaked: multiset<nat>,    // packets free_burst did not manage to return
    dropped: bool,            // a send has found the packet ring full
    freeStamp: seq<nat>,      // per store to the free head: place of the newest packet tail then
    pktStamp: seq<nat>)       // per store to the packet head: place of the newest free tail then

  ghost predicate Shaped(s: Sys) {
    && s.pkt.heads != [] && s.pkt.tails != [] && s.free.heads != [] && s.free.tails != []
    && |s.freeStamp| == |s.free.heads| && |s.pktStamp| == |s.pkt.heads|
  }

  /** The pool has put all its slots on the free list; nothing has been sent. */
  ghost function Start(ringData: seq<nat>, poolSize: nat): (s: Sys)
    ensures Shaped(s)
  {
    Sys(Fresh(ringData), State(Slots(poolSize), [poolSize], [0], 0, 0, PIdle, CIdle),
        multiset{}, [], multiset{}, false, [0], [0])
  }

  ghost function Max(a: nat, b: nat): nat {
    if a < b then b else a
  }

  /**
   `Alloc` steps are the sender's `alloc_packet`, `Send` steps its `send`; `Recv` and `Return`
   steps are the processor's `dequeue_burst` and `free_burst`. After a drop the sender too
   writes to the free ring, which that ring does not allow: anything may follow.
   */
  datatype Step = Alloc(e: Event<nat>) | Send(e: Event<nat>) | Recv(e: Event<nat>) | Return(e: Event<nat>)
                | Chaos(next: Sys)

  ghost predicate Possible(w: Width, s: Sys, a: Step)
    requires Shaped(s)
  {
    match a
    case Alloc(e) =>
      && (e.CStart? || e.CLoad? || e.CEmpty? || e.CCopy? || e.CPublish?)
      && (e.CStart? ==> e.want.Next? && s.pkt.prod.PIdle?)
      && Enabled(w, s.free, e)
    case Send(e) =>
      && (e.PStart? || e.PLoad? || e.PFull? || e.PCopy? || e.PPublish?)
      && (e.PStart? ==> e.call.One? && e.call.item in s.held && s.free.cons.CIdle?)
      && Enabled(w, s.pkt, e)
    case Recv(e) =>
      && (e.CStart? || e.CLoad? || e.CCopy? || e.CPublish?)
      && (e.CStart? ==> e.want == UpTo(BURST_SIZE) && s.burst == [] && s.free.prod.PIdle?)
      && Enabled(w, s.pkt, e)
    case Return(e) =>
      && (e.PStart? || e.PLoad? || e.PCopy? || e.PPublish?)
      && (e.PStart? ==> e.call == Burst(s.burst) && s.burst != [] && s.pkt.cons.CIdle?)
      && Enabled(w, s.free, e)
    case Chaos(next) => s.dropped && Shaped(next)
  }

  ghost function Perform(w: Width, s: Sys, a: Step): (s': Sys)
    requires Shaped(s) && Possible(w, s, a)
    ensures Shaped(s')
  {
    match a
    case Alloc(e) =>
      s.(free := Apply(w, s.free, e),
         held := if e.CPublish? then s.held + multiset(e.taken) else s.held,
         pkt := if e.CLoad? || e.CEmpty? then s.pkt.(seenTail := Max(s.pkt.seenTail, s.freeStamp[e.m])) else s.pkt)
    case Send(e) =>
      s.(pkt := Apply(w, s.pkt, e),
         held := if e.PPublish? then s.held - multiset(e.accepted) else s.held,
         dropped := s.dropped || e.PFull?,
         pktStamp := if e.PPublish? then s.pktStamp + [|s.free.tails| - 1] else s.pktStamp)
    case Recv(e) =>
      s.(pkt := Apply(w, s.pkt, e),
         burst := if e.CPublish? then e.taken else s.burst,
         free := if e.CLoad? then s.free.(seenTail := Max(s.free.seenTail, s.pktStamp[e.m])) else s.free)
    case Return(e) =>
      s.(free := Apply(w, s.free, e),
         burst := if e.PPublish? then [] else s.burst,
         leaked := if e.PPublish? && |e.accepted| <= |s.burst|
                   then s.leaked + multiset(s.burst[|e.accepted|..]) else s.leaked,
         freeStamp := if e.PPublish? then s.freeStamp + [|s.pkt.tails| - 1] else s.freeStamp)
    case Chaos(next) => next
  }

  ghost function Play(w: Width, s: Sys, steps: seq<Step>): (r: Option<Sys>)
    requires Shaped(s)
    ensures r.Some? ==> Shaped(r.value)
  {
    if steps == [] then Some(s)
    else
      match Play(w, s, steps[..|steps| - 1])
      case None => None
      case Some(s1) =>
        if Possible(w, s1, steps[|steps| - 1]) then Some(Perform(w, s1, steps[|steps| - 1])) else None
  }

  // ---------- The invariant, for counters that do not wrap ----------

  /** Each thread is in one call at a time, on packets it owns. */
  ghost predicate Disciplined(s: Sys) {
    && (!s.pkt.prod.PIdle? ==>
          s.free.cons.CIdle? && s.pkt.prod.call.One? && s.pkt.prod.call.item in s.held)
    && (s.pkt.prod.PCopying? ==> s.pkt.prod.cnt == 1)
    && (!s.pkt.cons.CIdle? ==> s.free.prod.PIdle? && s.burst == [])
    && (s.pkt.cons.CLoaded? ==> s.pkt.cons.want == UpTo(BURST_SIZE))
    && (!s.free.prod.PIdle? ==> s.free.prod.call == Burst(s.burst))
    && (s.free.prod.PCopying? ==> s.free.prod.cnt == |s.burst|)
  }

  /** Packets are counted by the four indices. */
  ghost predicate Counted(s: Sys)
    requires Shaped(s)
  {
    && |s.held| == Newest(s.free.tails) - Newest(s.pkt.heads)
    && |s.burst| == Newest(s.pkt.tails) + |s.free.data| - Newest(s.free.heads)
  }

  /** What an acquire load of one ring tells a thread about the other ring. */
  ghost predicate Synchronised(s: Sys)
    requires Shaped(s)
  {
    && (forall m :: 0 <= m < |s.freeStamp| ==>
          s.freeStamp[m] < |s.pkt.tails| && s.free.heads[m] <= s.pkt.tails[s.freeStamp[m]] + |s.free.data|)
    && (forall m :: 0 <= m < |s.pktStamp| ==>
          s.pktStamp[m] < |s.free.tails| && s.pkt.heads[m] <= s.free.tails[s.pktStamp[m]])
    && s.free.seenHead < |s.freeStamp| && s.freeStamp[s.free.seenHead] <= s.pkt.seenTail
    && s.pkt.seenHead < |s.pktStamp| && s.pktStamp[s.pkt.seenHead] <= s.free.seenTail
  }

  /** Every slot of the pool is in exactly one place. */
  ghost predicate Partition(s: Sys)
    requires Inv(s.pkt) && Inv(s.free)
  {
    multiset(Contents(s.free)) + s.held + multiset(Contents(s.pkt)) + multiset(s.burst)
      == multiset(Slots(|s.free.data|))
  }

  ghost predicate SysInv(s: Sys) {
    && Shaped(s) && Inv(s.pkt) && Inv(s.free)
    && |s.free.data| <= |s.pkt.data|
    && !s.dropped && s.leaked == multiset{}
    && Disciplined(s) && Counted(s) && Synchronised(s) && Partition(s)
  }

  lemma WholePool(n: nat)
    ensures Window(Slots(n), 0, n) == Slots(n)
  {
    forall i | 0 <= i < n
      ensures Window(Slots(n), 0, n)[i] == i
    {
      assert Slot(n, 0 + i) == i;
    }
  }

  lemma StartOwners(ringData: seq<nat>, poolSize: nat, s: Sys)
    requires s == Start(ringData, poolSize)
    ensures Inv(s.pkt) && Inv(s.free) && Partition(s)
  {
    FreshInv(ringData);
    WholePool(poolSize);
    assert Contents(s.free) == Slots(poolSize);
  }

  lemma StartOrder(ringData: seq<nat>, poolSize: nat, s: Sys)
    requires s == Start(ringData, poolSize)
    ensures Disciplined(s) && Counted(s) && Synchronised(s)
  {
  }

  lemma StartInv(ringData: seq<nat>, poolSize: nat, s: Sys)
    requires s == Start(ringData, poolSize) && poolSize <= |ringData|
    ensures SysInv(s)
  {
    StartOwners(ringData, poolSize, s);
    StartOrder(ringData, poolSize, s);
  }

  /** Learning of a newer tail does not disturb a producer. */
  lemma SeeNewerTail<T>(s: State<T>, m: nat)
    requires Inv(s) && s.seenTail <= m < |s.tails|
    ensures Inv(s.(seenTail := m)) && Contents(s.(seenTail := m)) == Contents(s)
  {
    assert s.tails[s.seenTail] <= s.tails[m];
  }

  lemma AllocLoads(s: Sys, e: Event<nat>)
    requires SysInv(s) && (e.CLoad? || e.CEmpty?) && Possible(Unbounded, s, Alloc(e))
    ensures SysInv(Perform(Unbounded, s, Alloc(e)))
  {
    StepKeepsInv(s.free, e);
    SeeNewerTail(s.pkt, Max(s.pkt.seenTail, s.freeStamp[e.m]));
  }

  lemma AllocKeepsInv(s: Sys, e: Event<nat>)
    requires SysInv(s) && Possible(Unbounded, s, Alloc(e))
    ensures SysInv(Perform(Unbounded, s, Alloc(e)))
  {
    if e.CLoad? || e.CEmpty? {
      AllocLoads(s, e);
    } else {
      StepKeepsInv(s.free, e);
    }
  }

  /** A packet the sender still holds always finds room, even if the tail it loads is stale. */
  lemma SendFindsRoom(s: Sys, m: nat)
    requires SysInv(s) && s.pkt.prod.PLoaded? && s.pkt.seenTail <= m < |s.pkt.tails|
    ensures Room(Unbounded, |s.pkt.data|, s.pkt.prod.call, s.pkt.prod.h, s.pkt.tails[m]) == 1
  {
    var t := s.pkt.tails[m];
    assert s.pkt.tails[s.freeStamp[s.free.seenHead]] <= t;
    assert Newest(s.free.tails) <= t + |s.free.data|;
    assert |s.held| >= 1;
  }

  lemma SendLoads(s: Sys, e: Event<nat>)
    requires SysInv(s) && (e.PLoad? || e.PFull?) && Possible(Unbounded, s, Send(e))
    ensures SysInv(Perform(Unbounded, s, Send(e)))
  {
    SendFindsRoom(s, e.m);
    StepKeepsInv(s.pkt, e);
  }

  lemma SendKeepsOwners(s: Sys, accepted: seq<nat>)
    requires SysInv(s) && Possible(Unbounded, s, Send(PPublish(accepted)))
    ensures var s' := Perform(Unbounded, s, Send(PPublish(accepted)));
            |accepted| == 1 && |s'.held| == |s.held| - 1 && Inv(s'.pkt) && Partition(s')
  {
    var s' := Perform(Unbounded, s, Send(PPublish(accepted)));
    StepKeepsInv(s.pkt, PPublish(accepted));
    assert accepted == [s.pkt.prod.call.item];
    assert s.held == s'.held + multiset(accepted);
  }

  lemma SendKeepsSync(s: Sys, accepted: seq<nat>)
    requires SysInv(s) && Possible(Unbounded, s, Send(PPublish(accepted)))
    ensures Synchronised(Perform(Unbounded, s, Send(PPublish(accepted))))
  {
    assert |s.held| >= 1;
  }

  lemma SendPublishes(s: Sys, accepted: seq<nat>)
    requires SysInv(s) && Possible(Unbounded, s, Send(PPublish(accepted)))
    ensures SysInv(Perform(Unbounded, s, Send(PPublish(accepted))))
  {
    SendKeepsOwners(s, accepted);
    SendKeepsSync(s, accepted);
    StepKeepsInv(s.pkt, PPublish(accepted));
  }

  lemma SendKeepsInv(s: Sys, e: Event<nat>)
    requires SysInv(s) && Possible(Unbounded, s, Send(e))
    ensures SysInv(Perform(Unbounded, s, Send(e)))
  {
    if e.PLoad? || e.PFull? {
      SendLoads(s, e);
    } else if e.PPublish? {
      SendPublishes(s, e.accepted);
    } else {
      StepKeepsInv(s.pkt, e);
    }
  }

  lemma RecvLoads(s: Sys, e: Event<nat>)
    requires SysInv(s) && e.CLoad? && Possible(Unbounded, s, Recv(e))
    ensures SysInv(Perform(Unbounded, s, Recv(e)))
  {
    StepKeepsInv(s.pkt, e);
    SeeNewerTail(s.free, Max(s.free.seenTail, s.pktStamp[e.m]));
  }

  lemma RecvPublishes(s: Sys, taken: seq<nat>)
    requires SysInv(s) && Possible(Unbounded, s, Recv(CPublish(taken)))
    ensures SysInv(Perform(Unbounded, s, Recv(CPublish(taken))))
  {
    StepKeepsInv(s.pkt, CPublish(taken));
  }

  lemma RecvKeepsInv(s: Sys, e: Event<nat>)
    requires SysInv(s) && Possible(Unbounded, s, Recv(e))
    ensures SysInv(Perform(Unbounded, s, Recv(e)))
  {
    if e.CLoad? {
      RecvLoads(s, e);
    } else if e.CPublish? {
      RecvPublishes(s, e.taken);
    } else {
      StepKeepsInv(s.pkt, e);
    }
  }

  /** The free ring has room for the whole burst, even if the tail the processor loads is stale. */
  lemma ReturnFindsRoom(s: Sys, m: nat)
    requires SysInv(s) && s.free.prod.PLoaded? && s.free.seenTail <= m < |s.free.tails|
    ensures Room(Unbounded, |s.free.data|, s.free.prod.call, s.free.prod.h, s.free.tails[m]) == |s.burst|
  {
    var t := s.free.tails[m];
    assert s.free.tails[s.pktStamp[s.pkt.seenHead]] <= t;
    assert Newest(s.pkt.tails) <= t;
  }

  lemma ReturnPublishes(s: Sys, accepted: seq<nat>)
    requires SysInv(s) && Possible(Unbounded, s, Return(PPublish(accepted)))
    ensures SysInv(Perform(Unbounded, s, Return(PPublish(accepted))))
  {
    var s' := Perform(Unbounded, s, Return(PPublish(accepted)));
    StepKeepsInv(s.free, PPublish(accepted));
    assert accepted == s.burst && s.burst[|accepted|..] == [];
    assert Synchronised(s');
  }

  lemma ReturnKeepsInv(s: Sys, e: Event<nat>)
    requires SysInv(s) && Possible(Unbounded, s, Return(e))
    ensures SysInv(Perform(Unbounded, s, Return(e)))
  {
    if e.PPublish? {
      ReturnPublishes(s, e.accepted);
    } else {
      StepKeepsInv(s.free, e);
      if e.PLoad? {
        ReturnFindsRoom(s, e.m);
      }
    }
  }

  lemma PerformKeepsInv(s: Sys, a: Step)
    requires SysInv(s) && Possible(Unbounded, s, a)
    ensures SysInv(Perform(Unbounded, s, a))
  {
    match a
    case Alloc(e) => AllocKeepsInv(s, e);
    case Send(e) => SendKeepsInv(s, e);
    case Recv(e) => RecvKeepsInv(s, e);
    case Return(e) => ReturnKeepsInv(s, e);
    case Chaos(_) =>
  }

  // ---------- The order in which packets go round ----------

  /** The packets handed out by `alloc_packet`, in order. */
  ghost function Allocated(steps: seq<Step>): seq<nat> {
    if steps == [] then []
    else
      var a := steps[|steps| - 1];
      Allocated(steps[..|steps| - 1]) + if a.Alloc? && a.e.CPublish? then a.e.taken else []
  }

  /** The packets accepted by `send`, in order. */
  ghost function Sent(steps: seq<Step>): seq<nat> {
    if steps == [] then []
    else
      var a := steps[|steps| - 1];
      Sent(steps[..|steps| - 1]) + if a.Send? && a.e.PPublish? then a.e.accepted else []
  }

  /** The packets received by `process_burst`, in order. */
  ghost function Received(steps: seq<Step>): seq<nat> {
    if steps == [] then []
    else
      var a := steps[|steps| - 1];
      Received(steps[..|steps| - 1]) + if a.Recv? && a.e.CPublish? then a.e.taken else []
  }

  /** The packets put back on the free list, in order. */
  ghost function Returned(steps: seq<Step>): seq<nat> {
    if steps == [] then []
    else
      var a := steps[|steps| - 1];
      Returned(steps[..|steps| - 1]) + if a.Return? && a.e.PPublish? then a.e.accepted else []
  }

  /** Both rings are queues over the whole run, and bursts are returned as they were received. */
  ghost predicate Ordered(s: Sys, steps: seq<Step>)
    requires Inv(s.pkt) && Inv(s.free)
  {
    && Received(steps) + Contents(s.pkt) == Sent(steps)
    && Allocated(steps) + Contents(s.free) == Slots(|s.free.data|) + Returned(steps)
    && Returned(steps) + s.burst == Received(steps)
  }

  lemma OneMoreStep(steps: seq<Step>, a: Step)
    ensures Allocated(steps + [a]) == Allocated(steps) + if a.Alloc? && a.e.CPublish? then a.e.taken else []
    ensures Sent(steps + [a]) == Sent(steps) + if a.Send? && a.e.PPublish? then a.e.accepted else []
    ensures Received(steps + [a]) == Received(steps) + if a.Recv? && a.e.CPublish? then a.e.taken else []
    ensures Returned(steps + [a]) == Returned(steps) + if a.Return? && a.e.PPublish? then a.e.accepted else []
  {
    assert (steps + [a])[..|steps|] == steps;
  }

  /** A ring changes at the publishing steps of the two threads that use it and nowhere else. */
  lemma PktStep(s: Sys, a: Step, s': Sys)
    requires Shaped(s) && Inv(s.pkt) && !s.dropped
    requires Possible(Unbounded, s, a) && s' == Perform(Unbounded, s, a) && Inv(s'.pkt)
    ensures if a.Send? || a.Recv? then QueueStep(Contents(s.pkt), a.e, Contents(s'.pkt))
            else Contents(s'.pkt) == Contents(s.pkt)
  {
    if a.Send? || a.Recv? {
      StepKeepsInv(s.pkt, a.e);
    }
  }

  lemma FreeStep(s: Sys, a: Step, s': Sys)
    requires Shaped(s) && Inv(s.free) && !s.dropped
    requires Possible(Unbounded, s, a) && s' == Perform(Unbounded, s, a) && Inv(s'.free)
    ensures if a.Alloc? || a.Return? then QueueStep(Contents(s.free), a.e, Contents(s'.free))
            else Contents(s'.free) == Contents(s.free)
  {
    if a.Alloc? || a.Return? {
      StepKeepsInv(s.free, a.e);
    }
  }

  /** The burst in the processor's hands is filled by a receive and emptied by the return. */
  ghost predicate BurstMoves(a: Step, burst: seq<nat>, burst': seq<nat>) {
    if a.Recv? && a.e.CPublish? then burst' == burst + a.e.taken
    else if a.Return? && a.e.PPublish? then burst == a.e.accepted + burst'
    else burst' == burst
  }

  lemma BurstStep(s: Sys, a: Step)
    requires SysInv(s) && Possible(Unbounded, s, a)
    ensures BurstMoves(a, s.burst, Perform(Unbounded, s, a).burst)
  {
  }

  lemma PktOrder(s: Sys, steps: seq<Step>, a: Step, s': Sys)
    requires Shaped(s) && Inv(s.pkt) && !s.dropped
    requires Possible(Unbounded, s, a) && s' == Perform(Unbounded, s, a) && Inv(s'.pkt)
    requires Received(steps) + Contents(s.pkt) == Sent(steps)
    ensures Received(steps + [a]) + Contents(s'.pkt) == Sent(steps + [a])
  {
    OneMoreStep(steps, a);
    PktStep(s, a, s');
    if a.Send? || a.Recv? {
      assert [] + Sent(steps) == Sent(steps);
      QueueHistory(Received(steps), Contents(s.pkt), [], Sent(steps), a.e, Contents(s'.pkt));
    } else {
      assert Received(steps) + [] == Received(steps) && Sent(steps) + [] == Sent(steps);
    }
  }

  lemma FreeOrder(s: Sys, steps: seq<Step>, a: Step, s': Sys, all: seq<nat>)
    requires Shaped(s) && Inv(s.free) && !s.dropped
    requires Possible(Unbounded, s, a) && s' == Perform(Unbounded, s, a) && Inv(s'.free)
    requires Allocated(steps) + Contents(s.free) == all + Returned(steps)
    ensures Allocated(steps + [a]) + Contents(s'.free) == all + Returned(steps + [a])
  {
    OneMoreStep(steps, a);
    FreeStep(s, a, s');
    if a.Alloc? || a.Return? {
      QueueHistory(Allocated(steps), Contents(s.free), all, Returned(steps), a.e, Contents(s'.free));
    } else {
      assert Allocated(steps) + [] == Allocated(steps) && Returned(steps) + [] == Returned(steps);
    }
  }

  lemma BurstOrder(steps: seq<Step>, a: Step, burst: seq<nat>, burst': seq<nat>)
    requires BurstMoves(a, burst, burst')
    requires Returned(steps) + burst == Received(steps)
    ensures Returned(steps + [a]) + burst' == Received(steps + [a])
  {
    OneMoreStep(steps, a);
    var returned, received := Returned(steps), Received(steps);
    assert returned + [] == returned && received + [] == received;
    if a.Recv? && a.e.CPublish? {
      assert returned + (burst + a.e.taken) == (returned + burst) + a.e.taken;
    } else if a.Return? && a.e.PPublish? {
      assert returned + (a.e.accepted + burst') == (returned + a.e.accepted) + burst';
    }
  }

  lemma StartOrdered(ringData: seq<nat>, poolSize: nat, s: Sys)
    requires s == Start(ringData, poolSize) && Inv(s.pkt) && Inv(s.free)
    ensures Ordered(s, [])
  {
    WholePool(poolSize);
    assert Contents(s.pkt) == [] && Contents(s.free) == Slots(poolSize);
  }

  lemma StepKeepsOrder(s: Sys, steps: seq<Step>, a: Step)
    requires SysInv(s) && Possible(Unbounded, s, a) && Ordered(s, steps)
    requires SysInv(Perform(Unbounded, s, a)) && |Perform(Unbounded, s, a).free.data| == |s.free.data|
    ensures Ordered(Perform(Unbounded, s, a), steps + [a])
  {
    var s' := Perform(Unbounded, s, a);
    PktOrder(s, steps, a, s');
    FreeOrder(s, steps, a, s', Slots(|s.free.data|));
    BurstStep(s, a);
    BurstOrder(steps, a, s.burst, s'.burst);
  }

  // ---------- The same system with the code's 64-bit indices ----------

  ghost function WrapSys(s: Sys): Sys {
    s.(pkt := WrapState(s.pkt), free := WrapState(s.free))
  }

  ghost predicate SysSized(s: Sys) {
    Sized(s.pkt) && Sized(s.free)
  }

  /** Both widths allow the same step, with corresponding results. */
  ghost predicate SysAgree(s: Sys, a: Step)
    requires Shaped(s)
  {
    && (Possible(Bits64, WrapSys(s), a) <==> Possible(Unbounded, s, a))
    && (Possible(Unbounded, s, a) ==> Perform(Bits64, WrapSys(s), a) == WrapSys(Perform(Unbounded, s, a)))
  }

  lemma AllocPossible(s: Sys, e: Event<nat>)
    requires Shaped(s) && Inv(s.free) && Sized(s.free)
    ensures Possible(Bits64, WrapSys(s), Alloc(e)) <==> Possible(Unbounded, s, Alloc(e))
  {
    StepAgrees(s.free, e);
  }

  lemma AllocAgrees(s: Sys, e: Event<nat>)
    requires Shaped(s) && Inv(s.free) && Sized(s.free)
    ensures SysAgree(s, Alloc(e))
  {
    AllocPossible(s, e);
    if Possible(Unbounded, s, Alloc(e)) {
      StepAgrees(s.free, e);
    }
  }

  lemma SendPossible(s: Sys, e: Event<nat>)
    requires Shaped(s) && Inv(s.pkt) && Sized(s.pkt)
    ensures Possible(Bits64, WrapSys(s), Send(e)) <==> Possible(Unbounded, s, Send(e))
  {
    StepAgrees(s.pkt, e);
  }

  lemma SendAgrees(s: Sys, e: Event<nat>)
    requires Shaped(s) && Inv(s.pkt) && Sized(s.pkt)
    ensures SysAgree(s, Send(e))
  {
    SendPossible(s, e);
    if Possible(Unbounded, s, Send(e)) {
      StepAgrees(s.pkt, e);
    }
  }

  lemma RecvPossible(s: Sys, e: Event<nat>)
    requires Shaped(s) && Inv(s.pkt) && Sized(s.pkt)
    ensures Possible(Bits64, WrapSys(s), Recv(e)) <==> Possible(Unbounded, s, Recv(e))
  {
    StepAgrees(s.pkt, e);
  }

  lemma RecvAgrees(s: Sys, e: Event<nat>)
    requires Shaped(s) && Inv(s.pkt) && Sized(s.pkt)
    ensures SysAgree(s, Recv(e))
  {
    RecvPossible(s, e);
    if Possible(Unbounded, s, Recv(e)) {
      StepAgrees(s.pkt, e);
    }
  }

  lemma ReturnPossible(s: Sys, e: Event<nat>)
    requires Shaped(s) && Inv(s.free) && Sized(s.free)
    ensures Possible(Bits64, WrapSys(s), Return(e)) <==> Possible(Unbounded, s, Return(e))
  {
    StepAgrees(s.free, e);
  }

  lemma ReturnAgrees(s: Sys, e: Event<nat>)
    requires Shaped(s) && Inv(s.free) && Sized(s.free)
    ensures SysAgree(s, Return(e))
  {
    ReturnPossible(s, e);
    if Possible(Unbounded, s, Return(e)) {
      StepAgrees(s.free, e);
    }
  }

  lemma UnwrapStep(u: Sys, a: Step)
    requires Shaped(u) && Inv(u.pkt) && Inv(u.free) && !u.dropped
    requires SysSized(u) && Possible(Bits64, WrapSys(u), a)
    ensures Possible(Unbounded, u, a)
    ensures Perform(Bits64, WrapSys(u), a) == WrapSys(Perform(Unbounded, u, a))
    ensures SysSized(Perform(Unbounded, u, a))
    ensures |Perform(Unbounded, u, a).free.data| == |u.free.data|
  {
    match a
    case Alloc(e) => AllocAgrees(u, e);
    case Send(e) => SendAgrees(u, e);
    case Recv(e) => RecvAgrees(u, e);
    case Return(e) => ReturnAgrees(u, e);
    case Chaos(_) =>
  }

  lemma StartWraps(ringData: seq<nat>, poolSize: nat)
    requires AcceptedCapacity(|ringData|) && AcceptedCapacity(poolSize)
    ensures WrapSys(Start(ringData, poolSize)) == Start(ringData, poolSize)
    ensures SysSized(Start(ringData, poolSize))
  {
    AcceptedIsPow2OrZero(|ringData|);
    AcceptedIsPow2OrZero(poolSize);
  }

  /** `s` is `u` with its indices cut to 64 bits, after a run that took these steps. */
  ghost predicate Represents(u: Sys, s: Sys, steps: seq<Step>, poolSize: nat) {
    && SysInv(u) && SysSized(u) && Ordered(u, steps)
    && s == WrapSys(u) && |u.free.data| == poolSize
  }

  lemma StartRepresents(ringData: seq<nat>, poolSize: nat, s: Sys)
    requires AcceptedCapacity(|ringData|) && AcceptedCapacity(poolSize) && poolSize <= |ringData|
    requires s == Start(ringData, poolSize)
    ensures Represents(s, s, [], poolSize)
  {
    StartInv(ringData, poolSize, s);
    StartWraps(ringData, poolSize);
    StartOrdered(ringData, poolSize, s);
  }

  lemma StepRepresents(u: Sys, s: Sys, steps: seq<Step>, poolSize: nat, a: Step)
    requires Represents(u, s, steps, poolSize) && Possible(Bits64, s, a)
    ensures Possible(Unbounded, u, a)
    ensures Represents(Perform(Unbounded, u, a), Perform(Bits64, s, a), steps + [a], poolSize)
  {
    UnwrapStep(u, a);
    PerformKeepsInv(u, a);
    StepKeepsOrder(u, steps, a);
  }

  /** Every 64-bit run of the system stands for an unbounded state that satisfies the invariant. */
  lemma {:induction false} SysUnwrapped(ringData: seq<nat>, poolSize: nat, steps: seq<Step>, s: Sys)
    returns (u: Sys)
    requires AcceptedCapacity(|ringData|) && AcceptedCapacity(poolSize) && poolSize <= |ringData|
    requires Play(Bits64, Start(ringData, poolSize), steps) == Some(s)
    ensures Play(Unbounded, Start(ringData, poolSize), steps) == Some(u)
    ensures Represents(u, s, steps, poolSize)
    decreases |steps|
  {
    if steps == [] {
      StartRepresents(ringData, poolSize, s);
      u := s;
    } else {
      var before, a := steps[..|steps| - 1], steps[|steps| - 1];
      assert steps == before + [a];
      var s1 := Play(Bits64, Start(ringData, poolSize), before).value;
      u := SysUnwrapped(ringData, poolSize, before, s1);
      StepRepresents(u, s1, before, poolSize, a);
      u := Perform(Unbounded, u, a);
    }
  }

  /** Slot `x` in the four places it can be. */
  ghost function Copies(s: Sys, x: nat): nat
    requires Readable(s.pkt) && Readable(s.free)
  {
    multiset(Stored(s.free))[x] + s.held[x] + multiset(Stored(s.pkt))[x] + multiset(s.burst)[x]
  }

  /** Nothing dropped, nothing leaked, no slot raced for, and each packet in exactly one place. */
  ghost predicate Sound(s: Sys, poolSize: nat) {
    && !s.dropped && s.leaked == multiset{}
    && Readable(s.pkt) && Readable(s.free) && RaceFree(s.pkt) && RaceFree(s.free)
    && forall x: nat :: Copies(s, x) == if x < poolSize then 1 else 0
  }

  lemma InvSound(u: Sys, poolSize: nat)
    requires SysInv(u) && SysSized(u) && |u.free.data| == poolSize
    ensures Sound(WrapSys(u), poolSize)
  {
    InvRaceFree(u.pkt);
    InvRaceFree(u.free);
    StoredIsContents(u.pkt);
    StoredIsContents(u.free);
    forall x: nat
      ensures Copies(WrapSys(u), x) == if x < poolSize then 1 else 0
    {
      SlotsOnce(poolSize, x);
      assert (multiset(Contents(u.free)) + u.held + multiset(Contents(u.pkt)) + multiset(u.burst))[x]
          == multiset(Slots(poolSize))[x];
    }
  }

  /**
   With `RingSize >= PoolSize` and clients that send only packets they allocated, once each: in
   every interleaving no send ever drops, so only the processor fills the free ring; every
   burst is returned whole; no slot of either ring is raced for; and each pool slot is in
   exactly one of the free ring, the sender's hands, the packet ring and the burst.
   */
  lemma NothingDroppedOrLost(ringData: seq<nat>, poolSize: nat, steps: seq<Step>, s: Sys)
    requires AcceptedCapacity(|ringData|) && AcceptedCapacity(poolSize) && poolSize <= |ringData|
    requires Play(Bits64, Start(ringData, poolSize), steps) == Some(s)
    ensures !s.dropped && s.leaked == multiset{}
    ensures Readable(s.pkt)
    ensures Readable(s.free)
    ensures RaceFree(s.pkt)
    ensures RaceFree(s.free)
    ensures forall x: nat :: Copies(s, x) == if x < poolSize then 1 else 0
  {
    var u := SysUnwrapped(ringData, poolSize, steps, s);
    InvSound(u, poolSize);
  }

  /** Under the same conditions `free_burst` never returns less than the burst. */
  lemma BurstsReturnedWhole(ringData: seq<nat>, poolSize: nat, steps: seq<Step>, s: Sys, xs: seq<nat>)
    requires AcceptedCapacity(|ringData|) && AcceptedCapacity(poolSize) && poolSize <= |ringData|
    requires Play(Bits64, Start(ringData, poolSize), steps) == Some(s)
    requires Possible(Bits64, s, Return(PPublish(xs)))
    ensures xs == s.burst
  {
    var u := SysUnwrapped(ringData, poolSize, steps, s);
    ReturnPossible(u, PPublish(xs));
  }

  lemma Balance(all: multiset<nat>, free: multiset<nat>, held: multiset<nat>, queued: multiset<nat>, burst: multiset<nat>,
                out: multiset<nat>, sent: multiset<nat>, received: multiset<nat>, returned: multiset<nat>)
    requires free + held + queued + burst == all
    requires received + queued == sent && returned + burst == received && out + free == all + returned
    ensures out == held + sent
  {
    assert out + free == (held + sent) + free;
    assert out == (out + free) - free;
  }

  /** The sender holds exactly what it has allocated and not yet sent. */
  lemma HeldIsUnsent(u: Sys, steps: seq<Step>)
    requires Inv(u.pkt) && Inv(u.free) && Partition(u) && Ordered(u, steps)
    ensures multiset(Allocated(steps)) == u.held + multiset(Sent(steps))
  {
    assert multiset(Received(steps) + Contents(u.pkt)) == multiset(Received(steps)) + multiset(Contents(u.pkt));
    assert multiset(Returned(steps) + u.burst) == multiset(Returned(steps)) + multiset(u.burst);
    assert multiset(Allocated(steps) + Contents(u.free)) == multiset(Allocated(steps)) + multiset(Contents(u.free));
    var all := Slots(|u.free.data|);
    assert multiset(all + Returned(steps)) == multiset(all) + multiset(Returned(steps));
    Balance(multiset(all), multiset(Contents(u.free)), u.held, multiset(Contents(u.pkt)), multiset(u.burst),
            multiset(Allocated(steps)), multiset(Sent(steps)), multiset(Received(steps)), multiset(Returned(steps)));
  }

  /**
   Under the same conditions packets go round in order: the processor receives them as they were
   sent, returns them as it received them, and the pool hands them out as they came back.
   */
  lemma PacketsStayInOrder(ringData: seq<nat>, poolSize: nat, steps: seq<Step>, s: Sys)
    requires AcceptedCapacity(|ringData|) && AcceptedCapacity(poolSize) && poolSize <= |ringData|
    requires Play(Bits64, Start(ringData, poolSize), steps) == Some(s)
    ensures Readable(s.pkt) && Received(steps) + Stored(s.pkt) == Sent(steps)
    ensures Returned(steps) + s.burst == Received(steps)
    ensures Readable(s.free) && Allocated(steps) + Stored(s.free) == Slots(poolSize) + Returned(steps)
    ensures multiset(Allocated(steps)) == s.held + multiset(Sent(steps))
  {
    var u := SysUnwrapped(ringData, poolSize, steps, s);
    HeldIsUnsent(u, steps);
    StoredIsContents(u.pkt);
    StoredIsContents(u.free);
  }
}
