/**
 Whole calls inside the concurrent pipeline. From every state a 64-bit run reaches, a thread that
 is between calls can carry out its next one, and undisturbed that call does what it should:
 `alloc_packet` hands out the oldest free packet, `send` queues the packet, `process_burst` takes
 up to 32 packets and returns them all.
 */
module PipelineCalls {
  import opened Options
  import opened Words
  import opened RingSpec
  import opened RingProtocol
  import opened RingWrap
  import opened RingSolo
  import opened PoolSlots
  import opened Pipeline

  // ---------- The two widths of the pipeline have the same runs ----------

  lemma PlayThen(w: Width, s0: Sys, steps: seq<Step>, s: Sys, a: Step)
    requires Shaped(s0) && Play(w, s0, steps) == Some(s) && Possible(w, s, a)
    ensures Play(w, s0, steps + [a]) == Some(Perform(w, s, a))
  {
    assert (steps + [a])[..|steps|] == steps;
  }

  lemma PossibleInCode(u: Sys, a: Step)
    requires Shaped(u) && Inv(u.pkt) && Inv(u.free) && SysSized(u) && !u.dropped
    requires Possible(Unbounded, u, a)
    ensures Possible(Bits64, WrapSys(u), a)
  {
    match a
    case Alloc(e) => AllocPossible(u, e);
    case Send(e) => SendPossible(u, e);
    case Recv(e) => RecvPossible(u, e);
    case Return(e) => ReturnPossible(u, e);
    case Chaos(_) =>
  }

  /** Every unbounded run is a run of the code, cut to 64 bits. */
  lemma {:induction false} SysWrapped(ringData: seq<nat>, poolSize: nat, steps: seq<Step>, u: Sys) returns (s: Sys)
    requires AcceptedCapacity(|ringData|) && AcceptedCapacity(poolSize) && poolSize <= |ringData|
    requires Play(Unbounded, Start(ringData, poolSize), steps) == Some(u)
    ensures Play(Bits64, Start(ringData, poolSize), steps) == Some(s)
    ensures Represents(u, s, steps, poolSize)
    decreases |steps|
  {
    if steps == [] {
      StartRepresents(ringData, poolSize, u);
      s := u;
    } else {
      var before, a := steps[..|steps| - 1], steps[|steps| - 1];
      assert steps == before + [a];
      var u1 := Play(Unbounded, Start(ringData, poolSize), before).value;
      s := SysWrapped(ringData, poolSize, before, u1);
      PossibleInCode(u1, a);
      StepRepresents(u1, s, before, poolSize, a);
      s := Perform(Bits64, s, a);
    }
  }

  // ---------- From the steps of a ring call to steps of the pipeline ----------

  datatype Kind = Allocating | Sending | Receiving | Returning

  ghost function AsStep(kind: Kind, e: Event<nat>): Step {
    match kind
    case Allocating => Alloc(e)
    case Sending => Send(e)
    case Receiving => Recv(e)
    case Returning => Return(e)
  }

  ghost function AsSteps(kind: Kind, es: seq<Event<nat>>): (steps: seq<Step>)
    ensures |steps| == |es|
    ensures forall i :: 0 <= i < |es| ==> steps[i] == AsStep(kind, es[i])
  {
    if es == [] then [] else AsSteps(kind, es[..|es| - 1]) + [AsStep(kind, es[|es| - 1])]
  }

  /** The ring the call is on, and the other one. */
  ghost function RingOf(kind: Kind, u: Sys): State<nat> {
    if kind.Allocating? || kind.Returning? then u.free else u.pkt
  }

  ghost function OtherRing(kind: Kind, u: Sys): State<nat> {
    if kind.Allocating? || kind.Returning? then u.pkt else u.free
  }

  /** A step inside such a call, after the first. */
  ghost predicate Continues(kind: Kind, e: Event<nat>) {
    match kind
    case Allocating => e.CLoad? || e.CEmpty? || e.CCopy? || e.CPublish?
    case Sending => e.PLoad? || e.PFull? || e.PCopy? || e.PPublish?
    case Receiving => e.CLoad? || e.CCopy? || e.CPublish?
    case Returning => e.PLoad? || e.PCopy? || e.PPublish?
  }

  lemma NextPossible(kind: Kind, u: Sys, e: Event<nat>)
    requires Shaped(u) && Continues(kind, e) && Enabled(Unbounded, RingOf(kind, u), e)
    ensures Possible(Unbounded, u, AsStep(kind, e))
  {
  }

  lemma OneRingMoves(kind: Kind, u: Sys, e: Event<nat>)
    requires Shaped(u) && Possible(Unbounded, u, AsStep(kind, e))
    ensures var u' := Perform(Unbounded, u, AsStep(kind, e));
            && RingOf(kind, u') == Apply(Unbounded, RingOf(kind, u), e)
            && OtherRing(kind, u').prod == OtherRing(kind, u).prod && OtherRing(kind, u').cons == OtherRing(kind, u).cons
  {
  }

  /** The steps of a ring call are steps of the pipeline, and end with that ring as the call leaves it. */
  lemma {:induction false} Lift(s0: Sys, steps: seq<Step>, u: Sys, kind: Kind, es: seq<Event<nat>>) returns (u': Sys)
    requires Shaped(s0) && Play(Unbounded, s0, steps) == Some(u)
    requires es != [] && Possible(Unbounded, u, AsStep(kind, es[0]))
    requires forall i :: 1 <= i < |es| ==> Continues(kind, es[i])
    requires Exec(Unbounded, RingOf(kind, u), es).Some?
    ensures Play(Unbounded, s0, steps + AsSteps(kind, es)) == Some(u')
    ensures Some(RingOf(kind, u')) == Exec(Unbounded, RingOf(kind, u), es)
    ensures OtherRing(kind, u').prod == OtherRing(kind, u).prod
    ensures OtherRing(kind, u').cons == OtherRing(kind, u).cons
    decreases |es|
  {
    var n := |es| - 1;
    var before, e := es[..n], es[n];
    var steps' := steps + AsSteps(kind, before);
    assert steps + AsSteps(kind, es) == steps' + [AsStep(kind, e)];
    if n == 0 {
      u' := u;
      assert steps' == steps;
    } else {
      u' := Lift(s0, steps, u, kind, before);
      NextPossible(kind, u', e);
    }
    OneRingMoves(kind, u', e);
    PlayThen(Unbounded, s0, steps', u', AsStep(kind, e));
    u' := Perform(Unbounded, u', AsStep(kind, e));
  }

  /** What the calls of one kind have come to in a run: packets handed out, accepted, received or put back. */
  ghost function Moved(kind: Kind, steps: seq<Step>): seq<nat> {
    match kind
    case Allocating => Allocated(steps)
    case Sending => Sent(steps)
    case Receiving => Received(steps)
    case Returning => Returned(steps)
  }

  ghost function Output(kind: Kind, es: seq<Event<nat>>): seq<nat> {
    if kind.Allocating? || kind.Receiving? then Dequeued(es) else Enqueued(es)
  }

  /** What one event adds to that. */
  ghost function Gain(kind: Kind, e: Event<nat>): seq<nat> {
    if kind.Allocating? || kind.Receiving? then if e.CPublish? then e.taken else []
    else if e.PPublish? then e.accepted else []
  }

  lemma MovedByOne(k: Kind, steps: seq<Step>, kind: Kind, e: Event<nat>)
    ensures Moved(k, steps + [AsStep(kind, e)]) == Moved(k, steps) + if k == kind then Gain(kind, e) else []
  {
    OneMoreStep(steps, AsStep(kind, e));
  }

  /** A call adds to the history of its own kind what the ring call put in or took out, and to no other. */
  lemma {:induction false} MovedByCall(k: Kind, steps: seq<Step>, kind: Kind, es: seq<Event<nat>>)
    ensures Moved(k, steps + AsSteps(kind, es)) == Moved(k, steps) + if k == kind then Output(kind, es) else []
    decreases |es|
  {
    if es == [] {
      assert steps + AsSteps(kind, es) == steps;
    } else {
      var before, e := es[..|es| - 1], es[|es| - 1];
      assert steps + AsSteps(kind, es) == (steps + AsSteps(kind, before)) + [AsStep(kind, e)];
      MovedByCall(k, steps, kind, before);
      MovedByOne(k, steps + AsSteps(kind, before), kind, e);
      OutputByOne(kind, es);
      Regroup(Moved(k, steps), if k == kind then Output(kind, before) else [], if k == kind then Gain(kind, e) else []);
    }
  }

  lemma OutputByOne(kind: Kind, es: seq<Event<nat>>)
    requires es != []
    ensures Output(kind, es) == Output(kind, es[..|es| - 1]) + Gain(kind, es[|es| - 1])
  {
  }

  lemma Regroup(a: seq<nat>, b: seq<nat>, c: seq<nat>)
    ensures (a + b) + c == a + (b + c)
  {
  }

  lemma SameRest(a: seq<nat>, b: seq<nat>, c: seq<nat>)
    requires a + b == a + c
    ensures b == c
  {
    assert b == (a + b)[|a|..] && c == (a + c)[|a|..];
  }

  // ---------- process_burst ----------

  /** The processing thread is between two calls of `process_burst`. */
  ghost predicate ProcessorIdle(s: Sys) {
    s.pkt.cons.CIdle? && s.free.prod.PIdle? && s.burst == []
  }

  lemma FrontOfContents(r: State<nat>, k: nat)
    requires Indexed(r) && k <= Newest(r.heads) - Newest(r.tails)
    ensures Window(r.data, Newest(r.tails), k) == Contents(r)[..k]
  {
    WindowSplit(r.data, Newest(r.tails), k, Newest(r.heads) - Newest(r.tails) - k);
  }

  lemma ReceiveCall(s0: Sys, steps: seq<Step>, u: Sys) returns (es: seq<Event<nat>>, u': Sys)
    requires Shaped(s0) && Play(Unbounded, s0, steps) == Some(u)
    requires Inv(u.pkt) && ProcessorIdle(u)
    ensures Play(Unbounded, s0, steps + AsSteps(Receiving, es)) == Some(u')
    ensures Dequeued(es) == Contents(u.pkt)[..Min(32, |Contents(u.pkt)|)]
    ensures u'.pkt.cons.CIdle? && u'.free.prod.PIdle?
  {
    var k := Min(32, |Contents(u.pkt)|);
    es := BurstOut(u.pkt, 32, k);
    FrontOfContents(u.pkt, k);
    u' := Lift(s0, steps, u, Receiving, es);
  }

  /** The free ring has room for whatever the processor has in hand. */
  lemma RoomForBurst(u: Sys)
    requires SysInv(u)
    ensures |u.burst| <= |u.free.data| - (Newest(u.free.heads) - Newest(u.free.tails))
  {
    assert u.pkt.heads[u.pkt.seenHead] <= u.free.tails[u.pktStamp[u.pkt.seenHead]];
  }

  lemma ReturnMayStart(u: Sys)
    requires Shaped(u) && u.burst != [] && u.pkt.cons.CIdle? && u.free.prod.PIdle? && |u.burst| < W64
    ensures Possible(Unbounded, u, AsStep(Returning, PStart(Burst(u.burst))))
  {
  }

  lemma ReturnCall(s0: Sys, steps: seq<Step>, u: Sys) returns (es: seq<Event<nat>>, u': Sys)
    requires Shaped(s0) && Play(Unbounded, s0, steps) == Some(u)
    requires Inv(u.free) && u.burst != [] && u.pkt.cons.CIdle? && u.free.prod.PIdle?
    requires |u.burst| <= |u.free.data| - (Newest(u.free.heads) - Newest(u.free.tails)) && |u.burst| < W64
    ensures Play(Unbounded, s0, steps + AsSteps(Returning, es)) == Some(u')
    ensures Enqueued(es) == u.burst
    ensures u'.pkt.cons.CIdle? && u'.free.prod.PIdle?
  {
    assert u.burst[..|u.burst|] == u.burst;
    ReturnMayStart(u);
    es := BurstIn(u.free, u.burst, |u.burst|);
    u' := Lift(s0, steps, u, Returning, es);
  }

  /** Steps of one kind, one after the other. */
  ghost predicate AllOf(kind: Kind, steps: seq<Step>) {
    forall i :: 0 <= i < |steps| ==> exists e :: steps[i] == AsStep(kind, e)
  }

  lemma ReturnAll(ringData: seq<nat>, poolSize: nat, steps: seq<Step>, u: Sys) returns (ret: seq<Step>, u': Sys)
    requires AcceptedCapacity(|ringData|) && AcceptedCapacity(poolSize) && poolSize <= |ringData|
    requires Play(Unbounded, Start(ringData, poolSize), steps) == Some(u)
    requires SysInv(u) && SysSized(u) && u.pkt.cons.CIdle? && u.free.prod.PIdle?
    ensures AllOf(Returning, ret) && Play(Unbounded, Start(ringData, poolSize), steps + ret) == Some(u')
    ensures Returned(steps + ret) == Returned(steps) + u.burst && Received(steps + ret) == Received(steps)
    ensures u'.pkt.cons.CIdle? && u'.free.prod.PIdle?
  {
    if u.burst == [] {
      ret, u' := [], u;
      assert steps + ret == steps;
    } else {
      RoomForBurst(u);
      var es;
      es, u' := ReturnCall(Start(ringData, poolSize), steps, u);
      ret := AsSteps(Returning, es);
      MovedByCall(Returning, steps, Returning, es);
      MovedByCall(Receiving, steps, Returning, es);
    }
  }

  lemma ReceiveAll(ringData: seq<nat>, poolSize: nat, steps: seq<Step>, u: Sys) returns (recv: seq<Step>, u': Sys)
    requires Play(Unbounded, Start(ringData, poolSize), steps) == Some(u)
    requires Inv(u.pkt) && ProcessorIdle(u)
    ensures AllOf(Receiving, recv) && Play(Unbounded, Start(ringData, poolSize), steps + recv) == Some(u')
    ensures Received(steps + recv) == Received(steps) + Contents(u.pkt)[..Min(32, |Contents(u.pkt)|)]
    ensures Returned(steps + recv) == Returned(steps)
    ensures u'.pkt.cons.CIdle? && u'.free.prod.PIdle?
  {
    var es;
    es, u' := ReceiveCall(Start(ringData, poolSize), steps, u);
    recv := AsSteps(Receiving, es);
    MovedByCall(Receiving, steps, Receiving, es);
    MovedByCall(Returning, steps, Receiving, es);
  }

  /**
   From every reachable state in which the processing thread is between calls it can run
   `process_burst` to the end: it receives exactly the oldest packets in the ring, at most 32,
   and puts exactly those back on the free list, in order.
   */
  lemma ProcessBurstDelivers(ringData: seq<nat>, poolSize: nat, steps: seq<Step>, s: Sys)
    returns (recv: seq<Step>, ret: seq<Step>, s': Sys)
    requires AcceptedCapacity(|ringData|) && AcceptedCapacity(poolSize) && poolSize <= |ringData|
    requires Play(Bits64, Start(ringData, poolSize), steps) == Some(s) && ProcessorIdle(s)
    ensures AllOf(Receiving, recv) && AllOf(Returning, ret)
    ensures Play(Bits64, Start(ringData, poolSize), steps + recv + ret) == Some(s') && ProcessorIdle(s')
    ensures Readable(s.pkt)
    ensures var first := Stored(s.pkt)[..Min(32, |Stored(s.pkt)|)];
            && Received(steps + recv + ret) == Received(steps) + first
            && Returned(steps + recv + ret) == Returned(steps) + first
  {
    var u := SysUnwrapped(ringData, poolSize, steps, s);
    StoredIsContents(u.pkt);
    var u1, u2;
    recv, u1 := ReceiveAll(ringData, poolSize, steps, u);
    InHandAfter(ringData, poolSize, steps, u, recv, u1, Stored(s.pkt)[..Min(32, |Stored(s.pkt)|)]);
    ret, u2 := ReturnAll(ringData, poolSize, steps + recv, u1);
    s' := SysWrapped(ringData, poolSize, steps + recv + ret, u2);
    SameRest(Returned(steps + recv + ret), u2.burst, []);
  }

  /** What the processor has in hand is what it has received and not yet returned. */
  lemma InHandAfter(ringData: seq<nat>, poolSize: nat, steps: seq<Step>, u: Sys, recv: seq<Step>, u1: Sys, first: seq<nat>)
    requires AcceptedCapacity(|ringData|) && AcceptedCapacity(poolSize) && poolSize <= |ringData|
    requires Play(Unbounded, Start(ringData, poolSize), steps) == Some(u) && u.burst == []
    requires Play(Unbounded, Start(ringData, poolSize), steps + recv) == Some(u1)
    requires Received(steps + recv) == Received(steps) + first && Returned(steps + recv) == Returned(steps)
    ensures SysInv(u1) && SysSized(u1) && u1.burst == first
  {
    var s := SysWrapped(ringData, poolSize, steps, u);
    var s1 := SysWrapped(ringData, poolSize, steps + recv, u1);
    assert Returned(steps) + [] == Returned(steps);
    SameRest(Returned(steps), u1.burst, first);
  }

  // ---------- alloc_packet and send ----------

  /** The sending thread is between two calls. */
  ghost predicate SenderIdle(s: Sys) {
    s.free.cons.CIdle? && s.pkt.prod.PIdle?
  }

  lemma OldestOfContents(r: State<nat>)
    requires Inv(r)
    ensures Coherent(r) && Dequeue(AsRing(r)).1 == Contents(r)[..Min(1, |Contents(r)|)]
  {
    if Contents(r) != [] {
      assert Contents(r)[0] == r.data[Slot(|r.data|, Newest(r.tails))];
    }
  }

  lemma AllocCall(s0: Sys, steps: seq<Step>, u: Sys) returns (es: seq<Event<nat>>, u': Sys)
    requires Shaped(s0) && Play(Unbounded, s0, steps) == Some(u)
    requires Inv(u.free) && SenderIdle(u)
    ensures Play(Unbounded, s0, steps + AsSteps(Allocating, es)) == Some(u')
    ensures Dequeued(es) == Contents(u.free)[..Min(1, |Contents(u.free)|)]
    ensures SenderIdle(u')
  {
    OldestOfContents(u.free);
    var r;
    es, r := SoloDequeue(u.free);
    u' := Lift(s0, steps, u, Allocating, es);
  }

  /** From every reachable state in which the sending thread is between calls, `alloc_packet` can hand out the oldest free packet. */
  lemma AllocDelivers(ringData: seq<nat>, poolSize: nat, steps: seq<Step>, s: Sys) returns (more: seq<Step>, s': Sys)
    requires AcceptedCapacity(|ringData|) && AcceptedCapacity(poolSize) && poolSize <= |ringData|
    requires Play(Bits64, Start(ringData, poolSize), steps) == Some(s) && SenderIdle(s)
    ensures AllOf(Allocating, more)
    ensures Play(Bits64, Start(ringData, poolSize), steps + more) == Some(s') && SenderIdle(s')
    ensures Readable(s.free)
    ensures Allocated(steps + more) == Allocated(steps) + Stored(s.free)[..Min(1, |Stored(s.free)|)]
  {
    var u := SysUnwrapped(ringData, poolSize, steps, s);
    StoredIsContents(u.free);
    var es, u' := AllocCall(Start(ringData, poolSize), steps, u);
    more := AsSteps(Allocating, es);
    MovedByCall(Allocating, steps, Allocating, es);
    s' := SysWrapped(ringData, poolSize, steps + more, u');
  }

  /** The packet ring has room for whatever the sender holds. */
  lemma RoomToSend(u: Sys, x: nat)
    requires SysInv(u) && x in u.held
    ensures Newest(u.pkt.heads) - Newest(u.pkt.tails) < |u.pkt.data|
  {
    assert |u.held| >= 1;
    assert u.free.heads[u.free.seenHead] <= u.pkt.tails[u.freeStamp[u.free.seenHead]] + |u.free.data|;
  }

  lemma SendMayStart(u: Sys, x: nat)
    requires Shaped(u) && SenderIdle(u) && x in u.held
    ensures Possible(Unbounded, u, AsStep(Sending, PStart(One(x))))
  {
  }

  lemma SendCall(s0: Sys, steps: seq<Step>, u: Sys, x: nat) returns (es: seq<Event<nat>>, u': Sys)
    requires Shaped(s0) && Play(Unbounded, s0, steps) == Some(u)
    requires Inv(u.pkt) && SenderIdle(u) && x in u.held && Newest(u.pkt.heads) - Newest(u.pkt.tails) < |u.pkt.data|
    ensures Play(Unbounded, s0, steps + AsSteps(Sending, es)) == Some(u')
    ensures Enqueued(es) == [x]
    ensures SenderIdle(u')
  {
    SendMayStart(u, x);
    var r;
    es, r := SoloEnqueue(u.pkt, x);
    u' := Lift(s0, steps, u, Sending, es);
  }

  /** From every such state `send` can queue any packet the sender holds. */
  lemma SendDelivers(ringData: seq<nat>, poolSize: nat, steps: seq<Step>, s: Sys, x: nat) returns (more: seq<Step>, s': Sys)
    requires AcceptedCapacity(|ringData|) && AcceptedCapacity(poolSize) && poolSize <= |ringData|
    requires Play(Bits64, Start(ringData, poolSize), steps) == Some(s) && SenderIdle(s) && x in s.held
    ensures AllOf(Sending, more)
    ensures Play(Bits64, Start(ringData, poolSize), steps + more) == Some(s') && SenderIdle(s')
    ensures Sent(steps + more) == Sent(steps) + [x]
  {
    var u := SysUnwrapped(ringData, poolSize, steps, s);
    RoomToSend(u, x);
    var es, u' := SendCall(Start(ringData, poolSize), steps, u, x);
    more := AsSteps(Sending, es);
    MovedByCall(Sending, steps, Sending, es);
    s' := SysWrapped(ringData, poolSize, steps + more, u');
  }

  // ---------- Calls never block ----------

  /** A thread in a call on a ring has a next step in that call, whichever value its load returns. */
  ghost predicate SenderMoves(s: Sys, m: nat)
    requires Shaped(s)
  {
    && (s.pkt.prod.PLoaded? && s.pkt.seenTail <= m < |s.pkt.tails| ==> Possible(Bits64, s, Send(PLoad(m))))
    && (s.pkt.prod.PCopying? ==>
          Possible(Bits64, s, Send(PCopy)) || exists xs :: Possible(Bits64, s, Send(PPublish(xs))))
    && (s.free.cons.CLoaded? && s.free.seenHead <= m < |s.free.heads| ==>
          Possible(Bits64, s, Alloc(CLoad(m))) || Possible(Bits64, s, Alloc(CEmpty(m))))
    && (s.free.cons.CCopying? ==>
          Possible(Bits64, s, Alloc(CCopy)) || exists xs :: Possible(Bits64, s, Alloc(CPublish(xs))))
  }

  ghost predicate ProcessorMoves(s: Sys, m: nat)
    requires Shaped(s)
  {
    && (s.pkt.cons.CLoaded? && s.pkt.seenHead <= m < |s.pkt.heads| ==> Possible(Bits64, s, Recv(CLoad(m))))
    && (s.pkt.cons.CCopying? ==>
          Possible(Bits64, s, Recv(CCopy)) || exists xs :: Possible(Bits64, s, Recv(CPublish(xs))))
    && (s.free.prod.PLoaded? && s.free.seenTail <= m < |s.free.tails| ==> Possible(Bits64, s, Return(PLoad(m))))
    && (s.free.prod.PCopying? ==>
          Possible(Bits64, s, Return(PCopy)) || exists xs :: Possible(Bits64, s, Return(PPublish(xs))))
  }

  lemma SendLoadPossible(u: Sys, m: nat)
    requires SysInv(u) && SysSized(u) && u.pkt.prod.PLoaded? && u.pkt.seenTail <= m < |u.pkt.tails|
    ensures Enabled(Bits64, WrapState(u.pkt), PLoad(m))
  {
    SendFindsRoom(u, m);
    StepAgrees(u.pkt, PLoad(m));
  }

  lemma SenderMovesOn(u: Sys, s: Sys, m: nat)
    requires SysInv(u) && SysSized(u) && s == WrapSys(u)
    ensures SenderMoves(s, m)
  {
    MovesInCode(u.pkt, m);
    MovesInCode(u.free, m);
    if u.pkt.prod.PLoaded? && u.pkt.seenTail <= m < |u.pkt.tails| {
      SendLoadPossible(u, m);
    }
  }

  lemma ProcessorMovesOn(u: Sys, s: Sys, m: nat)
    requires SysInv(u) && SysSized(u) && s == WrapSys(u)
    ensures ProcessorMoves(s, m)
  {
    MovesInCode(u.pkt, m);
    MovesInCode(u.free, m);
  }

  /** In every reachable state both threads can go on with the call they are in; a send that has started cannot even be refused. */
  lemma ThreadsNeverBlock(ringData: seq<nat>, poolSize: nat, steps: seq<Step>, s: Sys, m: nat)
    requires AcceptedCapacity(|ringData|) && AcceptedCapacity(poolSize) && poolSize <= |ringData|
    requires Play(Bits64, Start(ringData, poolSize), steps) == Some(s)
    ensures SenderMoves(s, m) && ProcessorMoves(s, m)
  {
    var u := SysUnwrapped(ringData, poolSize, steps, s);
    SenderMovesOn(u, s, m);
    ProcessorMovesOn(u, s, m);
  }
}
