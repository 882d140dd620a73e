/**
 What one `process_burst` receives, whatever the sender does while it runs: the packets that were
 in the ring, as far as the head it loaded goes, and at most 32 of them.
 */
module PipelineBursts {
  import opened Options
  import opened Words
  import opened RingSpec
  import opened RingProtocol
  import opened RingWrap
  import opened RingSize
  import opened PoolSlots
  import opened Pipeline
  import opened PipelineCalls

  lemma LastStep(w: Width, s0: Sys, steps: seq<Step>, a: Step, s: Sys) returns (s1: Sys)
    requires Shaped(s0) && Play(w, s0, steps + [a]) == Some(s)
    ensures Play(w, s0, steps) == Some(s1) && Possible(w, s1, a) && s == Perform(w, s1, a)
  {
    assert (steps + [a])[..|steps|] == steps;
    s1 := Play(w, s0, steps).value;
  }

  /** The processor is copying `first`, which is the front of the packet ring. */
  ghost predicate Copying(r: State<nat>, first: seq<nat>) {
    && Inv(r) && r.cons.CCopying? && r.cons.cnt == |first|
    && first <= Contents(r)
  }

  lemma LoadFixesBurst(u: Sys, m: nat)
    requires SysInv(u) && Possible(Unbounded, u, Recv(CLoad(m)))
    ensures u.pkt.heads[m] - Newest(u.pkt.tails) <= |Contents(u.pkt)|
    ensures Newest(u.pkt.tails) <= u.pkt.heads[m]
    ensures Copying(Perform(Unbounded, u, Recv(CLoad(m))).pkt,
                    Contents(u.pkt)[..Min(32, u.pkt.heads[m] - Newest(u.pkt.tails))])
  {
    StepKeepsInv(u.pkt, CLoad(m));
  }

  /** A step takes nothing off the packet ring. */
  ghost predicate TakesNothing(a: Step) {
    a.Recv? ==> !a.e.CPublish?
  }

  lemma StillCopying(u: Sys, a: Step, first: seq<nat>)
    requires Shaped(u) && !u.dropped && Copying(u.pkt, first) && Possible(Unbounded, u, a) && TakesNothing(a)
    requires Inv(Perform(Unbounded, u, a).pkt)
    ensures Copying(Perform(Unbounded, u, a).pkt, first)
  {
    PktStep(u, a, Perform(Unbounded, u, a));
  }

  lemma {:induction false} CopyingThroughout(ringData: seq<nat>, poolSize: nat, steps: seq<Step>, u0: Sys,
                                             mid: seq<Step>, u: Sys, first: seq<nat>)
    requires AcceptedCapacity(|ringData|) && AcceptedCapacity(poolSize) && poolSize <= |ringData|
    requires Play(Unbounded, Start(ringData, poolSize), steps) == Some(u0) && Copying(u0.pkt, first)
    requires Play(Unbounded, Start(ringData, poolSize), steps + mid) == Some(u)
    requires forall i :: 0 <= i < |mid| ==> TakesNothing(mid[i])
    ensures Copying(u.pkt, first)
    decreases |mid|
  {
    if mid == [] {
      assert steps + mid == steps;
    } else {
      var before, a := mid[..|mid| - 1], mid[|mid| - 1];
      assert steps + mid == (steps + before) + [a];
      var u1 := LastStep(Unbounded, Start(ringData, poolSize), steps + before, a, u);
      CopyingThroughout(ringData, poolSize, steps, u0, before, u1, first);
      var s1 := SysWrapped(ringData, poolSize, steps + before, u1);
      var s := SysWrapped(ringData, poolSize, steps + mid, u);
      StillCopying(u1, a, first);
    }
  }

  lemma {:induction false} NothingTaken(steps: seq<Step>, mid: seq<Step>)
    requires forall i :: 0 <= i < |mid| ==> TakesNothing(mid[i])
    ensures Received(steps + mid) == Received(steps)
    decreases |mid|
  {
    if mid == [] {
      assert steps + mid == steps;
    } else {
      var before, a := mid[..|mid| - 1], mid[|mid| - 1];
      assert steps + mid == (steps + before) + [a];
      NothingTaken(steps, before);
      OneMoreStep(steps + before, a);
    }
  }

  lemma PublishesFirst(r: State<nat>, taken: seq<nat>, first: seq<nat>)
    requires Copying(r, first) && Enabled(Unbounded, r, CPublish(taken))
    ensures taken == first
  {
    assert Contents(r)[..|first|] == first;
  }

  lemma BurstIsFixed(ringData: seq<nat>, poolSize: nat, pre: seq<Step>, u1: Sys, m: nat, mid: seq<Step>, taken: seq<nat>, u: Sys)
    requires AcceptedCapacity(|ringData|) && AcceptedCapacity(poolSize) && poolSize <= |ringData|
    requires Play(Unbounded, Start(ringData, poolSize), pre) == Some(u1) && Inv(u1.pkt)
    requires forall i :: 0 <= i < |mid| ==> TakesNothing(mid[i])
    requires Play(Unbounded, Start(ringData, poolSize), pre + [Recv(CLoad(m))] + mid + [Recv(CPublish(taken))]) == Some(u)
    ensures u1.pkt.seenHead <= m < |u1.pkt.heads| && 0 <= u1.pkt.heads[m] - Newest(u1.pkt.tails) <= |Contents(u1.pkt)|
    ensures taken == Contents(u1.pkt)[..Min(32, u1.pkt.heads[m] - Newest(u1.pkt.tails))]
  {
    var s1 := SysWrapped(ringData, poolSize, pre, u1);
    var s0, loaded := Start(ringData, poolSize), pre + [Recv(CLoad(m))];
    var u3 := LastStep(Unbounded, s0, loaded + mid, Recv(CPublish(taken)), u);
    var u2 := Cut(Unbounded, s0, loaded, mid, u3);
    var v := LastStep(Unbounded, s0, pre, Recv(CLoad(m)), u2);
    LoadFixesBurst(u1, m);
    var first := Contents(u1.pkt)[..Min(32, u1.pkt.heads[m] - Newest(u1.pkt.tails))];
    CopyingThroughout(ringData, poolSize, loaded, u2, mid, u3, first);
    PublishesFirst(u3.pkt, taken, first);
  }

  lemma {:induction false} Cut(w: Width, s0: Sys, steps: seq<Step>, more: seq<Step>, s: Sys) returns (s1: Sys)
    requires Shaped(s0) && Play(w, s0, steps + more) == Some(s)
    ensures Play(w, s0, steps) == Some(s1)
    decreases |more|
  {
    if more == [] {
      assert steps + more == steps;
      s1 := s;
    } else {
      var before, a := more[..|more| - 1], more[|more| - 1];
      assert steps + more == (steps + before) + [a];
      s1 := LastStep(w, s0, steps + before, a, s);
      s1 := Cut(w, s0, steps, before, s1);
    }
  }

  /** What the head at place `m` shows of the ring, at either width. */
  lemma SeenAt(r: State<nat>, m: nat)
    requires Inv(r) && Sized(r) && r.seenHead <= m < |r.heads|
    ensures Readable(WrapState(r)) && Stored(WrapState(r)) == Contents(r)
    ensures SizeRead(WrapState(r), m) == r.heads[m] - Newest(r.tails)
    ensures m == |r.heads| - 1 ==> SizeRead(WrapState(r), m) == |Stored(WrapState(r))|
  {
    StoredIsContents(r);
    SizeReadIsTrue(r, m);
  }

  lemma ReceivedByBurst(pre: seq<Step>, m: nat, mid: seq<Step>, taken: seq<nat>)
    requires forall i :: 0 <= i < |mid| ==> TakesNothing(mid[i])
    ensures Received(pre + [Recv(CLoad(m))] + mid + [Recv(CPublish(taken))]) == Received(pre) + taken
  {
    OneMoreStep(pre, Recv(CLoad(m)));
    assert Received(pre) + [] == Received(pre);
    NothingTaken(pre + [Recv(CLoad(m))], mid);
    OneMoreStep(pre + [Recv(CLoad(m))] + mid, Recv(CPublish(taken)));
  }

  lemma UnwrappedRun(ringData: seq<nat>, poolSize: nat, steps: seq<Step>, s: Sys) returns (u: Sys)
    requires AcceptedCapacity(|ringData|) && AcceptedCapacity(poolSize) && poolSize <= |ringData|
    requires Play(Bits64, Start(ringData, poolSize), steps) == Some(s)
    ensures Play(Unbounded, Start(ringData, poolSize), steps) == Some(u)
    ensures s.pkt == WrapState(u.pkt) && Inv(u.pkt) && Sized(u.pkt)
  {
    u := SysUnwrapped(ringData, poolSize, steps, s);
  }

  /**
   A `process_burst` that loads a head and later publishes its tail, with any steps of the sender
   in between, receives the oldest packets in the ring at the load, as many as that head shows and
   at most 32; all of them, up to 32, when the head is the newest.
   */
  lemma BurstTakesWhatItSaw(ringData: seq<nat>, poolSize: nat, pre: seq<Step>, s1: Sys, m: nat,
                            mid: seq<Step>, taken: seq<nat>, s: Sys)
    requires AcceptedCapacity(|ringData|) && AcceptedCapacity(poolSize) && poolSize <= |ringData|
    requires Play(Bits64, Start(ringData, poolSize), pre) == Some(s1)
    requires Play(Bits64, Start(ringData, poolSize), pre + [Recv(CLoad(m))] + mid + [Recv(CPublish(taken))]) == Some(s)
    requires forall i :: 0 <= i < |mid| ==> TakesNothing(mid[i])
    ensures Readable(s1.pkt) && m < |s1.pkt.heads| && 0 <= SizeRead(s1.pkt, m) <= |Stored(s1.pkt)|
    ensures var first := Stored(s1.pkt)[..Min(32, SizeRead(s1.pkt, m))];
            Received(pre + [Recv(CLoad(m))] + mid + [Recv(CPublish(taken))]) == Received(pre) + first
    ensures m == |s1.pkt.heads| - 1 ==> SizeRead(s1.pkt, m) == |Stored(s1.pkt)|
  {
    var all := pre + [Recv(CLoad(m))] + mid + [Recv(CPublish(taken))];
    var u1 := UnwrappedRun(ringData, poolSize, pre, s1);
    var u := UnwrappedRun(ringData, poolSize, all, s);
    BurstIsFixed(ringData, poolSize, pre, u1, m, mid, taken, u);
    SeenAt(u1.pkt, m);
    ReceivedByBurst(pre, m, mid, taken);
  }
}
