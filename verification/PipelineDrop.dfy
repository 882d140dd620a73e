/**
 When can `send` drop a packet? Exactly when the packet ring is smaller than the pool.
 NothingDroppedOrLost gives one direction; here is a run for the other.
 */
module PipelineDrop {
  import opened Options
  import opened Words
  import opened RingSpec
  import opened RingProtocol
  import opened RingWrap
  import opened Pipeline

  lemma Then(s0: Sys, steps: seq<Step>, s: Sys, a: Step) returns (steps': seq<Step>, s': Sys)
    requires Shaped(s0) && Play(Bits64, s0, steps) == Some(s) && Possible(Bits64, s, a)
    ensures Play(Bits64, s0, steps') == Some(s') && s' == Perform(Bits64, s, a)
  {
    steps', s' := steps + [a], Perform(Bits64, s, a);
    assert steps'[..|steps|] == steps;
  }

  /** `k` packets have been allocated, `j` of them sent, and none processed; the sender is between calls. */
  ghost predicate Unprocessed(s: Sys, ringSize: nat, poolSize: nat, k: nat, j: nat) {
    && Shaped(s) && !s.dropped
    && |s.pkt.data| == ringSize && |s.free.data| == poolSize
    && s.free.heads == [poolSize] && s.free.seenHead == 0 && s.freeStamp == [0]
    && s.pkt.tails == [0] && s.pkt.seenTail == 0
    && s.free.cons.CIdle? && s.pkt.prod.PIdle?
    && Newest(s.free.tails) == k && Newest(s.pkt.heads) == j
  }

  lemma InPlace(cap: nat, x: nat)
    requires AcceptedCapacity(cap) && x < cap
    ensures Position(Bits64, cap, Plus(Bits64, x, 0)) == x
  {
    AcceptedIsPow2OrZero(cap);
    MaskIsSlot(cap, x);
  }

  lemma AllocateOne(s0: Sys, steps: seq<Step>, s: Sys, ringSize: nat, poolSize: nat, k: nat)
    returns (steps': seq<Step>, s': Sys, x: nat)
    requires Shaped(s0) && Play(Bits64, s0, steps) == Some(s)
    requires AcceptedCapacity(poolSize) && k < poolSize
    requires Unprocessed(s, ringSize, poolSize, k, k)
    ensures Play(Bits64, s0, steps') == Some(s')
    ensures Unprocessed(s', ringSize, poolSize, k + 1, k) && x in s'.held
  {
    InPlace(poolSize, k);
    x := s.free.data[k];
    steps', s' := Then(s0, steps, s, Alloc(CStart(Next)));
    steps', s' := Then(s0, steps', s', Alloc(CLoad(0)));
    steps', s' := Then(s0, steps', s', Alloc(CCopy));
    assert s'.free.cons.out == [x];
    steps', s' := Then(s0, steps', s', Alloc(CPublish([x])));
  }

  lemma SendOne(s0: Sys, steps: seq<Step>, s: Sys, ringSize: nat, poolSize: nat, k: nat, x: nat)
    returns (steps': seq<Step>, s': Sys)
    requires Shaped(s0) && Play(Bits64, s0, steps) == Some(s)
    requires AcceptedCapacity(ringSize) && k < ringSize
    requires Unprocessed(s, ringSize, poolSize, k + 1, k) && x in s.held
    ensures Play(Bits64, s0, steps') == Some(s')
    ensures Unprocessed(s', ringSize, poolSize, k + 1, k + 1)
  {
    InPlace(ringSize, k);
    steps', s' := Then(s0, steps, s, Send(PStart(One(x))));
    steps', s' := Then(s0, steps', s', Send(PLoad(0)));
    steps', s' := Then(s0, steps', s', Send(PCopy));
    steps', s' := Then(s0, steps', s', Send(PPublish([x])));
  }

  lemma {:induction false} FillRing(ringData: seq<nat>, poolSize: nat, k: nat)
    returns (steps: seq<Step>, s: Sys)
    requires AcceptedCapacity(|ringData|) && AcceptedCapacity(poolSize)
    requires k <= |ringData| && k <= poolSize
    ensures Play(Bits64, Start(ringData, poolSize), steps) == Some(s)
    ensures Unprocessed(s, |ringData|, poolSize, k, k)
  {
    if k == 0 {
      steps, s := [], Start(ringData, poolSize);
    } else {
      var s0, x := Start(ringData, poolSize), 0;
      steps, s := FillRing(ringData, poolSize, k - 1);
      steps, s, x := AllocateOne(s0, steps, s, |ringData|, poolSize, k - 1);
      steps, s := SendOne(s0, steps, s, |ringData|, poolSize, k - 1, x);
    }
  }

  lemma OverfillRing(ringData: seq<nat>, poolSize: nat) returns (steps: seq<Step>, s: Sys)
    requires AcceptedCapacity(|ringData|) && AcceptedCapacity(poolSize)
    requires |ringData| < poolSize
    ensures Play(Bits64, Start(ringData, poolSize), steps) == Some(s) && s.dropped
  {
    var s0, k, x := Start(ringData, poolSize), |ringData|, 0;
    steps, s := FillRing(ringData, poolSize, k);
    steps, s, x := AllocateOne(s0, steps, s, k, poolSize, k);
    steps, s := Then(s0, steps, s, Send(PStart(One(x))));
    steps, s := Then(s0, steps, s, Send(PFull(0)));
  }

  ghost predicate CanDrop(ringData: seq<nat>, poolSize: nat) {
    exists steps: seq<Step> ::
      var r := Play(Bits64, Start(ringData, poolSize), steps);
      r.Some? && r.value.dropped
  }

  /** Well-behaved clients can lose a packet exactly when `RingSize < PoolSize`. */
  lemma DropsExactlyWhenRingIsSmaller(ringData: seq<nat>, poolSize: nat)
    requires AcceptedCapacity(|ringData|) && AcceptedCapacity(poolSize)
    ensures CanDrop(ringData, poolSize) <==> |ringData| < poolSize
  {
    if |ringData| < poolSize {
      var steps, s := OverfillRing(ringData, poolSize);
    } else {
      forall steps: seq<Step> | Play(Bits64, Start(ringData, poolSize), steps).Some?
        ensures !Play(Bits64, Start(ringData, poolSize), steps).value.dropped
      {
        NothingDroppedOrLost(ringData, poolSize, steps, Play(Bits64, Start(ringData, poolSize), steps).value);
      }
    }
  }
}
