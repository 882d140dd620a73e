/**
 The code's 64-bit indices against counters that never wrap: the two widths of the ring
 protocol have exactly the same runs, however long, and every fact proved of the unbounded
 one is carried over to the one in the code.
 */
module RingWrap {
  import opened Options
  import opened Words
  import opened RingSpec
  import opened RingProtocol

  ghost function WrapAll(xs: seq<nat>): (ws: seq<nat>)
    ensures |ws| == |xs|
  {
    seq(|xs|, i requires 0 <= i < |xs| => Wrap(xs[i]))
  }

  /** The 64-bit state that stands for an unbounded one. */
  ghost function WrapState<T>(s: State<T>): State<T> {
    State(s.data, WrapAll(s.heads), WrapAll(s.tails), s.seenTail, s.seenHead,
      match s.prod {
        case PIdle => PIdle
        case PLoaded(call, h) => PLoaded(call, Wrap(h))
        case PCopying(call, h, cnt, i) => PCopying(call, Wrap(h), cnt, i)
      },
      match s.cons {
        case CIdle => CIdle
        case CLoaded(want, t) => CLoaded(want, Wrap(t))
        case CCopying(t, cnt, out) => CCopying(Wrap(t), cnt, out)
      })
  }

  lemma WrapAllAppend(xs: seq<nat>, x: nat)
    ensures WrapAll(xs + [x]) == WrapAll(xs) + [Wrap(x)]
  {
  }

  lemma WrapEqual(h: nat, t: nat)
    requires t <= h < t + W64
    ensures Minus(Bits64, Wrap(h), Wrap(t)) == h - t
    ensures Wrap(t) == Wrap(h) <==> t == h
  {
    WrapDistance(h, t);
  }

  lemma PositionAgrees(cap: nat, x: nat, i: nat)
    requires CapacityOk(cap) && 0 < cap < W64 && i < W64
    ensures Position(Bits64, cap, Plus(Bits64, Wrap(x), i)) == Position(Unbounded, cap, x + i) == Slot(cap, x + i)
  {
    WrapSum(x, i);
    MaskIsSlot(cap, x + i);
  }

  ghost predicate Sized<T>(s: State<T>) {
    CapacityOk(|s.data|) && |s.data| < W64
  }

  /** One step is possible at one width exactly when it is at the other, with the same effect. */
  ghost predicate Agree<T>(s: State<T>, e: Event<T>)
    requires s.heads != [] && s.tails != []
  {
    && (Enabled(Bits64, WrapState(s), e) <==> Enabled(Unbounded, s, e))
    && (Enabled(Unbounded, s, e) ==> Apply(Bits64, WrapState(s), e) == WrapState(Apply(Unbounded, s, e)))
  }

  lemma ProducerAgrees<T>(s: State<T>, e: Event<T>)
    requires Inv(s) && Sized(s)
    requires e.PLoad? || e.PFull? || e.PSize? || e.PStart?
    ensures Agree(s, e)
  {
    if (e.PLoad? || e.PFull?) && s.prod.PLoaded? && s.seenTail <= e.m < |s.tails| {
      WrapEqual(s.prod.h, s.tails[e.m]);
    }
  }

  lemma PCopyAgrees<T>(s: State<T>)
    requires Inv(s) && Sized(s)
    ensures Agree(s, PCopy)
  {
    if s.prod.PCopying? && s.prod.i < s.prod.cnt {
      PositionAgrees(|s.data|, s.prod.h, s.prod.i);
    }
  }

  lemma PPublishAgrees<T>(s: State<T>, accepted: seq<T>)
    requires Inv(s) && Sized(s)
    ensures Agree(s, PPublish(accepted))
  {
    if s.prod.PCopying? {
      WrapSum(s.prod.h, s.prod.i);
      WrapAllAppend(s.heads, s.prod.h + s.prod.i);
    }
  }

  lemma ConsumerAgrees<T>(s: State<T>, e: Event<T>)
    requires Inv(s) && Sized(s)
    requires e.CLoad? || e.CEmpty? || e.CSize? || e.CStart?
    ensures Agree(s, e)
  {
    if (e.CLoad? || e.CEmpty?) && s.cons.CLoaded? && s.seenHead <= e.m < |s.heads| {
      WrapEqual(s.heads[e.m], s.cons.t);
    }
  }

  lemma CCopyAgrees<T>(s: State<T>)
    requires Inv(s) && Sized(s)
    ensures Agree(s, CCopy)
  {
    if s.cons.CCopying? && |s.cons.out| < s.cons.cnt {
      PositionAgrees(|s.data|, s.cons.t, |s.cons.out|);
    }
  }

  lemma CPublishAgrees<T>(s: State<T>, taken: seq<T>)
    requires Inv(s) && Sized(s)
    ensures Agree(s, CPublish(taken))
  {
    if s.cons.CCopying? {
      WrapSum(s.cons.t, |s.cons.out|);
      WrapAllAppend(s.tails, s.cons.t + |s.cons.out|);
    }
  }

  lemma StepAgrees<T>(s: State<T>, e: Event<T>)
    requires Inv(s) && Sized(s)
    ensures Agree(s, e)
  {
    match e
    case PCopy => PCopyAgrees(s);
    case PPublish(accepted) => PPublishAgrees(s, accepted);
    case CCopy => CCopyAgrees(s);
    case CPublish(taken) => CPublishAgrees(s, taken);
    case CStart(_) => ConsumerAgrees(s, e);
    case CLoad(_) => ConsumerAgrees(s, e);
    case CEmpty(_) => ConsumerAgrees(s, e);
    case CSize(_) => ConsumerAgrees(s, e);
    case _ => ProducerAgrees(s, e);
  }

  lemma {:induction false} DataLength<T>(w: Width, s0: State<T>, es: seq<Event<T>>, s: State<T>)
    requires s0.heads != [] && s0.tails != [] && Exec(w, s0, es) == Some(s)
    ensures |s.data| == |s0.data|
    decreases |es|
  {
    if es != [] {
      DataLength(w, s0, es[..|es| - 1], Exec(w, s0, es[..|es| - 1]).value);
    }
  }

  /** The two widths have the same runs and pass through corresponding states. */
  lemma {:induction false} WidthsAgree<T>(s: State<T>, es: seq<Event<T>>)
    requires Inv(s) && Sized(s)
    ensures Exec(Bits64, WrapState(s), es).Some? <==> Exec(Unbounded, s, es).Some?
    ensures Exec(Unbounded, s, es).Some? ==>
              Exec(Bits64, WrapState(s), es) == Some(WrapState(Exec(Unbounded, s, es).value))
    decreases |es|
  {
    if es != [] {
      var before := es[..|es| - 1];
      WidthsAgree(s, before);
      if Exec(Unbounded, s, before).Some? {
        var s1 := Exec(Unbounded, s, before).value;
        RunKeepsInv(s, before, s1);
        DataLength(Unbounded, s, before, s1);
        StepAgrees(s1, es[|es| - 1]);
      }
    }
  }

  /** A 64-bit run from an unused ring, and the unbounded run it stands for. */
  lemma Unwrapped<T>(data: seq<T>, es: seq<Event<T>>, s: State<T>) returns (a: State<T>)
    requires AcceptedCapacity(|data|)
    requires Exec(Bits64, Fresh(data), es) == Some(s)
    ensures Inv(a) && Sized(a) && s == WrapState(a) && |a.data| == |data|
    ensures Dequeued(es) + Contents(a) == Enqueued(es)
  {
    AcceptedIsPow2OrZero(|data|);
    FreshInv(data);
    assert WrapState(Fresh(data)) == Fresh(data);
    WidthsAgree(Fresh(data), es);
    a := Exec(Unbounded, Fresh(data), es).value;
    RunKeepsInv(Fresh(data), es, a);
    DataLength(Unbounded, Fresh(data), es, a);
  }

  // ---------- The code's ring, over every interleaving ----------

  ghost function Occupancy<T>(s: State<T>): int
    requires s.heads != [] && s.tails != []
  {
    Minus(Bits64, Newest(s.heads), Newest(s.tails))
  }

  /** Where the code finds the `k`-th oldest item. */
  ghost function ReadAt<T>(s: State<T>, k: nat): nat
    requires s.tails != []
  {
    Position(Bits64, |s.data|, Plus(Bits64, Newest(s.tails), k))
  }

  lemma ReadAtIsSlot<T>(a: State<T>, k: nat)
    requires Inv(a) && Sized(a) && k < |Contents(a)|
    ensures ReadAt(WrapState(a), k) == Slot(|a.data|, Newest(a.tails) + k)
  {
    PositionAgrees(|a.data|, Newest(a.tails), k);
  }

  lemma OccupancyIsCount<T>(a: State<T>)
    requires Inv(a) && Sized(a)
    ensures Occupancy(WrapState(a)) == |Contents(a)| <= |a.data|
  {
    WrapDistance(Newest(a.heads), Newest(a.tails));
  }

  /** Every item the indices say is in the ring has a slot inside the array. */
  ghost predicate Readable<T>(s: State<T>) {
    && s.heads != [] && s.tails != []
    && 0 <= Occupancy(s) <= |s.data|
    && forall k: nat | k < Occupancy(s) :: ReadAt(s, k) < |s.data|
  }

  /** The items in the ring as the code would read them, oldest first. */
  ghost function Stored<T>(s: State<T>): seq<T>
    requires Readable(s)
  {
    seq(Occupancy(s), k requires 0 <= k < Occupancy(s) => s.data[ReadAt(s, k)])
  }

  lemma StoredIsContents<T>(a: State<T>)
    requires Inv(a) && Sized(a)
    ensures Readable(WrapState(a)) && Stored(WrapState(a)) == Contents(a)
  {
    var s := WrapState(a);
    OccupancyIsCount(a);
    forall k: nat | k < Occupancy(s)
      ensures ReadAt(s, k) < |s.data| && s.data[ReadAt(s, k)] == Contents(a)[k]
    {
      ReadAtIsSlot(a, k);
    }
  }

  /**
   First in, first out: in every interleaving of one producer and one consumer, whatever the
   mix of single and burst calls and however stale the loads, the items handed out followed by
   the items in the ring are the items accepted. Nothing is lost, duplicated or reordered.
   */
  lemma Fifo<T>(data: seq<T>, es: seq<Event<T>>, s: State<T>)
    requires AcceptedCapacity(|data|)
    requires Exec(Bits64, Fresh(data), es) == Some(s)
    ensures |s.data| == |data| && Readable(s)
    ensures Dequeued(es) + Stored(s) == Enqueued(es)
  {
    var a := Unwrapped(data, es, s);
    StoredIsContents(a);
  }

  /** The slot the producer writes its `j`-th item to. */
  ghost function WriteAt<T>(s: State<T>, j: nat): nat
    requires s.prod.PCopying?
  {
    Position(Bits64, |s.data|, Plus(Bits64, s.prod.h, j))
  }

  /** No slot still to be written is published and unread, or being copied by the consumer. */
  ghost predicate RaceFree<T>(s: State<T>)
    requires s.heads != [] && s.tails != []
  {
    && (s.cons.CCopying? ==> s.cons.t == Newest(s.tails) && s.cons.cnt <= Occupancy(s))
    && (s.prod.PCopying? ==>
          forall j: nat | s.prod.i <= j < s.prod.cnt ::
            && WriteAt(s, j) < |s.data|
            && forall k: nat | k < Occupancy(s) :: WriteAt(s, j) != ReadAt(s, k))
  }

  lemma InvRaceFree<T>(a: State<T>)
    requires Inv(a) && Sized(a)
    ensures RaceFree(WrapState(a))
  {
    var s := WrapState(a);
    OccupancyIsCount(a);
    if s.prod.PCopying? {
      forall j: nat | s.prod.i <= j < s.prod.cnt
        ensures WriteAt(s, j) < |s.data|
        ensures forall k: nat | k < Occupancy(s) :: WriteAt(s, j) != ReadAt(s, k)
      {
        PositionAgrees(|a.data|, a.prod.h, j);
        forall k: nat | k < Occupancy(s)
          ensures WriteAt(s, j) != ReadAt(s, k)
        {
          ReadAtIsSlot(a, k);
          ClaimedSlotsAreFree(a, j, k);
        }
      }
    }
  }

  /**
   In every reachable state, also in the middle of calls that work from old index values, the
   slots the producer has claimed lie inside the array and apart from every slot the consumer
   may read.
   */
  lemma NoSlotRace<T>(data: seq<T>, es: seq<Event<T>>, s: State<T>)
    requires AcceptedCapacity(|data|)
    requires Exec(Bits64, Fresh(data), es) == Some(s)
    ensures RaceFree(s)
  {
    var a := Unwrapped(data, es, s);
    InvRaceFree(a);
  }

  // ---------- Calls never block ----------

  /** The producer has a next step, in a call or asking for the size between calls, whichever value a load of the other index returns. */
  ghost predicate ProducerMoves<T>(w: Width, s: State<T>, m: nat)
    requires s.heads != [] && s.tails != []
  {
    match s.prod
    case PIdle => s.seenTail <= m < |s.tails| ==> Enabled(w, s, PSize(m))
    case PLoaded(call, _) =>
      s.seenTail <= m < |s.tails| ==> Enabled(w, s, PLoad(m)) || Enabled(w, s, PFull(m))
    case PCopying(call, _, _, i) =>
      Enabled(w, s, PCopy) || (i <= |Offered(call)| && Enabled(w, s, PPublish(Offered(call)[..i])))
  }

  /** Likewise for the consumer. */
  ghost predicate ConsumerMoves<T>(w: Width, s: State<T>, m: nat)
    requires s.heads != [] && s.tails != []
  {
    match s.cons
    case CIdle => s.seenHead <= m < |s.heads| ==> Enabled(w, s, CSize(m))
    case CLoaded(_, _) =>
      s.seenHead <= m < |s.heads| ==> Enabled(w, s, CLoad(m)) || Enabled(w, s, CEmpty(m))
    case CCopying(_, _, out) => Enabled(w, s, CCopy) || Enabled(w, s, CPublish(out))
  }

  lemma InvMoves<T>(a: State<T>, m: nat)
    requires Inv(a)
    ensures ProducerMoves(Unbounded, a, m) && ConsumerMoves(Unbounded, a, m)
  {
  }

  lemma MovesInCode<T>(a: State<T>, m: nat)
    requires Inv(a) && Sized(a)
    ensures ProducerMoves(Bits64, WrapState(a), m) && ConsumerMoves(Bits64, WrapState(a), m)
  {
    InvMoves(a, m);
    StepAgrees(a, PLoad(m));
    StepAgrees(a, PFull(m));
    StepAgrees(a, PCopy);
    StepAgrees(a, CLoad(m));
    StepAgrees(a, CEmpty(m));
    StepAgrees(a, CCopy);
    if a.prod.PCopying? {
      StepAgrees(a, PPublish(Offered(a.prod.call)[..a.prod.i]));
    }
    if a.cons.CCopying? {
      StepAgrees(a, CPublish(a.cons.out));
    }
  }

  /** In every reachable state both threads can take their next step, on any value their load may return. */
  lemma NeverBlocked<T>(data: seq<T>, es: seq<Event<T>>, s: State<T>, m: nat)
    requires AcceptedCapacity(|data|)
    requires Exec(Bits64, Fresh(data), es) == Some(s)
    ensures ProducerMoves(Bits64, s, m) && ConsumerMoves(Bits64, s, m)
  {
    var a := Unwrapped(data, es, s);
    MovesInCode(a, m);
  }
}
