/**
 `size()` is documented as approximate, but each side may rely on what it reads: the items a
 consumer has seen stay there for it, and the room a producer has seen stays free for it,
 whatever the other side does meanwhile.
 */
module RingSize {
  import opened Options
  import opened Words
  import opened RingSpec
  import opened RingProtocol
  import opened RingWrap

  lemma RoomStays<T>(s0: State<T>, m: nat, es: seq<Event<T>>, s: State<T>, m2: nat)
    requires Inv(s0) && Enabled(Unbounded, s0, PSize(m))
    requires Exec(Unbounded, Apply(Unbounded, s0, PSize(m)), es) == Some(s)
    requires s.seenTail <= m2 < |s.tails|
    ensures Newest(s.heads) - s.tails[m2] <= Newest(s0.heads) - s0.tails[m] + |Enqueued(es)|
  {
    StepKeepsInv(s0, PSize(m));
    HistoryGrows(Apply(Unbounded, s0, PSize(m)), es, s);
    assert s.tails[m] == s0.tails[m];
  }

  lemma ItemsStay<T>(s0: State<T>, m: nat, es: seq<Event<T>>, s: State<T>, m2: nat)
    requires Inv(s0) && Enabled(Unbounded, s0, CSize(m))
    requires Exec(Unbounded, Apply(Unbounded, s0, CSize(m)), es) == Some(s)
    requires s.seenHead <= m2 < |s.heads|
    ensures s.heads[m2] - Newest(s.tails) >= s0.heads[m] - Newest(s0.tails) - |Dequeued(es)|
  {
    StepKeepsInv(s0, CSize(m));
    HistoryGrows(Apply(Unbounded, s0, CSize(m)), es, s);
    assert s.heads[m] == s0.heads[m];
  }

  /** The unbounded states behind a reachable 64-bit state, a step from it, and a run after that. */
  lemma UnwrappedAfter<T>(data: seq<T>, es0: seq<Event<T>>, s0: State<T>, e: Event<T>, es: seq<Event<T>>, s: State<T>)
    returns (a0: State<T>, a: State<T>)
    requires AcceptedCapacity(|data|)
    requires Exec(Bits64, Fresh(data), es0) == Some(s0)
    requires Enabled(Bits64, s0, e) && Exec(Bits64, Apply(Bits64, s0, e), es) == Some(s)
    ensures Inv(a0) && Sized(a0) && s0 == WrapState(a0) && |a0.data| == |data|
    ensures Enabled(Unbounded, a0, e) && Exec(Unbounded, Apply(Unbounded, a0, e), es) == Some(a)
    ensures Inv(a) && Sized(a) && s == WrapState(a) && |a.data| == |data|
  {
    a0 := Unwrapped(data, es0, s0);
    StepAgrees(a0, e);
    StepKeepsInv(a0, e);
    var a1 := Apply(Unbounded, a0, e);
    WidthsAgree(a1, es);
    a := Exec(Unbounded, a1, es).value;
    RunKeepsInv(a1, es, a);
    DataLength(Unbounded, a1, es, a);
  }

  /** `Capacity - size()` on the producer thread, when its load of the tail reads place `m`. */
  ghost function RoomRead<T>(s: State<T>, m: nat): int
    requires s.heads != [] && m < |s.tails|
  {
    |s.data| - Minus(Bits64, Newest(s.heads), s.tails[m])
  }

  /** `size()` on the consumer thread, when its load of the head reads place `m`. */
  ghost function SizeRead<T>(s: State<T>, m: nat): int
    requires s.tails != [] && m < |s.heads|
  {
    Minus(Bits64, s.heads[m], Newest(s.tails))
  }

  lemma RoomReadIsTrue<T>(a: State<T>, m: nat)
    requires Indexed(a) && Sized(a) && a.seenTail <= m < |a.tails|
    ensures RoomRead(WrapState(a), m) == |a.data| - (Newest(a.heads) - a.tails[m]) >= 0
  {
    assert a.tails[a.seenTail] <= a.tails[m];
    WrapEqual(Newest(a.heads), a.tails[m]);
  }

  lemma SizeReadIsTrue<T>(a: State<T>, m: nat)
    requires Indexed(a) && Sized(a) && a.seenHead <= m < |a.heads|
    ensures SizeRead(WrapState(a), m) == a.heads[m] - Newest(a.tails) >= 0
  {
    assert a.heads[a.seenHead] <= a.heads[m];
    WrapEqual(a.heads[m], Newest(a.tails));
  }

  /** The producer's pending call will find room for `k` items if its load reads place `m`. */
  ghost predicate FindsRoom<T>(s: State<T>, m: nat, k: int)
    requires s.heads != [] && s.prod.PLoaded? && m < |s.tails|
  {
    && Room(Bits64, |s.data|, s.prod.call, s.prod.h, s.tails[m]) >= Min(|Offered(s.prod.call)|, if k > 0 then k else 0)
    && (k > 0 ==> !Enabled(Bits64, s, PFull(m)))
  }

  /** The consumer's pending call will find `k` items if its load reads place `m`. */
  ghost predicate FindsItems<T>(s: State<T>, m: nat, k: int)
    requires s.tails != [] && s.cons.CLoaded? && m < |s.heads|
  {
    && Available(Bits64, s.cons.want, s.heads[m], s.cons.t)
         >= Min(if s.cons.want.UpTo? then s.cons.want.n else 1, if k > 0 then k else 0)
    && (k > 0 ==> !Enabled(Bits64, s, CEmpty(m)))
  }

  lemma FarFromFull<T>(a: State<T>, m: nat, k: int)
    requires Inv(a) && Sized(a) && a.prod.PLoaded? && a.seenTail <= m < |a.tails|
    requires Newest(a.heads) - a.tails[m] <= |a.data| - k
    ensures FindsRoom(WrapState(a), m, k)
  {
    WrapEqual(a.prod.h, a.tails[m]);
  }

  lemma FarFromEmpty<T>(a: State<T>, m: nat, k: int)
    requires Inv(a) && Sized(a) && a.cons.CLoaded? && a.seenHead <= m < |a.heads|
    requires a.heads[m] - Newest(a.tails) >= k
    ensures FindsItems(WrapState(a), m, k)
  {
    WrapEqual(a.heads[m], a.cons.t);
  }

  lemma RoomPromise<T>(a0: State<T>, m: nat, es: seq<Event<T>>, a: State<T>, m2: nat)
    requires Inv(a0) && Sized(a0) && Enabled(Unbounded, a0, PSize(m))
    requires Exec(Unbounded, Apply(Unbounded, a0, PSize(m)), es) == Some(a)
    requires Inv(a) && |a.data| == |a0.data|
    requires a.prod.PLoaded? && a.seenTail <= m2 < |a.tails|
    ensures var k := RoomRead(WrapState(a0), m);
            0 <= k && FindsRoom(WrapState(a), m2, k - |Enqueued(es)|)
  {
    RoomStays(a0, m, es, a, m2);
    RoomReadIsTrue(a0, m);
    FarFromFull(a, m2, |a0.data| - (Newest(a0.heads) - a0.tails[m]) - |Enqueued(es)|);
  }

  /**
   A producer that reads `Capacity - size() == k` can enqueue `k` items: until it has, no
   `enqueue` it makes is refused, and a burst takes all that is left of the `k`.
   */
  lemma ProducerMayRelyOnRoom<T>(data: seq<T>, es0: seq<Event<T>>, s0: State<T>, m: nat,
                                 es: seq<Event<T>>, s: State<T>, m2: nat)
    requires AcceptedCapacity(|data|)
    requires Exec(Bits64, Fresh(data), es0) == Some(s0)
    requires Enabled(Bits64, s0, PSize(m)) && Exec(Bits64, Apply(Bits64, s0, PSize(m)), es) == Some(s)
    requires s.prod.PLoaded? && s.seenTail <= m2 < |s.tails|
    ensures var k := RoomRead(s0, m);
            0 <= k && FindsRoom(s, m2, k - |Enqueued(es)|)
  {
    var a0, a := UnwrappedAfter(data, es0, s0, PSize(m), es, s);
    RoomPromise(a0, m, es, a, m2);
  }

  lemma ItemsPromise<T>(a0: State<T>, m: nat, es: seq<Event<T>>, a: State<T>, m2: nat)
    requires Inv(a0) && Sized(a0) && Enabled(Unbounded, a0, CSize(m))
    requires Exec(Unbounded, Apply(Unbounded, a0, CSize(m)), es) == Some(a)
    requires Inv(a) && |a.data| == |a0.data|
    requires a.cons.CLoaded? && a.seenHead <= m2 < |a.heads|
    ensures var k := SizeRead(WrapState(a0), m);
            0 <= k && FindsItems(WrapState(a), m2, k - |Dequeued(es)|)
  {
    ItemsStay(a0, m, es, a, m2);
    SizeReadIsTrue(a0, m);
    FarFromEmpty(a, m2, a0.heads[m] - Newest(a0.tails) - |Dequeued(es)|);
  }

  /**
   A consumer that reads `size() == k` can dequeue `k` items: until it has, no `dequeue` it
   makes fails, and a burst yields all that is left of the `k`.
   */
  lemma ConsumerMayRelyOnSize<T>(data: seq<T>, es0: seq<Event<T>>, s0: State<T>, m: nat,
                                 es: seq<Event<T>>, s: State<T>, m2: nat)
    requires AcceptedCapacity(|data|)
    requires Exec(Bits64, Fresh(data), es0) == Some(s0)
    requires Enabled(Bits64, s0, CSize(m)) && Exec(Bits64, Apply(Bits64, s0, CSize(m)), es) == Some(s)
    requires s.cons.CLoaded? && s.seenHead <= m2 < |s.heads|
    ensures var k := SizeRead(s0, m);
            0 <= k && FindsItems(s, m2, k - |Dequeued(es)|)
  {
    var a0, a := UnwrappedAfter(data, es0, s0, CSize(m), es, s);
    ItemsPromise(a0, m, es, a, m2);
  }

  lemma NewestReads<T>(a: State<T>, s: State<T>)
    requires Inv(a) && Sized(a) && s == WrapState(a)
    ensures Readable(s)
    ensures RoomRead(s, |s.tails| - 1) == |s.data| - |Stored(s)| && SizeRead(s, |s.heads| - 1) == |Stored(s)|
  {
    StoredIsContents(a);
    RoomReadIsTrue(a, |a.tails| - 1);
    SizeReadIsTrue(a, |a.heads| - 1);
  }

  /** Between calls either thread may ask for the size, and when it loads the newest index the answer is exact. */
  lemma SizeIsExactWhenNew<T>(data: seq<T>, es: seq<Event<T>>, s: State<T>)
    requires AcceptedCapacity(|data|)
    requires Exec(Bits64, Fresh(data), es) == Some(s)
    ensures Readable(s)
    ensures s.prod.PIdle? ==> Enabled(Bits64, s, PSize(|s.tails| - 1))
    ensures s.cons.CIdle? ==> Enabled(Bits64, s, CSize(|s.heads| - 1))
    ensures RoomRead(s, |s.tails| - 1) == |data| - |Stored(s)|
    ensures SizeRead(s, |s.heads| - 1) == |Stored(s)|
  {
    var a := Unwrapped(data, es, s);
    NewestReads(a, s);
  }
}
