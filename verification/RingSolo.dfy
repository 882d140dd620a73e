/**
 The step-by-step protocol against the call-at-a-time specification: a call whose steps run
 without the other side in between, and whose load returns the newest index, does to the ring
 what the specification of that call says.
 */
module RingSolo {
  import opened Options
  import opened Words
  import opened RingSpec
  import opened RingProtocol

  /** The ring a state shows between calls. */
  ghost function AsRing<T>(s: State<T>): Ring<T>
    requires s.heads != [] && s.tails != []
  {
    Ring(Newest(s.heads), Newest(s.tails), s.data)
  }

  /** These are the steps of one producer call, in order. */
  ghost predicate ProducerCall<T>(es: seq<Event<T>>, call: Call<T>) {
    && es != [] && es[0] == PStart(call)
    && forall i :: 1 <= i < |es| ==>
         es[i].PLoad? || es[i].PCopy? || es[i].PPublish? || (es[i].PFull? && call.One?)
  }

  /** These are the steps of one consumer call, in order. */
  ghost predicate ConsumerCall<T>(es: seq<Event<T>>, want: Want) {
    && es != [] && es[0] == CStart(want)
    && forall i :: 1 <= i < |es| ==>
         es[i].CLoad? || es[i].CCopy? || es[i].CPublish? || (es[i].CEmpty? && want.Next?)
  }

  /** What `Indexed` says of the newest values alone. */
  ghost predicate Coherent<T>(s: State<T>) {
    && s.heads != [] && s.tails != [] && AsRing(s).Valid()
    && s.seenTail < |s.tails| && s.seenHead < |s.heads|
  }

  lemma Then<T>(s0: State<T>, es: seq<Event<T>>, s: State<T>, e: Event<T>) returns (es': seq<Event<T>>, s': State<T>)
    requires s0.heads != [] && s0.tails != [] && Exec(Unbounded, s0, es) == Some(s)
    requires Enabled(Unbounded, s, e)
    ensures es' == es + [e] && Exec(Unbounded, s0, es') == Some(s') && s' == Apply(Unbounded, s, e)
    ensures Enqueued(es') == Enqueued(es) + if e.PPublish? then e.accepted else []
    ensures Dequeued(es') == Dequeued(es) + if e.CPublish? then e.taken else []
  {
    es', s' := es + [e], Apply(Unbounded, s, e);
    assert es'[..|es|] == es;
  }

  /** A producer about to copy, and the same one after `n` copies. */
  ghost predicate CanCopyIn<T>(s: State<T>, n: nat) {
    && s.prod.PCopying? && s.prod.i == 0 && s.heads != [] && s.tails != []
    && n <= s.prod.cnt && n <= |s.data| && n <= |Offered(s.prod.call)|
  }

  ghost function CopiedIn<T>(s: State<T>, n: nat): State<T>
    requires CanCopyIn(s, n)
  {
    s.(data := Store(s.data, s.prod.h, Offered(s.prod.call)[..n]), prod := s.prod.(i := n))
  }

  lemma CopyInOnce<T>(s: State<T>, n: nat)
    requires CanCopyIn(s, n + 1)
    ensures Enabled(Unbounded, CopiedIn(s, n), PCopy)
    ensures Apply(Unbounded, CopiedIn(s, n), PCopy) == CopiedIn(s, n + 1)
  {
    var xs := Offered(s.prod.call);
    StoreOneMore(s.data, s.prod.h, xs[..n], xs[n]);
    assert xs[..n + 1] == xs[..n] + [xs[n]];
  }

  lemma {:induction false} CopyIn<T>(s0: State<T>, es: seq<Event<T>>, s: State<T>, n: nat) returns (es': seq<Event<T>>)
    requires s0.heads != [] && s0.tails != [] && Exec(Unbounded, s0, es) == Some(s) && CanCopyIn(s, n)
    ensures Exec(Unbounded, s0, es') == Some(CopiedIn(s, n))
    ensures Enqueued(es') == Enqueued(es) && Dequeued(es') == Dequeued(es)
    ensures forall call :: ProducerCall(es, call) ==> ProducerCall(es', call)
    decreases n
  {
    if n == 0 {
      es' := es;
      assert CopiedIn(s, 0) == s;
    } else {
      es' := CopyIn(s0, es, s, n - 1);
      CopyInOnce(s, n - 1);
      var s';
      es', s' := Then(s0, es', CopiedIn(s, n - 1), PCopy);
    }
  }

  /** A consumer about to copy, and the same one after `n` copies. */
  ghost predicate CanCopyOut<T>(s: State<T>, n: nat) {
    && s.cons.CCopying? && s.cons.out == [] && s.heads != [] && s.tails != []
    && n <= s.cons.cnt && n <= |s.data|
  }

  ghost function CopiedOut<T>(s: State<T>, n: nat): State<T>
    requires CanCopyOut(s, n)
  {
    s.(cons := s.cons.(out := Window(s.data, s.cons.t, n)))
  }

  lemma CopyOutOnce<T>(s: State<T>, n: nat)
    requires CanCopyOut(s, n + 1)
    ensures Enabled(Unbounded, CopiedOut(s, n), CCopy)
    ensures Apply(Unbounded, CopiedOut(s, n), CCopy) == CopiedOut(s, n + 1)
  {
    WindowSplit(s.data, s.cons.t, n, 1);
    assert Window(s.data, s.cons.t + n, 1) == [s.data[Slot(|s.data|, s.cons.t + n)]];
  }

  lemma {:induction false} CopyOut<T>(s0: State<T>, es: seq<Event<T>>, s: State<T>, n: nat) returns (es': seq<Event<T>>)
    requires s0.heads != [] && s0.tails != [] && Exec(Unbounded, s0, es) == Some(s) && CanCopyOut(s, n)
    ensures Exec(Unbounded, s0, es') == Some(CopiedOut(s, n))
    ensures Enqueued(es') == Enqueued(es) && Dequeued(es') == Dequeued(es)
    ensures forall want :: ConsumerCall(es, want) ==> ConsumerCall(es', want)
    decreases n
  {
    if n == 0 {
      es' := es;
    } else {
      es' := CopyOut(s0, es, s, n - 1);
      CopyOutOnce(s, n - 1);
      var s';
      es', s' := Then(s0, es', CopiedOut(s, n - 1), CCopy);
    }
  }

  /** The state in which a burst call that accepted the first `n` of `xs` leaves the ring. */
  ghost function Filled<T>(s: State<T>, xs: seq<T>, n: nat): State<T>
    requires Coherent(s) && n <= |s.data| && n <= |xs|
  {
    s.(data := Store(s.data, Newest(s.heads), xs[..n]), heads := s.heads + [Newest(s.heads) + n],
       seenTail := |s.tails| - 1, prod := PIdle)
  }

  /** The state in which that call starts to copy. */
  ghost function Claimed<T>(s: State<T>, xs: seq<T>, n: nat): State<T>
    requires Coherent(s)
  {
    s.(seenTail := |s.tails| - 1, prod := PCopying(Burst(xs), Newest(s.heads), n, 0))
  }

  lemma ClaimIn<T>(s: State<T>, xs: seq<T>, n: nat) returns (es: seq<Event<T>>)
    requires Coherent(s) && s.prod.PIdle? && |xs| < W64
    requires n == Min(|xs|, |s.data| - (Newest(s.heads) - Newest(s.tails)))
    ensures Exec(Unbounded, s, es) == Some(Claimed(s, xs, n)) && Enqueued(es) == [] && Dequeued(es) == []
    ensures ProducerCall(es, Burst(xs))
  {
    var s';
    es, s' := Then(s, [], s, PStart(Burst(xs)));
    assert s' == s.(prod := PLoaded(Burst(xs), Newest(s.heads)));
    es, s' := Then(s, es, s', PLoad(|s.tails| - 1));
    assert s' == Claimed(s, xs, n);
  }

  lemma PublishIn<T>(s: State<T>, xs: seq<T>, n: nat)
    requires Coherent(s) && n <= |s.data| && n <= |xs|
    ensures Enabled(Unbounded, CopiedIn(Claimed(s, xs, n), n), PPublish(xs[..n]))
    ensures Apply(Unbounded, CopiedIn(Claimed(s, xs, n), n), PPublish(xs[..n])) == Filled(s, xs, n)
  {
  }

  /** `enqueue_burst`, step by step. */
  lemma BurstIn<T>(s: State<T>, xs: seq<T>, n: nat) returns (es: seq<Event<T>>)
    requires Coherent(s) && s.prod.PIdle? && |xs| < W64
    requires n == Min(|xs|, |s.data| - (Newest(s.heads) - Newest(s.tails)))
    ensures Exec(Unbounded, s, es) == Some(Filled(s, xs, n)) && Enqueued(es) == xs[..n] && Dequeued(es) == []
    ensures ProducerCall(es, Burst(xs))
  {
    es := ClaimIn(s, xs, n);
    es := CopyIn(s, es, Claimed(s, xs, n), n);
    PublishIn(s, xs, n);
    var s';
    es, s' := Then(s, es, CopiedIn(Claimed(s, xs, n), n), PPublish(xs[..n]));
  }

  /** `enqueue_burst` on its own. */
  lemma SoloEnqueueBurst<T>(s: State<T>, xs: seq<T>) returns (es: seq<Event<T>>, s': State<T>)
    requires Coherent(s) && s.prod.PIdle? && |xs| < W64
    ensures Exec(Unbounded, s, es) == Some(s') && s'.prod.PIdle? && s'.cons == s.cons
    ensures (AsRing(s'), |Enqueued(es)|) == EnqueueEach(AsRing(s), xs)
    ensures Enqueued(es) <= xs && Dequeued(es) == []
  {
    EnqueueEachIsStore(AsRing(s), xs);
    var n := Min(|xs|, |s.data| - (Newest(s.heads) - Newest(s.tails)));
    es := BurstIn(s, xs, n);
    s' := Filled(s, xs, n);
  }

  /** `enqueue` on its own. */
  lemma SoloEnqueue<T>(s: State<T>, x: T) returns (es: seq<Event<T>>, s': State<T>)
    requires Coherent(s) && s.prod.PIdle?
    ensures Exec(Unbounded, s, es) == Some(s') && s'.prod.PIdle? && s'.cons == s.cons
    ensures var (r, ok) := Enqueue(AsRing(s), x);
            AsRing(s') == r && Enqueued(es) == (if ok then [x] else []) && Dequeued(es) == []
    ensures ProducerCall(es, One(x))
  {
    es, s' := Then(s, [], s, PStart(One(x)));
    if Newest(s.heads) - Newest(s.tails) >= |s.data| {
      es, s' := Then(s, es, s', PFull(|s.tails| - 1));
    } else {
      es, s' := Then(s, es, s', PLoad(|s.tails| - 1));
      es, s' := Then(s, es, s', PCopy);
      es, s' := Then(s, es, s', PPublish([x]));
    }
  }

  /** The state in which a burst call that took `n` items leaves the ring. */
  ghost function Drained<T>(s: State<T>, n: nat): State<T>
    requires Coherent(s)
  {
    s.(tails := s.tails + [Newest(s.tails) + n], seenHead := |s.heads| - 1, cons := CIdle)
  }

  /** The state in which that call starts to copy. */
  ghost function Found<T>(s: State<T>, n: nat): State<T>
    requires Coherent(s)
  {
    s.(seenHead := |s.heads| - 1, cons := CCopying(Newest(s.tails), n, []))
  }

  lemma LoadOut<T>(s: State<T>, n: nat, k: nat)
    requires Coherent(s) && k == Min(n, Newest(s.heads) - Newest(s.tails))
    ensures var s1 := s.(cons := CLoaded(UpTo(n), Newest(s.tails)));
            && Enabled(Unbounded, s1, CLoad(|s.heads| - 1))
            && Apply(Unbounded, s1, CLoad(|s.heads| - 1)) == Found(s, k)
  {
  }

  lemma FindOut<T>(s: State<T>, n: nat, k: nat) returns (es: seq<Event<T>>)
    requires Coherent(s) && s.cons.CIdle? && n < W64 && k == Min(n, Newest(s.heads) - Newest(s.tails))
    ensures Exec(Unbounded, s, es) == Some(Found(s, k)) && Enqueued(es) == [] && Dequeued(es) == []
    ensures ConsumerCall(es, UpTo(n))
  {
    var s';
    es, s' := Then(s, [], s, CStart(UpTo(n)));
    LoadOut(s, n, k);
    es, s' := Then(s, es, s', CLoad(|s.heads| - 1));
  }

  lemma PublishOut<T>(s: State<T>, k: nat)
    requires Coherent(s) && k <= |s.data|
    ensures Enabled(Unbounded, CopiedOut(Found(s, k), k), CPublish(Window(s.data, Newest(s.tails), k)))
    ensures Apply(Unbounded, CopiedOut(Found(s, k), k), CPublish(Window(s.data, Newest(s.tails), k))) == Drained(s, k)
  {
  }

  /** `dequeue_burst`, step by step. */
  lemma BurstOut<T>(s: State<T>, n: nat, k: nat) returns (es: seq<Event<T>>)
    requires Coherent(s) && s.cons.CIdle? && n < W64 && k == Min(n, Newest(s.heads) - Newest(s.tails))
    ensures Exec(Unbounded, s, es) == Some(Drained(s, k)) && ConsumerCall(es, UpTo(n))
    ensures Dequeued(es) == Window(s.data, Newest(s.tails), k) && Enqueued(es) == []
  {
    es := FindOut(s, n, k);
    es := CopyOut(s, es, Found(s, k), k);
    PublishOut(s, k);
    var s';
    es, s' := Then(s, es, CopiedOut(Found(s, k), k), CPublish(Window(s.data, Newest(s.tails), k)));
  }

  lemma DrainedAsRing<T>(s: State<T>, n: nat, k: nat)
    requires Coherent(s) && k == Min(n, Newest(s.heads) - Newest(s.tails))
    ensures DequeueEach(AsRing(s), n) == (AsRing(Drained(s, k)), Window(s.data, Newest(s.tails), k))
  {
    DequeueEachIsWindow(AsRing(s), n);
  }

  /** `dequeue_burst` on its own. */
  lemma SoloDequeueBurst<T>(s: State<T>, n: nat) returns (es: seq<Event<T>>, s': State<T>)
    requires Coherent(s) && s.cons.CIdle? && n < W64
    ensures Exec(Unbounded, s, es) == Some(s') && s'.cons.CIdle? && s'.prod == s.prod
    ensures (AsRing(s'), Dequeued(es)) == DequeueEach(AsRing(s), n)
    ensures Enqueued(es) == []
  {
    var k := Min(n, Newest(s.heads) - Newest(s.tails));
    es := BurstOut(s, n, k);
    s' := Drained(s, k);
    DrainedAsRing(s, n, k);
  }

  /** `dequeue` on its own. */
  lemma SoloDequeue<T>(s: State<T>) returns (es: seq<Event<T>>, s': State<T>)
    requires Coherent(s) && s.cons.CIdle?
    ensures Exec(Unbounded, s, es) == Some(s') && s'.cons.CIdle? && s'.prod == s.prod
    ensures var (r, out) := Dequeue(AsRing(s));
            AsRing(s') == r && Dequeued(es) == out && Enqueued(es) == []
    ensures ConsumerCall(es, Next)
  {
    es, s' := Then(s, [], s, CStart(Next));
    if Newest(s.heads) == Newest(s.tails) {
      es, s' := Then(s, es, s', CEmpty(|s.heads| - 1));
    } else {
      es, s' := Then(s, es, s', CLoad(|s.heads| - 1));
      es, s' := Then(s, es, s', CCopy);
      assert s'.cons.out == [s.data[Slot(|s.data|, Newest(s.tails))]];
      es, s' := Then(s, es, s', CPublish(s'.cons.out));
    }
  }
}
