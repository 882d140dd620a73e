/**
 The ring buffer as a thread sees it between calls: free-running 64-bit indices, a masked
 slot number, single-item and burst operations.

 `Ring` and the functions on it are the specification, with counters that never wrap. The
 class `SpscRing` keeps the wrapped 64-bit indices, masks them, updates its array in place,
 and is proved against the specification. The interleaving of the two sides is the subject
 of RingProtocol.dfy.
 */
module RingSpec {
  import opened Words

  /** The ring between two calls: items numbered from `tail` up to `head` are in it. */
  datatype Ring<T> = Ring(head: nat, tail: nat, data: seq<T>) {

    ghost predicate Valid() {
      tail <= head <= tail + |data|
    }

    /** The items in the ring, oldest first. */
    ghost function Contents(): seq<T>
      requires Valid()
    {
      Window(data, tail, head - tail)
    }
  }

  /** One `enqueue` call: the new ring and the returned flag. */
  ghost function Enqueue<T>(r: Ring<T>, x: T): (Ring<T>, bool)
    requires r.Valid()
  {
    if r.head - r.tail >= |r.data| then (r, false)
    else (Ring(r.head + 1, r.tail, r.data[Slot(|r.data|, r.head) := x]), true)
  }

  /** One `dequeue` call: the new ring and the item, if there was one. */
  ghost function Dequeue<T>(r: Ring<T>): (Ring<T>, seq<T>)
    requires r.Valid()
  {
    if r.tail == r.head then (r, [])
    else (r.(tail := r.tail + 1), [r.data[Slot(|r.data|, r.tail)]])
  }

  /** `enqueue` called on each item in turn until one is refused. */
  ghost function EnqueueEach<T>(r: Ring<T>, xs: seq<T>): (result: (Ring<T>, nat))
    requires r.Valid()
    decreases |xs|
  {
    if xs == [] then (r, 0)
    else
      var (r1, ok) := Enqueue(r, xs[0]);
      if !ok then (r, 0)
      else
        var (r2, n) := EnqueueEach(r1, xs[1..]);
        (r2, n + 1)
  }

  /** `dequeue` called up to `n` times until it fails. */
  ghost function DequeueEach<T>(r: Ring<T>, n: nat): (result: (Ring<T>, seq<T>))
    requires r.Valid()
    decreases n
  {
    if n == 0 || r.tail == r.head then (r, [])
    else
      var (r1, out) := Dequeue(r);
      var (r2, more) := DequeueEach(r1, n - 1);
      (r2, out + more)
  }

  // ---------- The ring is a bounded queue ----------

  lemma EnqueueAppends<T>(r: Ring<T>, x: T)
    requires r.Valid()
    ensures var (r', ok) := Enqueue(r, x);
            && r'.Valid() && |r'.data| == |r.data|
            && (ok <==> |r.Contents()| < |r.data|)
            && r'.Contents() == (if ok then r.Contents() + [x] else r.Contents())
  {
    if r.head - r.tail < |r.data| {
      WindowGrows(r.data, r.tail, r.head - r.tail, x);
    }
  }

  lemma DequeueTakesOldest<T>(r: Ring<T>)
    requires r.Valid()
    ensures var (r', out) := Dequeue(r);
            && r'.Valid() && r'.data == r.data
            && |out| <= 1 && (out == [] <==> r.Contents() == [])
            && r.Contents() == out + r'.Contents()
  {
    if r.tail != r.head {
      WindowSplit(r.data, r.tail, 1, r.head - r.tail - 1);
      assert Window(r.data, r.tail, 1)[0] == r.data[Slot(|r.data|, r.tail)];
    }
  }

  /** A run of enqueues accepts exactly what fits, in order. */
  lemma {:induction false} EnqueueEachAppends<T>(r: Ring<T>, xs: seq<T>)
    requires r.Valid()
    ensures var (r', n) := EnqueueEach(r, xs);
            && r'.Valid() && |r'.data| == |r.data|
            && n == Min(|xs|, |r.data| - |r.Contents()|)
            && r'.Contents() == r.Contents() + xs[..n]
    decreases |xs|
  {
    if xs != [] {
      EnqueueAppends(r, xs[0]);
      var (r1, ok) := Enqueue(r, xs[0]);
      if ok {
        EnqueueEachAppends(r1, xs[1..]);
        var n := EnqueueEach(r1, xs[1..]).1;
        assert xs[..n + 1] == [xs[0]] + xs[1..][..n];
      }
    }
  }

  /** A run of dequeues removes exactly a prefix of the contents. */
  lemma {:induction false} DequeueEachTakesOldest<T>(r: Ring<T>, n: nat)
    requires r.Valid()
    ensures var (r', out) := DequeueEach(r, n);
            && r'.Valid() && r'.data == r.data
            && |out| == Min(n, |r.Contents()|)
            && r.Contents() == out + r'.Contents()
    decreases n
  {
    if n > 0 && r.tail != r.head {
      DequeueTakesOldest(r);
      DequeueEachTakesOldest(Dequeue(r).0, n - 1);
    }
  }

  // ---------- Runs of single calls, in closed form ----------

  /** The array after items are stored from counter `at` on. */
  ghost function Store<T>(data: seq<T>, at: nat, xs: seq<T>): (data': seq<T>)
    requires |data| > 0 || xs == []
    ensures |data'| == |data|
    decreases |xs|
  {
    if xs == [] then data
    else Store(data[Slot(|data|, at) := xs[0]], at + 1, xs[1..])
  }

  lemma {:induction false} StoreOneMore<T>(data: seq<T>, at: nat, xs: seq<T>, x: T)
    requires |data| > 0
    ensures Store(data, at, xs + [x]) == Store(data, at, xs)[Slot(|data|, at + |xs|) := x]
    decreases |xs|
  {
    if xs == [] {
      assert Store(data[Slot(|data|, at) := x], at + 1, []) == data[Slot(|data|, at) := x];
    } else {
      assert (xs + [x])[1..] == xs[1..] + [x];
      StoreOneMore(data[Slot(|data|, at) := xs[0]], at + 1, xs[1..], x);
    }
  }

  lemma {:induction false} EnqueueEachIsStore<T>(r: Ring<T>, xs: seq<T>)
    requires r.Valid()
    ensures var m := Min(|xs|, |r.data| - (r.head - r.tail));
            EnqueueEach(r, xs) == (Ring(r.head + m, r.tail, Store(r.data, r.head, xs[..m])), m)
    decreases |xs|
  {
    if xs != [] && r.head - r.tail < |r.data| {
      var r1 := Enqueue(r, xs[0]).0;
      var m := Min(|xs|, |r.data| - (r.head - r.tail));
      EnqueueEachIsStore(r1, xs[1..]);
      assert xs[..m][1..] == xs[1..][..m - 1];
    }
  }

  lemma {:induction false} DequeueEachIsWindow<T>(r: Ring<T>, n: nat)
    requires r.Valid()
    ensures var m := Min(n, r.head - r.tail);
            DequeueEach(r, n) == (r.(tail := r.tail + m), Window(r.data, r.tail, m))
    decreases n
  {
    if n > 0 && r.tail != r.head {
      var m := Min(n, r.head - r.tail);
      DequeueEachIsWindow(Dequeue(r).0, n - 1);
      WindowSplit(r.data, r.tail, 1, m - 1);
      assert Window(r.data, r.tail, 1) == [r.data[Slot(|r.data|, r.tail)]];
    }
  }

}

/** The ring in place. */
module Rings {
  import opened Words
  import opened RingSpec

  class SpscRing<T> {
    const data: array<T>
    var head: U64
    var tail: U64
    /** The same two counters, had they never wrapped. */
    ghost var enqueued: nat
    ghost var dequeued: nat

    ghost predicate Valid()
      reads this
    {
      && CapacityOk(data.Length) && data.Length < W64
      && head == Wrap(enqueued) && tail == Wrap(dequeued)
      && dequeued <= enqueued <= dequeued + data.Length
    }

    ghost function State(): (r: Ring<T>)
      requires Valid()
      reads this, data
      ensures r.Valid()
    {
      Ring(enqueued, dequeued, data[..])
    }

    ghost function Contents(): seq<T>
      requires Valid()
      reads this, data
    {
      State().Contents()
    }

    constructor (capacity: U64, blank: T)
      requires AcceptedCapacity(capacity)
      ensures Valid() && fresh(data) && data.Length == capacity
      ensures Contents() == [] && enqueued == dequeued == 0
    {
      AcceptedIsPow2OrZero(capacity);
      data := new T[capacity](_ => blank);
      head, tail := 0, 0;
      enqueued, dequeued := 0, 0;
    }

    /** `index & MASK`, for an index that is `counter` wrapped. */
    method MaskIndex(index: U64, ghost counter: nat) returns (slot: nat)
      requires CapacityOk(data.Length) && 0 < data.Length < W64
      requires index == Wrap(counter)
      ensures slot == Slot(data.Length, counter)
    {
      MaskIsSlot(data.Length, counter);
      slot := MaskedSlot(data.Length, index);
    }

    method Enqueue(item: T) returns (ok: bool)
      requires Valid()
      modifies this, data
      ensures Valid()
      ensures (State(), ok) == RingSpec.Enqueue(old(State()), item)
      ensures ok <==> |old(Contents())| < data.Length
      ensures enqueued == old(enqueued) + (if ok then 1 else 0) && dequeued == old(dequeued)
      ensures Contents() == if ok then old(Contents()) + [item] else old(Contents())
    {
      EnqueueAppends(State(), item);
      WrapDistance(enqueued, dequeued);
      var h, t := head, tail;
      if Sub64(h, t) >= data.Length { return false; }
      WrapSum(enqueued, 1);
      var slot := MaskIndex(h, enqueued);
      data[slot] := item;
      head := Add64(h, 1);
      enqueued := enqueued + 1;
      return true;
    }

    method Dequeue() returns (ok: bool, item: seq<T>)
      requires Valid()
      modifies this
      ensures Valid()
      ensures (State(), item) == RingSpec.Dequeue(old(State()))
      ensures ok <==> old(Contents()) != []
      ensures enqueued == old(enqueued) && dequeued == old(dequeued) + if ok then 1 else 0
      ensures |item| == (if ok then 1 else 0)
      ensures old(Contents()) == item + Contents()
    {
      DequeueTakesOldest(State());
      WrapDistance(enqueued, dequeued);
      var h, t := head, tail;
      if t == h { return false, []; }
      WrapSum(dequeued, 1);
      var slot := MaskIndex(t, dequeued);
      item := [data[slot]];
      tail := Add64(t, 1);
      dequeued := dequeued + 1;
      ok := true;
    }

    /** The copy loop of `enqueue_burst`. */
    method CopyIn(items: array<T>, h: U64, cnt: U64)
      requires CapacityOk(data.Length) && cnt <= data.Length < W64
      requires cnt <= items.Length && items != data && h == Wrap(enqueued)
      modifies data
      ensures data[..] == Store(old(data[..]), enqueued, items[..cnt])
    {
      ghost var before := data[..];
      for i := 0 to cnt
        invariant data[..] == Store(before, enqueued, items[..i])
      {
        assert items[..i + 1] == items[..i] + [items[i]];
        StoreOneMore(before, enqueued, items[..i], items[i]);
        WrapSum(enqueued, i);
        var slot := MaskIndex(Add64(h, i), enqueued + i);
        data[slot] := items[i];
      }
    }

    /** The copy loop of `dequeue_burst`. */
    method CopyOut(items: array<T>, t: U64, cnt: U64)
      requires CapacityOk(data.Length) && cnt <= data.Length < W64
      requires cnt <= items.Length && items != data && t == Wrap(dequeued)
      modifies items
      ensures items[..] == Window(data[..], dequeued, cnt) + old(items[cnt..])
    {
      ghost var out := Window(data[..], dequeued, cnt);
      for i := 0 to cnt
        invariant items[..i] == out[..i]
        invariant items[cnt..] == old(items[cnt..])
      {
        WrapSum(dequeued, i);
        var slot := MaskIndex(Add64(t, i), dequeued + i);
        items[i] := data[slot];
        assert items[..i + 1] == items[..i] + [items[i]];
      }
      assert items[..] == items[..cnt] + items[cnt..];
    }

    /** The burst leaves array, indices and count as that many single calls would. */
    method EnqueueBurst(items: array<T>, n: U64) returns (cnt: nat)
      requires Valid()
      requires n <= items.Length && items != data
      modifies this, data
      ensures Valid()
      ensures (State(), cnt) == EnqueueEach(old(State()), items[..n])
      ensures cnt == Min(n, data.Length - |old(Contents())|)
      ensures enqueued == old(enqueued) + cnt && dequeued == old(dequeued)
      ensures Contents() == old(Contents()) + items[..cnt]
    {
      ghost var before := State();
      WrapDistance(enqueued, dequeued);
      var h, t := head, tail;
      var free := Sub64(data.Length, Sub64(h, t));
      cnt := if n < free then n else free;
      CopyIn(items, h, cnt);
      WrapSum(enqueued, cnt);
      head := Add64(h, cnt);
      enqueued := enqueued + cnt;
      assert items[..n][..cnt] == items[..cnt];
      EnqueueEachAppends(before, items[..n]);
      EnqueueEachIsStore(before, items[..n]);
    }

    method DequeueBurst(items: array<T>, n: U64) returns (cnt: nat)
      requires Valid()
      requires n <= items.Length && items != data
      modifies this, items
      ensures Valid()
      ensures cnt == Min(n, |old(Contents())|)
      ensures enqueued == old(enqueued) && dequeued == old(dequeued) + cnt
      ensures (State(), items[..cnt]) == DequeueEach(old(State()), n)
      ensures old(Contents()) == items[..cnt] + Contents()
      ensures items[cnt..] == old(items[cnt..])
    {
      DequeueEachTakesOldest(State(), n);
      DequeueEachIsWindow(State(), n);
      WrapDistance(enqueued, dequeued);
      var h, t := head, tail;
      var avail := Sub64(h, t);
      cnt := if n < avail then n else avail;
      CopyOut(items, t, cnt);
      WrapSum(dequeued, cnt);
      tail := Add64(t, cnt);
      dequeued := dequeued + cnt;
    }

    method Size() returns (n: U64)
      requires Valid()
      ensures n == |Contents()|
    {
      WrapDistance(enqueued, dequeued);
      n := Sub64(head, tail);
    }

    method IsEmpty() returns (empty: bool)
      requires Valid()
      ensures empty <==> Contents() == []
    {
      var n := Size();
      empty := n == 0;
    }

    method IsFull() returns (full: bool)
      requires Valid()
      ensures full <==> |Contents()| == data.Length
    {
      var n := Size();
      full := n >= data.Length;
    }
  }
}
