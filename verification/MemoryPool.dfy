/** The slots of a pool, named by their position in its storage array. */
module PoolSlots {

  /** The number of packets `process_burst` asks for. */
  const BURST_SIZE: nat := 32

  ghost function Slots(n: nat): (ids: seq<nat>)
    ensures |ids| == n
  {
    seq(n, i => i)
  }

  lemma {:induction false} SlotsOnce(n: nat, x: nat)
    ensures multiset(Slots(n))[x] == if x < n then 1 else 0
  {
    if n == 0 {
      assert Slots(n) == [];
    } else {
      SlotsOnce(n - 1, x);
      assert Slots(n) == Slots(n - 1) + [n - 1];
    }
  }
}

/** The object pool: `PoolSize` slots and a ring used as the list of free ones. */
module MemoryPools {
  import opened Options
  import opened Words
  import opened RingSpec
  import opened Rings
  import opened PoolSlots

  /** `got` dequeues in a row, said in terms of the ring they started from. */
  lemma AllocatedInOrder(r: Ring<nat>, n: nat, got: nat)
    requires r.Valid() && got == Min(n, r.head - r.tail)
    ensures DequeueEach(r, n) == (r.(tail := r.tail + got), r.Contents()[..got])
    ensures r.Contents() == r.Contents()[..got] + r.(tail := r.tail + got).Contents()
  {
    DequeueEachIsWindow(r, n);
    WindowSplit(r.data, r.tail, got, r.head - r.tail - got);
  }

  class MemoryPool {
    const freeRing: SpscRing<nat>
    var totalAllocs: U64

    ghost predicate Valid()
      reads this, freeRing, freeRing.data
    {
      && freeRing.Valid()
      && freeRing.data.Length <= freeRing.enqueued
      && totalAllocs == Wrap(freeRing.dequeued)
    }

    function PoolSize(): nat
      reads freeRing
    {
      freeRing.data.Length
    }

    /** The free slots, next to be handed out first. */
    ghost function Free(): (ids: seq<nat>)
      requires Valid()
      reads this, freeRing, freeRing.data
      ensures |ids| <= PoolSize()
    {
      freeRing.Contents()
    }

    /** Slots given back since construction. */
    ghost function Returned(): nat
      requires Valid()
      reads this, freeRing, freeRing.data
    {
      freeRing.enqueued - PoolSize()
    }

    constructor (poolSize: U64)
      requires AcceptedCapacity(poolSize)
      ensures Valid() && fresh(freeRing) && fresh(freeRing.data)
      ensures PoolSize() == poolSize && Free() == Slots(poolSize)
      ensures totalAllocs == 0 && Returned() == 0
    {
      freeRing := new SpscRing(poolSize, 0);
      totalAllocs := 0;
      new;
      for i := 0 to poolSize
        invariant freeRing.Valid() && fresh(freeRing) && fresh(freeRing.data)
        invariant freeRing.data.Length == poolSize
        invariant freeRing.enqueued == i && freeRing.dequeued == 0 && totalAllocs == 0
        invariant freeRing.Contents() == Slots(i)
      {
        var ok := freeRing.Enqueue(i);
        assert Slots(i + 1) == Slots(i) + [i];
      }
    }

    method Alloc() returns (obj: Option<nat>)
      requires Valid()
      modifies this, freeRing
      ensures Valid()
      ensures obj.None? <==> old(Free()) == []
      ensures obj.None? ==> Free() == old(Free()) && totalAllocs == old(totalAllocs)
      ensures obj.Some? ==> old(Free()) == [obj.value] + Free() && totalAllocs == Add64(old(totalAllocs), 1)
      ensures Returned() == old(Returned())
    {
      WrapSum(freeRing.dequeued, 1);
      var ok, item := freeRing.Dequeue();
      if ok {
        totalAllocs := Add64(totalAllocs, 1);
        return Some(item[0]);
      }
      return None;
    }

    /** The result of the enqueue is ignored: with a full free list the slot would be lost. */
    method Release(obj: nat)
      requires Valid()
      modifies freeRing, freeRing.data
      ensures Valid() && totalAllocs == old(totalAllocs)
      ensures Free() == if |old(Free())| < PoolSize() then old(Free()) + [obj] else old(Free())
      ensures Returned() == old(Returned()) + if |old(Free())| < PoolSize() then 1 else 0
    {
      var ok := freeRing.Enqueue(obj);
    }

    /** The loop of `alloc_burst`: dequeues until `n` slots are out or none is left. */
    method TakeEach(objs: array<nat>, n: U64) returns (got: nat)
      requires Valid()
      requires n <= objs.Length && objs != freeRing.data
      modifies this, freeRing, objs
      ensures Valid() && got == Min(n, |old(Free())|)
      ensures freeRing.State() == old(freeRing.State()).(tail := old(freeRing.dequeued) + got)
      ensures objs[..got] == old(Free())[..got]
      ensures forall k | got <= k < objs.Length :: objs[k] == old(objs[k])
    {
      ghost var r := freeRing.State();
      got := 0;
      while got < n
        invariant Valid() && got <= Min(n, r.head - r.tail)
        invariant freeRing.State() == r.(tail := r.tail + got)
        invariant objs[..got] == r.Contents()[..got]
        invariant forall k | got <= k < objs.Length :: objs[k] == old(objs[k])
        decreases n - got
      {
        WrapSum(freeRing.dequeued, 1);
        var ok, item := freeRing.Dequeue();
        if !ok { break; }
        objs[got] := item[0];
        assert objs[..got + 1] == objs[..got] + [r.Contents()[got]];
        totalAllocs := Add64(totalAllocs, 1);
        got := got + 1;
      }
    }

    /** As many single allocations: the loop leaves the ring as that many dequeues would. */
    method AllocBurst(objs: array<nat>, n: U64) returns (got: nat)
      requires Valid()
      requires n <= objs.Length && objs != freeRing.data
      modifies this, freeRing, objs
      ensures Valid()
      ensures got == Min(n, |old(Free())|)
      ensures (freeRing.State(), objs[..got]) == DequeueEach(old(freeRing.State()), n)
      ensures old(Free()) == objs[..got] + Free()
      ensures objs[got..] == old(objs[got..])
      ensures totalAllocs == Wrap(old(freeRing.dequeued) + got)
    {
      ghost var r := freeRing.State();
      got := TakeEach(objs, n);
      AllocatedInOrder(r, n, got);
    }

    method ReleaseBurst(objs: array<nat>, n: U64)
      requires Valid()
      requires n <= objs.Length && objs != freeRing.data
      modifies freeRing, freeRing.data
      ensures Valid() && totalAllocs == old(totalAllocs)
      ensures freeRing.State() == EnqueueEach(old(freeRing.State()), objs[..n]).0
      ensures Free() == old(Free()) + objs[..Min(n, PoolSize() - |old(Free())|)]
      ensures Returned() == old(Returned()) + Min(n, PoolSize() - |old(Free())|)
    {
      var cnt := freeRing.EnqueueBurst(objs, n);
    }

    method Available() returns (n: U64)
      requires Valid()
      ensures n == |Free()|
    {
      n := freeRing.Size();
    }

    /** Slots out of the pool: allocations made less slots given back. */
    method InUse() returns (n: nat)
      requires Valid()
      ensures n == PoolSize() - |Free()|
      ensures n == freeRing.dequeued - Returned()
      ensures freeRing.dequeued < W64 ==> n == totalAllocs - Returned()
    {
      var available := Available();
      n := Sub64(PoolSize(), available);
    }
  }
}
