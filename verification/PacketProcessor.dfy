/**
 The batch processor with whole calls taken one at a time, for any ring and pool sizes, the
 drop path included. The interleaving of the two threads is in Pipeline.dfy.
 */
module PacketProcessors {
  import opened Options
  import opened Words
  import opened RingSpec
  import opened Rings
  import opened PoolSlots
  import opened MemoryPools

  type U32 = x: nat | x < 0x1_0000_0000

  /** The length is the one field the processor reads; `rest` stands for all others. */
  datatype Packet = Packet(len: U32, rest: nat)

  // ---------- What the handler loop does to the packets ----------

  /** The storage after the handler has seen the packets in `slots`, in order. */
  ghost function Handled(store: seq<Packet>, slots: seq<nat>, handler: Packet -> Packet): (store': seq<Packet>)
    requires forall k | 0 <= k < |slots| :: slots[k] < |store|
    ensures |store'| == |store|
  {
    if slots == [] then store
    else
      var before := Handled(store, slots[..|slots| - 1], handler);
      var x := slots[|slots| - 1];
      before[x := handler(before[x])]
  }

  /** The lengths added up, each read after the handler has seen the packet. */
  ghost function BytesHandled(store: seq<Packet>, slots: seq<nat>, handler: Packet -> Packet): nat
    requires forall k | 0 <= k < |slots| :: slots[k] < |store|
  {
    if slots == [] then 0
    else
      BytesHandled(store, slots[..|slots| - 1], handler)
      + Handled(store, slots, handler)[slots[|slots| - 1]].len
  }

  ghost predicate Distinct(xs: seq<nat>) {
    forall i, j | 0 <= i < j < |xs| :: xs[i] != xs[j]
  }

  /** In a burst without repeats every packet goes through the handler once, and no other is touched. */
  lemma {:induction false} HandledOnce(store: seq<Packet>, slots: seq<nat>, handler: Packet -> Packet, x: nat)
    requires forall k | 0 <= k < |slots| :: slots[k] < |store|
    requires Distinct(slots) && x < |store|
    ensures Handled(store, slots, handler)[x] == if x in slots then handler(store[x]) else store[x]
  {
    if slots != [] {
      var before, last := slots[..|slots| - 1], slots[|slots| - 1];
      assert slots == before + [last];
      HandledOnce(store, before, handler, x);
    }
  }

  /** The lengths the handler leaves in the packets of a burst, added up. */
  ghost function LengthsAfter(store: seq<Packet>, slots: seq<nat>, handler: Packet -> Packet): nat
    requires forall k | 0 <= k < |slots| :: slots[k] < |store|
  {
    if slots == [] then 0
    else LengthsAfter(store, slots[..|slots| - 1], handler) + handler(store[slots[|slots| - 1]]).len
  }

  /** In such a burst each packet adds the length its own handler call left in it. */
  lemma {:induction false} BytesAreSummed(store: seq<Packet>, slots: seq<nat>, handler: Packet -> Packet)
    requires forall k | 0 <= k < |slots| :: slots[k] < |store|
    requires Distinct(slots)
    ensures BytesHandled(store, slots, handler) == LengthsAfter(store, slots, handler)
  {
    if slots != [] {
      BytesAreSummed(store, slots[..|slots| - 1], handler);
      HandledOnce(store, slots, handler, slots[|slots| - 1]);
    }
  }

  lemma DistinctSlots(part: multiset<nat>, slots: seq<nat>, n: nat)
    requires part + multiset(slots) == multiset(Slots(n))
    ensures Distinct(slots) && forall k | 0 <= k < |slots| :: slots[k] < n
  {
    forall k | 0 <= k < |slots|
      ensures slots[k] < n
    {
      SlotsOnce(n, slots[k]);
      assert slots[k] in multiset(slots);
    }
    forall i, j | 0 <= i < j < |slots|
      ensures slots[i] != slots[j]
    {
      if slots[i] == slots[j] {
        var x := slots[i];
        assert slots == slots[..j] + [x] + slots[j + 1..];
        assert x in slots[..j];
        assert multiset(slots)[x] >= 2;
        SlotsOnce(n, x);
      }
    }
  }

  /** A packet moved from the sender's hands to the ring or to the free list stays in one place. */
  lemma PassOn(held: multiset<nat>, free: seq<nat>, queued: seq<nat>, pkt: nat, n: nat)
    requires held + multiset(free) + multiset(queued) == multiset(Slots(n)) && pkt in held
    ensures |free| < n && pkt < n
    ensures (held - multiset{pkt}) + multiset(free) + multiset(queued + [pkt]) == multiset(Slots(n))
    ensures (held - multiset{pkt}) + multiset(free + [pkt]) + multiset(queued) == multiset(Slots(n))
  {
    assert |held + multiset(free) + multiset(queued)| == |multiset(Slots(n))| == n;
    assert held == (held - multiset{pkt}) + multiset{pkt};
    SlotsOnce(n, pkt);
    assert pkt in held + multiset(free) + multiset(queued);
  }

  /** A burst moved from the ring to the free list stays in one place. */
  lemma HandBack(held: multiset<nat>, free: seq<nat>, burst: seq<nat>, queued: seq<nat>, n: nat)
    requires held + multiset(free) + multiset(burst + queued) == multiset(Slots(n))
    ensures |free| + |burst| <= n
    ensures Distinct(burst) && forall k | 0 <= k < |burst| :: burst[k] < n
    ensures held + multiset(free + burst) + multiset(queued) == multiset(Slots(n))
  {
    var rest := held + multiset(free) + multiset(queued);
    assert rest + multiset(burst) == multiset(Slots(n));
    assert |rest + multiset(burst)| == |multiset(Slots(n))| == n;
    DistinctSlots(rest, burst, n);
  }

  // ---------- The processor ----------

  class BatchProcessor {
    const ring: SpscRing<nat>
    const pool: MemoryPool
    const storage: array<Packet>
    const handler: Packet -> Packet

    var pktsProcessed: U64
    var pktsDropped: U64
    var bytesProcessed: U64
    var bursts: U64

    /** Packets allocated and not yet sent. */
    ghost var held: multiset<nat>
    /** The counters that the code keeps modulo 2^64 and cannot read off a ring. */
    ghost var refused: nat
    ghost var burstCount: nat
    ghost var byteCount: nat

    ghost function Repr(): set<object>
      reads this, pool
    {
      {this, ring, ring.data, pool, pool.freeRing, pool.freeRing.data, storage}
    }

    ghost predicate Shaped()
      reads ring, pool, pool.freeRing, pool.freeRing.data
    {
      && ring.Valid() && pool.Valid()
      && ring != pool.freeRing && ring.data != pool.freeRing.data
      && storage.Length == pool.PoolSize()
    }

    /** Every pool slot is in exactly one of the free list, the clients' hands and the packet ring. */
    ghost predicate Owned()
      requires Shaped()
      reads this`held, ring, ring.data, pool, pool.freeRing, pool.freeRing.data
    {
      held + multiset(pool.Free()) + multiset(ring.Contents()) == multiset(Slots(pool.PoolSize()))
    }

    /** `ring.enqueued` sends have been accepted and `ring.dequeued` packets processed. */
    ghost predicate Tallied()
      reads this, ring
    {
      && pktsProcessed == Wrap(ring.dequeued)
      && pktsDropped == Wrap(refused)
      && bytesProcessed == Wrap(byteCount)
      && bursts == Wrap(burstCount)
      && burstCount <= ring.dequeued <= BURST_SIZE * burstCount
    }

    ghost predicate Valid()
      reads Repr()
    {
      Shaped() && Owned() && Tallied()
    }

    constructor (ringSize: U64, poolSize: U64, handler: Packet -> Packet, blank: Packet)
      requires AcceptedCapacity(ringSize) && AcceptedCapacity(poolSize)
      ensures Valid() && fresh(ring) && fresh(ring.data) && fresh(storage)
      ensures fresh(pool) && fresh(pool.freeRing) && fresh(pool.freeRing.data)
      ensures ring.data.Length == ringSize && pool.PoolSize() == poolSize
      ensures held == multiset{} && pool.Free() == Slots(poolSize) && ring.Contents() == []
      ensures this.handler == handler
      ensures refused == burstCount == byteCount == ring.enqueued == 0
    {
      this.handler := handler;
      ring := new SpscRing(ringSize, 0);
      pool := new MemoryPool(poolSize);
      storage := new Packet[poolSize](_ => blank);
      pktsProcessed, pktsDropped, bytesProcessed, bursts := 0, 0, 0, 0;
      held, refused, burstCount, byteCount := multiset{}, 0, 0, 0;
    }

    method AllocPacket() returns (pkt: Option<nat>)
      requires Valid()
      modifies this`held, pool, pool.freeRing
      ensures Valid()
      ensures pkt.None? <==> old(pool.Free()) == []
      ensures pkt.None? ==> held == old(held) && pool.Free() == old(pool.Free())
      ensures pkt.Some? ==>
                pkt.value !in old(held) && held == old(held) + multiset{pkt.value}
                && old(pool.Free()) == [pkt.value] + pool.Free()
    {
      DistinctHolders();
      pkt := pool.Alloc();
      if pkt.Some? {
        held := held + multiset{pkt.value};
      }
    }

    /** A slot on the free list is in nobody's hands. */
    lemma DistinctHolders()
      requires Valid()
      ensures forall x | x in pool.Free() :: x !in held
    {
      forall x | x in pool.Free()
        ensures x !in held
      {
        SlotsOnce(pool.PoolSize(), x);
        assert x in multiset(pool.Free());
      }
    }

    /** A packet that does not fit goes back to the pool, which always has room for it. */
    method Send(pkt: nat) returns (ok: bool)
      requires Valid() && pkt in held
      modifies this`held, this`pktsDropped, this`refused, ring, ring.data, pool.freeRing, pool.freeRing.data
      ensures Valid() && held == old(held) - multiset{pkt}
      ensures ok <==> |old(ring.Contents())| < ring.data.Length
      ensures ok ==>
                && ring.Contents() == old(ring.Contents()) + [pkt] && pool.Free() == old(pool.Free())
                && ring.enqueued == old(ring.enqueued) + 1 && refused == old(refused)
      ensures !ok ==>
                && ring.Contents() == old(ring.Contents()) && pool.Free() == old(pool.Free()) + [pkt]
                && ring.enqueued == old(ring.enqueued) && refused == old(refused) + 1
    {
      PassOn(held, pool.Free(), ring.Contents(), pkt, pool.PoolSize());
      ok := ring.Enqueue(pkt);
      held := held - multiset{pkt};
      if !ok {
        CountDrop();
        TakeBack(pkt);
      }
    }

    method CountDrop()
      requires Tallied()
      modifies this`pktsDropped, this`refused
      ensures Tallied() && refused == old(refused) + 1
    {
      WrapSum(refused, 1);
      pktsDropped := Add64(pktsDropped, 1);
      refused := refused + 1;
    }

    method TakeBack(pkt: nat)
      requires InHand([pkt])
      modifies pool.freeRing, pool.freeRing.data
      ensures Shaped() && Owned()
      ensures pool.Free() == old(pool.Free()) + [pkt] && ring.Contents() == old(ring.Contents())
    {
      pool.Release(pkt);
    }

    /** The handler loop: each packet handled, then its length added. */
    method HandleBurst(burst: array<nat>, n: nat)
      requires n <= burst.Length
      requires forall k | 0 <= k < n :: burst[..n][k] < storage.Length
      requires bytesProcessed == Wrap(byteCount)
      modifies storage, this`bytesProcessed, this`byteCount
      ensures storage[..] == Handled(old(storage[..]), burst[..n], handler)
      ensures byteCount == old(byteCount) + BytesHandled(old(storage[..]), burst[..n], handler)
      ensures bytesProcessed == Wrap(byteCount)
    {
      ghost var before, slots := storage[..], burst[..n];
      for i := 0 to n
        invariant storage[..] == Handled(before, slots[..i], handler)
        invariant byteCount == old(byteCount) + BytesHandled(before, slots[..i], handler)
        invariant bytesProcessed == Wrap(byteCount)
      {
        var x := burst[i];
        assert x == slots[i];
        assert slots[..i + 1] == slots[..i] + [x];
        assert slots[..i + 1][..i] == slots[..i];
        storage[x] := handler(storage[x]);
        WrapSum(byteCount, storage[x].len);
        bytesProcessed := Add64(bytesProcessed, storage[x].len);
        byteCount := byteCount + storage[x].len;
      }
      assert slots[..n] == slots;
    }

    /** In the middle of `process_burst`: these packets are off the ring and not yet back in the pool. */
    ghost predicate InHand(burst: seq<nat>)
      reads this`held, ring, ring.data, pool, pool.freeRing, pool.freeRing.data
    {
      && Shaped() && |pool.Free()| + |burst| <= pool.PoolSize()
      && (forall k | 0 <= k < |burst| :: burst[k] < storage.Length)
      && held + multiset(pool.Free() + burst) + multiset(ring.Contents()) == multiset(Slots(pool.PoolSize()))
    }

    /** The counters, before the packets in hand are added to them. */
    ghost predicate TalliedBefore(n: nat)
      reads this, ring
    {
      && n <= ring.dequeued && pktsProcessed == Wrap(ring.dequeued - n)
      && pktsDropped == Wrap(refused) && bytesProcessed == Wrap(byteCount) && bursts == Wrap(burstCount)
      && burstCount <= ring.dequeued - n <= BURST_SIZE * burstCount
    }

    /** Takes a burst off the ring. */
    method Receive() returns (burst: array<nat>, n: nat)
      requires Valid()
      modifies ring
      ensures fresh(burst) && n == Min(BURST_SIZE, |old(ring.Contents())|) <= burst.Length
      ensures InHand(burst[..n]) && Distinct(burst[..n])
      ensures burst[..n] == old(ring.Contents())[..n] && ring.Contents() == old(ring.Contents())[n..]
      ensures ring.dequeued == old(ring.dequeued) + n && ring.enqueued == old(ring.enqueued)
    {
      ghost var queued, free := ring.Contents(), pool.Free();
      burst := new nat[BURST_SIZE](_ => 0);
      n := ring.DequeueBurst(burst, BURST_SIZE);
      assert queued[..n] == burst[..n] && queued[n..] == ring.Contents();
      HandBack(held, free, burst[..n], ring.Contents(), pool.PoolSize());
    }

    lemma EmptyHand()
      requires InHand([]) && TalliedBefore(0)
      ensures Valid()
    {
      assert pool.Free() + [] == pool.Free();
    }

    method CountBurst(n: nat)
      requires 0 < n <= BURST_SIZE && TalliedBefore(n)
      modifies this`pktsProcessed, this`bursts, this`burstCount
      ensures Tallied() && burstCount == old(burstCount) + 1
    {
      WrapSum(ring.dequeued - n, n);
      pktsProcessed := Add64(pktsProcessed, n);
      WrapSum(burstCount, 1);
      bursts := Add64(bursts, 1);
      burstCount := burstCount + 1;
    }

    method GiveBack(burst: array<nat>, n: U64)
      requires n <= burst.Length && burst != pool.freeRing.data
      requires InHand(burst[..n])
      modifies pool.freeRing, pool.freeRing.data
      ensures Shaped() && Owned()
      ensures pool.Free() == old(pool.Free()) + burst[..n] && ring.Contents() == old(ring.Contents())
    {
      pool.ReleaseBurst(burst, n);
    }

    /** Handles and counts a burst in hand. */
    method HandleAndCount(burst: array<nat>, n: nat)
      requires 0 < n <= BURST_SIZE && n <= burst.Length && TalliedBefore(n)
      requires forall k | 0 <= k < n :: burst[..n][k] < storage.Length
      modifies this`pktsProcessed, this`bytesProcessed, this`bursts, this`burstCount, this`byteCount, storage
      ensures Tallied() && burstCount == old(burstCount) + 1
      ensures storage[..] == Handled(old(storage[..]), burst[..n], handler)
      ensures byteCount == old(byteCount) + BytesHandled(old(storage[..]), burst[..n], handler)
    {
      HandleBurst(burst, n);
      CountBurst(n);
    }

    /** Handles, counts and returns a burst in hand. */
    method Finish(burst: array<nat>, n: U64)
      requires 0 < n <= BURST_SIZE && n <= burst.Length && burst != pool.freeRing.data
      requires InHand(burst[..n]) && TalliedBefore(n)
      modifies this`pktsProcessed, this`bytesProcessed, this`bursts, this`burstCount, this`byteCount
      modifies storage, pool.freeRing, pool.freeRing.data
      ensures Valid() && burstCount == old(burstCount) + 1
      ensures ring.Contents() == old(ring.Contents()) && pool.Free() == old(pool.Free()) + burst[..n]
      ensures storage[..] == Handled(old(storage[..]), burst[..n], handler)
      ensures byteCount == old(byteCount) + BytesHandled(old(storage[..]), burst[..n], handler)
    {
      HandleAndCount(burst, n);
      GiveBack(burst, n);
    }

    /**
     The oldest packets, up to 32, go through the handler once each and back to the free list in
     order; their lengths are added as the handler left them.
     */
    method ProcessBurst() returns (n: nat)
      requires Valid()
      modifies this`pktsProcessed, this`bytesProcessed, this`bursts, this`burstCount, this`byteCount
      modifies ring, storage, pool.freeRing, pool.freeRing.data
      ensures Valid()
      ensures n == Min(32, |old(ring.Contents())|)
      ensures ring.Contents() == old(ring.Contents())[n..]
      ensures pool.Free() == old(pool.Free()) + old(ring.Contents())[..n]
      ensures ring.dequeued == old(ring.dequeued) + n && ring.enqueued == old(ring.enqueued)
      ensures burstCount == old(burstCount) + if n == 0 then 0 else 1
      ensures var slots := old(ring.Contents())[..n];
              && Distinct(slots) && (forall k | 0 <= k < |slots| :: slots[k] < storage.Length)
              && storage[..] == Handled(old(storage[..]), slots, handler)
              && byteCount == old(byteCount) + BytesHandled(old(storage[..]), slots, handler)
    {
      var burst;
      burst, n := Receive();
      if n == 0 {
        assert burst[..n] == [];
        EmptyHand();
      } else {
        Finish(burst, n);
      }
    }

    /** Between calls, on counters that have not wrapped, the statistics say what became of every packet sent. */
    method Stats() returns (processed: U64, dropped: U64, bytes: U64, burstsSoFar: U64)
      requires Valid()
      ensures ring.enqueued < W64 ==> ring.enqueued == processed + |ring.Contents()|
      ensures refused < W64 ==> dropped == refused
      ensures byteCount < W64 ==> bytes == byteCount
      ensures burstCount < W64 ==> burstsSoFar == burstCount
      ensures ring.dequeued < W64 ==> burstsSoFar <= processed <= 32 * burstsSoFar
    {
      processed, dropped, bytes, burstsSoFar := pktsProcessed, pktsDropped, bytesProcessed, bursts;
    }
  }

  /** The constructor throws when there is no handler to call. */
  method Create(ringSize: U64, poolSize: U64, handler: Option<Packet -> Packet>, blank: Packet)
    returns (p: Option<BatchProcessor>)
    requires AcceptedCapacity(ringSize) && AcceptedCapacity(poolSize)
    ensures p.None? <==> handler.None?
    ensures p.Some? ==>
              && p.value.Valid() && fresh(p.value) && p.value.handler == handler.value
              && p.value.ring.data.Length == ringSize && p.value.pool.Free() == Slots(poolSize)
  {
    if handler.None? { return None; }
    var made := new BatchProcessor(ringSize, poolSize, handler.value, blank);
    p := Some(made);
  }
}
