/**
 64-bit unsigned arithmetic as the ring uses it: wrapping addition and subtraction on
 `std::size_t`, the bitwise `&` of two words, and the compile-time test on `Capacity`.
 */
module Words {

  /** One more than the largest `std::size_t`. */
  const W64: nat := 0x1_0000_0000_0000_0000

  /** A `std::size_t` or `uint64_t` value. */
  type U64 = x: nat | x < W64

  function Min(a: nat, b: nat): nat {
    if a < b then a else b
  }

  function Add64(a: U64, b: U64): U64 {
    if a + b < W64 then a + b else a + b - W64
  }

  function Sub64(a: U64, b: U64): U64 {
    if b <= a then a - b else a - b + W64
  }

  /** The word a counter is stored in: its remainder by 2^64. */
  ghost function Wrap(n: nat): (w: U64) {
    if n < W64 then n else Wrap(n - W64)
  }

  /** Bitwise `&`, one binary digit at a time. */
  function And(x: nat, y: nat): nat {
    if x == 0 || y == 0 then 0
    else (if x % 2 == 1 && y % 2 == 1 then 1 else 0) + 2 * And(x / 2, y / 2)
  }

  function Pow2(k: nat): nat {
    if k == 0 then 1 else 2 * Pow2(k - 1)
  }

  /** `MASK = Capacity - 1`, in 64 bits. */
  function Mask(c: nat): nat {
    if c == 0 then W64 - 1 else c - 1
  }

  /** The `static_assert` on `Capacity`: `(Capacity & (Capacity - 1)) == 0`. */
  predicate AcceptedCapacity(c: nat) {
    c < W64 && And(c, Mask(c)) == 0
  }

  /** `index & MASK`. */
  function MaskedSlot(c: nat, index: nat): nat {
    And(index, Mask(c))
  }

  lemma {:induction false} Pow2Positive(k: nat)
    ensures Pow2(k) > 0
  {
    if k > 0 { Pow2Positive(k - 1); }
  }

  lemma {:induction false} Pow2Split(j: nat, k: nat)
    requires j <= k
    ensures Pow2(k) == Pow2(j) * Pow2(k - j)
  {
    if j > 0 {
      Pow2Split(j - 1, k - 1);
    }
  }

  lemma Pow2Of64()
    ensures Pow2(64) == W64
  {
    assert Pow2(8) == 0x100;
    Pow2Split(8, 16);
    assert Pow2(16) == 0x1_0000;
    Pow2Split(16, 32);
    assert Pow2(32) == 0x1_0000_0000;
    Pow2Split(32, 64);
  }

  lemma {:induction false} AndSelf(x: nat)
    ensures And(x, x) == x
  {
    if x > 0 { AndSelf(x / 2); }
  }

  // Multiplication facts, kept apart so that no proof below has to search for them.

  lemma MulAtLeast(k: int, d: nat)
    requires k >= 1
    ensures k * d >= d
  {
    assert k * d == d + (k - 1) * d;
  }

  lemma DivMod(x: int, d: nat)
    requires d > 0
    ensures x == (x / d) * d + x % d
    ensures 0 <= x % d < d
  {
  }

  lemma Distribute(a: int, b: int, d: int)
    ensures (a - b) * d == a * d - b * d
    ensures (a + b) * d == a * d + b * d
  {
  }

  lemma SmallMultiple(k: int, d: int)
    requires d > 0
    requires -d < k * d < d
    ensures k == 0
  {
    if k >= 1 {
      MulAtLeast(k, d);
    }
  }

  lemma RemainderUnique(x: int, d: nat, q: int, r: int)
    requires 0 <= r < d
    requires x == q * d + r
    ensures x % d == r
  {
    DivMod(x, d);
    Distribute(q, x / d, d);
    SmallMultiple(q - x / d, d);
  }

  /** The last binary digit of a remainder by an even number. */
  lemma HalvedRemainder(x: nat, p: nat)
    requires p > 0
    ensures x % (2 * p) == x % 2 + 2 * ((x / 2) % p)
  {
    var h := x / 2;
    DivMod(h, p);
    var q, r := h / p, h % p;
    assert q * (2 * p) == 2 * (q * p);
    RemainderUnique(x, 2 * p, q, 2 * r + x % 2);
  }

  /** An odd mask keeps the last binary digit. */
  lemma AndOdd(x: nat, m: nat)
    ensures And(x, 2 * m + 1) == x % 2 + 2 * And(x / 2, m)
  {
    assert (2 * m + 1) / 2 == m && (2 * m + 1) % 2 == 1;
  }

  /** Masking with `2^k - 1` is the remainder by `2^k`. */
  lemma {:induction false} MaskIsRemainder(x: nat, k: nat)
    ensures Pow2(k) > 0
    ensures And(x, Pow2(k) - 1) == x % Pow2(k)
  {
    Pow2Positive(k);
    if k == 0 {
    } else {
      var p := Pow2(k - 1);
      MaskIsRemainder(x / 2, k - 1);
      AndOdd(x, p - 1);
      HalvedRemainder(x, p);
    }
  }

  lemma {:induction false} Pow2Below64(k: nat)
    requires k < 64
    ensures Pow2(k) < W64
    decreases 64 - k
  {
    if k == 63 { Pow2Of64(); } else { Pow2Below64(k + 1); }
    Pow2Positive(k);
  }

  lemma {:induction false} Pow2AtLeast64(k: nat)
    ensures k >= 64 ==> Pow2(k) >= W64
  {
    if k == 64 { Pow2Of64(); } else if k > 64 { Pow2AtLeast64(k - 1); }
  }

  /** A positive number sharing no bit with its predecessor has a single bit. */
  lemma {:induction false} SingleBit(c: nat) returns (k: nat)
    requires c > 0
    requires And(c, c - 1) == 0
    ensures c == Pow2(k)
  {
    k := 0;
    if c % 2 == 1 {
      AndSelf(c / 2);
    } else {
      assert (c - 1) / 2 == c / 2 - 1;
      k := SingleBit(c / 2);
      k := k + 1;
    }
  }

  lemma Pow2Accepted(k: nat)
    requires k < 64
    ensures AcceptedCapacity(Pow2(k))
  {
    Pow2Below64(k);
    MaskIsRemainder(Pow2(k), k);
    var c := Pow2(k);
    RemainderUnique(c, c, 1, 0);
  }

  /** What the compile-time test amounts to; zero gets through as well. */
  ghost predicate CapacityOk(c: nat) {
    c == 0 || exists k: nat :: k < 64 && c == Pow2(k)
  }

  lemma AcceptedIsPow2OrZero(c: nat)
    ensures AcceptedCapacity(c) <==> CapacityOk(c)
  {
    if AcceptedCapacity(c) && c > 0 {
      var k := SingleBit(c);
      Pow2AtLeast64(k);
    }
    if k: nat :| k < 64 && c == Pow2(k) {
      Pow2Accepted(k);
    }
  }

  lemma Pow2Divides64(k: nat)
    requires k < 64
    ensures Pow2(k) > 0 && W64 == Pow2(64 - k) * Pow2(k)
  {
    Pow2Positive(k);
    Pow2Of64();
    Pow2Split(k, 64);
  }

  // ---------- Slots ----------

  /** The array position of counter `x` in a ring of `c` slots: the remainder of `x` by `c`. */
  ghost function Slot(c: nat, x: nat): (s: nat)
    requires c > 0
    ensures s < c
  {
    if x < c then x else Slot(c, x - c)
  }

  lemma {:induction false} SlotIsRemainder(c: nat, x: nat)
    requires c > 0
    ensures Slot(c, x) == x % c
  {
    if x < c {
      RemainderUnique(x, c, 0, x);
    } else {
      SlotIsRemainder(c, x - c);
      DivMod(x - c, c);
      Distribute((x - c) / c, 1, c);
      RemainderUnique(x, c, (x - c) / c + 1, (x - c) % c);
    }
  }

  lemma RemainderOfRemainder(x: nat, c: nat, m: nat)
    requires c > 0 && W64 == m * c
    ensures (x % W64) % c == x % c
  {
    var q, r := x / W64, x % W64;
    DivMod(r, c);
    Distribute(q * m, r / c, c);
    assert q * (m * c) == (q * m) * c;
    RemainderUnique(x, c, q * m + r / c, r % c);
  }

  /**
   The central arithmetic fact: the capacity divides 2^64, so masking a counter that has
   wrapped any number of times gives the slot of the counter that never wraps.
   */
  lemma MaskIsSlot(c: nat, x: nat)
    requires CapacityOk(c) && 0 < c < W64
    ensures MaskedSlot(c, Wrap(x)) == Slot(c, x)
  {
    WrapIsRemainder(x);
    var k: nat :| k < 64 && c == Pow2(k);
    Pow2Divides64(k);
    RemainderOfRemainder(x, c, Pow2(64 - k));
    MaskIsRemainder(x % W64, k);
    SlotIsRemainder(c, x);
  }

  /** Two counters less than one lap apart never share a slot. */
  lemma {:induction false} SlotsDistinct(c: nat, a: nat, b: nat)
    requires c > 0
    requires a < b < a + c
    ensures Slot(c, a) != Slot(c, b)
  {
    if a >= c {
      SlotsDistinct(c, a - c, b - c);
    } else if b >= c {
      assert Slot(c, b) == b - c;
    }
  }

  // ---------- Wrapped counters ----------

  lemma {:induction false} WrapIsRemainder(n: nat)
    ensures Wrap(n) == n % W64
  {
    if n >= W64 { WrapIsRemainder(n - W64); }
  }

  lemma {:induction false} WrapSum(a: nat, b: U64)
    ensures Add64(Wrap(a), b) == Wrap(a + b)
  {
    if a >= W64 { WrapSum(a - W64, b); }
  }

  lemma WrapAdds(a: nat, b: nat)
    ensures Add64(Wrap(a), Wrap(b)) == Wrap(a + b)
  {
    WrapIsRemainder(a);
    WrapIsRemainder(b);
    WrapIsRemainder(a + b);
  }

  /** Wrapped subtraction recovers the true distance when that distance fits in a word. */
  lemma {:induction false} WrapDistance(a: nat, b: nat)
    requires b <= a < b + W64
    ensures Sub64(Wrap(a), Wrap(b)) == a - b
  {
    if b >= W64 { WrapDistance(a - W64, b - W64); }
  }

  // ---------- Windows of a circular array ----------

  /** The `n` items from counter `lo` on. */
  ghost function Window<T>(data: seq<T>, lo: nat, n: nat): (w: seq<T>)
    requires n <= |data|
    ensures |w| == n
  {
    seq(n, i requires 0 <= i < n => data[Slot(|data|, lo + i)])
  }

  lemma WindowSplit<T>(data: seq<T>, lo: nat, n: nat, k: nat)
    requires n + k <= |data|
    ensures Window(data, lo, n + k) == Window(data, lo, n) + Window(data, lo + n, k)
  {
  }

  /** Writing outside a window, less than one lap ahead of it, leaves it as it was. */
  lemma WindowKept<T>(data: seq<T>, lo: nat, n: nat, j: nat, x: T)
    requires n <= j < |data|
    ensures Window(data[Slot(|data|, lo + j) := x], lo, n) == Window(data, lo, n)
  {
    var data' := data[Slot(|data|, lo + j) := x];
    forall i | 0 <= i < n
      ensures Window(data', lo, n)[i] == Window(data, lo, n)[i]
    {
      SlotsDistinct(|data|, lo + i, lo + j);
    }
  }

  /** Writing just behind a window adds the item to it. */
  lemma WindowGrows<T>(data: seq<T>, lo: nat, n: nat, x: T)
    requires n < |data|
    ensures Window(data[Slot(|data|, lo + n) := x], lo, n + 1) == Window(data, lo, n) + [x]
  {
    WindowKept(data, lo, n, n, x);
  }
}
