/** Masked indexes of a power-of-two ring under 64-bit wraparound. */
module SpscArith {
  import opened Bytes

  function Pow2(k: nat): (r: nat)
    ensures r >= 1
  {
    if k == 0 then 1 else 2 * Pow2(k - 1)
  }

  /** Ring capacities: powers of two, at least 2, within the index width. */
  ghost predicate IsCapacity(cap: nat) {
    exists k :: 1 <= k <= 63 && cap == Pow2(k)
  }

  /** The slot of an index: its low bits, that is its remainder by the capacity. */
  function Slot(n: nat, cap: nat): (s: nat)
    requires cap > 0
    ensures s < cap
    decreases n
  {
    if n < cap then n else Slot(n - cap, cap)
  }

  /** A larger power of two is a whole number of turns around the ring. */
  lemma {:induction false} SlotPeriod(n: nat, k: nat, j: nat)
    requires k <= j
    ensures Slot(n + Pow2(j), Pow2(k)) == Slot(n, Pow2(k))
    decreases j
  {
    if k < j {
      SlotPeriod(n, k, j - 1);
      SlotPeriod(n + Pow2(j - 1), k, j - 1);
    }
  }

  lemma Pow2Of64()
    ensures Pow2(64) == TWO_64 && Pow2(63) == TWO_63
  {
    Pow2Double(0, 8, 1, 256);
    Pow2Double(8, 8, 256, 65536);
    Pow2Double(16, 8, 65536, 0x100_0000);
    Pow2Double(24, 8, 0x100_0000, 0x1_0000_0000);
    Pow2Double(32, 8, 0x1_0000_0000, 0x100_0000_0000);
    Pow2Double(40, 8, 0x100_0000_0000, 0x1_0000_0000_0000);
    Pow2Double(48, 8, 0x1_0000_0000_0000, 0x100_0000_0000_0000);
    Pow2Double(56, 8, 0x100_0000_0000_0000, TWO_64);
  }

  lemma Pow2Double(k: nat, n: nat, v: nat, r: nat)
    requires Pow2(k) == v && n == 8 && r == 256 * v
    ensures Pow2(k + 8) == r
  {
    assert Pow2(k + 1) == 2 * v;
    assert Pow2(k + 2) == 4 * v;
    assert Pow2(k + 3) == 8 * v;
    assert Pow2(k + 4) == 16 * v;
    assert Pow2(k + 5) == 32 * v;
    assert Pow2(k + 6) == 64 * v;
    assert Pow2(k + 7) == 128 * v;
  }

  lemma {:induction false} Pow2Grows(k: nat, j: nat)
    requires k <= j
    ensures Pow2(k) <= Pow2(j)
    decreases j
  {
    if k < j {
      Pow2Grows(k, j - 1);
    }
  }

  lemma CapacityBound(cap: nat)
    requires IsCapacity(cap)
    ensures 2 <= cap <= TWO_63
  {
    var k :| 1 <= k <= 63 && cap == Pow2(k);
    Pow2Grows(k, 63);
    Pow2Grows(1, k);
    Pow2Of64();
  }

  /** Wrapping at 2^64 does not disturb the slot of an index. */
  lemma {:induction false} SlotOfWrapped(n: nat, cap: nat)
    requires IsCapacity(cap)
    ensures Slot(n % TWO_64, cap) == Slot(n, cap)
    decreases n
  {
    hide Slot, Pow2;
    if n >= TWO_64 {
      var k :| 1 <= k <= 63 && cap == Pow2(k);
      Pow2Of64();
      SlotOfWrapped(n - TWO_64, cap);
      SlotPeriod(n - TWO_64, k, 64);
      OneTurn(n - TWO_64);
    } else {
      Unwrapped(n);
    }
  }

  lemma OneTurn(n: nat)
    ensures (n + TWO_64) % TWO_64 == n % TWO_64
  {
  }

  lemma Unwrapped(n: nat)
    requires n < TWO_64
    ensures n % TWO_64 == n
  {
  }

  /** A slot is the remainder of the index by the capacity. */
  lemma {:induction false} SlotIsRemainder(n: nat, cap: nat)
    requires cap > 0
    ensures Slot(n, cap) == n % cap
    decreases n
  {
    if n >= cap {
      SlotIsRemainder(n - cap, cap);
      RemainderPeriod(n - cap, cap, (n - cap) / cap, (n - cap) % cap);
    }
  }

  lemma RemainderPeriod(m: nat, cap: nat, q: nat, r: nat)
    requires cap > 0 && q == m / cap && r == m % cap
    ensures (m + cap) % cap == r
  {
    assert m == q * cap + r && r < cap;
    assert m + cap == (q + 1) * cap + r;
    RemainderUnique(m + cap, cap, q + 1, r);
  }

  lemma RemainderUnique(n: nat, cap: nat, q: nat, r: nat)
    requires cap > 0 && n == q * cap + r && r < cap
    ensures n % cap == r
  {
    SameRemainder(cap, q, r, n / cap, n % cap);
  }

  lemma SameRemainder(cap: nat, q: nat, r: nat, p: nat, s: nat)
    requires q * cap + r == p * cap + s && r < cap && s < cap
    ensures r == s
  {
    if q < p {
      AtLeastOnce(p - q, cap, p * cap - q * cap);
    } else if p < q {
      AtLeastOnce(q - p, cap, q * cap - p * cap);
    }
  }

  lemma AtLeastOnce(d: nat, cap: nat, product: int)
    requires d >= 1 && product == d * cap
    ensures product >= cap
  {
  }

  /** Indexes less than a capacity apart use different slots. */
  lemma {:induction false} SlotsApart(i: nat, j: nat, cap: nat)
    requires cap > 0 && i < j < i + cap
    ensures Slot(i, cap) != Slot(j, cap)
    decreases i
  {
    if i >= cap {
      SlotsApart(i - cap, j - cap, cap);
    }
  }

  /** Wrapping subtraction of nearby indexes is their true distance. */
  lemma WrappedDistance(hi: nat, lo: nat)
    requires lo <= hi < lo + TWO_64
    ensures ((hi % TWO_64) - (lo % TWO_64)) % TWO_64 == hi - lo
  {
  }

  lemma WrappedAdd(n: nat, k: nat)
    ensures ((n % TWO_64) + k) % TWO_64 == (n + k) % TWO_64
  {
  }
}
