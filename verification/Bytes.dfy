/** Fixed-width little- and big-endian integers. */
module Bytes {

  type u8 = x: int | 0 <= x < 256 witness 0

  function Pow256(k: nat): (r: nat)
    ensures r >= 1
  {
    if k == 0 then 1 else 256 * Pow256(k - 1)
  }

  function LeBytes(n: nat, k: nat): (r: seq<u8>)
    ensures |r| == k
  {
    if k == 0 then [] else [n % 256] + LeBytes(n / 256, k - 1)
  }

  function FromLe(b: seq<u8>): (n: nat)
  {
    if b == [] then 0 else b[0] + 256 * FromLe(b[1..])
  }

  function BeBytes(n: nat, k: nat): (r: seq<u8>)
    ensures |r| == k
  {
    if k == 0 then [] else BeBytes(n / 256, k - 1) + [n % 256]
  }

  function FromBe(b: seq<u8>): (n: nat)
  {
    if b == [] then 0 else FromBe(b[..|b| - 1]) * 256 + b[|b| - 1]
  }

  lemma {:induction false} LeRoundTrip(n: nat, k: nat)
    requires n < Pow256(k)
    ensures FromLe(LeBytes(n, k)) == n
  {
    if k > 0 {
      LeRoundTrip(n / 256, k - 1);
      var r := LeBytes(n, k);
      assert r[1..] == LeBytes(n / 256, k - 1);
    }
  }

  lemma {:induction false} BeRoundTrip(n: nat, k: nat)
    requires n < Pow256(k)
    ensures FromBe(BeBytes(n, k)) == n
  {
    if k > 0 {
      BeRoundTrip(n / 256, k - 1);
      var r := BeBytes(n, k);
      assert r[..k - 1] == BeBytes(n / 256, k - 1);
    }
  }

  lemma {:induction false} FromBeBound(b: seq<u8>)
    ensures FromBe(b) < Pow256(|b|)
  {
    if b != [] {
      FromBeBound(b[..|b| - 1]);
    }
  }

  lemma DivideTwice(n: nat, p: nat)
    requires p > 0
    ensures n / 256 / p == n / (256 * p)
  {
    var m := n / 256;
    var a, c := m / p, m % p;
    assert m == p * a + c && n == 256 * m + n % 256;
    assert n == (256 * p) * a + (256 * c + n % 256);
    QuotientIs(n, 256 * p, a, 256 * c + n % 256);
  }

  lemma QuotientIs(n: nat, d: nat, q: nat, r: nat)
    requires d > 0 && n == d * q + r && r < d
    ensures n / d == q
  {
    var x := n / d - q;
    assert n == d * (n / d) + n % d;
    assert d * x == r - n % d;
    Multiple(d, x);
  }

  lemma Multiple(d: nat, x: int)
    ensures x >= 1 ==> d * x >= d
    ensures x <= -1 ==> d * x + d <= 0
  {
  }

  /** Little-endian: byte `i` is the `i`-th digit to base 256, least significant first. */
  lemma {:induction false} LeByteAt(n: nat, k: nat, i: nat)
    requires i < k
    ensures LeBytes(n, k)[i] == n / Pow256(i) % 256
  {
    if i > 0 {
      LeByteAt(n / 256, k - 1, i - 1);
      DivideTwice(n, Pow256(i - 1));
    }
  }

  /** Big-endian: the same digits, most significant first. */
  lemma {:induction false} BeByteAt(n: nat, k: nat, i: nat)
    requires i < k
    ensures BeBytes(n, k)[k - 1 - i] == n / Pow256(i) % 256
  {
    if i > 0 {
      BeByteAt(n / 256, k - 1, i - 1);
      DivideTwice(n, Pow256(i - 1));
    }
  }

  const TWO_16: nat := 0x1_0000
  const TWO_32: nat := 0x1_0000_0000
  const TWO_63: nat := 0x8000_0000_0000_0000
  const TWO_64: nat := 0x1_0000_0000_0000_0000

  lemma Widths()
    ensures Pow256(2) == TWO_16 && Pow256(4) == TWO_32 && Pow256(8) == TWO_64
  {
    assert Pow256(1) == 256;
    assert Pow256(3) == 256 * Pow256(2);
    assert Pow256(4) == 256 * Pow256(3);
    assert Pow256(5) == 256 * Pow256(4);
    assert Pow256(6) == 256 * Pow256(5);
    assert Pow256(7) == 256 * Pow256(6);
  }

  predicate IsI64(v: int) {
    -(TWO_63 as int) <= v < TWO_63
  }

  /** Two's-complement reading of a signed 64-bit integer. */
  function I64Bits(v: int): nat
    requires IsI64(v)
  {
    if v >= 0 then v else v + TWO_64
  }

  function I64FromBits(u: nat): int {
    if u < TWO_63 then u else u - TWO_64
  }
}
