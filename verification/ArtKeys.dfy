/** Order-preserving keys: a tick becomes eight big-endian bytes of its sign-flipped 64-bit form. */
module ArtKeys {
  import opened BitFlip
  import opened Bytes

  predicate IsTick(t: int) {
    -(TWO_63 as int) <= t < TWO_63
  }

  /** Two's-complement reading of a tick as a 64-bit word. */
  function AsU64(t: int): nat
    requires IsTick(t)
  {
    if t >= 0 then t else t + TWO_64
  }

  function Key(t: int): (u: nat)
    requires IsTick(t)
    ensures u == t + TWO_63
    ensures u < TWO_64
  {
    FlipTop(AsU64(t))
  }

  /** The number formed by the first `d` of the eight bytes of `u`. */
  function Prefix(u: nat, d: nat): nat
    requires d <= 8
    decreases 8 - d
  {
    if d == 8 then u else Prefix(u, d + 1) / 256
  }

  /** Byte `d` of the big-endian form of `u`. */
  function Byte(u: nat, d: nat): (b: nat)
    requires d < 8
    ensures b < 256
    ensures Prefix(u, d + 1) == Prefix(u, d) * 256 + b
  {
    Prefix(u, d + 1) % 256
  }

  function KeyBytes(t: int): (r: seq<nat>)
    requires IsTick(t)
    ensures |r| == 8 && forall d :: 0 <= d < 8 ==> r[d] < 256
  {
    seq(8, d requires 0 <= d < 8 => Byte(Key(t), d))
  }

  lemma {:induction false} PrefixMonotone(u: nat, v: nat, d: nat)
    requires d <= 8 && u <= v
    ensures Prefix(u, d) <= Prefix(v, d)
    decreases 8 - d
  {
    if d < 8 {
      PrefixMonotone(u, v, d + 1);
    }
  }

  /** Keys that differ in a prefix are ordered by it. */
  lemma PrefixOrders(u: nat, v: nat, d: nat)
    requires d <= 8 && Prefix(u, d) < Prefix(v, d)
    ensures u < v
  {
    if v <= u {
      PrefixMonotone(v, u, d);
    }
  }

  lemma PrefixRoot(u: nat)
    requires u < TWO_64
    ensures Prefix(u, 0) == 0
  {
    assert Prefix(u, 8) < 0x1_0000_0000_0000_0000;
    assert Prefix(u, 7) < 0x100_0000_0000_0000;
    assert Prefix(u, 6) < 0x1_0000_0000_0000;
    assert Prefix(u, 5) < 0x100_0000_0000;
    assert Prefix(u, 4) < 0x1_0000_0000;
    assert Prefix(u, 3) < 0x100_0000;
    assert Prefix(u, 2) < 0x1_0000;
    assert Prefix(u, 1) < 0x100;
  }

  /** First position where two byte strings differ decides their order. */
  predicate LexLess(a: seq<nat>, b: seq<nat>) {
    exists d :: 0 <= d < |a| && d < |b| && a[d] < b[d] && a[..d] == b[..d]
  }

  lemma {:induction false} SamePrefix(u: nat, v: nat, d: nat)
    requires d <= 8 && u < TWO_64 && v < TWO_64
    requires forall k :: 0 <= k < d ==> Byte(u, k) == Byte(v, k)
    ensures Prefix(u, d) == Prefix(v, d)
  {
    if d == 0 {
      PrefixRoot(u);
      PrefixRoot(v);
    } else {
      SamePrefix(u, v, d - 1);
      assert Byte(u, d - 1) == Byte(v, d - 1);
    }
  }

  /** The order of the byte strings is the order of the ticks. */
  lemma KeyBytesPreserveOrder(s: int, t: int)
    requires IsTick(s) && IsTick(t)
    ensures s < t <==> LexLess(KeyBytes(s), KeyBytes(t))
  {
    if s < t {
      LexFromLess(s, t, 8);
    } else if LexLess(KeyBytes(s), KeyBytes(t)) {
      LessFromLex(s, t);
    }
  }

  lemma LessFromLex(s: int, t: int)
    requires IsTick(s) && IsTick(t) && LexLess(KeyBytes(s), KeyBytes(t))
    ensures s < t
  {
    hide Prefix, Key, Byte;
    var a, b := KeyBytes(s), KeyBytes(t);
    var d :| 0 <= d < 8 && a[d] < b[d] && a[..d] == b[..d];
    forall k | 0 <= k < d ensures Byte(Key(s), k) == Byte(Key(t), k) {
      assert a[..d][k] == b[..d][k];
    }
    SamePrefix(Key(s), Key(t), d);
    PrefixOrders(Key(s), Key(t), d + 1);
  }

  lemma {:induction false} LexFromLess(s: int, t: int, d: nat)
    requires IsTick(s) && IsTick(t) && d <= 8
    requires Prefix(Key(s), d) < Prefix(Key(t), d)
    ensures LexLess(KeyBytes(s), KeyBytes(t))
    decreases d
  {
    hide Prefix, Key, Byte;
    PrefixRoot(Key(s));
    PrefixRoot(Key(t));
    var k := d - 1;
    var x, y := Byte(Key(s), k), Byte(Key(t), k);
    if Prefix(Key(s), k) < Prefix(Key(t), k) {
      LexFromLess(s, t, k);
    } else {
      EqualPrefixEqualBytes(Key(s), Key(t), k);
      var a, b := KeyBytes(s), KeyBytes(t);
      assert a[..k] == b[..k];
      assert a[k] < b[k];
    }
  }

  lemma {:induction false} EqualPrefixEqualBytes(u: nat, v: nat, d: nat)
    requires d <= 8 && Prefix(u, d) == Prefix(v, d)
    ensures forall k :: 0 <= k < d ==> Byte(u, k) == Byte(v, k)
  {
    if d > 0 {
      assert Byte(u, d - 1) == Byte(v, d - 1);
      EqualPrefixEqualBytes(u, v, d - 1);
    }
  }

  lemma KeyOrderAt(s: int, t: int, d: nat)
    requires IsTick(s) && IsTick(t) && d < 8
    requires KeyBytes(s)[..d] == KeyBytes(t)[..d] && KeyBytes(s)[d] < KeyBytes(t)[d]
    ensures s < t
  {
    LessFromLex(s, t);
  }

  lemma KeyBytesInjective(s: int, t: int)
    requires IsTick(s) && IsTick(t) && KeyBytes(s) == KeyBytes(t)
    ensures s == t
  {
    if s < t {
      KeyBytesPreserveOrder(s, t);
    } else if t < s {
      KeyBytesPreserveOrder(t, s);
    }
  }
}
