/** Flipping the top bit of a 64-bit word, told in integers. */
module BitFlip {

  lemma XorIsOffset(x: bv64)
    ensures x ^ 0x8000_0000_0000_0000
         == if x < 0x8000_0000_0000_0000 then x + 0x8000_0000_0000_0000 else x - 0x8000_0000_0000_0000
  {
  }

  lemma OffsetUp(x: bv64)
    requires x < 0x8000_0000_0000_0000
    ensures (x + 0x8000_0000_0000_0000) as int == x as int + 0x8000_0000_0000_0000
  {
  }

  lemma OffsetDown(x: bv64)
    requires x >= 0x8000_0000_0000_0000
    ensures (x - 0x8000_0000_0000_0000) as int == x as int - 0x8000_0000_0000_0000
  {
  }

  lemma WordBound(x: bv64)
    ensures 0 <= x as int < 0x1_0000_0000_0000_0000
  {
  }

  /** Flipping bit 63 of a word, in arithmetic form. */
  function FlipTop(u: nat): nat {
    if u < 0x8000_0000_0000_0000 then u + 0x8000_0000_0000_0000 else u - 0x8000_0000_0000_0000
  }

  /** The arithmetic form is the exclusive-or with `1 << 63`. */
  lemma FlipTopIsXor(x: bv64)
    ensures (x ^ 0x8000_0000_0000_0000) as int == FlipTop(x as nat)
  {
    XorIsOffset(x);
    WordBound(x ^ 0x8000_0000_0000_0000);
    if x < 0x8000_0000_0000_0000 {
      OffsetUp(x);
    } else {
      OffsetDown(x);
    }
  }
}
