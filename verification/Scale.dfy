/** Fixed-point decimal strings: parsing to a scaled 64-bit integer, and printing back. */
module Scale {
  import opened Common
  import opened Bytes
  import opened Decimal

  datatype ScaleError = Empty | Invalid | ExcessFractionalDigits | Overflow

  datatype Result = Ok(value: int) | Err(error: ScaleError)

  const I64_MAX: int := TWO_63 - 1

  // ---------------------------------------------------------------- trimming

  /** Unicode white space. */
  predicate IsSpace(c: char) {
    var n := c as int;
    9 <= n <= 13 || n == 0x20 || n == 0x85 || n == 0xA0 || n == 0x1680 || 0x2000 <= n <= 0x200A
    || n == 0x2028 || n == 0x2029 || n == 0x202F || n == 0x205F || n == 0x3000
  }

  function TrimStart(s: string): string {
    if s != "" && IsSpace(s[0]) then TrimStart(s[1..]) else s
  }

  function TrimEnd(s: string): string {
    if s != "" && IsSpace(s[|s| - 1]) then TrimEnd(s[..|s| - 1]) else s
  }

  function Trim(s: string): string {
    TrimEnd(TrimStart(s))
  }

  // ---------------------------------------------------------------- the grammar

  /** A signed decimal: sign, whole digits, fractional digits. */
  datatype Number = Number(neg: bool, whole: string, frac: string)

  predicate WellFormed(n: Number) {
    n.whole != "" && AllDigits(n.whole) && AllDigits(n.frac)
  }

  /** `t` writes the number `n`: an optional plus or a minus, the digits, a point if there is a fraction. */
  predicate Writes(t: string, n: Number) {
    && WellFormed(n)
    && (t == Text(if n.neg then "-" else "", n.whole, "." + n.frac)
        || t == Text(if n.neg then "-" else "+", n.whole, "." + n.frac)
        || (n.frac == "" && t == Text(if n.neg then "-" else "", n.whole, ""))
        || (n.frac == "" && t == Text(if n.neg then "-" else "+", n.whole, "")))
  }

  function Text(sign: string, whole: string, tail: string): string {
    sign + whole + tail
  }

  /** The number times ten to the scale. */
  function Magnitude(n: Number, scale: nat): nat
    requires WellFormed(n) && |n.frac| <= scale
  {
    ValConcat(n.whole, n.frac);
    Val(n.whole + n.frac) * Pow10(scale - |n.frac|)
  }

  function Signed(neg: bool, m: nat): int {
    if neg then -(m as int) else m
  }

  /** What parsing a well-formed number must return. */
  function Scaled(n: Number, scale: nat): Result
    requires WellFormed(n)
  {
    if |n.frac| > scale then Err(ExcessFractionalDigits)
    else if Magnitude(n, scale) > I64_MAX then Err(Overflow)
    else Ok(Signed(n.neg, Magnitude(n, scale)))
  }

  // ---------------------------------------------------------------- parsing

  function PointAt(s: string): (k: nat)
    ensures k <= |s|
  {
    if s == "" || s[0] == '.' then 0 else 1 + PointAt(s[1..])
  }

  function StripSign(t: string): (r: (bool, string)) {
    if t != "" && t[0] == '-' then (true, t[1..])
    else if t != "" && t[0] == '+' then (false, t[1..])
    else (false, t)
  }

  function SplitOnce(body: string): (r: (string, string)) {
    var k := PointAt(body);
    (body[..k], if k < |body| then body[k + 1..] else "")
  }

  function Read(t: string): (r: Option<Number>)
    ensures r.Some? ==> WellFormed(r.value)
  {
    var (neg, body) := StripSign(t);
    var (whole, frac) := SplitOnce(body);
    if whole != "" && AllDigits(whole) && AllDigits(frac) then Some(Number(neg, whole, frac)) else None
  }

  function Outcome(s: string, scale: nat): Result {
    var t := Trim(s);
    if t == "" then Err(Empty)
    else match Read(t)
         case None => Err(Invalid)
         case Some(n) => Scaled(n, scale)
  }

  /** Parse, padding the fraction with zeros up to the scale. */
  method ParseFixed(s: string, scale: nat) returns (r: Result)
    ensures r == Outcome(s, scale)
  {
    hide TrimStart, TrimEnd, TrimZeros, Val, PointAt;
    var t := Trim(s);
    if t == "" {
      return Err(Empty);
    }
    var (neg, body) := StripSign(t);
    if body == "" {
      return Err(Invalid);
    }
    var (whole, frac) := SplitOnce(body);
    if !(whole != "" && AllDigits(whole)) {
      return Err(Invalid);
    }
    if !AllDigits(frac) {
      return Err(Invalid);
    }
    if |frac| > scale {
      return Err(ExcessFractionalDigits);
    }
    var digits := PadFraction(whole, frac, scale);
    var trimmed := TrimZeros(digits);
    TrimZerosKeepsVal(digits);
    ZeroVal();
    var kept := if trimmed == "" then "0" else trimmed;
    var value := Val(kept);
    if value > I64_MAX {
      return Err(Overflow);
    }
    r := Ok(if neg then -value else value);
  }

  lemma ZeroVal()
    ensures Val("0") == 0 && Val("") == 0
  {
    assert "0"[..0] == "";
  }

  method PadFraction(whole: string, frac: string, scale: nat) returns (digits: string)
    requires WellFormed(Number(false, whole, frac)) && |frac| <= scale
    ensures AllDigits(digits) && Val(digits) == Magnitude(Number(false, whole, frac), scale)
  {
    hide Val;
    ValConcat(whole, frac);
    digits := whole + frac;
    var i := 0;
    while i < scale - |frac|
      invariant 0 <= i <= scale - |frac|
      invariant digits == whole + frac + Zeros(i)
    {
      digits := digits + "0";
      assert whole + frac + Zeros(i) + "0" == whole + frac + Zeros(i + 1);
      i := i + 1;
    }
    ValConcat(whole + frac, Zeros(i));
    ValZeros(i);
  }

  // ---------------------------------------------------------------- parsing meets the grammar

  lemma {:induction false} PointAtDigits(whole: string, tail: string)
    requires AllDigits(whole) && (tail == "" || tail[0] == '.')
    ensures PointAt(whole + tail) == |whole|
    decreases |whole|
  {
    if whole == "" {
      assert whole + tail == tail;
    } else {
      assert (whole + tail)[1..] == whole[1..] + tail;
      PointAtDigits(whole[1..], tail);
    }
  }

  lemma {:induction false} PointAtIsPoint(s: string)
    ensures PointAt(s) < |s| ==> s[PointAt(s)] == '.'
  {
    if s != "" && s[0] != '.' {
      PointAtIsPoint(s[1..]);
    }
  }

  lemma ReadText(sign: string, n: Number, tail: string)
    requires WellFormed(n) && (tail == "." + n.frac || (tail == "" && n.frac == ""))
    requires sign == (if n.neg then "-" else "+") || (sign == "" && !n.neg)
    ensures Read(Text(sign, n.whole, tail)) == Some(n)
  {
    hide PointAt;
    var t, body := Text(sign, n.whole, tail), n.whole + tail;
    assert StripSign(t) == (n.neg, body) by {
      if sign == "" {
        assert t == body && IsDigit(t[0]);
      } else {
        assert t[1..] == body;
      }
    }
    PointAtDigits(n.whole, tail);
    assert body[..|n.whole|] == n.whole;
    if tail != "" {
      assert body[|n.whole| + 1..] == n.frac;
    }
  }

  /** Reading recognises exactly the grammar. */
  lemma ReadExact(t: string, n: Number)
    ensures Read(t) == Some(n) <==> Writes(t, n)
  {
    hide Read, Writes;
    if Writes(t, n) {
      WritesReads(t, n);
    }
    if Read(t) == Some(n) {
      ReadsWrites(t, n);
    }
  }

  function SignOf(t: string): string {
    if t != "" && (t[0] == '-' || t[0] == '+') then t[..1] else ""
  }

  lemma ReadsWrites(t: string, n: Number)
    requires Read(t) == Some(n)
    ensures Writes(t, n)
  {
    hide PointAt, StripSign, SignOf;
    var (neg, body) := StripSign(t);
    SignAndBody(t);
    var k := PointAt(body);
    PointAtIsPoint(body);
    var tail := if k < |body| then "." + n.frac else "";
    assert body == n.whole + tail by {
      assert k < |body| ==> body == body[..k] + [body[k]] + body[k + 1..];
    }
    assert t == Text(SignOf(t), n.whole, tail);
  }

  lemma SignAndBody(t: string)
    ensures t == SignOf(t) + StripSign(t).1
    ensures SignOf(t) == (if StripSign(t).0 then "-" else "+") || (SignOf(t) == "" && !StripSign(t).0)
  {
  }

  lemma WritesReads(t: string, n: Number)
    requires Writes(t, n)
    ensures Read(t) == Some(n)
  {
    hide Read, Text;
    if t == Text(if n.neg then "-" else "", n.whole, "." + n.frac) {
      ReadText(if n.neg then "-" else "", n, "." + n.frac);
    } else if t == Text(if n.neg then "-" else "+", n.whole, "." + n.frac) {
      ReadText(if n.neg then "-" else "+", n, "." + n.frac);
    } else if t == Text(if n.neg then "-" else "", n.whole, "") {
      ReadText(if n.neg then "-" else "", n, "");
    } else {
      ReadText(if n.neg then "-" else "+", n, "");
    }
  }

  /** Parsing of any string: empty, not in the grammar, or the scaled value of the one number it writes. */
  lemma OutcomeExact(s: string, scale: nat)
    ensures Outcome(s, scale) == Err(Empty) <==> Trim(s) == ""
    ensures Outcome(s, scale) == Err(Invalid) <==> Trim(s) != "" && forall n :: !Writes(Trim(s), n)
    ensures forall n :: Trim(s) != "" && Writes(Trim(s), n) ==> Outcome(s, scale) == Scaled(n, scale)
  {
    hide Trim, Writes, Read, Magnitude;
    var t := Trim(s);
    forall n ensures Read(t) == Some(n) <==> Writes(t, n) {
      ReadExact(t, n);
    }
  }

  /** The value of a number, as a real. */
  function Worth(n: Number): real
    requires WellFormed(n)
  {
    Val(n.whole) as real + Val(n.frac) as real / Pow10(|n.frac|) as real
  }

  /** The magnitude is the number's value times ten to the scale, exactly. */
  lemma MagnitudeIsExact(n: Number, scale: nat)
    requires WellFormed(n) && |n.frac| <= scale
    ensures Magnitude(n, scale) as real == Worth(n) * Pow10(scale) as real
  {
    hide Val, Pow10;
    var f, g := |n.frac|, scale - |n.frac|;
    ValConcat(n.whole, n.frac);
    Pow10Sum(f, g);
    ScaledSum(Val(n.whole), Val(n.frac), Pow10(f), Pow10(g));
  }

  lemma ScaledSum(w: nat, v: nat, p: nat, q: nat)
    requires p > 0
    ensures ((w * p + v) * q) as real == (w as real + v as real / p as real) * (p * q) as real
  {
    IntProduct(w, v, p, q);
    RealProduct(w as real, v as real, p as real, q as real);
  }

  lemma {:induction false} Pow10Sum(a: nat, b: nat)
    ensures Pow10(a + b) == Pow10(a) * Pow10(b)
  {
    if a > 0 {
      Pow10Sum(a - 1, b);
      assert Pow10(a + b) == 10 * Pow10(a - 1 + b);
      Assoc10(Pow10(a - 1), Pow10(b));
    }
  }

  lemma Assoc10(x: nat, y: nat)
    ensures 10 * (x * y) == (10 * x) * y
  {
  }

  lemma IntProduct(w: nat, v: nat, p: nat, q: nat)
    ensures ((w * p + v) * q) as real == (w as real * p as real + v as real) * q as real
    ensures (p * q) as real == p as real * q as real
  {
    AsReal(w, p);
    AsReal(w * p + v, q);
    AsReal(p, q);
  }

  lemma {:induction false} AsReal(a: nat, b: nat)
    ensures (a * b) as real == a as real * b as real
  {
    if a > 0 {
      AsReal(a - 1, b);
      assert a * b == (a - 1) * b + b;
      assert a as real * b as real == (a - 1) as real * b as real + b as real;
    }
  }

  lemma RealProduct(w: real, v: real, p: real, q: real)
    requires p != 0.0
    ensures (w * p + v) * q == (w + v / p) * (p * q)
  {
    var d := v / p;
    assert d * p == v;
    assert (w + d) * (p * q) == ((w + d) * p) * q;
    assert (w + d) * p == w * p + d * p;
  }

  function SignedWorth(n: Number): real {
    if !WellFormed(n) then 0.0 else if n.neg then -Worth(n) else Worth(n)
  }

  /** Few enough fractional digits, and the scaled magnitude fits 64 bits. */
  predicate Fits(n: Number, scale: nat) {
    WellFormed(n) && |n.frac| <= scale && Magnitude(n, scale) <= I64_MAX
  }

  lemma WritesWellFormed(t: string, n: Number)
    requires Writes(t, n)
    ensures WellFormed(n) && t != ""
  {
  }

  lemma SignedMagnitude(n: Number, scale: nat, d: real)
    requires WellFormed(n) && |n.frac| <= scale && SignedWorth(n) == d
    ensures Signed(n.neg, Magnitude(n, scale)) as real == d * Pow10(scale) as real
  {
    hide Magnitude, Worth;
    MagnitudeIsExact(n, scale);
    var m, w, p := Magnitude(n, scale), Worth(n), Pow10(scale) as real;
    assert (-w) * p == -(w * p);
  }

  // ---------------------------------------------------------------- printing

  function Abs(v: int): nat {
    if v < 0 then -v else v
  }

  function Quotient(a: nat, p: nat): nat
    requires p > 0
  {
    a / p
  }

  function Remainder(a: nat, p: nat): (r: nat)
    requires p > 0
    ensures r < p
  {
    a % p
  }

  function FormatFixed(value: int, scale: nat): (t: string)
    requires IsI64(value)
  {
    if scale == 0 then (if value < 0 then "-" else "") + Digits(Abs(value))
    else
      var k := Min(scale, 19);
      var factor := Pow10(k);
      (if value < 0 then "-" else "") + Digits(Quotient(Abs(value), factor)) + "."
          + Padded(Remainder(Abs(value), factor), k)
  }

  /** The number a printed value writes. */
  function Printed(value: int, scale: nat): Number
    requires IsI64(value)
  {
    if scale == 0 then Number(value < 0, Digits(Abs(value)), "")
    else
      var k := Min(scale, 19);
      Number(value < 0, Digits(Quotient(Abs(value), Pow10(k))), Padded(Remainder(Abs(value), Pow10(k)), k))
  }

  lemma PrintedWrites(value: int, scale: nat)
    requires IsI64(value)
    ensures Writes(FormatFixed(value, scale), Printed(value, scale))
    ensures Trim(FormatFixed(value, scale)) == FormatFixed(value, scale) != ""
  {
    hide Digits, Padded, Pow10, Quotient, Remainder;
    var n := Printed(value, scale);
    var t := FormatFixed(value, scale);
    var sign := if value < 0 then "-" else "";
    if scale == 0 {
      assert t == Text(sign, n.whole, "");
      assert t[|t| - 1] == n.whole[|n.whole| - 1];
    } else {
      assert t == Text(sign, n.whole, "." + n.frac);
      assert t[|t| - 1] == n.frac[|n.frac| - 1];
    }
    assert t[0] == if value < 0 then '-' else n.whole[0];
    assert !IsSpace(t[0]) && !IsSpace(t[|t| - 1]);
  }

  lemma PrintedMagnitude(value: int, scale: nat)
    requires IsI64(value)
    ensures var n := Printed(value, scale);
            var k := Min(scale, 19);
            |n.frac| == k && WellFormed(n) && Magnitude(n, scale) == Abs(value) * Pow10(scale - k)
  {
    hide Val, Digits, Pow10, Padded, Quotient, Remainder;
    var n := Printed(value, scale);
    var k := Min(scale, 19);
    var p := Pow10(k);
    var a := Abs(value);
    ValConcat(n.whole, n.frac);
    if scale == 0 {
      assert n.whole + n.frac == n.whole;
      ValDigits(a);
    } else {
      ValDigits(Quotient(a, p));
      ValPadded(Remainder(a, p), k);
      Euclid(a, p);
    }
  }

  lemma Euclid(a: nat, p: nat)
    requires p > 0
    ensures Quotient(a, p) * p + Remainder(a, p) == a
  {
  }

  /** `t` is the numeral of `value` with `k` decimals: a minus or nothing, no idle zero, all `k` of them. */
  predicate Canonical(t: string, value: int, k: nat, whole: string, frac: string) {
    && AllDigits(whole) && AllDigits(frac) && (|whole| == 1 || (whole != "" && whole[0] != '0')) && |frac| == k
    && t == (if value < 0 then "-" else "") + whole + (if k == 0 then "" else "." + frac)
    && Val(whole) * Pow10(k) + Val(frac) == if value < 0 then -value else value
  }

  /** A value is printed as its numeral with as many decimals as the scale says, nineteen at most. */
  lemma PrintsCanonically(value: int, scale: nat)
    requires IsI64(value)
    ensures exists whole, frac :: Canonical(FormatFixed(value, scale), value, Min(scale, 19), whole, frac)
  {
    hide Val, Digits, Pow10, Padded, Quotient, Remainder;
    var n, k, a := Printed(value, scale), Min(scale, 19), Abs(value);
    var t := FormatFixed(value, scale);
    if scale == 0 {
      ValDigits(a);
      NoLeadingZero(a);
      assert Pow10(0) == 1 && Val("") == 0 by { PowZero(); }
      assert (if value < 0 then "-" else "") + n.whole + "" == (if value < 0 then "-" else "") + n.whole;
    } else {
      var p := Pow10(k);
      ValDigits(Quotient(a, p));
      NoLeadingZero(Quotient(a, p));
      ValPadded(Remainder(a, p), k);
      Euclid(a, p);
      var sign := if value < 0 then "-" else "";
      assert sign + n.whole + "." + n.frac == sign + n.whole + ("." + n.frac);
    }
    assert Canonical(t, value, k, n.whole, n.frac);
  }

  /** Printing then parsing returns the value, exactly for scales up to 19 and values above the minimum. */
  lemma RoundTrip(value: int, scale: nat)
    requires IsI64(value)
    ensures Outcome(FormatFixed(value, scale), scale) == Ok(value) <==>
            value != -(TWO_63 as int) && (scale <= 19 || value == 0)
  {
    hide FormatFixed, Printed, Trim, Writes, Magnitude, Pow10;
    var t, n, k := FormatFixed(value, scale), Printed(value, scale), Min(scale, 19);
    PrintedWrites(value, scale);
    PrintedMagnitude(value, scale);
    OutcomeExact(t, scale);
    assert Outcome(t, scale) == Scaled(n, scale);
    assert n.neg == (value < 0) by { SignOfPrinted(value, scale); }
    if scale <= 19 {
      assert Pow10(0) == 1 by { PowZero(); }
    } else {
      PowAtLeast10(scale - k);
      Grows(Abs(value), Pow10(scale - k));
    }
  }

  /** The least value, and one lot at twenty decimals. */
  lemma RoundTripExample()
    ensures Outcome(FormatFixed(-(TWO_63 as int), 2), 2) != Ok(-(TWO_63 as int))
    ensures Outcome(FormatFixed(1, 20), 20) != Ok(1)
  {
    hide FormatFixed, Outcome;
    RoundTrip(-(TWO_63 as int), 2);
    RoundTrip(1, 20);
  }

  lemma SignOfPrinted(value: int, scale: nat)
    requires IsI64(value)
    ensures Printed(value, scale).neg == (value < 0)
  {
  }

  lemma PowZero()
    ensures Pow10(0) == 1 && Val("") == 0
  {
  }

  lemma PowAtLeast10(k: nat)
    requires k >= 1
    ensures Pow10(k) >= 10
  {
  }

  lemma Grows(a: nat, p: nat)
    requires p >= 10
    ensures a * p == a <==> a == 0
    ensures a * p >= a
  {
    if a > 0 {
      assert a * p >= a * 10;
    }
  }
}
