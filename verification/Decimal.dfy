/** Decimal digit strings and the numbers they denote. */
module Decimal {

  predicate IsDigit(c: char) {
    '0' <= c <= '9'
  }

  predicate AllDigits(s: string) {
    forall i :: 0 <= i < |s| ==> IsDigit(s[i])
  }

  function DigitChar(d: nat): (c: char)
    requires d < 10
    ensures IsDigit(c) && c as int - '0' as int == d
  {
    (d + '0' as int) as char
  }

  function Pow10(k: nat): (r: nat)
    ensures r >= 1
  {
    if k == 0 then 1 else 10 * Pow10(k - 1)
  }

  function Val(s: string): nat
    requires AllDigits(s)
  {
    if s == "" then 0 else 10 * Val(s[..|s| - 1]) + (s[|s| - 1] as int - '0' as int)
  }

  /** The decimal numeral of `n`, without leading zeros. */
  function Digits(n: nat): (s: string)
    ensures s != "" && AllDigits(s)
  {
    if n < 10 then [DigitChar(n)] else Digits(n / 10) + [DigitChar(n % 10)]
  }

  lemma {:induction false} ValDigits(n: nat)
    ensures Val(Digits(n)) == n
  {
    var s := Digits(n);
    if n >= 10 {
      ValDigits(n / 10);
      assert s[..|s| - 1] == Digits(n / 10);
    } else {
      assert Val(s[..0]) == 0;
    }
  }

  lemma {:induction false} NoLeadingZero(n: nat)
    ensures |Digits(n)| == 1 || Digits(n)[0] != '0'
  {
    if n >= 10 {
      NoLeadingZero(n / 10);
      ValDigits(n / 10);
      if |Digits(n / 10)| == 1 {
        assert Digits(n / 10)[..0] == "";
      }
    }
  }

  lemma {:induction false} DigitsLength(n: nat, k: nat)
    requires n < Pow10(k) && k >= 1
    ensures |Digits(n)| <= k
  {
    if n >= 10 {
      DigitsLength(n / 10, k - 1);
    }
  }

  lemma {:induction false} ValConcat(a: string, b: string)
    requires AllDigits(a) && AllDigits(b)
    ensures AllDigits(a + b) && Val(a + b) == Val(a) * Pow10(|b|) + Val(b)
  {
    if b == "" {
      assert a + b == a;
    } else {
      var m := |b| - 1;
      assert (a + b)[..|a + b| - 1] == a + b[..m];
      ValConcat(a, b[..m]);
      ShiftSum(Val(a), Pow10(m), Val(b[..m]));
    }
  }

  lemma ShiftSum(v: nat, p: nat, w: nat)
    ensures 10 * (v * p + w) == v * (10 * p) + 10 * w
  {
  }

  function Zeros(k: nat): (s: string)
    ensures |s| == k && AllDigits(s)
  {
    if k == 0 then "" else Zeros(k - 1) + "0"
  }

  lemma {:induction false} ValZeros(k: nat)
    ensures Val(Zeros(k)) == 0
  {
    if k > 0 {
      ValZeros(k - 1);
      assert Zeros(k)[..k - 1] == Zeros(k - 1);
    }
  }

  /** `n` with leading zeros up to a width of `k` digits. */
  function Padded(n: nat, k: nat): (s: string)
    ensures AllDigits(s) && |s| >= k
  {
    Zeros(if |Digits(n)| >= k then 0 else k - |Digits(n)|) + Digits(n)
  }

  lemma ValPadded(n: nat, k: nat)
    requires k >= 1 && n < Pow10(k)
    ensures |Padded(n, k)| == k && Val(Padded(n, k)) == n
  {
    DigitsLength(n, k);
    ValDigits(n);
    var z := Zeros(if |Digits(n)| >= k then 0 else k - |Digits(n)|);
    ValZeros(|z|);
    ValConcat(z, Digits(n));
  }

  function TrimZeros(s: string): (r: string)
    requires AllDigits(s)
    ensures AllDigits(r) && (r != "" ==> r[0] != '0')
  {
    if s != "" && s[0] == '0' then TrimZeros(s[1..]) else s
  }

  lemma {:induction false} TrimZerosKeepsVal(s: string)
    requires AllDigits(s)
    ensures Val(TrimZeros(s)) == Val(s)
    decreases |s|
  {
    if s != "" && s[0] == '0' {
      TrimZerosKeepsVal(s[1..]);
      assert s == "0" + s[1..];
      ValConcat("0", s[1..]);
      assert Val("0") == 0 by {
        assert "0"[..0] == "";
      }
    }
  }
}
