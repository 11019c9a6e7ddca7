/** Boundary conversion of protocol orders into tick/lot commands. */
module Adapter {
  import opened Common
  import opened HpTypes
  import opened McTypes
  import opened Bytes
  import opened Decimal
  import Scale

  /** The scales of a symbol, and how the decimal library writes a number down. */
  datatype Conversion = Conversion(priceScale: nat, qtyScale: nat, render: real -> string)

  datatype AdapterError = ScaleError | UnsupportedSide | UnsupportedForm | InvalidOrderId | InvalidTimestamp
      | InvalidGear

  datatype Converted = Ok(cmd: HpCommand) | Err(error: AdapterError)

  /** An unsigned 64-bit number, optionally signed with a plus. */
  function ParseId(s: string): Option<nat> {
    var digits := if s != [] && s[0] == '+' then s[1..] else s;
    if digits != "" && AllDigits(digits) && Val(digits) < TWO_64 then Some(Val(digits)) else None
  }

  /** The scaled integer of a decimal, read from its rendering. */
  function ToFixed(render: real -> string, d: real, scale: nat): Option<int> {
    match Scale.Outcome(render(d), scale)
    case Ok(v) => Some(v)
    case Err(_) => None
  }

  /** Whatever is written in plain decimal notation denotes the number; other notations are allowed. */
  ghost predicate Faithful(render: real -> string) {
    forall d: real, n: Scale.Number :: Scale.Writes(Scale.Trim(render(d)), n) ==> Scale.SignedWorth(n) == d
  }

  /**
   A decimal is accepted exactly when it is written plainly, with few enough digits, and fits; then the integer
   is exact.
   */
  lemma ToFixedExact(render: real -> string, d: real, scale: nat)
    requires Faithful(render)
    ensures var r := ToFixed(render, d, scale);
      && (r.Some? ==> r.value as real == d * Pow10(scale) as real)
      && (r.Some? <==> exists n :: Scale.Writes(Scale.Trim(render(d)), n) && Scale.Fits(n, scale))
  {
    hide Scale.Trim, Scale.Writes, Scale.Magnitude, Scale.Worth;
    Scale.OutcomeExact(render(d), scale);
    var t := Scale.Trim(render(d));
    if n :| Scale.Writes(t, n) {
      Scale.WritesWellFormed(t, n);
      if |n.frac| <= scale {
        Scale.MagnitudeIsExact(n, scale);
        Scale.SignedMagnitude(n, scale, d);
      }
      UniqueReading(t, n);
    }
  }

  lemma UniqueReading(t: string, n: Scale.Number)
    requires Scale.Writes(t, n)
    ensures forall m :: Scale.Writes(t, m) ==> m == n
  {
    hide Scale.Writes, Scale.Read;
    Scale.ReadExact(t, n);
    forall m | Scale.Writes(t, m) ensures m == n {
      Scale.ReadExact(t, m);
    }
  }

  /** Exponent notation is refused, so a quantity written that way does not reach the engine. */
  lemma ExponentRefused(render: real -> string, d: real, scale: nat)
    requires render(d) == "1E-8"
    ensures ToFixed(render, d, scale) == None
  {
    var t := "1E-8";
    assert Scale.TrimStart(t) == t && Scale.TrimEnd(t) == t;
    assert Scale.PointAt("1E-8") == 4 by {
      assert t[1..] == "E-8" && "E-8"[1..] == "-8" && "-8"[1..] == "8" && "8"[1..] == "";
    }
    assert t[..4] == t && !IsDigit(t[1]);
  }

  function FromBbOrder(o: BbOrder, scale: Conversion): Converted {
    if o.status == STATUS_REVOKE then
      if ParseId(o.no) == None then Err(InvalidOrderId) else Ok(Cancel(ParseId(o.no).value))
    else if SideOf(o) == None then Err(UnsupportedSide)
    else if o.createTime < 0 then Err(InvalidTimestamp)
    else if ParseId(o.no) == None then Err(InvalidOrderId)
    else
      var side, client := SideOf(o).value, ParseId(o.no).value;
      var lots := ToFixed(scale.render, o.remainingNumber, scale.qtyScale);
      if lots == None then Err(ScaleError)
      else if o.form == FORM_LIMIT then
        var tick := ToFixed(scale.render, o.price, scale.priceScale);
        if tick == None then Err(ScaleError)
        else Ok(Limit(side, tick.value, lots.value, o.createTime, client))
      else if o.form == FORM_MARKET then
        if o.gear.Some? && o.gear.value >= 1 then
          Ok(Market(side, lots.value, o.createTime, Some(o.gear.value), client))
        else Err(InvalidGear)
      else Err(UnsupportedForm)
  }

  /** A number the adapter can put in an order. */
  predicate Convertible(scale: Conversion, d: real, places: nat) {
    ToFixed(scale.render, d, places).Some?
  }

  /** Exactly which orders are converted, and what each of the others is refused for. */
  lemma ConvertedIff(o: BbOrder, scale: Conversion)
    ensures var r, known := FromBbOrder(o, scale), ParseId(o.no).Some?;
      if o.status == STATUS_REVOKE then r == if known then Ok(Cancel(ParseId(o.no).value)) else Err(InvalidOrderId)
      else
        var placed := SideOf(o).Some? && o.createTime >= 0 && known;
        var sized := placed && Convertible(scale, o.remainingNumber, scale.qtyScale);
        && (r.Ok? <==> sized && if o.form == FORM_LIMIT then Convertible(scale, o.price, scale.priceScale)
                                else o.form == FORM_MARKET && o.gear.Some? && o.gear.value >= 1)
        && (r == Err(UnsupportedForm) <==> sized && o.form != FORM_LIMIT && o.form != FORM_MARKET)
        && (r == Err(InvalidGear) <==> sized && o.form == FORM_MARKET && !(o.gear.Some? && o.gear.value >= 1))
        && (r == Err(ScaleError) <==> placed && !(sized && (o.form == FORM_LIMIT ==>
                                                   Convertible(scale, o.price, scale.priceScale))))
        && (r == Err(InvalidOrderId) <==> SideOf(o).Some? && o.createTime >= 0 && !known)
        && (r == Err(InvalidTimestamp) <==> SideOf(o).Some? && o.createTime < 0)
        && (r == Err(UnsupportedSide) <==> SideOf(o) == None)
  {
    hide ParseId, ToFixed;
  }

  /** The id of an order is the number its digits write, in 64 bits; a leading plus is allowed. */
  lemma IdsAreNumerals(n: nat)
    requires n < TWO_64
    ensures ParseId(Digits(n)) == Some(n) && ParseId("+" + Digits(n)) == Some(n)
    ensures ParseId("") == None && ParseId("-" + Digits(n)) == None
  {
    ValDigits(n);
    var d := Digits(n);
    assert IsDigit(d[0]);
    assert ("+" + d)[1..] == d && ("-" + d)[0] == '-';
  }
}
