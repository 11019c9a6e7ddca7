/** What a sweep does, for every taker, opposite side and bound. */
module McSweep {
  import opened Common
  import opened HpTypes
  import opened McTypes
  import opened McBook
  import opened McSpec

  /** Same order, possibly with more of it consumed. */
  predicate SameOrder(a: BbOrder, b: BbOrder) {
    a == b.(consumed := a.consumed, remainingNumber := a.remainingNumber, status := a.status,
        currentDeal := a.currentDeal)
  }

  lemma SweepStopped(side: Side, taker: BbOrder, opp: seq<BbOrder>, bound: Bound)
    requires StopsAt(side, taker, opp, bound)
    ensures Sweep(side, taker, opp, bound) == Swept(Some(taker), opp, [])
  {
  }

  lemma SweepOnce(side: Side, t: BbOrder, opp: seq<BbOrder>, bound: Bound)
    requires !StopsAt(side, t, opp, bound)
    ensures opp != [] && (bound.Geared? ==> bound.left > 0)
    ensures var m := Remaining(opp[0]);
      if Remaining(t) > m then
        var sw := Sweep(side, TakerAfter(t, m), opp[1..], Next(bound));
        Sweep(side, t, opp, bound) == Swept(sw.taker, sw.rest, [FillOf(t, opp[0])] + sw.fills)
      else
        Sweep(side, t, opp, bound) ==
          Swept(None,
                if Remaining(t) < m then [MakerAfter(opp[0], Remaining(t))] + opp[1..] else opp[1..],
                [FillOf(t, opp[0])])
  {
  }

  /**
   Fill `k` is against the k-th best opposite order, at its price, with the incoming order
   as taker; what is left is the untouched tail, at most its first order partly consumed.
   */
  lemma {:induction false} SweepShape(side: Side, taker: BbOrder, opp: seq<BbOrder>, bound: Bound)
    ensures var sw := Sweep(side, taker, opp, bound);
      var k := |opp| - |sw.rest|;
      && 0 <= k <= |sw.fills| <= |opp| && |sw.fills| <= k + 1
      && (forall i :: 0 <= i < |sw.fills| ==>
            && sw.fills[i].McFill? && sw.fills[i].takerNo == taker.no && sw.fills[i].symbol == taker.symbol
            && sw.fills[i].makerNo == opp[i].no && sw.fills[i].price == opp[i].price
            && (bound.Priced? ==> Reaches(side, taker.price, opp[i].price)))
      && (|sw.fills| == k ==> sw.rest == opp[k..])
      && (|sw.fills| == k + 1 ==> SameOrder(sw.rest[0], opp[k]) && sw.rest[1..] == opp[k + 1..] && sw.taker == None)
      && (sw.taker.Some? ==> SameOrder(sw.taker.value, taker))
      && (bound.Geared? ==> |sw.fills| <= bound.left)
    decreases |opp|
  {
    hide Sweep;
    if StopsAt(side, taker, opp, bound) {
      SweepStopped(side, taker, opp, bound);
    } else {
      SweepOnce(side, taker, opp, bound);
    }
    if !StopsAt(side, taker, opp, bound) && Remaining(taker) > Remaining(opp[0]) {
      var t' := TakerAfter(taker, Remaining(opp[0]));
      SweepShape(side, t', opp[1..], Next(bound));
      var sw, sw' := Sweep(side, taker, opp, bound), Sweep(side, t', opp[1..], Next(bound));
      var k := |opp| - |sw.rest|;
      assert opp[1..][k - 1..] == opp[k..];
      if |sw.fills| == k + 1 {
        assert opp[1..][k..] == opp[k + 1..];
      }
    }
  }

  /** A taker left over stopped for a reason: nothing more it may trade with. */
  lemma {:induction false} SweepStops(side: Side, taker: BbOrder, opp: seq<BbOrder>, bound: Bound)
    requires Sweep(side, taker, opp, bound).taker.Some?
    ensures var sw := Sweep(side, taker, opp, bound);
      StopsAt(side, sw.taker.value, sw.rest, if bound.Priced? then bound else Geared(Max(bound.left - |sw.fills|, 0)))
    decreases |opp|
  {
    SweepShape(side, taker, opp, bound);
    if !StopsAt(side, taker, opp, bound) {
      SweepStops(side, TakerAfter(taker, Remaining(opp[0])), opp[1..], Next(bound));
      SweepShape(side, TakerAfter(taker, Remaining(opp[0])), opp[1..], Next(bound));
    }
  }

  // ---------------------------------------------------------------- quantities

  predicate AllPositive(s: seq<BbOrder>) {
    forall i :: 0 <= i < |s| ==> Remaining(s[i]) > 0.0
  }

  function FillSum(es: seq<MatchEvent>): real {
    if es == [] then 0.0
    else (if es[0].McFill? then es[0].qty else 0.0) + FillSum(es[1..])
  }

  /** What a taker at its price could trade. */
  function CrossingLiquidity(side: Side, price: real, opp: seq<BbOrder>): real {
    if opp == [] then 0.0
    else (if Reaches(side, price, opp[0].price) then Remaining(opp[0]) else 0.0)
         + CrossingLiquidity(side, price, opp[1..])
  }

  function RealMin(a: real, b: real): real {
    if a <= b then a else b
  }

  lemma {:induction false} NoLiquidity(side: Side, price: real, opp: seq<BbOrder>)
    requires SortedSide(Opposite(side), opp)
    requires opp == [] || !Reaches(side, price, opp[0].price)
    ensures CrossingLiquidity(side, price, opp) == 0.0
  {
    if opp != [] {
      if opp[1..] != [] {
        assert Precedes(Opposite(side), opp[0], opp[1]);
      }
      NoLiquidity(side, price, opp[1..]);
    }
  }

  lemma {:induction false} LiquidityPositive(side: Side, price: real, opp: seq<BbOrder>)
    requires AllPositive(opp)
    ensures CrossingLiquidity(side, price, opp) >= 0.0
    ensures opp != [] && Reaches(side, price, opp[0].price) ==> CrossingLiquidity(side, price, opp) >= Remaining(opp[0])
  {
    if opp != [] {
      LiquidityPositive(side, price, opp[1..]);
    }
  }

  /**
   A priced sweep trades exactly the smaller of the taker's remainder and the crossing
   liquidity; so it completes if and only if the crossing liquidity covers the taker.
   */
  lemma {:induction false} SweepVolume(side: Side, taker: BbOrder, opp: seq<BbOrder>)
    requires SortedSide(Opposite(side), opp) && AllPositive(opp) && Remaining(taker) > 0.0
    ensures var sw := Sweep(side, taker, opp, Priced);
      && FillSum(sw.fills) == RealMin(Remaining(taker), CrossingLiquidity(side, taker.price, opp))
      && (sw.taker == None <==> CrossingLiquidity(side, taker.price, opp) >= Remaining(taker))
      && (sw.taker.Some? ==> FillSum(sw.fills) + Remaining(sw.taker.value) == Remaining(taker)
                             && Remaining(sw.taker.value) > 0.0)
      && AllPositive(sw.rest)
    decreases |opp|
  {
    LiquidityPositive(side, taker.price, opp);
    if StopsAt(side, taker, opp, Priced) {
      NoLiquidity(side, taker.price, opp);
    } else {
      var t, m := Remaining(taker), Remaining(opp[0]);
      LiquidityPositive(side, taker.price, opp[1..]);
      var f := FillOf(taker, opp[0]);
      assert [f][1..] == [];
      assert FillSum([f]) == f.qty + FillSum([f][1..]);
      if t > m {
        SweepVolume(side, TakerAfter(taker, m), opp[1..]);
        var sw := Sweep(side, TakerAfter(taker, m), opp[1..], Priced);
        assert ([f] + sw.fills)[1..] == sw.fills;
      }
    }
  }

  lemma {:induction false} WalkFillsSum(es: seq<MatchEvent>)
    ensures FillSum(WalkFills(es)) == FillSum(es)
  {
    if es != [] {
      WalkFillsSum(es[1..]);
      assert WalkFills(es)[1..] == WalkFills(es[1..]);
    }
  }

  /** Positive remainders stay positive through any sweep. */
  lemma {:induction false} SweepKeepsPositive(side: Side, taker: BbOrder, opp: seq<BbOrder>, bound: Bound)
    requires AllPositive(opp) && Remaining(taker) > 0.0
    ensures var sw := Sweep(side, taker, opp, bound);
      AllPositive(sw.rest) && (sw.taker.Some? ==> Remaining(sw.taker.value) > 0.0)
    decreases |opp|
  {
    if !StopsAt(side, taker, opp, bound) && Remaining(taker) > Remaining(opp[0]) {
      SweepKeepsPositive(side, TakerAfter(taker, Remaining(opp[0])), opp[1..], Next(bound));
    }
  }

  /** Every fill reports the smaller remainder, what each side has left after it, and the matching statuses. */
  lemma {:induction false} SweepReports(side: Side, taker: BbOrder, opp: seq<BbOrder>, bound: Bound, k: nat)
    requires k < |Sweep(side, taker, opp, bound).fills|
    ensures var fills := Sweep(side, taker, opp, bound).fills;
      var f := fills[k];
      && k < |opp| && f.McFill?
      && f.qty == RealMin(Remaining(taker) - FillSum(fills[..k]), Remaining(opp[k]))
      && f.takerRemaining == Remaining(taker) - FillSum(fills[..k + 1])
      && f.makerRemaining == Remaining(opp[k]) - f.qty
      && f.takerStatus == (if f.takerRemaining > 0.0 then STATUS_PART else STATUS_SUCCESS)
      && f.makerStatus == (if f.makerRemaining > 0.0 then STATUS_PART else STATUS_SUCCESS)
      && (k + 1 < |fills| ==> f.makerRemaining == 0.0 && f.takerRemaining > 0.0)
    decreases |opp|
  {
    hide Sweep, StopsAt;
    if StopsAt(side, taker, opp, bound) {
      SweepStopped(side, taker, opp, bound);
    }
    SweepOnce(side, taker, opp, bound);
    var fills := Sweep(side, taker, opp, bound).fills;
    var t, m := Remaining(taker), Remaining(opp[0]);
    if t > m {
      var t' := TakerAfter(taker, m);
      var rest := Sweep(side, t', opp[1..], Next(bound)).fills;
      assert fills == [fills[0]] + rest;
      if k > 0 {
        SweepReports(side, t', opp[1..], Next(bound), k - 1);
        assert fills[..k] == [fills[0]] + rest[..k - 1] && fills[..k + 1] == [fills[0]] + rest[..k];
        FillSumFront(fills[0], rest[..k - 1]);
        FillSumFront(fills[0], rest[..k]);
      }
    }
    if k == 0 {
      assert fills[..1] == [fills[0]] + [] && fills[..0] == [];
      FillSumFront(fills[0], []);
    }
  }

  lemma FillSumFront(f: MatchEvent, rest: seq<MatchEvent>)
    requires f.McFill?
    ensures FillSum([f] + rest) == f.qty + FillSum(rest)
  {
    assert ([f] + rest)[1..] == rest;
  }
}
