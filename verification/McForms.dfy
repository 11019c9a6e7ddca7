/**
 What each order form does, in closed form: which makers it takes, for how much, what is left on
 either side, and what is revoked. Everything is told from the book before the order.
 */
module McForms {
  import opened Common
  import opened HpTypes
  import opened McTypes
  import opened McBook
  import opened McSpec
  import opened McSweep
  import opened McRuns
  import opened McExceptions

  // ---------------------------------------------------------------- a sweep in closed form

  /** How much a taker that wants `want` gets from the `k`-th opposite order. */
  function Takes(want: real, opp: seq<BbOrder>, k: nat): real
    requires k < |opp|
  {
    RealMin(want - SumRemaining(opp[..k]), Remaining(opp[k]))
  }

  function StatusFor(left: real): int {
    if left > 0.0 then STATUS_PART else STATUS_SUCCESS
  }

  /** The fill of the `k`-th opposite order: every field. */
  function FillAt(taker: BbOrder, opp: seq<BbOrder>, k: nat): MatchEvent
    requires k < |opp|
  {
    var want, qty := Remaining(taker), Takes(Remaining(taker), opp, k);
    var takerLeft, makerLeft := want - SumRemaining(opp[..k]) - qty, Remaining(opp[k]) - qty;
    McFill(taker.symbol, taker.no, opp[k].no, taker.userType, opp[k].userType, opp[k].price, qty,
           takerLeft, makerLeft, StatusFor(takerLeft), StatusFor(makerLeft))
  }

  /** The opposite orders a taker of `want` leaves: none of those it used up, the rest of the last one. */
  function Left(want: real, opp: seq<BbOrder>): seq<BbOrder>
    decreases |opp|
  {
    if opp == [] || want <= 0.0 then opp
    else if want >= Remaining(opp[0]) then Left(want - Remaining(opp[0]), opp[1..])
    else [opp[0].(consumed := opp[0].consumed + want, remainingNumber := Remaining(opp[0]) - want)] + opp[1..]
  }

  /** Fills take the opposite orders from the first on, each for what `FillAt` says. */
  predicate TakesInOrder(fills: seq<MatchEvent>, taker: BbOrder, opp: seq<BbOrder>) {
    |fills| <= |opp| && forall k :: 0 <= k < |fills| ==> fills[k] == FillAt(taker, opp, k)
  }

  /** How many opposite orders a taker may trade with. */
  function Span(side: Side, price: real, opp: seq<BbOrder>, bound: Bound): (n: nat)
    ensures n <= |opp|
    decreases |opp|
  {
    if opp == [] then 0
    else
      match bound
      case Priced => if Reaches(side, price, opp[0].price) then 1 + Span(side, price, opp[1..], Priced) else 0
      case Geared(left) =>
        if left == 0 || (side == Buy && opp[0].form == FORM_MARKET) then 0
        else 1 + Span(side, price, opp[1..], Geared(left - 1))
  }

  /** What those orders hold together. */
  function Within(side: Side, price: real, opp: seq<BbOrder>, bound: Bound): real {
    SumRemaining(opp[..Span(side, price, opp, bound)])
  }

  lemma SpanNext(side: Side, price: real, opp: seq<BbOrder>, bound: Bound)
    requires opp != [] && (bound.Geared? ==> bound.left > 0) && Span(side, price, opp, bound) > 0
    ensures Span(side, price, opp, bound) == 1 + Span(side, price, opp[1..], Next(bound))
    ensures Within(side, price, opp, bound) == Remaining(opp[0]) + Within(side, price, opp[1..], Next(bound))
  {
    SumFront(opp, Span(side, price, opp, bound));
  }

  lemma StopsIffSpan(side: Side, taker: BbOrder, opp: seq<BbOrder>, bound: Bound)
    ensures StopsAt(side, taker, opp, bound) <==> Span(side, taker.price, opp, bound) == 0
  {
  }

  lemma NoneWithin(side: Side, price: real, opp: seq<BbOrder>, bound: Bound)
    requires AllPositive(opp)
    ensures Within(side, price, opp, bound) >= 0.0
    ensures Span(side, price, opp, bound) == 0 <==> Within(side, price, opp, bound) == 0.0
  {
    SumNonNegative(opp[..Span(side, price, opp, bound)]);
  }

  lemma NothingFilled()
    ensures FillSum([]) == 0.0
  {
  }

  /** What a sweep trades, for every taker and either bound. */
  lemma {:induction false} SweepTrades(side: Side, taker: BbOrder, opp: seq<BbOrder>, bound: Bound)
    requires AllPositive(opp) && Remaining(taker) > 0.0
    ensures var sw, within := Sweep(side, taker, opp, bound), Within(side, taker.price, opp, bound);
      && FillSum(sw.fills) == RealMin(Remaining(taker), within)
      && (sw.taker == None <==> within >= Remaining(taker))
      && sw.rest == Left(FillSum(sw.fills), opp)
      && (sw.taker.Some? ==>
            && |sw.fills| == Span(side, taker.price, opp, bound) && |sw.rest| == |opp| - |sw.fills|
            && SameOrder(sw.taker.value, taker) && sw.taker.value.consumed == taker.consumed + within
            && (if sw.fills == [] then sw.taker.value == taker
                else sw.taker.value.remainingNumber == Remaining(taker) - within
                     && sw.taker.value.status == STATUS_PART))
    decreases |opp|
  {
    hide Sweep, Span, Within, FillSum, StopsAt;
    NoneWithin(side, taker.price, opp, bound);
    StopsIffSpan(side, taker, opp, bound);
    NothingFilled();
    if StopsAt(side, taker, opp, bound) {
      SweepStopped(side, taker, opp, bound);
    } else {
      SweepOnce(side, taker, opp, bound);
      SpanNext(side, taker.price, opp, bound);
      NoneWithin(side, taker.price, opp[1..], Next(bound));
      var f := FillOf(taker, opp[0]);
      FillSumFront(f, []);
      assert [f] + [] == [f];
      if Remaining(taker) > Remaining(opp[0]) {
        var t' := TakerAfter(taker, Remaining(opp[0]));
        SweepTrades(side, t', opp[1..], Next(bound));
        FillSumFront(f, Sweep(side, t', opp[1..], Next(bound)).fills);
      }
    }
  }

  lemma FillNext(taker: BbOrder, opp: seq<BbOrder>, k: nat)
    requires 1 <= k < |opp|
    ensures FillAt(TakerAfter(taker, Remaining(opp[0])), opp[1..], k - 1) == FillAt(taker, opp, k)
  {
    SumFront(opp, k);
  }

  lemma {:induction false} SweepTakesInOrder(side: Side, taker: BbOrder, opp: seq<BbOrder>, bound: Bound)
    ensures TakesInOrder(Sweep(side, taker, opp, bound).fills, taker, opp)
    decreases |opp|
  {
    hide Sweep, StopsAt;
    if StopsAt(side, taker, opp, bound) {
      SweepStopped(side, taker, opp, bound);
    } else {
      SweepOnce(side, taker, opp, bound);
      assert FillOf(taker, opp[0]) == FillAt(taker, opp, 0) by {
        assert SumRemaining(opp[..0]) == 0.0;
      }
      if Remaining(taker) > Remaining(opp[0]) {
        var t' := TakerAfter(taker, Remaining(opp[0]));
        SweepTakesInOrder(side, t', opp[1..], Next(bound));
        var fills, rest := Sweep(side, taker, opp, bound).fills, Sweep(side, t', opp[1..], Next(bound)).fills;
        forall k | 0 <= k < |fills| ensures fills[k] == FillAt(taker, opp, k) {
          if k > 0 {
            FillNext(taker, opp, k);
          }
        }
      }
    }
  }

  lemma {:induction false} LiquidityIsWithin(side: Side, price: real, opp: seq<BbOrder>)
    requires SortedSide(Opposite(side), opp)
    ensures Within(side, price, opp, Priced) == CrossingLiquidity(side, price, opp)
  {
    if opp == [] || !Reaches(side, price, opp[0].price) {
      NoLiquidity(side, price, opp);
      assert opp[..0] == [];
    } else {
      LiquidityIsWithin(side, price, opp[1..]);
      SpanNext(side, price, opp, Priced);
    }
  }

  // ---------------------------------------------------------------- the forms

  /** An order with something to trade meets orders with something to trade. */
  predicate Meets(b: Sides, o: BbOrder, form: int) {
    IsNew(b, o, form) && Remaining(o) > 0.0 && AllPositive(b.Of(Opposite(SideOf(o).value)))
  }

  /** What an order of either kind trades: fills first, taken in order from the opposite side, nothing else from it. */
  predicate Trades(b: Sides, o: BbOrder, taker: BbOrder, b': Sides, fills: seq<MatchEvent>, total: real)
    requires SideOf(o).Some?
  {
    var opposite := Opposite(SideOf(o).value);
    TakesInOrder(fills, taker, b.Of(opposite)) && FillSum(fills) == total
        && b'.Of(opposite) == Left(total, b.Of(opposite))
  }

  /**
   An IOC order trades the smaller of its quantity and the crossing liquidity. What is left of it is
   revoked, once and last, and nothing of its own side changes.
   */
  lemma IocTrades(b: Sides, o: BbOrder)
    requires Good(b) && Meets(b, o, FORM_IOC)
    ensures var side, (b', es) := SideOf(o).value, McStep(b, o);
      var crossing := CrossingLiquidity(side, o.price, b.Of(Opposite(side)));
      && b'.Of(side) == b.Of(side)
      && if crossing >= Remaining(o) then Trades(b, o, o, b', es, Remaining(o))
         else
           && es != [] && es[|es| - 1] == McRevoke(o.no, o.symbol, Remaining(o) - crossing, "ioc_remainder")
           && Trades(b, o, o, b', es[..|es| - 1], crossing)
  {
    hide Sweep, CrossingLiquidity, AllPositive, Left, TakesInOrder, Within, FillSum, HasNo, Precedes;
    var side := SideOf(o).value;
    var opp := b.Of(Opposite(side));
    SweepTrades(side, o, opp, Priced);
    SweepTakesInOrder(side, o, opp, Priced);
    LiquidityIsWithin(side, o.price, opp);
    NoneWithin(side, o.price, opp, Priced);
    var sw := Sweep(side, o, opp, Priced);
    assert sw.fills + [] == sw.fills;
    if sw.taker.Some? {
      var es := McStep(b, o).1;
      assert es == sw.fills + [RevokeOf(sw.taker.value, "ioc_remainder")] && es[..|es| - 1] == sw.fills;
    }
  }

  /**
   A limit order, or one of an unknown form, trades the smaller of its quantity and the crossing
   liquidity. What is left of it rests at its place on its own side; nothing is revoked.
   */
  lemma LimitTrades(b: Sides, o: BbOrder)
    requires Good(b) && Meets(b, o, o.form) && o.form !in {FORM_MARKET, FORM_POST_ONLY, FORM_IOC, FORM_FOK}
    ensures var side, (b', es) := SideOf(o).value, McStep(b, o);
      var crossing := CrossingLiquidity(side, o.price, b.Of(Opposite(side)));
      && Trades(b, o, o, b', es, RealMin(Remaining(o), crossing))
      && if crossing >= Remaining(o) then b'.Of(side) == b.Of(side)
         else exists rest: BbOrder :: RestsWith(o, rest, crossing) && GainsOnly(b.Of(side), b'.Of(side), rest)
  {
    hide Sweep, CrossingLiquidity, AllPositive, Left, TakesInOrder, Within, FillSum, HasNo, Precedes, InsertSorted;
    var side := SideOf(o).value;
    var opp := b.Of(Opposite(side));
    SweepTrades(side, o, opp, Priced);
    SweepTakesInOrder(side, o, opp, Priced);
    LiquidityIsWithin(side, o.price, opp);
    NoneWithin(side, o.price, opp, Priced);
    var sw := Sweep(side, o, opp, Priced);
    if sw.taker.Some? {
      InsertMembers(side, b.Of(side), sw.taker.value);
      assert RestsWith(o, sw.taker.value, CrossingLiquidity(side, o.price, opp));
    }
  }

  /** `rest` is `o` with `traded` of it consumed. */
  predicate RestsWith(o: BbOrder, rest: BbOrder, traded: real) {
    && SameOrder(rest, o) && rest.consumed == o.consumed + traded
    && (if traded == 0.0 then rest == o
        else rest.remainingNumber == Remaining(o) - traded && rest.status == STATUS_PART)
  }

  /** One more order, the others all there still; the place is fixed by the side being sorted. */
  ghost predicate GainsOnly(s: seq<BbOrder>, s': seq<BbOrder>, o: BbOrder) {
    |s'| == |s| + 1 && forall x :: x in s' <==> x == o || x in s
  }

  /**
   A FOK order that fills takes the opposite orders as any other would. One that does not leaves the book as
   it was, and its revoke reports what its tentative walk had left, not what it wanted.
   */
  lemma FokTrades(b: Sides, o: BbOrder)
    requires Good(b) && Meets(b, o, FORM_FOK)
    ensures var side, (b', es) := SideOf(o).value, McStep(b, o);
      var opposite := Opposite(side);
      && b'.Of(side) == b.Of(side)
      && if CrossingLiquidity(side, o.price, b.Of(opposite)) >= Remaining(o) then
           && b'.Of(opposite) == Left(Remaining(o), b.Of(opposite))
           && |es| <= |b.Of(opposite)|
           && forall k :: 0 <= k < |es| ==>
                var f := FillAt(o, b.Of(opposite), k); es[k] == f || es[k] == f.(takerStatus := STATUS_PART)
         else
           b' == b && es == [McRevoke(o.no, o.symbol, Remaining(o) - CrossingLiquidity(side, o.price, b.Of(opposite)),
                                      "fok_fail")]
  {
    hide Sweep, CrossingLiquidity, AllPositive, Left, Within, HasNo, Precedes, FillAt, SameOrder;
    var side := SideOf(o).value;
    var opp := b.Of(Opposite(side));
    SweepTrades(side, o, opp, Priced);
    SweepTakesInOrder(side, o, opp, Priced);
    LiquidityIsWithin(side, o.price, opp);
    NoneWithin(side, o.price, opp, Priced);
    var sw := Sweep(side, o, opp, Priced);
    if sw.taker.Some? {
      KeepsName(sw.taker.value, o);
    }
  }

  /** A failed FOK order reports its whole quantity revoked if and only if nothing crossed it. */
  lemma FokRevokeIff(b: Sides, o: BbOrder)
    requires Good(b) && Meets(b, o, FORM_FOK)
    requires CrossingLiquidity(SideOf(o).value, o.price, b.Of(Opposite(SideOf(o).value))) < Remaining(o)
    ensures var side, es := SideOf(o).value, McStep(b, o).1;
      |es| == 1 && es[0].McRevoke?
      && (es[0].remaining == Remaining(o)
          <==> forall j :: 0 <= j < |b.Of(Opposite(side))| ==> !Reaches(side, o.price, b.Of(Opposite(side))[j].price))
  {
    hide McStep, CrossingLiquidity, HasNo, Precedes, Left, FillAt;
    var side := SideOf(o).value;
    var opp := b.Of(Opposite(side));
    FokTrades(b, o);
    LiquidityPositive(side, o.price, opp);
    if opp == [] || !Reaches(side, o.price, opp[0].price) {
      NoLiquidity(side, o.price, opp);
      BestOutOfReach(side, o.price, opp);
    }
  }

  /** A sell of one and a FOK buy of two: nothing trades, and the buy is reported revoked with one left. */
  lemma FokRevokeExample()
    ensures var a, o := Plain(2, "a", FORM_LIMIT, 1.0, 4.0, 1), Plain(1, "o", FORM_FOK, 2.0, 4.0, 2);
      McStep(Sides([], [a]), o) == (Sides([], [a]), [McRevoke(o.no, o.symbol, 1.0, "fok_fail")])
  {
    hide McStep, Plain, SideOf, Remaining;
    PlainFields(2, "a", FORM_LIMIT, 1.0, 4.0, 1);
    PlainFields(1, "o", FORM_FOK, 2.0, 4.0, 2);
    assert "a" != "o" by { assert "a"[0] != "o"[0]; }
    OneSell(Plain(2, "a", FORM_LIMIT, 1.0, 4.0, 1), Plain(1, "o", FORM_FOK, 2.0, 4.0, 2));
  }

  lemma OneSell(a: BbOrder, o: BbOrder)
    requires SideOf(a) == Some(Sell) && SideOf(o) == Some(Buy) && o.form == FORM_FOK && o.status != STATUS_REVOKE
    requires a.no != o.no && a.price == o.price && Remaining(a) == 1.0 && Remaining(o) == 2.0
    ensures McStep(Sides([], [a]), o) == (Sides([], [a]), [McRevoke(o.no, o.symbol, 1.0, "fok_fail")])
  {
    hide McStep, SideOf, Remaining, Left, FillAt, Precedes;
    assert [a][1..] == [];
    assert CrossingLiquidity(Buy, o.price, [a]) == 1.0 + CrossingLiquidity(Buy, o.price, [a][1..]);
    FokTrades(Sides([], [a]), o);
  }

  /** A market order ends early: nothing to trade with, or behind another order of its own side. */
  lemma MarketTurnedBack(b: Sides, o: BbOrder)
    requires Good(b) && IsNew(b, o, FORM_MARKET)
    ensures var side, (b', es) := SideOf(o).value, McStep(b, o);
      var mine, opp, t := b.Of(side), b.Of(Opposite(side)), AtMarket(side, o);
      && (opp == [] ==> b' == b && es == [McRevoke(o.no, o.symbol, Remaining(o), "market_empty")])
      && (opp != [] && mine != [] && !Precedes(side, t, mine[0]) && mine[0].form == FORM_MARKET ==>
            b' == b && es == [McRevoke(o.no, o.symbol, Remaining(o), "market_blocked")])
      && (StuckBehind(b, o) ==>
            es == [] && b'.Of(Opposite(side)) == opp && GainsOnly(mine, b'.Of(side), t))
  {
    hide Sweep, InsertSorted, HasNo, Precedes;
    var side := SideOf(o).value;
    InsertMembers(side, b.Of(side), MarketOrder(side, o));
  }

  /**
   Otherwise a market order trades with as many opposite orders as its gear allows, a buy only up to the
   first market order among them, whatever the prices. What is left of it is revoked with the reason it
   stopped.
   */
  lemma MarketTrades(b: Sides, o: BbOrder, gear: nat)
    requires Good(b) && Meets(b, o, FORM_MARKET)
    requires gear == Max(1, if o.gear.Some? then o.gear.value else 1)
    requires b.Of(Opposite(SideOf(o).value)) != []
    requires var mine := b.Of(SideOf(o).value);
      mine == [] || Precedes(SideOf(o).value, AtMarket(SideOf(o).value, o), mine[0])
    ensures var side, (b', es) := SideOf(o).value, McStep(b, o);
      var opp := b.Of(Opposite(side));
      var n := Span(side, o.price, opp, Geared(gear));
      var within := SumRemaining(opp[..n]);
      && b'.Of(side) == b.Of(side)
      && if within >= Remaining(o) then Trades(b, o, o, b', es, Remaining(o))
         else
           && es != [] && Trades(b, o, o, b', es[..|es| - 1], within)
           && es[|es| - 1] == McRevoke(o.no, o.symbol, Remaining(o) - within,
                if n == gear then "market_gear" else if n == |opp| then "market_empty" else "market_blocked")
  {
    hide Sweep, AllPositive, Left, TakesInOrder, FillSum, HasNo, Precedes, Span, McStep, Good, SumRemaining,
        StopReason, MarketOrder, RevokeOf, Remaining;
    var side := SideOf(o).value;
    var opp := b.Of(Opposite(side));
    SameMarket(side, o);
    MarketSwept(side, o, opp, gear);
    MarketSweeps(b, o, gear);
    var sw, es := Sweep(side, MarketOrder(side, o), opp, Geared(gear)), McStep(b, o).1;
    if sw.taker.Some? {
      assert es == sw.fills + [RevokeOf(sw.taker.value, StopReason(sw, gear))];
      assert es[..|es| - 1] == sw.fills;
    } else {
      assert es == sw.fills;
    }
  }

  /** The sweep of a market order, told from the order as it came. */
  lemma MarketSwept(side: Side, o: BbOrder, opp: seq<BbOrder>, gear: nat)
    requires AllPositive(opp) && Remaining(o) > 0.0
    ensures var sw, n := Sweep(side, MarketOrder(side, o), opp, Geared(gear)), Span(side, o.price, opp, Geared(gear));
      var within := SumRemaining(opp[..n]);
      && TakesInOrder(sw.fills, o, opp) && FillSum(sw.fills) == RealMin(Remaining(o), within)
      && sw.rest == Left(FillSum(sw.fills), opp) && (sw.taker == None <==> within >= Remaining(o))
      && (sw.taker.Some? ==>
            RevokeOf(sw.taker.value, StopReason(sw, gear)) == McRevoke(o.no, o.symbol, Remaining(o) - within,
              if n == gear then "market_gear" else if n == |opp| then "market_empty" else "market_blocked"))
  {
    hide Sweep, AllPositive, Left, TakesInOrder, FillSum, Span, SumRemaining, SameOrder, StopReason, MarketOrder;
    var t := AtMarket(side, o);
    SameMarket(side, o);
    SweepTrades(side, t, opp, Geared(gear));
    SweepTakesInOrder(side, t, opp, Geared(gear));
    PriceIsNothing(side, o.price, t.price, opp, gear);
    var sw := Sweep(side, t, opp, Geared(gear));
    SameTaker(sw.fills, t, o, opp);
    if sw.taker.Some? {
      KeepsName(sw.taker.value, t);
      GearBounds(side, o.price, opp, gear);
      ReasonIs(sw, gear, Span(side, o.price, opp, Geared(gear)), |opp|);
    }
  }

  lemma SameMarket(side: Side, o: BbOrder)
    ensures MarketOrder(side, o) == AtMarket(side, o)
  {
  }

  lemma ReasonIs(sw: Swept, gear: nat, n: nat, total: nat)
    requires |sw.fills| == n <= gear && |sw.rest| == total - n
    ensures StopReason(sw, gear)
         == if n == gear then "market_gear" else if n == total then "market_empty" else "market_blocked"
  {
  }

  function StopReason(sw: Swept, gear: nat): string {
    if |sw.fills| >= gear then "market_gear" else if sw.rest == [] then "market_empty" else "market_blocked"
  }

  lemma KeepsName(a: BbOrder, b: BbOrder)
    ensures SameOrder(a, b) ==> a.no == b.no && a.symbol == b.symbol && a.trust == b.trust
  {
  }

  lemma MarketSweeps(b: Sides, o: BbOrder, gear: nat)
    requires IsNew(b, o, FORM_MARKET) && gear == Max(1, if o.gear.Some? then o.gear.value else 1)
    requires b.Of(Opposite(SideOf(o).value)) != []
    requires var mine := b.Of(SideOf(o).value);
      mine == [] || Precedes(SideOf(o).value, MarketOrder(SideOf(o).value, o), mine[0])
    ensures var side := SideOf(o).value;
      var sw := Sweep(side, MarketOrder(side, o), b.Of(Opposite(side)), Geared(gear));
      && McStep(b, o).0 == b.With(Opposite(side), sw.rest)
      && McStep(b, o).1 == sw.fills + RevokeRest(sw.taker, StopReason(sw, gear))
  {
    hide Sweep, HasNo, Precedes;
    assert GearOf(o) == gear;
  }

  lemma {:induction false} PriceIsNothing(side: Side, p: real, q: real, opp: seq<BbOrder>, gear: nat)
    ensures Span(side, p, opp, Geared(gear)) == Span(side, q, opp, Geared(gear))
    decreases |opp|
  {
    if opp != [] && gear > 0 {
      PriceIsNothing(side, p, q, opp[1..], gear - 1);
    }
  }

  lemma {:induction false} GearBounds(side: Side, price: real, opp: seq<BbOrder>, gear: nat)
    ensures Span(side, price, opp, Geared(gear)) <= gear
    decreases |opp|
  {
    if opp != [] && gear > 0 {
      GearBounds(side, price, opp[1..], gear - 1);
    }
  }

  lemma SameTaker(fills: seq<MatchEvent>, t: BbOrder, o: BbOrder, opp: seq<BbOrder>)
    requires TakesInOrder(fills, t, opp) && t == o.(price := t.price)
    ensures TakesInOrder(fills, o, opp)
  {
    hide SumRemaining;
    forall k | 0 <= k < |fills| ensures fills[k] == FillAt(o, opp, k) {
      assert FillAt(t, opp, k) == FillAt(o, opp, k);
    }
  }

  /** A PostOnly order rests whole if it reaches no opposite order, and otherwise is revoked whole. */
  lemma PostOnlyRests(b: Sides, o: BbOrder)
    requires Good(b) && IsNew(b, o, FORM_POST_ONLY)
    ensures var side, (b', es) := SideOf(o).value, McStep(b, o);
      var opp := b.Of(Opposite(side));
      if exists j :: 0 <= j < |opp| && Reaches(side, o.price, opp[j].price) then
        b' == b && es == [McRevoke(o.no, o.symbol, Remaining(o), "post_only")]
      else
        es == [] && b'.Of(Opposite(side)) == opp && GainsOnly(b.Of(side), b'.Of(side), o)
  {
    hide InsertSorted, HasNo, Precedes, Reaches;
    var side := SideOf(o).value;
    var opp := b.Of(Opposite(side));
    if opp == [] || !Reaches(side, o.price, opp[0].price) {
      BestOutOfReach(side, o.price, opp);
    }
    InsertMembers(side, b.Of(side), o);
  }

  /** A user's revoke takes out exactly the order of that number on that side and reports what was left of it. */
  lemma UserRevokes(b: Sides, o: BbOrder, i: nat)
    requires Good(b) && SideOf(o).Some? && o.status == STATUS_REVOKE
    requires i < |b.Of(SideOf(o).value)| && b.Of(SideOf(o).value)[i].no == o.no
    ensures var side, (b', es) := SideOf(o).value, McStep(b, o);
      var mine := b.Of(side);
      && b'.Of(side) == mine[..i] + mine[i + 1..] && b'.Of(Opposite(side)) == b.Of(Opposite(side))
      && es == [McRevoke(o.no, mine[i].symbol, Remaining(mine[i]), "user")]
  {
    hide Precedes, WithoutNo, ByNo;
    var mine := b.Of(SideOf(o).value);
    WithoutNoAt(mine, i);
    var x := ByNo(mine, o.no);
    var j :| 0 <= j < |mine| && mine[j] == x;
    assert j == i;
  }

  /** A revoke of a number not on its side, a new order under a live number and an order of no side do nothing. */
  lemma NothingHappens(b: Sides, o: BbOrder)
    requires SideOf(o).Some? ==> if o.status == STATUS_REVOKE then !HasNo(b.Of(SideOf(o).value), o.no) else b.Has(o.no)
    ensures McStep(b, o) == (b, [])
  {
  }

  /** In every run of orders with something to trade, so does the next one: the laws above apply to it. */
  lemma RunMeets(orders: seq<BbOrder>, o: BbOrder)
    requires forall i :: 0 <= i < |orders| ==> Tradable(orders[i])
    requires IsNew(Run(orders), o, o.form) && Remaining(o) > 0.0
    ensures Good(Run(orders)) && Meets(Run(orders), o, o.form)
  {
    RunKeepsPositive(orders);
  }
}
