/** Two promises the Java-equivalent engine does not keep, and exactly when it keeps them. */
module McExceptions {
  import opened Common
  import opened HpTypes
  import opened McTypes
  import opened McBook
  import opened McSpec
  import opened McSweep
  import opened McRuns

  predicate IsNew(b: Sides, o: BbOrder, form: int) {
    !b.Has(o.no) && SideOf(o).Some? && o.status != STATUS_REVOKE && o.form == form
  }

  // ---------------------------------------------------------------- market orders that rest

  /** A market order with something to trade against, but behind a limit order of its own side. */
  predicate StuckBehind(b: Sides, o: BbOrder)
    requires SideOf(o).Some?
  {
    var side := SideOf(o).value;
    var mine := b.Of(side);
    && b.Of(Opposite(side)) != [] && mine != [] && mine[0].form != FORM_MARKET
    && !Precedes(side, AtMarket(side, o), mine[0])
  }

  /** The order a market order is queued as: a buy at the largest 32-bit number. */
  function AtMarket(side: Side, o: BbOrder): BbOrder {
    o.(price := if side == Buy then 2147483647.0 else o.price)
  }

  /** A market order is left on the book exactly when it arrives behind a non-market order of its side. */
  lemma MarketRestsIff(b: Sides, o: BbOrder)
    requires Good(b) && IsNew(b, o, FORM_MARKET)
    ensures McStep(b, o).0.Has(o.no) <==> StuckBehind(b, o)
  {
    hide Sweep, InsertSorted, HasNo, Precedes, Good;
    var side := SideOf(o).value;
    var t := MarketOrder(side, o);
    var opp := b.Of(Opposite(side));
    if StuckBehind(b, o) {
      NotOnSide(b, o, side);
      RemoveInserted(side, b.Of(side), t);
    } else if opp != [] && (b.Of(side) == [] || Precedes(side, t, b.Of(side)[0])) {
      SweepTail(side, t, opp, Geared(GearOf(o)));
      TailKeeps(b, Opposite(side), Sweep(side, t, opp, Geared(GearOf(o))).rest);
    }
  }

  lemma NotOnSide(b: Sides, o: BbOrder, side: Side)
    requires !b.Has(o.no)
    ensures !HasNo(b.Of(side), o.no)
  {
  }

  function Plain(orderType: int, no: string, form: int, qty: real, price: real, time: int): BbOrder {
    BbOrder(1, orderType, "s", no, form, None, 0, 0.0, 0.0, qty, price, qty, time)
  }

  lemma PlainFields(orderType: int, no: string, form: int, qty: real, price: real, time: int)
    ensures var o := Plain(orderType, no, form, qty, price, time);
      && SideOf(o) == (if orderType == 1 then Some(Buy) else if orderType == 2 then Some(Sell) else None)
      && o.no == no && o.form == form && o.price == price && o.createTime == time && Remaining(o) == qty
      && o.status != STATUS_REVOKE
  {
  }

  lemma RunTwo(a: BbOrder, c: BbOrder)
    ensures Run([a, c]) == McStep(McStep(Sides([], []), a).0, c).0
  {
    hide McStep;
    assert [a, c][..1] == [a] && [a][..0] == [];
    assert Run([a]) == McStep(Run([a][..0]), a).0;
    assert Run([a, c]) == McStep(Run([a, c][..1]), c).0;
  }

  /** A limit order that reaches nothing goes to its place on its side. */
  lemma LimitRests(b: Sides, o: BbOrder, side: Side)
    requires IsNew(b, o, FORM_LIMIT) && SideOf(o) == Some(side)
    requires b.Of(Opposite(side)) == [] || !Reaches(side, o.price, b.Of(Opposite(side))[0].price)
    ensures McStep(b, o).0 == b.With(side, InsertSorted(side, b.Of(side), o))
  {
    SweepStopped(side, o, b.Of(Opposite(side)), Priced);
  }

  /** A sell at 4, a buy at 3, then a market sell carrying the price 5: it stays on the book. */
  lemma MarketRestsExample()
    ensures var a, c := Plain(2, "a", FORM_LIMIT, 1.0, 4.0, 1), Plain(1, "c", FORM_LIMIT, 1.0, 3.0, 2);
      var o := Plain(2, "o", FORM_MARKET, 1.0, 5.0, 3);
      IsNew(Run([a, c]), o, FORM_MARKET) && McStep(Run([a, c]), o).0.Has(o.no)
  {
    var a, c := Plain(2, "a", FORM_LIMIT, 1.0, 4.0, 1), Plain(1, "c", FORM_LIMIT, 1.0, 3.0, 2);
    var o := Plain(2, "o", FORM_MARKET, 1.0, 5.0, 3);
    hide McStep, Run;
    RunTwo(a, c);
    LimitRests(Sides([], []), a, Sell);
    LimitRests(Sides([], [a]), c, Buy);
    assert Run([a, c]) == Sides([c], [a]);
    MarketRestsIff(Run([a, c]), o);
  }

  // ---------------------------------------------------------------- statuses of a FOK order

  /** Both statuses say done exactly when nothing is left. */
  predicate StatusAgrees(e: MatchEvent) {
    e.McFill? ==>
      && e.takerStatus == (if e.takerRemaining > 0.0 then STATUS_PART else STATUS_SUCCESS)
      && e.makerStatus == (if e.makerRemaining > 0.0 then STATUS_PART else STATUS_SUCCESS)
  }

  function SumRemaining(s: seq<BbOrder>): real {
    if s == [] then 0.0 else Remaining(s[0]) + SumRemaining(s[1..])
  }

  /** The first `k` opposite orders add up to exactly what the taker wants. */
  predicate AddsUp(taker: BbOrder, opp: seq<BbOrder>, k: nat) {
    k <= |opp| && SumRemaining(opp[..k]) == Remaining(taker)
  }

  predicate BothDone(e: MatchEvent) {
    e.McFill? && e.takerStatus == STATUS_SUCCESS && e.makerStatus == STATUS_SUCCESS
  }

  lemma SumFront(s: seq<BbOrder>, k: nat)
    requires 1 <= k <= |s|
    ensures SumRemaining(s[..k]) == Remaining(s[0]) + SumRemaining(s[1..][..k - 1])
  {
    assert s[..k][1..] == s[1..][..k - 1];
  }

  lemma {:induction false} SumNonNegative(s: seq<BbOrder>)
    requires AllPositive(s)
    ensures SumRemaining(s) >= 0.0 && (s != [] ==> SumRemaining(s) > 0.0)
  {
    if s != [] {
      SumNonNegative(s[1..]);
    }
  }

  /** A complete sweep ends exactly on its last maker precisely when the makers it took add up to the order. */
  lemma {:induction false} SweepEndsExactly(side: Side, taker: BbOrder, opp: seq<BbOrder>, k: nat)
    requires AllPositive(opp) && Remaining(taker) > 0.0 && Sweep(side, taker, opp, Priced).taker == None
    ensures var fills := Sweep(side, taker, opp, Priced).fills;
      && fills != [] && |fills| <= |opp|
      && (AddsUp(taker, opp, k) ==> k == |fills| && BothDone(fills[|fills| - 1]))
      && (BothDone(fills[|fills| - 1]) ==> AddsUp(taker, opp, |fills|))
    decreases |opp|
  {
    hide Sweep;
    if StopsAt(side, taker, opp, Priced) {
      SweepStopped(side, taker, opp, Priced);
    }
    SweepOnce(side, taker, opp, Priced);
    var t, m := Remaining(taker), Remaining(opp[0]);
    var fills := Sweep(side, taker, opp, Priced).fills;
    assert SumRemaining(opp[..0]) == 0.0;
    if 1 <= k <= |opp| {
      SumFront(opp, k);
      SumNonNegative(opp[1..][..k - 1]);
    }
    if t > m {
      var t' := TakerAfter(taker, m);
      SweepEndsExactly(side, t', opp[1..], if k == 0 then 0 else k - 1);
      var rest := Sweep(side, t', opp[1..], Priced).fills;
      assert fills == [fills[0]] + rest && fills[|fills| - 1] == rest[|rest| - 1];
      SumFront(opp, |fills|);
    } else {
      SumFront(opp, 1);
      assert SumRemaining(opp[1..][..0]) == 0.0;
    }
  }

  /**
   Every status a filled FOK order reports agrees with what is left, if and only if no two or more
   of the best opposite orders add up to exactly its size.
   */
  lemma FokStatusesIff(b: Sides, o: BbOrder)
    requires Good(b) && IsNew(b, o, FORM_FOK) && Remaining(o) > 0.0
    requires AllPositive(b.Of(Opposite(SideOf(o).value)))
    requires CrossingLiquidity(SideOf(o).value, o.price, b.Of(Opposite(SideOf(o).value))) >= Remaining(o)
    ensures (forall i :: 0 <= i < |McStep(b, o).1| ==> StatusAgrees(McStep(b, o).1[i]))
            <==> !exists k :: 2 <= k && AddsUp(o, b.Of(Opposite(SideOf(o).value)), k)
  {
    hide Sweep, AddsUp, Good, CrossingLiquidity, AllPositive, McStep, WalkFills;
    var side := SideOf(o).value;
    var opp := b.Of(Opposite(side));
    var fills := Sweep(side, o, opp, Priced).fills;
    assert SortedSide(Opposite(side), opp) by { SideSorted(b, Opposite(side)); }
    SweepVolume(side, o, opp);
    forall k | 2 <= k && AddsUp(o, opp, k) ensures k == |fills| && BothDone(fills[|fills| - 1]) {
      SweepEndsExactly(side, o, opp, k);
    }
    SweepEndsExactly(side, o, opp, 0);
    WalkStatuses(side, o, opp);
    FokFills(b, o);
    var es := McStep(b, o).1;
    assert |es| == |fills| && (|fills| >= 2 ==> es == WalkFills(fills));
    assert (exists k :: 2 <= k && AddsUp(o, opp, k)) <==> |fills| >= 2 && BothDone(fills[|fills| - 1]);
    if |fills| == 1 {
      forall i | 0 <= i < |fills| ensures StatusAgrees(fills[i]) {
        SweepReports(side, o, opp, Priced, i);
      }
    }
  }

  lemma SideSorted(b: Sides, side: Side)
    requires Good(b)
    ensures SortedSide(side, b.Of(side))
  {
  }

  /** The walk misreports a fill exactly when the last one finishes both sides. */
  lemma WalkStatuses(side: Side, o: BbOrder, opp: seq<BbOrder>)
    requires Sweep(side, o, opp, Priced).fills != [] && Sweep(side, o, opp, Priced).taker == None
    ensures var fills := Sweep(side, o, opp, Priced).fills;
      (forall i :: 0 <= i < |fills| ==> StatusAgrees(WalkFills(fills)[i])) <==> !BothDone(fills[|fills| - 1])
  {
    hide Sweep;
    var fills := Sweep(side, o, opp, Priced).fills;
    var n := |fills| - 1;
    forall i | 0 <= i <= n ensures StatusAgrees(fills[i]) && (i < n ==> !BothDone(fills[i])) {
      SweepReports(side, o, opp, Priced, i);
    }
    forall i | 0 <= i <= n ensures StatusAgrees(WalkFills(fills)[i]) <==> !BothDone(fills[i]) {
      assert WalkFills(fills)[i] == WalkFill(fills[i]);
    }
  }

  /** Two sells of one lot and a FOK buy of two: the last fill leaves nothing but reports the buy partly filled. */
  lemma FokStatusExample()
    ensures var a, c := Plain(2, "a", FORM_LIMIT, 1.0, 4.0, 1), Plain(2, "c", FORM_LIMIT, 1.0, 4.0, 2);
      ExactFillMisreported(Run([a, c]), Plain(1, "o", FORM_FOK, 2.0, 4.0, 3))
  {
    hide ExactFillMisreported, McStep, Run, Sweep, InsertSorted, Plain, SideOf, Remaining;
    PlainFields(2, "a", FORM_LIMIT, 1.0, 4.0, 1);
    PlainFields(2, "c", FORM_LIMIT, 1.0, 4.0, 2);
    PlainFields(1, "o", FORM_FOK, 2.0, 4.0, 3);
    var a, c := Plain(2, "a", FORM_LIMIT, 1.0, 4.0, 1), Plain(2, "c", FORM_LIMIT, 1.0, 4.0, 2);
    assert "a" != "c" && "a" != "o" && "c" != "o" by {
      assert "a"[0] != "c"[0] && "a"[0] != "o"[0] && "c"[0] != "o"[0];
    }
    TwoSells(a, c, Plain(1, "o", FORM_FOK, 2.0, 4.0, 3));
  }

  predicate ExactFillMisreported(b: Sides, o: BbOrder) {
    var es := McStep(b, o).1;
    |es| == 2 && es[1].McFill? && es[1].takerRemaining == 0.0 && es[1].takerStatus == STATUS_PART
  }

  lemma TwoSells(a: BbOrder, c: BbOrder, o: BbOrder)
    requires SideOf(a) == Some(Sell) && SideOf(c) == Some(Sell) && SideOf(o) == Some(Buy)
    requires a.form == FORM_LIMIT && c.form == FORM_LIMIT && o.form == FORM_FOK
    requires a.status != STATUS_REVOKE && c.status != STATUS_REVOKE && o.status != STATUS_REVOKE
    requires a.no != c.no && a.no != o.no && c.no != o.no && a.createTime < c.createTime
    requires a.price == c.price == o.price && Remaining(a) == 1.0 && Remaining(c) == 1.0 && Remaining(o) == 2.0
    ensures ExactFillMisreported(Run([a, c]), o)
  {
    hide McStep, Run, Sweep, InsertSorted;
    RunTwo(a, c);
    LimitRests(Sides([], []), a, Sell);
    assert InsertSorted(Sell, [], a) == [a] by { InsertFirst(a); }
    LimitRests(Sides([], [a]), c, Sell);
    InsertSecond(a, c);
    TwoFills(a, c, o);
    FokFills(Sides([], [a, c]), o);
  }

  lemma InsertFirst(a: BbOrder)
    ensures InsertSorted(Sell, [], a) == [a]
  {
  }

  lemma InsertSecond(a: BbOrder, c: BbOrder)
    requires !Precedes(Sell, c, a)
    ensures InsertSorted(Sell, [a], c) == [a, c]
  {
    assert [a][1..] == [];
  }

  lemma TwoFills(a: BbOrder, c: BbOrder, o: BbOrder)
    requires a.price == c.price == o.price && Remaining(a) == 1.0 && Remaining(c) == 1.0 && Remaining(o) == 2.0
    ensures Sweep(Buy, o, [a, c], Priced) == Swept(None, [], [FillOf(o, a), FillOf(TakerAfter(o, 1.0), c)])
  {
    hide Sweep;
    assert [a, c][1..] == [c] && [c][1..] == [];
    var t' := TakerAfter(o, 1.0);
    SweepOnce(Buy, t', [c], Priced);
    SweepOnce(Buy, o, [a, c], Priced);
  }

  lemma FokFills(b: Sides, o: BbOrder)
    requires IsNew(b, o, FORM_FOK)
    ensures var sw := Sweep(SideOf(o).value, o, b.Of(Opposite(SideOf(o).value)), Priced);
      sw.taker == None ==> McStep(b, o).1 == if |sw.fills| == 1 then sw.fills else WalkFills(sw.fills)
  {
    hide Sweep;
  }
}
