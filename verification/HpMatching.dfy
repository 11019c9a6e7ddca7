/** What a match does to the book, for every book, taker, limit and fill budget. */
module HpMatching {
  import opened Common
  import opened HpTypes
  import opened PriceTime
  import opened HpLevels

  /** Lots of order `id` traded as maker. */
  ghost function Traded(fills: seq<HpEvent>, id: nat): int {
    if fills == [] then 0
    else (if fills[0].Fill? && fills[0].makerId == id then fills[0].qtyLot else 0) + Traded(fills[1..], id)
  }

  ghost function TotalTraded(fills: seq<HpEvent>): int {
    if fills == [] then 0
    else (if fills[0].Fill? then fills[0].qtyLot else 0) + TotalTraded(fills[1..])
  }

  /** The book with every order's traded lots taken off and the depleted orders gone. */
  ghost function Settle(s: seq<HpOrder>, fills: seq<HpEvent>): seq<HpOrder> {
    if s == [] then []
    else
      var o := s[|s| - 1];
      var left := o.openLot - Traded(fills, o.id);
      Settle(s[..|s| - 1], fills) + (if left > 0 then [o.(openLot := left)] else [])
  }

  lemma BestMaker(s: seq<HpOrder>, taker: HpOrder, limit: Option<int>, open: int, budget: Option<nat>)
    returns (maker: HpOrder)
    requires PositiveOpen(s) && !Stops(s, taker.side, limit, open, budget)
    ensures Best(s, Opposite(taker.side)) == Some(maker) && open > 0 && maker.openLot > 0
    ensures maker in s && maker.side == Opposite(taker.side) && Crosses(taker.side, maker.priceTick, limit)
  {
    hide Best, Ticks, AtLevel, BestTick;
    var side := Opposite(taker.side);
    maker := Best(s, side).value;
    BestTickUnique(Ticks(s, side), side, maker.priceTick);
  }

  lemma MatchInduct(s: seq<HpOrder>, taker: HpOrder, limit: Option<int>, open: int, budget: Option<nat>)
    returns (maker: HpOrder, qty: int, s': seq<HpOrder>, budget': Option<nat>)
    requires PositiveOpen(s) && !Stops(s, taker.side, limit, open, budget)
    ensures Best(s, Opposite(taker.side)) == Some(maker)
    ensures maker in s && maker.side == Opposite(taker.side) && Crosses(taker.side, maker.priceTick, limit)
    ensures qty == Min(maker.openLot, open) && qty > 0 && s' == Reduce(s, maker, qty)
    ensures PositiveOpen(s') && |s'| <= |s| && (|s'| < |s| || open - qty < open)
    ensures budget' == Spend(budget, if budget == None then 0 else 1)
    ensures Match(s, taker, limit, open, budget)
         == Prepend([FillEvent(maker, taker, open)], Match(s', taker, limit, open - qty, budget'))
  {
    hide Match, Reduce, Prepend, FillEvent, PositiveOpen, Best;
    maker := BestMaker(s, taker, limit, open, budget);
    qty := Min(maker.openLot, open);
    s' := Reduce(s, maker, qty);
    budget' := Spend(budget, if budget == None then 0 else 1);
    MatchContinues(s, taker, limit, open, budget, maker);
  }

  lemma OpenGone(s: seq<HpOrder>, side: Side, limit: Option<int>, open: int, budget: Option<nat>)
    requires open <= 0
    ensures Stops(s, side, limit, open, budget)
  {
  }

  /** Every lot the taker gave up was traded; the taker never goes below zero. */
  lemma {:induction false} MatchConserves(s: seq<HpOrder>, taker: HpOrder, limit: Option<int>, open: int,
      budget: Option<nat>)
    requires PositiveOpen(s)
    ensures var m := Match(s, taker, limit, open, budget);
      && TotalTraded(m.fills) + m.open == open
      && (open >= 0 ==> 0 <= m.open <= open)
      && (forall i :: 0 <= i < |m.fills| ==> m.fills[i].Fill? && m.fills[i].qtyLot > 0)
      && (budget.Some? ==> |m.fills| <= budget.value)
    decreases |s|, open
  {
    hide Match, Stops, Reduce, PositiveOpen;
    if Stops(s, taker.side, limit, open, budget) {
      MatchStops(s, taker, limit, open, budget);
    } else {
      var maker, qty, s', budget' := MatchInduct(s, taker, limit, open, budget);
      MatchConserves(s', taker, limit, open - qty, budget');
      var fills := Match(s', taker, limit, open - qty, budget').fills;
      assert ([FillEvent(maker, taker, open)] + fills)[1..] == fills;
    }
  }

  lemma ReduceKeepsMaker(s: seq<HpOrder>, maker: HpOrder, qty: int)
    requires maker in s && qty < maker.openLot
    ensures maker.(openLot := maker.openLot - qty) in Reduce(s, maker, qty)
  {
    var i :| 0 <= i < |s| && s[i] == maker;
    assert Reduce(s, maker, qty)[i] == maker.(openLot := maker.openLot - qty);
  }

  lemma {:induction false} ReduceMembers(s: seq<HpOrder>, maker: HpOrder, qty: int)
    requires DistinctIds(s) && maker in s
    ensures DistinctIds(Reduce(s, maker, qty))
    ensures forall o :: o in Reduce(s, maker, qty) && o.id != maker.id ==> o in s
    ensures forall o :: o in s && o.id != maker.id ==> o in Reduce(s, maker, qty)
    ensures forall o :: o in Reduce(s, maker, qty) && o.id == maker.id ==>
      qty < maker.openLot && o == maker.(openLot := maker.openLot - qty)
  {
    var s' := Reduce(s, maker, qty);
    WithoutDistinct(s, maker.id);
    WithoutMembers(s, maker.id);
    if maker.openLot - qty > 0 {
      forall o | o in s' ensures o.id != maker.id ==> o in s
        ensures o.id == maker.id ==> o == maker.(openLot := maker.openLot - qty)
      {
        var i :| 0 <= i < |s'| && s'[i] == o;
        SameIdSameOrder(s, s[i], maker);
      }
      forall o | o in s && o.id != maker.id ensures o in s' {
        var i :| 0 <= i < |s| && s[i] == o;
        assert s'[i] == o;
      }
    }
  }

  /** Makers come from the book. */
  lemma {:induction false} MakersAreMembers(s: seq<HpOrder>, taker: HpOrder, limit: Option<int>, open: int,
      budget: Option<nat>, id: nat)
    requires PositiveOpen(s) && DistinctIds(s) && (forall o :: o in s ==> o.id != id)
    ensures Traded(Match(s, taker, limit, open, budget).fills, id) == 0
    decreases |s|, open
  {
    hide Match, Reduce, Best, DistinctIds, PositiveOpen, Stops, Settle;
    if Stops(s, taker.side, limit, open, budget) {
      MatchStops(s, taker, limit, open, budget);
    } else {
      var maker, qty, s', budget' := MatchInduct(s, taker, limit, open, budget);
      ReduceMembers(s, maker, qty);
      MakersAreMembers(s', taker, limit, open - qty, budget', id);
    }
  }

  lemma {:induction false} SettleNothing(s: seq<HpOrder>)
    requires PositiveOpen(s)
    ensures Settle(s, []) == s
  {
    if s != [] {
      var n := |s| - 1;
      SettleNothing(s[..n]);
      assert s[n].(openLot := s[n].openLot - 0) == s[n];
      assert s == s[..n] + [s[n]];
    }
  }

  lemma {:induction false} SettleFirst(s: seq<HpOrder>, maker: HpOrder, f: HpEvent, rest: seq<HpEvent>)
    requires DistinctIds(s) && f.Fill? && f.makerId == maker.id && 0 < f.qtyLot <= maker.openLot
    requires forall o :: o in s && o.id == maker.id ==> o == maker
    requires f.qtyLot == maker.openLot ==> Traded(rest, maker.id) == 0
    ensures Settle(s, [f] + rest) == Settle(Reduce(s, maker, f.qtyLot), rest)
  {
    hide Settle, Reduce, DistinctIds;
    if s != [] {
      var n := |s| - 1;
      var o, init := s[n], s[..n];
      assert s == init + [o];
      assert DistinctIds(init) by { InitDistinct(s); }
      SettleFirst(init, maker, f, rest);
      SettleSnoc(init, o, [f] + rest);
      assert ([f] + rest)[1..] == rest;
      ReduceSnoc(init, o, maker, f.qtyLot);
      var left := maker.openLot - f.qtyLot;
      if o.id != maker.id {
        SettleSnoc(Reduce(init, maker, f.qtyLot), o, rest);
      } else {
        assert o == maker;
        assert Traded([f] + rest, maker.id) == f.qtyLot + Traded(rest, maker.id);
        if left > 0 {
          SettleSnoc(Reduce(init, maker, f.qtyLot), o.(openLot := left), rest);
        } else {
          assert Reduce(init, maker, f.qtyLot) + [] == Reduce(init, maker, f.qtyLot);
        }
      }
    } else {
      assert Reduce(s, maker, f.qtyLot) == [] by { ReduceNothing(maker, f.qtyLot); }
      assert Settle([], rest) == Settle([], [f] + rest) by { SettleEmpty(rest, [f] + rest); }
    }
  }

  lemma SettleEmpty(a: seq<HpEvent>, b: seq<HpEvent>)
    ensures Settle([], a) == Settle([], b)
  {
  }

  lemma ReduceNothing(maker: HpOrder, qty: int)
    ensures Reduce([], maker, qty) == []
  {
  }

  lemma InitDistinct(s: seq<HpOrder>)
    requires DistinctIds(s) && s != []
    ensures DistinctIds(s[..|s| - 1])
  {
  }

  lemma SettleSnoc(s: seq<HpOrder>, o: HpOrder, fills: seq<HpEvent>)
    ensures var left := o.openLot - Traded(fills, o.id);
            Settle(s + [o], fills) == if left > 0 then Settle(s, fills) + [o.(openLot := left)] else Settle(s, fills)
  {
    assert (s + [o])[..|s|] == s;
  }

  /** Reducing a book order by order: the maker shrinks or goes, the others stay. */
  lemma ReduceSnoc(s: seq<HpOrder>, o: HpOrder, maker: HpOrder, qty: int)
    ensures var left := maker.openLot - qty;
            Reduce(s + [o], maker, qty)
            == Reduce(s, maker, qty)
               + (if o.id != maker.id then [o] else if left > 0 then [o.(openLot := left)] else [])
  {
    assert (s + [o])[..|s|] == s;
  }

  /**
   The book after a match, in closed form: arrival order is kept, each order loses exactly
   the lots its fills report, and exactly the depleted orders are gone.
   */
  lemma {:induction false} MatchSettles(s: seq<HpOrder>, taker: HpOrder, limit: Option<int>, open: int,
      budget: Option<nat>)
    requires PositiveOpen(s) && DistinctIds(s)
    ensures var m := Match(s, taker, limit, open, budget); m.orders == Settle(s, m.fills)
    decreases |s|, open
  {
    hide Match, Reduce, Best, DistinctIds, PositiveOpen, Stops, Settle;
    if Stops(s, taker.side, limit, open, budget) {
      MatchStops(s, taker, limit, open, budget);
      SettleNothing(s);
    } else {
      var maker, qty, s', budget' := MatchInduct(s, taker, limit, open, budget);
      ReduceMembers(s, maker, qty);
      MatchSettles(s', taker, limit, open - qty, budget');
      var rest := Match(s', taker, limit, open - qty, budget').fills;
      if qty == maker.openLot {
        MakersAreMembers(s', taker, limit, open - qty, budget', maker.id);
      }
      UniqueById(s, maker);
      SettleFirst(s, maker, FillEvent(maker, taker, open), rest);
    }
  }

  // ---------------------------------------------------------------- price-time priority

  /** Order `x` arrived before order `y`. */
  ghost predicate Before(s: seq<HpOrder>, x: nat, y: nat) {
    exists i, j :: 0 <= i < j < |s| && s[i].id == x && s[j].id == y
  }

  lemma {:induction false} BeforeLifts(s: seq<HpOrder>, maker: HpOrder, qty: int, x: nat, y: nat)
    requires DistinctIds(s) && maker in s && Before(Reduce(s, maker, qty), x, y)
    ensures Before(s, x, y)
  {
    hide Without, DistinctIds;
    var s' := Reduce(s, maker, qty);
    var i, j :| 0 <= i < j < |s'| && s'[i].id == x && s'[j].id == y;
    if maker.openLot - qty <= 0 {
      var k :| 0 <= k < |s| && s[k] == maker;
      WithoutAt(s, k);
      var i', j' := if i < k then i else i + 1, if j < k then j else j + 1;
      assert s[i'].id == x && s[j'].id == y;
    } else {
      assert s[i].id == x && s[j].id == y;
    }
  }

  /** The first order of a filter precedes every other order that passes it. */
  lemma {:induction false} FrontIsFirst(s: seq<HpOrder>, p: HpOrder -> bool, o: HpOrder)
    requires DistinctIds(s) && o in s && p(o)
    ensures Filter(s, p) != []
    ensures o != Filter(s, p)[0] ==> Before(s, Filter(s, p)[0].id, o.id)
  {
    FilterMembers(s, p);
    var n := |s| - 1;
    var f := Filter(s[..n], p);
    if f == [] {
      FilterMembers(s[..n], p);
      assert s[n] == o;
    } else if o == s[n] {
      FilterMembers(s[..n], p);
      assert f[0] in f && f[0] in s[..n];
      var i :| 0 <= i < n && s[i] == f[0];
      assert s[i].id == f[0].id && s[n].id == o.id;
    } else {
      FrontIsFirst(s[..n], p, o);
      if o != f[0] {
        var i, j :| 0 <= i < j < n && s[..n][i].id == f[0].id && s[..n][j].id == o.id;
        assert s[i].id == f[0].id && s[j].id == o.id;
      }
    }
  }

  lemma BestBeatsAll(s: seq<HpOrder>, side: Side, maker: HpOrder, a: HpOrder)
    requires DistinctIds(s) && Best(s, side) == Some(maker) && a in s && a.side == side
    ensures !Better(side, a.priceTick, maker.priceTick)
    ensures a.priceTick == maker.priceTick && a != maker ==> Before(s, maker.id, a.id)
  {
    assert a.priceTick in Ticks(s, side);
    if a.priceTick == maker.priceTick && a != maker {
      FrontIsFirst(s, LevelPred(side, maker.priceTick), a);
    }
  }

  /** An order of the final book is an order of the initial one, perhaps with fewer open lots. */
  lemma {:induction false} SettleMembers(s: seq<HpOrder>, fills: seq<HpEvent>, a: HpOrder)
    requires a in Settle(s, fills)
    ensures exists o :: o in s && a == o.(openLot := a.openLot) && a.openLot == o.openLot - Traded(fills, o.id)
    ensures a.openLot > 0
  {
    var n := |s| - 1;
    if a in Settle(s[..n], fills) {
      SettleMembers(s[..n], fills, a);
      var o :| o in s[..n] && a == o.(openLot := a.openLot) && a.openLot == o.openLot - Traded(fills, o.id);
      assert o in s;
    } else {
      assert s[n] in s;
    }
  }

  /**
   Price-time priority: no order still resting after the match had a better price than any
   maker that traded, nor the same price and an earlier arrival.
   */
  lemma {:induction false} MatchPriority(s: seq<HpOrder>, taker: HpOrder, limit: Option<int>, open: int,
      budget: Option<nat>, k: nat, a: HpOrder)
    requires PositiveOpen(s) && DistinctIds(s)
    requires k < |Match(s, taker, limit, open, budget).fills|
    requires a in Match(s, taker, limit, open, budget).orders && a.side == Opposite(taker.side)
    ensures var f := Match(s, taker, limit, open, budget).fills[k];
      && f.Fill?
      && Crosses(taker.side, f.priceTick, limit)
      && !Better(a.side, a.priceTick, f.priceTick)
      && (a.priceTick == f.priceTick && a.id != f.makerId ==> Before(s, f.makerId, a.id))
    decreases |s|, open
  {
    hide Match, Reduce, Best, DistinctIds, PositiveOpen, Stops, Settle, Before;
    if Stops(s, taker.side, limit, open, budget) {
      MatchStops(s, taker, limit, open, budget);
      assert false;
    } else {
      var maker, qty, s', budget' := MatchInduct(s, taker, limit, open, budget);
      var m := Match(s, taker, limit, open, budget);
      if k == 0 {
        MatchSettles(s, taker, limit, open, budget);
        SettleMembers(s, m.fills, a);
        var o :| o in s && a == o.(openLot := a.openLot);
        BestBeatsAll(s, a.side, maker, o);
      } else {
        ReduceMembers(s, maker, qty);
        MatchPriority(s', taker, limit, open - qty, budget', k - 1, a);
        var f := m.fills[k];
        if a.priceTick == f.priceTick && a.id != f.makerId {
          BeforeLifts(s, maker, qty, f.makerId, a.id);
        }
      }
    }
  }

  // ---------------------------------------------------------------- how much trades

  ghost function CrossPred(side: Side, limit: Option<int>): HpOrder -> bool {
    (o: HpOrder) => o.side == Opposite(side) && Crosses(side, o.priceTick, limit)
  }

  /** Open lots a taker on `side` bounded by `limit` could trade. */
  ghost function Liquidity(s: seq<HpOrder>, side: Side, limit: Option<int>): int {
    SumOpen(Filter(s, CrossPred(side, limit)))
  }

  lemma LiquidityAfter(s: seq<HpOrder>, side: Side, limit: Option<int>, maker: HpOrder, qty: int)
    requires DistinctIds(s) && maker in s && CrossPred(side, limit)(maker)
    requires 0 < qty <= maker.openLot
    ensures Liquidity(Reduce(s, maker, qty), side, limit) == Liquidity(s, side, limit) - qty
  {
    hide Filter, Without, WithOpen, SumOpen;
    var p := CrossPred(side, limit);
    FilterMembers(s, p);
    FilterDistinct(s, p);
    if maker.openLot - qty > 0 {
      FilterWithOpen(s, p, maker.id, maker.openLot - qty);
      SumWithOpen(Filter(s, p), maker, maker.openLot - qty);
    } else {
      FilterWithout(s, p, maker.id);
      SumWithout(Filter(s, p), maker);
    }
  }

  lemma NoneCross(s: seq<HpOrder>, side: Side, limit: Option<int>)
    requires var best := BestTick(Ticks(s, Opposite(side)), Opposite(side));
      best == None || !Crosses(side, best.value, limit)
    ensures Filter(s, CrossPred(side, limit)) == []
  {
    forall o | o in s && o.side == Opposite(side) ensures !Crosses(side, o.priceTick, limit) {
      assert o.priceTick in Ticks(s, Opposite(side));
    }
    FilterNone(s, CrossPred(side, limit));
  }

  lemma {:induction false} FilterNone(s: seq<HpOrder>, p: HpOrder -> bool)
    requires forall o :: o in s ==> !p(o)
    ensures Filter(s, p) == []
  {
    if s != [] {
      FilterNone(s[..|s| - 1], p);
    }
  }

  /** With no fill budget a taker trades exactly the smaller of its size and the crossing liquidity. */
  lemma {:induction false} MatchVolume(s: seq<HpOrder>, taker: HpOrder, limit: Option<int>, open: int)
    requires PositiveOpen(s) && DistinctIds(s) && open >= 0
    ensures TotalTraded(Match(s, taker, limit, open, None).fills) == Min(open, Liquidity(s, taker.side, limit))
    decreases |s|, open
  {
    hide Match, Reduce, Best, DistinctIds, PositiveOpen, BestTick;
    var p := CrossPred(taker.side, limit);
    LiquidityNonNegative(s, taker.side, limit);
    if Stops(s, taker.side, limit, open, None) {
      MatchStops(s, taker, limit, open, None);
      if open > 0 {
        NoneCross(s, taker.side, limit);
      }
    } else {
      var maker, qty, s', budget' := MatchInduct(s, taker, limit, open, None);
      ReduceMembers(s, maker, qty);
      LiquidityAfter(s, taker.side, limit, maker, qty);
      LiquidityNonNegative(s', taker.side, limit);
      MatchVolume(s', taker, limit, open - qty);
    }
  }

  lemma LiquidityNonNegative(s: seq<HpOrder>, side: Side, limit: Option<int>)
    requires PositiveOpen(s)
    ensures Liquidity(s, side, limit) >= 0
  {
    var f := Filter(s, CrossPred(side, limit));
    FilterMembers(s, CrossPred(side, limit));
    forall i | 0 <= i < |f| ensures f[i].openLot > 0 {
      assert f[i] in f;
    }
    SumNonNegative(f);
  }

  /** When an unbudgeted match leaves the taker open, nothing left on the other side crosses its limit. */
  lemma {:induction false} MatchExhausts(s: seq<HpOrder>, taker: HpOrder, limit: Option<int>, open: int,
      budget: Option<nat>)
    requires PositiveOpen(s)
    requires var m := Match(s, taker, limit, open, budget);
      m.open > 0 && (budget.Some? ==> |m.fills| < budget.value)
    ensures Filter(Match(s, taker, limit, open, budget).orders, CrossPred(taker.side, limit)) == []
    decreases |s|, open
  {
    hide Match, Reduce, Best, PositiveOpen, BestTick, CrossPred;
    if Stops(s, taker.side, limit, open, budget) {
      MatchStops(s, taker, limit, open, budget);
      NoneCross(s, taker.side, limit);
    } else {
      var maker, qty, s', budget' := MatchInduct(s, taker, limit, open, budget);
      MatchExhausts(s', taker, limit, open - qty, budget');
    }
  }

  /** No fill is split: each finishes its maker or the taker, and all but the last finish their makers. */
  lemma {:induction false} FillsFinish(s: seq<HpOrder>, taker: HpOrder, limit: Option<int>, open: int,
      budget: Option<nat>, k: nat)
    requires PositiveOpen(s) && k < |Match(s, taker, limit, open, budget).fills|
    ensures var fills := Match(s, taker, limit, open, budget).fills;
      && fills[k].Fill? && (fills[k].makerOpen == 0 || fills[k].takerOpen == 0)
      && (k + 1 < |fills| ==> fills[k].makerOpen == 0 && fills[k].takerOpen > 0)
    decreases |s|, open
  {
    hide Match, Reduce, Best, PositiveOpen, BestTick, Stops;
    if Stops(s, taker.side, limit, open, budget) {
      MatchStops(s, taker, limit, open, budget);
    }
    var maker, qty, s', budget' := MatchInduct(s, taker, limit, open, budget);
    var rest := Match(s', taker, limit, open - qty, budget').fills;
    if k > 0 {
      FillsFinish(s', taker, limit, open - qty, budget', k - 1);
    } else if open - qty == 0 {
      OpenGone(s', taker.side, limit, 0, budget');
      MatchStops(s', taker, limit, 0, budget');
    }
  }

  /** The fill of order `o` as the `k`-th of `fills`: every field, from the books before and the fills so far. */
  ghost predicate ReportsTrade(s: seq<HpOrder>, taker: HpOrder, open: int, fills: seq<HpEvent>, k: nat, o: HpOrder)
    requires k < |fills|
  {
    && o in s && o.side == Opposite(taker.side) && fills[k].Fill?
    && fills[k] == Fill(o.id, taker.id, o.clientId, taker.clientId, o.priceTick, fills[k].qtyLot,
                        o.openLot - Traded(fills[..k + 1], o.id), open - TotalTraded(fills[..k + 1]))
  }

  lemma ReportsLift(s: seq<HpOrder>, taker: HpOrder, open: int, e: HpEvent, rest: seq<HpEvent>, k: nat, o: HpOrder,
      o': HpOrder)
    requires k < |rest| && e.Fill? && ReportsTrade([o'], taker, open - e.qtyLot, rest, k, o')
    requires o in s && o == o'.(openLot := o.openLot)
    requires o.openLot == o'.openLot + (if e.makerId == o.id then e.qtyLot else 0)
    ensures ReportsTrade(s, taker, open, [e] + rest, k + 1, o)
  {
    var fills := [e] + rest;
    assert fills[..k + 2] == [e] + rest[..k + 1];
    assert ([e] + rest[..k + 1])[1..] == rest[..k + 1];
  }

  /** Every fill reports the maker it took, at that maker's price, and what each side has left at that point. */
  lemma {:induction false} FillsReport(s: seq<HpOrder>, taker: HpOrder, limit: Option<int>, open: int,
      budget: Option<nat>, k: nat)
    requires PositiveOpen(s) && DistinctIds(s) && k < |Match(s, taker, limit, open, budget).fills|
    ensures exists o :: ReportsTrade(s, taker, open, Match(s, taker, limit, open, budget).fills, k, o)
    decreases |s|, open
  {
    hide Match, Reduce, Best, DistinctIds, PositiveOpen, Stops, ReportsTrade;
    if Stops(s, taker.side, limit, open, budget) {
      MatchStops(s, taker, limit, open, budget);
    } else {
      var maker, qty, s', budget' := MatchInduct(s, taker, limit, open, budget);
      ReduceMembers(s, maker, qty);
      var e := FillEvent(maker, taker, open);
      var rest := Match(s', taker, limit, open - qty, budget').fills;
      if k == 0 {
        FirstReports(s, taker, open, maker, rest);
        assert ReportsTrade(s, taker, open, [e] + rest, 0, maker);
      } else {
        FillsReport(s', taker, limit, open - qty, budget', k - 1);
        var o' :| ReportsTrade(s', taker, open - qty, rest, k - 1, o');
        var o := BeforeFill(s, maker, qty, o', taker, open - qty, rest, k - 1);
        ReportsLift(s, taker, open, e, rest, k - 1, o, o');
      }
    }
  }

  lemma FirstReports(s: seq<HpOrder>, taker: HpOrder, open: int, maker: HpOrder, rest: seq<HpEvent>)
    requires maker in s && maker.side == Opposite(taker.side)
    ensures ReportsTrade(s, taker, open, [FillEvent(maker, taker, open)] + rest, 0, maker)
  {
    var e := FillEvent(maker, taker, open);
    assert ([e] + rest)[..1] == [e] && [e][1..] == [];
  }

  /** The record an order had before `qty` lots of the maker traded. */
  lemma BeforeFill(s: seq<HpOrder>, maker: HpOrder, qty: int, o': HpOrder, taker: HpOrder, open: int,
      rest: seq<HpEvent>, k: nat)
    returns (o: HpOrder)
    requires k < |rest| && ReportsTrade(Reduce(s, maker, qty), taker, open, rest, k, o') && maker in s
    requires forall x :: x in Reduce(s, maker, qty) && x.id != maker.id ==> x in s
    requires forall x :: x in Reduce(s, maker, qty) && x.id == maker.id ==>
      qty < maker.openLot && x == maker.(openLot := maker.openLot - qty)
    ensures o in s && o == o'.(openLot := o.openLot) && o.openLot == o'.openLot + (if maker.id == o.id then qty else 0)
    ensures ReportsTrade([o'], taker, open, rest, k, o')
  {
    hide Reduce;
    o := if o'.id == maker.id then maker else o';
  }

  /** Fills come in price-time order: each maker had priority over the makers filled after it. */
  lemma {:induction false} FillsSorted(s: seq<HpOrder>, taker: HpOrder, limit: Option<int>, open: int,
      budget: Option<nat>, j: nat, k: nat)
    requires PositiveOpen(s) && DistinctIds(s) && j < k < |Match(s, taker, limit, open, budget).fills|
    ensures var f, g := Match(s, taker, limit, open, budget).fills[j], Match(s, taker, limit, open, budget).fills[k];
      && f.Fill? && g.Fill? && f.makerId != g.makerId
      && !Better(Opposite(taker.side), g.priceTick, f.priceTick)
      && (f.priceTick == g.priceTick ==> Before(s, f.makerId, g.makerId))
    decreases |s|, open
  {
    hide Match, Reduce, Best, DistinctIds, PositiveOpen, Stops, ReportsTrade, Before, FillEvent;
    if Stops(s, taker.side, limit, open, budget) {
      MatchStops(s, taker, limit, open, budget);
    } else {
      var maker, qty, s', budget' := MatchInduct(s, taker, limit, open, budget);
      ReduceMembers(s, maker, qty);
      var rest := Match(s', taker, limit, open - qty, budget').fills;
      if j == 0 {
        LaterMaker(s, taker, limit, open, budget, maker, qty, s', budget', k - 1);
      } else {
        FillsSorted(s', taker, limit, open - qty, budget', j - 1, k - 1);
        if rest[j - 1].priceTick == rest[k - 1].priceTick {
          BeforeLifts(s, maker, qty, rest[j - 1].makerId, rest[k - 1].makerId);
        }
      }
    }
  }

  /** The first maker is used up before any other trades, and beats it. */
  lemma LaterMaker(s: seq<HpOrder>, taker: HpOrder, limit: Option<int>, open: int, budget: Option<nat>,
      maker: HpOrder, qty: int, s': seq<HpOrder>, budget': Option<nat>, k: nat)
    requires PositiveOpen(s) && DistinctIds(s) && PositiveOpen(s') && DistinctIds(s')
    requires Best(s, Opposite(taker.side)) == Some(maker)
    requires qty == Min(maker.openLot, open) && s' == Reduce(s, maker, qty)
    requires forall o :: o in s' && o.id != maker.id ==> o in s
    requires forall o :: o in s' && o.id == maker.id ==> qty < maker.openLot
    requires k < |Match(s', taker, limit, open - qty, budget').fills|
    ensures var f, g := FillEvent(maker, taker, open), Match(s', taker, limit, open - qty, budget').fills[k];
      && f.Fill? && g.Fill? && f.makerId != g.makerId
      && !Better(Opposite(taker.side), g.priceTick, f.priceTick)
      && (f.priceTick == g.priceTick ==> Before(s, f.makerId, g.makerId))
  {
    hide Match, Reduce, Best, DistinctIds, PositiveOpen, Before;
    if qty < maker.openLot {
      MatchStops(s', taker, limit, open - qty, budget');
    }
    FillsReport(s', taker, limit, open - qty, budget', k);
    var fills := Match(s', taker, limit, open - qty, budget').fills;
    var o :| ReportsTrade(s', taker, open - qty, fills, k, o);
    BestBeatsAll(s, Opposite(taker.side), maker, o);
  }
}
