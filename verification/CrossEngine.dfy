/**
 The two engines agree: converted order by order, a stream of limit and market orders
 gives the same trades in the Java-equivalent engine and in the tick/lot engine.
 */
module CrossEngine {
  import opened Common
  import opened HpTypes
  import opened PriceTime
  import opened HpLevels
  import opened HpMatching
  import opened McTypes
  import opened McBook
  import opened McSpec
  import opened McSweep
  import opened Adapter
  import opened Decimal

  /** One execution, in the units of the tick/lot engine. */
  datatype Trade = Trade(taker: Option<nat>, maker: Option<nat>, price: real, qty: real)

  /** Price and quantity multipliers of the symbol. */
  datatype Units = Units(p: real, q: real)

  function UnitsOf(scale: Conversion): Units {
    Units(Pow10(scale.priceScale) as real, Pow10(scale.qtyScale) as real)
  }

  function McTrade(e: MatchEvent, u: Units): Trade
    requires e.McFill?
  {
    Trade(ParseId(e.takerNo), ParseId(e.makerNo), e.price * u.p, e.qty * u.q)
  }

  function HpTrade(e: HpEvent): Trade
    requires e.Fill?
  {
    Trade(Some(e.takerClient), Some(e.makerClient), e.priceTick as real, e.qtyLot as real)
  }

  // ---------------------------------------------------------------- the linking relation

  /** A protocol order and a tick/lot order are the same resting order. */
  predicate Twin(o: BbOrder, h: HpOrder, u: Units) {
    && SideOf(o) == Some(h.side)
    && ParseId(o.no) == Some(h.clientId)
    && o.price * u.p == h.priceTick as real
    && Remaining(o) * u.q == h.openLot as real
    && o.createTime == h.ts
    && o.form != FORM_MARKET
  }

  ghost predicate HasTwin(o: BbOrder, s: seq<HpOrder>, u: Units) {
    exists h :: h in s && Twin(o, h, u)
  }

  ghost predicate TwinIn(h: HpOrder, os: seq<BbOrder>, u: Units) {
    exists i :: 0 <= i < |os| && Twin(os[i], h, u)
  }

  /** One side of one book holds exactly the orders of that side of the other. */
  ghost predicate Linked(os: seq<BbOrder>, s: seq<HpOrder>, side: Side, u: Units) {
    && (forall i :: 0 <= i < |os| ==> HasTwin(os[i], s, u))
    && (forall h :: h in s && h.side == side ==> TwinIn(h, os, u))
  }

  /** Arrival order is time order, one order per client. */
  predicate Chronological(s: seq<HpOrder>) {
    forall i, j :: 0 <= i < j < |s| ==> s[i].ts < s[j].ts && s[i].clientId != s[j].clientId
  }

  lemma ScaledLess(a: real, b: real, c: real)
    requires c > 0.0
    ensures a < b <==> a * c < b * c
  {
    if a < b {
      assert (b - a) * c > 0.0;
    } else {
      assert (a - b) * c >= 0.0;
    }
  }

  lemma SameClient(s: seq<HpOrder>, a: HpOrder, b: HpOrder)
    requires Chronological(s) && a in s && b in s && a.clientId == b.clientId
    ensures a == b
  {
  }

  lemma BeforeIsEarlier(s: seq<HpOrder>, a: HpOrder, b: HpOrder)
    requires Chronological(s) && DistinctIds(s) && a in s && b in s && Before(s, a.id, b.id)
    ensures a.ts < b.ts
  {
    var i, j :| 0 <= i < j < |s| && s[i].id == a.id && s[j].id == b.id;
    SameIdSameOrder(s, s[i], a);
    SameIdSameOrder(s, s[j], b);
  }

  predicate DistinctClients(os: seq<BbOrder>) {
    forall i, j :: 0 <= i < j < |os| ==> ParseId(os[i].no) != ParseId(os[j].no)
  }

  /** What the comparator says about protocol orders, it says about their twins. */
  lemma TwinsInOrder(side: Side, a: BbOrder, b: BbOrder, ha: HpOrder, hb: HpOrder, u: Units)
    requires u.p > 0.0 && Twin(a, ha, u) && Twin(b, hb, u) && Precedes(side, a, b)
    ensures Better(side, ha.priceTick, hb.priceTick) || (ha.priceTick == hb.priceTick && ha.ts <= hb.ts)
  {
    hide StrLess;
    ScaledLess(a.price, b.price, u.p);
    ScaledLess(b.price, a.price, u.p);
  }

  /** The best order of the one book is the twin of the best order of the other. */
  lemma BestTwin(os: seq<BbOrder>, s: seq<HpOrder>, side: Side, u: Units)
    requires u.p > 0.0 && Linked(os, s, side, u) && Chronological(s) && DistinctIds(s)
    requires SortedSide(side, os) && OnSide(side, os)
    ensures os == [] <==> Best(s, side) == None
    ensures os != [] ==> Twin(os[0], Best(s, side).value, u)
  {
    hide Precedes, ParseId, Chronological, DistinctIds, AtLevel;
    if os == [] {
      assert Best(s, side).Some? ==> TwinIn(Best(s, side).value, os, u);
    } else {
      assert HasTwin(os[0], s, u);
      var h :| h in s && Twin(os[0], h, u);
      assert h.priceTick in Ticks(s, side);
      var m := Best(s, side).value;
      BestBeatsAll(s, side, m, h);
      assert TwinIn(m, os, u);
      var j :| 0 <= j < |os| && Twin(os[j], m, u);
      if j > 0 {
        assert Precedes(side, os[0], os[j]);
        TwinsInOrder(side, os[0], os[j], h, m, u);
        if m != h && m.priceTick == h.priceTick {
          BeforeIsEarlier(s, m, h);
        }
      }
    }
  }

  lemma OtherSideLinked(os: seq<BbOrder>, s: seq<HpOrder>, side: Side, u: Units, m: HpOrder, qty: int)
    requires Linked(os, s, side, u) && OnSide(side, os) && DistinctIds(s) && m in s && m.side != side
    ensures Linked(os, Reduce(s, m, qty), side, u)
  {
    hide ParseId, Reduce, DistinctIds;
    ReduceMembers(s, m, qty);
    var s' := Reduce(s, m, qty);
    forall i | 0 <= i < |os| ensures HasTwin(os[i], s', u) {
      assert HasTwin(os[i], s, u);
      var h :| h in s && Twin(os[i], h, u);
      SameIdSameOrder(s, h, m);
      assert h in s';
    }
    forall h | h in s' && h.side == side ensures TwinIn(h, os, u) {
      assert h in s;
    }
  }

  lemma FrontConsumed(os: seq<BbOrder>, s: seq<HpOrder>, side: Side, u: Units, m: HpOrder)
    requires Linked(os, s, side, u) && DistinctClients(os) && Chronological(s) && DistinctIds(s)
    requires os != [] && m in s && Twin(os[0], m, u)
    ensures Linked(os[1..], Reduce(s, m, m.openLot), side, u)
  {
    hide ParseId, Reduce, DistinctIds, Chronological;
    ReduceMembers(s, m, m.openLot);
    var s', rest := Reduce(s, m, m.openLot), os[1..];
    forall i | 0 <= i < |rest| ensures HasTwin(rest[i], s', u) {
      assert HasTwin(os[i + 1], s, u);
      var h :| h in s && Twin(os[i + 1], h, u);
      SameIdSameOrder(s, h, m);
      assert h in s';
    }
    forall h | h in s' && h.side == side ensures TwinIn(h, rest, u) {
      assert h in s && TwinIn(h, os, u);
      var i :| 0 <= i < |os| && Twin(os[i], h, u);
      if i == 0 {
        SameClient(s, h, m);
      }
      assert rest[i - 1] == os[i];
    }
  }

  lemma FrontReduced(os: seq<BbOrder>, s: seq<HpOrder>, side: Side, u: Units, m: HpOrder, qty: int, x: real)
    requires Linked(os, s, side, u) && DistinctClients(os) && Chronological(s) && DistinctIds(s)
    requires os != [] && m in s && Twin(os[0], m, u) && qty < m.openLot && x * u.q == qty as real
    ensures Linked([MakerAfter(os[0], x)] + os[1..], Reduce(s, m, qty), side, u)
  {
    hide ParseId, Reduce, DistinctIds, Chronological;
    ReduceMembers(s, m, qty);
    var s', os' := Reduce(s, m, qty), [MakerAfter(os[0], x)] + os[1..];
    var m' := m.(openLot := m.openLot - qty);
    assert m' in s' by { ReduceKeepsMaker(s, m, qty); }
    assert Twin(os'[0], m', u) by {
      assert Remaining(os'[0]) == Remaining(os[0]) - x;
      assert (Remaining(os[0]) - x) * u.q == Remaining(os[0]) * u.q - x * u.q;
    }
    forall i | 0 <= i < |os'| ensures HasTwin(os'[i], s', u) {
      if i > 0 {
        assert os'[i] == os[i] && HasTwin(os[i], s, u);
        var h :| h in s && Twin(os[i], h, u);
        SameIdSameOrder(s, h, m);
        assert h in s';
      }
    }
    forall h | h in s' && h.side == side ensures TwinIn(h, os', u) {
      if h.id == m.id {
        assert Twin(os'[0], h, u);
      } else {
        assert h in s && TwinIn(h, os, u);
        var i :| 0 <= i < |os| && Twin(os[i], h, u);
        if i == 0 {
          SameClient(s, h, m);
        }
        assert os'[i] == os[i];
      }
    }
  }

  lemma ChronologicalReduce(s: seq<HpOrder>, m: HpOrder, qty: int)
    requires Chronological(s) && DistinctIds(s) && m in s
    ensures Chronological(Reduce(s, m, qty))
  {
    if m.openLot - qty <= 0 {
      var i :| 0 <= i < |s| && s[i] == m;
      WithoutAt(s, i);
      hide Without, DistinctIds;
    }
  }

  // ---------------------------------------------------------------- one sweep against one match

  /** The sweep's bound and the match's bound say the same. */
  predicate SameBound(side: Side, taker: BbOrder, bound: Bound, limit: Option<int>, budget: Option<nat>, u: Units) {
    match bound
    case Priced => limit.Some? && taker.price * u.p == limit.value as real && budget == None
    case Geared(left) => limit == None && budget == Some(left)
  }

  /** The state of a sweep and of the corresponding match. */
  ghost predicate InStep(side: Side, taker: BbOrder, opp: seq<BbOrder>, mine: seq<BbOrder>, s: seq<HpOrder>,
      ht: HpOrder, open: int, u: Units) {
    && u.p > 0.0 && u.q > 0.0
    && Linked(opp, s, Opposite(side), u) && Linked(mine, s, side, u)
    && SortedSide(Opposite(side), opp) && OnSide(Opposite(side), opp) && OnSide(side, mine)
    && DistinctClients(opp)
    && Chronological(s) && DistinctIds(s) && PositiveOpen(s)
    && ht.side == side && ParseId(taker.no) == Some(ht.clientId)
    && open > 0 && Remaining(taker) * u.q == open as real
  }

  ghost predicate SameTrades(fs: seq<MatchEvent>, gs: seq<HpEvent>, u: Units) {
    && |fs| == |gs|
    && forall k :: 0 <= k < |fs| ==> fs[k].McFill? && gs[k].Fill? && McTrade(fs[k], u) == HpTrade(gs[k])
  }

  /** Both stop at the same point. */
  lemma StopTogether(side: Side, taker: BbOrder, opp: seq<BbOrder>, mine: seq<BbOrder>, bound: Bound,
      s: seq<HpOrder>, ht: HpOrder, limit: Option<int>, open: int, budget: Option<nat>, u: Units)
    requires InStep(side, taker, opp, mine, s, ht, open, u) && SameBound(side, taker, bound, limit, budget, u)
    ensures StopsAt(side, taker, opp, bound) <==> Stops(s, side, limit, open, budget)
  {
    hide Chronological, DistinctIds, PositiveOpen, ParseId, AtLevel;
    BestTwin(opp, s, Opposite(side), u);
    if opp != [] {
      var m := Best(s, Opposite(side)).value;
      BestTickUnique(Ticks(s, Opposite(side)), Opposite(side), m.priceTick);
      if bound.Priced? {
        ScaledLess(taker.price, opp[0].price, u.p);
        ScaledLess(opp[0].price, taker.price, u.p);
      }
    }
  }

  /**
   A sweep of the sorted side and a match of the arrival-ordered book make the same trades
   and leave linked books and the same remainder.
   */
  lemma {:induction false} SweepIsMatch(side: Side, taker: BbOrder, opp: seq<BbOrder>, mine: seq<BbOrder>,
      bound: Bound, s: seq<HpOrder>, ht: HpOrder, limit: Option<int>, open: int, budget: Option<nat>, u: Units)
    requires InStep(side, taker, opp, mine, s, ht, open, u) && SameBound(side, taker, bound, limit, budget, u)
    ensures var sw, m := Sweep(side, taker, opp, bound), Match(s, ht, limit, open, budget);
      && SameTrades(sw.fills, m.fills, u)
      && (sw.taker == None <==> m.open == 0) && m.open >= 0
      && (sw.taker.Some? ==> Remaining(sw.taker.value) * u.q == m.open as real)
      && Linked(sw.rest, m.orders, Opposite(side), u) && Linked(mine, m.orders, side, u)
      && Chronological(m.orders)
    decreases |opp|
  {
    hide Sweep, Match, InStep, SameTrades, Linked, Chronological, ParseId, Best, Reduce;
    StopTogether(side, taker, opp, mine, bound, s, ht, limit, open, budget, u);
    StepFacts(side, taker, opp, mine, s, ht, open, u);
    if StopsAt(side, taker, opp, bound) {
      MatchStops(s, ht, limit, open, budget);
      SweepStopped(side, taker, opp, bound);
      NoTrades(u);
    } else {
      TradeTogether(side, taker, opp, mine, s, ht, open, u);
      var maker, qty, s', budget' := MatchInduct(s, ht, limit, open, budget);
      SweepOnce(side, taker, opp, bound);
      var f, g := FillOf(taker, opp[0]), FillEvent(maker, ht, open);
      if Remaining(taker) > Remaining(opp[0]) {
        var t' := TakerAfter(taker, Remaining(opp[0]));
        SweepIsMatch(side, t', opp[1..], mine, Next(bound), s', ht, limit, open - qty, budget', u);
        var sw, m := Sweep(side, t', opp[1..], Next(bound)), Match(s', ht, limit, open - qty, budget');
        TradesPrepend(f, g, sw.fills, m.fills, u);
      } else {
        MatchStops(s', ht, limit, open - qty, budget');
        NoTrades(u);
        TradesPrepend(f, g, [], [], u);
      }
    }
  }

  lemma NoTrades(u: Units)
    ensures SameTrades([], [], u)
  {
  }

  lemma TradesPrepend(f: MatchEvent, g: HpEvent, fs: seq<MatchEvent>, gs: seq<HpEvent>, u: Units)
    requires SameTrades(fs, gs, u) && f.McFill? && g.Fill? && McTrade(f, u) == HpTrade(g)
    ensures SameTrades([f] + fs, [g] + gs, u)
    ensures [f] + [] == [f] && [g] + [] == [g]
  {
  }

  lemma StepFacts(side: Side, taker: BbOrder, opp: seq<BbOrder>, mine: seq<BbOrder>, s: seq<HpOrder>, ht: HpOrder,
      open: int, u: Units)
    requires InStep(side, taker, opp, mine, s, ht, open, u)
    ensures open > 0 && ht.side == side && PositiveOpen(s) && Chronological(s)
    ensures Linked(opp, s, Opposite(side), u) && Linked(mine, s, side, u)
    ensures Remaining(taker) * u.q == open as real && ParseId(taker.no) == Some(ht.clientId)
  {
  }

  /** One fill on each side is the same trade, and leaves both in step again. */
  lemma TradeTogether(side: Side, taker: BbOrder, opp: seq<BbOrder>, mine: seq<BbOrder>, s: seq<HpOrder>,
      ht: HpOrder, open: int, u: Units)
    requires InStep(side, taker, opp, mine, s, ht, open, u) && opp != []
    ensures Best(s, Opposite(side)).Some?
    ensures var maker := Best(s, Opposite(side)).value;
      var qty := Min(maker.openLot, open);
      var s' := Reduce(s, maker, qty);
      && McTrade(FillOf(taker, opp[0]), u) == HpTrade(FillEvent(maker, ht, open))
      && (Remaining(taker) > Remaining(opp[0]) <==> open - qty > 0)
      && (Remaining(taker) > Remaining(opp[0]) ==> InStep(side, TakerAfter(taker, Remaining(opp[0])), opp[1..], mine,
          s', ht, open - qty, u))
      && Linked(if Remaining(taker) < Remaining(opp[0]) then [MakerAfter(opp[0],
          Remaining(taker))] + opp[1..] else opp[1..], s', Opposite(side), u)
      && Linked(mine, s', side, u) && Chronological(s')
  {
    hide Linked, Chronological, ParseId, Best, Reduce, DistinctIds, Precedes, Ticks;
    BestTwin(opp, s, Opposite(side), u);
    var maker := Best(s, Opposite(side)).value;
    assert maker in s by { BestMember(s, Opposite(side)); }
    var qty := Min(maker.openLot, open);
    var t, m := Remaining(taker), Remaining(opp[0]);
    ScaledLess(t, m, u.q);
    ScaledLess(m, t, u.q);
    assert (t - m) * u.q == t * u.q - m * u.q;
    ReduceShape(s, maker, qty);
    ReduceMembers(s, maker, qty);
    ChronologicalReduce(s, maker, qty);
    OtherSideLinked(mine, s, side, u, maker, qty);
    if t < m {
      FrontReduced(opp, s, Opposite(side), u, maker, qty, t);
    } else {
      FrontConsumed(opp, s, Opposite(side), u, maker);
    }
  }

  lemma BestMember(s: seq<HpOrder>, side: Side)
    requires Best(s, side).Some?
    ensures Best(s, side).value in s && Best(s, side).value.side == side
  {
  }
}
