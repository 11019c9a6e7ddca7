/** Whole streams: both engines, fed the same orders, make the same trades. */
module CrossRuns {
  import opened Common
  import opened HpTypes
  import opened PriceTime
  import opened OrderStores
  import opened HpMatching
  import HpSpec
  import HpRuns
  import opened McTypes
  import opened McBook
  import opened McSpec
  import opened McSweep
  import McRuns
  import opened Adapter
  import opened CrossEngine

  // ---------------------------------------------------------------- trades of an event list

  function McTrades(es: seq<MatchEvent>, u: Units): seq<Trade> {
    if es == [] then [] else (if es[0].McFill? then [McTrade(es[0], u)] else []) + McTrades(es[1..], u)
  }

  function HpTrades(es: seq<HpEvent>): seq<Trade> {
    if es == [] then [] else (if es[0].Fill? then [HpTrade(es[0])] else []) + HpTrades(es[1..])
  }

  lemma {:induction false} SameTradesEqual(fs: seq<MatchEvent>, gs: seq<HpEvent>, u: Units)
    requires SameTrades(fs, gs, u)
    ensures McTrades(fs, u) == HpTrades(gs)
  {
    if fs != [] {
      SameTradesEqual(fs[1..], gs[1..], u);
    }
  }

  lemma Assoc(a: seq<Trade>, b: seq<Trade>, c: seq<Trade>)
    ensures a + (b + c) == a + b + c
  {
  }

  lemma {:induction false} McTradesConcat(a: seq<MatchEvent>, b: seq<MatchEvent>, u: Units)
    ensures McTrades(a + b, u) == McTrades(a, u) + McTrades(b, u)
  {
    hide McTrade;
    if a == [] {
      assert a + b == b;
    } else {
      assert (a + b)[1..] == a[1..] + b;
      McTradesConcat(a[1..], b, u);
      Assoc(if a[0].McFill? then [McTrade(a[0], u)] else [], McTrades(a[1..], u), McTrades(b, u));
    }
  }

  lemma {:induction false} HpTradesConcat(a: seq<HpEvent>, b: seq<HpEvent>)
    ensures HpTrades(a + b) == HpTrades(a) + HpTrades(b)
  {
    hide HpTrade;
    if a == [] {
      assert a + b == b;
    } else {
      assert (a + b)[1..] == a[1..] + b;
      HpTradesConcat(a[1..], b);
      Assoc(if a[0].Fill? then [HpTrade(a[0])] else [], HpTrades(a[1..]), HpTrades(b));
    }
  }

  // ---------------------------------------------------------------- comparable streams

  /** A fresh limit or market order the adapter accepts; `floor` bounds market sells from above. */
  ghost predicate Comparable(o: BbOrder, scale: Conversion, floor: real) {
    && SideOf(o).Some? && o.status != STATUS_REVOKE
    && (o.form == FORM_LIMIT || o.form == FORM_MARKET)
    && Faithful(scale.render) && FromBbOrder(o, scale).Ok?
    && o.consumed == 0.0 && o.remainingNumber == o.trust && o.trust > 0.0
    && (o.form == FORM_LIMIT ==> floor < o.price < MARKET_BUY_PRICE)
    && (o.form == FORM_MARKET && SideOf(o) == Some(Sell) ==> o.price <= floor)
  }

  /** Numbers are distinct as ids and creation times strictly increase. */
  predicate Ordered(os: seq<BbOrder>) {
    forall i, j :: 0 <= i < j < |os| ==> ParseId(os[i].no) != ParseId(os[j].no) && os[i].createTime < os[j].createTime
  }

  ghost predicate ComparableStream(os: seq<BbOrder>, scale: Conversion, floor: real) {
    Ordered(os) && forall i :: 0 <= i < |os| ==> Comparable(os[i], scale, floor)
  }

  function Commands(os: seq<BbOrder>, scale: Conversion): (cmds: seq<HpCommand>)
    requires forall i :: 0 <= i < |os| ==> FromBbOrder(os[i], scale).Ok?
    ensures |cmds| == |os|
    ensures forall i :: 0 <= i < |os| ==> cmds[i] == FromBbOrder(os[i], scale).cmd
  {
    if os == [] then [] else Commands(os[..|os| - 1], scale) + [FromBbOrder(os[|os| - 1], scale).cmd]
  }

  predicate InBand(s: seq<BbOrder>, floor: real) {
    forall i :: 0 <= i < |s| ==> floor < s[i].price < MARKET_BUY_PRICE && s[i].form != FORM_MARKET
  }

  /** The order came earlier and under another id. */
  predicate Earlier(s: seq<HpOrder>, o: BbOrder) {
    forall i :: 0 <= i < |s| ==> s[i].ts < o.createTime && ParseId(o.no) != Some(s[i].clientId)
  }

  /** The two books hold the same orders. */
  ghost predicate SameBooks(b: Sides, s: HpSpec.EngineState, u: Units, floor: real) {
    && McRuns.Good(b) && HpRuns.WellFormed(s)
    && Linked(b.buys, s.orders, Buy, u) && Linked(b.sells, s.orders, Sell, u)
    && DistinctClients(b.buys) && DistinctClients(b.sells)
    && InBand(b.buys, floor) && InBand(b.sells, floor)
    && Chronological(s.orders)
  }

  lemma FreshNumber(b: Sides, s: HpSpec.EngineState, u: Units, floor: real, o: BbOrder)
    requires SameBooks(b, s, u, floor) && Earlier(s.orders, o)
    ensures !b.Has(o.no)
    ensures forall i :: 0 <= i < |b.buys| ==> ParseId(b.buys[i].no) != ParseId(o.no)
    ensures forall i :: 0 <= i < |b.sells| ==> ParseId(b.sells[i].no) != ParseId(o.no)
  {
    hide ParseId, McRuns.Good, HpRuns.WellFormed, Chronological;
    forall i | 0 <= i < |b.buys| ensures ParseId(b.buys[i].no) != ParseId(o.no) {
      assert HasTwin(b.buys[i], s.orders, u);
    }
    forall i | 0 <= i < |b.sells| ensures ParseId(b.sells[i].no) != ParseId(o.no) {
      assert HasTwin(b.sells[i], s.orders, u);
    }
  }

  /** Starting a sweep and a match from the same books. */
  lemma StartInStep(b: Sides, s: HpSpec.EngineState, u: Units, floor: real, side: Side, t: BbOrder, ht: HpOrder,
      qty: int)
    requires SameBooks(b, s, u, floor) && u.p > 0.0 && u.q > 0.0
    requires ht.side == side && ParseId(t.no) == Some(ht.clientId) && qty > 0 && Remaining(t) * u.q == qty as real
    ensures InStep(side, t, b.Of(Opposite(side)), b.Of(side), s.orders, ht, qty, u)
  {
    hide ParseId, Linked, Chronological, DistinctClients;
    HpRuns.PartitionDistinct(s.orders, s.free, s.slotCount);
  }

  lemma UnitsPositive(scale: Conversion)
    ensures UnitsOf(scale).p > 0.0 && UnitsOf(scale).q > 0.0
  {
  }

  // ---------------------------------------------------------------- resting the remainder

  lemma RestLinked(mine: seq<BbOrder>, s: seq<HpOrder>, side: Side, u: Units, t: BbOrder, h: HpOrder)
    requires Linked(mine, s, side, u) && Twin(t, h, u)
    ensures Linked(InsertSorted(side, mine, t), s + [h], side, u)
  {
    hide ParseId, InsertSorted, Twin;
    InsertMembers(side, mine, t);
    var r, s' := InsertSorted(side, mine, t), s + [h];
    forall i | 0 <= i < |r| ensures HasTwin(r[i], s', u) {
      assert r[i] in r;
      if r[i] == t {
        assert h in s';
      } else {
        var k :| 0 <= k < |mine| && mine[k] == r[i];
        assert HasTwin(mine[k], s, u);
        var x :| x in s && Twin(mine[k], x, u);
        assert x in s';
      }
    }
    forall x | x in s' && x.side == side ensures TwinIn(x, r, u) {
      if x == h {
        assert t in r;
      } else {
        assert TwinIn(x, mine, u);
        var k :| 0 <= k < |mine| && Twin(mine[k], x, u);
        assert mine[k] in r;
      }
    }
  }

  lemma RestLinkedOther(opp: seq<BbOrder>, s: seq<HpOrder>, side: Side, u: Units, h: HpOrder)
    requires Linked(opp, s, side, u) && h.side != side
    ensures Linked(opp, s + [h], side, u)
  {
    hide Twin;
    forall i | 0 <= i < |opp| ensures HasTwin(opp[i], s + [h], u) {
      assert HasTwin(opp[i], s, u);
      var x :| x in s && Twin(opp[i], x, u);
      assert x in s + [h];
    }
  }

  lemma InsertDistinctClients(side: Side, s: seq<BbOrder>, o: BbOrder)
    requires DistinctClients(s) && SortedSide(side, s) && DistinctNos(s) && !HasNo(s, o.no)
    requires forall i :: 0 <= i < |s| ==> ParseId(s[i].no) != ParseId(o.no)
    ensures DistinctClients(InsertSorted(side, s, o))
  {
    hide ParseId, InsertSorted, Precedes;
    InsertSortedKeeps(side, s, o);
    InsertMembers(side, s, o);
    var r := InsertSorted(side, s, o);
    forall i, j | 0 <= i < j < |r| ensures ParseId(r[i].no) != ParseId(r[j].no) {
      assert r[i] in r && r[j] in r && r[i].no != r[j].no;
      if r[i] != o && r[j] != o {
        var k, l :| 0 <= k < |s| && s[k] == r[i] && 0 <= l < |s| && s[l] == r[j];
        assert k != l;
      }
    }
  }

  lemma TailDistinctClients(s: seq<BbOrder>, r: seq<BbOrder>)
    requires DistinctClients(s) && |r| <= |s| && McRuns.SameKeys(r, s[|s| - |r|..])
    ensures DistinctClients(r)
  {
    hide ParseId;
    forall i, j | 0 <= i < j < |r| ensures ParseId(r[i].no) != ParseId(r[j].no) {
      assert SameOrder(r[i], s[|s| - |r| + i]) && SameOrder(r[j], s[|s| - |r| + j]);
    }
  }

  lemma TailInBand(s: seq<BbOrder>, r: seq<BbOrder>, floor: real)
    requires InBand(s, floor) && |r| <= |s| && McRuns.SameKeys(r, s[|s| - |r|..])
    ensures InBand(r, floor)
  {
    forall i | 0 <= i < |r| ensures floor < r[i].price < MARKET_BUY_PRICE && r[i].form != FORM_MARKET {
      assert SameOrder(r[i], s[|s| - |r| + i]);
    }
  }

  lemma InsertInBand(side: Side, s: seq<BbOrder>, o: BbOrder, floor: real)
    requires InBand(s, floor) && floor < o.price < MARKET_BUY_PRICE && o.form != FORM_MARKET
    ensures InBand(InsertSorted(side, s, o), floor)
  {
    hide InsertSorted;
    InsertMembers(side, s, o);
    var r := InsertSorted(side, s, o);
    forall i | 0 <= i < |r| ensures floor < r[i].price < MARKET_BUY_PRICE && r[i].form != FORM_MARKET {
      assert r[i] in r;
    }
  }

  /** Later orders stay later after a match. */
  lemma EarlierAfterMatch(s: seq<HpOrder>, o: BbOrder, ht: HpOrder, limit: Option<int>, open: int, budget: Option<nat>)
    requires Earlier(s, o) && PositiveOpen(s) && DistinctIds(s)
    ensures Earlier(Match(s, ht, limit, open, budget).orders, o)
  {
    hide ParseId, Match, DistinctIds, PositiveOpen, Settle;
    var m := Match(s, ht, limit, open, budget);
    MatchSettles(s, ht, limit, open, budget);
    forall i | 0 <= i < |m.orders|
      ensures m.orders[i].ts < o.createTime && ParseId(o.no) != Some(m.orders[i].clientId)
    {
      SettleMembers(s, m.fills, m.orders[i]);
      var x :| x in s && m.orders[i] == x.(openLot := m.orders[i].openLot);
      var k :| 0 <= k < |s| && s[k] == x;
    }
  }

  // ---------------------------------------------------------------- one order

  /** What a successful conversion says about the command. */
  lemma ConvertedFields(o: BbOrder, scale: Conversion)
    requires o.status != STATUS_REVOKE && Faithful(scale.render) && FromBbOrder(o, scale).Ok?
    ensures var cmd, u := FromBbOrder(o, scale).cmd, UnitsOf(scale);
      && !cmd.Cancel? && SideOf(o) == Some(cmd.side) && ParseId(o.no) == Some(cmd.clientId) && cmd.ts == o.createTime
      && o.remainingNumber * u.q == cmd.qtyLot as real
      && (o.form == FORM_LIMIT ==> cmd.Limit? && o.price * u.p == cmd.priceTick as real)
      && (o.form == FORM_MARKET ==>
          cmd.Market? && o.gear.Some? && o.gear.value >= 1 && cmd.maxFills == Some(o.gear.value))
  {
    hide ParseId, ToFixed, Faithful;
    ToFixedExact(scale.render, o.remainingNumber, scale.qtyScale);
    ToFixedExact(scale.render, o.price, scale.priceScale);
  }

  lemma LimitsAgree(b: Sides, s: HpSpec.EngineState, o: BbOrder, u: Units, floor: real, side: Side, tick: int,
      qty: int, ts: nat, client: nat)
    requires SameBooks(b, s, u, floor) && Earlier(s.orders, o) && u.p > 0.0 && u.q > 0.0
    requires SideOf(o) == Some(side) && ParseId(o.no) == Some(client) && ts == o.createTime && o.form == FORM_LIMIT
    requires o.price * u.p == tick as real && floor < o.price < MARKET_BUY_PRICE
    requires qty > 0 && Remaining(o) * u.q == qty as real
    ensures PositiveOpen(s.orders)
    ensures var (b', es) := LimitStep(b, side, o);
      var (s', hs) := HpSpec.LimitStep(s, side, tick, qty, ts, client);
      McTrades(es, u) == HpTrades(hs) && SameBooks(b', s', u, floor)
  {
    hide ParseId, Sweep, Match, InsertSorted, Linked, Chronological, DistinctClients, InBand, McRuns.Good,
        HpRuns.WellFormed, InStep, SameBound, HasNo, DistinctIds, PositiveOpen, DistinctNos, SortedSide, McTrades,
            HpTrades, NextId;
    PositiveBooks(b, s, u, floor);
    var ht := HpSpec.Taker(s, side, tick, qty, ts, client);
    var mine, opp := b.Of(side), b.Of(Opposite(side));
    FreshNumber(b, s, u, floor, o);
    StartInStep(b, s, u, floor, side, o, ht, qty);
    StepFacts(side, o, opp, mine, s.orders, ht, qty, u);
    LimitBound(side, o, tick, u);
    SweepIsMatch(side, o, opp, mine, Priced, s.orders, ht, Some(tick), qty, None, u);
    var sw, m := Sweep(side, o, opp, Priced), Match(s.orders, ht, Some(tick), qty, None);
    SameTradesEqual(sw.fills, m.fills, u);
    McRuns.SweepTail(side, o, opp, Priced);
    SweepShape(side, o, opp, Priced);
    TailDistinctClients(opp, sw.rest);
    TailInBand(opp, sw.rest, floor);
    McRuns.LimitKeepsGood(b, side, o);
    HpRuns.LimitKeeps(s, side, tick, qty, ts, client);
    if m.open > 0 {
      var t, h := sw.taker.value, ht.(openLot := m.open);
      RestAgrees(m.fills, Rest(ht.id, client, side, tick, m.open));
      EarlierParts(s, o, ht, Some(tick), qty);
      OkParts(b, side);
      RestBooks(mine, sw.rest, m.orders, side, u, t, h, o, floor);
    }
  }

  lemma RestAgrees(fills: seq<HpEvent>, e: HpEvent)
    requires !e.Fill?
    ensures HpTrades(fills + [e]) == HpTrades(fills)
  {
    HpTradesConcat(fills, [e]);
    RestNoTrade(e);
  }

  /** Resting the same remainder on both books keeps them the same. */
  lemma RestBooks(mine: seq<BbOrder>, opp: seq<BbOrder>, s: seq<HpOrder>, side: Side, u: Units, t: BbOrder,
      h: HpOrder, o: BbOrder, floor: real)
    requires Linked(mine, s, side, u) && Linked(opp, s, Opposite(side), u) && Twin(t, h, u) && h.side == side
    requires DistinctClients(mine) && SortedSide(side, mine) && DistinctNos(mine) && !HasNo(mine, t.no)
    requires forall i :: 0 <= i < |mine| ==> ParseId(mine[i].no) != ParseId(t.no)
    requires InBand(mine, floor) && floor < t.price < MARKET_BUY_PRICE && t.form != FORM_MARKET
    requires Chronological(s) && Earlier(s, o) && h.ts == o.createTime && ParseId(o.no) == Some(h.clientId)
    ensures Linked(InsertSorted(side, mine, t), s + [h], side, u) && Linked(opp, s + [h], Opposite(side), u)
    ensures DistinctClients(InsertSorted(side, mine, t)) && InBand(InsertSorted(side, mine, t), floor)
    ensures Chronological(s + [h])
  {
    hide ParseId, InsertSorted, Linked, Chronological, DistinctClients, InBand, HasNo, DistinctNos, SortedSide, Twin,
        Earlier;
    RestLinked(mine, s, side, u, t, h);
    RestLinkedOther(opp, s, Opposite(side), u, h);
    InsertDistinctClients(side, mine, t);
    InsertInBand(side, mine, t, floor);
    ChronologicalAppend(s, h, o);
  }

  lemma PositiveBooks(b: Sides, s: HpSpec.EngineState, u: Units, floor: real)
    requires SameBooks(b, s, u, floor)
    ensures PositiveOpen(s.orders)
  {
    hide Linked;
  }

  lemma QtyPositive(o: BbOrder, q: real, qty: int)
    requires q > 0.0 && o.consumed == 0.0 && o.remainingNumber == o.trust
    requires o.trust > 0.0 && qty as real == o.remainingNumber * q
    ensures qty > 0 && Remaining(o) * q == qty as real
  {
    ScaledLess(0.0, o.trust, q);
  }

  lemma LimitBound(side: Side, o: BbOrder, tick: int, u: Units)
    requires o.price * u.p == tick as real
    ensures SameBound(side, o, Priced, Some(tick), None, u)
  {
  }

  lemma RestNoTrade(e: HpEvent)
    requires !e.Fill?
    ensures HpTrades([e]) == []
  {
    assert [e][1..] == [];
  }

  lemma OkParts(b: Sides, side: Side)
    requires McRuns.Good(b)
    ensures SortedSide(side, b.Of(side)) && DistinctNos(b.Of(side))
  {
  }

  lemma EarlierParts(s: HpSpec.EngineState, o: BbOrder, ht: HpOrder, limit: Option<int>, open: int)
    requires HpRuns.WellFormed(s) && Earlier(s.orders, o)
    ensures Earlier(Match(s.orders, ht, limit, open, None).orders, o)
  {
    HpRuns.PartitionDistinct(s.orders, s.free, s.slotCount);
    EarlierAfterMatch(s.orders, o, ht, limit, open, None);
  }

  lemma ChronologicalAppend(s: seq<HpOrder>, h: HpOrder, o: BbOrder)
    requires Chronological(s) && Earlier(s, o) && h.ts == o.createTime && ParseId(o.no) == Some(h.clientId)
    ensures Chronological(s + [h])
  {
    hide ParseId;
  }

  /** A market order goes ahead of every limit order in the band, and meets no market maker. */
  lemma MarketLeads(b: Sides, side: Side, o: BbOrder, floor: real)
    requires InBand(b.Of(side), floor) && b.Of(side) != []
    requires side == Sell ==> o.price <= floor
    ensures Precedes(side, MarketOrder(side, o), b.Of(side)[0])
  {
  }

  lemma MarketsAgree(b: Sides, s: HpSpec.EngineState, o: BbOrder, u: Units, floor: real, side: Side, qty: int,
      ts: nat, gear: nat, client: nat)
    requires SameBooks(b, s, u, floor) && Earlier(s.orders, o) && u.p > 0.0 && u.q > 0.0
    requires SideOf(o) == Some(side) && ParseId(o.no) == Some(client) && ts == o.createTime && o.form == FORM_MARKET
    requires side == Sell ==> o.price <= floor
    requires gear == GearOf(o) && qty > 0 && Remaining(o) * u.q == qty as real
    ensures PositiveOpen(s.orders)
    ensures var (b', es) := MarketStep(b, side, o);
      var (s', hs) := HpSpec.MarketStep(s, side, qty, ts, Some(gear), client);
      McTrades(es, u) == HpTrades(hs) && SameBooks(b', s', u, floor)
  {
    hide ParseId, Sweep, Match, InsertSorted, Linked, Chronological, DistinctClients, McRuns.Good, HpRuns.WellFormed,
        InStep, HasNo, DistinctIds, PositiveOpen, McTrades, HpTrades, NextId, Precedes, SameTrades;
    PositiveBooks(b, s, u, floor);
    var ht := HpSpec.Taker(s, side, 0, qty, ts, client);
    var t := MarketOrder(side, o);
    var mine, opp := b.Of(side), b.Of(Opposite(side));
    if mine != [] {
      MarketLeads(b, side, o, floor);
    }
    FreshNumber(b, s, u, floor, o);
    StartInStep(b, s, u, floor, side, t, ht, qty);
    StepFacts(side, t, opp, mine, s.orders, ht, qty, u);
    SweepIsMatch(side, t, opp, mine, Geared(gear), s.orders, ht, None, qty, Some(gear), u);
    var sw, m := Sweep(side, t, opp, Geared(gear)), Match(s.orders, ht, None, qty, Some(gear));
    SameTradesEqual(sw.fills, m.fills, u);
    McRuns.SweepTail(side, t, opp, Geared(gear));
    TailDistinctClients(opp, sw.rest);
    TailInBand(opp, sw.rest, floor);
    McRuns.MarketKeepsGood(b, side, o);
    HpRuns.MarketKeeps(s, side, qty, ts, Some(gear), client);
    if opp == [] {
      EmptySweep(side, t, Geared(gear));
    }
    MarketTail(b, side, o, sw, m, ht.id, client, u);
  }

  lemma EmptySweep(side: Side, t: BbOrder, bound: Bound)
    ensures Sweep(side, t, [], bound) == Swept(Some(t), [], [])
  {
  }

  /** Revokes are not trades. */
  lemma MarketTail(b: Sides, side: Side, o: BbOrder, sw: Swept, m: Matched, id: nat, client: nat, u: Units)
    requires McTrades(sw.fills, u) == HpTrades(m.fills)
    ensures forall reason :: McTrades(sw.fills + RevokeRest(sw.taker, reason), u) == HpTrades(m.fills)
    ensures HpTrades(m.fills + (if m.open > 0 then [Revoke(id, client, 1)] else [])) == HpTrades(m.fills)
    ensures sw == Swept(Some(MarketOrder(side, o)), [], []) ==>
        McTrades([RevokeOf(MarketOrder(side, o), "market_empty")], u) == HpTrades(m.fills)
  {
    forall reason ensures McTrades(sw.fills + RevokeRest(sw.taker, reason), u) == HpTrades(m.fills) {
      McTradesConcat(sw.fills, RevokeRest(sw.taker, reason), u);
      RevokeNoTrade(sw.taker, reason, u);
    }
    HpTradesConcat(m.fills, if m.open > 0 then [Revoke(id, client, 1)] else []);
    if m.open > 0 {
      RestNoTrade(Revoke(id, client, 1));
    }
    RevokeNoTrade(Some(MarketOrder(side, o)), "market_empty", u);
  }

  lemma RevokeNoTrade(t: Option<BbOrder>, reason: string, u: Units)
    ensures McTrades(RevokeRest(t, reason), u) == []
  {
    if t.Some? {
      var es := RevokeRest(t, reason);
      assert es[1..] == [];
    }
  }

  /** One order: the same trades, and the same books afterwards. */
  lemma OrdersAgree(b: Sides, s: HpSpec.EngineState, o: BbOrder, scale: Conversion, floor: real)
    requires SameBooks(b, s, UnitsOf(scale), floor) && Comparable(o, scale, floor) && Earlier(s.orders, o)
    ensures var u := UnitsOf(scale);
      var (b', es) := McStep(b, o);
      var (s', hs) := HpSpec.Step(s, FromBbOrder(o, scale).cmd);
      McTrades(es, u) == HpTrades(hs) && SameBooks(b', s', u, floor)
  {
    hide ParseId, LimitStep, MarketStep, HpSpec.LimitStep, HpSpec.MarketStep, SameBooks, Earlier, FromBbOrder, HasNo,
        McTrades, HpTrades;
    PositiveBooks(b, s, UnitsOf(scale), floor);
    FreshNumber(b, s, UnitsOf(scale), floor, o);
    UnitsPositive(scale);
    ConvertedFields(o, scale);
    var cmd := FromBbOrder(o, scale).cmd;
    QtyPositive(o, UnitsOf(scale).q, cmd.qtyLot);
    if o.form == FORM_LIMIT {
      LimitsAgree(b, s, o, UnitsOf(scale), floor, cmd.side, cmd.priceTick, cmd.qtyLot, cmd.ts, cmd.clientId);
    } else {
      MarketsAgree(b, s, o, UnitsOf(scale), floor, cmd.side, cmd.qtyLot, cmd.ts, cmd.maxFills.value, cmd.clientId);
    }
  }

  lemma StepKeepsEarlier(s: HpSpec.EngineState, o: BbOrder, scale: Conversion, floor: real, later: BbOrder)
    requires HpRuns.WellFormed(s) && Comparable(o, scale, floor) && Earlier(s.orders, later)
    requires o.createTime < later.createTime && ParseId(o.no) != ParseId(later.no)
    ensures Earlier(HpSpec.Step(s, FromBbOrder(o, scale).cmd).0.orders, later)
  {
    hide ParseId, Match, DistinctIds, PositiveOpen, HpRuns.Uncrossed, ToFixed, HpRuns.SlotPartition;
    HpRuns.PartitionDistinct(s.orders, s.free, s.slotCount);
    var cmd := FromBbOrder(o, scale).cmd;
    if cmd.qtyLot > 0 {
      if o.form == FORM_LIMIT {
        EarlierAfterMatch(s.orders, later, HpSpec.Taker(s, cmd.side, cmd.priceTick, cmd.qtyLot, cmd.ts,
            cmd.clientId), Some(cmd.priceTick), cmd.qtyLot, None);
      } else {
        EarlierAfterMatch(s.orders, later, HpSpec.Taker(s, cmd.side, 0, cmd.qtyLot, cmd.ts, cmd.clientId), None,
            cmd.qtyLot, cmd.maxFills);
      }
    }
  }

  // ---------------------------------------------------------------- whole streams

  lemma {:induction false} RunKeepsEarlier(os: seq<BbOrder>, scale: Conversion, floor: real, later: BbOrder)
    requires ComparableStream(os, scale, floor)
    requires forall i :: 0 <= i < |os| ==> os[i].createTime < later.createTime && ParseId(os[i].no) != ParseId(later.no)
    ensures HpRuns.WellFormed(HpSpec.INITIAL)
    ensures Earlier(HpRuns.Run(HpSpec.INITIAL, Commands(os, scale)).orders, later)
  {
    hide ParseId, FromBbOrder, HpSpec.Step;
    assert HpRuns.WellFormed(HpSpec.INITIAL);
    if os != [] {
      var n := |os| - 1;
      RunKeepsEarlier(os[..n], scale, floor, later);
      assert Commands(os, scale)[..n] == Commands(os[..n], scale);
      StepKeepsEarlier(HpRuns.Run(HpSpec.INITIAL, Commands(os[..n], scale)), os[n], scale, floor, later);
    }
  }

  /**
   For every comparable stream the two engines make the same sequence of trades: same
   taker, maker, price and quantity, in the same order; and end with the same books.
   */
  lemma {:induction false} EnginesAgree(os: seq<BbOrder>, scale: Conversion, floor: real)
    requires ComparableStream(os, scale, floor)
    ensures HpRuns.WellFormed(HpSpec.INITIAL)
    ensures McTrades(McRuns.Log(os), UnitsOf(scale)) == HpTrades(HpRuns.Log(HpSpec.INITIAL, Commands(os, scale)))
    ensures SameBooks(McRuns.Run(os), HpRuns.Run(HpSpec.INITIAL, Commands(os, scale)), UnitsOf(scale), floor)
  {
    hide ParseId, FromBbOrder, HpSpec.Step, McStep, SameBooks, McTrades, HpTrades;
    StartTogether(scale, floor);
    if os != [] {
      var n := |os| - 1;
      var before := os[..n];
      EnginesAgree(before, scale, floor);
      RunKeepsEarlier(before, scale, floor, os[n]);
      assert Commands(os, scale)[..n] == Commands(before, scale);
      var b, s := McRuns.Run(before), HpRuns.Run(HpSpec.INITIAL, Commands(before, scale));
      OrdersAgree(b, s, os[n], scale, floor);
      McTradesConcat(McRuns.Log(before), McStep(b, os[n]).1, UnitsOf(scale));
      HpTradesConcat(HpRuns.Log(HpSpec.INITIAL, Commands(before, scale)),
          HpSpec.Step(s, FromBbOrder(os[n], scale).cmd).1);
    }
  }

  lemma StartTogether(scale: Conversion, floor: real)
    ensures HpRuns.WellFormed(HpSpec.INITIAL)
    ensures SameBooks(Sides([], []), HpSpec.INITIAL, UnitsOf(scale), floor)
    ensures McTrades([], UnitsOf(scale)) == HpTrades([])
  {
  }
}
