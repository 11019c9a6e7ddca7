/** Invariants of the engine over every run of commands. */
module HpRuns {
  import opened Common
  import opened HpTypes
  import opened PriceTime
  import opened OrderStores
  import opened HpSpec
  import opened HpMatching

  /** The slot ids 1 to n. */
  ghost function Slots(n: nat): multiset<nat> {
    if n == 0 then multiset{} else Slots(n - 1) + multiset{n}
  }

  lemma SlotsOnce(n: nat, k: nat)
    ensures Slots(n)[k] == if 1 <= k <= n then 1 else 0
  {
  }

  /** Live ids and free ids together are exactly the allocated slots, each once. */
  ghost predicate SlotPartition(ids: seq<nat>, free: seq<nat>, n: nat) {
    multiset(ids) + multiset(free) == Slots(n)
  }

  ghost predicate Uncrossed(orders: seq<HpOrder>) {
    forall b, a :: b in orders && a in orders && b.side == Buy && a.side == Sell ==> b.priceTick < a.priceTick
  }

  ghost predicate OpenWithinQty(orders: seq<HpOrder>) {
    forall o :: o in orders ==> o.openLot <= o.qtyLot
  }

  ghost predicate WellFormed(s: EngineState) {
    && SlotPartition(Ids(s.orders), s.free, s.slotCount)
    && PositiveOpen(s.orders)
    && OpenWithinQty(s.orders)
    && Uncrossed(s.orders)
  }

  // ---------------------------------------------------------------- slot partition

  lemma PartitionDistinct(orders: seq<HpOrder>, free: seq<nat>, n: nat)
    requires SlotPartition(Ids(orders), free, n)
    ensures DistinctIds(orders)
    ensures forall o :: o in orders ==> o.id !in free
  {
    var ids := Ids(orders);
    forall i, j | 0 <= i < j < |orders| ensures orders[i].id != orders[j].id {
      SlotsOnce(n, ids[i]);
      if ids[i] == ids[j] {
        Twice(ids, i, j);
      }
    }
    forall o | o in orders ensures o.id !in free {
      var i :| 0 <= i < |orders| && orders[i] == o;
      assert ids[i] in multiset(ids);
      SlotsOnce(n, o.id);
    }
  }

  lemma Twice(ids: seq<nat>, i: nat, j: nat)
    requires i < j < |ids| && ids[i] == ids[j]
    ensures multiset(ids)[ids[i]] >= 2
  {
    assert ids == ids[..i] + [ids[i]] + ids[i + 1..j] + [ids[j]] + ids[j + 1..];
  }

  lemma IdsCut(s: seq<HpOrder>, o: HpOrder)
    requires DistinctIds(s) && o in s
    ensures multiset(Ids(s)) == multiset(Ids(Without(s, o.id))) + multiset{o.id}
  {
    var i :| 0 <= i < |s| && s[i] == o;
    WithoutAt(s, i);
    var ids := Ids(s);
    assert ids == ids[..i] + [ids[i]] + ids[i + 1..];
    assert Ids(Without(s, o.id)) == ids[..i] + ids[i + 1..];
  }

  lemma {:induction false} FreedFront(f: HpEvent, rest: seq<HpEvent>)
    ensures Freed([f] + rest) == (if f.Fill? && f.makerOpen == 0 then [f.makerId] else []) + Freed(rest)
  {
    if rest == [] {
      assert [f] + rest == [f];
      assert [f][..0] == [];
    } else {
      var n := |rest| - 1;
      FreedFront(f, rest[..n]);
      assert ([f] + rest)[..|[f] + rest| - 1] == [f] + rest[..n];
    }
  }

  lemma ReduceFrees(s: seq<HpOrder>, maker: HpOrder, qty: int)
    requires DistinctIds(s) && maker in s && qty <= maker.openLot
    ensures multiset(Ids(s)) == multiset(Ids(Reduce(s, maker,
        qty))) + (if qty == maker.openLot then multiset{maker.id} else multiset{})
  {
    if qty == maker.openLot {
      IdsCut(s, maker);
    } else {
      assert Ids(Reduce(s, maker, qty)) == Ids(s);
    }
  }

  /** A match moves exactly the depleted makers' ids from the book to the free list. */
  lemma {:induction false} MatchFrees(s: seq<HpOrder>, taker: HpOrder, limit: Option<int>, open: int,
      budget: Option<nat>)
    requires PositiveOpen(s) && DistinctIds(s)
    ensures var m := Match(s, taker, limit, open, budget);
      multiset(Ids(s)) == multiset(Ids(m.orders)) + multiset(Freed(m.fills))
    decreases |s|, open
  {
    hide Match, Reduce, Best, DistinctIds, PositiveOpen, Stops, Freed, Ids;
    if Stops(s, taker.side, limit, open, budget) {
      MatchStops(s, taker, limit, open, budget);
      FillFolds(map[], [], Revoke(0, 0, 0));
    } else {
      var maker, qty, s', budget' := MatchInduct(s, taker, limit, open, budget);
      ReduceMembers(s, maker, qty);
      MatchFrees(s', taker, limit, open - qty, budget');
      var f := FillEvent(maker, taker, open);
      var rest := Match(s', taker, limit, open - qty, budget');
      FreedFront(f, rest.fills);
      ReduceFrees(s, maker, qty);
      assert multiset(Freed([f] + rest.fills))
          == (if qty == maker.openLot then multiset{maker.id} else multiset{}) + multiset(Freed(rest.fills));
    }
  }

  lemma AllocPartition(ids: seq<nat>, free: seq<nat>, n: nat)
    requires SlotPartition(ids, free, n)
    ensures var id := NextId(n, free);
      && SlotPartition(ids + [id], PopFree(free), Max(n, id))
      && id !in ids
  {
    var id := NextId(n, free);
    SlotsOnce(n, id);
    if free == [] {
      assert multiset(ids + [id]) == multiset(ids) + multiset{id};
      assert id !in multiset(ids);
    } else {
      assert free == PopFree(free) + [id];
      assert id in multiset(free);
      assert multiset(ids)[id] == 0;
    }
  }

  // ---------------------------------------------------------------- every command keeps the invariant

  lemma MatchKeeps(s: seq<HpOrder>, taker: HpOrder, limit: Option<int>, open: int, budget: Option<nat>)
    requires PositiveOpen(s) && DistinctIds(s) && OpenWithinQty(s) && Uncrossed(s)
    ensures var m := Match(s, taker, limit, open, budget);
      && OpenWithinQty(m.orders)
      && Uncrossed(m.orders)
  {
    hide Match, Settle, PositiveOpen, DistinctIds;
    var m := Match(s, taker, limit, open, budget);
    MatchSettles(s, taker, limit, open, budget);
    forall a | a in m.orders ensures exists o :: o in s && a == o.(openLot := a.openLot) && a.openLot <= o.openLot {
      SettleMembers(s, m.fills, a);
      var o :| o in s && a == o.(openLot := a.openLot) && a.openLot == o.openLot - Traded(m.fills, o.id);
      TradedNonNegative(s, taker, limit, open, budget, o.id);
    }
  }

  lemma {:induction false} TradedNonNegative(s: seq<HpOrder>, taker: HpOrder, limit: Option<int>, open: int,
      budget: Option<nat>, id: nat)
    requires PositiveOpen(s)
    ensures Traded(Match(s, taker, limit, open, budget).fills, id) >= 0
    decreases |s|, open
  {
    hide Match, Best, PositiveOpen, Stops, Reduce;
    if Stops(s, taker.side, limit, open, budget) {
      MatchStops(s, taker, limit, open, budget);
    } else {
      var maker, qty, s', budget' := MatchInduct(s, taker, limit, open, budget);
      TradedNonNegative(s', taker, limit, open - qty, budget', id);
    }
  }

  /** The remainder of a limit order never rests crossed. */
  lemma RestUncrossed(s: seq<HpOrder>, taker: HpOrder, open: int)
    requires PositiveOpen(s) && Uncrossed(Match(s, taker, Some(taker.priceTick), open, None).orders)
    requires Match(s, taker, Some(taker.priceTick), open, None).open > 0
    ensures var m := Match(s, taker, Some(taker.priceTick), open, None);
      Uncrossed(m.orders + [taker.(openLot := m.open)])
  {
    hide Match;
    var m := Match(s, taker, Some(taker.priceTick), open, None);
    MatchExhausts(s, taker, Some(taker.priceTick), open, None);
    FilterMembers(m.orders, CrossPred(taker.side, Some(taker.priceTick)));
    forall o | o in m.orders && o.side == Opposite(taker.side)
      ensures !Crosses(taker.side, o.priceTick, Some(taker.priceTick))
    {
      assert o !in Filter(m.orders, CrossPred(taker.side, Some(taker.priceTick)));
    }
  }

  lemma IdsAppend(s: seq<HpOrder>, o: HpOrder)
    ensures Ids(s + [o]) == Ids(s) + [o.id]
  {
  }

  lemma LimitKeeps(s: EngineState, side: Side, tick: int, qty: int, ts: nat, client: nat)
    requires WellFormed(s)
    ensures WellFormed(LimitStep(s, side, tick, qty, ts, client).0)
  {
    hide Match, PositiveOpen, DistinctIds, NextId, PopFree, Freed, AfterFills, AddClient, Slots, Uncrossed, Ids;
    if qty > 0 {
      PartitionDistinct(s.orders, s.free, s.slotCount);
      var taker := Taker(s, side, tick, qty, ts, client);
      var m := Match(s.orders, taker, Some(tick), qty, None);
      MatchKeeps(s.orders, taker, Some(tick), qty, None);
      MatchFrees(s.orders, taker, Some(tick), qty, None);
      MatchConserves(s.orders, taker, Some(tick), qty, None);
      AllocPartition(Ids(s.orders), s.free, s.slotCount);
      if m.open > 0 {
        RestUncrossed(s.orders, taker, qty);
        PositiveAppend(m.orders, taker.(openLot := m.open));
        IdsAppend(m.orders, taker.(openLot := m.open));
        assert WellFormed(LimitStep(s, side, tick, qty, ts, client).0);
      }
    }
  }

  lemma MarketKeeps(s: EngineState, side: Side, qty: int, ts: nat, maxFills: Option<nat>, client: nat)
    requires WellFormed(s)
    ensures WellFormed(MarketStep(s, side, qty, ts, maxFills, client).0)
  {
    hide Match, PositiveOpen, DistinctIds, NextId, PopFree, Freed, AfterFills, Slots;
    if qty > 0 {
      PartitionDistinct(s.orders, s.free, s.slotCount);
      var taker := Taker(s, side, 0, qty, ts, client);
      MatchKeeps(s.orders, taker, None, qty, maxFills);
      MatchFrees(s.orders, taker, None, qty, maxFills);
      AllocPartition(Ids(s.orders), s.free, s.slotCount);
    }
  }

  lemma CancelOneKeeps(s: EngineState, id: nat, clients: ClientMap)
    requires WellFormed(s) && HasId(s.orders, id)
    ensures WellFormed(EngineState(Without(s.orders, id), s.slotCount, s.free + [id], clients))
  {
    PartitionDistinct(s.orders, s.free, s.slotCount);
    var o :| o in s.orders && o.id == id;
    IdsCut(s.orders, o);
    WithoutMembers(s.orders, id);
    PositiveWithout(s.orders, id);
  }

  lemma {:induction false} CancelAllKeeps(s: EngineState, list: seq<nat>, client: nat, clients: ClientMap)
    requires WellFormed(s)
    ensures var c := CancelAll(s.orders, s.free, list, client);
      WellFormed(EngineState(c.orders, s.slotCount, c.free, clients))
  {
    if list != [] {
      var n := |list| - 1;
      CancelAllKeeps(s, list[..n], client, clients);
      var c := CancelAll(s.orders, s.free, list[..n], client);
      if HasId(c.orders, list[n]) {
        CancelOneKeeps(EngineState(c.orders, s.slotCount, c.free, clients), list[n], clients);
      }
    }
  }

  /** Every command keeps slots partitioned, open lots positive and within the order, and the book uncrossed. */
  lemma StepKeeps(s: EngineState, cmd: HpCommand)
    requires WellFormed(s)
    ensures WellFormed(Step(s, cmd).0)
  {
    hide WellFormed, LimitStep, MarketStep;
    match cmd
    case Limit(side, tick, qty, ts, client) => LimitKeeps(s, side, tick, qty, ts, client);
    case Market(side, qty, ts, maxFills, client) => MarketKeeps(s, side, qty, ts, maxFills, client);
    case Cancel(id) =>
      if HasId(s.orders, id) {
        CancelOneKeeps(s, id, DropClient(s.clients, ById(s.orders, id).clientId, id));
      } else if id in s.clients {
        CancelAllKeeps(s, s.clients[id], id, s.clients - {id});
      }
  }

  /** The state after a run of commands. */
  ghost function Run(s: EngineState, cmds: seq<HpCommand>): (r: EngineState)
    requires WellFormed(s)
    ensures WellFormed(r)
  {
    if cmds == [] then s
    else
      var before := Run(s, cmds[..|cmds| - 1]);
      StepKeeps(before, cmds[|cmds| - 1]);
      Step(before, cmds[|cmds| - 1]).0
  }

  /** All events of a run. */
  ghost function Log(s: EngineState, cmds: seq<HpCommand>): seq<HpEvent>
    requires WellFormed(s)
  {
    if cmds == [] then []
    else
      var before := Run(s, cmds[..|cmds| - 1]);
      Log(s, cmds[..|cmds| - 1]) + Step(before, cmds[|cmds| - 1]).1
  }

  // ---------------------------------------------------------------- a step, read from its events

  lemma {:induction false} TradedSnoc(fills: seq<HpEvent>, e: HpEvent, id: nat)
    requires !e.Fill?
    ensures Traded(fills + [e], id) == Traded(fills, id) && TotalTraded(fills + [e]) == TotalTraded(fills)
  {
    if fills == [] {
      assert fills + [e] == [e] && [e][1..] == [];
    } else {
      assert (fills + [e])[1..] == fills[1..] + [e];
      TradedSnoc(fills[1..], e, id);
    }
  }

  lemma {:induction false} SettleIgnores(s: seq<HpOrder>, fills: seq<HpEvent>, e: HpEvent)
    requires !e.Fill?
    ensures Settle(s, fills + [e]) == Settle(s, fills)
  {
    if s != [] {
      var n := |s| - 1;
      SettleIgnores(s[..n], fills, e);
      TradedSnoc(fills, e, s[n].id);
    }
  }

  /** A market order never rests: the book after it is the old book less what its events report as traded. */
  lemma MarketNeverRests(s: EngineState, side: Side, qty: int, ts: nat, maxFills: Option<nat>, client: nat)
    requires WellFormed(s)
    ensures var (s', es) := Step(s, Market(side, qty, ts, maxFills, client));
            && s'.orders == Settle(s.orders, es)
            && (qty > 0 ==> (TotalTraded(es) < qty <==> Revoke(NextId(s.slotCount, s.free), client, 1) in es))
  {
    hide Match, Settle, SlotPartition, PositiveOpen, Traded, TotalTraded, AfterFills, Freed;
    PartitionDistinct(s.orders, s.free, s.slotCount);
    if qty <= 0 {
      SettleNothing(s.orders);
    } else {
      var taker := Taker(s, side, 0, qty, ts, client);
      var m := Match(s.orders, taker, None, qty, maxFills);
      MatchConserves(s.orders, taker, None, qty, maxFills);
      MatchSettles(s.orders, taker, None, qty, maxFills);
      var e := Revoke(taker.id, client, 1);
      SettleIgnores(s.orders, m.fills, e);
      TradedSnoc(m.fills, e, 0);
      assert m.fills + [] == m.fills;
    }
  }

  /**
   A limit order rests exactly its untraded lots, last in arrival order, and the rest of the book is what its
   events report.
   */
  lemma LimitRestsRemainder(s: EngineState, side: Side, tick: int, qty: int, ts: nat, client: nat)
    requires WellFormed(s) && qty > 0
    ensures var (s', es) := Step(s, Limit(side, tick, qty, ts, client));
            var left := qty - TotalTraded(es);
            var id := NextId(s.slotCount, s.free);
            && left >= 0
            && s'.orders == Settle(s.orders, es)
                + (if left > 0 then [HpOrder(id, side, tick, qty, left, ts, client)] else [])
            && (left > 0 <==> Rest(id, client, side, tick, left) in es)
  {
    hide Match, Settle, SlotPartition, PositiveOpen, Traded, TotalTraded, AfterFills, Freed, AddClient;
    PartitionDistinct(s.orders, s.free, s.slotCount);
    var taker := Taker(s, side, tick, qty, ts, client);
    var m := Match(s.orders, taker, Some(tick), qty, None);
    MatchConserves(s.orders, taker, Some(tick), qty, None);
    MatchSettles(s.orders, taker, Some(tick), qty, None);
    var e := Rest(taker.id, client, side, tick, m.open);
    SettleIgnores(s.orders, m.fills, e);
    TradedSnoc(m.fills, e, 0);
    assert m.orders + [] == m.orders;
  }
}
