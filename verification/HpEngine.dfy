/** The high-performance engine: matching loops over the book, the client map and the event buffer. */
module HpEngine {
  import opened Common
  import opened HpTypes
  import opened PriceTime
  import opened OrderStores
  import opened HpLevels
  import opened HpBook
  import opened HpSpec

  /** Part-way through a match: what is left to match continues exactly what the whole match would do. */
  ghost predicate Under(s0: seq<HpOrder>, taker: HpOrder, limit: Option<int>, budget: Option<nat>,
                        s: seq<HpOrder>, open: int, used: nat, fills: seq<HpEvent>) {
    && PositiveOpen(s0) && PositiveOpen(s) && (budget.Some? ==> used <= budget.value)
    && Match(s0, taker, limit, taker.openLot, budget)
        == Prepend(fills, Match(s, taker, limit, open, Spend(budget, used)))
  }

  lemma UnderBegins(s0: seq<HpOrder>, taker: HpOrder, limit: Option<int>, budget: Option<nat>)
    requires PositiveOpen(s0)
    ensures Under(s0, taker, limit, budget, s0, taker.openLot, 0, [])
  {
    hide Match, PositiveOpen;
    var m := Match(s0, taker, limit, taker.openLot, budget);
    assert [] + m.fills == m.fills;
  }

  lemma UnderStops(s0: seq<HpOrder>, taker: HpOrder, limit: Option<int>, budget: Option<nat>,
                   s: seq<HpOrder>, open: int, used: nat, fills: seq<HpEvent>)
    requires Under(s0, taker, limit, budget, s, open, used, fills)
    requires Stops(s, taker.side, limit, open, Spend(budget, used))
    ensures PositiveOpen(s0) && Match(s0, taker, limit, taker.openLot, budget) == Matched(s, open, fills)
  {
    hide Match, PositiveOpen, Stops;
    MatchStops(s, taker, limit, open, Spend(budget, used));
    assert fills + [] == fills;
  }

  lemma UnderTrades(s0: seq<HpOrder>, taker: HpOrder, limit: Option<int>, budget: Option<nat>,
                    s: seq<HpOrder>, open: int, used: nat, fills: seq<HpEvent>, maker: HpOrder)
    requires Under(s0, taker, limit, budget, s, open, used, fills)
    requires !Stops(s, taker.side, limit, open, Spend(budget, used))
    requires Best(s, Opposite(taker.side)) == Some(maker)
    ensures var qty := Min(maker.openLot, open);
      && Under(s0, taker, limit, budget, Reduce(s, maker, qty), open - qty, used + 1,
          fills + [FillEvent(maker, taker, open)])
      && |Reduce(s, maker, qty)| <= |s| && (maker.openLot <= qty ==> |Reduce(s, maker, qty)| < |s|)
  {
    hide Match, PositiveOpen, Reduce, Best, FillEvent;
    MatchContinues(s, taker, limit, open, Spend(budget, used), maker);
    var e := FillEvent(maker, taker, open);
    var qty := Min(maker.openLot, open);
    var rest := Match(Reduce(s, maker, qty), taker, limit, open - qty, Spend(budget, used + 1)).fills;
    assert budget.Some? ==> used < budget.value;
    assert fills + ([e] + rest) == fills + [e] + rest;
  }

  class Engine {
    const book: Book
    var events: seq<HpEvent>
    var clientToId: ClientMap

    ghost predicate Valid()
      reads this, book, book.store
    {
      book.Valid() && book.pending == []
    }

    /** The abstract state: everything later behaviour depends on. */
    ghost function State(): EngineState
      reads this, book, book.store
    {
      EngineState(book.resting, |book.store.slots|, book.store.free, clientToId)
    }

    constructor ()
      ensures Valid() && fresh(book) && fresh(book.store)
      ensures State() == INITIAL && events == []
    {
      book := new Book();
      events := [];
      clientToId := map[];
    }

    lemma OrdersPositive()
      requires Valid()
      ensures PositiveOpen(State().orders)
    {
    }

    /** What a matching loop must have done once it stops. */
    twostate predicate MatchDone(taker: HpOrder, limit: Option<int>, budget: Option<nat>)
      reads this, book, book.store
      requires PositiveOpen(old(book.resting))
    {
      var m := Match(old(book.resting), taker, limit, taker.openLot, budget);
      && book.resting == m.orders
      && book.pending == [taker.(openLot := m.open)]
      && events == old(events) + m.fills
      && clientToId == AfterFills(old(clientToId), m.fills)
      && book.store.free == old(book.store.free) + Freed(m.fills)
      && |book.store.slots| == old(|book.store.slots|)
    }

    /** Trade against the front order `maker` of its level: debit the book, report, update the client map. */
    method TakeFront(maker: HpOrder, takerId: nat, takerClient: nat, takerOpen: int) returns (left: int)
      requires book.Valid() && |book.pending| == 1
      requires book.pending[0].id == takerId && book.pending[0].clientId == takerClient
      requires maker in book.resting && takerOpen > 0
      modifies this`events, this`clientToId, book, book.store
      ensures book.Valid() && book.pending == old(book.pending)
      ensures left == takerOpen - Min(maker.openLot, takerOpen)
      ensures book.resting == Reduce(old(book.resting), maker, Min(maker.openLot, takerOpen))
      ensures var e := FillEvent(maker, book.pending[0], takerOpen);
        && events == old(events) + [e]
        && clientToId == AfterFill(old(clientToId), e)
        && book.store.free == old(book.store.free) + (if e.makerOpen == 0 then [maker.id] else [])
      ensures |book.store.slots| == old(|book.store.slots|)
    {
      hide LevelsOk, Book.CacheOk, OrderStore.Valid, BestTick, Reduce, DistinctIds, DropClient;
      book.HeldDistinct();
      UniqueById(book.resting, maker);
      var fillQty := Min(maker.openLot, takerOpen);
      left := takerOpen - fillQty;
      var after := book.FillOrder(maker.id, fillQty);
      var makerOpenAfter := if after == None then 0 else maker.openLot - fillQty;
      events := events + [Fill(maker.id, takerId, maker.clientId, takerClient, maker.priceTick, fillQty,
          makerOpenAfter, left)];
      if after == None && maker.clientId != 0 {
        clientToId := DropClient(clientToId, maker.clientId, maker.id);
      }
    }

    method MatchBuy(takerId: nat, takerClient: nat, limit: Option<int>, maxFills: Option<nat>)
      requires book.Valid() && |book.pending| == 1
      requires book.pending[0].id == takerId && book.pending[0].clientId == takerClient && book.pending[0].side == Buy
      modifies this`events, this`clientToId, book, book.store
      ensures book.Valid() && MatchDone(old(book.pending[0]), limit, maxFills)
    {
      hide Under, Match, LevelsOk, Book.CacheOk, OrderStore.Valid, BestTick, Ticks, AtLevel, Filter, Reduce,
          DistinctIds, AfterFills, AfterFill, Freed, PositiveOpen, Best;
      ghost var taker, s0 := book.pending[0], book.resting;
      ghost var fills: seq<HpEvent> := [];
      var fillCount: nat := 0;
      assert taker in book.store.held;
      var takerOpen := book.store.Get(takerId).value.openLot;
      FillFolds(clientToId, [], Revoke(0, 0, 0));
      UnderBegins(s0, taker, limit, maxFills);
      while true
        invariant book.Valid() && book.pending == [taker]
        invariant maxFills.Some? ==> fillCount <= maxFills.value
        invariant Under(s0, taker, limit, maxFills, book.resting, takerOpen, fillCount, fills)
        invariant events == old(events) + fills
        invariant clientToId == AfterFills(old(clientToId), fills)
        invariant book.store.free == old(book.store.free) + Freed(fills)
        invariant |book.store.slots| == old(|book.store.slots|)
        decreases |book.resting|, takerOpen
      {
        if maxFills.Some? && fillCount >= maxFills.value {
          break;
        }
        if takerOpen <= 0 {
          break;
        }
        var best := book.BestAsk();
        if best == None {
          break;
        }
        var askTick := best.value;
        if limit.Some? && askTick > limit.value {
          break;
        }
        BestIsFront(book.resting, Sell, askTick);
        var makerId := book.FrontId(Sell, askTick).value;
        ghost var front := AtLevel(book.resting, Sell, askTick)[0];
        assert front in book.store.held;
        var maker := book.store.Get(makerId).value;
        UnderTrades(s0, taker, limit, maxFills, book.resting, takerOpen, fillCount, fills, maker);
        ghost var e := FillEvent(maker, taker, takerOpen);
        FillFolds(old(clientToId), fills, e);
        takerOpen := TakeFront(maker, takerId, takerClient, takerOpen);
        fillCount := fillCount + 1;
        fills := fills + [e];
      }
      UnderStops(s0, taker, limit, maxFills, book.resting, takerOpen, fillCount, fills);
      book.SetTakerOpen(takerId, takerOpen);
    }

    method MatchSell(takerId: nat, takerClient: nat, limit: Option<int>, maxFills: Option<nat>)
      requires book.Valid() && |book.pending| == 1
      requires book.pending[0].id == takerId && book.pending[0].clientId == takerClient && book.pending[0].side == Sell
      modifies this`events, this`clientToId, book, book.store
      ensures book.Valid() && MatchDone(old(book.pending[0]), limit, maxFills)
    {
      hide Under, Match, LevelsOk, Book.CacheOk, OrderStore.Valid, BestTick, Ticks, AtLevel, Filter, Reduce,
          DistinctIds, AfterFills, AfterFill, Freed, PositiveOpen, Best;
      ghost var taker, s0 := book.pending[0], book.resting;
      ghost var fills: seq<HpEvent> := [];
      var fillCount: nat := 0;
      assert taker in book.store.held;
      var takerOpen := book.store.Get(takerId).value.openLot;
      FillFolds(clientToId, [], Revoke(0, 0, 0));
      UnderBegins(s0, taker, limit, maxFills);
      while true
        invariant book.Valid() && book.pending == [taker]
        invariant maxFills.Some? ==> fillCount <= maxFills.value
        invariant Under(s0, taker, limit, maxFills, book.resting, takerOpen, fillCount, fills)
        invariant events == old(events) + fills
        invariant clientToId == AfterFills(old(clientToId), fills)
        invariant book.store.free == old(book.store.free) + Freed(fills)
        invariant |book.store.slots| == old(|book.store.slots|)
        decreases |book.resting|, takerOpen
      {
        if maxFills.Some? && fillCount >= maxFills.value {
          break;
        }
        if takerOpen <= 0 {
          break;
        }
        var best := book.BestBid();
        if best == None {
          break;
        }
        var bidTick := best.value;
        if limit.Some? && bidTick < limit.value {
          break;
        }
        BestIsFront(book.resting, Buy, bidTick);
        var makerId := book.FrontId(Buy, bidTick).value;
        ghost var front := AtLevel(book.resting, Buy, bidTick)[0];
        assert front in book.store.held;
        var maker := book.store.Get(makerId).value;
        UnderTrades(s0, taker, limit, maxFills, book.resting, takerOpen, fillCount, fills, maker);
        ghost var e := FillEvent(maker, taker, takerOpen);
        FillFolds(old(clientToId), fills, e);
        takerOpen := TakeFront(maker, takerId, takerClient, takerOpen);
        fillCount := fillCount + 1;
        fills := fills + [e];
      }
      UnderStops(s0, taker, limit, maxFills, book.resting, takerOpen, fillCount, fills);
      book.SetTakerOpen(takerId, takerOpen);
    }

    method OnLimit(side: Side, priceTick: int, qtyLot: int, ts: nat, clientId: nat)
      requires Valid()
      modifies this`events, this`clientToId, book, book.store
      ensures Valid()
      ensures State() == LimitStep(old(State()), side, priceTick, qtyLot, ts, clientId).0
      ensures events == old(events) + LimitStep(old(State()), side, priceTick, qtyLot, ts, clientId).1
    {
      hide LevelsOk, Book.CacheOk, OrderStore.Valid, Match, PositiveOpen, AfterFills, Freed, AddClient, NextId, PopFree;
      if qtyLot <= 0 {
        return;
      }
      var takerId := book.AddTaker(HpOrder(0, side, priceTick, qtyLot, qtyLot, ts, clientId));
      ghost var m := Match(book.resting, book.pending[0], Some(priceTick), qtyLot, None);
      match side {
        case Buy => MatchBuy(takerId, clientId, Some(priceTick), None);
        case Sell => MatchSell(takerId, clientId, Some(priceTick), None);
      }
      assert book.pending[0] in book.store.held;
      var remaining := book.store.Get(takerId).value.openLot;
      if remaining > 0 {
        clientToId := AddClient(clientToId, clientId, takerId);
        book.Rest(takerId);
        events := events + [HpEvent.Rest(takerId, clientId, side, priceTick, remaining)];
        assert events == old(events) + (m.fills + [HpEvent.Rest(takerId, clientId, side, priceTick, remaining)]);
      } else {
        book.DropTaker(takerId);
      }
    }

    method OnMarket(side: Side, qtyLot: int, ts: nat, maxFills: Option<nat>, clientId: nat)
      requires Valid()
      modifies this`events, this`clientToId, book, book.store
      ensures Valid()
      ensures State() == MarketStep(old(State()), side, qtyLot, ts, maxFills, clientId).0
      ensures events == old(events) + MarketStep(old(State()), side, qtyLot, ts, maxFills, clientId).1
    {
      hide LevelsOk, Book.CacheOk, OrderStore.Valid, Match, PositiveOpen, AfterFills, Freed, NextId, PopFree;
      if qtyLot <= 0 {
        return;
      }
      var takerId := book.AddTaker(HpOrder(0, side, 0, qtyLot, qtyLot, ts, clientId));
      ghost var m := Match(book.resting, book.pending[0], None, qtyLot, maxFills);
      match side {
        case Buy => MatchBuy(takerId, clientId, None, maxFills);
        case Sell => MatchSell(takerId, clientId, None, maxFills);
      }
      assert book.pending[0] in book.store.held;
      var remaining := book.store.Get(takerId).value.openLot;
      if remaining > 0 {
        events := events + [Revoke(takerId, clientId, 1)];
        assert events == old(events) + (m.fills + [Revoke(takerId, clientId, 1)]);
      }
      book.DropTaker(takerId);
    }

    method OnCancel(id: nat)
      requires Valid()
      modifies this`events, this`clientToId, book, book.store
      ensures Valid()
      ensures State() == CancelStep(old(State()), id).0
      ensures events == old(events) + CancelStep(old(State()), id).1
    {
      hide LevelsOk, Book.CacheOk, DistinctIds, BestTick, DropClient, Without;
      book.HeldDistinct();
      var found := book.store.Get(id);
      assert book.store.held == book.resting;
      if found.Some? {
        UniqueById(book.resting, found.value);
        var client := found.value.clientId;
        var ok := book.Cancel(id);
        clientToId := DropClient(clientToId, client, id);
        events := events + [Revoke(id, client, 0)];
        return;
      }
      if id in clientToId {
        var list := clientToId[id];
        clientToId := clientToId - {id};
        CancelAllOf(list, id);
      }
    }

    method CancelAllOf(list: seq<nat>, client: nat)
      requires Valid()
      modifies this`events, book, book.store
      ensures Valid()
      ensures var c := CancelAll(old(book.resting), old(book.store.free), list, client);
        && book.resting == c.orders
        && book.store.free == c.free
        && events == old(events) + c.events
      ensures |book.store.slots| == old(|book.store.slots|)
    {
      hide LevelsOk, Book.CacheOk, OrderStore.Valid, BestTick, Without, PositiveOpen;
      var i := 0;
      while i < |list|
        invariant 0 <= i <= |list|
        invariant Valid()
        invariant book.resting == CancelAll(old(book.resting), old(book.store.free), list[..i], client).orders
        invariant book.store.free == CancelAll(old(book.resting), old(book.store.free), list[..i], client).free
        invariant events == old(events) + CancelAll(old(book.resting), old(book.store.free), list[..i], client).events
        invariant |book.store.slots| == old(|book.store.slots|)
      {
        assert list[..i + 1][..i] == list[..i];
        ghost var before := book.resting;
        var ok := book.Cancel(list[i]);
        if ok {
          events := events + [Revoke(list[i], client, 0)];
        } else {
          WithoutAbsent(before, list[i]);
        }
        i := i + 1;
      }
      assert list[..i] == list;
    }

    /** Process one command: the new state and the events are exactly those of the specification. */
    method OnOrder(cmd: HpCommand) returns (out: seq<HpEvent>)
      requires Valid()
      modifies this`events, this`clientToId, book, book.store
      ensures Valid()
      ensures State() == Step(old(State()), cmd).0
      ensures out == Step(old(State()), cmd).1
    {
      hide LevelsOk, Book.CacheOk, OrderStore.Valid, PositiveOpen, LimitStep, MarketStep, CancelStep;
      events := [];
      match cmd {
        case Limit(side, priceTick, qtyLot, ts, clientId) => OnLimit(side, priceTick, qtyLot, ts, clientId);
        case Cancel(id) => OnCancel(id);
        case Market(side, qtyLot, ts, maxFills, clientId) => OnMarket(side, qtyLot, ts, maxFills, clientId);
      }
      out := events;
    }
  }
}
