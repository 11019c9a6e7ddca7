/** The price-level order book: two level indexes, the order store, cached best ticks, a level pool. */
module HpBook {
  import opened Common
  import opened HpTypes
  import opened PriceTime
  import opened HpLevels
  import opened OrderStores

  const LEVEL_POOL_CAP: nat := 256

  ghost predicate PoolOk(pool: seq<Level>) {
    |pool| <= LEVEL_POOL_CAP && forall i :: 0 <= i < |pool| ==> pool[i] == EMPTY_LEVEL
  }

  class Book {
    var bids: map<int, Level>
    var asks: map<int, Level>
    const store: OrderStore
    var bestBidTick: Option<int>
    var bestAskTick: Option<int>
    var levelPool: seq<Level>
    /** The resting orders in arrival order: what every other field is a view of. */
    ghost var resting: seq<HpOrder>
    /** A taker being matched: stored, but on no level yet. */
    ghost var pending: seq<HpOrder>

    ghost predicate LevelsValid()
      reads this
    {
      && LevelsOk(bids, resting, Buy)
      && LevelsOk(asks, resting, Sell)
      && CacheOk()
      && PositiveOpen(resting)
    }

    ghost predicate Valid()
      reads this, store
    {
      && store.Valid()
      && store.held == resting + pending
      && |pending| <= 1
      && LevelsValid()
    }

    /** Everything but the cached level totals agrees. */
    ghost predicate ValidButTotals()
      reads this, store
    {
      && store.Valid()
      && store.held == resting + pending
      && |pending| <= 1
      && LevelIdsOk(bids, resting, Buy)
      && LevelIdsOk(asks, resting, Sell)
      && CacheOk()
      && PositiveOpen(resting)
    }

    constructor ()
      ensures Valid() && fresh(store)
      ensures resting == [] && pending == [] && store.free == [] && store.slots == []
    {
      bids := map[];
      asks := map[];
      store := new OrderStore();
      bestBidTick := None;
      bestAskTick := None;
      levelPool := [];
      resting := [];
      pending := [];
    }

    function BestAsk(): (r: Option<int>)
      reads this, store
      requires Valid()
      ensures r == BestTick(Ticks(resting, Sell), Sell)
    {
      bestAskTick
    }

    function BestBid(): (r: Option<int>)
      reads this, store
      requires Valid()
      ensures r == BestTick(Ticks(resting, Buy), Buy)
    {
      bestBidTick
    }

    function FrontId(side: Side, tick: int): (r: Option<nat>)
      reads this, store
      requires Valid()
      ensures r == None <==> AtLevel(resting, side, tick) == []
      ensures r.Some? ==> r.value == AtLevel(resting, side, tick)[0].id
    {
      TickIffLevel(resting, side, tick);
      var levels := if side == Buy then bids else asks;
      if tick in levels && levels[tick].ids != [] then Some(levels[tick].ids[0]) else None
    }

    method TakeLevel() returns (level: Level)
      requires PoolOk(levelPool)
      modifies this`levelPool
      ensures PoolOk(levelPool) && level == EMPTY_LEVEL
    {
      if levelPool == [] {
        level := EMPTY_LEVEL;
      } else {
        level := levelPool[|levelPool| - 1];
        levelPool := levelPool[..|levelPool| - 1];
      }
    }

    method RecycleLevel()
      requires PoolOk(levelPool)
      modifies this`levelPool
      ensures PoolOk(levelPool)
    {
      if |levelPool| < LEVEL_POOL_CAP {
        levelPool := levelPool + [EMPTY_LEVEL];
      }
    }

    ghost predicate CacheOk()
      reads `bids, `asks, `bestBidTick, `bestAskTick, `levelPool
    {
      && bestBidTick == BestTick(bids.Keys, Buy)
      && bestAskTick == BestTick(asks.Keys, Sell)
      && PoolOk(levelPool)
    }

    /** Append an order id to a level, creating the level from the pool, and refresh the cached best tick. */
    method PushLevel(side: Side, tick: int, id: nat, lot: int)
      requires CacheOk()
      modifies this`bids, this`asks, this`bestBidTick, this`bestAskTick, this`levelPool
      ensures CacheOk()
      ensures bids ==
        if side == Buy then old(bids[tick := LevelOr(bids, tick, EMPTY_LEVEL).Push(id, lot)]) else old(bids)
      ensures asks ==
        if side == Sell then old(asks[tick := LevelOr(asks, tick, EMPTY_LEVEL).Push(id, lot)]) else old(asks)
    {
      var missing := EMPTY_LEVEL;
      match side {
        case Buy =>
          if tick !in bids {
            missing := TakeLevel();
          }
          BestTickInsert(bids.Keys, Buy, tick);
          bids := bids[tick := LevelOr(bids, tick, missing).Push(id, lot)];
          assert bids.Keys == old(bids).Keys + {tick};
          if bestBidTick == None || tick > bestBidTick.value {
            bestBidTick := Some(tick);
          }
        case Sell =>
          if tick !in asks {
            missing := TakeLevel();
          }
          BestTickInsert(asks.Keys, Sell, tick);
          asks := asks[tick := LevelOr(asks, tick, missing).Push(id, lot)];
          assert asks.Keys == old(asks).Keys + {tick};
          if bestAskTick == None || tick < bestAskTick.value {
            bestAskTick := Some(tick);
          }
      }
    }

    /** Remove a level that emptied, recycle it, and refresh the cached best tick. */
    method RemoveEmptyLevel(side: Side, tick: int)
      requires CacheOk()
      modifies this`bids, this`asks, this`bestBidTick, this`bestAskTick, this`levelPool
      ensures CacheOk()
      ensures bids == if side == Buy then old(bids) - {tick} else old(bids)
      ensures asks == if side == Sell then old(asks) - {tick} else old(asks)
    {
      match side {
        case Buy =>
          if tick in bids {
            RecycleLevel();
          }
          if bestBidTick != Some(tick) {
            BestTickRemove(bids.Keys, Buy, tick);
          }
          bids := bids - {tick};
          assert bids.Keys == old(bids).Keys - {tick};
          if bestBidTick == Some(tick) {
            bestBidTick := BestTick(bids.Keys, Buy);
          }
        case Sell =>
          if tick in asks {
            RecycleLevel();
          }
          if bestAskTick != Some(tick) {
            BestTickRemove(asks.Keys, Sell, tick);
          }
          asks := asks - {tick};
          assert asks.Keys == old(asks).Keys - {tick};
          if bestAskTick == Some(tick) {
            bestAskTick := BestTick(asks.Keys, Sell);
          }
      }
    }

    /**
     Put a stored order on its price level. Everything stays in agreement for a taker that was on no level yet;
     an order that was resting already is counted twice on its level.
     */
    method Rest(id: nat)
      requires Valid() && exists o :: o in store.held && o.id == id && o.openLot > 0
      modifies this
      ensures forall o :: o in store.held && o.id == id ==>
        && bids == (if o.side == Buy then Pushed(old(bids), o) else old(bids))
        && asks == (if o.side == Sell then Pushed(old(asks), o) else old(asks))
        && (Valid() <==> o in old(pending))
        && resting == old(resting) + (if o in old(pending) then old(pending) else [])
        && pending == if o in old(pending) then [] else old(pending)
    {
      hide SlotsHold, FreeOk, LevelsOk, PositiveOpen, BestTick, PoolOk, LevelOr, DistinctIds;
      HeldDistinct();
      var order := store.Get(id).value;
      UniqueById(store.held, order);
      if order in resting {
        TwiceOnLevel(if order.side == Buy then bids else asks, resting, order);
      } else {
        PushKeepsLevels(if order.side == Buy then bids else asks, resting, order);
        PushKeepsOther(if order.side == Buy then asks else bids, resting, order, Opposite(order.side));
        PositiveAppend(resting, order);
      }
      PushLevel(order.side, order.priceTick, id, order.openLot);
      if order in pending {
        assert pending == [order];
        resting := resting + [order];
        pending := [];
      }
    }

    /** Take `o`'s id and its open lots out of its level, if the level is there; an emptied level goes. */
    method RemoveFromLevel(o: HpOrder)
      requires CacheOk()
      modifies this`bids, this`asks, this`bestBidTick, this`bestAskTick, this`levelPool
      ensures CacheOk()
      ensures bids == if o.side == Buy then DebitLevel(old(bids), o, o.openLot) else old(bids)
      ensures asks == if o.side == Sell then DebitLevel(old(asks), o, o.openLot) else old(asks)
    {
      var tick := o.priceTick;
      if tick !in (if o.side == Buy then bids else asks) {
        return;
      }
      var level := if o.side == Buy then bids[tick] else asks[tick];
      level := Level(Max(level.totalLot - o.openLot, 0), Retain(level.ids, o.id));
      StoreLevel(o.side, tick, level);
      if level.ids == [] {
        RemoveEmptyLevel(o.side, tick);
      }
    }

    /** Write back a level obtained by `get_mut`. */
    method StoreLevel(side: Side, tick: int, level: Level)
      requires CacheOk() && tick in (if side == Buy then bids else asks)
      modifies this`bids, this`asks
      ensures CacheOk()
      ensures bids == if side == Buy then old(bids)[tick := level] else old(bids)
      ensures asks == if side == Sell then old(asks)[tick := level] else old(asks)
    {
      if side == Buy {
        bids := bids[tick := level];
        assert bids.Keys == old(bids).Keys;
      } else {
        asks := asks[tick := level];
        assert asks.Keys == old(asks).Keys;
      }
    }

    /** The level views after `o` leaves the book and its own lots are debited. */
    lemma DropViews(o: HpOrder)
      requires LevelsValid() && DistinctIds(resting) && o in resting
      ensures o.side == Buy ==> LevelsOk(DebitLevel(bids, o, o.openLot), Without(resting, o.id), Buy)
      ensures o.side == Buy ==> LevelsOk(asks, Without(resting, o.id), Sell)
      ensures o.side == Sell ==> LevelsOk(DebitLevel(asks, o, o.openLot), Without(resting, o.id), Sell)
      ensures o.side == Sell ==> LevelsOk(bids, Without(resting, o.id), Buy)
      ensures PositiveOpen(Without(resting, o.id))
    {
      hide LevelsOk, DebitLevel, PositiveOpen;
      DropKeepsLevels(if o.side == Buy then bids else asks, resting, o);
      DropKeepsOther(if o.side == Buy then asks else bids, resting, o, Opposite(o.side));
      PositiveWithout(resting, o.id);
    }

    /** The level views after `o` leaves the book and `qty` lots are debited, at least its own. */
    lemma OverfillViews(o: HpOrder, qty: int)
      requires LevelsValid() && DistinctIds(resting) && o in resting && qty >= o.openLot
      ensures o.priceTick in (if o.side == Buy then bids else asks)
      ensures PositiveOpen(Without(resting, o.id))
      ensures var mine, other := if o.side == Buy then bids else asks, if o.side == Buy then asks else bids;
        var after := Without(resting, o.id);
        && LevelIdsOk(DebitLevel(mine, o, qty), after, o.side)
        && LevelsOk(other, after, Opposite(o.side)) && LevelIdsOk(other, after, Opposite(o.side))
        && (LevelsOk(DebitLevel(mine, o, qty), after, o.side)
            <==> qty == o.openLot || AtLevel(after, o.side, o.priceTick) == [])
    {
      hide LevelsOk, LevelIdsOk, DebitLevel, PositiveOpen, AtLevel;
      var mine, other := if o.side == Buy then bids else asks, if o.side == Buy then asks else bids;
      OverfillTotal(mine, resting, o, qty);
      DebitKeepsIds(mine, resting, o, qty);
      DropKeepsOther(other, resting, o, Opposite(o.side));
      IdsOfLevels(other, Without(resting, o.id), Opposite(o.side));
      PositiveWithout(resting, o.id);
    }

    method Cancel(id: nat) returns (ok: bool)
      requires Valid() && pending == []
      modifies this, store
      ensures Valid() && pending == []
      ensures ok <==> exists o :: o in old(resting) && o.id == id
      ensures resting == Without(old(resting), id)
      ensures store.free == old(store.free) + (if ok then [id] else [])
      ensures |store.slots| == old(|store.slots|)
    {
      hide SlotsHold, FreeOk, LevelsOk, PositiveOpen, BestTick, PoolOk, DebitLevel;
      assert store.held == resting;
      HeldDistinct();
      var r := store.Remove(id);
      if r == None {
        WithoutAbsent(resting, id);
        return false;
      }
      DropViews(r.value);
      RemoveFromLevel(r.value);
      resting := Without(resting, id);
      ok := true;
    }

    lemma HeldDistinct()
      requires Valid()
      ensures DistinctIds(resting)
      ensures forall i, j :: 0 <= i < |resting| && 0 <= j < |pending| ==> resting[i].id != pending[j].id
    {
      forall i, j | 0 <= i < j < |resting| ensures resting[i].id != resting[j].id {
        assert store.held[i] == resting[i] && store.held[j] == resting[j];
      }
      forall i, j | 0 <= i < |resting| && 0 <= j < |pending| ensures resting[i].id != pending[j].id {
        assert store.held[i] == resting[i] && store.held[|resting| + j] == pending[j];
      }
    }

    /** The level views after `o` keeps `open` lots. */
    lemma ReopenViews(o: HpOrder, open: int)
      requires LevelsValid() && DistinctIds(resting) && o in resting && 0 < open
      ensures o.priceTick in (if o.side == Buy then bids else asks)
      ensures (if o.side == Buy then bids else asks)[o.priceTick].totalLot - (o.openLot - open) >= 0
      ensures o.side == Buy ==> LevelsOk(
        bids[o.priceTick := Level(bids[o.priceTick].totalLot - (o.openLot - open), bids[o.priceTick].ids)],
        WithOpen(resting, o.id, open), Buy)
      ensures o.side == Buy ==> LevelsOk(asks, WithOpen(resting, o.id, open), Sell)
      ensures o.side == Sell ==> LevelsOk(
        asks[o.priceTick := Level(asks[o.priceTick].totalLot - (o.openLot - open), asks[o.priceTick].ids)],
        WithOpen(resting, o.id, open), Sell)
      ensures o.side == Sell ==> LevelsOk(bids, WithOpen(resting, o.id, open), Buy)
      ensures PositiveOpen(WithOpen(resting, o.id, open))
    {
      hide LevelsOk;
      var levels := if o.side == Buy then bids else asks;
      LevelCovers(levels, resting, o, o.openLot - open);
      ReopenKeepsLevels(levels, resting, o, open);
      assert levels[o.priceTick].totalLot - o.openLot + open == levels[o.priceTick].totalLot - (o.openLot - open);
      ReopenKeepsOther(if o.side == Buy then asks else bids, resting, o, open, Opposite(o.side));
    }

    /** A partial fill: the order stays, its slot and its level total shrink by `qty`. */
    method KeepFilled(o: HpOrder, qty: int)
      requires Valid() && o in resting && qty < o.openLot
      modifies this, store
      ensures Valid() && pending == old(pending)
      ensures resting == WithOpen(old(resting), o.id, o.openLot - qty)
      ensures store.free == old(store.free) && |store.slots| == old(|store.slots|)
    {
      hide SlotsHold, FreeOk, LevelsOk, PositiveOpen, BestTick, PoolOk, DistinctIds;
      HeldDistinct();
      var remaining := o.openLot - qty;
      ReopenViews(o, remaining);
      store.SetOpen(o.id, remaining);
      WithOpenConcat(resting, pending, o.id, remaining);
      WithOpenAbsent(pending, o.id, remaining);
      var level := if o.side == Buy then bids[o.priceTick] else asks[o.priceTick];
      StoreLevel(o.side, o.priceTick, Level(Max(level.totalLot - qty, 0), level.ids));
      resting := WithOpen(resting, o.id, remaining);
    }

    /**
     A fill that depletes the order: it leaves its level (usually from the front) and its slot. The level is
     debited by the whole fill, so a fill beyond the open lots spoils the total unless the level is gone.
     */
    method RemoveFilled(o: HpOrder, qty: int)
      requires Valid() && o in resting && qty >= o.openLot
      modifies this, store
      ensures ValidButTotals() && pending == old(pending)
      ensures Valid() <==> qty == o.openLot || AtLevel(resting, o.side, o.priceTick) == []
      ensures resting == Without(old(resting), o.id)
      ensures store.free == old(store.free) + [o.id] && |store.slots| == old(|store.slots|)
    {
      hide SlotsHold, FreeOk, LevelsOk, LevelIdsOk, PositiveOpen, BestTick, PoolOk, CacheOk, DistinctIds, DebitLevel,
          Retain, Without, AtLevel;
      HeldDistinct();
      OverfillViews(o, qty);
      DropStored(o);
      assert o in store.held;
      store.SetOpen(o.id, 0);
      var level := if o.side == Buy then bids[o.priceTick] else asks[o.priceTick];
      LevelIdsDistinct(if o.side == Buy then bids else asks, resting, o.side, o.priceTick);
      var ids := Retain(level.ids, o.id);
      if level.ids != [] && level.ids[0] == o.id {
        RetainFront(level.ids);
        ids := level.ids[1..];
      }
      DebitIsCut(if o.side == Buy then bids else asks, o, qty, ids);
      StoreLevel(o.side, o.priceTick, Level(Max(level.totalLot - qty, 0), ids));
      if ids == [] {
        RemoveEmptyLevel(o.side, o.priceTick);
      }
      var _ := store.Remove(o.id);
      resting := Without(resting, o.id);
    }

    lemma DropStored(o: HpOrder)
      requires Valid() && o in resting
      ensures Without(WithOpen(store.held, o.id, 0), o.id) == Without(resting, o.id) + pending
      ensures exists x :: x in WithOpen(store.held, o.id, 0) && x.id == o.id
    {
      hide SlotsHold, FreeOk, LevelsValid, DistinctIds, Without;
      HeldDistinct();
      WithoutWithOpen(store.held, o.id, 0);
      WithoutConcat(resting, pending, o.id);
      WithoutAbsent(pending, o.id);
      var i :| 0 <= i < |resting| && resting[i] == o;
      assert WithOpen(store.held, o.id, 0)[i].id == o.id;
    }

    /**
     Trade `qty` lots of a resting order; a depleted order leaves the book. A fill beyond the open lots
     is taken too, and leaves everything in agreement unless other orders share the level.
     */
    method FillOrder(id: nat, qty: int) returns (r: Option<HpOrder>)
      requires Valid()
      requires forall o :: o in pending ==> o.id != id
      modifies this, store
      ensures ValidButTotals() && pending == old(pending)
      ensures (forall o :: o in old(resting) ==> o.id != id) ==>
        Valid() && r == None && resting == old(resting) && store.free == old(store.free)
      ensures forall o :: o in old(resting) && o.id == id ==>
        && resting == Reduce(old(resting), o, qty)
        && r == (if o.openLot - qty <= 0 then None else Some(o.(openLot := o.openLot - qty)))
        && store.free == old(store.free) + (if r == None then [id] else [])
        && (Valid() <==> qty <= o.openLot || AtLevel(resting, o.side, o.priceTick) == [])
      ensures |store.slots| == old(|store.slots|)
    {
      hide SlotsHold, FreeOk, LevelsOk, LevelIdsOk, CacheOk, PositiveOpen, DistinctIds, Without, WithOpen, AtLevel;
      HeldDistinct();
      r := store.Get(id);
      if r == None {
        StillButTotals();
        return None;
      }
      var o := r.value;
      assert o in resting;
      UniqueById(resting, o);
      if o.openLot - qty > 0 {
        KeepFilled(o, qty);
        StillButTotals();
        r := Some(o.(openLot := o.openLot - qty));
      } else {
        RemoveFilled(o, qty);
        r := None;
      }
    }

    lemma StillButTotals()
      requires Valid()
      ensures ValidButTotals()
    {
      hide SlotsHold, FreeOk, LevelsOk, LevelIdsOk, CacheOk, PositiveOpen;
      IdsOfLevels(bids, resting, Buy);
      IdsOfLevels(asks, resting, Sell);
    }

    lemma DebitIsCut(levels: map<int, Level>, o: HpOrder, qty: int, ids: seq<nat>)
      requires o.priceTick in levels && ids == Retain(levels[o.priceTick].ids, o.id)
      ensures DebitLevel(levels, o, qty) ==
        if ids == [] then levels[o.priceTick := Level(Max(levels[o.priceTick].totalLot - qty, 0), ids)] - {o.priceTick}
        else levels[o.priceTick := Level(Max(levels[o.priceTick].totalLot - qty, 0), ids)]
    {
    }

    /** Store an incoming order before it is matched. */
    method AddTaker(order: HpOrder) returns (id: nat)
      requires Valid() && pending == []
      modifies this, store
      ensures Valid() && resting == old(resting)
      ensures id == NextId(old(|store.slots|), old(store.free))
      ensures pending == [order.(id := id)]
      ensures store.free == PopFree(old(store.free))
      ensures |store.slots| == Max(old(|store.slots|), id)
    {
      hide SlotsHold, FreeOk, LevelsOk, PositiveOpen, BestTick, PoolOk;
      id := store.Insert(order);
      pending := [order.(id := id)];
    }

    /** Write the taker's open lots back to its slot. */
    method SetTakerOpen(id: nat, open: int)
      requires Valid() && |pending| == 1 && pending[0].id == id
      modifies this, store
      ensures Valid() && resting == old(resting)
      ensures pending == [old(pending)[0].(openLot := open)]
      ensures store.free == old(store.free) && |store.slots| == old(|store.slots|)
    {
      hide SlotsHold, FreeOk, LevelsOk, PositiveOpen, BestTick, PoolOk, DistinctIds;
      HeldDistinct();
      store.SetOpen(id, open);
      WithOpenConcat(resting, pending, id, open);
      WithOpenAbsent(resting, id, open);
      pending := WithOpen(pending, id, open);
    }

    /** Remove the taker from the store without resting it. */
    method DropTaker(id: nat)
      requires Valid() && |pending| == 1 && pending[0].id == id
      modifies this, store
      ensures Valid() && resting == old(resting) && pending == []
      ensures store.free == old(store.free) + [id] && |store.slots| == old(|store.slots|)
    {
      hide SlotsHold, FreeOk, LevelsOk, PositiveOpen, BestTick, PoolOk, DistinctIds;
      HeldDistinct();
      assert pending[0] in store.held;
      var _ := store.Remove(id);
      WithoutConcat(resting, pending, id);
      WithoutAbsent(resting, id);
      pending := [];
    }
  }
}
