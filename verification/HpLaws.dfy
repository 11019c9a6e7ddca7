/** What a command does to the engine, told from the book before it, the events and the book after it. */
module HpLaws {
  import opened Common
  import opened HpTypes
  import opened PriceTime
  import opened OrderStores
  import opened HpSpec
  import opened HpMatching
  import opened HpRuns
  import opened HpClients

  // ---------------------------------------------------------------- cancelling

  /**
   Cancelling a live order takes out that order alone, frees its slot last, reports it under its
   client, and takes its id off that client's list only.
   */
  lemma CancelLive(s: EngineState, i: nat)
    requires WellFormed(s) && i < |s.orders|
    ensures var o := s.orders[i];
      var (s', es) := Step(s, Cancel(o.id));
      && s'.orders == s.orders[..i] + s.orders[i + 1..]
      && s'.free == s.free + [o.id] && s'.slotCount == s.slotCount
      && es == [Revoke(o.id, o.clientId, 0)]
      && (forall c :: c != o.clientId ==> ListOf(s'.clients, c) == ListOf(s.clients, c))
      && (forall x :: x in ListOf(s'.clients, o.clientId) <==> x in ListOf(s.clients, o.clientId) && x != o.id)
  {
    hide Without, Retain;
    var o := s.orders[i];
    assert DistinctIds(s.orders) by { WellFormedDistinct(s); }
    assert o in s.orders && HasId(s.orders, o.id);
    UniqueById(s.orders, o);
    assert ById(s.orders, o.id) == o;
    WithoutAt(s.orders, i);
    RetainMembers(ListOf(s.clients, o.clientId), o.id);
  }

  lemma {:induction false} RetainMembers(l: seq<nat>, id: nat)
    ensures forall x :: x in Retain(l, id) <==> x in l && x != id
  {
    if l != [] {
      var n := |l| - 1;
      RetainMembers(l[..n], id);
      assert l == l[..n] + [l[n]];
    }
  }

  ghost function NotListed(list: seq<nat>): HpOrder -> bool {
    (o: HpOrder) => o.id !in list
  }

  ghost function NotOf(client: nat): HpOrder -> bool {
    (o: HpOrder) => o.clientId != client
  }

  lemma {:induction false} FilterSame(s: seq<HpOrder>, p: HpOrder -> bool, q: HpOrder -> bool)
    requires forall o :: o in s ==> p(o) == q(o)
    ensures Filter(s, p) == Filter(s, q)
  {
    if s != [] {
      FilterSame(s[..|s| - 1], p, q);
    }
  }

  lemma {:induction false} FilterAll(s: seq<HpOrder>, p: HpOrder -> bool)
    requires forall o :: o in s ==> p(o)
    ensures Filter(s, p) == s
  {
    if s != [] {
      FilterAll(s[..|s| - 1], p);
    }
  }

  lemma {:induction false} ListOneMore(s: seq<HpOrder>, list: seq<nat>, id: nat)
    ensures Without(Filter(s, NotListed(list)), id) == Filter(s, NotListed(list + [id]))
  {
    if s != [] {
      var n := |s| - 1;
      ListOneMore(s[..n], list, id);
      WithoutAppend(Filter(s[..n], NotListed(list)), s[n], id);
    }
  }

  function Revokes(list: seq<nat>, client: nat): seq<HpEvent> {
    seq(|list|, k requires 0 <= k < |list| => Revoke(list[k], client, 0))
  }

  lemma {:induction false} CancelAllLive(orders: seq<HpOrder>, free: seq<nat>, list: seq<nat>, client: nat)
    requires forall k :: 0 <= k < |list| ==> HasId(orders, list[k])
    requires forall j, k :: 0 <= j < k < |list| ==> list[j] != list[k]
    ensures CancelAll(orders, free, list, client)
         == Cancelled(Filter(orders, NotListed(list)), free + list, Revokes(list, client))
  {
    if list == [] {
      FilterAll(orders, NotListed(list));
    } else {
      var n := |list| - 1;
      var before, id := list[..n], list[n];
      CancelAllLive(orders, free, before, client);
      var o :| o in orders && o.id == id;
      FilterMembers(orders, NotListed(before));
      assert o in Filter(orders, NotListed(before));
      ListOneMore(orders, before, id);
      assert before + [id] == list;
      assert free + before + [id] == free + list;
      assert Revokes(before, client) + [Revoke(id, client, 0)] == Revokes(list, client);
    }
  }

  /**
   Cancelling by client takes out exactly that client's orders, keeps the others as they were, frees
   the slots and reports the orders oldest first. With no such order nothing happens at all.
   */
  lemma CancelClient(s: EngineState, client: nat)
    requires WellFormed(s) && ClientsExact(s.orders, s.clients) && !HasId(s.orders, client)
    ensures var mine := OfClient(s.orders, client);
      var (s', es) := Step(s, Cancel(client));
      && s'.orders == Filter(s.orders, NotOf(client))
      && s'.free == s.free + Ids(mine) && s'.slotCount == s.slotCount
      && |es| == |mine| && (forall k :: 0 <= k < |mine| ==> es[k] == Revoke(mine[k].id, client, 0))
      && (forall c :: ListOf(s'.clients, c) == if c == client then [] else ListOf(s.clients, c))
      && (mine == [] ==> s' == s)
  {
    hide CancelAll, Filter, ClientsExact, WellFormed, OfClient, Ids, Revokes;
    var mine := OfClient(s.orders, client);
    var list := Ids(mine);
    assert ListOf(s.clients, client) == list && (list == [] ==> client !in s.clients) by { ListsOf(s, client); }
    OwnedAreLive(s, client);
    CancelAllLive(s.orders, s.free, list, client);
    FilterSame(s.orders, NotListed(list), NotOf(client));
    RevokesOf(mine, client);
    if mine == [] {
      assert s.free + list == s.free && s.clients - {client} == s.clients;
      NoneOwned(s.orders, client);
    }
  }

  lemma ListsOf(s: EngineState, client: nat)
    requires ClientsExact(s.orders, s.clients)
    ensures ListOf(s.clients, client) == Ids(OfClient(s.orders, client))
    ensures Ids(OfClient(s.orders, client)) == [] ==> client !in s.clients
  {
  }

  lemma RevokesOf(mine: seq<HpOrder>, client: nat)
    ensures |Ids(mine)| == |Revokes(Ids(mine), client)| == |mine|
    ensures forall k :: 0 <= k < |mine| ==> Revokes(Ids(mine), client)[k] == Revoke(mine[k].id, client, 0)
  {
  }

  lemma NoneOwned(orders: seq<HpOrder>, client: nat)
    requires OfClient(orders, client) == []
    ensures Filter(orders, NotOf(client)) == orders
  {
    FilterMembers(orders, ClientPred(client));
    FilterAll(orders, NotOf(client));
  }

  /** The ids of a client's orders are distinct and live, and no other order has one of them. */
  lemma OwnedAreLive(s: EngineState, client: nat)
    requires WellFormed(s)
    ensures var list := Ids(OfClient(s.orders, client));
      && (forall k :: 0 <= k < |list| ==> HasId(s.orders, list[k]))
      && (forall j, k :: 0 <= j < k < |list| ==> list[j] != list[k])
      && (forall o :: o in s.orders ==> NotListed(list)(o) == NotOf(client)(o))
  {
    hide Filter, WellFormed;
    assert DistinctIds(s.orders) by { WellFormedDistinct(s); }
    var mine := OfClient(s.orders, client);
    var list := Ids(mine);
    FilterMembers(s.orders, ClientPred(client));
    FilterDistinct(s.orders, ClientPred(client));
    forall k | 0 <= k < |list| ensures HasId(s.orders, list[k]) {
      assert mine[k] in mine;
    }
    forall o | o in s.orders ensures o.id !in list <==> o.clientId != client {
      IdsMembers(mine, o.id);
      UniqueById(s.orders, o);
    }
  }

  lemma WellFormedDistinct(s: EngineState)
    requires WellFormed(s)
    ensures DistinctIds(s.orders)
  {
    PartitionDistinct(s.orders, s.free, s.slotCount);
  }

  /** An id that is neither a live order's nor a listed client's changes nothing. */
  lemma CancelUnknown(s: EngineState, id: nat)
    requires WellFormed(s) && (forall i :: 0 <= i < |s.orders| ==> s.orders[i].id != id) && id !in s.clients
    ensures Step(s, Cancel(id)) == (s, [])
  {
  }

  // ---------------------------------------------------------------- slots

  ghost function DepletesMaker(): HpEvent -> bool {
    (e: HpEvent) => e.Fill? && e.makerOpen == 0
  }

  /** The slots a match frees are those of its depleted makers, in the order of its fills. */
  lemma {:induction false} FreedInOrder(es: seq<HpEvent>, k: nat)
    requires k < |es|
    ensures |Freed(es)| == |Where(es, DepletesMaker())|
    ensures DepletesMaker()(es[k]) ==>
      var before := |Where(es[..k], DepletesMaker())|; before < |Freed(es)| && Freed(es)[before] == es[k].makerId
  {
    var n := |es| - 1;
    WhereSnoc(es, DepletesMaker());
    if n > 0 {
      FreedInOrder(es[..n], if k < n then k else 0);
      assert k < n ==> es[..n][..k] == es[..k];
    } else {
      assert Where(es[..0], DepletesMaker()) == {};
    }
  }

  /** Slots are reused last freed first; a new one is made only when none is free. */
  lemma LastFreedFirst(s: EngineState, i: nat)
    requires WellFormed(s) && i < |s.orders|
    ensures var s' := Step(s, Cancel(s.orders[i].id)).0;
      NextId(s'.slotCount, s'.free) == s.orders[i].id && PopFree(s'.free) == s.free
    ensures s.free == [] ==> NextId(s.slotCount, s.free) == s.slotCount + 1
  {
    hide Step;
    CancelLive(s, i);
  }

  // ---------------------------------------------------------------- taking orders

  lemma FreedIgnores(fills: seq<HpEvent>, e: HpEvent)
    requires !e.Fill?
    ensures Freed(fills + [e]) == Freed(fills)
  {
    FillFolds(map[], fills, e);
  }

  /**
   A limit order trades the smaller of its lots and the crossing lots, rests the others under the next
   slot, and reports in that order; the slots of depleted makers, and its own if it is done, become free.
   */
  lemma LimitTrades(s: EngineState, side: Side, tick: int, qty: int, ts: nat, client: nat)
    requires WellFormed(s)
    ensures var (s', es) := Step(s, Limit(side, tick, qty, ts, client));
      if qty <= 0 then s' == s && es == [] else
        var id := NextId(s.slotCount, s.free);
        var traded := Min(qty, Liquidity(s.orders, side, Some(tick)));
        && TotalTraded(es) == traded
        && (forall k :: 0 <= k < |es| ==> (es[k].Fill? <==> traded == qty || k < |es| - 1))
        && (traded < qty ==> es != [] && es[|es| - 1] == Rest(id, client, side, tick, qty - traded))
        && s'.slotCount == Max(s.slotCount, id)
        && s'.free == PopFree(s.free) + Freed(es) + (if traded == qty then [id] else [])
  {
    hide Match, Liquidity, SlotPartition, PositiveOpen, TotalTraded, AfterFills, Freed, AddClient, NextId, PopFree;
    if qty > 0 {
      assert DistinctIds(s.orders) by { WellFormedDistinct(s); }
      var taker := Taker(s, side, tick, qty, ts, client);
      var m := Match(s.orders, taker, Some(tick), qty, None);
      MatchConserves(s.orders, taker, Some(tick), qty, None);
      MatchVolume(s.orders, taker, Some(tick), qty);
      var e := Rest(taker.id, client, side, tick, m.open);
      TradedSnoc(m.fills, e, 0);
      FreedIgnores(m.fills, e);
      assert PopFree(s.free) + Freed(m.fills) + [] == PopFree(s.free) + Freed(m.fills);
    }
  }

  /**
   A market order trades the smaller of its lots and all lots of the other side, or stops at its fill
   limit with lots of the other side left; what it did not trade is revoked, once, last.
   */
  lemma MarketTrades(s: EngineState, side: Side, qty: int, ts: nat, maxFills: Option<nat>, client: nat)
    requires WellFormed(s)
    ensures var (s', es) := Step(s, Market(side, qty, ts, maxFills, client));
      if qty <= 0 then s' == s && es == [] else
        var id := NextId(s.slotCount, s.free);
        var done := TotalTraded(es) == qty;
        && TotalTraded(es) <= qty
        && (maxFills == None ==> TotalTraded(es) == Min(qty, Liquidity(s.orders, side, None)))
        && (forall k :: 0 <= k < |es| ==> (es[k].Fill? <==> done || k < |es| - 1))
        && (!done ==> es != [] && es[|es| - 1] == Revoke(id, client, 1))
        && (maxFills.Some? ==> |es| <= maxFills.value + (if done then 0 else 1))
        && (!done && (maxFills == None || |es| - 1 < maxFills.value) ==>
              Filter(s'.orders, CrossPred(side, None)) == [])
        && s'.slotCount == Max(s.slotCount, id) && s'.free == PopFree(s.free) + Freed(es) + [id]
  {
    hide Match, Liquidity, SlotPartition, PositiveOpen, TotalTraded, AfterFills, Freed, NextId, PopFree, Filter,
        CrossPred;
    if qty > 0 {
      assert DistinctIds(s.orders) by { WellFormedDistinct(s); }
      var taker := Taker(s, side, 0, qty, ts, client);
      var m := Match(s.orders, taker, None, qty, maxFills);
      MatchConserves(s.orders, taker, None, qty, maxFills);
      if maxFills == None {
        MatchVolume(s.orders, taker, None, qty);
      }
      var e := Revoke(taker.id, client, 1);
      TradedSnoc(m.fills, e, 0);
      FreedIgnores(m.fills, e);
      assert m.fills + [] == m.fills;
      if m.open > 0 && (maxFills == None || |m.fills| < maxFills.value) {
        MatchExhausts(s.orders, taker, None, qty, maxFills);
      }
    }
  }
}
