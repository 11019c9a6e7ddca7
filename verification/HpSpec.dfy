/**
 The engine as a pure state machine over the arrival-ordered book. `Step` is total: one
 command gives the next state and the events, with slot ids allocated from the free list.
 */
module HpSpec {
  import opened Common
  import opened HpTypes
  import opened PriceTime
  import opened OrderStores

  type ClientMap = map<nat, seq<nat>>

  datatype EngineState = EngineState(orders: seq<HpOrder>, slotCount: nat, free: seq<nat>, clients: ClientMap)

  const INITIAL := EngineState([], 0, [], map[])

  // ---------------------------------------------------------------- client map

  function AddClient(m: ClientMap, client: nat, id: nat): ClientMap {
    m[client := (if client in m then m[client] else []) + [id]]
  }

  /** Retain every id but `id` in the client's list; an emptied list goes. */
  function DropClient(m: ClientMap, client: nat, id: nat): ClientMap {
    if client !in m then m
    else
      var l := Retain(m[client], id);
      if l == [] then m - {client} else m[client := l]
  }

  /** A fully filled maker leaves its client's list, unless the client is 0. */
  function AfterFill(m: ClientMap, e: HpEvent): ClientMap {
    if e.Fill? && e.makerOpen == 0 && e.makerClient != 0 then DropClient(m, e.makerClient, e.makerId) else m
  }

  function AfterFills(m: ClientMap, fills: seq<HpEvent>): ClientMap {
    if fills == [] then m else AfterFill(AfterFills(m, fills[..|fills| - 1]), fills[|fills| - 1])
  }

  /** The slots of the makers depleted by `fills`, in fill order. */
  function Freed(fills: seq<HpEvent>): seq<nat> {
    if fills == [] then []
    else
      var e := fills[|fills| - 1];
      Freed(fills[..|fills| - 1]) + (if e.Fill? && e.makerOpen == 0 then [e.makerId] else [])
  }

  lemma FillFolds(m: ClientMap, fills: seq<HpEvent>, e: HpEvent)
    ensures AfterFills(m, []) == m && Freed([]) == []
    ensures AfterFills(m, fills + [e]) == AfterFill(AfterFills(m, fills), e)
    ensures Freed(fills + [e]) == Freed(fills) + (if e.Fill? && e.makerOpen == 0 then [e.makerId] else [])
  {
    assert (fills + [e])[..|fills|] == fills;
  }

  // ---------------------------------------------------------------- commands

  function Taker(s: EngineState, side: Side, tick: int, qty: int, ts: nat, client: nat): HpOrder {
    HpOrder(NextId(s.slotCount, s.free), side, tick, qty, qty, ts, client)
  }

  ghost function LimitStep(s: EngineState, side: Side, tick: int, qty: int, ts: nat, client: nat)
    : (EngineState, seq<HpEvent>)
    requires PositiveOpen(s.orders)
  {
    if qty <= 0 then (s, [])
    else
      var taker := Taker(s, side, tick, qty, ts, client);
      var m := Match(s.orders, taker, Some(tick), qty, None);
      var slotCount := Max(s.slotCount, taker.id);
      var free := PopFree(s.free) + Freed(m.fills);
      var clients := AfterFills(s.clients, m.fills);
      if m.open > 0 then
        (EngineState(m.orders + [taker.(openLot := m.open)], slotCount, free, AddClient(clients, client, taker.id)),
         m.fills + [Rest(taker.id, client, side, tick, m.open)])
      else
        (EngineState(m.orders, slotCount, free + [taker.id], clients), m.fills)
  }

  ghost function MarketStep(s: EngineState, side: Side, qty: int, ts: nat, maxFills: Option<nat>,
      client: nat): (EngineState, seq<HpEvent>)
    requires PositiveOpen(s.orders)
  {
    if qty <= 0 then (s, [])
    else
      var taker := Taker(s, side, 0, qty, ts, client);
      var m := Match(s.orders, taker, None, qty, maxFills);
      (EngineState(m.orders, Max(s.slotCount, taker.id), PopFree(s.free) + Freed(m.fills) + [taker.id],
                   AfterFills(s.clients, m.fills)),
       m.fills + (if m.open > 0 then [Revoke(taker.id, client, 1)] else []))
  }

  ghost predicate HasId(orders: seq<HpOrder>, id: nat) {
    exists o :: o in orders && o.id == id
  }

  ghost function ById(orders: seq<HpOrder>, id: nat): HpOrder
    requires HasId(orders, id)
  {
    var o :| o in orders && o.id == id;
    o
  }

  datatype Cancelled = Cancelled(orders: seq<HpOrder>, free: seq<nat>, events: seq<HpEvent>)

  /** Cancel every listed slot that is live, reporting it under `client`. */
  ghost function CancelAll(orders: seq<HpOrder>, free: seq<nat>, list: seq<nat>, client: nat): Cancelled {
    if list == [] then Cancelled(orders, free, [])
    else
      var c := CancelAll(orders, free, list[..|list| - 1], client);
      var id := list[|list| - 1];
      if HasId(c.orders, id) then
        Cancelled(Without(c.orders, id), c.free + [id], c.events + [Revoke(id, client, 0)])
      else c
  }

  ghost function CancelStep(s: EngineState, id: nat): (EngineState, seq<HpEvent>) {
    if HasId(s.orders, id) then
      var client := ById(s.orders, id).clientId;
      (EngineState(Without(s.orders, id), s.slotCount, s.free + [id], DropClient(s.clients, client, id)),
       [Revoke(id, client, 0)])
    else if id in s.clients then
      var c := CancelAll(s.orders, s.free, s.clients[id], id);
      (EngineState(c.orders, s.slotCount, c.free, s.clients - {id}), c.events)
    else (s, [])
  }

  ghost function Step(s: EngineState, cmd: HpCommand): (EngineState, seq<HpEvent>)
    requires PositiveOpen(s.orders)
  {
    match cmd
    case Limit(side, tick, qty, ts, client) => LimitStep(s, side, tick, qty, ts, client)
    case Market(side, qty, ts, maxFills, client) => MarketStep(s, side, qty, ts, maxFills, client)
    case Cancel(id) => CancelStep(s, id)
  }
}
