/** The client map: when it lists exactly the resting orders of each client, and when it does not. */
module HpClients {
  import opened Common
  import opened HpTypes
  import opened PriceTime
  import opened HpLevels
  import opened HpSpec
  import opened HpMatching
  import opened HpRuns
  import opened HpDepth

  function ListOf(m: ClientMap, client: nat): seq<nat> {
    if client in m then m[client] else []
  }

  /** The map lists, oldest first, exactly the resting orders of every client, and has no empty list. */
  ghost predicate ClientsExact(orders: seq<HpOrder>, m: ClientMap) {
    && (forall c :: ListOf(m, c) == Ids(OfClient(orders, c)))
    && (forall c :: c in m ==> m[c] != [])
  }

  lemma AddKeepsExact(orders: seq<HpOrder>, m: ClientMap, o: HpOrder)
    requires ClientsExact(orders, m)
    ensures ClientsExact(orders + [o], AddClient(m, o.clientId, o.id))
  {
    var m' := AddClient(m, o.clientId, o.id);
    forall c ensures ListOf(m', c) == Ids(OfClient(orders + [o], c)) {
      FilterAppend(orders, o, ClientPred(c));
      assert ListOf(m, c) == Ids(OfClient(orders, c));
      if c == o.clientId {
        IdsAppend(OfClient(orders, c), o);
      }
    }
  }

  lemma DropKeepsExact(orders: seq<HpOrder>, m: ClientMap, o: HpOrder)
    requires ClientsExact(orders, m) && DistinctIds(orders) && o in orders
    ensures ClientsExact(Without(orders, o.id), DropClient(m, o.clientId, o.id))
  {
    var m' := DropClient(m, o.clientId, o.id);
    forall c ensures ListOf(m', c) == Ids(OfClient(Without(orders, o.id), c)) {
      assert ListOf(m, c) == Ids(OfClient(orders, c));
      FilterWithout(orders, ClientPred(c), o.id);
      if c == o.clientId {
        IdsWithout(OfClient(orders, c), o.id);
      } else {
        OtherClientUntouched(orders, o, c);
      }
    }
  }

  lemma OtherClientUntouched(orders: seq<HpOrder>, o: HpOrder, c: nat)
    requires DistinctIds(orders) && o in orders && c != o.clientId
    ensures OfClient(Without(orders, o.id), c) == OfClient(orders, c)
  {
    FilterWithout(orders, ClientPred(c), o.id);
    FilterMembers(orders, ClientPred(c));
    forall x | x in OfClient(orders, c) ensures x.id != o.id {
      SameIdSameOrder(orders, x, o);
    }
    WithoutAbsent(OfClient(orders, c), o.id);
  }

  lemma ReopenKeepsExact(orders: seq<HpOrder>, m: ClientMap, id: nat, open: int)
    requires ClientsExact(orders, m)
    ensures ClientsExact(WithOpen(orders, id, open), m)
  {
    forall c ensures ListOf(m, c) == Ids(OfClient(WithOpen(orders, id, open), c)) {
      FilterWithOpen(orders, ClientPred(c), id, open);
      assert Ids(WithOpen(OfClient(orders, c), id, open)) == Ids(OfClient(orders, c));
    }
  }

  lemma {:induction false} AfterFillsFront(m: ClientMap, f: HpEvent, rest: seq<HpEvent>)
    ensures AfterFills(m, [f] + rest) == AfterFills(AfterFill(m, f), rest)
  {
    if rest == [] {
      assert [f] + rest == [f];
      assert [f][..0] == [];
    } else {
      var n := |rest| - 1;
      AfterFillsFront(m, f, rest[..n]);
      assert ([f] + rest)[..|[f] + rest| - 1] == [f] + rest[..n];
    }
  }

  predicate DepletesClientZero(e: HpEvent) {
    e.Fill? && e.makerOpen == 0 && e.makerClient == 0
  }

  lemma {:induction false} MatchKeepsExact(s: seq<HpOrder>, m: ClientMap, taker: HpOrder, limit: Option<int>,
      open: int, budget: Option<nat>)
    requires PositiveOpen(s) && DistinctIds(s) && ClientsExact(s, m)
    requires forall e :: e in Match(s, taker, limit, open, budget).fills ==> !DepletesClientZero(e)
    ensures var r := Match(s, taker, limit, open, budget); ClientsExact(r.orders, AfterFills(m, r.fills))
    decreases |s|, open
  {
    hide Match, Best, DistinctIds, PositiveOpen, Stops, ClientsExact, AfterFills, DropClient;
    if Stops(s, taker.side, limit, open, budget) {
      MatchStops(s, taker, limit, open, budget);
      FillFolds(m, [], Revoke(0, 0, 0));
    } else {
      var maker, qty, s', budget' := MatchInduct(s, taker, limit, open, budget);
      ReduceMembers(s, maker, qty);
      var f := FillEvent(maker, taker, open);
      var rest := Match(s', taker, limit, open - qty, budget');
      assert f in [f] + rest.fills;
      AfterFillsFront(m, f, rest.fills);
      if qty == maker.openLot {
        DropKeepsExact(s, m, maker);
      } else {
        ReopenKeepsExact(s, m, maker.id, maker.openLot - qty);
      }
      forall e | e in rest.fills ensures !DepletesClientZero(e) {
        assert e in [f] + rest.fills;
      }
      MatchKeepsExact(s', AfterFill(m, f), taker, limit, open - qty, budget');
    }
  }

  lemma {:induction false} ClientZeroListKept(m: ClientMap, fills: seq<HpEvent>)
    ensures ListOf(AfterFills(m, fills), 0) == ListOf(m, 0)
  {
    if fills != [] {
      ClientZeroListKept(m, fills[..|fills| - 1]);
    }
  }

  lemma {:induction false} MakerWasResting(s: seq<HpOrder>, taker: HpOrder, limit: Option<int>, open: int,
      budget: Option<nat>, e: HpEvent)
    requires PositiveOpen(s) && DistinctIds(s) && e in Match(s, taker, limit, open, budget).fills
    ensures e.Fill? && exists o :: o in s && o.id == e.makerId && o.clientId == e.makerClient
    decreases |s|, open
  {
    hide Match, Best, DistinctIds, PositiveOpen, Stops, Reduce;
    if Stops(s, taker.side, limit, open, budget) {
      MatchStops(s, taker, limit, open, budget);
      assert false;
    } else {
      var maker, qty, s', budget' := MatchInduct(s, taker, limit, open, budget);
      if e != FillEvent(maker, taker, open) {
        ReduceMembers(s, maker, qty);
        MakerWasResting(s', taker, limit, open - qty, budget', e);
        var o :| o in s' && o.id == e.makerId && o.clientId == e.makerClient;
        assert o in s || o == maker.(openLot := maker.openLot - qty);
      }
    }
  }

  lemma {:induction false} FreedMembers(fills: seq<HpEvent>, e: HpEvent)
    requires e in fills && e.Fill? && e.makerOpen == 0
    ensures e.makerId in Freed(fills)
  {
    var n := |fills| - 1;
    if e != fills[n] {
      FreedMembers(fills[..n], e);
    }
  }

  /** A depleted order of client 0 stays in the map although it left the book. */
  lemma StaleEntry(s: seq<HpOrder>, m: ClientMap, taker: HpOrder, limit: Option<int>, open: int, budget: Option<nat>,
      e: HpEvent)
    requires PositiveOpen(s) && DistinctIds(s) && ClientsExact(s, m)
    requires e in Match(s, taker, limit, open, budget).fills && DepletesClientZero(e)
    ensures var r := Match(s, taker, limit, open, budget);
      && e.makerId in ListOf(AfterFills(m, r.fills), 0)
      && e.makerId !in Ids(r.orders)
      && HasId(s, e.makerId)
  {
    hide Match, Filter;
    var r := Match(s, taker, limit, open, budget);
    MakerWasResting(s, taker, limit, open, budget, e);
    var o :| o in s && o.id == e.makerId && o.clientId == 0;
    FilterMembers(s, ClientPred(0));
    var i :| 0 <= i < |OfClient(s, 0)| && OfClient(s, 0)[i] == o;
    assert Ids(OfClient(s, 0))[i] == o.id;
    ClientZeroListKept(m, r.fills);
    FreedMembers(r.fills, e);
    MatchFrees(s, taker, limit, open, budget);
    IdsCut(s, o);
    WithoutMembers(s, o.id);
    IdsMembers(Without(s, o.id), o.id);
    assert e.makerId in multiset(Freed(r.fills));
    assert multiset(Ids(s))[o.id] == 1;
    assert multiset(Ids(r.orders))[o.id] == 0;
  }

  lemma IdsMembers(s: seq<HpOrder>, id: nat)
    ensures id in Ids(s) <==> HasId(s, id)
  {
    if id in Ids(s) {
      var i :| 0 <= i < |Ids(s)| && Ids(s)[i] == id;
      assert s[i] in s;
    }
    if HasId(s, id) {
      var o :| o in s && o.id == id;
      var i :| 0 <= i < |s| && s[i] == o;
      assert Ids(s)[i] == id;
    }
  }

  lemma ExactListsMembers(orders: seq<HpOrder>, m: ClientMap, id: nat, client: nat)
    requires ClientsExact(orders, m) && id in ListOf(m, client)
    ensures id in Ids(orders)
  {
    assert ListOf(m, client) == Ids(OfClient(orders, client));
    IdsMembers(OfClient(orders, client), id);
    FilterMembers(orders, ClientPred(client));
    var o :| o in OfClient(orders, client) && o.id == id;
    IdsMembers(orders, id);
  }

  lemma LimitExact(s: EngineState, side: Side, tick: int, qty: int, ts: nat, client: nat)
    requires WellFormed(s) && ClientsExact(s.orders, s.clients)
    ensures var (s', es) := LimitStep(s, side, tick, qty, ts, client);
      ClientsExact(s'.orders, s'.clients) <==> forall e :: e in es ==> !DepletesClientZero(e)
  {
    hide Match, PositiveOpen, DistinctIds, AfterFills, Freed, ClientsExact, Uncrossed, SlotPartition;
    if qty > 0 {
      PartitionDistinct(s.orders, s.free, s.slotCount);
      var taker := Taker(s, side, tick, qty, ts, client);
      var m := Match(s.orders, taker, Some(tick), qty, None);
      var (s', es) := LimitStep(s, side, tick, qty, ts, client);
      assert forall e :: e in m.fills ==> e in es;
      AllocPartition(Ids(s.orders), s.free, s.slotCount);
      if e :| e in es && DepletesClientZero(e) {
        assert e in m.fills;
        StaleEntry(s.orders, s.clients, taker, Some(tick), qty, None, e);
        IdsMembers(s.orders, e.makerId);
        assert e.makerId in ListOf(s'.clients, 0);
        if m.open > 0 {
          IdsAppend(m.orders, taker.(openLot := m.open));
        }
        if ClientsExact(s'.orders, s'.clients) {
          ExactListsMembers(s'.orders, s'.clients, e.makerId, 0);
        }
      } else {
        MatchKeepsExact(s.orders, s.clients, taker, Some(tick), qty, None);
        if m.open > 0 {
          AddKeepsExact(m.orders, AfterFills(s.clients, m.fills), taker.(openLot := m.open));
        }
      }
    }
  }

  lemma MarketExact(s: EngineState, side: Side, qty: int, ts: nat, maxFills: Option<nat>, client: nat)
    requires WellFormed(s) && ClientsExact(s.orders, s.clients)
    ensures var (s', es) := MarketStep(s, side, qty, ts, maxFills, client);
      ClientsExact(s'.orders, s'.clients) <==> forall e :: e in es ==> !DepletesClientZero(e)
  {
    hide Match, PositiveOpen, DistinctIds, AfterFills, Freed, ClientsExact, Uncrossed, SlotPartition;
    if qty > 0 {
      PartitionDistinct(s.orders, s.free, s.slotCount);
      var taker := Taker(s, side, 0, qty, ts, client);
      var m := Match(s.orders, taker, None, qty, maxFills);
      var (s', es) := MarketStep(s, side, qty, ts, maxFills, client);
      assert forall e :: e in m.fills ==> e in es;
      if e :| e in es && DepletesClientZero(e) {
        assert e in m.fills;
        StaleEntry(s.orders, s.clients, taker, None, qty, maxFills, e);
        if ClientsExact(s'.orders, s'.clients) {
          ExactListsMembers(s'.orders, s'.clients, e.makerId, 0);
        }
      } else {
        MatchKeepsExact(s.orders, s.clients, taker, None, qty, maxFills);
      }
    }
  }

  // ---------------------------------------------------------------- cancelling

  ghost predicate Owns(orders: seq<HpOrder>, id: nat, client: nat) {
    exists o :: o in orders && o.id == id && o.clientId == client
  }

  lemma {:induction false} CancelAllOrders(orders: seq<HpOrder>, free: seq<nat>, list: seq<nat>, client: nat)
    requires DistinctIds(orders)
    requires forall x :: x in list ==> Owns(orders, x, client)
    ensures var c := CancelAll(orders, free, list, client);
      && DistinctIds(c.orders)
      && (forall o :: o in c.orders <==> o in orders && o.id !in list)
      && (forall d :: d != client ==> OfClient(c.orders, d) == OfClient(orders, d))
  {
    if list != [] {
      var n := |list| - 1;
      CancelAllOrders(orders, free, list[..n], client);
      var c := CancelAll(orders, free, list[..n], client);
      assert forall x :: x in list <==> x in list[..n] || x == list[n];
      if HasId(c.orders, list[n]) {
        var o :| o in c.orders && o.id == list[n];
        assert Owns(orders, list[n], client);
        var o' :| o' in orders && o'.id == list[n] && o'.clientId == client;
        SameIdSameOrder(orders, o, o');
        WithoutDistinct(c.orders, list[n]);
        WithoutMembers(c.orders, list[n]);
        forall d | d != client ensures OfClient(Without(c.orders, list[n]), d) == OfClient(orders, d) {
          OtherClientUntouched(c.orders, o, d);
        }
      }
    }
  }

  /** Cancelling by client removes that client's orders and no others. */
  lemma CancelByClient(s: EngineState, client: nat)
    requires WellFormed(s) && ClientsExact(s.orders, s.clients) && !HasId(s.orders, client)
    ensures var s' := CancelStep(s, client).0;
      && (forall o :: o in s'.orders <==> o in s.orders && o.clientId != client)
      && (forall d :: d != client ==> OfClient(s'.orders, d) == OfClient(s.orders, d))
      && ClientsExact(s'.orders, s'.clients)
  {
    PartitionDistinct(s.orders, s.free, s.slotCount);
    var list := ListOf(s.clients, client);
    FilterMembers(s.orders, ClientPred(client));
    assert list == Ids(OfClient(s.orders, client));
    forall x | x in list ensures Owns(s.orders, x, client) {
      IdsMembers(OfClient(s.orders, client), x);
    }
    CancelAllOrders(s.orders, s.free, list, client);
    forall o | o in s.orders ensures o.id in list <==> o.clientId == client {
      IdsMembers(OfClient(s.orders, client), o.id);
      if o.id in list {
        var x :| x in OfClient(s.orders, client) && x.id == o.id;
        SameIdSameOrder(s.orders, x, o);
      }
    }
    var s' := CancelStep(s, client).0;
    FilterNone(s'.orders, ClientPred(client));
    forall c ensures ListOf(s'.clients, c) == Ids(OfClient(s'.orders, c)) {
      assert ListOf(s.clients, c) == Ids(OfClient(s.orders, c));
    }
  }

  lemma CancelExact(s: EngineState, id: nat)
    requires WellFormed(s) && ClientsExact(s.orders, s.clients)
    ensures var s' := CancelStep(s, id).0; ClientsExact(s'.orders, s'.clients)
  {
    PartitionDistinct(s.orders, s.free, s.slotCount);
    if HasId(s.orders, id) {
      DropKeepsExact(s.orders, s.clients, ById(s.orders, id));
    } else {
      CancelByClient(s, id);
    }
  }

  lemma ExactByEvents(s: EngineState, cmd: HpCommand)
    requires WellFormed(s) && ClientsExact(s.orders, s.clients)
    ensures var (s', es) := Step(s, cmd);
      ClientsExact(s'.orders, s'.clients) <==> forall e :: e in es ==> !DepletesClientZero(e)
  {
    hide LimitStep, MarketStep, WellFormed, ClientsExact;
    match cmd
    case Limit(side, tick, qty, ts, client) => LimitExact(s, side, tick, qty, ts, client);
    case Market(side, qty, ts, maxFills, client) => MarketExact(s, side, qty, ts, maxFills, client);
    case Cancel(id) =>
      CancelExact(s, id);
      CancelEventsRevoke(s, id);
  }

  /** Some order of client 0 is used up by a taker of `open` lots. */
  ghost predicate UsesUpClientZero(s: seq<HpOrder>, side: Side, limit: Option<int>, open: int, budget: Option<nat>) {
    exists o :: o in s && o.clientId == 0 && UsesUp(s, side, limit, open, budget, o)
  }

  /** Told from the book and the command alone: the command depletes an order of client 0. */
  ghost predicate SpendsClientZero(orders: seq<HpOrder>, cmd: HpCommand) {
    match cmd
    case Limit(side, tick, qty, _, _) => UsesUpClientZero(orders, side, Some(tick), qty, None)
    case Market(side, qty, _, maxFills, _) => UsesUpClientZero(orders, side, None, qty, maxFills)
    case Cancel(_) => false
  }

  lemma ZeroDepleted(s: seq<HpOrder>, taker: HpOrder, limit: Option<int>, open: int, budget: Option<nat>)
    requires DistinctIds(s) && PositiveOpen(s)
    ensures (exists e :: e in Match(s, taker, limit, open, budget).fills && DepletesClientZero(e))
            <==> UsesUpClientZero(s, taker.side, limit, open, budget)
  {
    hide Match, UsesUp, DistinctIds, PositiveOpen;
    var fills := Match(s, taker, limit, open, budget).fills;
    if e :| e in fills && DepletesClientZero(e) {
      var k :| 0 <= k < |fills| && fills[k] == e;
      FillsReport(s, taker, limit, open, budget, k);
      var o :| ReportsTrade(s, taker, open, fills, k, o);
      assert Depletes(fills, o.id);
      MatchDepletes(s, taker, limit, open, budget, o);
    }
    if UsesUpClientZero(s, taker.side, limit, open, budget) {
      var o :| o in s && o.clientId == 0 && UsesUp(s, taker.side, limit, open, budget, o);
      OppositeSide(s, taker.side, limit, open, budget, o);
      MatchDepletes(s, taker, limit, open, budget, o);
      var k :| 0 <= k < |fills| && fills[k].Fill? && fills[k].makerId == o.id && fills[k].makerOpen == 0;
      FillsReport(s, taker, limit, open, budget, k);
      var o' :| ReportsTrade(s, taker, open, fills, k, o');
      UniqueById(s, o);
      assert fills[k] in fills && DepletesClientZero(fills[k]);
    }
  }

  lemma OppositeSide(s: seq<HpOrder>, side: Side, limit: Option<int>, open: int, budget: Option<nat>, o: HpOrder)
    requires UsesUp(s, side, limit, open, budget, o)
    ensures o.side == Opposite(side)
  {
  }

  lemma NothingToSpend(s: seq<HpOrder>, side: Side, limit: Option<int>, open: int, budget: Option<nat>)
    requires DistinctIds(s) && PositiveOpen(s) && open <= 0
    ensures !UsesUpClientZero(s, side, limit, open, budget)
  {
    forall o | o in s ensures !UsesUp(s, side, limit, open, budget, o) {
      NothingUsedUp(s, side, limit, open, budget, o);
    }
  }

  lemma EventsTellSpending(s: EngineState, cmd: HpCommand)
    requires WellFormed(s)
    ensures (exists e :: e in Step(s, cmd).1 && DepletesClientZero(e)) <==> SpendsClientZero(s.orders, cmd)
  {
    hide Match, DistinctIds, PositiveOpen, SlotPartition, UsesUpClientZero, AfterFills, Freed, AddClient;
    PartitionDistinct(s.orders, s.free, s.slotCount);
    match cmd
    case Limit(side, tick, qty, ts, client) =>
      if qty <= 0 {
        NothingToSpend(s.orders, side, Some(tick), qty, None);
      } else {
        var taker := Taker(s, side, tick, qty, ts, client);
        ZeroDepleted(s.orders, taker, Some(tick), qty, None);
        LastIsPlain(Step(s, cmd).1, Match(s.orders, taker, Some(tick), qty, None).fills);
      }
    case Market(side, qty, ts, maxFills, client) =>
      if qty <= 0 {
        NothingToSpend(s.orders, side, None, qty, maxFills);
      } else {
        var taker := Taker(s, side, 0, qty, ts, client);
        ZeroDepleted(s.orders, taker, None, qty, maxFills);
        LastIsPlain(Step(s, cmd).1, Match(s.orders, taker, None, qty, maxFills).fills);
      }
    case Cancel(id) => CancelEventsRevoke(s, id);
  }

  /** Only fills deplete, so a closing rest or revoke event changes nothing. */
  lemma LastIsPlain(es: seq<HpEvent>, fills: seq<HpEvent>)
    requires es == fills || (es != [] && es[..|es| - 1] == fills && !es[|es| - 1].Fill?)
    ensures (exists e :: e in es && DepletesClientZero(e)) <==> exists e :: e in fills && DepletesClientZero(e)
  {
    assert es == fills || es == fills + [es[|es| - 1]];
    if e :| e in fills && DepletesClientZero(e) {
      assert e in es;
    }
  }

  /**
   A command keeps the client map exact if and only if it depletes no order of client 0, which the
   book tells beforehand: no crossing order of client 0 has its whole queue within the lots and the budget.
   */
  lemma StepExact(s: EngineState, cmd: HpCommand)
    requires WellFormed(s) && ClientsExact(s.orders, s.clients)
    ensures var s' := Step(s, cmd).0; ClientsExact(s'.orders, s'.clients) <==> !SpendsClientZero(s.orders, cmd)
  {
    hide WellFormed, ClientsExact, Step, SpendsClientZero;
    assert PositiveOpen(s.orders) by { HasPositive(s); }
    ExactByEvents(s, cmd);
    EventsTellSpending(s, cmd);
  }

  lemma HasPositive(s: EngineState)
    requires WellFormed(s)
    ensures PositiveOpen(s.orders)
  {
  }

  lemma {:induction false} CancelAllEvents(orders: seq<HpOrder>, free: seq<nat>, list: seq<nat>, client: nat)
    ensures forall e :: e in CancelAll(orders, free, list, client).events ==> e.Revoke?
  {
    if list != [] {
      CancelAllEvents(orders, free, list[..|list| - 1], client);
    }
  }

  lemma CancelEventsRevoke(s: EngineState, id: nat)
    ensures forall e :: e in CancelStep(s, id).1 ==> e.Revoke?
  {
    if !HasId(s.orders, id) && id in s.clients {
      CancelAllEvents(s.orders, s.free, s.clients[id], id);
    }
  }

  predicate NonZeroClient(cmd: HpCommand) {
    cmd.Cancel? || cmd.clientId != 0
  }

  ghost predicate NonZeroClients(orders: seq<HpOrder>) {
    forall o :: o in orders ==> o.clientId != 0
  }

  /** Over every run whose clients are non-zero, the client map is exact after every command. */
  lemma {:induction false} RunExact(cmds: seq<HpCommand>)
    requires forall i :: 0 <= i < |cmds| ==> NonZeroClient(cmds[i])
    ensures WellFormed(INITIAL)
    ensures var s := Run(INITIAL, cmds); ClientsExact(s.orders, s.clients) && NonZeroClients(s.orders)
  {
    assert WellFormed(INITIAL);
    if cmds == [] {
      assert forall c :: OfClient([], c) == [];
    } else {
      var n := |cmds| - 1;
      RunExact(cmds[..n]);
      var s := Run(INITIAL, cmds[..n]);
      NoClientZero(s, cmds[n]);
      ExactByEvents(s, cmds[n]);
    }
  }

  lemma NoClientZero(s: EngineState, cmd: HpCommand)
    requires WellFormed(s) && NonZeroClients(s.orders) && NonZeroClient(cmd)
    ensures var (s', es) := Step(s, cmd);
      && NonZeroClients(s'.orders)
      && forall e :: e in es ==> !DepletesClientZero(e)
  {
    hide Match, PositiveOpen, DistinctIds, AfterFills, Freed, Uncrossed, SlotPartition, DropClient, Settle;
    PartitionDistinct(s.orders, s.free, s.slotCount);
    match cmd
    case Limit(side, tick, qty, ts, client) =>
      MatchNonZero(s.orders, Taker(s, side, tick, qty, ts, client), Some(tick), qty, None);
    case Market(side, qty, ts, maxFills, client) =>
      MatchNonZero(s.orders, Taker(s, side, 0, qty, ts, client), None, qty, maxFills);
    case Cancel(id) =>
      CancelEventsRevoke(s, id);
      if HasId(s.orders, id) {
        WithoutMembers(s.orders, id);
      } else if id in s.clients {
        CancelAllSubset(s.orders, s.free, s.clients[id], id);
      }
  }

  lemma {:induction false} CancelAllSubset(orders: seq<HpOrder>, free: seq<nat>, list: seq<nat>, client: nat)
    ensures forall o :: o in CancelAll(orders, free, list, client).orders ==> o in orders
  {
    if list != [] {
      CancelAllSubset(orders, free, list[..|list| - 1], client);
      WithoutMembers(CancelAll(orders, free, list[..|list| - 1], client).orders, list[|list| - 1]);
    }
  }

  lemma MatchNonZero(s: seq<HpOrder>, taker: HpOrder, limit: Option<int>, open: int, budget: Option<nat>)
    requires PositiveOpen(s) && DistinctIds(s) && NonZeroClients(s)
    ensures var m := Match(s, taker, limit, open, budget);
      && NonZeroClients(m.orders)
      && forall e :: e in m.fills ==> !DepletesClientZero(e)
  {
    hide Match, PositiveOpen, DistinctIds, Settle;
    var m := Match(s, taker, limit, open, budget);
    MatchSettles(s, taker, limit, open, budget);
    forall a | a in m.orders ensures a.clientId != 0 {
      SettleMembers(s, m.fills, a);
    }
    forall e | e in m.fills ensures !DepletesClientZero(e) {
      MakerWasResting(s, taker, limit, open, budget, e);
    }
  }

  /** Throughout a run the map is exact if and only if no command of it spent an order of client 0. */
  lemma RunExactIff(cmds: seq<HpCommand>)
    ensures WellFormed(INITIAL)
    ensures (forall i :: 0 <= i <= |cmds| ==> ExactAfter(cmds[..i]))
            <==> forall i :: 0 <= i < |cmds| ==> !SpendsClientZero(Run(INITIAL, cmds[..i]).orders, cmds[i])
  {
    hide ClientsExact, SpendsClientZero, Step, Run;
    assert WellFormed(INITIAL);
    if forall i :: 0 <= i < |cmds| ==> !SpendsClientZero(Run(INITIAL, cmds[..i]).orders, cmds[i]) {
      forall i | 0 <= i <= |cmds| ensures ExactAfter(cmds[..i]) {
        QuietExact(cmds, i);
      }
    }
    if forall i :: 0 <= i <= |cmds| ==> ExactAfter(cmds[..i]) {
      forall i | 0 <= i < |cmds| ensures !SpendsClientZero(Run(INITIAL, cmds[..i]).orders, cmds[i]) {
        assert ExactAfter(cmds[..i]) && ExactAfter(cmds[..i + 1]);
        RunStep(cmds, i);
        StepExact(Run(INITIAL, cmds[..i]), cmds[i]);
      }
    }
  }

  ghost predicate ExactAfter(cmds: seq<HpCommand>) {
    WellFormed(INITIAL) && var s := Run(INITIAL, cmds); ClientsExact(s.orders, s.clients)
  }

  lemma RunStep(cmds: seq<HpCommand>, i: nat)
    requires WellFormed(INITIAL) && i < |cmds|
    ensures PositiveOpen(Run(INITIAL, cmds[..i]).orders)
    ensures Run(INITIAL, cmds[..i + 1]) == Step(Run(INITIAL, cmds[..i]), cmds[i]).0
  {
    hide Step;
    assert cmds[..i + 1][..i] == cmds[..i];
  }

  lemma RunNothing()
    requires WellFormed(INITIAL)
    ensures Run(INITIAL, []) == INITIAL
  {
  }

  lemma NoOrdersExact()
    ensures ClientsExact(INITIAL.orders, INITIAL.clients)
  {
    assert forall c :: OfClient([], c) == [];
  }

  lemma {:induction false} QuietExact(cmds: seq<HpCommand>, i: nat)
    requires i <= |cmds| && WellFormed(INITIAL)
    requires forall j :: 0 <= j < |cmds| ==> !SpendsClientZero(Run(INITIAL, cmds[..j]).orders, cmds[j])
    ensures ExactAfter(cmds[..i])
  {
    hide SpendsClientZero, Step, ClientsExact, Run, WellFormed;
    if i == 0 {
      RunNothing();
      NoOrdersExact();
      assert cmds[..0] == [];
    } else {
      QuietExact(cmds, i - 1);
      RunStep(cmds, i - 1);
      StepExact(Run(INITIAL, cmds[..i - 1]), cmds[i - 1]);
    }
  }

  // ---------------------------------------------------------------- the exception is real

  const ZERO_SELL := HpOrder(1, Sell, 10, 5, 5, 0, 0)

  lemma FirstRests()
    ensures WellFormed(INITIAL)
    ensures Step(INITIAL, Limit(Sell, 10, 5, 0, 0)).0 == EngineState([ZERO_SELL], 1, [], map[0 := [1]])
  {
    hide Match;
    var taker := Taker(INITIAL, Sell, 10, 5, 0, 0);
    assert Ticks([], Buy) == {};
    MatchStops([], taker, Some(10), 5, None);
    FillFolds(map[], [], Revoke(0, 0, 0));
    assert taker.(openLot := 5) == ZERO_SELL && [] + [ZERO_SELL] == [ZERO_SELL];
    assert AddClient(map[], 0, 1) == map[0 := [1]] by { assert [] + [1] == [1]; }
    var none: seq<nat> := [];
    assert none + none == none;
    assert LimitStep(INITIAL, Sell, 10, 5, 0, 0).0 == EngineState([ZERO_SELL], 1, [], map[0 := [1]]);
  }

  lemma OneOrderExact()
    ensures ClientsExact([ZERO_SELL], map[0 := [1]])
  {
    forall c ensures ListOf(map[0 := [1]], c) == Ids(OfClient([ZERO_SELL], c)) {
      FilterAppend([], ZERO_SELL, ClientPred(c));
      assert [] + [ZERO_SELL] == [ZERO_SELL];
    }
  }

  lemma BuySpendsIt()
    ensures SpendsClientZero([ZERO_SELL], Limit(Buy, 10, 5, 1, 7))
  {
    var o := ZERO_SELL;
    QueueSnoc([], o, o);
    assert [] + [o] == [o];
    assert SumOpen([o]) == 5 by { assert [o][..0] == []; }
    assert o in [o] && UsesUp([o], Buy, Some(10), 5, None, o);
  }

  /** After two commands a depleted order of client 0 is still listed. */
  lemma ClientZeroExample()
    ensures ExactAfter([Limit(Sell, 10, 5, 0, 0)])
    ensures !ExactAfter([Limit(Sell, 10, 5, 0, 0), Limit(Buy, 10, 5, 1, 7)])
  {
    hide Step, WellFormed, ClientsExact, SpendsClientZero, Run;
    var first, second := Limit(Sell, 10, 5, 0, 0), Limit(Buy, 10, 5, 1, 7);
    FirstRests();
    RunStep([first, second], 0);
    RunStep([first, second], 1);
    RunNothing();
    assert [first, second][..0] == [] && [first, second][..1] == [first] && [first, second][..2] == [first, second];
    OneOrderExact();
    BuySpendsIt();
    StepExact(Run(INITIAL, [first]), second);
  }
}
