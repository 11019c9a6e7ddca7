/**
 Quantity conservation over every run: replaying the event log alone, the lots reported
 filled for a resting order are exactly its submitted lots minus its open lots.
 */
module HpLedger {
  import opened Common
  import opened HpTypes
  import opened PriceTime
  import opened OrderStores
  import opened HpSpec
  import opened HpMatching
  import opened HpRuns

  /** Lots filled so far per live order id, computed from events only. */
  type Ledger = map<nat, int>

  function Posted(l: Ledger, id: nat): int {
    if id in l then l[id] else 0
  }

  /** Credit `qty` lots to `id`; an order left with nothing open closes its account. */
  function Credit(l: Ledger, id: nat, qty: int, openAfter: int): Ledger {
    if openAfter == 0 then l - {id} else l[id := Posted(l, id) + qty]
  }

  function Post(l: Ledger, e: HpEvent): Ledger {
    match e
    case Fill(makerId, takerId, _, _, _, qty, makerOpen, takerOpen) =>
      Credit(Credit(l, makerId, qty, makerOpen), takerId, qty, takerOpen)
    case Rest(_, _, _, _, _) => l
    case Revoke(id, _, _) => l - {id}
  }

  function PostAll(l: Ledger, es: seq<HpEvent>): Ledger
    decreases es
  {
    if es == [] then l else PostAll(Post(l, es[0]), es[1..])
  }

  /** Every resting order is accounted for, and only resting orders have accounts. */
  ghost predicate Balanced(orders: seq<HpOrder>, l: Ledger) {
    && (forall o :: o in orders ==> Posted(l, o.id) == o.qtyLot - o.openLot)
    && (forall id :: id in l ==> HasId(orders, id))
  }

  lemma {:induction false} PostConcat(l: Ledger, a: seq<HpEvent>, b: seq<HpEvent>)
    ensures PostAll(l, a + b) == PostAll(PostAll(l, a), b)
    decreases a
  {
    if a == [] {
      assert a + b == b;
    } else {
      assert (a + b)[1..] == a[1..] + b;
      PostConcat(Post(l, a[0]), a[1..], b);
    }
  }

  /** The taker while it is being matched: present as long as it has open lots. */
  function Pending(taker: HpOrder, open: int): seq<HpOrder> {
    if open > 0 then [taker.(openLot := open)] else []
  }

  lemma FillBalances(s: seq<HpOrder>, l: Ledger, taker: HpOrder, open: int, maker: HpOrder)
    requires DistinctIds(s) && maker in s && maker.openLot > 0 && open > 0
    requires forall o :: o in s ==> o.id != taker.id
    requires Balanced(s + Pending(taker, open), l)
    ensures var qty := Min(maker.openLot, open);
      Balanced(Reduce(s, maker, qty) + Pending(taker, open - qty), Post(l, FillEvent(maker, taker, open)))
  {
    hide Reduce, DistinctIds;
    var qty := Min(maker.openLot, open);
    var s' := Reduce(s, maker, qty);
    var before, after := s + Pending(taker, open), s' + Pending(taker, open - qty);
    var l' := Post(l, FillEvent(maker, taker, open));
    ReduceMembers(s, maker, qty);
    if qty < maker.openLot {
      ReduceKeepsMaker(s, maker, qty);
    }
    assert maker in before && taker.(openLot := open) in before;
    forall o | o in after ensures Posted(l', o.id) == o.qtyLot - o.openLot {
      if o.id != maker.id && o.id != taker.id {
        assert o in before;
      }
    }
    forall id | id in l' ensures HasId(after, id) {
      if id == taker.id {
        assert taker.(openLot := open - qty) in after;
      } else if id == maker.id {
        assert maker.(openLot := maker.openLot - qty) in after;
      } else {
        assert id in l;
        var o :| o in before && o.id == id;
        assert o in after;
      }
    }
  }

  lemma {:induction false} MatchBalances(s: seq<HpOrder>, l: Ledger, taker: HpOrder, limit: Option<int>, open: int,
      budget: Option<nat>)
    requires PositiveOpen(s) && DistinctIds(s)
    requires forall o :: o in s ==> o.id != taker.id
    requires Balanced(s + Pending(taker, open), l)
    ensures var m := Match(s, taker, limit, open, budget);
      Balanced(m.orders + Pending(taker, m.open), PostAll(l, m.fills))
    decreases |s|, open
  {
    hide Match, Best, DistinctIds, Reduce, Balanced, Pending, Post;
    if Stops(s, taker.side, limit, open, budget) {
      MatchStops(s, taker, limit, open, budget);
    } else {
      var maker, qty, s', budget' := MatchInduct(s, taker, limit, open, budget);
      ReduceMembers(s, maker, qty);
      FillBalances(s, l, taker, open, maker);
      var f := FillEvent(maker, taker, open);
      MatchBalances(s', Post(l, f), taker, limit, open - qty, budget');
      var rest := Match(s', taker, limit, open - qty, budget').fills;
      assert ([f] + rest)[1..] == rest;
    }
  }

  lemma CloseBalances(orders: seq<HpOrder>, l: Ledger, id: nat)
    requires Balanced(orders, l)
    ensures Balanced(Without(orders, id), l - {id})
  {
    WithoutMembers(orders, id);
    forall k | k in l - {id} ensures HasId(Without(orders, id), k) {
      var o :| o in orders && o.id == k;
      assert o in Without(orders, id);
    }
  }

  lemma {:induction false} CancelAllBalances(orders: seq<HpOrder>, free: seq<nat>, list: seq<nat>, client: nat,
      l: Ledger)
    requires Balanced(orders, l)
    ensures var c := CancelAll(orders, free, list, client); Balanced(c.orders, PostAll(l, c.events))
  {
    if list != [] {
      var n := |list| - 1;
      CancelAllBalances(orders, free, list[..n], client, l);
      var c := CancelAll(orders, free, list[..n], client);
      if HasId(c.orders, list[n]) {
        CloseBalances(c.orders, PostAll(l, c.events), list[n]);
        PostConcat(l, c.events, [Revoke(list[n], client, 0)]);
      }
    }
  }

  lemma LimitBalances(s: EngineState, l: Ledger, side: Side, tick: int, qty: int, ts: nat, client: nat)
    requires WellFormed(s) && Balanced(s.orders, l)
    ensures var (s', es) := LimitStep(s, side, tick, qty, ts, client); Balanced(s'.orders, PostAll(l, es))
  {
    hide Match, DistinctIds, PositiveOpen, Uncrossed, SlotPartition, Freed, AfterFills, AddClient;
    if qty > 0 {
      PartitionDistinct(s.orders, s.free, s.slotCount);
      var taker := Taker(s, side, tick, qty, ts, client);
      OpenAccount(s, l, taker);
      var m := Match(s.orders, taker, Some(tick), qty, None);
      MatchBalances(s.orders, l, taker, Some(tick), qty, None);
      if m.open > 0 {
        PostConcat(l, m.fills, [Rest(taker.id, client, side, tick, m.open)]);
      } else {
        assert m.orders + [] == m.orders;
      }
    }
  }

  /** A fresh order opens with nothing filled. */
  lemma OpenAccount(s: EngineState, l: Ledger, taker: HpOrder)
    requires WellFormed(s) && Balanced(s.orders, l)
    requires taker.id == NextId(s.slotCount, s.free) && taker.openLot == taker.qtyLot > 0
    ensures forall o :: o in s.orders ==> o.id != taker.id
    ensures Balanced(s.orders + Pending(taker, taker.openLot), l)
  {
    AllocPartition(Ids(s.orders), s.free, s.slotCount);
    forall o | o in s.orders ensures o.id != taker.id {
      var i :| 0 <= i < |s.orders| && s.orders[i] == o;
      assert Ids(s.orders)[i] == o.id;
    }
    forall id | id in l ensures HasId(s.orders + Pending(taker, taker.openLot), id) {
      var o :| o in s.orders && o.id == id;
      assert o in s.orders + Pending(taker, taker.openLot);
    }
    assert taker.id !in l;
  }

  lemma MarketBalances(s: EngineState, l: Ledger, side: Side, qty: int, ts: nat, maxFills: Option<nat>, client: nat)
    requires WellFormed(s) && Balanced(s.orders, l)
    ensures var (s', es) := MarketStep(s, side, qty, ts, maxFills, client); Balanced(s'.orders, PostAll(l, es))
  {
    hide Match, DistinctIds, PositiveOpen, Uncrossed, SlotPartition, Freed, AfterFills, Without;
    if qty > 0 {
      PartitionDistinct(s.orders, s.free, s.slotCount);
      var taker := Taker(s, side, 0, qty, ts, client);
      OpenAccount(s, l, taker);
      var m := Match(s.orders, taker, None, qty, maxFills);
      MatchBalances(s.orders, l, taker, None, qty, maxFills);
      MatchSettles(s.orders, taker, None, qty, maxFills);
      forall o | o in m.orders ensures o.id != taker.id {
        SettleMembers(s.orders, m.fills, o);
      }
      if m.open > 0 {
        PostConcat(l, m.fills, [Revoke(taker.id, client, 1)]);
        CloseBalances(m.orders + [taker.(openLot := m.open)], PostAll(l, m.fills), taker.id);
        WithoutAppend(m.orders, taker.(openLot := m.open), taker.id);
        WithoutAbsent(m.orders, taker.id);
        assert m.orders + [] == m.orders;
      } else {
        assert m.orders + [] == m.orders;
        assert m.fills + [] == m.fills;
      }
    }
  }

  lemma StepBalances(s: EngineState, l: Ledger, cmd: HpCommand)
    requires WellFormed(s) && Balanced(s.orders, l)
    ensures var (s', es) := Step(s, cmd); Balanced(s'.orders, PostAll(l, es))
  {
    hide WellFormed, LimitStep, MarketStep, Balanced;
    match cmd
    case Limit(side, tick, qty, ts, client) => LimitBalances(s, l, side, tick, qty, ts, client);
    case Market(side, qty, ts, maxFills, client) => MarketBalances(s, l, side, qty, ts, maxFills, client);
    case Cancel(id) =>
      if HasId(s.orders, id) {
        CloseBalances(s.orders, l, id);
      } else if id in s.clients {
        CancelAllBalances(s.orders, s.free, s.clients[id], id, l);
      }
  }

  /** Conservation over every run from the empty engine. */
  lemma {:induction false} RunBalances(cmds: seq<HpCommand>)
    ensures WellFormed(INITIAL)
    ensures Balanced(Run(INITIAL, cmds).orders, PostAll(map[], Log(INITIAL, cmds)))
  {
    assert WellFormed(INITIAL);
    if cmds != [] {
      var n := |cmds| - 1;
      RunBalances(cmds[..n]);
      var s := Run(INITIAL, cmds[..n]);
      var log := Log(INITIAL, cmds[..n]);
      StepBalances(s, PostAll(map[], log), cmds[n]);
      PostConcat(map[], log, Step(s, cmds[n]).1);
    }
  }

  // ---------------------------------------------------------------- orders that leave the book

  function Submitted(cmd: HpCommand): int {
    match cmd
    case Limit(_, _, qty, _, _) => qty
    case Market(_, qty, _, _, _) => qty
    case Cancel(_) => 0
  }

  /** A resting order whose submitted lots are those posted so far plus `more`. */
  ghost predicate Accounts(orders: seq<HpOrder>, l: Ledger, id: nat, more: int) {
    exists o :: o in orders && o.id == id && o.qtyLot == Posted(l, id) + more
  }

  /** Event `k` of a command leaves no lot unaccounted for in any order it closes. */
  ghost predicate ClosesInFull(orders: seq<HpOrder>, l: Ledger, cmd: HpCommand, es: seq<HpEvent>, k: nat)
    requires k < |es|
  {
    match es[k]
    case Fill(makerId, _, _, _, _, qty, makerOpen, takerOpen) =>
      && (makerOpen == 0 ==> Accounts(orders, l, makerId, qty))
      && (takerOpen == 0 ==> TotalTraded(es[..k + 1]) == Submitted(cmd))
    case Rest(_, _, _, _, qty) => TotalTraded(es) + qty == Submitted(cmd)
    case Revoke(id, _, _) =>
      if cmd.Cancel? then exists o :: o in orders && o.id == id && o.qtyLot == Posted(l, id) + o.openLot
      else TotalTraded(es) < Submitted(cmd)
  }

  lemma {:induction false} TradedLast(fills: seq<HpEvent>, e: HpEvent)
    requires e.Fill? && forall j :: 0 <= j < |fills| ==> !fills[j].Fill? || fills[j].makerId != e.makerId
    ensures Traded(fills + [e], e.makerId) == e.qtyLot
  {
    if fills == [] {
      assert [] + [e] == [e] && [e][1..] == [];
    } else {
      assert (fills + [e])[1..] == fills[1..] + [e];
      TradedLast(fills[1..], e);
    }
  }

  /** A maker is filled once in a match, so its own fill is all it trades there. */
  lemma FilledOnce(s: seq<HpOrder>, taker: HpOrder, limit: Option<int>, open: int, budget: Option<nat>, k: nat)
    requires PositiveOpen(s) && DistinctIds(s) && k < |Match(s, taker, limit, open, budget).fills|
    ensures var fills := Match(s, taker, limit, open, budget).fills;
      fills[k].Fill? && Traded(fills[..k + 1], fills[k].makerId) == fills[k].qtyLot
  {
    hide Match, PositiveOpen, DistinctIds, Before, ReportsTrade;
    var fills := Match(s, taker, limit, open, budget).fills;
    MatchConserves(s, taker, limit, open, budget);
    forall j | 0 <= j < k ensures fills[j].makerId != fills[k].makerId {
      FillsSorted(s, taker, limit, open, budget, j, k);
    }
    assert fills[..k + 1] == fills[..k] + [fills[k]];
    TradedLast(fills[..k], fills[k]);
  }

  lemma FillCloses(s: seq<HpOrder>, l: Ledger, taker: HpOrder, limit: Option<int>, open: int, budget: Option<nat>,
      k: nat)
    requires PositiveOpen(s) && DistinctIds(s) && Balanced(s, l) && k < |Match(s, taker, limit, open, budget).fills|
    ensures var fills := Match(s, taker, limit, open, budget).fills;
      && fills[k].Fill?
      && (fills[k].makerOpen == 0 ==> Accounts(s, l, fills[k].makerId, fills[k].qtyLot))
      && (fills[k].takerOpen == 0 ==> TotalTraded(fills[..k + 1]) == open)
  {
    hide Match, PositiveOpen, DistinctIds, Traded, TotalTraded;
    var fills := Match(s, taker, limit, open, budget).fills;
    FilledOnce(s, taker, limit, open, budget, k);
    FillsReport(s, taker, limit, open, budget, k);
    var o :| ReportsTrade(s, taker, open, fills, k, o);
  }

  /** What closes a command with lots left: the order rests them, or they are revoked. */
  predicate Remainder(e: HpEvent, open: int) {
    open > 0 && (e.Revoke? || (e.Rest? && e.qtyLot == open))
  }

  lemma MatchCloses(s: EngineState, l: Ledger, cmd: HpCommand, taker: HpOrder, limit: Option<int>,
      budget: Option<nat>, k: nat)
    requires WellFormed(s) && Balanced(s.orders, l) && Submitted(cmd) > 0 && !cmd.Cancel?
    requires var m := Match(s.orders, taker, limit, Submitted(cmd), budget);
      var es := Step(s, cmd).1;
      k < |es| && (es == m.fills || exists e :: es == m.fills + [e] && Remainder(e, m.open))
    ensures ClosesInFull(s.orders, l, cmd, Step(s, cmd).1, k)
  {
    hide Match, PositiveOpen, DistinctIds, Traded, TotalTraded, SlotPartition, Step, Balanced, Uncrossed, Accounts;
    PartitionDistinct(s.orders, s.free, s.slotCount);
    var m := Match(s.orders, taker, limit, Submitted(cmd), budget);
    var es := Step(s, cmd).1;
    MatchConserves(s.orders, taker, limit, Submitted(cmd), budget);
    if k < |m.fills| {
      assert es[k] == m.fills[k] && es[..k + 1] == m.fills[..k + 1];
      FillCloses(s.orders, l, taker, limit, Submitted(cmd), budget, k);
    } else {
      var e :| es == m.fills + [e] && Remainder(e, m.open);
      TradedSnoc(m.fills, e, 0);
    }
  }

  lemma {:induction false} CancelAllListed(orders: seq<HpOrder>, free: seq<nat>, list: seq<nat>, client: nat)
    ensures var c := CancelAll(orders, free, list, client);
      && (forall o :: o in c.orders ==> o in orders)
      && forall k :: 0 <= k < |c.events| ==> c.events[k].Revoke? && HasId(orders, c.events[k].id)
  {
    if list != [] {
      var n := |list| - 1;
      CancelAllListed(orders, free, list[..n], client);
      var c := CancelAll(orders, free, list[..n], client);
      WithoutMembers(c.orders, list[n]);
    }
  }

  lemma CancelCloses(s: EngineState, l: Ledger, id: nat, k: nat)
    requires WellFormed(s) && Balanced(s.orders, l) && k < |CancelStep(s, id).1|
    ensures ClosesInFull(s.orders, l, Cancel(id), CancelStep(s, id).1, k)
  {
    var es := CancelStep(s, id).1;
    if HasId(s.orders, id) {
      assert es == [Revoke(id, ById(s.orders, id).clientId, 0)];
    } else {
      CancelAllListed(s.orders, s.free, s.clients[id], id);
      assert es == CancelAll(s.orders, s.free, s.clients[id], id).events;
    }
    assert es[k].Revoke? && HasId(s.orders, es[k].id);
    var o :| o in s.orders && o.id == es[k].id;
    assert Posted(l, o.id) == o.qtyLot - o.openLot;
  }

  /**
   Every order a command closes is closed in full: submitted lots are the lots posted plus this fill or this
   revocation.
   */
  lemma StepClosesInFull(s: EngineState, l: Ledger, cmd: HpCommand, k: nat)
    requires WellFormed(s) && Balanced(s.orders, l) && k < |Step(s, cmd).1|
    ensures ClosesInFull(s.orders, l, cmd, Step(s, cmd).1, k)
  {
    hide Match, ClosesInFull, Balanced, AfterFills, Freed, AddClient;
    match cmd
    case Limit(side, tick, qty, ts, client) =>
      MatchCloses(s, l, cmd, Taker(s, side, tick, qty, ts, client), Some(tick), None, k);
    case Market(side, qty, ts, maxFills, client) =>
      var taker := Taker(s, side, 0, qty, ts, client);
      var fills := Match(s.orders, taker, None, qty, maxFills).fills;
      assert fills + [] == fills;
      MatchCloses(s, l, cmd, taker, None, maxFills, k);
    case Cancel(id) => CancelCloses(s, l, id, k);
  }

  /** So over every run no lot of any order is lost: not of those resting, nor of those that left the book. */
  lemma RunClosesInFull(cmds: seq<HpCommand>, i: nat, k: nat)
    requires i < |cmds| && WellFormed(INITIAL)
    requires k < |Step(Run(INITIAL, cmds[..i]), cmds[i]).1|
    ensures var s := Run(INITIAL, cmds[..i]);
      ClosesInFull(s.orders, PostAll(map[], Log(INITIAL, cmds[..i])), cmds[i], Step(s, cmds[i]).1, k)
  {
    hide Step, ClosesInFull, Balanced, PostAll;
    RunBalances(cmds[..i]);
    StepClosesInFull(Run(INITIAL, cmds[..i]), PostAll(map[], Log(INITIAL, cmds[..i])), cmds[i], k);
  }
}
