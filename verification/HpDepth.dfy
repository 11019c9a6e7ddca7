/** Which resting orders a taker depletes, told from the book before the trade. */
module HpDepth {
  import opened Common
  import opened HpTypes
  import opened PriceTime
  import opened HpSpec
  import opened HpMatching

  /** `x`, arriving after `earlier`, is at or ahead of `o` in price-time priority. */
  ghost predicate Counts(earlier: seq<HpOrder>, x: HpOrder, o: HpOrder) {
    && x.side == o.side
    && (Better(o.side, x.priceTick, o.priceTick) || (x.priceTick == o.priceTick && !HasId(earlier, o.id)))
  }

  /** The orders of its side that trade before `o`, and `o` itself, in arrival order. */
  ghost function Queue(s: seq<HpOrder>, o: HpOrder): seq<HpOrder> {
    if s == [] then []
    else
      var n := |s| - 1;
      Queue(s[..n], o) + (if Counts(s[..n], s[n], o) then [s[n]] else [])
  }

  /** Open lots that must trade for `o` to be depleted. */
  ghost function Depth(s: seq<HpOrder>, o: HpOrder): int {
    SumOpen(Queue(s, o))
  }

  ghost function Rank(s: seq<HpOrder>, o: HpOrder): nat {
    |Queue(s, o)|
  }

  /** The queue is what price-time priority says: better prices, and at the same price no later arrivals. */
  lemma {:induction false} QueueMembers(s: seq<HpOrder>, o: HpOrder, x: HpOrder)
    requires DistinctIds(s) && o in s
    ensures x in Queue(s, o) <==>
            x in s && x.side == o.side
            && (Better(o.side, x.priceTick, o.priceTick) || (x.priceTick == o.priceTick && !Before(s, o.id, x.id)))
  {
    QueueSubset(s, o);
    forall i | 0 <= i < |s| ensures HasId(s[..i], o.id) <==> Before(s, o.id, s[i].id) {
      EarlierIsBefore(s, i, o);
    }
    QueueAt(s, o, |s|, x);
    assert s[..|s|] == s;
  }

  lemma {:induction false} QueueSubset(s: seq<HpOrder>, o: HpOrder)
    ensures forall x :: x in Queue(s, o) ==> x in s
  {
    if s != [] {
      QueueSubset(s[..|s| - 1], o);
    }
  }

  lemma EarlierIsBefore(s: seq<HpOrder>, i: nat, o: HpOrder)
    requires DistinctIds(s) && i < |s|
    ensures HasId(s[..i], o.id) <==> Before(s, o.id, s[i].id)
  {
    if HasId(s[..i], o.id) {
      var x :| x in s[..i] && x.id == o.id;
      var k :| 0 <= k < i && s[..i][k] == x;
      assert s[k].id == o.id;
    }
    if Before(s, o.id, s[i].id) {
      var k, j :| 0 <= k < j < |s| && s[k].id == o.id && s[j].id == s[i].id;
      assert j == i;
      assert s[..i][k].id == o.id && s[..i][k] in s[..i];
    }
  }

  lemma {:induction false} QueueAt(s: seq<HpOrder>, o: HpOrder, n: nat, x: HpOrder)
    requires n <= |s|
    ensures x in Queue(s[..n], o) <==> exists i :: 0 <= i < n && s[i] == x && Counts(s[..i], x, o)
  {
    hide Counts;
    if n > 0 {
      var t := s[..n];
      assert t[..n - 1] == s[..n - 1];
      QueueAt(s, o, n - 1, x);
      assert Queue(t, o) == Queue(s[..n - 1], o) + (if Counts(s[..n - 1], s[n - 1], o) then [s[n - 1]] else []);
    }
  }

  // ---------------------------------------------------------------- the queue while orders trade

  lemma {:induction false} QueueWithout(s: seq<HpOrder>, o: HpOrder, id: nat)
    requires id != o.id
    ensures Queue(Without(s, id), o) == Without(Queue(s, o), id)
  {
    if s != [] {
      var n := |s| - 1;
      var init, x := s[..n], s[n];
      QueueWithout(init, o, id);
      SameEarlier(init, o, id);
      assert Counts(Without(init, id), x, o) <==> Counts(init, x, o);
      assert s == init + [x];
      WithoutAppend(init, x, id);
      QueueSnoc(init, x, o);
      if x.id != id {
        QueueSnoc(Without(init, id), x, o);
      }
      if Counts(init, x, o) {
        WithoutAppend(Queue(init, o), x, id);
      }
    }
  }

  lemma QueueSnoc(s: seq<HpOrder>, x: HpOrder, o: HpOrder)
    ensures Queue(s + [x], o) == if Counts(s, x, o) then Queue(s, o) + [x] else Queue(s, o)
  {
    assert (s + [x])[..|s|] == s;
  }

  lemma SameEarlier(s: seq<HpOrder>, o: HpOrder, id: nat)
    requires id != o.id
    ensures HasId(Without(s, id), o.id) <==> HasId(s, o.id)
  {
    WithoutMembers(s, id);
  }

  lemma {:induction false} QueueDistinct(s: seq<HpOrder>, o: HpOrder)
    requires DistinctIds(s) && PositiveOpen(s)
    ensures DistinctIds(Queue(s, o)) && PositiveOpen(Queue(s, o))
  {
    if s != [] {
      var n := |s| - 1;
      QueueDistinct(s[..n], o);
      QueueSubset(s[..n], o);
      var q := Queue(s[..n], o);
      forall i | 0 <= i < |q| ensures q[i].id != s[n].id && q[i].openLot > 0 {
        assert q[i] in s[..n];
      }
    }
  }

  /** The best order is at the head of everybody's queue, and alone in its own. */
  lemma BestLeadsQueue(s: seq<HpOrder>, maker: HpOrder, o: HpOrder)
    requires DistinctIds(s) && PositiveOpen(s) && o in s && Best(s, o.side) == Some(maker)
    ensures maker in Queue(s, o)
    ensures o == maker ==> Depth(s, o) == o.openLot && Rank(s, o) == 1
  {
    BestBeatsAll(s, o.side, maker, o);
    if o != maker && o.priceTick == maker.priceTick {
      NotBefore(s, maker.id, o.id);
    } else if o == maker {
      NotBefore(s, o.id, o.id);
    }
    QueueMembers(s, o, maker);
    if o == maker {
      forall x | x in Queue(s, o) ensures x == o {
        QueueMembers(s, o, x);
        BestBeatsAll(s, o.side, maker, x);
      }
      QueueDistinct(s, o);
      OnlyOne(Queue(s, o), o);
    }
  }

  lemma NotBefore(s: seq<HpOrder>, x: nat, y: nat)
    requires DistinctIds(s) && (x == y || Before(s, x, y))
    ensures !Before(s, y, x)
  {
  }

  lemma OnlyOne(q: seq<HpOrder>, o: HpOrder)
    requires DistinctIds(q) && o in q && forall x :: x in q ==> x == o
    ensures |q| == 1 && SumOpen(q) == o.openLot
  {
    forall i | 0 <= i < |q| ensures q[i] == o {
      assert q[i] in q;
    }
    assert |q| == 1 by {
      assert |q| > 1 ==> q[0].id != q[1].id;
    }
    assert SumOpen(q[..0]) == 0;
  }

  /** An order ahead of `o` and `o` itself both count in full. */
  lemma DepthCovers(s: seq<HpOrder>, o: HpOrder, maker: HpOrder)
    requires DistinctIds(s) && PositiveOpen(s) && o in s && maker in Queue(s, o) && maker.id != o.id
    ensures Depth(s, o) >= o.openLot + maker.openLot
    ensures Depth(Without(s, maker.id), o) == Depth(s, o) - maker.openLot
    ensures Rank(Without(s, maker.id), o) == Rank(s, o) - 1
  {
    hide DistinctIds, PositiveOpen, Queue, SumOpen, Without, Before;
    QueueDistinct(s, o);
    var q := Queue(s, o);
    QueueWithout(s, o, maker.id);
    SumWithout(q, maker);
    var w := Without(q, maker.id);
    SelfQueued(s, o);
    WithoutMembers(q, maker.id);
    assert o in w;
    OneShorter(q, maker);
    assert PositiveOpen(w) by { StillPositive(q, maker.id); }
    SumAtLeast(w, o);
  }

  lemma StillPositive(q: seq<HpOrder>, id: nat)
    requires PositiveOpen(q)
    ensures PositiveOpen(Without(q, id))
  {
    WithoutMembers(q, id);
    forall i | 0 <= i < |Without(q, id)| ensures Without(q, id)[i].openLot > 0 {
      assert Without(q, id)[i] in q;
    }
  }

  lemma SelfQueued(s: seq<HpOrder>, o: HpOrder)
    requires DistinctIds(s) && o in s
    ensures o in Queue(s, o)
  {
    QueueMembers(s, o, o);
    NotBefore(s, o.id, o.id);
  }

  lemma OneShorter(q: seq<HpOrder>, o: HpOrder)
    requires DistinctIds(q) && o in q
    ensures |Without(q, o.id)| == |q| - 1
  {
    var k :| 0 <= k < |q| && q[k] == o;
    WithoutAt(q, k);
  }

  lemma {:induction false} SumAtLeast(q: seq<HpOrder>, o: HpOrder)
    requires PositiveOpen(q) && o in q
    ensures SumOpen(q) >= o.openLot
  {
    var n := |q| - 1;
    SumNonNegative(q[..n]);
    if o in q[..n] {
      SumAtLeast(q[..n], o);
    }
  }

  // ---------------------------------------------------------------- who is depleted

  /** A taker of `open` lots within `limit` and `budget` uses `o` up. */
  ghost predicate UsesUp(s: seq<HpOrder>, side: Side, limit: Option<int>, open: int, budget: Option<nat>, o: HpOrder) {
    && o.side == Opposite(side) && Crosses(side, o.priceTick, limit)
    && Depth(s, o) <= open && (budget.Some? ==> Rank(s, o) <= budget.value)
  }

  ghost predicate Depletes(fills: seq<HpEvent>, id: nat) {
    exists k :: 0 <= k < |fills| && fills[k].Fill? && fills[k].makerId == id && fills[k].makerOpen == 0
  }

  lemma DepletesFront(e: HpEvent, rest: seq<HpEvent>, id: nat)
    ensures Depletes([e] + rest, id) <==> (e.Fill? && e.makerId == id && e.makerOpen == 0) || Depletes(rest, id)
  {
    var fills := [e] + rest;
    if Depletes(rest, id) {
      var k :| 0 <= k < |rest| && rest[k].Fill? && rest[k].makerId == id && rest[k].makerOpen == 0;
      assert fills[k + 1] == rest[k];
    }
    if Depletes(fills, id) {
      var k :| 0 <= k < |fills| && fills[k].Fill? && fills[k].makerId == id && fills[k].makerOpen == 0;
      assert k > 0 ==> fills[k] == rest[k - 1];
    }
    if e.Fill? && e.makerId == id && e.makerOpen == 0 {
      assert fills[0] == e;
    }
  }

  lemma NothingUsedUp(s: seq<HpOrder>, side: Side, limit: Option<int>, open: int, budget: Option<nat>, o: HpOrder)
    requires DistinctIds(s) && PositiveOpen(s) && o in s && Stops(s, side, limit, open, budget)
    ensures !UsesUp(s, side, limit, open, budget, o)
  {
    hide Queue, BestTick, SumOpen, PositiveOpen, DistinctIds;
    SelfQueued(s, o);
    QueueDistinct(s, o);
    SumAtLeast(Queue(s, o), o);
    PositiveMember(s, o);
    if o.side == Opposite(side) {
      assert o.priceTick in Ticks(s, o.side);
    }
  }

  lemma PositiveMember(s: seq<HpOrder>, o: HpOrder)
    requires PositiveOpen(s) && o in s
    ensures o.openLot > 0
  {
  }

  /** A match depletes exactly the orders whose whole queue fits the taker's lots, limit and budget. */
  lemma {:induction false} MatchDepletes(s: seq<HpOrder>, taker: HpOrder, limit: Option<int>, open: int,
      budget: Option<nat>, o: HpOrder)
    requires DistinctIds(s) && PositiveOpen(s) && o in s && o.side == Opposite(taker.side)
    ensures Depletes(Match(s, taker, limit, open, budget).fills, o.id)
        <==> UsesUp(s, taker.side, limit, open, budget, o)
    decreases |s|, open
  {
    hide Match, Reduce, Best, DistinctIds, PositiveOpen, Stops, Depletes, Depth, Rank, Queue;
    if Stops(s, taker.side, limit, open, budget) {
      MatchStops(s, taker, limit, open, budget);
      assert !Depletes([], o.id) by { NoneDepleted(o.id); }
      NothingUsedUp(s, taker.side, limit, open, budget, o);
    } else {
      var maker, qty, s', budget' := MatchInduct(s, taker, limit, open, budget);
      PositiveMember(s, maker);
      PositiveMember(s, o);
      var e := FillEvent(maker, taker, open);
      var rest := Match(s', taker, limit, open - qty, budget').fills;
      DepletesFront(e, rest, o.id);
      BestLeadsQueue(s, maker, o);
      assert budget.Some? ==> budget.value >= 1 by { BudgetLeft(s, taker.side, limit, open, budget); }
      if qty < maker.openLot {
        assert Stops(s', taker.side, limit, open - qty, budget') by {
          OpenGone(s', taker.side, limit, open - qty, budget');
        }
        MatchStops(s', taker, limit, open - qty, budget');
        assert !Depletes(rest, o.id) by { NoneDepleted(o.id); }
        if o != maker {
          assert o.id != maker.id by { UniqueById(s, maker); }
          DepthCovers(s, o, maker);
        }
      } else if o != maker {
        assert o.id != maker.id by { UniqueById(s, maker); }
        assert s' == Without(s, maker.id) by { ReduceAway(s, maker, qty); }
        ReduceMembers(s, maker, qty);
        MatchDepletes(s', taker, limit, open - qty, budget', o);
        DepthCovers(s, o, maker);
      }
    }
  }

  lemma NoneDepleted(id: nat)
    ensures !Depletes([], id)
  {
  }

  lemma BudgetLeft(s: seq<HpOrder>, side: Side, limit: Option<int>, open: int, budget: Option<nat>)
    requires !Stops(s, side, limit, open, budget)
    ensures budget.Some? ==> budget.value >= 1
  {
  }

  lemma ReduceAway(s: seq<HpOrder>, maker: HpOrder, qty: int)
    requires qty >= maker.openLot
    ensures Reduce(s, maker, qty) == Without(s, maker.id)
  {
  }
}
