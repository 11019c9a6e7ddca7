/**
 The price-time specification. A book is one sequence of resting orders in arrival order;
 the best order of a side is the earliest arrival at the best price. Everything the engine
 caches (levels, totals, best ticks, client lists) is a view of this one sequence.
 */
module PriceTime {
  import opened Common
  import opened HpTypes

  // ---------------------------------------------------------------- views

  ghost function Filter(s: seq<HpOrder>, p: HpOrder -> bool): seq<HpOrder> {
    if s == [] then []
    else
      var rest := Filter(s[..|s| - 1], p);
      if p(s[|s| - 1]) then rest + [s[|s| - 1]] else rest
  }

  function Ids(s: seq<HpOrder>): (r: seq<nat>) {
    seq(|s|, i requires 0 <= i < |s| => s[i].id)
  }

  ghost function SumOpen(s: seq<HpOrder>): int {
    if s == [] then 0 else SumOpen(s[..|s| - 1]) + s[|s| - 1].openLot
  }

  ghost function LevelPred(side: Side, tick: int): HpOrder -> bool {
    (o: HpOrder) => o.side == side && o.priceTick == tick
  }

  ghost function ClientPred(client: nat): HpOrder -> bool {
    (o: HpOrder) => o.clientId == client
  }

  /** The FIFO of one price level. */
  ghost function AtLevel(s: seq<HpOrder>, side: Side, tick: int): seq<HpOrder> {
    Filter(s, LevelPred(side, tick))
  }

  /** The resting orders of one client, oldest first. */
  ghost function OfClient(s: seq<HpOrder>, client: nat): seq<HpOrder> {
    Filter(s, ClientPred(client))
  }

  ghost function Ticks(s: seq<HpOrder>, side: Side): set<int> {
    set o | o in s && o.side == side :: o.priceTick
  }

  // ---------------------------------------------------------------- updates by id

  predicate DistinctIds(s: seq<HpOrder>) {
    forall i, j :: 0 <= i < j < |s| ==> s[i].id != s[j].id
  }

  predicate PositiveOpen(s: seq<HpOrder>) {
    forall i :: 0 <= i < |s| ==> s[i].openLot > 0
  }

  ghost function Without(s: seq<HpOrder>, id: nat): seq<HpOrder> {
    if s == [] then []
    else
      var rest := Without(s[..|s| - 1], id);
      if s[|s| - 1].id == id then rest else rest + [s[|s| - 1]]
  }

  ghost function WithOpen(s: seq<HpOrder>, id: nat, open: int): seq<HpOrder> {
    seq(|s|, i requires 0 <= i < |s| =>
      if s[i].id == id then s[i].(openLot := open) else s[i])
  }

  /** The book after `qty` lots of order `id` traded. */
  ghost function Reduce(s: seq<HpOrder>, o: HpOrder, qty: int): seq<HpOrder> {
    if o.openLot - qty <= 0 then Without(s, o.id) else WithOpen(s, o.id, o.openLot - qty)
  }

  // ---------------------------------------------------------------- best order

  predicate IsBestTick(keys: set<int>, side: Side, m: int) {
    m in keys && forall k :: k in keys ==> !Better(side, k, m)
  }

  lemma {:induction false} BestExists(keys: set<int>, side: Side)
    requires keys != {}
    ensures exists m :: IsBestTick(keys, side, m)
  {
    var x := AnyMember(keys);
    var rest := keys - {x};
    if rest == {} {
      assert keys == {x};
      assert IsBestTick(keys, side, x);
    } else {
      BestExists(rest, side);
      var m :| IsBestTick(rest, side, m);
      forall k | k in keys ensures k == x || !Better(side, k, m) {
        assert k == x || k in rest;
      }
      assert IsBestTick(keys, side, if Better(side, x, m) then x else m);
    }
  }

  /** Lowest ask or highest bid of a set of ticks. */
  function BestTick(keys: set<int>, side: Side): (r: Option<int>)
    ensures r == None <==> keys == {}
    ensures r.Some? ==> IsBestTick(keys, side, r.value)
  {
    if keys == {} then None
    else
      BestExists(keys, side);
      var m :| IsBestTick(keys, side, m);
      Some(m)
  }

  /** The best resting order of a side: best price first, then earliest arrival. */
  ghost function Best(s: seq<HpOrder>, side: Side): (r: Option<HpOrder>)
    ensures r == None <==> Ticks(s, side) == {}
    ensures r.Some? ==> r.value in s && r.value.side == side
                        && IsBestTick(Ticks(s, side), side, r.value.priceTick)
                        && AtLevel(s, side, r.value.priceTick) != []
                        && AtLevel(s, side, r.value.priceTick)[0] == r.value
  {
    var t := BestTick(Ticks(s, side), side);
    if t == None then None
    else
      LevelOfTick(s, side, t.value);
      FilterMembers(s, LevelPred(side, t.value));
      Some(AtLevel(s, side, t.value)[0])
  }

  // ---------------------------------------------------------------- matching

  datatype Matched = Matched(orders: seq<HpOrder>, open: int, fills: seq<HpEvent>)

  function FillEvent(maker: HpOrder, taker: HpOrder, open: int): HpEvent {
    var qty := Min(maker.openLot, open);
    Fill(maker.id, taker.id, maker.clientId, taker.clientId, maker.priceTick, qty,
         maker.openLot - qty, open - qty)
  }

  /**
   Trade `open` lots of `taker` against the book: repeatedly take the best opposite order
   while it crosses `limit`, at its own price, for at most `budget` fills.
   */
  ghost function Match(s: seq<HpOrder>, taker: HpOrder, limit: Option<int>, open: int, budget: Option<nat>)
    : (r: Matched)
    requires PositiveOpen(s)
    ensures PositiveOpen(r.orders)
    decreases |s|, open
  {
    var best := Best(s, Opposite(taker.side));
    if budget == Some(0) || open <= 0 || best == None || !Crosses(taker.side, best.value.priceTick, limit) then
      Matched(s, open, [])
    else
      var maker := best.value;
      var qty := Min(maker.openLot, open);
      ReduceShape(s, maker, qty);
      var budget' := if budget == None then None else Some(budget.value - 1);
      var rest := Match(Reduce(s, maker, qty), taker, limit, open - qty, budget');
      Matched(rest.orders, rest.open, [FillEvent(maker, taker, open)] + rest.fills)
  }

  // ---------------------------------------------------------------- lemmas about views

  lemma FilterMembers(s: seq<HpOrder>, p: HpOrder -> bool)
    ensures forall o :: o in Filter(s, p) <==> o in s && p(o)
  {
    if s != [] {
      var n := |s| - 1;
      FilterMembers(s[..n], p);
      assert s == s[..n] + [s[n]];
    }
  }

  lemma LevelOfTick(s: seq<HpOrder>, side: Side, tick: int)
    requires tick in Ticks(s, side)
    ensures AtLevel(s, side, tick) != []
  {
    var o :| o in s && o.side == side && o.priceTick == tick;
    FilterMembers(s, LevelPred(side, tick));
    assert o in AtLevel(s, side, tick);
  }

  lemma WithoutMembers(s: seq<HpOrder>, id: nat)
    ensures forall o :: o in Without(s, id) <==> o in s && o.id != id
    ensures (exists o :: o in s && o.id == id) ==> |Without(s, id)| < |s|
    ensures |Without(s, id)| <= |s|
  {
    if s != [] {
      var n := |s| - 1;
      WithoutMembers(s[..n], id);
      assert s == s[..n] + [s[n]];
    }
  }

  lemma ReduceShape(s: seq<HpOrder>, o: HpOrder, qty: int)
    requires PositiveOpen(s) && o in s
    ensures PositiveOpen(Reduce(s, o, qty))
    ensures |Reduce(s, o, qty)| <= |s|
    ensures o.openLot <= qty ==> |Reduce(s, o, qty)| < |s|
  {
    WithoutMembers(s, o.id);
    var w := Without(s, o.id);
    forall i | 0 <= i < |w| ensures w[i].openLot > 0 {
      assert w[i] in w;
    }
  }

  function Retain(l: seq<nat>, id: nat): seq<nat> {
    if l == [] then []
    else
      var rest := Retain(l[..|l| - 1], id);
      if l[|l| - 1] == id then rest else rest + [l[|l| - 1]]
  }

  lemma FilterAppend(s: seq<HpOrder>, o: HpOrder, p: HpOrder -> bool)
    ensures Filter(s + [o], p) == Filter(s, p) + (if p(o) then [o] else [])
  {
    assert (s + [o])[..|s|] == s;
  }

  lemma {:induction false} FilterWithout(s: seq<HpOrder>, p: HpOrder -> bool, id: nat)
    ensures Filter(Without(s, id), p) == Without(Filter(s, p), id)
  {
    if s != [] {
      var n := |s| - 1;
      FilterWithout(s[..n], p, id);
      FilterAppend(Without(s[..n], id), s[n], p);
      WithoutAppend(Filter(s[..n], p), s[n], id);
    }
  }

  lemma WithoutAppend(s: seq<HpOrder>, o: HpOrder, id: nat)
    ensures Without(s + [o], id) == Without(s, id) + (if o.id == id then [] else [o])
  {
    assert (s + [o])[..|s|] == s;
  }

  lemma {:induction false} FilterWithOpen(s: seq<HpOrder>, p: HpOrder -> bool, id: nat, open: int)
    requires forall o: HpOrder :: p(o.(openLot := open)) == p(o)
    ensures Filter(WithOpen(s, id, open), p) == WithOpen(Filter(s, p), id, open)
  {
    if s != [] {
      var n := |s| - 1;
      FilterWithOpen(s[..n], p, id, open);
      assert WithOpen(s, id, open)[..n] == WithOpen(s[..n], id, open);
    }
  }

  lemma {:induction false} IdsWithout(s: seq<HpOrder>, id: nat)
    ensures Ids(Without(s, id)) == Retain(Ids(s), id)
  {
    if s != [] {
      var n := |s| - 1;
      IdsWithout(s[..n], id);
      assert Ids(s)[..n] == Ids(s[..n]);
    }
  }

  lemma {:induction false} WithoutAbsent(s: seq<HpOrder>, id: nat)
    requires forall o :: o in s ==> o.id != id
    ensures Without(s, id) == s
  {
    if s != [] {
      WithoutAbsent(s[..|s| - 1], id);
    }
  }

  lemma {:induction false} WithoutAt(s: seq<HpOrder>, i: nat)
    requires DistinctIds(s) && i < |s|
    ensures Without(s, s[i].id) == s[..i] + s[i + 1..]
    decreases |s|
  {
    var n := |s| - 1;
    if i == n {
      WithoutAbsent(s[..n], s[n].id);
    } else {
      WithoutAt(s[..n], i);
      assert s[..n][..i] + s[..n][i + 1..] + [s[n]] == s[..i] + s[i + 1..];
    }
  }

  lemma {:induction false} SumWithout(s: seq<HpOrder>, o: HpOrder)
    requires DistinctIds(s) && o in s
    ensures SumOpen(Without(s, o.id)) == SumOpen(s) - o.openLot
  {
    var n := |s| - 1;
    var w := Without(s[..n], o.id);
    if s[n].id == o.id {
      WithoutAbsent(s[..n], o.id);
    } else {
      SumWithout(s[..n], o);
      assert (w + [s[n]])[..|w|] == w;
    }
  }

  lemma {:induction false} SumWithOpen(s: seq<HpOrder>, o: HpOrder, open: int)
    requires DistinctIds(s) && o in s
    ensures SumOpen(WithOpen(s, o.id, open)) == SumOpen(s) - o.openLot + open
  {
    var n := |s| - 1;
    assert WithOpen(s, o.id, open)[..n] == WithOpen(s[..n], o.id, open);
    if s[n].id == o.id {
      WithOpenAbsent(s[..n], o.id, open);
    } else {
      SumWithOpen(s[..n], o, open);
    }
  }

  lemma WithOpenAbsent(s: seq<HpOrder>, id: nat, open: int)
    requires forall o :: o in s ==> o.id != id
    ensures WithOpen(s, id, open) == s
  {
  }

  lemma {:induction false} FilterDistinct(s: seq<HpOrder>, p: HpOrder -> bool)
    requires DistinctIds(s)
    ensures DistinctIds(Filter(s, p))
  {
    if s != [] {
      var n := |s| - 1;
      FilterDistinct(s[..n], p);
      FilterMembers(s[..n], p);
      var f := Filter(s[..n], p);
      forall i | 0 <= i < |f| ensures f[i].id != s[n].id {
        assert f[i] in f;
      }
    }
  }

  lemma {:induction false} WithoutDistinct(s: seq<HpOrder>, id: nat)
    requires DistinctIds(s)
    ensures DistinctIds(Without(s, id))
  {
    if s != [] {
      var n := |s| - 1;
      WithoutDistinct(s[..n], id);
      WithoutMembers(s[..n], id);
      var w := Without(s[..n], id);
      forall i | 0 <= i < |w| ensures w[i].id != s[n].id {
        assert w[i] in w;
      }
    }
  }

  lemma BestTickUnique(keys: set<int>, side: Side, m: int)
    requires IsBestTick(keys, side, m)
    ensures BestTick(keys, side) == Some(m)
  {
    var b := BestTick(keys, side).value;
    assert !Better(side, b, m) && !Better(side, m, b);
  }

  /** Keeping the cache on insert: compare with the new tick only. */
  lemma BestTickInsert(keys: set<int>, side: Side, t: int)
    ensures var b := BestTick(keys, side);
            BestTick(keys + {t}, side) == if b == None || Better(side, t, b.value) then Some(t) else b
  {
    var b := BestTick(keys, side);
    var m := if b == None || Better(side, t, b.value) then t else b.value;
    assert IsBestTick(keys + {t}, side, m);
    BestTickUnique(keys + {t}, side, m);
  }

  /** Keeping the cache on removal: only the removal of the best tick itself matters. */
  lemma BestTickRemove(keys: set<int>, side: Side, t: int)
    requires BestTick(keys, side) != Some(t)
    ensures BestTick(keys - {t}, side) == BestTick(keys, side)
  {
    var b := BestTick(keys, side);
    if b == None {
      assert keys - {t} == {};
    } else {
      assert IsBestTick(keys - {t}, side, b.value);
      BestTickUnique(keys - {t}, side, b.value);
    }
  }

  lemma PositiveAppend(s: seq<HpOrder>, o: HpOrder)
    requires PositiveOpen(s) && o.openLot > 0
    ensures PositiveOpen(s + [o])
  {
  }

  lemma {:induction false} SumNonNegative(s: seq<HpOrder>)
    requires PositiveOpen(s)
    ensures SumOpen(s) >= 0
    ensures s != [] ==> SumOpen(s) > 0
  {
    if s != [] {
      SumNonNegative(s[..|s| - 1]);
    }
  }

  lemma {:induction false} WithoutWithOpen(s: seq<HpOrder>, id: nat, open: int)
    ensures Without(WithOpen(s, id, open), id) == Without(s, id)
  {
    if s != [] {
      var n := |s| - 1;
      WithoutWithOpen(s[..n], id, open);
      assert WithOpen(s, id, open)[..n] == WithOpen(s[..n], id, open);
    }
  }

  lemma {:induction false} WithoutConcat(a: seq<HpOrder>, b: seq<HpOrder>, id: nat)
    ensures Without(a + b, id) == Without(a, id) + Without(b, id)
  {
    if b == [] {
      assert a + b == a;
    } else {
      var n := |b| - 1;
      assert (a + b)[..|a + b| - 1] == a + b[..n];
      WithoutConcat(a, b[..n], id);
    }
  }

  lemma {:induction false} RetainFront(l: seq<nat>)
    requires l != [] && forall i, j :: 0 <= i < j < |l| ==> l[i] != l[j]
    ensures Retain(l, l[0]) == l[1..]
  {
    var n := |l| - 1;
    if n > 0 {
      RetainFront(l[..n]);
      assert l[..n][1..] + [l[n]] == l[1..];
    }
  }

  lemma PositiveWithout(s: seq<HpOrder>, id: nat)
    requires PositiveOpen(s)
    ensures PositiveOpen(Without(s, id))
  {
    WithoutMembers(s, id);
    var w := Without(s, id);
    forall i | 0 <= i < |w| ensures w[i].openLot > 0 {
      assert w[i] in w;
    }
  }

  lemma WithOpenConcat(a: seq<HpOrder>, b: seq<HpOrder>, id: nat, open: int)
    ensures WithOpen(a + b, id, open) == WithOpen(a, id, open) + WithOpen(b, id, open)
  {
  }

  lemma UniqueById(s: seq<HpOrder>, o: HpOrder)
    requires DistinctIds(s) && o in s
    ensures forall x :: x in s && x.id == o.id ==> x == o
  {
  }

  // ---------------------------------------------------------------- unfolding a match

  function Prepend(fills: seq<HpEvent>, m: Matched): Matched {
    Matched(m.orders, m.open, fills + m.fills)
  }

  function Spend(budget: Option<nat>, used: nat): Option<nat>
    requires budget.Some? ==> used <= budget.value
  {
    if budget == None then None else Some(budget.value - used)
  }

  ghost predicate Stops(s: seq<HpOrder>, side: Side, limit: Option<int>, open: int, budget: Option<nat>) {
    var best := BestTick(Ticks(s, Opposite(side)), Opposite(side));
    budget == Some(0) || open <= 0 || best == None || !Crosses(side, best.value, limit)
  }

  lemma MatchStops(s: seq<HpOrder>, taker: HpOrder, limit: Option<int>, open: int, budget: Option<nat>)
    requires PositiveOpen(s) && Stops(s, taker.side, limit, open, budget)
    ensures Match(s, taker, limit, open, budget) == Matched(s, open, [])
  {
  }

  /** The best order is the front of the level at the best tick. */
  lemma BestIsFront(s: seq<HpOrder>, side: Side, tick: int)
    requires BestTick(Ticks(s, side), side) == Some(tick)
    ensures AtLevel(s, side, tick) != []
    ensures Best(s, side) == Some(AtLevel(s, side, tick)[0])
    ensures AtLevel(s, side, tick)[0] in s
  {
    LevelOfTick(s, side, tick);
  }

  lemma MatchContinues(s: seq<HpOrder>, taker: HpOrder, limit: Option<int>, open: int, budget: Option<nat>,
      maker: HpOrder)
    requires PositiveOpen(s) && !Stops(s, taker.side, limit, open, budget)
    requires Best(s, Opposite(taker.side)) == Some(maker)
    ensures var qty := Min(maker.openLot, open);
      && PositiveOpen(Reduce(s, maker, qty))
      && |Reduce(s, maker, qty)| <= |s|
      && (maker.openLot <= qty ==> |Reduce(s, maker, qty)| < |s|)
      && Match(s, taker, limit, open, budget)
         == Prepend([FillEvent(maker, taker, open)],
                    Match(Reduce(s, maker, qty), taker, limit, open - qty,
                        Spend(budget, if budget == None then 0 else 1)))
  {
    hide Reduce, PositiveOpen, Ticks, AtLevel, BestTick, Best;
    BestTickUnique(Ticks(s, Opposite(taker.side)), Opposite(taker.side), maker.priceTick);
    ReduceShape(s, maker, Min(maker.openLot, open));
  }
}
