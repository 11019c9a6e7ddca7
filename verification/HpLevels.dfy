/** One price level: its FIFO of order ids and the cached total of their open lots. */
module HpLevels {
  import opened Common
  import opened HpTypes
  import opened PriceTime

  datatype Level = Level(totalLot: int, ids: seq<nat>) {
    function Push(id: nat, lot: int): Level {
      Level(totalLot + lot, ids + [id])
    }
  }

  const EMPTY_LEVEL := Level(0, [])

  /** The level index of `side` is exactly the per-tick view of the resting orders. */
  ghost predicate LevelsOk(levels: map<int, Level>, s: seq<HpOrder>, side: Side) {
    && levels.Keys == Ticks(s, side)
    && forall t :: t in levels ==>
         && levels[t].ids == Ids(AtLevel(s, side, t))
         && levels[t].totalLot == SumOpen(AtLevel(s, side, t))
  }

  function LevelOr(levels: map<int, Level>, tick: int, missing: Level): Level {
    if tick in levels then levels[tick] else missing
  }

  /** The index after `o` joined the back of its level, which is made if it was missing. */
  function Pushed(levels: map<int, Level>, o: HpOrder): map<int, Level> {
    levels[o.priceTick := LevelOr(levels, o.priceTick, EMPTY_LEVEL).Push(o.id, o.openLot)]
  }

  /** An order that is on its level already must not join it again. */
  lemma TwiceOnLevel(levels: map<int, Level>, s: seq<HpOrder>, o: HpOrder)
    requires LevelsOk(levels, s, o.side) && o in s && o.openLot > 0
    ensures !LevelsOk(Pushed(levels, o), s, o.side)
  {
    TickOfMember(levels, s, o);
    assert Pushed(levels, o)[o.priceTick].totalLot == levels[o.priceTick].totalLot + o.openLot;
  }

  lemma PushKeepsLevels(levels: map<int, Level>, s: seq<HpOrder>, o: HpOrder)
    requires LevelsOk(levels, s, o.side)
    ensures LevelsOk(Pushed(levels, o), s + [o], o.side)
  {
    hide Ticks, Ids, SumOpen, AtLevel;
    var levels' := Pushed(levels, o);
    TicksAppend(s, o, o.side);
    forall t | t in levels'
      ensures levels'[t].ids == Ids(AtLevel(s + [o], o.side, t))
      ensures levels'[t].totalLot == SumOpen(AtLevel(s + [o], o.side, t))
    {
      LevelAppend(s, o, t);
      LevelViewAppend(AtLevel(s, o.side, t), o);
      TickIffLevel(s, o.side, t);
    }
  }

  lemma LevelAppend(s: seq<HpOrder>, o: HpOrder, t: int)
    ensures AtLevel(s + [o], o.side, t)
        == if o.priceTick == t then AtLevel(s, o.side, t) + [o] else AtLevel(s, o.side, t)
  {
    FilterAppend(s, o, LevelPred(o.side, t));
  }

  lemma LevelViewAppend(before: seq<HpOrder>, o: HpOrder)
    ensures Ids(before + [o]) == Ids(before) + [o.id] && SumOpen(before + [o]) == SumOpen(before) + o.openLot
    ensures before == [] ==> Ids(before) == [] && SumOpen(before) == 0
  {
    assert (before + [o])[..|before|] == before;
  }

  lemma TicksAppend(s: seq<HpOrder>, o: HpOrder, side: Side)
    ensures Ticks(s + [o], side) == Ticks(s, side) + (if o.side == side then {o.priceTick} else {})
  {
    var r := Ticks(s + [o], side);
    forall t | t in Ticks(s, side) ensures t in r {
      var x :| x in s && x.side == side && x.priceTick == t;
      assert x in s + [o];
    }
    if o.side == side {
      assert o in s + [o];
    }
  }

  lemma PushKeepsOther(levels: map<int, Level>, s: seq<HpOrder>, o: HpOrder, side: Side)
    requires LevelsOk(levels, s, side) && o.side != side
    ensures LevelsOk(levels, s + [o], side)
  {
    TicksAppend(s, o, side);
    forall t | t in levels ensures AtLevel(s + [o], side, t) == AtLevel(s, side, t) {
      FilterAppend(s, o, LevelPred(side, t));
    }
  }

  /**
   The index after `o` left its level and `qty` lots were debited: the total stops at zero, an
   emptied level goes, and a missing level stays missing.
   */
  function DebitLevel(levels: map<int, Level>, o: HpOrder, qty: int): map<int, Level> {
    if o.priceTick !in levels then levels
    else
      var level := Level(Max(levels[o.priceTick].totalLot - qty, 0), Retain(levels[o.priceTick].ids, o.id));
      if level.ids == [] then levels - {o.priceTick} else levels[o.priceTick := level]
  }

  /** The ids of every level are exact; totals are not looked at. */
  ghost predicate LevelIdsOk(levels: map<int, Level>, s: seq<HpOrder>, side: Side) {
    && levels.Keys == Ticks(s, side)
    && forall t :: t in levels ==> levels[t].ids == Ids(AtLevel(s, side, t))
  }

  lemma IdsOfLevels(levels: map<int, Level>, s: seq<HpOrder>, side: Side)
    requires LevelsOk(levels, s, side)
    ensures LevelIdsOk(levels, s, side)
  {
  }

  lemma TickOfMember(levels: map<int, Level>, s: seq<HpOrder>, o: HpOrder)
    requires LevelsOk(levels, s, o.side) && o in s
    ensures o.priceTick in levels
    ensures o in AtLevel(s, o.side, o.priceTick)
  {
    FilterMembers(s, LevelPred(o.side, o.priceTick));
  }

  lemma WithoutLevel(s: seq<HpOrder>, o: HpOrder, side: Side, t: int)
    requires DistinctIds(s) && o in s
    ensures AtLevel(Without(s, o.id), side, t) == Without(AtLevel(s, side, t), o.id)
    ensures !(side == o.side && t == o.priceTick) ==> AtLevel(Without(s, o.id), side, t) == AtLevel(s, side, t)
    ensures t in Ticks(Without(s, o.id), side) <==> AtLevel(Without(s, o.id), side, t) != []
  {
    FilterWithout(s, LevelPred(side, t), o.id);
    FilterMembers(s, LevelPred(side, t));
    if !(side == o.side && t == o.priceTick) {
      forall x | x in AtLevel(s, side, t) ensures x.id != o.id {
        SameIdSameOrder(s, x, o);
      }
      WithoutAbsent(AtLevel(s, side, t), o.id);
    }
    TickIffLevel(Without(s, o.id), side, t);
  }

  lemma SameIdSameOrder(s: seq<HpOrder>, x: HpOrder, o: HpOrder)
    requires DistinctIds(s) && x in s && o in s
    ensures x.id == o.id ==> x == o
  {
  }

  lemma TickIffLevel(s: seq<HpOrder>, side: Side, t: int)
    ensures t in Ticks(s, side) <==> AtLevel(s, side, t) != []
  {
    FilterMembers(s, LevelPred(side, t));
    if AtLevel(s, side, t) != [] {
      assert AtLevel(s, side, t)[0] in s;
    }
    if t in Ticks(s, side) {
      LevelOfTick(s, side, t);
    }
  }

  /** Taking out the order with its own lots keeps the view exact. */
  lemma DropKeepsLevels(levels: map<int, Level>, s: seq<HpOrder>, o: HpOrder)
    requires LevelsOk(levels, s, o.side) && DistinctIds(s) && PositiveOpen(s) && o in s
    ensures o.priceTick in levels
    ensures LevelsOk(DebitLevel(levels, o, o.openLot), Without(s, o.id), o.side)
  {
    hide AtLevel, DebitLevel, SumOpen, Without, Ids, DistinctIds, PositiveOpen;
    DebitKeepsIds(levels, s, o, o.openLot);
    var levels' := DebitLevel(levels, o, o.openLot);
    forall t | t in levels' ensures levels'[t].totalLot == SumOpen(AtLevel(Without(s, o.id), o.side, t)) {
      DebitedTotal(levels, s, o, o.openLot, t);
      if t == o.priceTick {
        LevelPositive(s, o);
        SumNonNegative(AtLevel(Without(s, o.id), o.side, t));
      }
    }
  }

  /** Whatever is debited, keys and ids stay exact. */
  lemma DebitKeepsIds(levels: map<int, Level>, s: seq<HpOrder>, o: HpOrder, qty: int)
    requires LevelsOk(levels, s, o.side) && DistinctIds(s) && o in s
    ensures o.priceTick in levels
    ensures LevelIdsOk(DebitLevel(levels, o, qty), Without(s, o.id), o.side)
  {
    hide SumOpen;
    TickOfMember(levels, s, o);
    var levels' := DebitLevel(levels, o, qty);
    var here := AtLevel(s, o.side, o.priceTick);
    IdsWithout(here, o.id);
    forall t
      ensures t in levels' <==> t in Ticks(Without(s, o.id), o.side)
      ensures t in levels' ==> levels'[t].ids == Ids(AtLevel(Without(s, o.id), o.side, t))
    {
      WithoutLevel(s, o, o.side, t);
      TickIffLevel(s, o.side, t);
    }
  }

  lemma DebitedTotal(levels: map<int, Level>, s: seq<HpOrder>, o: HpOrder, qty: int, t: int)
    requires LevelsOk(levels, s, o.side) && DistinctIds(s) && o in s && t in DebitLevel(levels, o, qty)
    ensures var after := AtLevel(Without(s, o.id), o.side, t);
      DebitLevel(levels, o, qty)[t].totalLot
      == if t == o.priceTick then Max(SumOpen(after) + o.openLot - qty, 0) else SumOpen(after)
  {
    hide SumOpen, Without, Ids, Ticks, Filter, Retain, DistinctIds;
    TickOfMember(levels, s, o);
    WithoutLevel(s, o, o.side, t);
    if t == o.priceTick {
      assert DistinctIds(AtLevel(s, o.side, t)) by { FilterDistinct(s, LevelPred(o.side, t)); }
      SumWithout(AtLevel(s, o.side, t), o);
    }
  }

  lemma DropKeepsOther(levels: map<int, Level>, s: seq<HpOrder>, o: HpOrder, side: Side)
    requires LevelsOk(levels, s, side) && DistinctIds(s) && o in s && o.side != side
    ensures LevelsOk(levels, Without(s, o.id), side)
  {
    forall t
      ensures t in Ticks(Without(s, o.id), side) <==> t in levels
      ensures AtLevel(Without(s, o.id), side, t) == AtLevel(s, side, t)
    {
      WithoutLevel(s, o, side, t);
      TickIffLevel(s, side, t);
    }
  }

  lemma TicksWithOpen(s: seq<HpOrder>, id: nat, open: int, side: Side)
    ensures Ticks(WithOpen(s, id, open), side) == Ticks(s, side)
  {
    var s' := WithOpen(s, id, open);
    forall t | t in Ticks(s, side) ensures t in Ticks(s', side) {
      var i :| 0 <= i < |s| && s[i].side == side && s[i].priceTick == t;
      assert s'[i] in s';
    }
    forall t | t in Ticks(s', side) ensures t in Ticks(s, side) {
      var i :| 0 <= i < |s'| && s'[i].side == side && s'[i].priceTick == t;
      assert s[i] in s;
    }
  }

  lemma ReopenKeepsLevels(levels: map<int, Level>, s: seq<HpOrder>, o: HpOrder, open: int)
    requires LevelsOk(levels, s, o.side) && DistinctIds(s) && o in s
    ensures o.priceTick in levels
    ensures LevelsOk(levels[o.priceTick :=
        Level(levels[o.priceTick].totalLot - o.openLot + open, levels[o.priceTick].ids)],
                     WithOpen(s, o.id, open), o.side)
  {
    TickOfMember(levels, s, o);
    TicksWithOpen(s, o.id, open, o.side);
    forall t | t in levels
      ensures Ids(AtLevel(WithOpen(s, o.id, open), o.side, t)) == levels[t].ids
      ensures SumOpen(AtLevel(WithOpen(s, o.id, open), o.side, t))
           == levels[t].totalLot + (if t == o.priceTick then open - o.openLot else 0)
    {
      FilterWithOpen(s, LevelPred(o.side, t), o.id, open);
      ReopenLevel(s, o, open, o.side, t);
    }
  }

  lemma ReopenLevel(s: seq<HpOrder>, o: HpOrder, open: int, side: Side, t: int)
    requires DistinctIds(s) && o in s
    ensures SumOpen(WithOpen(AtLevel(s, side, t), o.id, open))
         == SumOpen(AtLevel(s, side, t)) + (if side == o.side && t == o.priceTick then open - o.openLot else 0)
    ensures !(side == o.side && t == o.priceTick) ==> WithOpen(AtLevel(s, side, t), o.id, open) == AtLevel(s, side, t)
  {
    FilterMembers(s, LevelPred(side, t));
    if side == o.side && t == o.priceTick {
      FilterDistinct(s, LevelPred(side, t));
      SumWithOpen(AtLevel(s, side, t), o, open);
    } else {
      forall x | x in AtLevel(s, side, t) ensures x.id != o.id {
        SameIdSameOrder(s, x, o);
      }
      WithOpenAbsent(AtLevel(s, side, t), o.id, open);
    }
  }

  lemma ReopenKeepsOther(levels: map<int, Level>, s: seq<HpOrder>, o: HpOrder, open: int, side: Side)
    requires LevelsOk(levels, s, side) && DistinctIds(s) && o in s && o.side != side
    ensures LevelsOk(levels, WithOpen(s, o.id, open), side)
  {
    TicksWithOpen(s, o.id, open, side);
    forall t | t in levels
      ensures AtLevel(WithOpen(s, o.id, open), side, t) == AtLevel(s, side, t)
    {
      FilterWithOpen(s, LevelPred(side, t), o.id, open);
      ReopenLevel(s, o, open, side, t);
    }
  }

  /** Level arithmetic never goes negative, so the clamps to zero in the book never apply. */
  lemma LevelCovers(levels: map<int, Level>, s: seq<HpOrder>, o: HpOrder, qty: int)
    requires LevelsOk(levels, s, o.side) && DistinctIds(s) && PositiveOpen(s) && o in s
    requires qty <= o.openLot
    ensures o.priceTick in levels && levels[o.priceTick].totalLot - qty >= 0
  {
    TickOfMember(levels, s, o);
    var here := AtLevel(s, o.side, o.priceTick);
    FilterDistinct(s, LevelPred(o.side, o.priceTick));
    SumWithout(here, o);
    WithoutMembers(here, o.id);
    FilterMembers(s, LevelPred(o.side, o.priceTick));
    var w := Without(here, o.id);
    forall i | 0 <= i < |w| ensures w[i].openLot > 0 {
      assert w[i] in w && w[i] in s;
    }
    SumNonNegative(w);
  }

  lemma LevelIdsDistinct(levels: map<int, Level>, s: seq<HpOrder>, side: Side, tick: int)
    requires LevelsOk(levels, s, side) && DistinctIds(s) && tick in levels
    ensures forall i, j :: 0 <= i < j < |levels[tick].ids| ==> levels[tick].ids[i] != levels[tick].ids[j]
  {
    FilterDistinct(s, LevelPred(side, tick));
  }

  /** Debiting more lots than the order had keeps the totals exact only when nothing else is on the level. */
  lemma OverfillTotal(levels: map<int, Level>, s: seq<HpOrder>, o: HpOrder, qty: int)
    requires LevelsOk(levels, s, o.side) && DistinctIds(s) && PositiveOpen(s) && o in s && qty >= o.openLot
    ensures LevelsOk(DebitLevel(levels, o, qty), Without(s, o.id), o.side)
            <==> qty == o.openLot || AtLevel(Without(s, o.id), o.side, o.priceTick) == []
  {
    hide SumOpen, DebitLevel, DistinctIds;
    var s', levels' := Without(s, o.id), DebitLevel(levels, o, qty);
    DebitKeepsIds(levels, s, o, qty);
    var after := AtLevel(s', o.side, o.priceTick);
    TickIffLevel(s', o.side, o.priceTick);
    forall t | t in levels' && t != o.priceTick ensures levels'[t].totalLot == SumOpen(AtLevel(s', o.side, t)) {
      DebitedTotal(levels, s, o, qty, t);
    }
    if after != [] {
      DebitedTotal(levels, s, o, qty, o.priceTick);
      assert PositiveOpen(after) by { LevelPositive(s, o); }
      SumNonNegative(after);
    }
  }

  lemma LevelPositive(s: seq<HpOrder>, o: HpOrder)
    requires PositiveOpen(s)
    ensures PositiveOpen(AtLevel(Without(s, o.id), o.side, o.priceTick))
  {
    var s' := Without(s, o.id);
    var after := AtLevel(s', o.side, o.priceTick);
    WithoutMembers(s, o.id);
    FilterMembers(s', LevelPred(o.side, o.priceTick));
    forall i | 0 <= i < |after| ensures after[i].openLot > 0 {
      assert after[i] in after;
      assert after[i] in s;
    }
  }

  /** Two orders at one price, one filled for more than it had: the level forgets lots of the other. */
  lemma OverfillExample()
    ensures var a, c := HpOrder(1, Sell, 10, 2, 2, 0, 1), HpOrder(2, Sell, 10, 1, 1, 0, 2);
      var levels := map[10 := Level(3, [1, 2])];
      LevelsOk(levels, [a, c], Sell) && !LevelsOk(DebitLevel(levels, a, 5), Without([a, c], 1), Sell)
  {
    hide LevelsOk, AtLevel, Ticks, Ids, SumOpen, Without;
    var a, c := HpOrder(1, Sell, 10, 2, 2, 0, 1), HpOrder(2, Sell, 10, 1, 1, 0, 2);
    assert LevelsOk(map[], [], Sell) by { NoLevels(); }
    PushKeepsLevels(map[], [], a);
    var one := map[10 := Level(2, [1])];
    assert map[][10 := EMPTY_LEVEL.Push(1, 2)] == one by { assert [] + [1] == [1]; }
    assert [] + [a] == [a];
    PushKeepsLevels(one, [a], c);
    var levels := map[10 := Level(3, [1, 2])];
    assert one[10 := Level(2, [1]).Push(2, 1)] == levels by { assert [1] + [2] == [1, 2]; }
    assert [a] + [c] == [a, c];
    OverfillTotal(levels, [a, c], a, 5);
    assert c in Without([a, c], 1) by {
      WithoutMembers([a, c], 1);
      assert c in [a, c];
    }
    LevelOfMember(Without([a, c], 1), c);
  }

  lemma LevelOfMember(s: seq<HpOrder>, o: HpOrder)
    requires o in s
    ensures AtLevel(s, o.side, o.priceTick) != []
  {
    FilterMembers(s, LevelPred(o.side, o.priceTick));
  }

  lemma NoLevels()
    ensures LevelsOk(map[], [], Sell)
  {
    assert Ticks([], Sell) == {};
  }
}
