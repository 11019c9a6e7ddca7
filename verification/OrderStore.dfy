/** Slot-allocated order store: a vector of optional orders and a LIFO free list of slot ids. */
module OrderStores {
  import opened Common
  import opened HpTypes
  import opened PriceTime

  ghost predicate SlotsHold(slots: seq<Option<HpOrder>>, held: seq<HpOrder>) {
    && DistinctIds(held)
    && (forall i :: 0 <= i < |held| ==> 1 <= held[i].id <= |slots| && slots[held[i].id - 1] == Some(held[i]))
    && (forall k :: 0 <= k < |slots| && slots[k].Some? ==> slots[k].value in held && slots[k].value.id == k + 1)
  }

  /** The free list names every empty slot exactly once. */
  ghost predicate FreeOk(slots: seq<Option<HpOrder>>, free: seq<nat>) {
    && (forall i :: 0 <= i < |free| ==> 1 <= free[i] <= |slots| && slots[free[i] - 1] == None)
    && (forall i, j :: 0 <= i < j < |free| ==> free[i] != free[j])
    && (forall k :: 0 <= k < |slots| && slots[k] == None ==> k + 1 in free)
  }

  /** The id the allocator hands out next. */
  function NextId(slotCount: nat, free: seq<nat>): nat {
    if free == [] then slotCount + 1 else free[|free| - 1]
  }

  function PopFree(free: seq<nat>): seq<nat> {
    if free == [] then [] else free[..|free| - 1]
  }

  lemma InsertHolds(slots: seq<Option<HpOrder>>, held: seq<HpOrder>, o: HpOrder)
    requires SlotsHold(slots, held)
    requires 1 <= o.id <= |slots| && slots[o.id - 1] == None
    ensures SlotsHold(slots[o.id - 1 := Some(o)], held + [o])
  {
    hide SlotsHold, DistinctIds;
    InsertedForward(slots, held, o);
    var slots', held' := slots[o.id - 1 := Some(o)], held + [o];
    forall k | 0 <= k < |slots'| && slots'[k].Some?
      ensures slots'[k].value in held' && slots'[k].value.id == k + 1
    {
      InsertedAt(slots, held, o, k);
    }
    Holds(slots', held');
  }

  lemma InsertedForward(slots: seq<Option<HpOrder>>, held: seq<HpOrder>, o: HpOrder)
    requires SlotsHold(slots, held) && 1 <= o.id <= |slots| && slots[o.id - 1] == None
    ensures var slots', held' := slots[o.id - 1 := Some(o)], held + [o];
      && DistinctIds(held')
      && forall j :: 0 <= j < |held'| ==> 1 <= held'[j].id <= |slots'| && slots'[held'[j].id - 1] == Some(held'[j])
  {
    assert forall i :: 0 <= i < |held| ==> held[i].id != o.id;
  }

  lemma InsertedAt(slots: seq<Option<HpOrder>>, held: seq<HpOrder>, o: HpOrder, k: nat)
    requires SlotsHold(slots, held) && 1 <= o.id <= |slots| && k < |slots| && slots[o.id - 1 := Some(o)][k].Some?
    ensures var x := slots[o.id - 1 := Some(o)][k].value; x in held + [o] && x.id == k + 1
  {
    if k != o.id - 1 {
      assert slots[o.id - 1 := Some(o)][k] == slots[k];
    }
  }

  lemma GrowHolds(slots: seq<Option<HpOrder>>, held: seq<HpOrder>)
    requires SlotsHold(slots, held)
    ensures SlotsHold(slots + [None], held)
  {
    forall k | 0 <= k < |slots + [None]| && (slots + [None])[k].Some?
      ensures (slots + [None])[k].value in held && (slots + [None])[k].value.id == k + 1
    {
      assert (slots + [None])[k] == slots[k];
    }
  }

  lemma CutHolds(slots: seq<Option<HpOrder>>, held: seq<HpOrder>, i: nat)
    requires SlotsHold(slots, held) && i < |held|
    ensures SlotsHold(slots[held[i].id - 1 := None], held[..i] + held[i + 1..])
  {
    hide SlotsHold, DistinctIds;
    CutDistinct(slots, held, i);
    CutForward(slots, held, i);
    CutBackward(slots, held, i);
    Holds(slots[held[i].id - 1 := None], held[..i] + held[i + 1..]);
  }

  /** The three parts of a store that holds its orders. */
  lemma Holds(slots: seq<Option<HpOrder>>, held: seq<HpOrder>)
    requires DistinctIds(held)
    requires forall j :: 0 <= j < |held| ==> 1 <= held[j].id <= |slots| && slots[held[j].id - 1] == Some(held[j])
    requires forall k :: 0 <= k < |slots| && slots[k].Some? ==> slots[k].value in held && slots[k].value.id == k + 1
    ensures SlotsHold(slots, held)
  {
  }

  lemma CutDistinct(slots: seq<Option<HpOrder>>, held: seq<HpOrder>, i: nat)
    requires SlotsHold(slots, held) && i < |held|
    ensures 1 <= held[i].id <= |slots| && DistinctIds(held[..i] + held[i + 1..])
  {
  }

  lemma CutForward(slots: seq<Option<HpOrder>>, held: seq<HpOrder>, i: nat)
    requires SlotsHold(slots, held) && i < |held| && 1 <= held[i].id <= |slots|
    ensures var slots', held' := slots[held[i].id - 1 := None], held[..i] + held[i + 1..];
      forall j :: 0 <= j < |held'| ==> 1 <= held'[j].id <= |slots'| && slots'[held'[j].id - 1] == Some(held'[j])
  {
    var slots', held' := slots[held[i].id - 1 := None], held[..i] + held[i + 1..];
    forall j | 0 <= j < |held'|
      ensures 1 <= held'[j].id <= |slots'| && slots'[held'[j].id - 1] == Some(held'[j])
    {
      var j' := if j < i then j else j + 1;
      assert held'[j] == held[j'] && held[j'].id != held[i].id;
    }
  }

  lemma CutBackward(slots: seq<Option<HpOrder>>, held: seq<HpOrder>, i: nat)
    requires SlotsHold(slots, held) && i < |held| && 1 <= held[i].id <= |slots|
    ensures var slots', held' := slots[held[i].id - 1 := None], held[..i] + held[i + 1..];
      forall k :: 0 <= k < |slots'| && slots'[k].Some? ==> slots'[k].value in held' && slots'[k].value.id == k + 1
  {
    var slots', held' := slots[held[i].id - 1 := None], held[..i] + held[i + 1..];
    forall k | 0 <= k < |slots'| && slots'[k].Some?
      ensures slots'[k].value in held' && slots'[k].value.id == k + 1
    {
      var j :| 0 <= j < |held| && held[j] == slots[k].value;
      assert held'[if j < i then j else j - 1] == held[j];
    }
  }

  lemma RemoveHolds(slots: seq<Option<HpOrder>>, held: seq<HpOrder>, id: nat)
    requires SlotsHold(slots, held)
    requires 1 <= id <= |slots| && slots[id - 1].Some?
    ensures SlotsHold(slots[id - 1 := None], Without(held, id))
    ensures |Without(held, id)| == |held| - 1
  {
    hide SlotsHold, DistinctIds, Without;
    var i := PlaceOf(slots, held, id);
    WithoutAt(held, i);
    CutHolds(slots, held, i);
  }

  lemma PlaceOf(slots: seq<Option<HpOrder>>, held: seq<HpOrder>, id: nat) returns (i: nat)
    requires SlotsHold(slots, held) && 1 <= id <= |slots| && slots[id - 1].Some?
    ensures i < |held| && held[i].id == id && DistinctIds(held)
  {
    i :| 0 <= i < |held| && held[i] == slots[id - 1].value;
  }

  lemma ReopenHolds(slots: seq<Option<HpOrder>>, held: seq<HpOrder>, id: nat, open: int)
    requires SlotsHold(slots, held)
    requires 1 <= id <= |slots| && slots[id - 1].Some?
    ensures SlotsHold(slots[id - 1 := Some(slots[id - 1].value.(openLot := open))], WithOpen(held, id, open))
  {
    var slots' := slots[id - 1 := Some(slots[id - 1].value.(openLot := open))];
    var held' := WithOpen(held, id, open);
    forall i | 0 <= i < |held'|
      ensures 1 <= held'[i].id <= |slots'| && slots'[held'[i].id - 1] == Some(held'[i])
    {
      assert slots[held[i].id - 1] == Some(held[i]);
    }
    forall k | 0 <= k < |slots'| && slots'[k].Some?
      ensures slots'[k].value in held' && slots'[k].value.id == k + 1
    {
      assert slots[k].value in held;
      var i :| 0 <= i < |held| && held[i] == slots[k].value;
      assert held'[i] == slots'[k].value;
    }
  }

  lemma ReopenKeepsFree(slots: seq<Option<HpOrder>>, free: seq<nat>, id: nat, open: int)
    requires FreeOk(slots, free) && 1 <= id <= |slots| && slots[id - 1].Some?
    ensures FreeOk(slots[id - 1 := Some(slots[id - 1].value.(openLot := open))], free)
  {
  }

  lemma EmptySlot(slots: seq<Option<HpOrder>>, held: seq<HpOrder>, id: nat)
    requires SlotsHold(slots, held) && !(1 <= id <= |slots| && slots[id - 1].Some?)
    ensures forall o :: o in held ==> o.id != id
  {
  }

  lemma PopKeepsFree(slots: seq<Option<HpOrder>>, free: seq<nat>, o: HpOrder)
    requires FreeOk(slots, free) && free != []
    requires o.id == free[|free| - 1]
    ensures FreeOk(slots[o.id - 1 := Some(o)], free[..|free| - 1])
  {
    var slots' := slots[o.id - 1 := Some(o)];
    var free' := free[..|free| - 1];
    forall k | 0 <= k < |slots'| && slots'[k] == None ensures k + 1 in free' {
      assert slots[k] == None && k + 1 in free;
      var i :| 0 <= i < |free| && free[i] == k + 1;
      assert free'[i] == k + 1;
    }
  }

  lemma LastFreeSlot(slots: seq<Option<HpOrder>>, free: seq<nat>)
    requires FreeOk(slots, free) && free != []
    ensures var id := free[|free| - 1]; 1 <= id <= |slots| && slots[id - 1] == None
  {
  }

  lemma GrowKeepsFree(slots: seq<Option<HpOrder>>, o: HpOrder)
    requires FreeOk(slots, [])
    ensures FreeOk(slots + [Some(o)], [])
  {
    forall k | 0 <= k < |slots + [Some(o)]| ensures (slots + [Some(o)])[k] != None {
      assert k < |slots| ==> slots[k] != None;
    }
  }

  lemma PushKeepsFree(slots: seq<Option<HpOrder>>, free: seq<nat>, id: nat)
    requires FreeOk(slots, free)
    requires 1 <= id <= |slots| && slots[id - 1].Some?
    ensures FreeOk(slots[id - 1 := None], free + [id])
  {
    var slots' := slots[id - 1 := None];
    forall i | 0 <= i < |free| ensures free[i] != id {
      assert slots[free[i] - 1] == None;
    }
    forall k | 0 <= k < |slots'| && slots'[k] == None ensures k + 1 in free + [id] {
      assert k == id - 1 || k + 1 in free;
    }
  }

  class OrderStore {
    var slots: seq<Option<HpOrder>>
    var free: seq<nat>
    var live: nat
    /** The stored orders, in the order they were inserted. */
    ghost var held: seq<HpOrder>

    ghost predicate Valid()
      reads this
    {
      && SlotsHold(slots, held)
      && FreeOk(slots, free)
      && live == |held|
      && |slots| == |held| + |free|
    }

    constructor ()
      ensures Valid() && held == [] && slots == [] && free == []
    {
      slots := [];
      free := [];
      live := 0;
      held := [];
    }

    function Get(id: nat): (r: Option<HpOrder>)
      reads this
      requires Valid()
      ensures r.Some? ==> r.value in held && r.value.id == id
      ensures forall o :: o in held && o.id == id ==> r == Some(o)
    {
      if 1 <= id <= |slots| then slots[id - 1] else None
    }

    method Insert(order: HpOrder) returns (id: nat)
      requires Valid()
      modifies this
      ensures Valid()
      ensures id == NextId(old(|slots|), old(free))
      ensures old(free) == [] ==> id == old(|slots|) + 1 && free == []
      ensures old(free) != [] ==> old(free) == free + [id]
      ensures forall o :: o in old(held) ==> o.id != id
      ensures held == old(held) + [order.(id := id)]
      ensures free == PopFree(old(free))
      ensures |slots| == Max(old(|slots|), id)
    {
      hide SlotsHold, FreeOk;
      var next := slots;
      if free != [] {
        id := free[|free| - 1];
        LastFreeSlot(slots, free);
        PopKeepsFree(slots, free, order.(id := id));
        free := free[..|free| - 1];
      } else {
        next := slots + [None];
        id := |next|;
        GrowKeepsFree(slots, order.(id := id));
        assert next[id - 1 := Some(order.(id := id))] == slots + [Some(order.(id := id))];
        GrowHolds(slots, held);
      }
      EmptySlot(next, held, id);
      InsertHolds(next, held, order.(id := id));
      slots := next[id - 1 := Some(order.(id := id))];
      live := live + 1;
      held := held + [order.(id := id)];
    }

    method SetOpen(id: nat, open: int)
      requires Valid()
      modifies this
      ensures Valid()
      ensures held == WithOpen(old(held), id, open)
      ensures free == old(free) && |slots| == old(|slots|)
    {
      hide SlotsHold, FreeOk;
      if 1 <= id <= |slots| && slots[id - 1].Some? {
        ReopenHolds(slots, held, id, open);
        ReopenKeepsFree(slots, free, id, open);
        slots := slots[id - 1 := Some(slots[id - 1].value.(openLot := open))];
      } else {
        EmptySlot(slots, held, id);
        WithOpenAbsent(held, id, open);
      }
      held := WithOpen(held, id, open);
    }

    method Remove(id: nat) returns (r: Option<HpOrder>)
      requires Valid()
      modifies this
      ensures Valid()
      ensures r == old(Get(id))
      ensures held == Without(old(held), id)
      ensures free == old(free) + (if r.Some? then [id] else [])
      ensures |slots| == old(|slots|)
    {
      hide SlotsHold, FreeOk;
      if id < 1 || id > |slots| || slots[id - 1] == None {
        EmptySlot(slots, held, id);
        WithoutAbsent(held, id);
        return None;
      }
      r := slots[id - 1];
      RemoveHolds(slots, held, id);
      PushKeepsFree(slots, free, id);
      slots := slots[id - 1 := None];
      free := free + [id];
      live := live - 1;
      held := Without(held, id);
    }
  }
}
