/** The retransmission cache: a ring of recent messages looked up by sequence number. */
module MoldRing {
  import opened Common
  import opened Bytes
  import opened SpscArith

  datatype Cached = Cached(seq_: nat, payload: seq<u8>)

  function IndexOf(s: nat, base: nat, cap: nat): (i: nat)
    requires cap > 0 && base < TWO_64
    ensures i < cap
  {
    Slot(if s >= base then s - base else s + TWO_64 - base, cap)
  }

  /** The position of the oldest message still cached. */
  function Oldest(n: nat, cap: nat): nat {
    if n <= cap then 0 else n - cap
  }

  /** The low watermark as pushes maintain it: the first number, then one past each evicted one. */
  function Floor(pushed: seq<Cached>, cap: nat): (r: Option<nat>)
    requires cap > 0
    ensures r == None <==> pushed == []
  {
    if pushed == [] then None
    else
      var n := |pushed|;
      if n <= cap then Some(pushed[0].seq_)
      else Some(Max(Floor(pushed[..n - 1], cap).value, pushed[n - 1 - cap].seq_ + 1))
  }

  ghost predicate Consecutive(pushed: seq<Cached>) {
    && (forall k :: 0 <= k < |pushed| ==> pushed[k].seq_ == pushed[0].seq_ + k)
    && (pushed != [] ==> pushed[0].seq_ + |pushed| < TWO_64)
  }

  ghost predicate SlotsOk(slots: seq<Option<Cached>>, cap: nat, pushed: seq<Cached>) {
    && cap > 0 && |slots| == cap
    && (forall k :: Oldest(|pushed|, cap) <= k < |pushed| ==> slots[Slot(k, cap)] == Some(pushed[k]))
    && (forall j :: |pushed| <= j < cap ==> slots[j] == None)
  }

  /** The messages a lookup can still find: the last `cap` pushed. */
  function Window(pushed: seq<Cached>, cap: nat): (w: seq<Cached>)
    ensures |w| == Min(|pushed|, cap)
  {
    pushed[Oldest(|pushed|, cap)..]
  }

  lemma SlotSucc(n: nat, cap: nat)
    requires cap > 0
    ensures Slot(n + 1, cap) == if Slot(n, cap) + 1 == cap then 0 else Slot(n, cap) + 1
  {
    if n >= cap {
      SlotSucc(n - cap, cap);
    }
  }

  lemma PushKeepsSlots(slots: seq<Option<Cached>>, cap: nat, pushed: seq<Cached>, m: Cached)
    requires SlotsOk(slots, cap, pushed)
    ensures SlotsOk(slots[Slot(|pushed|, cap) := Some(m)], cap, pushed + [m])
    ensures |pushed| >= cap ==> slots[Slot(|pushed|, cap)] == Some(pushed[|pushed| - cap])
    ensures |pushed| < cap ==> slots[Slot(|pushed|, cap)] == None
  {
    var n := |pushed|;
    var pushed' := pushed + [m];
    var slots' := slots[Slot(n, cap) := Some(m)];
    forall k | Oldest(n + 1, cap) <= k < n + 1 ensures slots'[Slot(k, cap)] == Some(pushed'[k]) {
      if k < n {
        SlotsApart(k, n, cap);
      }
    }
    if n >= cap {
      assert Slot(n, cap) == Slot(n - cap, cap);
    }
  }

  /** With consecutive numbers, a slot hit is exactly membership in the window. */
  lemma HitIsWindow(slots: seq<Option<Cached>>, cap: nat, pushed: seq<Cached>, s: nat)
    requires SlotsOk(slots, cap, pushed) && Consecutive(pushed) && pushed != [] && s < TWO_64
    ensures var base := pushed[0].seq_;
            var hit := slots[IndexOf(s, base, cap)];
            (hit.Some? && hit.value.seq_ == s <==> base + Oldest(|pushed|, cap) <= s < base + |pushed|)
            && (hit.Some? && hit.value.seq_ == s ==> hit.value == pushed[s - base])
  {
    hide Slot;
    var n, base := |pushed|, pushed[0].seq_;
    var at := IndexOf(s, base, cap);
    SlotHolder(slots, cap, pushed, at);
    if base + Oldest(n, cap) <= s < base + n {
      assert slots[Slot(s - base, cap)] == Some(pushed[s - base]);
    }
  }

  /** Every occupied slot holds some message of the window. */
  lemma SlotHolder(slots: seq<Option<Cached>>, cap: nat, pushed: seq<Cached>, at: nat)
    requires SlotsOk(slots, cap, pushed) && at < cap
    ensures slots[at].Some? ==>
              exists k :: Oldest(|pushed|, cap) <= k < |pushed| && slots[at] == Some(pushed[k])
  {
    var n := |pushed|;
    if at < n {
      if n <= cap {
        assert Slot(at, cap) == at;
      } else {
        var k := LastAt(n, cap, at);
        assert Slot(k, cap) == at;
      }
    }
  }

  /** Among `cap` successive positions one falls in slot `at`. */
  lemma {:induction false} LastAt(n: nat, cap: nat, at: nat) returns (k: nat)
    requires cap > 0 && at < cap <= n
    ensures n - cap <= k < n && Slot(k, cap) == at
  {
    if n < 2 * cap {
      k := if at >= n - cap then at else at + cap;
    } else {
      var j := LastAt(n - cap, cap, at);
      k := j + cap;
    }
  }

  lemma {:induction false} FloorWhenConsecutive(pushed: seq<Cached>, cap: nat)
    requires cap > 0 && Consecutive(pushed) && pushed != []
    ensures Floor(pushed, cap) == Some(pushed[0].seq_ + Oldest(|pushed|, cap))
  {
    var n := |pushed|;
    if n > cap {
      FloorWhenConsecutive(pushed[..n - 1], cap);
    }
  }

  class MessageRingBuf {
    const capacity: nat
    const slots: array<Option<Cached>>
    var writePos: nat
    var baseSeq: Option<nat>
    var firstSeq: Option<nat>
    ghost var pushed: seq<Cached>

    ghost predicate Valid()
      reads this, slots
    {
      && SlotsOk(slots[..], capacity, pushed)
      && writePos == Slot(|pushed|, capacity)
      && baseSeq == (if pushed == [] then None else Some(pushed[0].seq_))
      && firstSeq == Floor(pushed, capacity)
    }

    constructor (capacity: nat)
      requires capacity > 0
      ensures Valid() && fresh(slots) && this.capacity == capacity && pushed == []
    {
      this.capacity := capacity;
      slots := new Option<Cached>[capacity](_ => None);
      writePos := 0;
      baseSeq := None;
      firstSeq := None;
      pushed := [];
    }

    method Push(s: nat, payload: seq<u8>)
      requires Valid()
      modifies this, slots
      ensures Valid() && pushed == old(pushed) + [Cached(s, payload)]
    {
      hide Slot;
      ghost var n := |pushed|;
      var m := Cached(s, payload);
      PushKeepsSlots(slots[..], capacity, pushed, m);
      SlotSucc(n, capacity);
      assert (pushed + [m])[..n] == pushed;
      ghost var before := slots[..];
      if slots[writePos].Some? {
        var evicted := slots[writePos].value.seq_;
        firstSeq := Some(Max(firstSeq.value, evicted + 1));
      }
      slots[writePos] := Some(m);
      assert slots[..] == before[writePos := Some(m)];
      writePos := if writePos + 1 == capacity then 0 else writePos + 1;
      if baseSeq == None {
        baseSeq := Some(s);
      }
      if firstSeq == None {
        firstSeq := Some(s);
      }
      pushed := pushed + [m];
    }

    /**
     Only cached messages with that number are found; with consecutive pushes a number is found
     exactly when it is among the last `capacity`.
     */
    method Get(s: nat) returns (r: Option<Cached>)
      requires Valid() && pushed != [] && pushed[0].seq_ < TWO_64 && s < TWO_64
      ensures r.Some? ==> r.value.seq_ == s && r.value in Window(pushed, capacity)
      ensures Consecutive(pushed) ==>
                (r.Some? <==> pushed[0].seq_ + Oldest(|pushed|, capacity) <= s < pushed[0].seq_ + |pushed|)
                && (r.Some? ==> r.value == pushed[s - pushed[0].seq_])
    {
      hide Slot, Consecutive;
      var m := slots[IndexOf(s, baseSeq.value, capacity)];
      if Consecutive(pushed) {
        HitIsWindow(slots[..], capacity, pushed, s);
      }
      SlotHolder(slots[..], capacity, pushed, IndexOf(s, baseSeq.value, capacity));
      r := if m.Some? && m.value.seq_ == s then m else None;
    }

    /**
     Cached messages with consecutive numbers from `start`, at most `count`; with consecutive
     pushes, the longest such run.
     */
    method GetRange(start: nat, count: nat) returns (out: seq<Cached>)
      requires Valid() && start < TWO_64 && (pushed != [] ==> pushed[0].seq_ < TWO_64)
      ensures |out| <= count
      ensures forall i :: 0 <= i < |out| ==> out[i].seq_ == start + i && out[i] in Window(pushed, capacity)
      ensures Consecutive(pushed) ==> out == RetainedRun(pushed, capacity, start, count)
    {
      hide SlotsOk, Slot, Window;
      out := [];
      if baseSeq == None {
        return;
      }
      var end := Min(start + count, TWO_64 - 1);
      var s := start;
      while s < end
        invariant start <= s && (s <= end || s == start) && |out| == s - start
        invariant forall i :: 0 <= i < |out| ==> out[i].seq_ == start + i && out[i] in Window(pushed, capacity)
        invariant Consecutive(pushed) && s > start ==>
          pushed[0].seq_ + Oldest(|pushed|, capacity) <= start && s <= pushed[0].seq_ + |pushed|
        invariant Consecutive(pushed) ==>
            out == if s == start then [] else pushed[start - pushed[0].seq_..s - pushed[0].seq_]
      {
        var m := Get(s);
        if m == None {
          break;
        }
        out := out + [m.value];
        s := s + 1;
      }
    }
  }

  /** The first `count` messages from number `start` on, provided `start` itself is retained. */
  function RetainedRun(pushed: seq<Cached>, cap: nat, start: nat, count: nat): (r: seq<Cached>)
  {
    if pushed == [] then []
    else
      var base := pushed[0].seq_;
      if base + Oldest(|pushed|, cap) <= start < base + |pushed|
      then pushed[start - base..Min(start - base + count, |pushed|)]
      else []
  }
}
