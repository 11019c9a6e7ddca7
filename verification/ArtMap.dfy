/** The radix map object: lookups, updates, best tick and depth against a plain map. */
module ArtMap {
  import opened Common
  import opened HpTypes
  import opened PriceTime
  import opened HpLevels
  import opened ArtKeys
  import opened ArtIndex

  // ---------------------------------------------------------------- reference listing

  /** Levels of an ordered map, best tick first: the first `n` are what `depth(n)` must report. */
  ghost function Listing(m: map<int, Level>, side: Side): seq<(int, int)>
    decreases m.Keys
  {
    var t := BestTick(m.Keys, side);
    if t == None then [] else [(t.value, m[t.value].totalLot)] + Listing(m - {t.value}, side)
  }

  ghost predicate Sorted(es: seq<(int, int)>, side: Side) {
    forall i, j :: 0 <= i < j < |es| ==> Better(side, es[i].0, es[j].0)
  }

  /** The entries are exactly those of the map. */
  ghost predicate Lists(es: seq<(int, int)>, m: map<int, Level>) {
    && (forall e :: e in es ==> e.0 in m && m[e.0].totalLot == e.1)
    && (forall t :: t in m ==> (t, m[t].totalLot) in es)
  }

  lemma {:induction false} SortedListing(es: seq<(int, int)>, m: map<int, Level>, side: Side)
    requires Sorted(es, side) && Lists(es, m)
    ensures es == Listing(m, side)
    decreases es
  {
    hide BestTick;
    if es == [] {
      if m.Keys != {} {
        var t := AnyMember(m.Keys);
      }
    } else {
      var (t, total) := es[0];
      assert es[0] in es;
      assert IsBestTick(m.Keys, side, t) by {
        forall k | k in m.Keys ensures !Better(side, k, t) {
          var e := (k, m[k].totalLot);
          var i :| 0 <= i < |es| && es[i] == e;
        }
      }
      BestTickUnique(m.Keys, side, t);
      var rest := m - {t};
      forall e | e in es[1..] ensures e.0 in rest && rest[e.0].totalLot == e.1 {
        var i :| 0 <= i < |es[1..]| && es[1..][i] == e;
        assert es[i + 1] == e && e in es;
      }
      forall k | k in rest ensures (k, rest[k].totalLot) in es[1..] {
        var i :| 0 <= i < |es| && es[i] == (k, m[k].totalLot);
        assert es[1..][i - 1] == es[i];
      }
      SortedListing(es[1..], rest, side);
      assert es == [es[0]] + es[1..];
    }
  }

  // ---------------------------------------------------------------- walking the tree

  /** Byte visited at step `i` of an ordered iteration over children. */
  function ByteAt(i: nat, ascending: bool): nat
    requires i < 256
  {
    if ascending then i else 255 - i
  }

  /** All entries of a subtree, in key order or in reverse key order. */
  ghost function Entries(n: Node, ascending: bool): seq<(int, int)>
    decreases n, 257
  {
    match n
    case Leaf(k, v) => [(k, v.totalLot)]
    case Inner(_) => EntriesFrom(n, 0, ascending)
  }

  /** Entries of the children visited from step `i` on. */
  ghost function EntriesFrom(n: Node, i: nat, ascending: bool): seq<(int, int)>
    requires n.Inner? && i <= 256
    decreases n, 256 - i
  {
    if i == 256 then []
    else
      var b := ByteAt(i, ascending);
      (if b in n.children then Entries(n.children[b], ascending) else []) + EntriesFrom(n, i + 1, ascending)
  }

  function Take(es: seq<(int, int)>, n: nat): seq<(int, int)> {
    if |es| <= n then es else es[..n]
  }

  /** Collect entries in order into `out`, stopping once it holds `n`. */
  method Walk(node: Node, ascending: bool, n: nat, out: seq<(int, int)>) returns (r: seq<(int, int)>)
    ensures r == if |out| >= n then out else Take(out + Entries(node, ascending), n)
    decreases node
  {
    if |out| >= n {
      return out;
    }
    match node {
      case Leaf(k, v) =>
        r := out + [(k, v.totalLot)];
      case Inner(children) =>
        r := out;
        var i := 0;
        while i < 256
          invariant 0 <= i <= 256
          invariant |r| < n
          invariant r + EntriesFrom(node, i, ascending) == out + Entries(node, ascending)
        {
          var b := ByteAt(i, ascending);
          if b in children {
            ghost var before := r;
            ghost var here, later := Entries(children[b], ascending), EntriesFrom(node, i + 1, ascending);
            assert before + (here + later) == (before + here) + later;
            r := Walk(children[b], ascending, n, r);
            if |r| >= n {
              assert r == ((before + here) + later)[..n];
              return;
            }
          }
          i := i + 1;
        }
        assert r + [] == r;
    }
  }

  lemma {:induction false} EntriesMembers(n: Node, ascending: bool, p: seq<nat>, e: (int, int))
    requires |p| <= 8 && (Formed(n, p) || (p == [] && RootFormed(n)))
    ensures e in Entries(n, ascending) <==>
      IsTick(e.0) && Find(n, e.0, |p|).Some? && Find(n, e.0, |p|).value.totalLot == e.1
    decreases n, 257
  {
    if n.Inner? {
      EntriesFromMembers(n, ascending, p, e, 0);
      if IsTick(e.0) {
        var b := KeyBytes(e.0)[|p|];
        assert ByteAt(if ascending then b else 255 - b, ascending) == b;
      }
    }
  }

  lemma {:induction false} EntriesFromMembers(n: Node, ascending: bool, p: seq<nat>, e: (int, int), i: nat)
    requires |p| < 8 && n.Inner? && Formed(n, p) && i <= 256
    ensures e in EntriesFrom(n, i, ascending) <==>
      && IsTick(e.0) && Find(n, e.0, |p|).Some? && Find(n, e.0, |p|).value.totalLot == e.1
      && exists j :: i <= j < 256 && ByteAt(j, ascending) == KeyBytes(e.0)[|p|]
    decreases n, 256 - i
  {
    hide KeyBytes;
    if i < 256 {
      EntriesFromMembers(n, ascending, p, e, i + 1);
      var b := ByteAt(i, ascending);
      if b in n.children {
        EntriesMembers(n.children[b], ascending, p + [b], e);
        if IsTick(e.0) && Find(n.children[b], e.0, |p| + 1).Some? {
          FindInPath(n.children[b], e.0, p + [b]);
          assert KeyBytes(e.0)[|p|] == (p + [b])[|p|];
        }
      }
    }
  }

  lemma {:induction false} EntriesSorted(n: Node, ascending: bool, p: seq<nat>)
    requires |p| <= 8 && (Formed(n, p) || (p == [] && RootFormed(n)))
    ensures Sorted(Entries(n, ascending), if ascending then Sell else Buy)
    decreases n, 257
  {
    if n.Inner? {
      EntriesFromSorted(n, ascending, p, 0);
    }
  }

  lemma {:induction false} EntriesFromSorted(n: Node, ascending: bool, p: seq<nat>, i: nat)
    requires |p| < 8 && n.Inner? && Formed(n, p) && i <= 256
    ensures Sorted(EntriesFrom(n, i, ascending), if ascending then Sell else Buy)
    decreases n, 256 - i
  {
    hide KeyBytes, Entries;
    if i < 256 {
      EntriesFromSorted(n, ascending, p, i + 1);
      var side := if ascending then Sell else Buy;
      var b := ByteAt(i, ascending);
      if b in n.children {
        var here, later := Entries(n.children[b], ascending), EntriesFrom(n, i + 1, ascending);
        EntriesSorted(n.children[b], ascending, p + [b]);
        forall x, y | 0 <= x < |here| && 0 <= y < |later| ensures Better(side, here[x].0, later[y].0) {
          assert here[x] in here && later[y] in later;
          EntriesMembers(n.children[b], ascending, p + [b], here[x]);
          EntriesFromMembers(n, ascending, p, later[y], i + 1);
          var s, t := here[x].0, later[y].0;
          var c := KeyBytes(t)[|p|];
          FindInPath(n.children[b], s, p + [b]);
          FindInPath(n.children[c], t, p + [c]);
          PathOrder(s, t, p, b, c);
        }
      }
    }
  }

  // ---------------------------------------------------------------- the map object

  ghost predicate Holds(root: Option<Node>, contents: map<int, Level>) {
    && (forall t :: t in contents ==> IsTick(t))
    && (root.Some? ==> RootFormed(root.value))
    && forall t :: IsTick(t) ==>
         (if root == None then None else Find(root.value, t, 0)) == (if t in contents then Some(contents[t]) else None)
  }

  lemma NothingHeld(contents: map<int, Level>)
    requires Holds(None, contents)
    ensures contents == map[]
  {
    if contents.Keys != {} {
      var t := AnyMember(contents.Keys);
    }
  }

  class Art {
    var root: Option<Node>
    /** The ordered map the tree stands for. */
    ghost var contents: map<int, Level>

    ghost predicate Valid()
      reads this
    {
      Holds(root, contents)
    }

    constructor ()
      ensures Valid() && contents == map[]
    {
      root := None;
      contents := map[];
    }

    method Get(tick: int) returns (r: Option<Level>)
      requires Valid() && IsTick(tick)
      ensures r == if tick in contents then Some(contents[tick]) else None
    {
      hide KeyBytes, Formed;
      var bytes := KeyBytes(tick);
      if root == None {
        return None;
      }
      var cur := root.value;
      var depth := 0;
      while true
        invariant 0 <= depth <= 7
        invariant Find(cur, tick, depth) == Find(root.value, tick, 0)
        decreases 8 - depth
      {
        match cur {
          case Leaf(key, value) =>
            return if key == tick then Some(value) else None;
          case Inner(children) =>
            if bytes[depth] !in children {
              return None;
            }
            cur := children[bytes[depth]];
            if depth == 7 {
              return if cur.Leaf? && cur.key == tick then Some(cur.value) else None;
            }
            depth := depth + 1;
        }
      }
    }

    method Contains(tick: int) returns (r: bool)
      requires Valid() && IsTick(tick)
      ensures r <==> tick in contents
    {
      var found := Get(tick);
      r := found.Some?;
    }

    method Insert(tick: int, level: Level)
      requires Valid() && IsTick(tick)
      modifies this
      ensures Valid() && contents == old(contents)[tick := level]
    {
      hide KeyBytes, Formed;
      if root == None {
        root := Some(Leaf(tick, level));
      } else {
        forall t | IsTick(t)
          ensures Find(InsertAt(root.value, tick, 0, level), t, 0)
            == if t == tick then Some(level) else Find(root.value, t, 0)
        {
          InsertFinds(root.value, tick, 0, level, t);
        }
        root := Some(InsertAt(root.value, tick, 0, level));
      }
      contents := contents[tick := level];
    }

    method Remove(tick: int) returns (r: Option<Level>)
      requires Valid() && IsTick(tick)
      modifies this
      ensures Valid() && contents == old(contents) - {tick}
      ensures r == if tick in old(contents) then Some(old(contents)[tick]) else None
    {
      hide KeyBytes, Formed;
      if root == None {
        return None;
      }
      var removed := RemoveAt(root.value, tick, 0);
      if removed == None {
        RemoveFinds(root.value, tick, 0, tick);
        return None;
      }
      ghost var before := root.value;
      root := if removed.value.empty then None else Some(removed.value.node);
      contents := contents - {tick};
      forall t | IsTick(t)
        ensures (if root == None then None else Find(root.value, t, 0))
          == if t == tick then None else Find(before, t, 0)
      {
        RemoveFinds(before, tick, 0, t);
      }
      RemoveFinds(before, tick, 0, tick);
      assert KeyBytes(tick)[..0] == [];
      r := Some(removed.value.value);
    }

    method BestTickOf(side: Side) returns (r: Option<int>)
      requires Valid()
      ensures r == BestTick(contents.Keys, side)
    {
      hide KeyBytes, Formed;
      r := if root == None then None else Extreme(root.value, side == Sell);
      if contents.Keys != {} {
        var any := AnyMember(contents.Keys);
        ExtremeBounds(root.value, side == Sell, [], any);
        assert IsBestTick(contents.Keys, side, r.value) by {
          forall t | t in contents.Keys ensures !Better(side, t, r.value) {
            ExtremeBounds(root.value, side == Sell, [], t);
          }
        }
        BestTickUnique(contents.Keys, side, r.value);
      } else if root.Some? {
        RootStores(root.value);
      }
    }

    /** Up to `n` levels, best first. */
    method Depth(side: Side, n: nat) returns (r: seq<(int, int)>)
      requires Valid()
      ensures r == Take(Listing(contents, side), n)
    {
      hide KeyBytes, Formed, Listing;
      if root == None {
        NothingHeld(contents);
        SortedListing([], contents, side);
        return [];
      }
      var ascending := side == Sell;
      ghost var es := Entries(root.value, ascending);
      EntriesSorted(root.value, ascending, []);
      forall e | e in es ensures e.0 in contents && contents[e.0].totalLot == e.1 {
        EntriesMembers(root.value, ascending, [], e);
      }
      forall t | t in contents ensures (t, contents[t].totalLot) in es {
        EntriesMembers(root.value, ascending, [], (t, contents[t].totalLot));
      }
      SortedListing(es, contents, side);
      r := Walk(root.value, ascending, n, []);
      assert [] + es == es;
    }
  }

  /** A formed tree is never empty. */
  lemma RootStores(n: Node)
    requires RootFormed(n)
    ensures exists t :: IsTick(t) && Find(n, t, 0).Some?
  {
    if n.Leaf? {
      assert Find(n, n.key, 0).Some?;
    } else {
      ExtremeStored(n, true, []);
    }
  }
}
