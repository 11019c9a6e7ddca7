/**
 The byte-wise radix tree behind the level index: it behaves exactly like an ordered map
 from ticks to levels.
 */
module ArtIndex {
  import opened Common
  import opened HpLevels
  import opened ArtKeys

  datatype Node = Inner(children: map<nat, Node>) | Leaf(key: int, value: Level)

  const EMPTY_INNER := Inner(map[])

  /** A node reached by the byte path `p`: leaves sit exactly at depth 8, no inner node is empty. */
  ghost predicate Formed(n: Node, p: seq<nat>)
  {
    match n
    case Leaf(k, _) => IsTick(k) && KeyBytes(k) == p
    case Inner(ch) =>
      && |p| < 8 && ch != map[]
      && forall b :: b in ch ==> b < 256 && Formed(ch[b], p + [b])
  }

  /** What may hang at the root: a single leaf of any tick, or a well-formed inner node. */
  ghost predicate RootFormed(n: Node) {
    match n
    case Leaf(k, _) => IsTick(k)
    case Inner(_) => Formed(n, [])
  }

  /** The level stored for tick `t` in the subtree at depth `d`. */
  ghost function Find(n: Node, t: int, d: nat): Option<Level>
    requires IsTick(t)
  {
    match n
    case Leaf(k, v) => if k == t then Some(v) else None
    case Inner(ch) =>
      if d < 8 && KeyBytes(t)[d] in ch then Find(ch[KeyBytes(t)[d]], t, d + 1) else None
  }

  lemma {:induction false} FindInPath(n: Node, t: int, p: seq<nat>)
    requires IsTick(t) && |p| <= 8 && Formed(n, p) && Find(n, t, |p|).Some?
    ensures KeyBytes(t)[..|p|] == p
    decreases n
  {
    hide KeyBytes;
    if n.Inner? {
      var b := KeyBytes(t)[|p|];
      FindInPath(n.children[b], t, p + [b]);
      assert KeyBytes(t)[..|p|] == KeyBytes(t)[..|p| + 1][..|p|] == p;
    } else {
      assert KeyBytes(t)[..8] == KeyBytes(t);
    }
  }

  // ---------------------------------------------------------------- insert

  ghost predicate InsertReady(n: Node, t: int, d: nat)
    requires IsTick(t) && d <= 7
  {
    || n == EMPTY_INNER
    || (n.Inner? && Formed(n, KeyBytes(t)[..d]))
    || (d == 0 && RootFormed(n))
  }

  function InsertAt(n: Node, t: int, d: nat, level: Level): (r: Node)
    requires IsTick(t) && d <= 7 && InsertReady(n, t, d)
    ensures r.Leaf? ==> n.Leaf? && n.key == t
    ensures r.Inner? ==> Formed(r, KeyBytes(t)[..d])
    ensures d == 0 ==> RootFormed(r)
    decreases 8 - d, if n.Leaf? then 1 else 0
  {
    match n
    case Leaf(k, v) =>
      if k == t then Leaf(t, level)
      else
        var split := InsertAt(EMPTY_INNER, k, d, v);
        assert KeyBytes(k)[..0] == KeyBytes(t)[..0];
        InsertAt(split, t, d, level)
    case Inner(ch) =>
      var b := KeyBytes(t)[d];
      if d == 7 then
        assert KeyBytes(t)[..8] == KeyBytes(t);
        FormedWithChild(n, t, d, Leaf(t, level));
        Inner(ch[b := Leaf(t, level)])
      else
        ChildReady(n, t, d);
        var child := InsertAt(if b in ch then ch[b] else EMPTY_INNER, t, d + 1, level);
        FormedWithChild(n, t, d, child);
        Inner(ch[b := child])
  }

  lemma FormedWithChild(n: Node, t: int, d: nat, child: Node)
    requires IsTick(t) && d <= 7 && InsertReady(n, t, d) && n.Inner? && Formed(child, KeyBytes(t)[..d + 1])
    ensures Formed(Inner(n.children[KeyBytes(t)[d] := child]), KeyBytes(t)[..d])
    ensures d == 0 ==> RootFormed(Inner(n.children[KeyBytes(t)[d] := child]))
  {
    hide KeyBytes;
    var b := KeyBytes(t)[d];
    assert KeyBytes(t)[..d] + [b] == KeyBytes(t)[..d + 1];
    assert KeyBytes(t)[..0] == [];
    var ch' := n.children[b := child];
    assert b in ch';
  }

  /** Below depth 7 every child is an inner node, so the leaf arms of the descent never apply. */
  lemma ChildReady(n: Node, t: int, d: nat)
    requires IsTick(t) && d < 7 && InsertReady(n, t, d) && n.Inner?
    ensures var b := KeyBytes(t)[d]; InsertReady(if b in n.children then n.children[b] else EMPTY_INNER, t, d + 1)
  {
    hide KeyBytes;
    var b := KeyBytes(t)[d];
    assert KeyBytes(t)[..d] + [b] == KeyBytes(t)[..d + 1];
    if b in n.children {
      assert KeyBytes(t)[..0] == [];
      assert Formed(n.children[b], KeyBytes(t)[..d + 1]);
    }
  }

  lemma {:induction false} InsertFinds(n: Node, t: int, d: nat, level: Level, t': int)
    requires IsTick(t) && IsTick(t') && d <= 7 && InsertReady(n, t, d)
    ensures Find(InsertAt(n, t, d, level), t', d) == if t' == t then Some(level) else Find(n, t', d)
    decreases 8 - d, if n.Leaf? then 1 else 0
  {
    hide KeyBytes, Formed;
    match n
    case Leaf(k, v) =>
      if k != t {
        var split := InsertAt(EMPTY_INNER, k, d, v);
        InsertFinds(EMPTY_INNER, k, d, v, t');
        assert KeyBytes(k)[..0] == KeyBytes(t)[..0];
        InsertFinds(split, t, d, level, t');
      }
    case Inner(ch) =>
      var b, b' := KeyBytes(t)[d], KeyBytes(t')[d];
      if d < 7 {
        ChildReady(n, t, d);
        InsertFinds(if b in ch then ch[b] else EMPTY_INNER, t, d + 1, level, t');
      } else if b in ch {
        LastByte(n, t);
      }
  }

  /** A leaf under depth 7 on the path of `t` holds `t` itself. */
  lemma LastByte(n: Node, t: int)
    requires IsTick(t) && InsertReady(n, t, 7) && n.Inner? && KeyBytes(t)[7] in n.children
    ensures n.children[KeyBytes(t)[7]].Leaf? && n.children[KeyBytes(t)[7]].key == t
  {
    hide KeyBytes;
    assert KeyBytes(t)[..7] + [KeyBytes(t)[7]] == KeyBytes(t);
    var child := n.children[KeyBytes(t)[7]];
    assert Formed(child, KeyBytes(t));
    KeyBytesInjective(child.key, t);
  }

  // ---------------------------------------------------------------- remove

  datatype Removed = Removed(node: Node, value: Level, empty: bool)

  ghost predicate OnPath(n: Node, t: int, d: nat)
    requires IsTick(t) && d <= 8
  {
    (d == 0 && RootFormed(n)) || Formed(n, KeyBytes(t)[..d])
  }

  lemma ChildOnPath(n: Node, t: int, d: nat)
    requires IsTick(t) && d <= 8 && OnPath(n, t, d) && n.Inner?
    ensures d < 8 && Formed(n, KeyBytes(t)[..d])
    ensures KeyBytes(t)[d] in n.children ==> OnPath(n.children[KeyBytes(t)[d]], t, d + 1)
  {
    hide KeyBytes;
    assert KeyBytes(t)[..0] == [];
    if d < 8 {
      assert KeyBytes(t)[..d] + [KeyBytes(t)[d]] == KeyBytes(t)[..d + 1];
    }
  }

  function RemoveAt(n: Node, t: int, d: nat): (r: Option<Removed>)
    requires IsTick(t) && d <= 8 && OnPath(n, t, d)
    ensures r.Some? && !r.value.empty ==> r.value.node.Inner? && Formed(r.value.node, KeyBytes(t)[..d])
    decreases 8 - d
  {
    match n
    case Leaf(k, v) => if k == t then Some(Removed(n, v, true)) else None
    case Inner(ch) =>
      ChildOnPath(n, t, d);
      var b := KeyBytes(t)[d];
      if b !in ch then None
      else
        var below := RemoveAt(ch[b], t, d + 1);
        if below == None then None
        else
          var ch' := if below.value.empty then ch - {b} else ch[b := below.value.node];
          assert KeyBytes(t)[..d] + [b] == KeyBytes(t)[..d + 1];
          Some(Removed(Inner(ch'), below.value.value, ch' == map[]))
  }

  lemma {:induction false} RemoveFinds(n: Node, t: int, d: nat, t': int)
    requires IsTick(t) && IsTick(t') && d <= 8 && OnPath(n, t, d)
    ensures var r := RemoveAt(n, t, d);
      && (r.Some? <==> Find(n, t, d).Some?)
      && (r.Some? ==> Find(n, t, d) == Some(r.value.value))
      && (r.Some? && t' != t ==> Find(n, t', d) == if r.value.empty then None else Find(r.value.node, t', d))
      && (r.Some? && !r.value.empty ==> Find(r.value.node, t, d) == None)
    decreases 8 - d
  {
    hide KeyBytes, Formed;
    if n.Inner? {
      ChildOnPath(n, t, d);
      if KeyBytes(t)[d] in n.children {
        var b, b' := KeyBytes(t)[d], KeyBytes(t')[d];
        RemoveFinds(n.children[b], t, d + 1, t');
        assert b' in n.children && b' != b ==> b' in n.children - {b};
      }
    }
  }

  // ---------------------------------------------------------------- extremes

  function ExtremeByte(keys: set<nat>, min: bool): (b: nat)
    requires keys != {}
    ensures b in keys
    ensures forall k :: k in keys ==> if min then b <= k else k <= b
  {
    ExtremeByteExists(keys, min);
    var b :| b in keys && forall k :: k in keys ==> if min then b <= k else k <= b;
    b
  }

  lemma {:induction false} ExtremeByteExists(keys: set<nat>, min: bool)
    requires keys != {}
    ensures exists b :: b in keys && forall k :: k in keys ==> if min then b <= k else k <= b
  {
    var x := AnyMember(keys);
    var rest := keys - {x};
    if rest == {} {
      assert keys == {x};
      assert x in keys && forall k :: k in keys ==> if min then x <= k else k <= x;
    } else {
      ExtremeByteExists(rest, min);
      var y :| y in rest && forall k :: k in rest ==> if min then y <= k else k <= y;
      var b := if (if min then x <= y else y <= x) then x else y;
      forall k | k in keys ensures if min then b <= k else k <= b {
        assert k == x || k in rest;
      }
      assert b in keys;
    }
  }

  function Extreme(n: Node, min: bool): (r: Option<int>) {
    match n
    case Leaf(k, _) => Some(k)
    case Inner(ch) => if ch.Keys == {} then None else Extreme(ch[ExtremeByte(ch.Keys, min)], min)
  }

  /** The extreme key of a formed subtree is stored there and bounds every other stored key. */
  lemma {:induction false} ExtremeBounds(n: Node, min: bool, p: seq<nat>, t: int)
    requires |p| <= 8 && IsTick(t) && (Formed(n, p) || (p == [] && RootFormed(n)))
    requires Find(n, t, |p|).Some?
    ensures var r := Extreme(n, min);
      && r.Some? && IsTick(r.value) && Find(n, r.value, |p|).Some?
      && (if min then r.value <= t else t <= r.value)
    decreases n
  {
    hide KeyBytes;
    if n.Inner? {
      var e, b := ExtremeByte(n.children.Keys, min), KeyBytes(t)[|p|];
      ExtremeStored(n, min, p);
      var k := Extreme(n, min).value;
      FindInPath(n.children[e], k, p + [e]);
      if b == e {
        ExtremeBounds(n.children[e], min, p + [e], t);
      } else {
        FindInPath(n.children[b], t, p + [b]);
        PathOrder(k, t, p, e, b);
      }
    }
  }

  lemma PathOrder(s: int, t: int, p: seq<nat>, x: nat, y: nat)
    requires IsTick(s) && IsTick(t) && |p| < 8 && x != y
    requires KeyBytes(s)[..|p| + 1] == p + [x] && KeyBytes(t)[..|p| + 1] == p + [y]
    ensures s < t <==> x < y
    ensures s != t
  {
    hide KeyBytes;
    var d := |p|;
    assert KeyBytes(s)[..d] == (p + [x])[..d] && KeyBytes(t)[..d] == (p + [y])[..d];
    assert KeyBytes(s)[d] == (p + [x])[d] && KeyBytes(t)[d] == (p + [y])[d];
    if x < y {
      KeyOrderAt(s, t, d);
    } else {
      KeyOrderAt(t, s, d);
    }
  }

  lemma {:induction false} ExtremeStored(n: Node, min: bool, p: seq<nat>)
    requires |p| <= 8 && Formed(n, p)
    ensures var r := Extreme(n, min); r.Some? && IsTick(r.value) && Find(n, r.value, |p|).Some?
    ensures n.Inner? ==> var e := ExtremeByte(n.children.Keys, min);
      Extreme(n, min) == Extreme(n.children[e], min) && Find(n.children[e], Extreme(n, min).value, |p| + 1).Some?
    decreases n
  {
    hide KeyBytes;
    if n.Inner? {
      assert n.children.Keys != {};
      var e := ExtremeByte(n.children.Keys, min);
      ExtremeStored(n.children[e], min, p + [e]);
      var k := Extreme(n.children[e], min).value;
      FindInPath(n.children[e], k, p + [e]);
      assert KeyBytes(k)[|p|] == (p + [e])[|p|];
    }
  }
}
