/** Small value types shared by every module of the model. */
module Common {

  datatype Option<+T> = None | Some(value: T)

  /** Least of two integers. */
  function Min(a: int, b: int): int {
    if a <= b then a else b
  }

  /** Greatest of two integers. */
  function Max(a: int, b: int): int {
    if a <= b then b else a
  }

  /** A member of a non-empty set. */
  lemma AnyMember<T>(s: set<T>) returns (x: T)
    requires s != {}
    ensures x in s
  {
    x :| x in s;
  }

  /** The places of `s` that satisfy `p`. */
  ghost function Where<T>(s: seq<T>, p: T -> bool): set<nat> {
    set i: nat | i < |s| && p(s[i])
  }

  lemma WhereSnoc<T>(s: seq<T>, p: T -> bool)
    requires s != []
    ensures var n := |s| - 1;
      && Where(s, p) == Where(s[..n], p) + (if p(s[n]) then {n} else {})
      && |Where(s, p)| == |Where(s[..n], p)| + (if p(s[n]) then 1 else 0)
  {
    var n := |s| - 1;
    assert Where(s, p) == Where(s[..n], p) + (if p(s[n]) then {n} else {});
    assert n !in Where(s[..n], p);
  }
}
