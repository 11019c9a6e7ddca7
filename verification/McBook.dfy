/** The order book of the Java-equivalent engine: one sorted set of orders per side. */
module McBook {
  import opened Common
  import opened HpTypes
  import opened McTypes

  predicate SortedSide(side: Side, s: seq<BbOrder>) {
    forall i, j :: 0 <= i < j < |s| ==> Precedes(side, s[i], s[j])
  }

  predicate DistinctNos(s: seq<BbOrder>) {
    forall i, j :: 0 <= i < j < |s| ==> s[i].no != s[j].no
  }

  predicate HasNo(s: seq<BbOrder>, no: string) {
    exists i :: 0 <= i < |s| && s[i].no == no
  }

  predicate OnSide(side: Side, s: seq<BbOrder>) {
    forall i :: 0 <= i < |s| ==> SideOf(s[i]) == Some(side)
  }

  /** Place `o` before the first order it precedes. */
  function InsertSorted(side: Side, s: seq<BbOrder>, o: BbOrder): seq<BbOrder> {
    if s == [] then [o]
    else if Precedes(side, o, s[0]) then [o] + s
    else [s[0]] + InsertSorted(side, s[1..], o)
  }

  function WithoutNo(s: seq<BbOrder>, no: string): seq<BbOrder> {
    if s == [] then []
    else if s[0].no == no then s[1..]
    else [s[0]] + WithoutNo(s[1..], no)
  }

  datatype Sides = Sides(buys: seq<BbOrder>, sells: seq<BbOrder>) {
    function Of(side: Side): seq<BbOrder> {
      if side == Buy then buys else sells
    }

    function With(side: Side, s: seq<BbOrder>): Sides {
      if side == Buy then Sides(s, sells) else Sides(buys, s)
    }

    predicate Has(no: string) {
      HasNo(buys, no) || HasNo(sells, no)
    }

    /** Both sides strictly sorted, every number on the book once, every order on its own side. */
    predicate Ok() {
      && SortedSide(Buy, buys) && SortedSide(Sell, sells)
      && DistinctNos(buys) && DistinctNos(sells)
      && (forall i, j :: 0 <= i < |buys| && 0 <= j < |sells| ==> buys[i].no != sells[j].no)
      && OnSide(Buy, buys) && OnSide(Sell, sells)
    }

    /** No resting buy reaches a resting sell. */
    predicate Uncrossed() {
      forall i, j :: 0 <= i < |buys| && 0 <= j < |sells| ==> buys[i].price < sells[j].price
    }
  }

  // ---------------------------------------------------------------- sorted insertion

  lemma {:induction false} InsertMembers(side: Side, s: seq<BbOrder>, o: BbOrder)
    ensures |InsertSorted(side, s, o)| == |s| + 1
    ensures forall x :: x in InsertSorted(side, s, o) <==> x == o || x in s
  {
    if s != [] && !Precedes(side, o, s[0]) {
      InsertMembers(side, s[1..], o);
      assert s == [s[0]] + s[1..];
    }
  }

  lemma {:induction false} InsertSortedKeeps(side: Side, s: seq<BbOrder>, o: BbOrder)
    requires SortedSide(side, s) && DistinctNos(s) && !HasNo(s, o.no)
    ensures SortedSide(side, InsertSorted(side, s, o))
    ensures DistinctNos(InsertSorted(side, s, o))
  {
    if s != [] {
      assert s[0].no != o.no;
      if Precedes(side, o, s[0]) {
        forall j | 0 <= j < |s| ensures Precedes(side, o, s[j]) && s[j].no != o.no {
          if j > 0 {
            ComparatorTransitive(side, o, s[0], s[j]);
          }
        }
      } else {
        var rest := InsertSorted(side, s[1..], o);
        assert !HasNo(s[1..], o.no) by {
          forall i | 0 <= i < |s[1..]| ensures s[1..][i].no != o.no {
            assert s[1..][i] == s[i + 1];
          }
        }
        InsertSortedKeeps(side, s[1..], o);
        InsertMembers(side, s[1..], o);
        ComparatorTotal(side, o, s[0]);
        forall j | 0 <= j < |rest| ensures Precedes(side, s[0], rest[j]) && s[0].no != rest[j].no {
          assert rest[j] in rest;
          if rest[j] != o {
            var k :| 0 <= k < |s[1..]| && s[1..][k] == rest[j];
            assert s[k + 1] == rest[j];
          }
        }
      }
    }
  }

  lemma {:induction false} InsertBetween(side: Side, a: seq<BbOrder>, b: seq<BbOrder>, o: BbOrder)
    requires forall i :: 0 <= i < |a| ==> !Precedes(side, o, a[i])
    requires b != [] ==> Precedes(side, o, b[0])
    ensures InsertSorted(side, a + b, o) == a + [o] + b
  {
    if a == [] {
      assert a + b == b;
    } else {
      assert (a + b)[1..] == a[1..] + b;
      InsertBetween(side, a[1..], b, o);
      assert a == [a[0]] + a[1..];
    }
  }

  // ---------------------------------------------------------------- removal by number

  lemma {:induction false} WithoutAbsentNo(s: seq<BbOrder>, no: string)
    requires !HasNo(s, no)
    ensures WithoutNo(s, no) == s
  {
    if s != [] {
      assert s[0].no != no;
      assert !HasNo(s[1..], no) by {
        forall i | 0 <= i < |s[1..]| ensures s[1..][i].no != no {
          assert s[1..][i] == s[i + 1];
        }
      }
      WithoutAbsentNo(s[1..], no);
    }
  }

  lemma {:induction false} WithoutNoAt(s: seq<BbOrder>, i: nat)
    requires DistinctNos(s) && i < |s|
    ensures WithoutNo(s, s[i].no) == s[..i] + s[i + 1..]
  {
    if i == 0 {
      assert s[..0] + s[1..] == s[1..];
    } else {
      var t := s[1..];
      assert s[0].no != s[i].no && t[i - 1] == s[i];
      assert DistinctNos(t);
      WithoutNoAt(t, i - 1);
      assert [s[0]] + (t[..i - 1] + t[i..]) == s[..i] + s[i + 1..] by {
        assert t[i..] == s[i + 1..];
        assert [s[0]] + t[..i - 1] == s[..i];
      }
    }
  }

  /** Removing what was just inserted gives back the original side. */
  lemma {:induction false} RemoveInserted(side: Side, s: seq<BbOrder>, o: BbOrder)
    requires !HasNo(s, o.no)
    ensures WithoutNo(InsertSorted(side, s, o), o.no) == s
    ensures HasNo(InsertSorted(side, s, o), o.no)
  {
    if s == [] {
      assert [o][0].no == o.no;
    } else {
      assert s[0].no != o.no;
      if Precedes(side, o, s[0]) {
        assert ([o] + s)[0].no == o.no;
      } else {
        assert !HasNo(s[1..], o.no) by {
          forall i | 0 <= i < |s[1..]| ensures s[1..][i].no != o.no {
            assert s[1..][i] == s[i + 1];
          }
        }
        RemoveInserted(side, s[1..], o);
        var r := InsertSorted(side, s[1..], o);
        var i :| 0 <= i < |r| && r[i].no == o.no;
        assert ([s[0]] + r)[i + 1].no == o.no;
      }
    }
  }

  /** Invariants carry over to a shorter side. */
  lemma CutKeeps(side: Side, s: seq<BbOrder>, i: nat)
    requires SortedSide(side, s) && DistinctNos(s) && OnSide(side, s) && i < |s|
    ensures var r := s[..i] + s[i + 1..]; SortedSide(side, r) && DistinctNos(r) && OnSide(side, r)
  {
  }
}
