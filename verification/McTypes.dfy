/** Orders, events and book ordering of the Java-equivalent engine. Decimals are modelled as reals. */
module McTypes {
  import opened Common
  import opened HpTypes

  const FORM_LIMIT := 1
  const FORM_MARKET := 2
  const FORM_POST_ONLY := 3
  const FORM_IOC := 4
  const FORM_FOK := 5
  const STATUS_SUCCESS := 1
  const STATUS_PART := 2
  const STATUS_REVOKE := 3

  datatype BbOrder = BbOrder(
    userType: int,
    orderType: int,
    symbol: string,
    no: string,
    form: int,
    gear: Option<int>,
    status: int,
    consumed: real,
    currentDeal: real,
    trust: real,
    price: real,
    remainingNumber: real,
    createTime: int)

  datatype MatchEvent =
    | McFill(symbol: string, takerNo: string, makerNo: string, takerType: int, makerType: int,
             price: real, qty: real, takerRemaining: real, makerRemaining: real,
             takerStatus: int, makerStatus: int)
    | McRevoke(no: string, symbol: string, remaining: real, reason: string)

  function SideOf(o: BbOrder): Option<Side> {
    if o.orderType == 1 then Some(Buy) else if o.orderType == 2 then Some(Sell) else None
  }

  function Remaining(o: BbOrder): real {
    o.trust - o.consumed
  }

  // ---------------------------------------------------------------- ordering

  /** Lexicographic order of order numbers. */
  predicate StrLess(a: string, b: string) {
    b != [] && (a == [] || a[0] < b[0] || (a[0] == b[0] && StrLess(a[1..], b[1..])))
  }

  lemma {:induction false} StrTotal(a: string, b: string)
    ensures a == b || StrLess(a, b) || StrLess(b, a)
    decreases a
  {
    if a != [] && b != [] && a[0] == b[0] {
      StrTotal(a[1..], b[1..]);
      assert a == [a[0]] + a[1..] && b == [b[0]] + b[1..];
    }
  }

  lemma {:induction false} StrAsymmetric(a: string, b: string)
    requires StrLess(a, b)
    ensures !StrLess(b, a) && a != b
    decreases a
  {
    if a != [] && a[0] == b[0] {
      StrAsymmetric(a[1..], b[1..]);
    }
  }

  lemma {:induction false} StrTransitive(a: string, b: string, c: string)
    requires StrLess(a, b) && StrLess(b, c)
    ensures StrLess(a, c)
    decreases a
  {
    if a != [] && a[0] == b[0] == c[0] {
      StrTransitive(a[1..], b[1..], c[1..]);
    }
  }

  /** Numbers compare at the first place they differ; a number comes before its extensions. */
  lemma {:induction false} StrLessAt(a: string, b: string, k: nat)
    requires k <= |a| && k <= |b| && a[..k] == b[..k]
    requires k == |a| || k == |b| || a[k] != b[k]
    ensures StrLess(a, b) <==> k < |b| && (k == |a| || a[k] < b[k])
    decreases k
  {
    if k > 0 {
      assert a[..k][0] == b[..k][0];
      assert a[1..][..k - 1] == a[..k][1..] && b[1..][..k - 1] == b[..k][1..];
      StrLessAt(a[1..], b[1..], k - 1);
    }
  }

  /** `a` is a strictly better price than `b` for an order resting on `side`. */
  predicate BetterPrice(side: Side, a: real, b: real) {
    if side == Buy then a > b else a < b
  }

  /** Same-price order: by creation time, then by number; one number equals itself. */
  predicate EarlierSamePrice(a: BbOrder, b: BbOrder) {
    a.no != b.no && (a.createTime < b.createTime || (a.createTime == b.createTime && StrLess(a.no, b.no)))
  }

  /** The comparator of one side says Less. */
  predicate Precedes(side: Side, a: BbOrder, b: BbOrder) {
    BetterPrice(side, a.price, b.price) || (a.price == b.price && EarlierSamePrice(a, b))
  }

  /** The comparator says Equal: same price and same number. */
  predicate SameKey(a: BbOrder, b: BbOrder) {
    a.price == b.price && a.no == b.no
  }

  /** For every pair of orders the comparator says exactly one of less, greater and equal. */
  lemma ComparatorTotal(side: Side, a: BbOrder, b: BbOrder)
    ensures Precedes(side, a, b) || Precedes(side, b, a) || SameKey(a, b)
    ensures !(Precedes(side, a, b) && Precedes(side, b, a))
    ensures SameKey(a, b) ==> !Precedes(side, a, b) && !Precedes(side, b, a)
  {
    StrTotal(a.no, b.no);
    if StrLess(a.no, b.no) {
      StrAsymmetric(a.no, b.no);
    } else if StrLess(b.no, a.no) {
      StrAsymmetric(b.no, a.no);
    }
  }

  /** A chain of two precedences carries over exactly when its ends do not share price and number. */
  lemma ComparatorTransitive(side: Side, a: BbOrder, b: BbOrder, c: BbOrder)
    requires Precedes(side, a, b) && Precedes(side, b, c)
    ensures Precedes(side, a, c) <==> !SameKey(a, c)
  {
    if StrLess(a.no, b.no) && StrLess(b.no, c.no) {
      StrTransitive(a.no, b.no, c.no);
    }
  }

  /** Such a chain exists: with a number repeated at one price the comparator is no order. */
  lemma ComparatorNeedsDistinct()
    ensures exists a: BbOrder, b: BbOrder, c: BbOrder ::
      Precedes(Buy, a, b) && Precedes(Buy, b, c) && SameKey(a, c)
  {
    var a := BbOrder(1, 1, "s", "x", 1, None, 0, 0.0, 0.0, 1.0, 5.0, 1.0, 1);
    var b := a.(no := "y", createTime := 2);
    var c := a.(createTime := 3);
    assert Precedes(Buy, a, b) && Precedes(Buy, b, c) && SameKey(a, c);
  }
}
