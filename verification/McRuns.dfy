/** Invariants of the Java-equivalent engine over every run, for all order forms and any quantities. */
module McRuns {
  import opened Common
  import opened HpTypes
  import opened McTypes
  import opened McBook
  import opened McSpec
  import opened McSweep

  ghost predicate Good(b: Sides) {
    b.Ok() && b.Uncrossed()
  }

  /** Same keys in the same places: everything the ordering looks at is unchanged. */
  predicate SameKeys(a: seq<BbOrder>, b: seq<BbOrder>) {
    |a| == |b| && forall i :: 0 <= i < |a| ==> SameOrder(a[i], b[i])
  }

  /** What a sweep leaves is a tail of the opposite side, key for key. */
  lemma SweepTail(side: Side, taker: BbOrder, opp: seq<BbOrder>, bound: Bound)
    ensures var sw := Sweep(side, taker, opp, bound);
      |sw.rest| <= |opp| && SameKeys(sw.rest, opp[|opp| - |sw.rest|..])
  {
    SweepShape(side, taker, opp, bound);
    var sw := Sweep(side, taker, opp, bound);
    var k := |opp| - |sw.rest|;
    forall i | 0 <= i < |sw.rest| ensures SameOrder(sw.rest[i], opp[k..][i]) {
      if |sw.fills| == k + 1 && i > 0 {
        assert sw.rest[i] == sw.rest[1..][i - 1] == opp[k + 1..][i - 1];
      }
    }
  }

  lemma TailKeeps(b: Sides, side: Side, rest: seq<BbOrder>)
    requires Good(b) && |rest| <= |b.Of(side)|
    requires SameKeys(rest, b.Of(side)[|b.Of(side)| - |rest|..])
    ensures Good(b.With(side, rest))
    ensures forall no :: b.With(side, rest).Has(no) ==> b.Has(no)
  {
    var s := b.Of(side);
    var c := |s| - |rest|;
    forall i | 0 <= i < |rest| ensures SameOrder(rest[i], s[c + i]) {
    }
    assert SortedSide(side, rest) && DistinctNos(rest) && OnSide(side, rest);
    forall no | HasNo(rest, no) ensures HasNo(s, no) {
      var i :| 0 <= i < |rest| && rest[i].no == no;
      assert s[c + i].no == no;
    }
  }

  /** Inserting an order that reaches nothing on the other side keeps the book good. */
  lemma InsertKeepsGood(b: Sides, side: Side, o: BbOrder)
    requires Good(b) && !b.Has(o.no) && SideOf(o) == Some(side)
    requires forall j :: 0 <= j < |b.Of(Opposite(side))| ==> !Reaches(side, o.price, b.Of(Opposite(side))[j].price)
    ensures Good(b.With(side, InsertSorted(side, b.Of(side), o)))
  {
    hide InsertSorted, Precedes;
    var s, other := b.Of(side), b.Of(Opposite(side));
    var r := InsertSorted(side, s, o);
    InsertSortedKeeps(side, s, o);
    InsertMembers(side, s, o);
    forall i | 0 <= i < |r|
      ensures SideOf(r[i]) == Some(side)
      ensures forall j :: 0 <= j < |other| ==> r[i].no != other[j].no && !Reaches(side, r[i].price, other[j].price)
    {
      assert r[i] in r;
      if r[i] != o {
        var k :| 0 <= k < |s| && s[k] == r[i];
      } else {
        assert !HasNo(other, o.no);
      }
    }
  }

  /** If the best opposite order is out of reach, all of them are. */
  lemma BestOutOfReach(side: Side, price: real, opp: seq<BbOrder>)
    requires SortedSide(Opposite(side), opp)
    requires opp == [] || !Reaches(side, price, opp[0].price)
    ensures forall j :: 0 <= j < |opp| ==> !Reaches(side, price, opp[j].price)
  {
    forall j | 0 <= j < |opp| ensures !Reaches(side, price, opp[j].price) {
      if j > 0 {
        assert Precedes(Opposite(side), opp[0], opp[j]);
      }
    }
  }

  lemma LimitKeepsGood(b: Sides, side: Side, o: BbOrder)
    requires Good(b) && !b.Has(o.no) && SideOf(o) == Some(side)
    ensures Good(LimitStep(b, side, o).0)
  {
    hide InsertSorted, HasNo, SortedSide, DistinctNos, Sweep;
    var opp := b.Of(Opposite(side));
    var sw := Sweep(side, o, opp, Priced);
    SweepTail(side, o, opp, Priced);
    SweepShape(side, o, opp, Priced);
    TailKeeps(b, Opposite(side), sw.rest);
    if sw.taker.Some? {
      SweepStops(side, o, opp, Priced);
      BestOutOfReach(side, o.price, sw.rest);
      InsertKeepsGood(b.With(Opposite(side), sw.rest), side, sw.taker.value);
    }
  }

  lemma MarketKeepsGood(b: Sides, side: Side, o: BbOrder)
    requires Good(b) && !b.Has(o.no) && SideOf(o) == Some(side)
    ensures Good(MarketStep(b, side, o).0)
  {
    hide InsertSorted, HasNo, Sweep;
    var t := MarketOrder(side, o);
    var mine, opp := b.Of(side), b.Of(Opposite(side));
    if opp != [] && mine != [] && !Precedes(side, t, mine[0]) {
      // The market order queues behind a better resting order, which reaches nothing.
      forall j | 0 <= j < |opp| ensures !Reaches(side, t.price, opp[j].price) {
        assert mine[0].price == mine[0].price;
      }
      InsertKeepsGood(b, side, t);
    } else {
      SweepTail(side, t, opp, Geared(GearOf(o)));
      TailKeeps(b, Opposite(side), Sweep(side, t, opp, Geared(GearOf(o))).rest);
    }
  }

  lemma CutKeepsGood(b: Sides, side: Side, i: nat)
    requires Good(b) && i < |b.Of(side)|
    ensures Good(b.With(side, b.Of(side)[..i] + b.Of(side)[i + 1..]))
  {
    hide Precedes, HasNo;
    var s := b.Of(side);
    var r := s[..i] + s[i + 1..];
    CutKeeps(side, s, i);
    assert forall j :: 0 <= j < |r| ==> r[j] == s[if j < i then j else j + 1];
  }

  lemma RevokeKeepsGood(b: Sides, side: Side, no: string)
    requires Good(b)
    ensures Good(RevokeStep(b, side, no).0)
  {
    hide Precedes, WithoutNo;
    if HasNo(b.Of(side), no) {
      var i :| 0 <= i < |b.Of(side)| && b.Of(side)[i].no == no;
      WithoutNoAt(b.Of(side), i);
      CutKeepsGood(b, side, i);
    }
  }

  /**
   Every order, of any form and any quantity, leaves the book sorted, its numbers distinct
   and no buy price at or above a sell price.
   */
  lemma StepKeepsGood(b: Sides, o: BbOrder)
    requires Good(b)
    ensures Good(McStep(b, o).0)
  {
    hide Good, LimitStep, MarketStep, RevokeStep, Sweep, InsertSorted;
    if SideOf(o).Some? {
      var side := SideOf(o).value;
      var opp := b.Of(Opposite(side));
      if o.status == STATUS_REVOKE {
        RevokeKeepsGood(b, side, o.no);
      } else if !b.Has(o.no) {
        if o.form == FORM_POST_ONLY {
          PostOnlyKeepsGood(b, side, o);
        } else if o.form == FORM_IOC || o.form == FORM_FOK {
          SweepTail(side, o, opp, Priced);
          TailKeeps(b, Opposite(side), Sweep(side, o, opp, Priced).rest);
        } else if o.form == FORM_MARKET {
          MarketKeepsGood(b, side, o);
        } else {
          LimitKeepsGood(b, side, o);
        }
      }
    }
  }

  lemma PostOnlyKeepsGood(b: Sides, side: Side, o: BbOrder)
    requires Good(b) && !b.Has(o.no) && SideOf(o) == Some(side)
    ensures Good(PostOnlyStep(b, side, o).0)
  {
    hide InsertSorted, HasNo;
    var opp := b.Of(Opposite(side));
    if !(opp != [] && Reaches(side, o.price, opp[0].price)) {
      BestOutOfReach(side, o.price, opp);
      InsertKeepsGood(b, side, o);
    }
  }

  /** The book after a run of orders. */
  ghost function Run(orders: seq<BbOrder>): (b: Sides)
    ensures Good(b)
  {
    if orders == [] then Sides([], [])
    else
      var before := Run(orders[..|orders| - 1]);
      StepKeepsGood(before, orders[|orders| - 1]);
      McStep(before, orders[|orders| - 1]).0
  }

  /** All events of a run. */
  ghost function Log(orders: seq<BbOrder>): seq<MatchEvent> {
    if orders == [] then []
    else
      var n := |orders| - 1;
      Log(orders[..n]) + McStep(Run(orders[..n]), orders[n]).1
  }

  /**
   In every run each fill has the incoming order as taker, is made at the maker's price, and
   its k-th maker is the k-th best order then resting on the other side.
   */
  lemma FillsByPriority(orders: seq<BbOrder>, o: BbOrder, k: nat)
    requires SideOf(o).Some? && k < |McStep(Run(orders), o).1| && McStep(Run(orders), o).1[k].McFill?
    ensures var e := McStep(Run(orders), o).1[k];
      var opp := Run(orders).Of(Opposite(SideOf(o).value));
      && k < |opp| && e.takerNo == o.no && e.makerNo == opp[k].no && e.price == opp[k].price
      && (o.form != FORM_MARKET ==> Reaches(SideOf(o).value, o.price, e.price))
      && (forall j :: k < j < |opp| ==> Precedes(Opposite(SideOf(o).value), opp[k], opp[j]))
  {
    StepFills(Run(orders), o, k);
  }

  lemma StepFills(b: Sides, o: BbOrder, k: nat)
    requires Good(b) && SideOf(o).Some? && k < |McStep(b, o).1| && McStep(b, o).1[k].McFill?
    ensures var e := McStep(b, o).1[k];
      var opp := b.Of(Opposite(SideOf(o).value));
      && k < |opp| && e.takerNo == o.no && e.makerNo == opp[k].no && e.price == opp[k].price
      && (o.form != FORM_MARKET ==> Reaches(SideOf(o).value, o.price, e.price))
      && (forall j :: k < j < |opp| ==> Precedes(Opposite(SideOf(o).value), opp[k], opp[j]))
  {
    hide Sweep, Precedes, InsertSorted, ByNo, HasNo, WithoutNo, Reaches;
    var side := SideOf(o).value;
    var opp := b.Of(Opposite(side));
    var swept := if o.form == FORM_MARKET then Sweep(side, MarketOrder(side, o), opp,
        Geared(GearOf(o))) else Sweep(side, o, opp, Priced);
    assert k < |swept.fills| && (McStep(b, o).1[k] == swept.fills[k] || McStep(b, o).1[k] == WalkFill(swept.fills[k]));
    if o.form == FORM_MARKET {
      SweepShape(side, MarketOrder(side, o), opp, Geared(GearOf(o)));
    } else {
      SweepShape(side, o, opp, Priced);
    }
  }

  /** An IOC or FOK order never rests, and an accepted PostOnly order never trades. */
  lemma ImmediateFormsNeverRest(b: Sides, o: BbOrder)
    requires Good(b) && !b.Has(o.no) && o.status != STATUS_REVOKE
    ensures o.form == FORM_IOC || o.form == FORM_FOK ==> !McStep(b, o).0.Has(o.no)
    ensures o.form == FORM_POST_ONLY ==> forall e :: e in McStep(b, o).1 ==> e.McRevoke?
  {
    hide Sweep;
    if SideOf(o).Some? && (o.form == FORM_IOC || o.form == FORM_FOK) {
      var side := SideOf(o).value;
      var opp := b.Of(Opposite(side));
      SweepTail(side, o, opp, Priced);
      TailKeeps(b, Opposite(side), Sweep(side, o, opp, Priced).rest);
    }
  }

  /**
   A FOK order is all or nothing, decided by the crossing liquidity alone: either its fills
   add up to its whole remainder, or no fill is reported and the book is unchanged.
   */
  lemma FokAllOrNothing(b: Sides, o: BbOrder)
    requires Good(b) && !b.Has(o.no) && o.status != STATUS_REVOKE && o.form == FORM_FOK && SideOf(o).Some?
    requires AllPositive(b.Of(Opposite(SideOf(o).value))) && Remaining(o) > 0.0
    ensures var (b', es) := McStep(b, o);
      var side := SideOf(o).value;
      if CrossingLiquidity(side, o.price, b.Of(Opposite(side))) >= Remaining(o) then
        && FillSum(es) == Remaining(o)
        && (forall e :: e in es ==> e.McFill? && Reaches(side, o.price, e.price))
        && b'.Of(side) == b.Of(side)
      else
        && b' == b
        && |es| == 1 && es[0].McRevoke? && es[0].no == o.no && es[0].reason == "fok_fail"
  {
    hide Sweep;
    var side := SideOf(o).value;
    var opp := b.Of(Opposite(side));
    SweepVolume(side, o, opp);
    SweepShape(side, o, opp, Priced);
    WalkFillsSum(Sweep(side, o, opp, Priced).fills);
  }

  lemma InsertKeepsPositive(side: Side, s: seq<BbOrder>, o: BbOrder)
    requires AllPositive(s) && Remaining(o) > 0.0
    ensures AllPositive(InsertSorted(side, s, o))
  {
    InsertMembers(side, s, o);
    var r := InsertSorted(side, s, o);
    forall i | 0 <= i < |r| ensures Remaining(r[i]) > 0.0 {
      assert r[i] in r;
    }
  }

  lemma StepKeepsPositive(b: Sides, o: BbOrder)
    requires Good(b) && AllPositive(b.buys) && AllPositive(b.sells)
    requires o.status != STATUS_REVOKE ==> Remaining(o) > 0.0
    ensures var b' := McStep(b, o).0; AllPositive(b'.buys) && AllPositive(b'.sells)
  {
    hide Sweep, InsertSorted, HasNo, WithoutNo, AllPositive, Good;
    if SideOf(o).Some? {
      var side := SideOf(o).value;
      var mine, opp := b.Of(side), b.Of(Opposite(side));
      if o.status == STATUS_REVOKE {
        RemoveKeepsPositive(mine, o.no);
      } else {
        var t := MarketOrder(side, o);
        SweepKeepsPositive(side, o, opp, Priced);
        SweepKeepsPositive(side, t, opp, Geared(GearOf(o)));
        InsertKeepsPositive(side, mine, o);
        InsertKeepsPositive(side, mine, t);
        var sw := Sweep(side, o, opp, Priced);
        if sw.taker.Some? {
          InsertKeepsPositive(side, mine, sw.taker.value);
        }
      }
    }
  }

  lemma {:induction false} RemoveKeepsPositive(s: seq<BbOrder>, no: string)
    requires AllPositive(s)
    ensures AllPositive(WithoutNo(s, no))
  {
    if s != [] {
      RemoveKeepsPositive(s[1..], no);
    }
  }

  predicate Tradable(o: BbOrder) {
    o.status == STATUS_REVOKE || Remaining(o) > 0.0
  }

  lemma {:induction false} RunKeepsPositive(orders: seq<BbOrder>)
    requires forall i :: 0 <= i < |orders| ==> Tradable(orders[i])
    ensures AllPositive(Run(orders).buys) && AllPositive(Run(orders).sells)
  {
    if orders != [] {
      var n := |orders| - 1;
      RunKeepsPositive(orders[..n]);
      assert Tradable(orders[n]);
      StepKeepsPositive(Run(orders[..n]), orders[n]);
    }
  }

  /** In every run of orders with something left to trade, a FOK order is all or nothing. */
  lemma RunFok(orders: seq<BbOrder>, o: BbOrder)
    requires forall i :: 0 <= i < |orders| ==> Tradable(orders[i])
    requires SideOf(o).Some? && o.form == FORM_FOK && o.status != STATUS_REVOKE
    requires !Run(orders).Has(o.no) && Remaining(o) > 0.0
    ensures var (b', es) := McStep(Run(orders), o);
      var side := SideOf(o).value;
      if CrossingLiquidity(side, o.price, Run(orders).Of(Opposite(side))) >= Remaining(o) then
        && FillSum(es) == Remaining(o) && !b'.Has(o.no)
        && forall e :: e in es ==> e.McFill? && Reaches(side, o.price, e.price)
      else
        b' == Run(orders) && |es| == 1 && es[0].McRevoke? && es[0].no == o.no && es[0].reason == "fok_fail"
  {
    hide McStep, Good, FillSum, CrossingLiquidity, HasNo;
    RunKeepsPositive(orders);
    FokAllOrNothing(Run(orders), o);
    ImmediateFormsNeverRest(Run(orders), o);
  }
}
