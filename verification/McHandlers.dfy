/** The order book object and the matching loops of the Java-equivalent engine. */
module McHandlers {
  import opened Common
  import opened HpTypes
  import opened McTypes
  import opened McBook
  import opened McSpec
  import opened McSweep
  import opened McRuns

  class OrderBook {
    var buys: seq<BbOrder>
    var sells: seq<BbOrder>

    constructor ()
      ensures Book() == Sides([], [])
    {
      buys := [];
      sells := [];
    }

    function Book(): Sides
      reads this
    {
      Sides(buys, sells)
    }

    function First(side: Side): Option<BbOrder>
      reads this
    {
      if Book().Of(side) == [] then None else Some(Book().Of(side)[0])
    }

    method SetSide(side: Side, s: seq<BbOrder>)
      modifies this
      ensures Book() == old(Book()).With(side, s)
    {
      if side == Buy {
        buys := s;
      } else {
        sells := s;
      }
    }

    /** Set insertion: refused for an unknown side or when an equal key is present. */
    method Insert(o: BbOrder) returns (ok: bool)
      modifies this
      ensures ok <==> SideOf(o).Some? && forall x :: x in old(Book()).Of(SideOf(o).value) ==> !SameKey(x, o)
      ensures Book() == if ok then old(Book()).With(SideOf(o).value, InsertSorted(SideOf(o).value,
          old(Book()).Of(SideOf(o).value), o)) else old(Book())
    {
      if SideOf(o) == None {
        return false;
      }
      var side := SideOf(o).value;
      if exists x :: x in Book().Of(side) && SameKey(x, o) {
        return false;
      }
      SetSide(side, InsertSorted(side, Book().Of(side), o));
      ok := true;
    }

    method PopFirst(side: Side) returns (r: Option<BbOrder>)
      modifies this
      ensures r == old(First(side))
      ensures Book() == if r == None then old(Book()) else old(Book()).With(side, old(Book()).Of(side)[1..])
    {
      r := First(side);
      if r.Some? {
        SetSide(side, Book().Of(side)[1..]);
      }
    }

    /** Find an order by number and take it out. */
    method RemoveByNo(side: Side, no: string) returns (r: Option<BbOrder>)
      modifies this
      ensures r == if HasNo(old(Book()).Of(side), no) then Some(ByNo(old(Book()).Of(side), no)) else None
      ensures Book() == old(Book()).With(side, WithoutNo(old(Book()).Of(side), no))
    {
      if HasNo(Book().Of(side), no) {
        r := Some(ByNo(Book().Of(side), no));
        SetSide(side, WithoutNo(Book().Of(side), no));
      } else {
        WithoutAbsentNo(Book().Of(side), no);
        r := None;
      }
    }
  }

  /** Take an order out by number and report it, if it is there. */
  method RevokeByNo(book: OrderBook, side: Side, no: string, reason: string) returns (es: seq<MatchEvent>)
    modifies book
    ensures book.Book() == old(book.Book()).With(side, WithoutNo(old(book.Book()).Of(side), no))
    ensures es == if HasNo(old(book.Book()).Of(side), no)
        then [RevokeOf(ByNo(old(book.Book()).Of(side), no), reason)] else []
  {
    var removed := book.RemoveByNo(side, no);
    es := if removed == None then [] else [RevokeOf(removed.value, reason)];
  }

  datatype RatherResult = Filled(event: MatchEvent) | Revoked(event: MatchEvent) | Nothing

  /** The two sides after the front orders traded. */
  function AfterTrade(b: Sides, side: Side): Sides
    requires b.Of(side) != [] && b.Of(Opposite(side)) != []
  {
    var mine, opp := b.Of(side), b.Of(Opposite(side));
    var t, m := Remaining(mine[0]), Remaining(opp[0]);
    var mine' := if t > m then [TakerAfter(mine[0], m)] + mine[1..] else mine[1..];
    var opp' := if t < m then [MakerAfter(opp[0], t)] + opp[1..] else opp[1..];
    b.With(side, mine').With(Opposite(side), opp')
  }

  /** Re-inserting the order that was at the front puts it back at the front. */
  lemma FrontAgain(side: Side, s: seq<BbOrder>, o: BbOrder)
    requires s != [] && SortedSide(side, s) && DistinctNos(s) && SameOrder(o, s[0])
    ensures InsertSorted(side, s[1..], o) == [o] + s[1..]
    ensures forall x :: x in s[1..] ==> !SameKey(x, o)
  {
    forall x | x in s[1..] ensures !SameKey(x, o) {
      var i :| 0 <= i < |s[1..]| && s[1..][i] == x;
      assert s[i + 1] == x;
    }
    if |s| > 1 {
      assert Precedes(side, s[0], s[1]);
    }
  }

  /** Trade the front order of `side` with the front order of the other side. */
  method RatherThan(book: OrderBook, side: Side) returns (r: RatherResult)
    requires book.Book().Ok()
    modifies book
    ensures old(book.Book()).Of(side) == [] || old(book.Book()).Of(Opposite(side)) == [] ==>
      r == Nothing && book.Book() == old(book.Book())
    ensures old(book.Book()).Of(side) != [] && old(book.Book()).Of(Opposite(side)) != [] ==>
      var taker, maker := old(book.Book()).Of(side)[0], old(book.Book()).Of(Opposite(side))[0];
      if side == Sell && taker.form == FORM_FOK && Remaining(taker) > Remaining(maker) then
        r.Revoked? && book.Book() == old(book.Book()).With(side, old(book.Book()).Of(side)[1..])
      else
        r == Filled(FillOf(taker, maker)) && book.Book() == AfterTrade(old(book.Book()), side)
  {
    hide InsertSorted, Precedes, HasNo;
    ghost var b := book.Book();
    ghost var mine, opp := b.Of(side), b.Of(Opposite(side));
    var first := book.PopFirst(side);
    if first == None {
      return Nothing;
    }
    var taker := first.value;
    var second := book.PopFirst(Opposite(side));
    if second == None {
      FrontAgain(side, mine, taker);
      var _ := book.Insert(taker);
      assert [mine[0]] + mine[1..] == mine;
      return Nothing;
    }
    var maker := second.value;
    var lastTaker, lastMaker := Remaining(taker), Remaining(maker);
    FrontAgain(Opposite(side), opp, maker);
    FrontAgain(side, mine, TakerAfter(taker, lastMaker));
    FrontAgain(Opposite(side), opp, MakerAfter(maker, lastTaker));
    if lastTaker > lastMaker {
      if side == Sell && taker.form == FORM_FOK {
        var _ := book.Insert(maker);
        assert [opp[0]] + opp[1..] == opp;
        return Revoked(McRevoke(taker.no, taker.symbol, taker.remainingNumber, "user"));
      }
      var _ := book.Insert(TakerAfter(taker, lastMaker));
    } else if lastTaker < lastMaker {
      var _ := book.Insert(MakerAfter(maker, lastTaker));
    }
    r := Filled(FillOf(taker, maker));
  }

  // ---------------------------------------------------------------- a sweep in progress

  function PrependFills(es: seq<MatchEvent>, sw: Swept): Swept {
    Swept(sw.taker, sw.rest, es + sw.fills)
  }

  /**
   Part-way through a sweep that started with `o` on book `b0`: `t` is what is left of the
   order (on its side of the book), `es` the fills so far.
   */
  ghost predicate Sweeping(b0: Sides, side: Side, o: BbOrder, bound0: Bound, now: Sides, t: Option<BbOrder>,
      bound: Bound, es: seq<MatchEvent>) {
    var whole := Sweep(side, o, b0.Of(Opposite(side)), bound0);
    var opp := now.Of(Opposite(side));
    && Good(b0.With(Opposite(side), opp))
    && (forall no :: HasNo(opp, no) ==> HasNo(b0.Of(Opposite(side)), no))
    && match t
       case Some(taker) =>
         && now.Of(side) == InsertSorted(side, b0.Of(side), taker) && SameOrder(taker, o)
         && whole == PrependFills(es, Sweep(side, taker, opp, bound))
       case None =>
         now.Of(side) == b0.Of(side) && whole == Swept(None, opp, es)
  }

  lemma SweepBegins(b0: Sides, side: Side, o: BbOrder, bound: Bound)
    requires Good(b0)
    ensures Sweeping(b0, side, o, bound, b0.With(side, InsertSorted(side, b0.Of(side), o)), Some(o), bound, [])
  {
    hide Good, InsertSorted, Sweep;
    var sw := Sweep(side, o, b0.Of(Opposite(side)), bound);
    assert [] + sw.fills == sw.fills;
    assert b0.With(Opposite(side), b0.Of(Opposite(side))) == b0;
  }

  lemma SweepingOk(b0: Sides, side: Side, o: BbOrder, bound0: Bound, now: Sides, t: Option<BbOrder>, bound: Bound,
      es: seq<MatchEvent>)
    requires Sweeping(b0, side, o, bound0, now, t, bound, es)
    requires !b0.Has(o.no) && SideOf(o) == Some(side)
    ensures now.Ok()
    ensures t == None ==> !HasNo(now.Of(side), o.no)
    ensures t.Some? ==> HasNo(now.Of(side), o.no) && WithoutNo(now.Of(side), o.no) == b0.Of(side)
    ensures now.With(side, b0.Of(side)) == b0.With(Opposite(side), now.Of(Opposite(side)))
  {
    hide Sweep, InsertSorted, Precedes;
    if t.Some? {
      var mine, opp := b0.Of(side), now.Of(Opposite(side));
      InsertSortedKeeps(side, mine, t.value);
      InsertMembers(side, mine, t.value);
      RemoveInserted(side, mine, t.value);
      var r := now.Of(side);
      forall i | 0 <= i < |r| ensures SideOf(r[i]) == Some(side)
        ensures forall j :: 0 <= j < |opp| ==> r[i].no != opp[j].no
      {
        assert r[i] in r;
        if r[i] == t.value {
          assert !HasNo(opp, o.no);
        } else {
          var k :| 0 <= k < |mine| && mine[k] == r[i];
        }
      }
    }
  }

  /** The order at the front of the taker's side is at least as good as the taker. */
  lemma {:induction false} FrontNotWorse(side: Side, s: seq<BbOrder>, o: BbOrder)
    ensures InsertSorted(side, s, o) != []
    ensures !BetterPrice(side, o.price, InsertSorted(side, s, o)[0].price)
    ensures InsertSorted(side, s, o)[0] == o ==> InsertSorted(side, s, o) == [o] + s || o in s
    ensures InsertSorted(side, s, o)[0] != o ==> s != [] && InsertSorted(side, s, o)[0] == s[0]
  {
  }

  /** On an uncrossed book only the incoming order can be at a crossing front. */
  lemma CrossingFront(b0: Sides, side: Side, o: BbOrder, bound0: Bound, now: Sides, t: Option<BbOrder>, bound: Bound,
      es: seq<MatchEvent>)
    requires Sweeping(b0, side, o, bound0, now, t, bound, es) && !b0.Has(o.no)
    requires now.Of(side) != [] && now.Of(Opposite(side)) != []
    ensures Reaches(side, now.Of(side)[0].price, now.Of(Opposite(side))[0].price) ==>
      t.Some? && now.Of(side) == [t.value] + b0.Of(side)
    ensures !Reaches(side, now.Of(side)[0].price, now.Of(Opposite(side))[0].price) && t.Some? ==>
      !Reaches(side, t.value.price, now.Of(Opposite(side))[0].price)
  {
    hide Sweep;
    var mine, opp := b0.Of(side), now.Of(Opposite(side));
    if t.Some? {
      FrontNotWorse(side, mine, t.value);
      assert forall i :: 0 <= i < |mine| ==> mine[i].no != o.no;
    }
  }

  /** One trade at the front advances the sweep by one fill. */
  lemma SweepAdvances(b0: Sides, side: Side, o: BbOrder, bound0: Bound, now: Sides, t: BbOrder, bound: Bound,
      es: seq<MatchEvent>)
    requires Sweeping(b0, side, o, bound0, now, Some(t), bound, es) && !b0.Has(o.no)
    requires now.Of(side) == [t] + b0.Of(side) && now.Of(Opposite(side)) != []
    requires !StopsAt(side, t, now.Of(Opposite(side)), bound)
    ensures var maker := now.Of(Opposite(side))[0];
      Sweeping(b0, side, o, bound0, AfterTrade(now, side),
               if Remaining(t) > Remaining(maker) then Some(TakerAfter(t, Remaining(maker))) else None,
               Next(bound), es + [FillOf(t, maker)])
  {
    hide Good, HasNo, Precedes, Sweep, InsertSorted, StopsAt, SameKeys;
    var opp := now.Of(Opposite(side));
    var maker := opp[0];
    var opp' := AfterTrade(now, side).Of(Opposite(side));
    TradeKeepsGood(b0, now, side);
    assert ([t] + b0.Of(side))[1..] == b0.Of(side);
    SweepOnce(side, t, opp, bound);
    if Remaining(t) > Remaining(maker) {
      var t' := TakerAfter(t, Remaining(maker));
      NotAmong(b0.Of(side), t);
      ReinsertTaker(side, b0.Of(side), t, t');
      assert AfterTrade(now, side).Of(side) == [t'] + b0.Of(side);
      var sw := Sweep(side, t', opp[1..], Next(bound));
      assert es + ([FillOf(t, maker)] + sw.fills) == (es + [FillOf(t, maker)]) + sw.fills;
    } else {
      assert AfterTrade(now, side).Of(side) == b0.Of(side);
    }
  }

  lemma TradeKeepsGood(b0: Sides, now: Sides, side: Side)
    requires now.Of(side) != [] && now.Of(Opposite(side)) != []
    requires Good(b0.With(Opposite(side), now.Of(Opposite(side))))
    ensures var opp, opp' := now.Of(Opposite(side)), AfterTrade(now, side).Of(Opposite(side));
      && Good(b0.With(Opposite(side), opp'))
      && forall no :: HasNo(opp', no) ==> HasNo(opp, no)
  {
    hide Good, HasNo, SameKeys, AfterTrade;
    var opp, opp' := now.Of(Opposite(side)), AfterTrade(now, side).Of(Opposite(side));
    TradeTail(now, side);
    var b := b0.With(Opposite(side), opp);
    TailKeeps(b, Opposite(side), opp');
    assert b.With(Opposite(side), opp') == b0.With(Opposite(side), opp');
    TailNumbers(opp, opp');
  }

  lemma TradeTail(now: Sides, side: Side)
    requires now.Of(side) != [] && now.Of(Opposite(side)) != []
    ensures var opp, opp' := now.Of(Opposite(side)), AfterTrade(now, side).Of(Opposite(side));
      |opp'| <= |opp| && SameKeys(opp', opp[|opp| - |opp'|..])
  {
    var opp, opp' := now.Of(Opposite(side)), AfterTrade(now, side).Of(Opposite(side));
    if Remaining(now.Of(side)[0]) < Remaining(opp[0]) {
      assert opp[0..] == opp;
      assert forall i :: 0 < i < |opp| ==> opp'[i] == opp[i];
    } else {
      assert opp' == opp[1..];
    }
  }

  lemma NotAmong(s: seq<BbOrder>, t: BbOrder)
    requires !HasNo(s, t.no)
    ensures t !in s
  {
  }

  lemma TailNumbers(s: seq<BbOrder>, r: seq<BbOrder>)
    requires |r| <= |s| && SameKeys(r, s[|s| - |r|..])
    ensures forall no :: HasNo(r, no) ==> HasNo(s, no)
  {
    forall no | HasNo(r, no) ensures HasNo(s, no) {
      var i :| 0 <= i < |r| && r[i].no == no;
      assert SameOrder(r[i], s[|s| - |r|..][i]);
      assert s[|s| - |r| + i].no == no;
    }
  }

  lemma ReinsertTaker(side: Side, s: seq<BbOrder>, t: BbOrder, t': BbOrder)
    requires InsertSorted(side, s, t) == [t] + s && SameOrder(t', t)
    requires s != [] ==> s[0] != t
    ensures InsertSorted(side, s, t') == [t'] + s
  {
    assert InsertSorted(side, s, t)[0] == t;
  }

  // ---------------------------------------------------------------- inserting the incoming order

  /** A new number goes onto its side. */
  method InsertNew(book: OrderBook, side: Side, o: BbOrder)
    requires Good(book.Book()) && !book.Book().Has(o.no) && SideOf(o) == Some(side)
    modifies book
    ensures book.Book() == old(book.Book()).With(side, InsertSorted(side, old(book.Book()).Of(side), o))
  {
    hide InsertSorted;
    ghost var b := book.Book();
    forall x | x in b.Of(side) ensures !SameKey(x, o) {
      var i :| 0 <= i < |b.Of(side)| && b.Of(side)[i] == x;
      assert HasNo(b.Of(side), x.no);
    }
    var _ := book.Insert(o);
  }

  /** One `ratherThan` step while the incoming order is at the front. */
  method Advance(book: OrderBook, side: Side, ghost b0: Sides, ghost o: BbOrder, ghost bound0: Bound,
      ghost t: BbOrder, ghost bound: Bound, es: seq<MatchEvent>)
    returns (es': seq<MatchEvent>, ghost t': Option<BbOrder>)
    requires Sweeping(b0, side, o, bound0, book.Book(), Some(t), bound, es)
    requires !b0.Has(o.no) && SideOf(o) == Some(side) && o.form != FORM_FOK
    requires book.Book().Of(side) == [t] + b0.Of(side)
    requires !StopsAt(side, t, book.Book().Of(Opposite(side)), bound)
    modifies book
    ensures Sweeping(b0, side, o, bound0, book.Book(), t', Next(bound), es')
    ensures |book.Book().Of(side)| + |book.Book().Of(Opposite(side))|
        < old(|book.Book().Of(side)| + |book.Book().Of(Opposite(side))|)
    ensures |es'| == |es| + 1
  {
    hide Sweep, InsertSorted, Good, Sides.Ok, HasNo;
    ghost var now := book.Book();
    SweepingOk(b0, side, o, bound0, now, Some(t), bound, es);
    SweepAdvances(b0, side, o, bound0, now, t, bound, es);
    ghost var maker := now.Of(Opposite(side))[0];
    t' := if Remaining(t) > Remaining(maker) then Some(TakerAfter(t, Remaining(maker))) else None;
    var r := RatherThan(book, side);
    es' := es + [r.event];
  }

  // ---------------------------------------------------------------- limit orders

  method HandleLimit(book: OrderBook, side: Side, o: BbOrder) returns (es: seq<MatchEvent>)
    requires Good(book.Book()) && !book.Book().Has(o.no) && SideOf(o) == Some(side) && o.form != FORM_FOK
    modifies book
    ensures (book.Book(), es) == LimitStep(old(book.Book()), side, o)
  {
    hide Sweep, InsertSorted, Good, Sides.Ok, HasNo;
    ghost var b0 := book.Book();
    InsertNew(book, side, o);
    SweepBegins(b0, side, o, Priced);
    es := [];
    ghost var t := Some(o);
    while true
      invariant Sweeping(b0, side, o, Priced, book.Book(), t, Priced, es)
      decreases |book.Book().Of(side)| + |book.Book().Of(Opposite(side))|
    {
      if book.Book().Of(side) == [] {
        NothingLeft(b0, side, t, book.Book());
        break;
      }
      if book.Book().Of(Opposite(side)) == [] {
        break;
      }
      var mine, opp := book.First(side).value.price, book.First(Opposite(side)).value.price;
      CrossingFront(b0, side, o, Priced, book.Book(), t, Priced, es);
      if !Reaches(side, mine, opp) {
        break;
      }
      es, t := Advance(book, side, b0, o, Priced, t.value, Priced, es);
    }
    LimitDone(b0, side, o, book.Book(), t, es);
  }

  lemma NothingLeft(b0: Sides, side: Side, t: Option<BbOrder>, now: Sides)
    requires t.Some? ==> now.Of(side) == InsertSorted(side, b0.Of(side), t.value)
    requires now.Of(side) == []
    ensures t == None
  {
  }

  lemma LimitDone(b0: Sides, side: Side, o: BbOrder, now: Sides, t: Option<BbOrder>, es: seq<MatchEvent>)
    requires Sweeping(b0, side, o, Priced, now, t, Priced, es)
    requires t.Some? ==> StopsAt(side, t.value, now.Of(Opposite(side)), Priced)
    ensures (now, es) == LimitStep(b0, side, o)
  {
    hide InsertSorted, Good, HasNo;
    if t.Some? {
      assert es + [] == es;
    }
  }

  // ---------------------------------------------------------------- PostOnly, IOC, FOK

  /** Revoking what is left of the incoming order leaves its side as it was before the order. */
  method RevokeRemainder(book: OrderBook, side: Side, ghost b0: Sides, o: BbOrder, ghost bound0: Bound,
      ghost t: Option<BbOrder>, ghost bound: Bound, es: seq<MatchEvent>, reason: string)
    returns (es': seq<MatchEvent>)
    requires Sweeping(b0, side, o, bound0, book.Book(), t, bound, es)
    requires !b0.Has(o.no) && SideOf(o) == Some(side)
    modifies book
    ensures book.Book() == b0.With(Opposite(side), old(book.Book()).Of(Opposite(side)))
    ensures es' == es + RevokeRest(t, reason)
  {
    hide Sweep, InsertSorted, Good, Sides.Ok, HasNo, WithoutNo;
    ghost var now := book.Book();
    SweepingOk(b0, side, o, bound0, now, t, bound, es);
    if t == None {
      WithoutAbsentNo(now.Of(side), o.no);
    } else {
      InsertedByNo(side, b0.Of(side), t.value);
    }
    var revoked := RevokeByNo(book, side, o.no, reason);
    es' := es + revoked;
  }

  lemma {:induction false} InsertedByNo(side: Side, s: seq<BbOrder>, o: BbOrder)
    requires !HasNo(s, o.no)
    ensures HasNo(InsertSorted(side, s, o), o.no) && ByNo(InsertSorted(side, s, o), o.no) == o
  {
    RemoveInserted(side, s, o);
    var r := InsertSorted(side, s, o);
    InsertMembers(side, s, o);
    var x := ByNo(r, o.no);
    assert forall i :: 0 <= i < |s| ==> s[i].no != o.no;
  }

  /** The height loop for PostOnly (3), IOC (4) and FOK (5) orders. */
  method HandleHeight(book: OrderBook, side: Side, o: BbOrder) returns (es: seq<MatchEvent>)
    requires Good(book.Book()) && !book.Book().Has(o.no) && SideOf(o) == Some(side)
    requires o.form == FORM_POST_ONLY || o.form == FORM_IOC || o.form == FORM_FOK
    modifies book
    ensures (book.Book(), es) ==
      if o.form == FORM_POST_ONLY then PostOnlyStep(old(book.Book()), side, o)
      else if o.form == FORM_IOC then IocStep(old(book.Book()), side, o)
      else FokStep(old(book.Book()), side, o)
  {
    hide Sweep, InsertSorted, Good, Sides.Ok, HasNo;
    ghost var b0 := book.Book();
    InsertNew(book, side, o);
    SweepBegins(b0, side, o, Priced);
    es := [];
    ghost var t := Some(o);
    WithSelf(b0, Opposite(side));
    assert forall x: seq<MatchEvent> {:trigger [] + x} :: [] + x == x;
    var reason := if o.form == FORM_IOC then "ioc_remainder" else "fok_fail";
    if o.form == FORM_POST_ONLY {
      var best := book.First(Opposite(side));
      if best.Some? && Reaches(side, o.price, best.value.price) {
        es := RevokeRemainder(book, side, b0, o, Priced, t, Priced, es, "post_only");
      }
      return;
    }
    while true
      invariant Sweeping(b0, side, o, Priced, book.Book(), t, Priced, es)
      invariant o.form == FORM_FOK ==> t == Some(o) && es == [] && book.Book() == b0.With(side, InsertSorted(side,
          b0.Of(side), o))
      decreases |book.Book().Of(side)| + |book.Book().Of(Opposite(side))|
    {
      if book.Book().Of(Opposite(side)) == [] {
        HeightDone(b0, side, o, book.Book(), t, es);
        es := RevokeRemainder(book, side, b0, o, Priced, t, Priced, es, reason);
        break;
      }
      if book.Book().Of(side) == [] {
        NothingLeft(b0, side, t, book.Book());
        HeightDone(b0, side, o, book.Book(), t, es);
        Restored(b0, side, book.Book());
        assert es + [] == es;
        break;
      }
      SweepingOk(b0, side, o, Priced, book.Book(), t, Priced, es);
      CrossingFront(b0, side, o, Priced, book.Book(), t, Priced, es);
      if o.form == FORM_IOC && !book.Book().Has(o.no) {
        IocGone(book.Book(), side, o.no);
        HeightDone(b0, side, o, book.Book(), t, es);
        Restored(b0, side, book.Book());
        assert es + [] == es;
        break;
      }
      var best, opp := book.First(side).value, book.First(Opposite(side)).value;
      if o.form == FORM_IOC && best.no != o.no {
        NotOursNotCrossing(b0, side, o, book.Book(), t, es);
        HeightDone(b0, side, o, book.Book(), t, es);
        es := RevokeRemainder(book, side, b0, o, Priced, t, Priced, es, "ioc_remainder");
        break;
      }
      if !Reaches(side, best.price, opp.price) {
        HeightDone(b0, side, o, book.Book(), t, es);
        es := RevokeRemainder(book, side, b0, o, Priced, t, Priced, es, reason);
        break;
      }
      if o.form == FORM_FOK {
        es := FokHandle(book, side, b0, o);
        break;
      }
      es, t := Advance(book, side, b0, o, Priced, t.value, Priced, es);
    }
  }

  lemma Restored(b0: Sides, side: Side, now: Sides)
    requires now.Of(side) == b0.Of(side)
    ensures now == b0.With(Opposite(side), now.Of(Opposite(side)))
  {
  }

  lemma WithSelf(b: Sides, side: Side)
    ensures b.With(side, b.Of(side)) == b
  {
  }

  lemma IocGone(b: Sides, side: Side, no: string)
    requires !b.Has(no)
    ensures !HasNo(b.Of(side), no)
  {
  }

  /** If the best order of the side is another one, the incoming order does not cross. */
  lemma NotOursNotCrossing(b0: Sides, side: Side, o: BbOrder, now: Sides, t: Option<BbOrder>, es: seq<MatchEvent>)
    requires Sweeping(b0, side, o, Priced, now, t, Priced, es) && !b0.Has(o.no)
    requires now.Of(side) != [] && now.Of(Opposite(side)) != [] && now.Of(side)[0].no != o.no
    ensures t.Some? ==> StopsAt(side, t.value, now.Of(Opposite(side)), Priced)
  {
    hide Sweep, InsertSorted, Good, HasNo;
    CrossingFront(b0, side, o, Priced, now, t, Priced, es);
  }

  /** When the sweep cannot go on, its result is what has been done so far. */
  lemma HeightDone(b0: Sides, side: Side, o: BbOrder, now: Sides, t: Option<BbOrder>, es: seq<MatchEvent>)
    requires Sweeping(b0, side, o, Priced, now, t, Priced, es)
    requires t.Some? ==> StopsAt(side, t.value, now.Of(Opposite(side)), Priced)
    ensures Sweep(side, o, b0.Of(Opposite(side)), Priced) == Swept(t, now.Of(Opposite(side)), es)
  {
    hide InsertSorted, Good, HasNo;
    if t.Some? {
      assert es + [] == es;
    }
  }

  // ---------------------------------------------------------------- FOK

  datatype FokWalkResult = Done(events: seq<MatchEvent>) | Fail(event: MatchEvent)

  /** The crossing FOK order at the front of its side: fill it completely or restore the book. */
  method FokHandle(book: OrderBook, side: Side, ghost b0: Sides, ghost o: BbOrder) returns (es: seq<MatchEvent>)
    requires Good(b0) && !b0.Has(o.no) && SideOf(o) == Some(side)
    requires book.Book() == b0.With(side, [o] + b0.Of(side))
    requires b0.Of(Opposite(side)) != [] && Reaches(side, o.price, b0.Of(Opposite(side))[0].price)
    modifies book
    ensures (book.Book(), es) == FokStep(b0, side, o)
  {
    hide WithoutNo, InsertSorted, HasNo, Precedes, Good, Sides.Ok, SameKey;
    var taker, maker := book.First(side).value, book.First(Opposite(side)).value;
    var lastTaker, lastMaker := Remaining(taker), Remaining(maker);
    ghost var mine, opp := b0.Of(side), b0.Of(Opposite(side));
    FokFront(b0, side, o);
    if lastTaker > lastMaker {
      WalkBegins(b0, side, o);
      var r := FokWalk(book, side, taker, taker.no, [], [], b0, o);
      es := match r case Done(events) => events case Fail(event) => [event];
    } else if lastTaker == lastMaker {
      var _ := book.RemoveByNo(Opposite(side), maker.no);
      var _ := book.RemoveByNo(side, taker.no);
      es := [FillOf(taker, maker)];
    } else {
      var _ := book.RemoveByNo(side, taker.no);
      var _ := book.RemoveByNo(Opposite(side), maker.no);
      var _ := book.Insert(MakerAfter(maker, lastTaker));
      es := [FillOf(taker, maker)];
    }
  }

  lemma FokFront(b0: Sides, side: Side, o: BbOrder)
    requires Good(b0) && !b0.Has(o.no) && b0.Of(Opposite(side)) != []
    ensures WithoutNo([o] + b0.Of(side), o.no) == b0.Of(side)
    ensures var opp := b0.Of(Opposite(side));
      && SideOf(opp[0]) == Some(Opposite(side))
      && WithoutNo(opp, opp[0].no) == opp[1..]
      && InsertSorted(Opposite(side), opp[1..], MakerAfter(opp[0], Remaining(o)))
          == [MakerAfter(opp[0], Remaining(o))] + opp[1..]
      && forall x :: x in opp[1..] ==> !SameKey(x, MakerAfter(opp[0], Remaining(o)))
  {
    FrontAgain(Opposite(side), b0.Of(Opposite(side)), MakerAfter(b0.Of(Opposite(side))[0], Remaining(o)));
  }

  /** Part-way through the walk: `list` are the makers consumed so far, in their original state. */
  ghost predicate Walking(b0: Sides, side: Side, o: BbOrder, now: Sides, taker: BbOrder, es: seq<MatchEvent>,
      list: seq<BbOrder>) {
    var whole := Sweep(side, o, b0.Of(Opposite(side)), Priced);
    var opp := now.Of(Opposite(side));
    && list + opp == b0.Of(Opposite(side))
    && now.Of(side) == [taker] + b0.Of(side)
    && SameOrder(taker, o)
    && |es| == |list|
    && (list != [] ==> taker.remainingNumber == Remaining(taker) > 0.0)
    && exists fills :: es == WalkFills(fills) && whole == PrependFills(fills, Sweep(side, taker, opp, Priced))
  }

  lemma WalkBegins(b0: Sides, side: Side, o: BbOrder)
    ensures Walking(b0, side, o, b0.With(side, [o] + b0.Of(side)), o, [], [])
  {
    hide Sweep;
    var sw := Sweep(side, o, b0.Of(Opposite(side)), Priced);
    assert WalkFills([]) == [];
    assert sw == PrependFills([], sw);
  }

  /** Restore the consumed makers, then take the FOK order off the book. */
  method Rollback(book: OrderBook, side: Side, no: string, list: seq<BbOrder>, ghost b0: Sides, ghost taker: BbOrder)
    returns (event: MatchEvent)
    requires Good(b0) && taker.no == no
    requires list + book.Book().Of(Opposite(side)) == b0.Of(Opposite(side))
    requires book.Book().Of(side) == [taker] + b0.Of(side)
    modifies book
    ensures book.Book() == b0
    ensures event == RevokeOf(taker, "fok_fail")
  {
    hide InsertSorted, Precedes, WithoutNo, HasNo, SameKey, ByNo, SortedSide, DistinctNos, OnSide;
    ghost var rest := book.Book().Of(Opposite(side));
    var i := 0;
    while i < |list|
      invariant 0 <= i <= |list|
      invariant book.Book().Of(Opposite(side)) == list[..i] + rest
      invariant book.Book().Of(side) == [taker] + b0.Of(side)
    {
      RestoreOne(Opposite(side), list, rest, i);
      var _ := book.RemoveByNo(Opposite(side), list[i].no);
      var _ := book.Insert(list[i]);
      assert list[..i] + [list[i]] == list[..i + 1];
      i := i + 1;
    }
    assert list[..i] == list;
    TakeFirst([taker] + b0.Of(side));
    var revoked := RevokeByNo(book, side, no, "fok_fail");
    event := revoked[0];
  }

  lemma TakeFirst(s: seq<BbOrder>)
    requires s != []
    ensures HasNo(s, s[0].no) && ByNo(s, s[0].no) == s[0] && WithoutNo(s, s[0].no) == s[1..]
  {
  }

  lemma RestoreOne(side: Side, list: seq<BbOrder>, rest: seq<BbOrder>, i: nat)
    requires SortedSide(side, list + rest) && DistinctNos(list + rest) && OnSide(side, list + rest) && i < |list|
    ensures SideOf(list[i]) == Some(side)
    ensures WithoutNo(list[..i] + rest, list[i].no) == list[..i] + rest
    ensures forall x :: x in list[..i] + rest ==> !SameKey(x, list[i])
    ensures InsertSorted(side, list[..i] + rest, list[i]) == list[..i] + [list[i]] + rest
  {
    hide InsertSorted, WithoutNo, Precedes;
    var all, now, o := list + rest, list[..i] + rest, list[i];
    assert all[i] == o;
    forall k | 0 <= k < |now| ensures now[k].no != o.no {
      var k' := if k < i then k else k - i + |list|;
      assert now[k] == all[k'] && k' != i;
    }
    WithoutAbsentNo(now, o.no);
    forall k | 0 <= k < i ensures !Precedes(side, o, list[k]) {
      assert all[k] == list[k] && Precedes(side, all[k], all[i]);
      ComparatorTotal(side, all[k], all[i]);
    }
    if rest != [] {
      assert all[|list|] == rest[0] && Precedes(side, all[i], all[|list|]);
    }
    InsertBetween(side, list[..i], rest, o);
  }

  method FokWalk(book: OrderBook, side: Side, taker: BbOrder, no: string, es: seq<MatchEvent>, list: seq<BbOrder>,
      ghost b0: Sides, ghost o: BbOrder)
    returns (r: FokWalkResult)
    requires Good(b0) && !b0.Has(o.no) && SideOf(o) == Some(side) && no == o.no
    requires Walking(b0, side, o, book.Book(), taker, es, list)
    requires list == [] ==>
      !StopsAt(side, taker, book.Book().Of(Opposite(side)), Priced)
          && Remaining(taker) > Remaining(book.Book().Of(Opposite(side))[0])
    modifies book
    ensures var sw := Sweep(side, o, b0.Of(Opposite(side)), Priced);
      match r
      case Done(events) => sw.taker == None && |sw.fills| != 1 && events == WalkFills(sw.fills)
          && book.Book() == b0.With(Opposite(side), sw.rest)
      case Fail(event) => sw.taker.Some? && book.Book() == b0 && event == RevokeOf(sw.taker.value, "fok_fail")
    decreases |book.Book().Of(Opposite(side))|
  {
    hide InsertSorted, Precedes, WithoutNo, HasNo, Sweep, Good, WalkFills;
    ghost var now := book.Book();
    ghost var opp := now.Of(Opposite(side));
    var best := book.First(Opposite(side));
    if best == None {
      WalkStops(b0, side, o, now, taker, es, list);
      var event := Rollback(book, side, no, list, b0, taker);
      return Fail(event);
    }
    var maker := best.value;
    var lastTaker, lastMaker := Remaining(taker), Remaining(maker);
    if !Reaches(side, taker.price, maker.price) {
      if list == [] {
        assert false;
      }
      WalkStops(b0, side, o, now, taker, es, list);
      if taker.remainingNumber > 0.0 {
        var event := Rollback(book, side, no, list, b0, taker);
        return Fail(event);
      }
      return Done(es);
    }
    WalkFront(b0, side, o, now, taker, es, list);
    if lastTaker < lastMaker {
      WalkPartial(b0, side, o, now, taker, es, list);
      var _ := book.RemoveByNo(Opposite(side), maker.no);
      var _ := book.RemoveByNo(side, taker.no);
      var _ := book.Insert(MakerAfter(maker, lastTaker));
      return Done(es + [WalkFill(FillOf(taker, maker))]);
    }
    var taker' := TakerAfter(taker, lastMaker);
    WalkNext(b0, side, o, now, taker, es, list);
    CrossingReinsert(b0, side, taker', maker);
    var _ := book.RemoveByNo(Opposite(side), maker.no);
    var _ := book.RemoveByNo(side, taker.no);
    var _ := book.Insert(taker');
    assert book.Book().Of(Opposite(side)) == opp[1..];
    var es' := es + [WalkFill(FillOf(taker, maker))];
    if lastTaker > lastMaker {
      if book.Book().Of(Opposite(side)) == [] {
        WalkStops(b0, side, o, book.Book(), taker', es', list + [maker]);
        var event := Rollback(book, side, no, list + [maker], b0, taker');
        return Fail(event);
      }
      r := FokWalk(book, side, taker', no, es', list + [maker], b0, o);
      return;
    }
    TakeFirst([taker'] + b0.Of(side));
    var _ := book.RemoveByNo(side, taker'.no);
    return Done(es');
  }

  /** Nothing more crosses: the sweep ends with the taker left over. */
  lemma WalkStops(b0: Sides, side: Side, o: BbOrder, now: Sides, taker: BbOrder, es: seq<MatchEvent>,
      list: seq<BbOrder>)
    requires Walking(b0, side, o, now, taker, es, list)
    requires StopsAt(side, taker, now.Of(Opposite(side)), Priced)
    ensures Sweep(side, o, b0.Of(Opposite(side)), Priced).taker == Some(taker)
  {
  }

  lemma WalkFront(b0: Sides, side: Side, o: BbOrder, now: Sides, taker: BbOrder, es: seq<MatchEvent>,
      list: seq<BbOrder>)
    requires Good(b0) && !b0.Has(o.no) && Walking(b0, side, o, now, taker, es, list)
    requires now.Of(Opposite(side)) != []
    ensures var opp := now.Of(Opposite(side));
      && WithoutNo(now.Of(side), taker.no) == b0.Of(side)
      && WithoutNo(opp, opp[0].no) == opp[1..]
      && SideOf(opp[0]) == Some(Opposite(side))
      && InsertSorted(Opposite(side), opp[1..], MakerAfter(opp[0], Remaining(taker))) == [MakerAfter(opp[0],
          Remaining(taker))] + opp[1..]
      && (forall x :: x in opp[1..] ==> !SameKey(x, MakerAfter(opp[0], Remaining(taker))))
  {
    hide InsertSorted, Precedes, Sweep;
    var all, opp := b0.Of(Opposite(side)), now.Of(Opposite(side));
    assert opp == all[|list|..];
    assert SortedSide(Opposite(side), opp) && DistinctNos(opp);
    FrontAgain(Opposite(side), opp, MakerAfter(opp[0], Remaining(taker)));
    TakeFirst(opp);
    TakeFirst(now.Of(side));
  }

  lemma WalkPartial(b0: Sides, side: Side, o: BbOrder, now: Sides, taker: BbOrder, es: seq<MatchEvent>,
      list: seq<BbOrder>)
    requires Walking(b0, side, o, now, taker, es, list) && list != []
    requires !StopsAt(side, taker, now.Of(Opposite(side)), Priced)
    requires Remaining(taker) < Remaining(now.Of(Opposite(side))[0])
    ensures var opp := now.Of(Opposite(side));
      var sw := Sweep(side, o, b0.Of(Opposite(side)), Priced);
      && sw.taker == None && sw.rest == [MakerAfter(opp[0], Remaining(taker))] + opp[1..]
      && WalkFills(sw.fills) == es + [WalkFill(FillOf(taker, opp[0]))] && |sw.fills| != 1
  {
    var opp := now.Of(Opposite(side));
    var fills :| es == WalkFills(fills) && Sweep(side, o, b0.Of(Opposite(side)), Priced) == PrependFills(fills,
        Sweep(side, taker, opp, Priced));
    SweepOnce(side, taker, opp, Priced);
    WalkAppend(fills, FillOf(taker, opp[0]));
  }

  lemma WalkAppend(fills: seq<MatchEvent>, e: MatchEvent)
    ensures WalkFills(fills + [e]) == WalkFills(fills) + [WalkFill(e)]
  {
  }

  /** A crossing taker goes back to the front of its side. */
  lemma CrossingReinsert(b0: Sides, side: Side, t: BbOrder, maker: BbOrder)
    requires Good(b0) && !b0.Has(t.no) && maker in b0.Of(Opposite(side)) && Reaches(side, t.price, maker.price)
    ensures InsertSorted(side, b0.Of(side), t) == [t] + b0.Of(side)
    ensures forall x :: x in b0.Of(side) ==> !SameKey(x, t)
  {
    var j :| 0 <= j < |b0.Of(Opposite(side))| && b0.Of(Opposite(side))[j] == maker;
    var mine := b0.Of(side);
    forall x | x in mine ensures !SameKey(x, t) {
      var i :| 0 <= i < |mine| && mine[i] == x;
      assert HasNo(mine, x.no);
    }
    if mine != [] {
      assert !Reaches(side, mine[0].price, maker.price);
    }
  }

  /** Consuming the whole maker: the walk goes on, or ends exactly when nothing is left of the taker. */
  lemma WalkNext(b0: Sides, side: Side, o: BbOrder, now: Sides, taker: BbOrder, es: seq<MatchEvent>, list: seq<BbOrder>)
    requires Walking(b0, side, o, now, taker, es, list)
    requires !StopsAt(side, taker, now.Of(Opposite(side)), Priced)
    requires Remaining(taker) >= Remaining(now.Of(Opposite(side))[0])
    requires list == [] ==> Remaining(taker) > Remaining(now.Of(Opposite(side))[0])
    ensures var opp := now.Of(Opposite(side));
      var m := Remaining(opp[0]);
      var sw := Sweep(side, o, b0.Of(Opposite(side)), Priced);
      && (Remaining(taker) > m ==>
            Walking(b0, side, o, b0.With(side, [TakerAfter(taker, m)] + b0.Of(side)).With(Opposite(side), opp[1..]),
                    TakerAfter(taker, m), es + [WalkFill(FillOf(taker, opp[0]))], list + [opp[0]]))
      && (Remaining(taker) == m ==>
            sw.taker == None && sw.rest == opp[1..] && |sw.fills| != 1
            && WalkFills(sw.fills) == es + [WalkFill(FillOf(taker, opp[0]))])
  {
    hide Sweep, StopsAt, WalkFills;
    var opp := now.Of(Opposite(side));
    var whole := Sweep(side, o, b0.Of(Opposite(side)), Priced);
    var fills :| es == WalkFills(fills) && whole == PrependFills(fills, Sweep(side, taker, opp, Priced));
    SweepOnce(side, taker, opp, Priced);
    WalkAppend(fills, FillOf(taker, opp[0]));
    WalkLength(fills);
    if Remaining(taker) > Remaining(opp[0]) {
      var t' := TakerAfter(taker, Remaining(opp[0]));
      assert (list + [opp[0]]) + opp[1..] == list + opp;
      var sw := Sweep(side, t', opp[1..], Priced);
      assert fills + ([FillOf(taker, opp[0])] + sw.fills) == (fills + [FillOf(taker, opp[0])]) + sw.fills;
      assert whole == PrependFills(fills + [FillOf(taker, opp[0])], sw);
    }
  }

  lemma WalkLength(fills: seq<MatchEvent>)
    ensures |WalkFills(fills)| == |fills|
  {
  }

  // ---------------------------------------------------------------- market orders

  /** The market order goes ahead of everything on its side. */
  predicate Leads(side: Side, mine: seq<BbOrder>, t: BbOrder) {
    mine == [] || Precedes(side, t, mine[0])
  }

  /** Take the rest of the market order off the book, for the reason given. */
  method StopMarket(book: OrderBook, side: Side, o: BbOrder, ghost b0: Sides, ghost t: Option<BbOrder>,
      es: seq<MatchEvent>, reason: string)
    returns (es': seq<MatchEvent>)
    requires Good(b0) && !b0.Has(o.no) && SideOf(o) == Some(side) && o.form == FORM_MARKET && reason != ""
    requires |es| <= GearOf(o)
    requires Sweeping(b0, side, MarketOrder(side, o), Geared(GearOf(o)), book.Book(), t, Geared(GearOf(o) - |es|), es)
    requires es == [] ==> t == Some(MarketOrder(side, o)) && book.Book() == b0.With(side, InsertSorted(side,
        b0.Of(side), MarketOrder(side, o)))
    requires es != [] ==> Leads(side, b0.Of(side), MarketOrder(side, o)) && b0.Of(Opposite(side)) != []
    requires t.Some? ==> StopReason(b0, side, o, book.Book(), |es|, reason)
    modifies book
    ensures (book.Book(), es') == MarketStep(b0, side, o)
  {
    hide Sweep, InsertSorted, Good, Sides.Ok, HasNo, Precedes, MarketStep, Leads;
    ghost var now := book.Book();
    es' := RevokeRemainder(book, side, b0, MarketOrder(side, o), Geared(GearOf(o)), t, Geared(GearOf(o) - |es|), es,
        reason);
    MarketDone(b0, side, o, now, t, GearOf(o) - |es|, es, reason);
  }

  method HandleMarket(book: OrderBook, side: Side, o: BbOrder) returns (es: seq<MatchEvent>)
    requires Good(book.Book()) && !book.Book().Has(o.no) && SideOf(o) == Some(side) && o.form == FORM_MARKET
    modifies book
    ensures (book.Book(), es) == MarketStep(old(book.Book()), side, o)
  {
    hide Sweep, InsertSorted, Good, Sides.Ok, HasNo, Precedes, MarketStep, Leads;
    ghost var b0 := book.Book();
    var order := MarketOrder(side, o);
    var gear := GearOf(o);
    InsertNew(book, side, order);
    SweepBegins(b0, side, order, Geared(gear));
    es := [];
    ghost var t := Some(order);
    var fillCount: nat := 0;
    while true
      invariant fillCount == |es| < gear
      invariant Sweeping(b0, side, order, Geared(gear), book.Book(), t, Geared(gear - fillCount), es)
      invariant es != [] ==> Leads(side, b0.Of(side), order) && b0.Of(Opposite(side)) != []
      invariant es == [] ==> t == Some(order) && book.Book() == b0.With(side, InsertSorted(side, b0.Of(side), order))
      decreases |book.Book().Of(side)| + |book.Book().Of(Opposite(side))|
    {
      if book.Book().Of(side) == [] {
        NothingLeft(b0, side, t, book.Book());
        MarketDone(b0, side, o, book.Book(), t, gear - fillCount, es, "");
        break;
      }
      if book.Book().Of(Opposite(side)) == [] {
        es := StopMarket(book, side, o, b0, t, es, "market_empty");
        break;
      }
      var best := book.First(side).value;
      MarketFront(b0, side, order, book.Book(), t);
      if best.form != FORM_MARKET {
        MarketDone(b0, side, o, book.Book(), t, gear - fillCount, es, "");
        break;
      }
      if best.no != order.no {
        es := StopMarket(book, side, o, b0, t, es, "market_blocked");
        break;
      }
      var progress := !(side == Buy && book.First(Opposite(side)).value.form == FORM_MARKET);
      if progress {
        es, t := Advance(book, side, b0, order, Geared(gear), t.value, Geared(gear - fillCount), es);
        fillCount := fillCount + 1;
      }
      if fillCount >= gear {
        es := StopMarket(book, side, o, b0, t, es, "market_gear");
        break;
      }
      if !progress {
        es := StopMarket(book, side, o, b0, t, es, "market_blocked");
        break;
      }
    }
  }

  /** Why a market order with something left stops after `n` fills. */
  ghost predicate StopReason(b0: Sides, side: Side, o: BbOrder, now: Sides, n: nat, reason: string) {
    var leads := Leads(side, b0.Of(side), MarketOrder(side, o));
    var opp := now.Of(Opposite(side));
    || (opp == [] && reason == "market_empty" && n < GearOf(o))
    || (n == GearOf(o) && reason == "market_gear")
    || (side == Buy && leads && opp != [] && opp[0].form == FORM_MARKET && n < GearOf(o) && reason == "market_blocked")
    || (n == 0 && opp != [] && !leads && b0.Of(side) != [] && b0.Of(side)[0].form == FORM_MARKET
        && reason == "market_blocked")
  }

  /** Who is at the front of the market order's side. */
  lemma MarketFront(b0: Sides, side: Side, order: BbOrder, now: Sides, t: Option<BbOrder>)
    requires t.Some? ==> now.Of(side) == InsertSorted(side, b0.Of(side), t.value) && SameOrder(t.value, order)
    requires t == None ==> now.Of(side) == b0.Of(side)
    requires now.Of(side) != [] && !HasNo(b0.Of(side), order.no)
    ensures t.Some? && Leads(side, b0.Of(side), order) ==> now.Of(side) == [t.value] + b0.Of(side)
    ensures t.Some? && !Leads(side, b0.Of(side), order) ==> b0.Of(side) != [] && now.Of(side)[0] == b0.Of(side)[0]
    ensures t == None || !Leads(side, b0.Of(side), order) ==> now.Of(side)[0].no != order.no
  {
    var mine := b0.Of(side);
    assert forall i :: 0 <= i < |mine| ==> mine[i].no != order.no;
  }

  /** Putting the pieces together once the loop stops; `es` are the fills, `reason` the revoke if any. */
  lemma MarketDone(b0: Sides, side: Side, o: BbOrder, now: Sides, t: Option<BbOrder>, left: nat, es: seq<MatchEvent>,
      reason: string)
    requires Good(b0) && !b0.Has(o.no) && SideOf(o) == Some(side) && o.form == FORM_MARKET
    requires Sweeping(b0, side, MarketOrder(side, o), Geared(GearOf(o)), now, t, Geared(left), es)
    requires left == GearOf(o) - |es|
    requires es == [] ==> t == Some(MarketOrder(side, o)) && now == b0.With(side, InsertSorted(side, b0.Of(side),
        MarketOrder(side, o)))
    requires es != [] ==> Leads(side, b0.Of(side), MarketOrder(side, o)) && b0.Of(Opposite(side)) != []
    requires t.Some? && reason != "" ==> StopReason(b0, side, o, now, |es|, reason)
    requires reason == "" && t.Some? ==>
      && es == [] && now.Of(Opposite(side)) != []
      && !Leads(side, b0.Of(side), MarketOrder(side, o)) && b0.Of(side)[0].form != FORM_MARKET
    ensures MarketStep(b0, side, o) ==
      (if reason == "" then (now, es)
       else (b0.With(Opposite(side), now.Of(Opposite(side))), es + RevokeRest(t, reason)))
  {
    hide InsertSorted, Good, HasNo, Precedes;
    WithSelf(b0, Opposite(side));
    assert es + [] == es;
    assert [] + RevokeRest(t, reason) == RevokeRest(t, reason);
    if t == None {
      Restored(b0, side, now);
    } else if Leads(side, b0.Of(side), MarketOrder(side, o)) {
      assert StopsAt(side, t.value, now.Of(Opposite(side)), Geared(left));
      assert Sweep(side, MarketOrder(side, o), b0.Of(Opposite(side)), Geared(GearOf(o)))
          == Swept(t, now.Of(Opposite(side)), es);
    }
  }
}
