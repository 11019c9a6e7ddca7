/**
 The Java-equivalent engine as a pure step on two sorted sides. Every order form is a
 single sweep over the opposite side from its best order, plus what happens to the rest.
 */
module McSpec {
  import opened Common
  import opened HpTypes
  import opened McTypes
  import opened McBook

  const MARKET_BUY_PRICE: real := 2147483647.0

  /** A taker at `price` on `side` may trade with a maker at `maker`. */
  predicate Reaches(side: Side, price: real, maker: real) {
    if side == Buy then price >= maker else price <= maker
  }

  /** What bounds a sweep: the taker's own price, or a number of fills. */
  datatype Bound = Priced | Geared(left: nat)

  predicate StopsAt(side: Side, taker: BbOrder, opp: seq<BbOrder>, bound: Bound) {
    || opp == []
    || (bound.Priced? && !Reaches(side, taker.price, opp[0].price))
    || (bound.Geared? && (bound.left == 0 || (side == Buy && opp[0].form == FORM_MARKET)))
  }

  function Next(bound: Bound): Bound
    requires bound.Geared? ==> bound.left > 0
  {
    if bound.Priced? then bound else Geared(bound.left - 1)
  }

  function TakerAfter(o: BbOrder, qty: real): BbOrder {
    o.(consumed := o.consumed + qty, remainingNumber := o.trust - (o.consumed + qty),
       status := STATUS_PART, currentDeal := qty)
  }

  function MakerAfter(o: BbOrder, qty: real): BbOrder {
    o.(consumed := o.consumed + qty, remainingNumber := o.trust - (o.consumed + qty))
  }

  /** The fill of the taker against one maker: the smaller remainder, at the maker's price. */
  function FillOf(taker: BbOrder, maker: BbOrder): MatchEvent {
    var t, m := Remaining(taker), Remaining(maker);
    McFill(taker.symbol, taker.no, maker.no, taker.userType, maker.userType, maker.price,
           if t > m then m else t,
           if t > m then t - m else 0.0,
           if t < m then m - t else 0.0,
           if t > m then STATUS_PART else STATUS_SUCCESS,
           if t < m then STATUS_PART else STATUS_SUCCESS)
  }

  datatype Swept = Swept(taker: Option<BbOrder>, rest: seq<BbOrder>, fills: seq<MatchEvent>)

  /** Consume `opp` from its front; the taker is `None` in the result once it is fully filled. */
  function Sweep(side: Side, taker: BbOrder, opp: seq<BbOrder>, bound: Bound): Swept
    decreases |opp|
  {
    if StopsAt(side, taker, opp, bound) then Swept(Some(taker), opp, [])
    else
      var t, m := Remaining(taker), Remaining(opp[0]);
      if t > m then
        var sw := Sweep(side, TakerAfter(taker, m), opp[1..], Next(bound));
        Swept(sw.taker, sw.rest, [FillOf(taker, opp[0])] + sw.fills)
      else if t < m then
        Swept(None, [MakerAfter(opp[0], t)] + opp[1..], [FillOf(taker, opp[0])])
      else
        Swept(None, opp[1..], [FillOf(taker, opp[0])])
  }

  function RevokeOf(o: BbOrder, reason: string): MatchEvent {
    McRevoke(o.no, o.symbol, Remaining(o), reason)
  }

  function RevokeRest(taker: Option<BbOrder>, reason: string): seq<MatchEvent> {
    if taker == None then [] else [RevokeOf(taker.value, reason)]
  }

  function GearOf(o: BbOrder): nat {
    if o.gear.Some? && o.gear.value >= 1 then o.gear.value else 1
  }

  // ---------------------------------------------------------------- one order

  function LimitStep(b: Sides, side: Side, o: BbOrder): (Sides, seq<MatchEvent>) {
    var sw := Sweep(side, o, b.Of(Opposite(side)), Priced);
    var b' := b.With(Opposite(side), sw.rest);
    (if sw.taker == None then b' else b'.With(side, InsertSorted(side, b.Of(side), sw.taker.value)), sw.fills)
  }

  function PostOnlyStep(b: Sides, side: Side, o: BbOrder): (Sides, seq<MatchEvent>) {
    var opp := b.Of(Opposite(side));
    if opp != [] && Reaches(side, o.price, opp[0].price) then (b, [RevokeOf(o, "post_only")])
    else (b.With(side, InsertSorted(side, b.Of(side), o)), [])
  }

  function IocStep(b: Sides, side: Side, o: BbOrder): (Sides, seq<MatchEvent>) {
    var sw := Sweep(side, o, b.Of(Opposite(side)), Priced);
    (b.With(Opposite(side), sw.rest), sw.fills + RevokeRest(sw.taker, "ioc_remainder"))
  }

  /** Fills of the multi-level walk report the taker as partly filled even on an exact last fill. */
  function WalkFill(e: MatchEvent): MatchEvent {
    if e.McFill? && e.takerStatus == STATUS_SUCCESS && e.makerStatus == STATUS_SUCCESS
    then e.(takerStatus := STATUS_PART)
    else e
  }

  function WalkFills(es: seq<MatchEvent>): (r: seq<MatchEvent>)
    ensures |r| == |es|
  {
    seq(|es|, i requires 0 <= i < |es| => WalkFill(es[i]))
  }

  /** All or nothing: the sweep counts only if it fills the order completely. */
  function FokStep(b: Sides, side: Side, o: BbOrder): (Sides, seq<MatchEvent>) {
    var sw := Sweep(side, o, b.Of(Opposite(side)), Priced);
    if sw.taker.Some? then (b, RevokeRest(sw.taker, "fok_fail"))
    else (b.With(Opposite(side), sw.rest), if |sw.fills| == 1 then sw.fills else WalkFills(sw.fills))
  }

  function MarketOrder(side: Side, o: BbOrder): BbOrder {
    if side == Buy then o.(price := MARKET_BUY_PRICE) else o
  }

  function MarketStep(b: Sides, side: Side, o: BbOrder): (Sides, seq<MatchEvent>) {
    var t := MarketOrder(side, o);
    var mine, opp := b.Of(side), b.Of(Opposite(side));
    if opp == [] then (b, [RevokeOf(t, "market_empty")])
    else if mine != [] && !Precedes(side, t, mine[0]) then
      if mine[0].form == FORM_MARKET then (b, [RevokeOf(t, "market_blocked")])
      else (b.With(side, InsertSorted(side, mine, t)), [])
    else
      var sw := Sweep(side, t, opp, Geared(GearOf(o)));
      var reason :=
        if |sw.fills| >= GearOf(o) then "market_gear" else if sw.rest == [] then "market_empty" else "market_blocked";
      (b.With(Opposite(side), sw.rest), sw.fills + RevokeRest(sw.taker, reason))
  }

  function ByNo(s: seq<BbOrder>, no: string): (r: BbOrder)
    requires HasNo(s, no)
    ensures r in s && r.no == no
  {
    if s[0].no == no then s[0]
    else
      assert HasNo(s[1..], no) by {
        var i :| 0 <= i < |s| && s[i].no == no;
        assert s[1..][i - 1].no == no;
      }
      ByNo(s[1..], no)
  }

  function RevokeStep(b: Sides, side: Side, no: string): (Sides, seq<MatchEvent>) {
    if HasNo(b.Of(side), no) then
      (b.With(side, WithoutNo(b.Of(side), no)), [RevokeOf(ByNo(b.Of(side), no), "user")])
    else (b, [])
  }

  /** One incoming order: revoke, reject a live number, or match by form. */
  function McStep(b: Sides, o: BbOrder): (Sides, seq<MatchEvent>) {
    match SideOf(o)
    case None => (b, [])
    case Some(side) =>
      if o.status == STATUS_REVOKE then RevokeStep(b, side, o.no)
      else if b.Has(o.no) then (b, [])
      else if o.form == FORM_POST_ONLY then PostOnlyStep(b, side, o)
      else if o.form == FORM_IOC then IocStep(b, side, o)
      else if o.form == FORM_FOK then FokStep(b, side, o)
      else if o.form == FORM_MARKET then MarketStep(b, side, o)
      else LimitStep(b, side, o)
  }
}
