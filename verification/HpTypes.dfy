/** Commands, orders and events of the tick/lot engine. */
module HpTypes {
  import opened Common

  datatype Side = Buy | Sell

  datatype HpOrder = HpOrder(
    id: nat,
    side: Side,
    priceTick: int,
    qtyLot: int,
    openLot: int,
    ts: nat,
    clientId: nat)

  datatype HpEvent =
    | Fill(makerId: nat, takerId: nat, makerClient: nat, takerClient: nat,
           priceTick: int, qtyLot: int, makerOpen: int, takerOpen: int)
    | Rest(id: nat, clientId: nat, side: Side, priceTick: int, qtyLot: int)
    | Revoke(id: nat, clientId: nat, reason: nat)

  datatype HpCommand =
    | Limit(side: Side, priceTick: int, qtyLot: int, ts: nat, clientId: nat)
    | Cancel(id: nat)
    | Market(side: Side, qtyLot: int, ts: nat, maxFills: Option<nat>, clientId: nat)

  function Opposite(side: Side): Side {
    if side == Buy then Sell else Buy
  }

  /** `a` is a strictly better price than `b` for an order resting on `side`. */
  predicate Better(side: Side, a: int, b: int) {
    if side == Buy then a > b else a < b
  }

  /** A taker on `side` bounded by `limit` may trade at `price`; no limit means a market order. */
  predicate Crosses(side: Side, price: int, limit: Option<int>) {
    limit == None || (if side == Buy then price <= limit.value else price >= limit.value)
  }
}
