/** Executed trades (Trading.hpp). */
module Trading {

  /** One execution. The price is in price units, the timestamp in seconds since the epoch. */
  datatype Trade = Trade(
    tradeId: int,
    buyOrderId: int,
    sellOrderId: int,
    marketIdentificationCode: string,
    tradingCurrency: string,
    price: int,
    quantity: int,
    timestamp: int)

  /** The value `updateStats` adds to the volumes: quantity times price. */
  function Notional(t: Trade): int {
    t.quantity * t.price
  }

  /** The notional value of a run of trades. */
  function TotalNotional(ts: seq<Trade>): int
    decreases |ts|
  {
    if ts == [] then 0 else TotalNotional(ts[..|ts| - 1]) + Notional(ts[|ts| - 1])
  }

  /** Sum of the executed quantities of a run of trades. */
  function TotalQuantity(ts: seq<Trade>): int
    decreases |ts|
  {
    if ts == [] then 0 else TotalQuantity(ts[..|ts| - 1]) + ts[|ts| - 1].quantity
  }
}
