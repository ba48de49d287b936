/** Enumerations shared by the whole order book (the side of an order, its
    type tag, its time-in-force policy), the book's error kinds, and the
    Option and Result wrappers that stand for "nothing" and "failed". */
module Types {

  datatype Side = Buy | Sell

  /** The type tag an order-options payload carries. */
  datatype OrderType = LimitType | MarketType | OcoType | StopLimitType | StopMarketType

  datatype TimeInForce = GTC | IOC | FOK

  /** The error kinds raised by the order model and the book sides. */
  datatype Error = InvalidOrderType | InvalidPriceLevel

  datatype Option<+T> = None | Some(value: T) {
    /** The `x ?? d` of the source: the value when present, else `d`. */
    function GetOr(d: T): T {
      match this
      case Some(v) => v
      case None => d
    }
  }

  /** A value, or the error a source operation throws. */
  datatype Result<+T> = Ok(value: T) | Err(error: Error)
}
