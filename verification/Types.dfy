/** Value types shared by every component: sides, order types, prices, book entries, fills and errors. */
module Types {

  datatype Option<+T> = None | Some(value: T)

  /** A value or one of the domain errors; every fallible operation returns one of these. */
  datatype Result<+T> = Ok(value: T) | Err(error: OemsError)

  datatype OemsError =
    | InvalidQuantity
    | InvalidPrice
    | InvalidSymbol
    | InvalidSide
    | InvalidOrderType
    | OrderNotFound
    | DuplicateOrder
    | InvalidStateTransition
    | RiskBreachMaxQty
    | RiskBreachNotional
    | RiskBreachPriceBand
    | RiskBreachRateLimit
    | RiskBreachLotSize
    | RiskBreachTickSize
    | RiskBreachDailyLimit
    | BookNotFound
    | NoLiquidity
    | FixParseError
    | FixSessionError
    | FixInvalidMsgType
    | DatabaseError
    | HttpParseError
    | RouteNotFound

  datatype Side = Buy | Sell

  datatype OrderType = Limit | Market

  type OrderId = nat
  type ExecutionId = nat
  type Price = int
  type Quantity = int
  type Symbol = string

  /** One resting order. */
  datatype BookEntry = BookEntry(orderId: OrderId, side: Side, price: Price, remaining: Quantity)

  /** One trade between an incoming (aggressive) and a resting (passive) order. */
  datatype Fill = Fill(
    executionId: ExecutionId,
    symbol: Symbol,
    aggressiveId: OrderId,
    passiveId: OrderId,
    aggressiveSide: Side,
    price: Price,
    quantity: Quantity)

  datatype AddOrderResult = AddOrderResult(fills: seq<Fill>, resting: Option<BookEntry>)

  function Opposite(side: Side): Side {
    if side.Buy? then Sell else Buy
  }

  function Min(a: int, b: int): int {
    if a <= b then a else b
  }

  function Max(a: int, b: int): int {
    if a >= b then a else b
  }
}
