/** Core domain types of the order book. */
module OrderTypes {
  import opened Widths

  type OrderId = u64
  type Price = i64
  type Quantity = u64
  type Timestamp = u64

  datatype Side = Bid | Ask

  /** A resting order. */
  datatype Order = Order(id: OrderId, side: Side, price: Price, qty: Quantity, ts: Timestamp)

  datatype Trade = Trade(makerId: OrderId, price: Price, qty: Quantity, ts: Timestamp)

  datatype BookError =
    | DuplicateOrder(id: OrderId)
    | UnknownOrder(id: OrderId)
    | OverExecute(id: OrderId, got: Quantity, avail: Quantity)
    | OverCancel(id: OrderId, got: Quantity, avail: Quantity)

  /** One FIFO queue of the book. */
  datatype LevelKey = LevelKey(side: Side, price: Price)

  function KeyOf(o: Order): LevelKey {
    LevelKey(o.side, o.price)
  }
}
