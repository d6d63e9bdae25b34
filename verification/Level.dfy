/** A price level: the ends of its FIFO queue and the cached aggregates. */
module Level {
  import opened Widths
  import opened OrderTypes
  import opened Pool

  datatype Level = Level(head: Index, tail: Index, totalQty: Quantity, orderCount: u32) {
    predicate IsEmpty() {
      head == NIL
    }
  }

  const EMPTY: Level := Level(NIL, NIL, 0, 0)
}
