/** The order book: price levels over a slab of doubly linked order nodes. */
module OrderBook {
  import opened Widths
  import opened Wrappers
  import opened OrderTypes
  import opened BookModel
  import opened Pool
  import opened Level
  import opened BookLinks

  function Max(a: int, b: int): int {
    if a < b then b else a
  }

  /** With the order added, the total of its level stays below 2^64. */
  ghost predicate TotalFits(l: seq<Order>, order: Order) {
    QtyAt(l, KeyOf(order)) + order.qty <= U64_MAX
  }

  /** A replacement, where it adds an order, leaves the total of the level that the order joins below 2^64. */
  ghost predicate ReplaceFits(l: seq<Order>, oldId: OrderId, newId: OrderId, price: Price, qty: Quantity) {
    var o, rest := Lookup(l, oldId), Amend(l, oldId, None);
    o.Some? && Lookup(rest, newId).None? ==> QtyAt(rest, LevelKey(o.value.side, price)) + qty <= U64_MAX
  }

  class OrderBook {
    var bids: map<Price, Level>
    var asks: map<Price, Level>
    var orders: map<OrderId, Index>
    const pool: Pool<Order>
    /** The live orders in order of arrival: what the rest of the state represents. */
    ghost var arrivals: seq<Order>
    /** No order was ever added that made the total of a level overflow. */
    ghost var totalsExact: bool

    ghost predicate Valid()
      reads this, pool
    {
      && pool.Valid()
      && |arrivals| + |pool.freeList| == |pool.slots|
      && Represents(totalsExact, pool.slots, bids, asks, orders, arrivals)
    }

    constructor ()
      ensures Valid() && fresh(pool) && arrivals == [] && totalsExact
    {
      bids, asks, orders, arrivals, totalsExact := map[], map[], map[], [], true;
      pool := new Pool<Order>();
    }

    function SideLevels(side: Side): map<Price, Level>
      reads this
    {
      LevelsOf(side, bids, asks)
    }

    method SetSideLevels(side: Side, levels: map<Price, Level>)
      modifies this`bids, this`asks
      ensures SideLevels(side) == levels
      ensures side == Bid ==> asks == old(asks)
      ensures side == Ask ==> bids == old(bids)
    {
      match side
      case Bid => bids := levels;
      case Ask => asks := levels;
    }

    /** Puts a node for `order` in the slab behind `prev`. */
    method LinkBehind(order: Order, prev: Index) returns (idx: Index)
      requires pool.Valid() && pool.HasRoom()
      requires prev != NIL ==> pool.InUse(prev)
      modifies pool
      ensures pool.Valid()
      ensures Appended(old(pool.slots), pool.slots, idx, order, prev)
      ensures if old(pool.freeList) == []
              then |pool.slots| == |old(pool.slots)| + 1 && pool.freeList == []
              else |pool.slots| == |old(pool.slots)| && |pool.freeList| == |old(pool.freeList)| - 1
    {
      idx := pool.Alloc(Node(order, prev, NIL));
      if prev != NIL {
        pool.Set(prev, pool.Get(prev).(next := idx));
      }
    }

    /** The level at the order's price with the order counted in. */
    method CountIn(order: Order, idx: Index)
      requires order.price in SideLevels(order.side) ==>
                 SideLevels(order.side)[order.price].orderCount < U32_MAX
      modifies this`bids, this`asks
      ensures BookCountedIn(old(bids), bids, old(asks), asks, idx, order)
    {
      var levels := SideLevels(order.side);
      var level := if order.price in levels then levels[order.price] else EMPTY;
      if level.head == NIL {
        level := level.(head := idx);
      }
      level := level.(tail := idx);
      level := level.(totalQty := WrapAdd(level.totalQty, order.qty));
      level := level.(orderCount := level.orderCount + 1);
      SetSideLevels(order.side, levels[order.price := level]);
    }

    /** Links a new order behind the tail of its level and counts it in. */
    method LinkIn(order: Order) returns (idx: Index, prev: Index)
      requires Valid() && |arrivals| < NIL
      modifies this`bids, this`asks, pool
      ensures pool.Valid()
      ensures var levels := old(SideLevels(order.side));
              prev == if order.price in levels then levels[order.price].tail else NIL
      ensures Appended(old(pool.slots), pool.slots, idx, order, prev)
      ensures BookCountedIn(old(bids), bids, old(asks), asks, idx, order)
      ensures |arrivals| + 1 + |pool.freeList| == |pool.slots|
      ensures pool.CapacityUsed() == Max(old(pool.CapacityUsed()), |arrivals| + 1)
    {
      AdmitsOrder(totalsExact, pool.slots, bids, asks, orders, arrivals, order);
      var levels := SideLevels(order.side);
      prev := if order.price in levels then levels[order.price].tail else NIL;
      idx := LinkBehind(order, prev);
      CountIn(order, idx);
    }

    method Add(order: Order) returns (r: Result<(), BookError>)
      requires Valid()
      requires order.id in orders || |arrivals| < NIL
      modifies this, pool
      ensures Valid()
      ensures (arrivals, if r.Ok? then Accepted else Rejected(r.error)) == AddStep(old(arrivals), order)
      ensures totalsExact == (old(totalsExact) && (order.id in old(orders) || TotalFits(old(arrivals), order)))
      ensures old(totalsExact) ==> (TotalsHold(bids, asks, arrivals) <==> totalsExact)
      ensures pool.CapacityUsed() == Max(old(pool.CapacityUsed()), |arrivals|)
    {
      if order.id in orders {
        if totalsExact { ExactTotalsHold(pool.slots, bids, asks, orders, arrivals); }
        return Err(DuplicateOrder(order.id));
      }
      var idx, prev := LinkIn(order);
      orders := orders[order.id := idx];
      totalsExact := totalsExact && TotalFits(arrivals, order);
      arrivals := arrivals + [order];
      AppendKeepsBook(old(totalsExact), totalsExact, old(pool.slots), pool.slots, old(bids), bids, old(asks), asks,
                      old(orders), old(arrivals), idx, order, prev);
      assert Represents(totalsExact, pool.slots, bids, asks, orders, arrivals);
      if old(totalsExact) { TotalsAfterAppend(totalsExact, pool.slots, bids, asks, orders, old(arrivals), order); }
      assert Valid();
      r := Ok(());
    }

    // ---- Removal ----

    /** Lets the neighbours of a node point past it. */
    method Bypass(node: Node<Order>)
      requires pool.Valid()
      requires node.prev != NIL ==> pool.InUse(node.prev)
      requires node.next != NIL ==> pool.InUse(node.next)
      modifies pool`slots
      ensures pool.Valid() && Bypassed(old(pool.slots), pool.slots, node)
    {
      if node.prev != NIL {
        pool.Set(node.prev, pool.Get(node.prev).(next := node.next));
      }
      if node.next != NIL {
        pool.Set(node.next, pool.Get(node.next).(prev := node.prev));
      }
    }

    /** Takes the node in slot `idx` off its level, and the level off the book when it was the last one. */
    method CountOut(idx: Index, node: Node<Order>)
      requires node.order.price in SideLevels(node.order.side)
      requires 0 < SideLevels(node.order.side)[node.order.price].orderCount
      modifies this`bids, this`asks
      ensures BookCountedOut(old(bids), bids, old(asks), asks, idx, node)
    {
      var levels := SideLevels(node.order.side);
      var level := levels[node.order.price];
      if level.head == idx {
        level := level.(head := node.next);
      }
      if level.tail == idx {
        level := level.(tail := node.prev);
      }
      level := level.(totalQty := SaturatingSub(level.totalQty, node.order.qty));
      level := level.(orderCount := level.orderCount - 1);
      if level.IsEmpty() {
        SetSideLevels(node.order.side, levels - {node.order.price});
      } else {
        SetSideLevels(node.order.side, levels[node.order.price := level]);
      }
    }

    /** Splices the order in slot `idx` out of its queue and counts it out. */
    method SpliceOut(idx: Index)
      requires Valid() && pool.InUse(idx)
      modifies this`bids, this`asks, pool`slots
      ensures pool.Valid() && pool.InUse(idx) && pool.Get(idx) == old(pool.Get(idx))
      ensures Removed(old(pool.slots), pool.slots[idx := Free(pool.freeHead)], idx)
      ensures BookCountedOut(old(bids), bids, old(asks), asks, idx, pool.Get(idx))
    {
      var node := pool.Get(idx);
      AdmitsRemoval(totalsExact, pool.slots, bids, asks, orders, arrivals, node.order.id);
      Bypass(node);
      BypassThenFree(old(pool.slots), pool.slots, idx, pool.freeHead);
      CountOut(idx, node);
    }

    /** Splices the order in slot `idx` out of the book and frees the slot. */
    method Unlink(idx: Index)
      requires Valid() && pool.InUse(idx)
      modifies this, pool
      ensures Valid() && totalsExact == old(totalsExact)
      ensures arrivals == Amend(old(arrivals), old(pool.Get(idx)).order.id, None)
      ensures |arrivals| == |old(arrivals)| - 1 && |pool.slots| == |old(pool.slots)|
    {
      var node := pool.Get(idx);
      AdmitsRemoval(totalsExact, pool.slots, bids, asks, orders, arrivals, node.order.id);
      AmendKeepsDistinct(arrivals, node.order.id, None);
      SpliceOut(idx);
      orders := orders - {node.order.id};
      pool.Release(idx);
      arrivals := Amend(arrivals, node.order.id, None);
      RemoveKeepsBook(totalsExact, old(pool.slots), pool.slots, old(bids), bids, old(asks), asks,
                      old(orders), old(arrivals), node.order);
      assert Represents(totalsExact, pool.slots, bids, asks, orders, arrivals);
      assert Valid();
    }

    // ---- Reduction ----

    method ShrinkLevel(o: Order, qty: Quantity)
      requires o.price in SideLevels(o.side)
      modifies this`bids, this`asks
      ensures BookTakenOff(old(bids), bids, old(asks), asks, o, qty)
    {
      var levels := SideLevels(o.side);
      SetSideLevels(o.side, levels[o.price := levels[o.price].(totalQty := WrapSub(levels[o.price].totalQty, qty))]);
    }

    /** Takes `qty` off the order in slot `idx` and off its level; the order stays even at zero. */
    method TakeOff(idx: Index, qty: Quantity)
      requires Valid() && pool.InUse(idx) && qty <= pool.Get(idx).order.qty
      modifies this, pool
      ensures Valid() && totalsExact == old(totalsExact)
      ensures var o := old(pool.Get(idx)).order;
              && pool.InUse(idx) && pool.Get(idx).order == o.(qty := o.qty - qty)
              && Lookup(old(arrivals), o.id) == Some(o)
              && arrivals == Amend(old(arrivals), o.id, Some(o.(qty := o.qty - qty)))
      ensures |arrivals| == |old(arrivals)| && |pool.slots| == |old(pool.slots)|
    {
      var node := pool.Get(idx);
      var o := node.order;
      AdmitsRemoval(totalsExact, pool.slots, bids, asks, orders, arrivals, o.id);
      AmendKeepsDistinct(arrivals, o.id, Some(o.(qty := o.qty - qty)));
      pool.Set(idx, node.(order := o.(qty := o.qty - qty)));
      ShrinkLevel(o, qty);
      arrivals := Amend(arrivals, o.id, Some(o.(qty := o.qty - qty)));
      assert Resized(old(pool.slots), pool.slots, idx, o.qty - qty);
      ResizeKeepsBook(totalsExact, old(pool.slots), pool.slots, old(bids), bids, old(asks), asks,
                      orders, old(arrivals), o, qty);
      assert Represents(totalsExact, pool.slots, bids, asks, orders, arrivals);
      assert Valid();
    }

    /** Takes `qty` off the order in slot `idx`, and unlinks the order when nothing is left of it. */
    method Reduce(idx: Index, qty: Quantity)
      requires Valid() && pool.InUse(idx) && qty <= pool.Get(idx).order.qty
      modifies this, pool
      ensures Valid() && totalsExact == old(totalsExact)
      ensures var o := old(pool.Get(idx)).order;
              && Lookup(old(arrivals), o.id) == Some(o) && arrivals == Amend(old(arrivals), o.id, Shrunk(o, qty))
              && (o.id in orders <==> qty < o.qty)
      ensures |arrivals| <= |old(arrivals)| && |pool.slots| == |old(pool.slots)|
    {
      ghost var o := pool.Get(idx).order;
      ghost var l := arrivals;
      TakeOff(idx, qty);
      AmendTwice(l, o.id, o.(qty := o.qty - qty), None);
      LookupAmend(l, o.id, Shrunk(o, qty), o.id);
      var exhausted := pool.Get(idx).order.qty == 0;
      assert Shrunk(o, qty) == if exhausted then None else Some(o.(qty := o.qty - qty));
      assert Valid();
      if exhausted {
        Unlink(idx);
      }
    }

    method ExecuteInner(id: OrderId, qty: Quantity, ts: Timestamp, printAt: Option<Price>)
      returns (r: Result<Trade, BookError>)
      requires Valid()
      modifies this, pool
      ensures Valid() && totalsExact == old(totalsExact)
      ensures (arrivals, if r.Ok? then Filled(r.value) else Rejected(r.error)) ==
              ExecuteStep(old(arrivals), id, qty, ts, printAt)
      ensures r.Ok? ==>
                && r.value.makerId == id && r.value.qty == qty && r.value.ts == ts
                && Lookup(old(arrivals), id).Some? && qty <= Lookup(old(arrivals), id).value.qty
                && (printAt.Some? ==> r.value.price == printAt.value)
                && (printAt.None? ==> r.value.price == Lookup(old(arrivals), id).value.price)
                && (id in orders <==> qty < Lookup(old(arrivals), id).value.qty)
      ensures |arrivals| <= |old(arrivals)| && |pool.slots| == |old(pool.slots)|
    {
      if id !in orders {
        return Err(UnknownOrder(id));
      }
      var idx := orders[id];
      AdmitsRemoval(totalsExact, pool.slots, bids, asks, orders, arrivals, id);
      var o := pool.Get(idx).order;
      if qty > o.qty {
        return Err(OverExecute(id, qty, o.qty));
      }
      Reduce(idx, qty);
      r := Ok(Trade(id, printAt.GetOr(o.price), qty, ts));
    }

    method Cancel(id: OrderId, qty: Quantity) returns (r: Result<(), BookError>)
      requires Valid()
      modifies this, pool
      ensures Valid() && totalsExact == old(totalsExact)
      ensures (arrivals, if r.Ok? then Accepted else Rejected(r.error)) == CancelStep(old(arrivals), id, qty)
      ensures r.Ok? ==>
                && Lookup(old(arrivals), id).Some? && qty <= Lookup(old(arrivals), id).value.qty
                && (id in orders <==> qty < Lookup(old(arrivals), id).value.qty)
      ensures |arrivals| <= |old(arrivals)| && |pool.slots| == |old(pool.slots)|
    {
      if id !in orders {
        return Err(UnknownOrder(id));
      }
      var idx := orders[id];
      AdmitsRemoval(totalsExact, pool.slots, bids, asks, orders, arrivals, id);
      var o := pool.Get(idx).order;
      if qty > o.qty {
        return Err(OverCancel(id, qty, o.qty));
      }
      Reduce(idx, qty);
      r := Ok(());
    }

    method Delete(id: OrderId) returns (r: Result<(), BookError>)
      requires Valid()
      modifies this, pool
      ensures Valid() && totalsExact == old(totalsExact)
      ensures (arrivals, if r.Ok? then Accepted else Rejected(r.error)) == DeleteStep(old(arrivals), id)
      ensures |arrivals| <= |old(arrivals)| && |pool.slots| == |old(pool.slots)|
    {
      if id !in orders {
        return Err(UnknownOrder(id));
      }
      AdmitsRemoval(totalsExact, pool.slots, bids, asks, orders, arrivals, id);
      Unlink(orders[id]);
      r := Ok(());
    }

    method Replace(oldId: OrderId, newId: OrderId, newPrice: Price, newQty: Quantity, ts: Timestamp)
      returns (r: Result<(), BookError>)
      requires Valid()
      modifies this, pool
      ensures Valid()
      ensures (arrivals, if r.Ok? then Accepted else Rejected(r.error)) ==
              ReplaceStep(old(arrivals), oldId, newId, newPrice, newQty, ts)
      ensures totalsExact == (old(totalsExact) && ReplaceFits(old(arrivals), oldId, newId, newPrice, newQty))
      ensures old(totalsExact) ==> (TotalsHold(bids, asks, arrivals) <==> totalsExact)
      ensures |arrivals| <= |old(arrivals)| && |pool.slots| == |old(pool.slots)|
    {
      if oldId !in orders {
        if totalsExact { ExactTotalsHold(pool.slots, bids, asks, orders, arrivals); }
        return Err(UnknownOrder(oldId));
      }
      AdmitsRemoval(totalsExact, pool.slots, bids, asks, orders, arrivals, oldId);
      var idx := orders[oldId];
      var side := pool.Get(idx).order.side;
      Unlink(idx);
      r := Add(Order(newId, side, newPrice, newQty, ts));
    }
  }
}
