/** What the invariant of the book says about following its links. */
module BookStructure {
  import opened OrderTypes
  import opened BookModel
  import opened Pool
  import opened BookLinks
  import opened OrderBook

  /** The slots visited by following `next` from `i`, for at most `fuel` steps. */
  ghost function WalkNext(slots: Slots, i: Index, fuel: nat): seq<Index>
    decreases fuel
  {
    if fuel == 0 || i >= |slots| || slots[i].Free? then []
    else [i] + WalkNext(slots, slots[i].node.next, fuel - 1)
  }

  ghost function WalkPrev(slots: Slots, i: Index, fuel: nat): seq<Index>
    decreases fuel
  {
    if fuel == 0 || i >= |slots| || slots[i].Free? then []
    else WalkPrev(slots, slots[i].node.prev, fuel - 1) + [i]
  }

  ghost function WalkFree(slots: Slots, i: Index, fuel: nat): seq<Index>
    decreases fuel
  {
    if fuel == 0 || i >= |slots| || slots[i].Occupied? then []
    else [i] + WalkFree(slots, slots[i].next, fuel - 1)
  }

  lemma {:induction false} WalkNextFollows(slots: Slots, chain: seq<Index>, j: nat, fuel: nat)
    requires Threaded(slots, chain) && |slots| <= NIL && j < |chain| && |chain| - j <= fuel
    ensures WalkNext(slots, chain[j], fuel) == chain[j..]
    decreases |chain| - j
  {
    assert LinkAt(slots, chain, j);
    if j + 1 < |chain| {
      WalkNextFollows(slots, chain, j + 1, fuel - 1);
      assert chain[j..] == [chain[j]] + chain[j + 1..];
    }
  }

  lemma {:induction false} WalkPrevFollows(slots: Slots, chain: seq<Index>, j: nat, fuel: nat)
    requires Threaded(slots, chain) && |slots| <= NIL && j < |chain| && j < fuel
    ensures WalkPrev(slots, chain[j], fuel) == chain[..j + 1]
  {
    assert LinkAt(slots, chain, j);
    if 0 < j {
      WalkPrevFollows(slots, chain, j - 1, fuel - 1);
      assert chain[..j + 1] == chain[..j] + [chain[j]];
    }
  }

  lemma {:induction false} WalkFreeFollows(slots: Slots, head: Index, list: seq<Index>, j: nat, fuel: nat)
    requires FreeListIs(slots, head, list) && |slots| <= NIL && j < |list| && |list| - j <= fuel
    ensures WalkFree(slots, list[j], fuel) == list[j..]
    decreases |list| - j
  {
    assert FreeLinkAt(slots, list, j);
    if j + 1 < |list| {
      WalkFreeFollows(slots, head, list, j + 1, fuel - 1);
      assert list[j..] == [list[j]] + list[j + 1..];
    }
  }

  /** Walking `next` from a level's head, however long one is prepared to walk, ends at its tail after
      exactly `order_count` slots, which hold the orders of the queue in time priority; walking `prev`
      from the tail visits the same slots backwards. */
  lemma LevelIsItsQueue(book: OrderBook, k: LevelKey, fuel: nat)
    requires book.Valid() && k.price in book.SideLevels(k.side)
    requires |book.pool.slots| <= fuel
    ensures var level := book.SideLevels(k.side)[k.price];
            var walk := WalkNext(book.pool.slots, level.head, fuel);
            && |walk| == level.orderCount && walk != []
            && walk[0] == level.head && walk[|walk| - 1] == level.tail
            && WalkPrev(book.pool.slots, level.tail, fuel) == walk
            && (forall j :: 0 <= j < |walk| ==>
                  book.pool.InUse(walk[j]) && book.pool.Get(walk[j]).order.id == IdsAt(book.arrivals, k)[j])
  {
    var q := IdsAt(book.arrivals, k);
    QueueWithinBook(book.arrivals, k);
    assert LevelExact(book.totalsExact, book.SideLevels(k.side), k.price, book.orders, q, QtyAt(book.arrivals, k));
    WalkOfQueue(book.pool.slots, book.orders, book.arrivals, k, fuel);
  }

  lemma WalkOfQueue(slots: Slots, ids: Ids, l: seq<Order>, k: LevelKey, fuel: nat)
    requires Indexed(slots, ids, l) && AllChained(slots, ids, l) && |slots| <= NIL
    requires IdsAt(l, k) != [] && |IdsAt(l, k)| <= fuel
    ensures var q := IdsAt(l, k);
            && q[0] in ids && q[|q| - 1] in ids
            && var walk := WalkNext(slots, ids[q[0]], fuel);
            && |walk| == |q| && walk[0] == ids[q[0]] && walk[|q| - 1] == ids[q[|q| - 1]]
            && WalkPrev(slots, ids[q[|q| - 1]], fuel) == walk
            && (forall j :: 0 <= j < |q| ==>
                  walk[j] < |slots| && slots[walk[j]].Occupied? && slots[walk[j]].node.order.id == q[j])
  {
    var q := IdsAt(l, k);
    assert Chained(slots, ids, q);
    var chain := ChainOf(ids, q);
    WalkNextFollows(slots, chain, 0, fuel);
    WalkPrevFollows(slots, chain, |q| - 1, fuel);
    forall j | 0 <= j < |q|
      ensures chain[j] < |slots| && slots[chain[j]].Occupied? && slots[chain[j]].node.order.id == q[j]
    {
      assert q[j] in q && Holds(slots, ids[q[j]], Lookup(l, q[j]));
    }
  }

  /** Every slot is either on the free list or the slot of exactly one live order, never both; the
      free list is acyclic and complete; and the slab holds no other slots. */
  lemma SlotsArePartitioned(book: OrderBook, i: Index)
    requires book.Valid() && i < |book.pool.slots|
    ensures i in WalkFree(book.pool.slots, book.pool.freeHead, |book.pool.slots|) <==>
            !exists id :: id in book.orders && book.orders[id] == i
    ensures forall a, b :: a in book.orders && b in book.orders && book.orders[a] == book.orders[b] ==> a == b
    ensures |book.arrivals| + |WalkFree(book.pool.slots, book.pool.freeHead, |book.pool.slots|)| == |book.pool.slots|
  {
    var slots, ids, list := book.pool.slots, book.orders, book.pool.freeList;
    if list != [] { WalkFreeFollows(slots, book.pool.freeHead, list, 0, |slots|); }
    if i in list { ListedIsFree(slots, book.pool.freeHead, list, i); }
    forall a | a in ids ensures slots[ids[a]].Occupied? && slots[ids[a]].node.order.id == a {
      assert Holds(slots, ids[a], Lookup(book.arrivals, a));
    }
  }

  /** The cached aggregates of a level are exact, there is a level exactly where orders rest, and no order
      is larger than its level's total, so that taking an order off it never saturates. */
  lemma AggregatesAreExact(book: OrderBook, k: LevelKey, id: OrderId)
    requires book.Valid()
    ensures k.price in book.SideLevels(k.side) <==> IdsAt(book.arrivals, k) != []
    ensures k.price in book.SideLevels(k.side) ==>
              var level := book.SideLevels(k.side)[k.price];
              && (book.totalsExact ==> level.totalQty == QtyAt(book.arrivals, k))
              && level.orderCount == |IdsAt(book.arrivals, k)|
              && !level.IsEmpty()
    ensures book.totalsExact && Lookup(book.arrivals, id).Some? && KeyOf(Lookup(book.arrivals, id).value) == k ==>
              && k.price in book.SideLevels(k.side)
              && SaturatingSub(book.SideLevels(k.side)[k.price].totalQty, Lookup(book.arrivals, id).value.qty)
                 == book.SideLevels(k.side)[k.price].totalQty - Lookup(book.arrivals, id).value.qty
  {
    var slots, ids, l := book.pool.slots, book.orders, book.arrivals;
    var q := IdsAt(l, k);
    assert LevelExact(book.totalsExact, book.SideLevels(k.side), k.price, ids, q, QtyAt(l, k));
    if q != [] {
      assert Chained(slots, ids, q);
      assert LinkAt(slots, ChainOf(ids, q), 0);
    }
    ShareWithinTotal(l, id, k);
    QueueMembers(l, k);
  }
}
