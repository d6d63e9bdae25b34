/** How slots, indices and cached levels represent the list of live orders, and why splicing one
    node in or out keeps every queue of the book intact. */
module BookLinks {
  import opened Widths
  import opened Wrappers
  import opened OrderTypes
  import opened BookModel
  import opened Pool
  import opened Level

  type Slots = seq<Slot<Order>>
  type Ids = map<OrderId, Index>
  type Levels = map<Price, Level>

  // ---- Doubly linked chains of slots ----

  /** The node at place `j` of `chain` points at its two neighbours there. */
  ghost predicate LinkAt(slots: Slots, chain: seq<Index>, j: nat)
    requires j < |chain|
  {
    && chain[j] < |slots|
    && slots[chain[j]].Occupied?
    && slots[chain[j]].node.prev == (if j == 0 then NIL else chain[j - 1])
    && slots[chain[j]].node.next == (if j == |chain| - 1 then NIL else chain[j + 1])
  }

  ghost predicate Threaded(slots: Slots, chain: seq<Index>) {
    forall j: nat :: j < |chain| ==> LinkAt(slots, chain, j)
  }

  ghost predicate Distinct(chain: seq<Index>) {
    forall i, j :: 0 <= i < j < |chain| ==> chain[i] != chain[j]
  }

  ghost function Last(chain: seq<Index>): Index {
    if chain == [] then NIL else chain[|chain| - 1]
  }

  /** `slots'` is `slots` with `order` in the slot `idx`, which was free or did not exist, behind `tail`. */
  ghost predicate Appended(slots: Slots, slots': Slots, idx: Index, order: Order, tail: Index) {
    && |slots| <= |slots'| <= NIL && idx < |slots'|
    && (idx < |slots| ==> slots[idx].Free?)
    && |slots'| == (if idx < |slots| then |slots| else idx + 1)
    && (|slots| <= idx ==> idx == |slots|)
    && slots'[idx] == Occupied(Node(order, tail, NIL))
    && (forall i :: 0 <= i < |slots| && i != idx ==>
          slots'[i] == if i == tail && slots[i].Occupied? then Occupied(slots[i].node.(next := idx)) else slots[i])
  }

  lemma AppendThreads(slots: Slots, slots': Slots, idx: Index, order: Order, chain: seq<Index>)
    requires Threaded(slots, chain) && Distinct(chain)
    requires Appended(slots, slots', idx, order, Last(chain))
    ensures Threaded(slots', chain + [idx])
  {
    var chain' := chain + [idx];
    forall j: nat | j < |chain'| ensures LinkAt(slots', chain', j) {
      if j < |chain| { assert LinkAt(slots, chain, j); }
      if 0 < j { assert LinkAt(slots, chain, j - 1); }
    }
  }

  lemma AppendElsewhere(slots: Slots, slots': Slots, idx: Index, order: Order, tail: Index, chain: seq<Index>)
    requires Threaded(slots, chain) && tail !in chain
    requires Appended(slots, slots', idx, order, tail)
    ensures Threaded(slots', chain)
  {
    forall j: nat | j < |chain| ensures LinkAt(slots', chain, j) {
      assert LinkAt(slots, chain, j) && chain[j] in chain;
    }
  }

  /** `slots'` is `slots` with slot `idx` free and its two neighbours pointing past it. */
  ghost predicate Removed(slots: Slots, slots': Slots, idx: Index)
    requires idx < |slots| && slots[idx].Occupied?
  {
    var node := slots[idx].node;
    && |slots'| == |slots| <= NIL
    && slots'[idx].Free?
    && (forall i :: 0 <= i < |slots| && i != idx ==>
          slots'[i] ==
          if slots[i].Free? then slots[i]
          else if i == node.prev then Occupied(slots[i].node.(next := node.next))
          else if i == node.next then Occupied(slots[i].node.(prev := node.prev))
          else slots[i])
  }

  /** `slots'` is `slots` with the neighbours of `node` pointing past it. */
  ghost predicate Bypassed(slots: Slots, slots': Slots, node: Node<Order>) {
    && |slots'| == |slots|
    && (forall i :: 0 <= i < |slots| ==> slots'[i].Occupied? == slots[i].Occupied?)
    && (node.prev != node.next || node.prev == NIL ==> forall i :: 0 <= i < |slots| && slots[i].Occupied? ==>
          slots'[i] ==
          if i == node.prev && i != NIL then Occupied(slots[i].node.(next := node.next))
          else if i == node.next && i != NIL then Occupied(slots[i].node.(prev := node.prev))
          else slots[i])
    && (forall i :: 0 <= i < |slots| && slots[i].Free? ==> slots'[i] == slots[i])
  }

  lemma BypassThenFree(slots: Slots, slots': Slots, idx: Index, head: Index)
    requires |slots| <= NIL && idx < |slots| && slots[idx].Occupied?
    requires var node := slots[idx].node;
             (node.prev != node.next || node.prev == NIL) && node.prev != idx && node.next != idx
    requires Bypassed(slots, slots', slots[idx].node)
    ensures slots'[idx] == slots[idx]
    ensures Removed(slots, slots'[idx := Free(head)], idx)
  {
  }

  /** The chain the node leaves closes over the gap. */
  lemma RemoveThreads(slots: Slots, slots': Slots, chain: seq<Index>, j: nat)
    requires Threaded(slots, chain) && Distinct(chain)
    requires j < |chain| && LinkAt(slots, chain, j) && Removed(slots, slots', chain[j])
    ensures Threaded(slots', chain[..j] + chain[j + 1..])
  {
    var chain' := chain[..j] + chain[j + 1..];
    forall n: nat | n < |chain'| ensures LinkAt(slots', chain', n) {
      var m := if n < j then n else n + 1;
      assert LinkAt(slots, chain, m);
      assert chain'[n] == chain[m];
    }
  }

  /** A chain that shares no slot with the chain of the removed node keeps all its links. */
  lemma RemoveElsewhere(slots: Slots, slots': Slots, chain: seq<Index>, j: nat, other: seq<Index>)
    requires Threaded(slots, other)
    requires j < |chain| && LinkAt(slots, chain, j) && Removed(slots, slots', chain[j])
    requires forall i :: i in chain ==> i !in other
    ensures Threaded(slots', other)
  {
    forall n: nat | n < |other| ensures LinkAt(slots', other, n) {
      assert LinkAt(slots, other, n) && other[n] in other;
    }
  }

  // ---- Orders, indices and queues ----

  /** `ids` maps the live orders one to one onto the occupied slots. */
  ghost predicate Indexed(slots: Slots, ids: Ids, l: seq<Order>) {
    && (forall id :: id in ids <==> Lookup(l, id).Some?)
    && (forall id :: id in ids ==> Holds(slots, ids[id], Lookup(l, id)))
    && (forall i :: 0 <= i < |slots| && slots[i].Occupied? ==>
          slots[i].node.order.id in ids && ids[slots[i].node.order.id] == i)
  }

  ghost predicate Holds(slots: Slots, i: Index, o: Option<Order>) {
    i < |slots| && slots[i].Occupied? && o == Some(slots[i].node.order)
  }

  /** The slots of a queue of ids. */
  ghost function ChainOf(ids: Ids, q: seq<OrderId>): seq<Index>
    requires forall id :: id in q ==> id in ids
  {
    seq(|q|, i requires 0 <= i < |q| => ids[q[i]])
  }

  ghost predicate Chained(slots: Slots, ids: Ids, q: seq<OrderId>) {
    (forall id :: id in q ==> id in ids) && Threaded(slots, ChainOf(ids, q))
  }

  ghost predicate AllChained(slots: Slots, ids: Ids, l: seq<Order>) {
    forall k: LevelKey :: Chained(slots, ids, IdsAt(l, k))
  }

  /** The chains of different queues share no slot, and no chain visits a slot twice. */
  lemma ChainsAreDisjoint(slots: Slots, ids: Ids, l: seq<Order>, k: LevelKey)
    requires DistinctIds(l) && Indexed(slots, ids, l)
    ensures forall id :: id in IdsAt(l, k) ==> id in ids
    ensures Distinct(ChainOf(ids, IdsAt(l, k)))
    ensures forall id :: id in ids && KeyOf(Lookup(l, id).value) != k ==> ids[id] !in ChainOf(ids, IdsAt(l, k))
  {
    QueueMembers(l, k);
    forall a, b | a in ids && b in ids && ids[a] == ids[b] ensures a == b {
      assert Holds(slots, ids[a], Lookup(l, a)) && Holds(slots, ids[b], Lookup(l, b));
    }
  }

  /** A level exists exactly for a non-empty queue, and then every cached field is exact; its total so
      only when `exact` says that no total of the book was ever made to overflow. */
  ghost predicate LevelExact(exact: bool, levels: Levels, price: Price, ids: Ids, q: seq<OrderId>, total: nat) {
    && (price in levels <==> q != [])
    && (q != [] ==>
          && q[0] in ids && q[|q| - 1] in ids
          && levels[price].head == ids[q[0]]
          && levels[price].tail == ids[q[|q| - 1]]
          && (exact ==> levels[price].totalQty == total)
          && levels[price].orderCount == |q|)
  }

  ghost predicate SideExact(exact: bool, side: Side, levels: Levels, ids: Ids, l: seq<Order>) {
    forall k: LevelKey :: k.side == side ==> LevelExact(exact, levels, k.price, ids, IdsAt(l, k), QtyAt(l, k))
  }

  // ---- The three changes the book makes, on the whole representation ----

  lemma AppendKeepsIndex(slots: Slots, slots': Slots, ids: Ids, l: seq<Order>, idx: Index, order: Order, tail: Index)
    requires Indexed(slots, ids, l) && Lookup(l, order.id).None?
    requires Appended(slots, slots', idx, order, tail)
    ensures Indexed(slots', ids[order.id := idx], l + [order])
  {
    AppendFacts(l, order, KeyOf(order));
    forall id | id in ids ensures Holds(slots', ids[id], Lookup(l, id)) && ids[id] != idx {
      assert Holds(slots, ids[id], Lookup(l, id));
    }
  }

  /** The queue the order joins. */
  lemma AppendOwnQueue(slots: Slots, slots': Slots, ids: Ids, idx: Index, order: Order, q: seq<OrderId>)
    requires Chained(slots, ids, q) && Distinct(ChainOf(ids, q)) && order.id !in q
    requires Appended(slots, slots', idx, order, Last(ChainOf(ids, q)))
    ensures Chained(slots', ids[order.id := idx], q + [order.id])
  {
    AppendThreads(slots, slots', idx, order, ChainOf(ids, q));
    assert ChainOf(ids[order.id := idx], q + [order.id]) == ChainOf(ids, q) + [idx];
  }

  /** Any other queue. */
  lemma AppendOtherQueue(slots: Slots, slots': Slots, ids: Ids, idx: Index, order: Order, tail: Index, q: seq<OrderId>)
    requires Chained(slots, ids, q) && order.id !in q && tail !in ChainOf(ids, q)
    requires Appended(slots, slots', idx, order, tail)
    ensures Chained(slots', ids[order.id := idx], q)
  {
    AppendElsewhere(slots, slots', idx, order, tail, ChainOf(ids, q));
    assert ChainOf(ids[order.id := idx], q) == ChainOf(ids, q);
  }

  lemma AppendKeepsOtherChain(slots: Slots, slots': Slots, ids: Ids, l: seq<Order>, idx: Index, order: Order,
                              tail: Index, k: LevelKey)
    requires DistinctIds(l) && Lookup(l, order.id).None? && k != KeyOf(order)
    requires Chained(slots, ids, IdsAt(l, k)) && tail !in ChainOf(ids, IdsAt(l, k))
    requires Appended(slots, slots', idx, order, tail)
    ensures Chained(slots', ids[order.id := idx], IdsAt(l + [order], k))
  {
    QueueMembers(l, k);
    AppendFacts(l, order, k);
    AppendOtherQueue(slots, slots', ids, idx, order, tail, IdsAt(l, k));
  }

  lemma AppendKeepsChains(slots: Slots, slots': Slots, ids: Ids, l: seq<Order>, idx: Index, order: Order, tail: Index)
    requires DistinctIds(l) && Indexed(slots, ids, l) && Lookup(l, order.id).None? && AllChained(slots, ids, l)
    requires Appended(slots, slots', idx, order, tail)
    requires var q := IdsAt(l, KeyOf(order)); Chained(slots, ids, q) && tail == Last(ChainOf(ids, q))
    ensures AllChained(slots', ids[order.id := idx], l + [order])
  {
    var own := KeyOf(order);
    QueueMembers(l, own);
    AppendFacts(l, order, own);
    ChainsAreDisjoint(slots, ids, l, own);
    AppendOwnQueue(slots, slots', ids, idx, order, IdsAt(l, own));
    forall k: LevelKey ensures Chained(slots', ids[order.id := idx], IdsAt(l + [order], k)) {
      if k != own {
        TailElsewhere(slots, ids, l, k, own);
        AppendKeepsOtherChain(slots, slots', ids, l, idx, order, tail, k);
      }
    }
  }

  /** The tail of one queue is not in the chain of another. */
  lemma TailElsewhere(slots: Slots, ids: Ids, l: seq<Order>, k: LevelKey, k': LevelKey)
    requires DistinctIds(l) && Indexed(slots, ids, l) && k != k' && AllChained(slots, ids, l)
    ensures Chained(slots, ids, IdsAt(l, k)) && Chained(slots, ids, IdsAt(l, k'))
    ensures Last(ChainOf(ids, IdsAt(l, k'))) !in ChainOf(ids, IdsAt(l, k)) || |slots| > NIL
  {
    assert Chained(slots, ids, IdsAt(l, k)) && Chained(slots, ids, IdsAt(l, k'));
    ChainsAreDisjoint(slots, ids, l, k);
    QueueMembers(l, k');
    var chain := ChainOf(ids, IdsAt(l, k));
    if IdsAt(l, k') == [] && NIL in chain {
      var j :| 0 <= j < |chain| && chain[j] == NIL;
      assert LinkAt(slots, chain, j);
    }
  }

  lemma RemoveKeepsIndex(slots: Slots, slots': Slots, ids: Ids, l: seq<Order>, id: OrderId, l': seq<Order>)
    requires Indexed(slots, ids, l) && id in ids
    requires Holds(slots, ids[id], Lookup(l, id)) && Removed(slots, slots', ids[id])
    requires forall x :: Lookup(l', x) == if x == id then None else Lookup(l, x)
    ensures Indexed(slots', ids - {id}, l')
  {
    forall x | x in ids && x != id ensures Holds(slots', ids[x], Lookup(l', x)) {
      assert Holds(slots, ids[x], Lookup(l, x));
    }
  }

  /** The place of an order in its queue, in its chain, and what is left of the queue without it. */
  lemma PlaceOf(slots: Slots, ids: Ids, l: seq<Order>, id: OrderId) returns (q: seq<OrderId>, j: nat)
    requires DistinctIds(l) && Indexed(slots, ids, l) && AllChained(slots, ids, l) && id in ids
    ensures q == IdsAt(l, KeyOf(Lookup(l, id).value)) && j < |q| && q[j] == id
    ensures Chained(slots, ids, q) && Distinct(ChainOf(ids, q)) && NoDuplicates(q)
    ensures IdsAt(Amend(l, id, None), KeyOf(Lookup(l, id).value)) == q[..j] + q[j + 1..]
  {
    var own := KeyOf(Lookup(l, id).value);
    q := IdsAt(l, own);
    QueueMembers(l, own);
    j :| 0 <= j < |q| && q[j] == id;
    assert Chained(slots, ids, q);
    ChainsAreDisjoint(slots, ids, l, own);
    IdsAfterDrop(l, id, own);
    WithoutAt(q, j);
  }

  /** The queue the order leaves. */
  lemma RemoveFromOwnQueue(slots: Slots, slots': Slots, ids: Ids, q: seq<OrderId>, j: nat)
    requires j < |q| && Chained(slots, ids, q) && Distinct(ChainOf(ids, q)) && NoDuplicates(q)
    requires LinkAt(slots, ChainOf(ids, q), j) && Removed(slots, slots', ids[q[j]])
    ensures Chained(slots', ids - {q[j]}, q[..j] + q[j + 1..])
  {
    var chain := ChainOf(ids, q);
    RemoveThreads(slots, slots', chain, j);
    var q' := q[..j] + q[j + 1..];
    assert forall n :: 0 <= n < |q'| ==> q'[n] == q[if n < j then n else n + 1];
    assert ChainOf(ids - {q[j]}, q') == chain[..j] + chain[j + 1..];
  }

  /** Any other queue. */
  lemma RemoveFromOtherQueue(slots: Slots, slots': Slots, ids: Ids, q: seq<OrderId>, j: nat, other: seq<OrderId>)
    requires j < |q| && Chained(slots, ids, q) && Chained(slots, ids, other) && q[j] !in other
    requires LinkAt(slots, ChainOf(ids, q), j) && Removed(slots, slots', ids[q[j]])
    requires forall i :: i in ChainOf(ids, q) ==> i !in ChainOf(ids, other)
    ensures Chained(slots', ids - {q[j]}, other)
  {
    RemoveElsewhere(slots, slots', ChainOf(ids, q), j, ChainOf(ids, other));
    assert ChainOf(ids - {q[j]}, other) == ChainOf(ids, other);
  }

  /** Chains at two different keys have no slot in common. */
  lemma ChainsApart(slots: Slots, ids: Ids, l: seq<Order>, k: LevelKey, k': LevelKey)
    requires DistinctIds(l) && Indexed(slots, ids, l) && k != k'
    ensures forall id :: id in IdsAt(l, k) || id in IdsAt(l, k') ==> id in ids
    ensures forall i :: i in ChainOf(ids, IdsAt(l, k)) ==> i !in ChainOf(ids, IdsAt(l, k'))
  {
    ChainsAreDisjoint(slots, ids, l, k);
    ChainsAreDisjoint(slots, ids, l, k');
    QueueMembers(l, k);
    var chain := ChainOf(ids, IdsAt(l, k));
    forall i | i in chain ensures i !in ChainOf(ids, IdsAt(l, k')) {
      var n :| 0 <= n < |chain| && chain[n] == i;
      assert IdsAt(l, k)[n] in IdsAt(l, k);
    }
  }

  lemma RemoveKeepsChains(slots: Slots, slots': Slots, ids: Ids, l: seq<Order>, id: OrderId)
    requires DistinctIds(l) && Indexed(slots, ids, l) && AllChained(slots, ids, l)
    requires id in ids && Holds(slots, ids[id], Lookup(l, id)) && Removed(slots, slots', ids[id])
    ensures AllChained(slots', ids - {id}, Amend(l, id, None))
  {
    var own := KeyOf(Lookup(l, id).value);
    var q, j := PlaceOf(slots, ids, l, id);
    assert LinkAt(slots, ChainOf(ids, q), j);
    RemoveFromOwnQueue(slots, slots', ids, q, j);
    forall k: LevelKey ensures Chained(slots', ids - {id}, IdsAt(Amend(l, id, None), k)) {
      if k != own {
        RemoveKeepsOtherChain(slots, slots', ids, l, id, k, q, j);
      }
    }
  }

  lemma RemoveKeepsOtherChain(slots: Slots, slots': Slots, ids: Ids, l: seq<Order>, id: OrderId, k: LevelKey,
                              q: seq<OrderId>, j: nat)
    requires DistinctIds(l) && Indexed(slots, ids, l) && AllChained(slots, ids, l)
    requires id in ids && Removed(slots, slots', ids[id])
    requires q == IdsAt(l, KeyOf(Lookup(l, id).value)) && j < |q| && q[j] == id
    requires k != KeyOf(Lookup(l, id).value)
    requires Chained(slots, ids, q) && LinkAt(slots, ChainOf(ids, q), j)
    ensures Chained(slots', ids - {id}, IdsAt(Amend(l, id, None), k))
  {
    assert Chained(slots, ids, IdsAt(l, k));
    QueueMembers(l, k);
    IdsAfterDrop(l, id, k);
    WithoutAbsent(IdsAt(l, k), id);
    ChainsApart(slots, ids, l, KeyOf(Lookup(l, id).value), k);
    RemoveFromOtherQueue(slots, slots', ids, q, j, IdsAt(l, k));
  }

  /** The ends of a queue from which place `j` is taken, read off the removed node. */
  lemma EndsAfterRemove(slots: Slots, ids: Ids, q: seq<OrderId>, j: nat)
    requires j < |q| && Chained(slots, ids, q) && Distinct(ChainOf(ids, q)) && NoDuplicates(q) && |slots| <= NIL
    requires LinkAt(slots, ChainOf(ids, q), j)
    ensures var node := slots[ids[q[j]]].node;
            var q' := q[..j] + q[j + 1..];
            var head := if ids[q[0]] == ids[q[j]] then node.next else ids[q[0]];
            var tail := if ids[q[|q| - 1]] == ids[q[j]] then node.prev else ids[q[|q| - 1]];
            && (q' == [] <==> head == NIL)
            && (q' != [] ==>
                  && q'[0] in ids - {q[j]} && q'[|q'| - 1] in ids - {q[j]}
                  && head == ids[q'[0]] && tail == ids[q'[|q'| - 1]])
  {
    var chain := ChainOf(ids, q);
    assert LinkAt(slots, chain, 0);
    assert chain[0] == ids[q[0]] && chain[|q| - 1] == ids[q[|q| - 1]] && chain[j] == ids[q[j]];
    if j == 0 && 1 < |q| { assert LinkAt(slots, chain, 1); }
  }

  ghost predicate Resized(slots: Slots, slots': Slots, idx: Index, qty: Quantity)
    requires idx < |slots| && slots[idx].Occupied?
  {
    slots' == slots[idx := Occupied(slots[idx].node.(order := slots[idx].node.order.(qty := qty)))]
  }

  lemma ResizeKeepsLinks(slots: Slots, slots': Slots, ids: Ids, l: seq<Order>, id: OrderId, qty: Quantity)
    requires DistinctIds(l) && Indexed(slots, ids, l) && AllChained(slots, ids, l)
    requires id in ids && Holds(slots, ids[id], Lookup(l, id)) && Resized(slots, slots', ids[id], qty)
    ensures var l' := Amend(l, id, Some(Lookup(l, id).value.(qty := qty)));
            Indexed(slots', ids, l') && AllChained(slots', ids, l')
  {
    var o := Lookup(l, id).value.(qty := qty);
    var l' := Amend(l, id, Some(o));
    forall x: OrderId ensures Lookup(l', x) == if x == id then Some(o) else Lookup(l, x) {
      LookupAmend(l, id, Some(o), x);
    }
    forall x | x in ids ensures Holds(slots', ids[x], Lookup(l', x)) {
      assert Holds(slots, ids[x], Lookup(l, x));
    }
    forall k: LevelKey ensures Chained(slots', ids, IdsAt(l', k)) {
      IdsAfterResize(l, id, o, k);
      assert Chained(slots, ids, IdsAt(l, k));
      var chain := ChainOf(ids, IdsAt(l, k));
      forall j: nat | j < |chain| ensures LinkAt(slots', chain, j) {
        assert LinkAt(slots, chain, j);
      }
    }
  }

  // ---- Cached levels ----

  /** The tail cached for a level, or NIL where there is none, is the end of the queue's chain. */
  lemma CachedTail(exact: bool, slots: Slots, ids: Ids, l: seq<Order>, k: LevelKey, levels: Levels)
    requires AllChained(slots, ids, l) && SideExact(exact, k.side, levels, ids, l)
    ensures Chained(slots, ids, IdsAt(l, k))
    ensures Last(ChainOf(ids, IdsAt(l, k))) == if k.price in levels then levels[k.price].tail else NIL
  {
    assert Chained(slots, ids, IdsAt(l, k));
    assert LevelExact(exact, levels, k.price, ids, IdsAt(l, k), QtyAt(l, k));
  }

  lemma OtherLevelAfterAppend(exact: bool, exact': bool, levels: Levels, levels': Levels, ids: Ids, l: seq<Order>,
                              idx: Index, order: Order, k: LevelKey)
    requires exact' ==> exact
    requires DistinctIds(l) && Lookup(l, order.id).None? && k != KeyOf(order)
    requires LevelExact(exact, levels, k.price, ids, IdsAt(l, k), QtyAt(l, k))
    requires k.price in levels' <==> k.price in levels
    requires k.price in levels ==> levels'[k.price] == levels[k.price]
    ensures LevelExact(exact', levels', k.price, ids[order.id := idx], IdsAt(l + [order], k), QtyAt(l + [order], k))
  {
    AppendFacts(l, order, k);
    QueueMembers(l, k);
  }

  lemma AppendKeepsSide(exact: bool, exact': bool, side: Side, levels: Levels, levels': Levels, ids: Ids,
                        l: seq<Order>, idx: Index, order: Order)
    requires exact' ==> exact
    requires DistinctIds(l) && Lookup(l, order.id).None? && SideExact(exact, side, levels, ids, l)
    requires if side != order.side then levels' == levels
             else
               && (forall p :: p != order.price ==> (p in levels' <==> p in levels))
               && (forall p :: p in levels && p != order.price ==> levels'[p] == levels[p])
               && LevelExact(exact', levels', order.price, ids[order.id := idx], IdsAt(l + [order], KeyOf(order)),
                             QtyAt(l + [order], KeyOf(order)))
    ensures SideExact(exact', side, levels', ids[order.id := idx], l + [order])
  {
    forall k: LevelKey | k.side == side
      ensures LevelExact(exact', levels', k.price, ids[order.id := idx], IdsAt(l + [order], k), QtyAt(l + [order], k))
    {
      if k != KeyOf(order) {
        assert LevelExact(exact', levels, k.price, ids, IdsAt(l, k), QtyAt(l, k));
        OtherLevelAfterAppend(exact, exact', levels, levels', ids, l, idx, order, k);
      }
    }
  }

  /** Everything but the free list that a valid book keeps. */
  ghost predicate Represents(exact: bool, slots: Slots, bids: Levels, asks: Levels, ids: Ids, l: seq<Order>) {
    && |slots| <= NIL
    && DistinctIds(l)
    && Indexed(slots, ids, l)
    && AllChained(slots, ids, l)
    && SideExact(exact, Bid, bids, ids, l)
    && SideExact(exact, Ask, asks, ids, l)
  }

  function LevelsOf(side: Side, bids: Levels, asks: Levels): Levels {
    if side == Bid then bids else asks
  }

  /** What a new order finds: the cached tail is a live slot, and the counters of its level. */
  lemma AdmitsOrder(exact: bool, slots: Slots, bids: Levels, asks: Levels, ids: Ids, l: seq<Order>, order: Order)
    requires Represents(exact, slots, bids, asks, ids, l)
    ensures var levels := LevelsOf(order.side, bids, asks);
            order.price in levels ==>
              && levels[order.price].tail < |slots|
              && slots[levels[order.price].tail].Occupied?
              && (exact ==> levels[order.price].totalQty == QtyAt(l, KeyOf(order)))
              && levels[order.price].orderCount <= |l|
  {
    var q := IdsAt(l, KeyOf(order));
    QueueWithinBook(l, KeyOf(order));
    assert LevelExact(exact, LevelsOf(order.side, bids, asks), order.price, ids, q, QtyAt(l, KeyOf(order)));
    if q != [] {
      assert Chained(slots, ids, q);
      assert LinkAt(slots, ChainOf(ids, q), |q| - 1);
    }
  }

  ghost predicate CountedIn(levels: Levels, levels': Levels, idx: Index, order: Order) {
    var was := if order.price in levels then levels[order.price] else EMPTY;
    && was.orderCount < U32_MAX
    && levels' == levels[order.price := Level(if was.head == NIL then idx else was.head, idx,
                                              WrapAdd(was.totalQty, order.qty), was.orderCount + 1)]
  }

  /** One side of the book changes as `CountedIn` says, the other does not change. */
  ghost predicate BookCountedIn(bids: Levels, bids': Levels, asks: Levels, asks': Levels, idx: Index, order: Order) {
    if order.side == Bid then asks' == asks && CountedIn(bids, bids', idx, order)
    else bids' == bids && CountedIn(asks, asks', idx, order)
  }

  lemma LevelAfterAppend(exact: bool, exact': bool, slots: Slots, levels: Levels, levels': Levels, ids: Ids,
                         l: seq<Order>, idx: Index, order: Order)
    requires exact' ==> QtyAt(l, KeyOf(order)) + order.qty <= U64_MAX
    requires exact' ==> exact
    requires DistinctIds(l) && Lookup(l, order.id).None? && SideExact(exact, order.side, levels, ids, l)
    requires |slots| <= NIL && AllChained(slots, ids, l) && CountedIn(levels, levels', idx, order)
    ensures LevelExact(exact', levels', order.price, ids[order.id := idx], IdsAt(l + [order], KeyOf(order)),
                       QtyAt(l + [order], KeyOf(order)))
  {
    var k := KeyOf(order);
    var q := IdsAt(l, k);
    assert LevelExact(exact, levels, order.price, ids, q, QtyAt(l, k));
    QueueMembers(l, k);
    AppendFacts(l, order, k);
    if q == [] {
      NoQueueNoQty(l, k);
    } else {
      assert Chained(slots, ids, q);
      assert LinkAt(slots, ChainOf(ids, q), 0);
    }
  }

  /** One side of the book, which may be the one the order joins. */
  lemma AppendKeepsSideOf(exact: bool, exact': bool, slots: Slots, side: Side, levels: Levels, levels': Levels,
                          ids: Ids, l: seq<Order>, idx: Index, order: Order)
    requires exact' ==> exact && QtyAt(l, KeyOf(order)) + order.qty <= U64_MAX
    requires DistinctIds(l) && Lookup(l, order.id).None? && SideExact(exact, side, levels, ids, l)
    requires |slots| <= NIL && AllChained(slots, ids, l)
    requires if side == order.side then CountedIn(levels, levels', idx, order) else levels' == levels
    ensures SideExact(exact', side, levels', ids[order.id := idx], l + [order])
  {
    if side == order.side {
      LevelAfterAppend(exact, exact', slots, levels, levels', ids, l, idx, order);
    }
    AppendKeepsSide(exact, exact', side, levels, levels', ids, l, idx, order);
  }

  lemma AppendKeepsSides(exact: bool, exact': bool, slots: Slots, bids: Levels, bids': Levels,
                         asks: Levels, asks': Levels, ids: Ids, l: seq<Order>, idx: Index, order: Order)
    requires exact' ==> exact && QtyAt(l, KeyOf(order)) + order.qty <= U64_MAX
    requires Represents(exact, slots, bids, asks, ids, l) && Lookup(l, order.id).None?
    requires BookCountedIn(bids, bids', asks, asks', idx, order)
    ensures SideExact(exact', Bid, bids', ids[order.id := idx], l + [order])
    ensures SideExact(exact', Ask, asks', ids[order.id := idx], l + [order])
  {
    AppendKeepsSideOf(exact, exact', slots, Bid, bids, bids', ids, l, idx, order);
    AppendKeepsSideOf(exact, exact', slots, Ask, asks, asks', ids, l, idx, order);
  }

  lemma AppendKeepsBook(exact: bool, exact': bool, slots: Slots, slots': Slots, bids: Levels, bids': Levels,
                        asks: Levels, asks': Levels, ids: Ids, l: seq<Order>, idx: Index, order: Order, tail: Index)
    requires exact' ==> QtyAt(l, KeyOf(order)) + order.qty <= U64_MAX
    requires exact' ==> exact
    requires Represents(exact, slots, bids, asks, ids, l) && Lookup(l, order.id).None?
    requires var levels := LevelsOf(order.side, bids, asks);
             tail == if order.price in levels then levels[order.price].tail else NIL
    requires Appended(slots, slots', idx, order, tail)
    requires BookCountedIn(bids, bids', asks, asks', idx, order)
    ensures Represents(exact', slots', bids', asks', ids[order.id := idx], l + [order])
  {
    CachedTail(exact, slots, ids, l, KeyOf(order), LevelsOf(order.side, bids, asks));
    AppendKeepsIndex(slots, slots', ids, l, idx, order, tail);
    AppendKeepsChains(slots, slots', ids, l, idx, order, tail);
    AppendFacts(l, order, KeyOf(order));
    AppendKeepsSides(exact, exact', slots, bids, bids', asks, asks', ids, l, idx, order);
  }

  /** 64-bit addition and subtraction as the program's release build does them. */
  function WrapAdd(a: Quantity, b: Quantity): (r: Quantity)
    ensures r == a + b || r == a + b - 0x1_0000_0000_0000_0000
  {
    if a + b <= U64_MAX then a + b else a + b - (U64_MAX + 1)
  }

  function WrapSub(a: Quantity, b: Quantity): (r: Quantity)
    ensures r == a - b || r == a - b + 0x1_0000_0000_0000_0000
  {
    if b <= a then a - b else a - b + (U64_MAX + 1)
  }

  function SaturatingSub(a: Quantity, b: Quantity): (r: Quantity)
    ensures r + b >= a && (r == 0 || r + b == a)
  {
    if b <= a then a - b else 0
  }

  /** `levels` without the node of slot `idx`: its level shrinks, or goes when that was the last node. */
  ghost predicate CountedOut(levels: Levels, levels': Levels, idx: Index, node: Node<Order>) {
    && node.order.price in levels
    && var was := levels[node.order.price];
    && var head := if was.head == idx then node.next else was.head;
    && var tail := if was.tail == idx then node.prev else was.tail;
    && 0 < was.orderCount
    && levels' ==
       if head == NIL then levels - {node.order.price}
       else levels[node.order.price :=
                   Level(head, tail, SaturatingSub(was.totalQty, node.order.qty), was.orderCount - 1)]
  }

  /** One side of the book changes as `CountedOut` says, the other does not change. */
  ghost predicate BookCountedOut(bids: Levels, bids': Levels, asks: Levels, asks': Levels, idx: Index,
                                 node: Node<Order>)
  {
    if node.order.side == Bid then asks' == asks && CountedOut(bids, bids', idx, node)
    else bids' == bids && CountedOut(asks, asks', idx, node)
  }

  /** Where an order in a chain points: to occupied slots other than its own, one behind and one ahead. */
  lemma NeighboursInChain(slots: Slots, chain: seq<Index>, j: nat)
    requires Threaded(slots, chain) && Distinct(chain) && j < |chain|
    ensures chain[j] < |slots| && slots[chain[j]].Occupied?
    ensures var node := slots[chain[j]].node;
            && (node.prev != NIL ==> node.prev < |slots| && slots[node.prev].Occupied?)
            && (node.next != NIL ==> node.next < |slots| && slots[node.next].Occupied?)
            && (node.prev != NIL ==> node.prev != node.next && node.prev != chain[j])
            && (node.next != NIL ==> node.next != chain[j])
  {
    assert LinkAt(slots, chain, j);
    if 0 < j { assert LinkAt(slots, chain, j - 1); }
    if j + 1 < |chain| { assert LinkAt(slots, chain, j + 1); }
  }

  /** What a live order finds: it is not alone in having a level, and the level covers its quantity. */
  lemma AdmitsRemoval(exact: bool, slots: Slots, bids: Levels, asks: Levels, ids: Ids, l: seq<Order>, id: OrderId)
    requires Represents(exact, slots, bids, asks, ids, l) && id in ids
    ensures Holds(slots, ids[id], Lookup(l, id))
    ensures var node := slots[ids[id]].node;
            var levels := LevelsOf(node.order.side, bids, asks);
            && node.order.id == id
            && node.order.price in levels
            && (exact ==> node.order.qty <= levels[node.order.price].totalQty)
            && 0 < levels[node.order.price].orderCount
            && (exact ==> levels[node.order.price].totalQty == QtyAt(l, KeyOf(node.order)))
            && (node.prev != NIL ==> node.prev < |slots| && slots[node.prev].Occupied?)
            && (node.next != NIL ==> node.next < |slots| && slots[node.next].Occupied?)
            && (node.prev != NIL ==> node.prev != node.next && node.prev != ids[id])
            && (node.next != NIL ==> node.next != ids[id])
  {
    assert Holds(slots, ids[id], Lookup(l, id));
    var q, j := PlaceOf(slots, ids, l, id);
    var k := KeyOf(Lookup(l, id).value);
    assert LevelExact(exact, LevelsOf(k.side, bids, asks), k.price, ids, q, QtyAt(l, k));
    ShareWithinTotal(l, id, k);
    NeighboursInChain(slots, ChainOf(ids, q), j);
  }

  /** The level of a queue that lost its place `j`. */
  lemma LevelWithout(exact: bool, slots: Slots, levels: Levels, levels': Levels, ids: Ids, price: Price,
                     q: seq<OrderId>, j: nat, total: nat)
    requires j < |q| && Chained(slots, ids, q) && Distinct(ChainOf(ids, q)) && NoDuplicates(q) && |slots| <= NIL
    requires LinkAt(slots, ChainOf(ids, q), j) && LevelExact(exact, levels, price, ids, q, total)
    requires var node := slots[ids[q[j]]].node;
             node.order.price == price && node.order.qty <= total && CountedOut(levels, levels', ids[q[j]], node)
    ensures LevelExact(exact, levels', price, ids - {q[j]}, q[..j] + q[j + 1..],
                       total - slots[ids[q[j]]].node.order.qty)
  {
    EndsAfterRemove(slots, ids, q, j);
  }

  lemma LevelAfterRemove(exact: bool, slots: Slots, levels: Levels, levels': Levels, ids: Ids, l: seq<Order>, o: Order)
    requires DistinctIds(l) && Indexed(slots, ids, l) && AllChained(slots, ids, l) && |slots| <= NIL
    requires o.id in ids && Lookup(l, o.id) == Some(o) && Holds(slots, ids[o.id], Some(o))
    requires SideExact(exact, o.side, levels, ids, l) && CountedOut(levels, levels', ids[o.id], slots[ids[o.id]].node)
    ensures LevelExact(exact, levels', o.price, ids - {o.id}, IdsAt(Amend(l, o.id, None), KeyOf(o)),
                       QtyAt(Amend(l, o.id, None), KeyOf(o)))
  {
    var k := KeyOf(o);
    var q, j := PlaceOf(slots, ids, l, o.id);
    assert LevelExact(exact, levels, k.price, ids, q, QtyAt(l, k));
    assert LinkAt(slots, ChainOf(ids, q), j);
    ShareWithinTotal(l, o.id, k);
    QtyAfterAmend(l, o.id, None, k);
    LevelWithout(exact, slots, levels, levels', ids, o.price, q, j, QtyAt(l, k));
  }

  lemma OtherLevelAfterRemove(exact: bool, levels: Levels, levels': Levels, ids: Ids, l: seq<Order>, o: Order,
                              k: LevelKey)
    requires DistinctIds(l) && Lookup(l, o.id) == Some(o) && k != KeyOf(o)
    requires LevelExact(exact, levels, k.price, ids, IdsAt(l, k), QtyAt(l, k))
    requires k.price in levels' <==> k.price in levels
    requires k.price in levels ==> levels'[k.price] == levels[k.price]
    ensures LevelExact(exact, levels', k.price, ids - {o.id}, IdsAt(Amend(l, o.id, None), k),
                       QtyAt(Amend(l, o.id, None), k))
  {
    IdsAfterDrop(l, o.id, k);
    QueueMembers(l, k);
    WithoutAbsent(IdsAt(l, k), o.id);
    QtyAfterAmend(l, o.id, None, k);
  }

  lemma RemoveKeepsSide(exact: bool, side: Side, levels: Levels, levels': Levels, ids: Ids, l: seq<Order>, o: Order)
    requires DistinctIds(l) && Lookup(l, o.id) == Some(o) && SideExact(exact, side, levels, ids, l)
    requires if side != o.side then levels' == levels
             else
               && (forall p :: p != o.price ==> (p in levels' <==> p in levels))
               && (forall p :: p in levels && p != o.price ==> levels'[p] == levels[p])
               && LevelExact(exact, levels', o.price, ids - {o.id}, IdsAt(Amend(l, o.id, None), KeyOf(o)),
                             QtyAt(Amend(l, o.id, None), KeyOf(o)))
    ensures SideExact(exact, side, levels', ids - {o.id}, Amend(l, o.id, None))
  {
    var l' := Amend(l, o.id, None);
    forall k: LevelKey | k.side == side
      ensures LevelExact(exact, levels', k.price, ids - {o.id}, IdsAt(l', k), QtyAt(l', k))
    {
      if k != KeyOf(o) {
        assert LevelExact(exact, levels, k.price, ids, IdsAt(l, k), QtyAt(l, k));
        OtherLevelAfterRemove(exact, levels, levels', ids, l, o, k);
      }
    }
  }

  /** One side of the book, which may be the one the order leaves. */
  lemma RemoveKeepsSideOf(exact: bool, slots: Slots, side: Side, levels: Levels, levels': Levels, ids: Ids,
                          l: seq<Order>, o: Order)
    requires DistinctIds(l) && Indexed(slots, ids, l) && AllChained(slots, ids, l) && |slots| <= NIL
    requires o.id in ids && Lookup(l, o.id) == Some(o) && Holds(slots, ids[o.id], Some(o))
    requires SideExact(exact, side, levels, ids, l)
    requires if side == o.side then CountedOut(levels, levels', ids[o.id], slots[ids[o.id]].node) else levels' == levels
    ensures SideExact(exact, side, levels', ids - {o.id}, Amend(l, o.id, None))
  {
    if side == o.side {
      LevelAfterRemove(exact, slots, levels, levels', ids, l, o);
    }
    RemoveKeepsSide(exact, side, levels, levels', ids, l, o);
  }

  lemma RemoveKeepsSides(exact: bool, slots: Slots, bids: Levels, bids': Levels, asks: Levels, asks': Levels,
                         ids: Ids, l: seq<Order>, o: Order)
    requires Represents(exact, slots, bids, asks, ids, l)
    requires o.id in ids && Lookup(l, o.id) == Some(o) && Holds(slots, ids[o.id], Some(o))
    requires BookCountedOut(bids, bids', asks, asks', ids[o.id], slots[ids[o.id]].node)
    ensures SideExact(exact, Bid, bids', ids - {o.id}, Amend(l, o.id, None))
    ensures SideExact(exact, Ask, asks', ids - {o.id}, Amend(l, o.id, None))
  {
    RemoveKeepsSideOf(exact, slots, Bid, bids, bids', ids, l, o);
    RemoveKeepsSideOf(exact, slots, Ask, asks, asks', ids, l, o);
  }

  lemma RemoveKeepsBook(exact: bool, slots: Slots, slots': Slots, bids: Levels, bids': Levels,
                        asks: Levels, asks': Levels, ids: Ids, l: seq<Order>, o: Order)
    requires Represents(exact, slots, bids, asks, ids, l)
    requires o.id in ids && Lookup(l, o.id) == Some(o) && Holds(slots, ids[o.id], Some(o))
    requires Removed(slots, slots', ids[o.id])
    requires BookCountedOut(bids, bids', asks, asks', ids[o.id], slots[ids[o.id]].node)
    ensures Represents(exact, slots', bids', asks', ids - {o.id}, Amend(l, o.id, None))
  {
    AmendKeepsDistinct(l, o.id, None);
    RemoveKeepsChains(slots, slots', ids, l, o.id);
    LookupsAfterDrop(l, o.id);
    RemoveKeepsIndex(slots, slots', ids, l, o.id, Amend(l, o.id, None));
    RemoveKeepsSides(exact, slots, bids, bids', asks, asks', ids, l, o);
  }

  // ---- A quantity taken off one order and off its level ----

  ghost predicate TakenOff(levels: Levels, levels': Levels, price: Price, qty: Quantity) {
    && price in levels
    && levels' == levels[price := levels[price].(totalQty := WrapSub(levels[price].totalQty, qty))]
  }

  /** One side of the book changes as `TakenOff` says, the other does not change. */
  ghost predicate BookTakenOff(bids: Levels, bids': Levels, asks: Levels, asks': Levels, o: Order, qty: Quantity) {
    if o.side == Bid then asks' == asks && TakenOff(bids, bids', o.price, qty)
    else bids' == bids && TakenOff(asks, asks', o.price, qty)
  }

  lemma ResizeKeepsSide(exact: bool, side: Side, levels: Levels, levels': Levels, ids: Ids, l: seq<Order>, o: Order,
                        qty: Quantity)
    requires DistinctIds(l) && Lookup(l, o.id) == Some(o) && qty <= o.qty && SideExact(exact, side, levels, ids, l)
    requires if side != o.side then levels' == levels else TakenOff(levels, levels', o.price, qty)
    ensures SideExact(exact, side, levels', ids, Amend(l, o.id, Some(o.(qty := o.qty - qty))))
  {
    var o' := o.(qty := o.qty - qty);
    var l' := Amend(l, o.id, Some(o'));
    forall k: LevelKey | k.side == side
      ensures LevelExact(exact, levels', k.price, ids, IdsAt(l', k), QtyAt(l', k))
    {
      assert LevelExact(exact, levels, k.price, ids, IdsAt(l, k), QtyAt(l, k));
      IdsAfterResize(l, o.id, o', k);
      QtyAfterAmend(l, o.id, Some(o'), k);
    }
  }

  lemma ResizeKeepsBook(exact: bool, slots: Slots, slots': Slots, bids: Levels, bids': Levels,
                        asks: Levels, asks': Levels, ids: Ids, l: seq<Order>, o: Order, qty: Quantity)
    requires Represents(exact, slots, bids, asks, ids, l) && o.id in ids && qty <= o.qty
    requires Holds(slots, ids[o.id], Some(o)) && Lookup(l, o.id) == Some(o)
    requires Resized(slots, slots', ids[o.id], o.qty - qty)
    requires BookTakenOff(bids, bids', asks, asks', o, qty)
    ensures Represents(exact, slots', bids', asks', ids, Amend(l, o.id, Some(o.(qty := o.qty - qty))))
  {
    AmendKeepsDistinct(l, o.id, Some(o.(qty := o.qty - qty)));
    ResizeKeepsLinks(slots, slots', ids, l, o.id, o.qty - qty);
    ResizeKeepsSide(exact, Bid, bids, bids', ids, l, o, qty);
    ResizeKeepsSide(exact, Ask, asks, asks', ids, l, o, qty);
  }

  // ---- Cached totals against the scan ----

  /** Every cached total is the sum of the quantities resting at its level. */
  ghost predicate TotalsHold(bids: Levels, asks: Levels, l: seq<Order>) {
    forall k: LevelKey :: k.price in LevelsOf(k.side, bids, asks) ==> TotalHolds(LevelsOf(k.side, bids, asks), l, k)
  }

  ghost predicate TotalHolds(levels: Levels, l: seq<Order>, k: LevelKey) {
    k.price in levels && levels[k.price].totalQty == QtyAt(l, k)
  }

  lemma ExactTotalsHold(slots: Slots, bids: Levels, asks: Levels, ids: Ids, l: seq<Order>)
    requires Represents(true, slots, bids, asks, ids, l)
    ensures TotalsHold(bids, asks, l)
  {
    forall k: LevelKey | k.price in LevelsOf(k.side, bids, asks)
      ensures TotalHolds(LevelsOf(k.side, bids, asks), l, k)
    {
      assert LevelExact(true, LevelsOf(k.side, bids, asks), k.price, ids, IdsAt(l, k), QtyAt(l, k));
    }
  }

  /** A 64-bit total cannot be the sum of more. */
  lemma OverflowShows(exact: bool, slots: Slots, bids: Levels, asks: Levels, ids: Ids, l: seq<Order>, k: LevelKey)
    requires Represents(exact, slots, bids, asks, ids, l) && QtyAt(l, k) > U64_MAX
    ensures !TotalsHold(bids, asks, l)
  {
    if IdsAt(l, k) == [] { NoQueueNoQty(l, k); }
    assert LevelExact(exact, LevelsOf(k.side, bids, asks), k.price, ids, IdsAt(l, k), QtyAt(l, k));
    assert !TotalHolds(LevelsOf(k.side, bids, asks), l, k);
  }

  /** After an order was counted into a book of exact totals, they are exact just if its total fits. */
  lemma TotalsAfterAppend(fits: bool, slots: Slots, bids: Levels, asks: Levels, ids: Ids, l: seq<Order>, order: Order)
    requires fits == (QtyAt(l, KeyOf(order)) + order.qty <= U64_MAX)
    requires Represents(fits, slots, bids, asks, ids, l + [order])
    ensures TotalsHold(bids, asks, l + [order]) <==> fits
  {
    AppendFacts(l, order, KeyOf(order));
    if fits {
      ExactTotalsHold(slots, bids, asks, ids, l + [order]);
    } else {
      OverflowShows(fits, slots, bids, asks, ids, l + [order], KeyOf(order));
    }
  }
}
