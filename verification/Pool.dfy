/** Slab arena for order nodes with a free list threaded through the dead slots. */
module Pool {
  import opened Widths

  type Index = u32

  /** "No neighbour" and "end of list". */
  const NIL: Index := 0xFFFF_FFFF

  datatype Node<T> = Node(order: T, prev: Index, next: Index)

  datatype Slot<T> = Occupied(node: Node<T>) | Free(next: Index)

  /** The free slot at place `n` of `list` leads to the one at the next place. */
  ghost predicate FreeLinkAt<T>(slots: seq<Slot<T>>, list: seq<Index>, n: nat)
    requires n < |list|
  {
    && list[n] < |slots|
    && slots[list[n]] == Free(if n == |list| - 1 then NIL else list[n + 1])
  }

  /** `list` is what following the free links from `head` visits, and it is every free slot. */
  ghost predicate FreeListIs<T>(slots: seq<Slot<T>>, head: Index, list: seq<Index>) {
    && (if list == [] then head == NIL else head == list[0] && head != NIL)
    && (forall n: nat :: n < |list| ==> FreeLinkAt(slots, list, n))
    && (forall m, n :: 0 <= m < n < |list| ==> list[m] != list[n])
    && (forall i :: 0 <= i < |slots| && slots[i].Free? ==> i in list)
  }

  lemma ListedIsFree<T>(slots: seq<Slot<T>>, head: Index, list: seq<Index>, i: Index)
    requires FreeListIs(slots, head, list) && i in list
    ensures i < |slots| && slots[i].Free?
  {
    var n :| 0 <= n < |list| && list[n] == i;
    assert FreeLinkAt(slots, list, n);
  }

  class Pool<T> {
    var slots: seq<Slot<T>>
    var freeHead: Index
    ghost var freeList: seq<Index>

    ghost predicate Valid()
      reads this
    {
      |slots| <= NIL && FreeListIs(slots, freeHead, freeList)
    }

    /** An allocation cannot run out of indices. */
    predicate HasRoom()
      reads this
    {
      freeHead != NIL || |slots| < NIL
    }

    predicate InUse(idx: Index)
      reads this
    {
      idx < |slots| && slots[idx].Occupied?
    }

    constructor ()
      ensures Valid() && slots == [] && freeList == []
    {
      slots, freeHead, freeList := [], NIL, [];
    }

    /** Takes the most recently freed slot, and only when there is none a new one. */
    method Alloc(node: Node<T>) returns (idx: Index)
      requires Valid() && HasRoom()
      modifies this
      ensures Valid()
      ensures !old(InUse(idx)) && idx != NIL
      ensures old(freeList) == [] ==>
                idx == |old(slots)| && slots == old(slots) + [Occupied(node)] && freeList == []
      ensures old(freeList) != [] ==>
                && idx == old(freeList)[0]
                && idx < |old(slots)| && slots == old(slots)[idx := Occupied(node)]
                && freeList == old(freeList)[1..]
    {
      if freeHead != NIL {
        idx := freeHead;
        assert FreeLinkAt(slots, freeList, 0) && (1 < |freeList| ==> FreeLinkAt(slots, freeList, 1));
        freeHead := slots[idx].next;
        slots := slots[idx := Occupied(node)];
        freeList := freeList[1..];
        assert old(freeList) == [idx] + freeList;
        forall n: nat | n < |freeList| ensures FreeLinkAt(slots, freeList, n) {
          assert FreeLinkAt(old(slots), old(freeList), n + 1);
          assert freeList[n] != idx;
        }
        return;
      }
      idx := |slots|;
      slots := slots + [Occupied(node)];
    }

    method Release(idx: Index)
      requires Valid() && InUse(idx)
      modifies this
      ensures Valid()
      ensures slots == old(slots)[idx := Free(old(freeHead))]
      ensures freeList == [idx] + old(freeList)
    {
      if idx in freeList { ListedIsFree(slots, freeHead, freeList, idx); }
      slots := slots[idx := Free(freeHead)];
      freeHead := idx;
      freeList := [idx] + freeList;
      forall n: nat | n < |freeList| ensures FreeLinkAt(slots, freeList, n) {
        if n > 0 { assert FreeLinkAt(old(slots), old(freeList), n - 1); }
      }
    }

    function Get(idx: Index): Node<T>
      requires InUse(idx)
      reads this
    {
      slots[idx].node
    }

    /** An update through a mutable reference to the node at `idx`. */
    method Set(idx: Index, node: Node<T>)
      requires Valid() && InUse(idx)
      modifies this`slots
      ensures Valid()
      ensures slots == old(slots)[idx := Occupied(node)]
    {
      if idx in freeList { ListedIsFree(slots, freeHead, freeList, idx); }
      slots := slots[idx := Occupied(node)];
      forall n: nat | n < |freeList| ensures FreeLinkAt(slots, freeList, n) {
        assert FreeLinkAt(old(slots), freeList, n) && freeList[n] in freeList;
      }
    }

    function CapacityUsed(): nat
      reads this
    {
      |slots|
    }
  }
}
