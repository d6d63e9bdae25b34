/** The reference meaning of the book: one list of live orders in order of arrival.

    Time priority is built in.  A new or replacing order goes to the end of the list, a reduction
    leaves an order where it is, and a queue of the book is the part of the list at one side and
    price.  There are no levels, links, slots or cached totals here. */
module BookModel {
  import opened Wrappers
  import opened OrderTypes

  /** The book operations an ITCH feed triggers. */
  datatype Event =
    | Add(order: Order)
    | Execute(id: OrderId, qty: Quantity, ts: Timestamp)
    | ExecuteAt(id: OrderId, qty: Quantity, price: Price, ts: Timestamp)
    | Cancel(id: OrderId, qty: Quantity)
    | Delete(id: OrderId)
    | Replace(oldId: OrderId, newId: OrderId, price: Price, qty: Quantity, ts: Timestamp)

  datatype Outcome = Accepted | Filled(trade: Trade) | Rejected(error: BookError)

  // ---- Reading the list ----

  function Lookup(l: seq<Order>, id: OrderId): (r: Option<Order>)
    ensures r.Some? ==> r.value.id == id
  {
    if l == [] then None
    else if l[|l| - 1].id == id then Some(l[|l| - 1])
    else Lookup(l[..|l| - 1], id)
  }

  ghost predicate DistinctIds(l: seq<Order>) {
    l == [] || (DistinctIds(l[..|l| - 1]) && Lookup(l[..|l| - 1], l[|l| - 1].id).None?)
  }

  /** The queue at `k`: ids of the live orders there, oldest first. */
  function IdsAt(l: seq<Order>, k: LevelKey): seq<OrderId> {
    if l == [] then []
    else IdsAt(l[..|l| - 1], k) + (if KeyOf(l[|l| - 1]) == k then [l[|l| - 1].id] else [])
  }

  /** Resting quantity at `k`, by a scan of all live orders. */
  function QtyAt(l: seq<Order>, k: LevelKey): nat {
    if l == [] then 0
    else QtyAt(l[..|l| - 1], k) + (if KeyOf(l[|l| - 1]) == k then l[|l| - 1].qty else 0)
  }

  /** `l` with the order called `id` changed to `o`, or dropped. */
  function Amend(l: seq<Order>, id: OrderId, o: Option<Order>): seq<Order> {
    if l == [] then []
    else Amend(l[..|l| - 1], id, o) +
         (if l[|l| - 1].id != id then [l[|l| - 1]] else if o.Some? then [o.value] else [])
  }

  // ---- Steps and runs ----

  /** What is left of an order after `qty` of it is taken away. */
  function Shrunk(o: Order, qty: Quantity): Option<Order>
    requires qty <= o.qty
  {
    if qty == o.qty then None else Some(o.(qty := o.qty - qty))
  }

  function ExecuteStep(l: seq<Order>, id: OrderId, qty: Quantity, ts: Timestamp, printAt: Option<Price>)
    : (seq<Order>, Outcome)
  {
    match Lookup(l, id)
    case None => (l, Rejected(UnknownOrder(id)))
    case Some(o) =>
      if qty > o.qty then (l, Rejected(OverExecute(id, qty, o.qty)))
      else (Amend(l, id, Shrunk(o, qty)), Filled(Trade(id, printAt.GetOr(o.price), qty, ts)))
  }

  function CancelStep(l: seq<Order>, id: OrderId, qty: Quantity): (seq<Order>, Outcome) {
    match Lookup(l, id)
    case None => (l, Rejected(UnknownOrder(id)))
    case Some(o) =>
      if qty > o.qty then (l, Rejected(OverCancel(id, qty, o.qty)))
      else (Amend(l, id, Shrunk(o, qty)), Accepted)
  }

  function DeleteStep(l: seq<Order>, id: OrderId): (seq<Order>, Outcome) {
    match Lookup(l, id)
    case None => (l, Rejected(UnknownOrder(id)))
    case Some(o) => (Amend(l, id, None), Accepted)
  }

  function AddStep(l: seq<Order>, o: Order): (seq<Order>, Outcome) {
    if Lookup(l, o.id).Some? then (l, Rejected(DuplicateOrder(o.id))) else (l + [o], Accepted)
  }

  /** The old order leaves before the new id is checked: a duplicate new id loses the old order. */
  function ReplaceStep(l: seq<Order>, oldId: OrderId, newId: OrderId, price: Price, qty: Quantity, ts: Timestamp)
    : (seq<Order>, Outcome)
  {
    match Lookup(l, oldId)
    case None => (l, Rejected(UnknownOrder(oldId)))
    case Some(o) => AddStep(Amend(l, oldId, None), Order(newId, o.side, price, qty, ts))
  }

  function Step(l: seq<Order>, e: Event): (seq<Order>, Outcome) {
    match e
    case Add(o) => AddStep(l, o)
    case Execute(id, qty, ts) => ExecuteStep(l, id, qty, ts, None)
    case ExecuteAt(id, qty, price, ts) => ExecuteStep(l, id, qty, ts, Some(price))
    case Cancel(id, qty) => CancelStep(l, id, qty)
    case Delete(id) => DeleteStep(l, id)
    case Replace(oldId, newId, price, qty, ts) => ReplaceStep(l, oldId, newId, price, qty, ts)
  }

  function Run(l: seq<Order>, es: seq<Event>): seq<Order> {
    if es == [] then l else Step(Run(l, es[..|es| - 1]), es[|es| - 1]).0
  }

  function Outcomes(l: seq<Order>, es: seq<Event>): seq<Outcome> {
    if es == [] then []
    else Outcomes(l, es[..|es| - 1]) + [Step(Run(l, es[..|es| - 1]), es[|es| - 1]).1]
  }

  // ---- The list operations on lookups, queues and totals ----

  ghost predicate NoDuplicates(s: seq<OrderId>) {
    forall i, j :: 0 <= i < j < |s| ==> s[i] != s[j]
  }

  function Without(s: seq<OrderId>, id: OrderId): seq<OrderId> {
    if s == [] then []
    else Without(s[..|s| - 1], id) + (if s[|s| - 1] == id then [] else [s[|s| - 1]])
  }

  lemma {:induction false} WithoutAbsent(s: seq<OrderId>, id: OrderId)
    requires id !in s
    ensures Without(s, id) == s
  {
    if s != [] { WithoutAbsent(s[..|s| - 1], id); }
  }

  /** Dropping an id from a duplicate-free queue closes the gap at its position. */
  lemma {:induction false} WithoutAt(s: seq<OrderId>, j: nat)
    requires j < |s| && NoDuplicates(s)
    ensures Without(s, s[j]) == s[..j] + s[j + 1..]
  {
    var n := |s| - 1;
    if j == n {
      WithoutAbsent(s[..n], s[n]);
    } else {
      WithoutAt(s[..n], j);
      assert s[..j] + s[j + 1..] == s[..n][..j] + s[..n][j + 1..] + [s[n]];
    }
  }

  /** A queue holds exactly the live orders of its side and price, each once. */
  lemma {:induction false} QueueMembers(l: seq<Order>, k: LevelKey)
    requires DistinctIds(l)
    ensures NoDuplicates(IdsAt(l, k))
    ensures forall id :: id in IdsAt(l, k) <==> Lookup(l, id).Some? && KeyOf(Lookup(l, id).value) == k
  {
    if l != [] {
      var n := |l| - 1;
      QueueMembers(l[..n], k);
      assert l == l[..n] + [l[n]];
    }
  }

  lemma {:induction false} LookupAmend(l: seq<Order>, id: OrderId, o: Option<Order>, x: OrderId)
    requires o.Some? ==> o.value.id == id && Lookup(l, id).Some?
    ensures Lookup(Amend(l, id, o), x) == if x == id then o else Lookup(l, x)
  {
    if l != [] {
      var n := |l| - 1;
      var m := Amend(l[..n], id, o);
      if l[n].id != id {
        LookupAmend(l[..n], id, o, x);
        assert (m + [l[n]])[..|m|] == m;
      } else if o.Some? {
        assert (m + [o.value])[..|m|] == m;
        if x != id && Lookup(l[..n], id).Some? { LookupAmend(l[..n], id, o, x); }
        else if x != id { AmendAbsent(l[..n], id, o); }
      } else {
        LookupAmend(l[..n], id, o, x);
        assert m + [] == m;
      }
    }
  }

  lemma LookupsAfterDrop(l: seq<Order>, id: OrderId)
    ensures forall x :: Lookup(Amend(l, id, None), x) == if x == id then None else Lookup(l, x)
  {
    forall x ensures Lookup(Amend(l, id, None), x) == if x == id then None else Lookup(l, x) {
      LookupAmend(l, id, None, x);
    }
  }

  lemma {:induction false} AmendAbsent(l: seq<Order>, id: OrderId, o: Option<Order>)
    requires Lookup(l, id).None?
    ensures Amend(l, id, o) == l
  {
    if l != [] {
      assert l == l[..|l| - 1] + [l[|l| - 1]];
      AmendAbsent(l[..|l| - 1], id, o);
    }
  }

  lemma {:induction false} AmendTwice(l: seq<Order>, id: OrderId, o: Order, o': Option<Order>)
    requires o.id == id
    ensures Amend(Amend(l, id, Some(o)), id, o') == Amend(l, id, o')
  {
    if l != [] {
      var n := |l| - 1;
      var m := Amend(l[..n], id, Some(o));
      AmendTwice(l[..n], id, o, o');
      assert (m + [l[n]])[..|m|] == m && (m + [o])[..|m|] == m;
    }
  }

  /** Amending keeps ids distinct and changes the number of live orders only by a drop. */
  lemma {:induction false} AmendKeepsDistinct(l: seq<Order>, id: OrderId, o: Option<Order>)
    requires DistinctIds(l) && Lookup(l, id).Some?
    requires o.Some? ==> o.value.id == id
    ensures DistinctIds(Amend(l, id, o))
    ensures |Amend(l, id, o)| == |l| - (if o.Some? then 0 else 1)
  {
    var n := |l| - 1;
    var m := Amend(l[..n], id, o);
    if l[n].id == id {
      AmendAbsent(l[..n], id, o);
      assert if o.Some? then (m + [o.value])[..|m|] == m else m + [] == m;
    } else {
      AmendKeepsDistinct(l[..n], id, o);
      LookupAmend(l[..n], id, o, l[n].id);
      assert (m + [l[n]])[..|m|] == m;
    }
  }

  /** Dropping an order drops its id from its queue and leaves the other queues alone. */
  lemma {:induction false} IdsAfterDrop(l: seq<Order>, id: OrderId, k: LevelKey)
    ensures IdsAt(Amend(l, id, None), k) == Without(IdsAt(l, k), id)
  {
    if l != [] {
      var n := |l| - 1;
      var m := Amend(l[..n], id, None);
      IdsAfterDrop(l[..n], id, k);
      var q := IdsAt(l[..n], k);
      assert if l[n].id != id then (m + [l[n]])[..|m|] == m else m + [] == m;
      assert if KeyOf(l[n]) == k then (q + [l[n].id])[..|q|] == q else q + [] == q;
      assert Without(q, id) + [] == Without(q, id);
    }
  }

  /** A change of quantity moves no order in any queue. */
  lemma {:induction false} IdsAfterResize(l: seq<Order>, id: OrderId, o: Order, k: LevelKey)
    requires DistinctIds(l) && Lookup(l, id).Some?
    requires o.id == id && KeyOf(o) == KeyOf(Lookup(l, id).value)
    ensures IdsAt(Amend(l, id, Some(o)), k) == IdsAt(l, k)
  {
    var n := |l| - 1;
    var m := Amend(l[..n], id, Some(o));
    if l[n].id == id {
      AmendAbsent(l[..n], id, Some(o));
      assert (m + [o])[..|m|] == m;
    } else {
      IdsAfterResize(l[..n], id, o, k);
      assert (m + [l[n]])[..|m|] == m;
    }
  }

  function ShareOf(o: Option<Order>, k: LevelKey): nat {
    if o.Some? && KeyOf(o.value) == k then o.value.qty else 0
  }

  /** An amendment moves the total of a level by the change in that one order. */
  lemma {:induction false} QtyAfterAmend(l: seq<Order>, id: OrderId, o: Option<Order>, k: LevelKey)
    requires DistinctIds(l) && Lookup(l, id).Some?
    requires o.Some? ==> o.value.id == id
    ensures QtyAt(Amend(l, id, o), k) == QtyAt(l, k) - ShareOf(Lookup(l, id), k) + ShareOf(o, k)
  {
    var n := |l| - 1;
    var m := Amend(l[..n], id, o);
    if l[n].id == id {
      AmendAbsent(l[..n], id, o);
      assert if o.Some? then (m + [o.value])[..|m|] == m else m + [] == m;
    } else {
      QtyAfterAmend(l[..n], id, o, k);
      assert (m + [l[n]])[..|m|] == m;
    }
  }

  /** Adding at the end of the list adds at the tail of one queue. */
  lemma AppendFacts(l: seq<Order>, o: Order, k: LevelKey)
    ensures IdsAt(l + [o], k) == if KeyOf(o) == k then IdsAt(l, k) + [o.id] else IdsAt(l, k)
    ensures QtyAt(l + [o], k) == QtyAt(l, k) + (if KeyOf(o) == k then o.qty else 0)
    ensures forall id :: Lookup(l + [o], id) == if id == o.id then Some(o) else Lookup(l, id)
    ensures DistinctIds(l) && Lookup(l, o.id).None? ==> DistinctIds(l + [o])
  {
    assert (l + [o])[..|l|] == l;
  }

  /** No order is bigger than the total of its level. */
  lemma {:induction false} ShareWithinTotal(l: seq<Order>, id: OrderId, k: LevelKey)
    ensures ShareOf(Lookup(l, id), k) <= QtyAt(l, k)
  {
    if l != [] && l[|l| - 1].id != id { ShareWithinTotal(l[..|l| - 1], id, k); }
  }

  lemma {:induction false} QueueWithinBook(l: seq<Order>, k: LevelKey)
    ensures |IdsAt(l, k)| <= |l|
  {
    if l != [] { QueueWithinBook(l[..|l| - 1], k); }
  }

  lemma {:induction false} NoQueueNoQty(l: seq<Order>, k: LevelKey)
    requires IdsAt(l, k) == []
    ensures QtyAt(l, k) == 0
  {
    if l != [] { NoQueueNoQty(l[..|l| - 1], k); }
  }
}
