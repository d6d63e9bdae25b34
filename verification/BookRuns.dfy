/** Laws of whole event histories, on the list of live orders. */
module BookRuns {
  import opened Wrappers
  import opened OrderTypes
  import opened BookModel

  lemma StepKeepsDistinct(l: seq<Order>, e: Event)
    requires DistinctIds(l)
    ensures DistinctIds(Step(l, e).0)
  {
    match e
    case Add(o) => AppendFacts(l, o, KeyOf(o));
    case Execute(id, qty, ts) => ReduceKeepsDistinct(l, id, qty);
    case ExecuteAt(id, qty, price, ts) => ReduceKeepsDistinct(l, id, qty);
    case Cancel(id, qty) => ReduceKeepsDistinct(l, id, qty);
    case Delete(id) => if Lookup(l, id).Some? { AmendKeepsDistinct(l, id, None); }
    case Replace(oldId, newId, price, qty, ts) =>
      if Lookup(l, oldId).Some? {
        AmendKeepsDistinct(l, oldId, None);
        var o := Order(newId, Lookup(l, oldId).value.side, price, qty, ts);
        AppendFacts(Amend(l, oldId, None), o, KeyOf(o));
      }
  }

  lemma ReduceKeepsDistinct(l: seq<Order>, id: OrderId, qty: Quantity)
    requires DistinctIds(l)
    ensures Lookup(l, id).Some? && qty <= Lookup(l, id).value.qty ==>
              DistinctIds(Amend(l, id, Shrunk(Lookup(l, id).value, qty)))
  {
    if Lookup(l, id).Some? && qty <= Lookup(l, id).value.qty {
      AmendKeepsDistinct(l, id, Shrunk(Lookup(l, id).value, qty));
    }
  }

  lemma {:induction false} RunKeepsDistinct(l: seq<Order>, es: seq<Event>)
    requires DistinctIds(l)
    ensures DistinctIds(Run(l, es))
  {
    if es != [] {
      RunKeepsDistinct(l, es[..|es| - 1]);
      StepKeepsDistinct(Run(l, es[..|es| - 1]), es[|es| - 1]);
    }
  }

  // ---- Refused events ----

  /** An event is refused and changes the book all the same exactly when it is the replacement of a live
      order under the id of another one: that order is gone although the replacement failed. */
  lemma RefusedChangesBookIff(l: seq<Order>, e: Event)
    requires DistinctIds(l)
    ensures Step(l, e).1.Rejected? && Step(l, e).0 != l <==>
            && e.Replace? && Lookup(l, e.oldId).Some?
            && e.newId != e.oldId && Lookup(l, e.newId).Some?
  {
    if e.Replace? && Lookup(l, e.oldId).Some? {
      AmendKeepsDistinct(l, e.oldId, None);
      LookupAmend(l, e.oldId, None, e.newId);
    }
  }

  /** Two orders, and the first is replaced under the id of the second. */
  lemma RefusedReplaceLosesOrder()
    ensures var first, second := Order(1, Bid, 100, 10, 0), Order(2, Bid, 101, 5, 1);
            Step([first, second], Replace(1, 2, 102, 7, 2)) == ([second], Rejected(DuplicateOrder(2)))
  {
    var first, second := Order(1, Bid, 100, 10, 0), Order(2, Bid, 101, 5, 1);
    var one, l, none: seq<Order> := [first], [first, second], [];
    assert one[..0] == none && l[..1] == one && [second][..0] == none;
    assert Lookup(one, 1) == Some(first) && Lookup(l, 1) == Some(first);
    assert Amend(one, 1, None) == Amend(none, 1, None) + none;
    assert Amend(l, 1, None) == none + [second] == [second];
    assert Lookup([second], 2) == Some(second);
  }

  // ---- Conservation of quantity ----

  function Resting(l: seq<Order>): nat {
    if l == [] then 0 else Resting(l[..|l| - 1]) + l[|l| - 1].qty
  }

  function Traded(outcomes: seq<Outcome>): nat {
    if outcomes == [] then 0
    else
      var last := outcomes[|outcomes| - 1];
      Traded(outcomes[..|outcomes| - 1]) + (if last.Filled? then last.trade.qty else 0)
  }

  /** Quantity an accepted event brings into the book. */
  function Inflow(l: seq<Order>, e: Event): nat {
    match e
    case Add(o) => if Step(l, e).1 == Accepted then o.qty else 0
    case Replace(_, _, _, qty, _) => if Step(l, e).1 == Accepted then qty else 0
    case _ => 0
  }

  /** Quantity an event takes out without a trade: cancelled shares, and whatever was left of a
      deleted or replaced order, also when the replacement itself is then refused. */
  function Withdrawn(l: seq<Order>, e: Event): nat {
    match e
    case Cancel(_, qty) => if Step(l, e).1 == Accepted then qty else 0
    case Delete(id) => if Lookup(l, id).Some? then Lookup(l, id).value.qty else 0
    case Replace(oldId, _, _, _, _) => if Lookup(l, oldId).Some? then Lookup(l, oldId).value.qty else 0
    case _ => 0
  }

  function TotalInflow(l: seq<Order>, es: seq<Event>): nat {
    if es == [] then 0
    else TotalInflow(l, es[..|es| - 1]) + Inflow(Run(l, es[..|es| - 1]), es[|es| - 1])
  }

  function TotalWithdrawn(l: seq<Order>, es: seq<Event>): nat {
    if es == [] then 0
    else TotalWithdrawn(l, es[..|es| - 1]) + Withdrawn(Run(l, es[..|es| - 1]), es[|es| - 1])
  }

  lemma {:induction false} RestingAfterAmend(l: seq<Order>, id: OrderId, o: Option<Order>)
    requires DistinctIds(l) && Lookup(l, id).Some?
    requires o.Some? ==> o.value.id == id
    ensures Resting(Amend(l, id, o)) == Resting(l) - Lookup(l, id).value.qty + (if o.Some? then o.value.qty else 0)
  {
    var n := |l| - 1;
    var m := Amend(l[..n], id, o);
    if l[n].id == id {
      AmendAbsent(l[..n], id, o);
      assert if o.Some? then (m + [o.value])[..|m|] == m else m + [] == m;
    } else {
      RestingAfterAmend(l[..n], id, o);
      assert (m + [l[n]])[..|m|] == m;
    }
  }

  lemma RestingAppend(l: seq<Order>, o: Order)
    ensures Resting(l + [o]) == Resting(l) + o.qty
  {
    assert (l + [o])[..|l|] == l;
  }

  /** What rests and what the event brings in is what rests afterwards, what it trades, and what it withdraws. */
  ghost predicate Conserves(l: seq<Order>, e: Event) {
    var (l', outcome) := Step(l, e);
    Resting(l) + Inflow(l, e) ==
    Resting(l') + (if outcome.Filled? then outcome.trade.qty else 0) + Withdrawn(l, e)
  }

  lemma StepConserves(l: seq<Order>, e: Event)
    requires DistinctIds(l)
    ensures Conserves(l, e)
  {
    match e
    case Add(o) => RestingAppend(l, o);
    case Execute(id, qty, ts) => ReduceConserves(l, id, qty);
    case ExecuteAt(id, qty, price, ts) => ReduceConserves(l, id, qty);
    case Cancel(id, qty) => ReduceConserves(l, id, qty);
    case Delete(id) => DeleteConserves(l, id);
    case Replace(oldId, newId, price, qty, ts) => ReplaceConserves(l, oldId, newId, price, qty, ts);
  }

  lemma DeleteConserves(l: seq<Order>, id: OrderId)
    requires DistinctIds(l)
    ensures Conserves(l, Delete(id))
  {
    if Lookup(l, id).Some? { RestingAfterAmend(l, id, None); }
  }

  lemma ReplaceConserves(l: seq<Order>, oldId: OrderId, newId: OrderId, price: Price, qty: Quantity, ts: Timestamp)
    requires DistinctIds(l)
    ensures Conserves(l, Replace(oldId, newId, price, qty, ts))
  {
    if Lookup(l, oldId).Some? {
      RestingAfterAmend(l, oldId, None);
      RestingAppend(Amend(l, oldId, None), Order(newId, Lookup(l, oldId).value.side, price, qty, ts));
    }
  }

  lemma ReduceConserves(l: seq<Order>, id: OrderId, qty: Quantity)
    requires DistinctIds(l)
    ensures Lookup(l, id).Some? && qty <= Lookup(l, id).value.qty ==>
              Resting(l) == Resting(Amend(l, id, Shrunk(Lookup(l, id).value, qty))) + qty
  {
    if Lookup(l, id).Some? && qty <= Lookup(l, id).value.qty {
      RestingAfterAmend(l, id, Shrunk(Lookup(l, id).value, qty));
    }
  }

  /** No share appears or disappears: what was added still rests, was traded, or was withdrawn. */
  lemma {:induction false} QuantityIsConserved(l: seq<Order>, es: seq<Event>)
    requires DistinctIds(l)
    ensures Resting(l) + TotalInflow(l, es) ==
            Resting(Run(l, es)) + Traded(Outcomes(l, es)) + TotalWithdrawn(l, es)
  {
    if es != [] {
      var before := es[..|es| - 1];
      QuantityIsConserved(l, before);
      RunKeepsDistinct(l, before);
      StepConserves(Run(l, before), es[|es| - 1]);
      assert Outcomes(l, es)[..|Outcomes(l, es)| - 1] == Outcomes(l, before);
    }
  }

  // ---- Time priority ----

  /** The order an event puts into the book, as it was put. */
  function Inserted(l: seq<Order>, e: Event): Option<Order> {
    match e
    case Add(o) => if Step(l, e).1 == Accepted then Some(o) else None
    case Replace(oldId, newId, price, qty, ts) =>
      if Lookup(l, oldId).Some? && Step(l, e).1 == Accepted
      then Some(Order(newId, Lookup(l, oldId).value.side, price, qty, ts)) else None
    case _ => None
  }

  /** For every event of a history from the empty book, the order it put into the book, if any. */
  function History(es: seq<Event>): (h: seq<Option<Order>>)
    ensures |h| == |es|
  {
    if es == [] then []
    else
      var n := |es| - 1;
      History(es[..n]) + [Inserted(Run([], es[..n]), es[n])]
  }

  /** The number of the last event that put `id` into the book, or -1. */
  function LastInsert(h: seq<Option<Order>>, id: OrderId): (n: int)
    ensures -1 <= n < |h|
  {
    if h == [] then -1
    else
      var n := |h| - 1;
      if h[n].Some? && h[n].value.id == id then n else LastInsert(h[..n], id)
  }

  /** `o` is what is left of the order that the last insert of its id put into the book; nothing is left of
      it only if it never had any quantity. */
  ghost predicate Descends(h: seq<Option<Order>>, o: Order) {
    var n := LastInsert(h, o.id);
    && 0 <= n && h[n].Some?
    && var o0 := h[n].value;
    o0.id == o.id && KeyOf(o0) == KeyOf(o) && o0.ts == o.ts && o.qty <= o0.qty && (o.qty == 0 ==> o0.qty == 0)
  }

  /** Oldest insert first, and every order is what is left of its insert. */
  ghost predicate Chronological(h: seq<Option<Order>>, l: seq<Order>) {
    l == [] || (
      var n := |l| - 1;
      && Chronological(h, l[..n])
      && Descends(h, l[n])
      && InsertedBefore(h, l[..n], LastInsert(h, l[n].id)))
  }

  ghost predicate InsertedBefore(h: seq<Option<Order>>, l: seq<Order>, t: int) {
    forall i :: 0 <= i < |l| ==> LastInsert(h, l[i].id) < t
  }

  lemma {:induction false} AmendInsertedBefore(h: seq<Option<Order>>, l: seq<Order>, id: OrderId,
                                               o: Option<Order>, t: int)
    requires InsertedBefore(h, l, t) && (o.Some? ==> o.value.id == id)
    ensures InsertedBefore(h, Amend(l, id, o), t)
  {
    if l != [] {
      AmendInsertedBefore(h, l[..|l| - 1], id, o, t);
    }
  }

  lemma {:induction false} AmendStaysChronological(h: seq<Option<Order>>, l: seq<Order>, id: OrderId, o: Option<Order>)
    requires Chronological(h, l)
    requires o.Some? ==> o.value.id == id && Descends(h, o.value)
    ensures Chronological(h, Amend(l, id, o))
  {
    if l != [] {
      var n := |l| - 1;
      var m := Amend(l[..n], id, o);
      AmendStaysChronological(h, l[..n], id, o);
      AmendInsertedBefore(h, l[..n], id, o, LastInsert(h, l[n].id));
      assert (m + [l[n]])[..|m|] == m && (o.Some? ==> (m + [o.value])[..|m|] == m) && m + [] == m;
    }
  }

  /** One more entry changes the last insert of no id but its own. */
  lemma OneMoreEntry(h: seq<Option<Order>>, i: Option<Order>, id: OrderId)
    ensures LastInsert(h + [i], id) == if i.Some? && i.value.id == id then |h| else LastInsert(h, id)
  {
    assert (h + [i])[..|h|] == h;
  }

  lemma {:induction false} LaterEntryKeeps(h: seq<Option<Order>>, i: Option<Order>, l: seq<Order>)
    requires Chronological(h, l)
    requires i.Some? ==> Lookup(l, i.value.id).None?
    ensures Chronological(h + [i], l)
    ensures InsertedBefore(h + [i], l, |h|)
    ensures forall j :: 0 <= j < |l| ==> LastInsert(h + [i], l[j].id) == LastInsert(h, l[j].id)
  {
    if l != [] {
      var n := |l| - 1;
      LaterEntryKeeps(h, i, l[..n]);
      OneMoreEntry(h, i, l[n].id);
      assert l == l[..n] + [l[n]];
    }
  }

  lemma NewestGoesLast(h: seq<Option<Order>>, l: seq<Order>, o: Order)
    requires Chronological(h, l) && Lookup(l, o.id).None?
    ensures Chronological(h + [Some(o)], l + [o])
  {
    LaterEntryKeeps(h, Some(o), l);
    OneMoreEntry(h, Some(o), o.id);
    assert (l + [o])[..|l|] == l;
  }

  lemma {:induction false} LookupDescends(h: seq<Option<Order>>, l: seq<Order>, id: OrderId)
    requires Chronological(h, l) && Lookup(l, id).Some?
    ensures Descends(h, Lookup(l, id).value)
  {
    if l[|l| - 1].id != id { LookupDescends(h, l[..|l| - 1], id); }
  }

  lemma ReduceStaysChronological(h: seq<Option<Order>>, l: seq<Order>, id: OrderId, qty: Quantity)
    requires Chronological(h, l)
    ensures Chronological(h + [None], l)
    ensures Lookup(l, id).Some? && qty <= Lookup(l, id).value.qty ==>
              Chronological(h + [None], Amend(l, id, Shrunk(Lookup(l, id).value, qty)))
  {
    LaterEntryKeeps(h, None, l);
    if Lookup(l, id).Some? && qty <= Lookup(l, id).value.qty {
      LookupDescends(h, l, id);
      var o := Shrunk(Lookup(l, id).value, qty);
      AmendStaysChronological(h, l, id, o);
      LaterEntryKeeps(h, None, Amend(l, id, o));
    }
  }

  lemma StepStaysChronological(h: seq<Option<Order>>, l: seq<Order>, e: Event)
    requires Chronological(h, l) && DistinctIds(l)
    ensures Chronological(h + [Inserted(l, e)], Step(l, e).0)
  {
    match e
    case Add(o) =>
      if Lookup(l, o.id).None? { NewestGoesLast(h, l, o); } else { LaterEntryKeeps(h, None, l); }
    case Execute(id, qty, ts) => ReduceStaysChronological(h, l, id, qty);
    case ExecuteAt(id, qty, price, ts) => ReduceStaysChronological(h, l, id, qty);
    case Cancel(id, qty) => ReduceStaysChronological(h, l, id, qty);
    case Delete(id) =>
      LaterEntryKeeps(h, None, l);
      AmendStaysChronological(h, l, id, None);
      LaterEntryKeeps(h, None, Amend(l, id, None));
    case Replace(oldId, newId, price, qty, ts) =>
      LaterEntryKeeps(h, None, l);
      if Lookup(l, oldId).Some? {
        var l' := Amend(l, oldId, None);
        AmendStaysChronological(h, l, oldId, None);
        if Lookup(l', newId).None? {
          NewestGoesLast(h, l', Order(newId, Lookup(l, oldId).value.side, price, qty, ts));
        } else {
          LaterEntryKeeps(h, None, l');
        }
      }
  }

  lemma {:induction false} HistoryIsChronological(es: seq<Event>)
    ensures Chronological(History(es), Run([], es))
  {
    if es != [] {
      var n := |es| - 1;
      HistoryIsChronological(es[..n]);
      RunKeepsDistinct([], es[..n]);
      StepStaysChronological(History(es[..n]), Run([], es[..n]), es[n]);
    }
  }

  lemma {:induction false} QueueInsertedBefore(h: seq<Option<Order>>, l: seq<Order>, k: LevelKey, t: int)
    requires InsertedBefore(h, l, t)
    ensures forall i :: 0 <= i < |IdsAt(l, k)| ==> LastInsert(h, IdsAt(l, k)[i]) < t
  {
    if l != [] {
      var n := |l| - 1;
      assert forall i :: 0 <= i < n ==> l[..n][i] == l[i];
      QueueInsertedBefore(h, l[..n], k, t);
      assert LastInsert(h, l[n].id) < t;
    }
  }

  lemma {:induction false} QueueIsChronological(h: seq<Option<Order>>, l: seq<Order>, k: LevelKey)
    requires Chronological(h, l)
    ensures forall i, j :: 0 <= i < j < |IdsAt(l, k)| ==> LastInsert(h, IdsAt(l, k)[i]) < LastInsert(h, IdsAt(l, k)[j])
  {
    if l != [] {
      var n := |l| - 1;
      QueueIsChronological(h, l[..n], k);
      QueueInsertedBefore(h, l[..n], k, LastInsert(h, l[n].id));
      var q := IdsAt(l[..n], k);
      assert IdsAt(l, k) == if KeyOf(l[n]) == k then q + [l[n].id] else q;
    }
  }

  /** The queue at `k` holds exactly the live orders there, in the order of their last accepted
      insert, and each of them is what is left of that insert. */
  ghost predicate InPriorityOrder(h: seq<Option<Order>>, l: seq<Order>, k: LevelKey) {
    var q := IdsAt(l, k);
    && (forall id :: id in q <==> Lookup(l, id).Some? && KeyOf(Lookup(l, id).value) == k)
    && (forall id :: id in q ==> Descends(h, Lookup(l, id).value))
    && (forall i, j :: 0 <= i < j < |q| ==> 0 <= LastInsert(h, q[i]) < LastInsert(h, q[j]))
  }

  lemma QueueInPriorityOrder(h: seq<Option<Order>>, l: seq<Order>, k: LevelKey)
    requires Chronological(h, l) && DistinctIds(l)
    ensures InPriorityOrder(h, l, k)
  {
    QueueMembers(l, k);
    QueueIsChronological(h, l, k);
    var q := IdsAt(l, k);
    forall id | id in q ensures Descends(h, Lookup(l, id).value) {
      LookupDescends(h, l, id);
    }
    forall i | 0 <= i < |q| ensures 0 <= LastInsert(h, q[i]) {
      assert q[i] in q && Descends(h, Lookup(l, q[i]).value);
    }
  }

  /** Price-time priority over whole histories. */
  lemma TimePriority(es: seq<Event>, k: LevelKey)
    ensures InPriorityOrder(History(es), Run([], es), k)
  {
    RunKeepsDistinct([], es);
    HistoryIsChronological(es);
    QueueInPriorityOrder(History(es), Run([], es), k);
  }
}
