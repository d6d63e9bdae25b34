/** How every event is answered, and what it does to each order: in terms of the values in the event and
    in the book, and of nothing the book computes with. */
module BookEffects {
  import opened Wrappers
  import opened OrderTypes
  import opened BookModel
  import opened Interleaving

  // ---- Answers ----

  /** A refused execution or cancel: the order is not live, or smaller than `qty`. */
  ghost predicate Short(l: seq<Order>, id: OrderId, qty: Quantity) {
    Lookup(l, id).None? || Lookup(l, id).value.qty < qty
  }

  /** The trade prints at the resting price. */
  lemma ExecuteIsAnswered(l: seq<Order>, id: OrderId, qty: Quantity, ts: Timestamp)
    ensures var out := Step(l, Execute(id, qty, ts)).1;
            && (out.Filled? <==> !Short(l, id, qty))
            && (out.Filled? ==> out.trade == Trade(id, Lookup(l, id).value.price, qty, ts))
            && (Lookup(l, id).None? ==> out == Rejected(UnknownOrder(id)))
            && (Lookup(l, id).Some? && Short(l, id, qty) ==>
                  out == Rejected(OverExecute(id, qty, Lookup(l, id).value.qty)))
  {
  }

  /** The trade prints at the price given. */
  lemma ExecuteAtIsAnswered(l: seq<Order>, id: OrderId, qty: Quantity, price: Price, ts: Timestamp)
    ensures var out := Step(l, ExecuteAt(id, qty, price, ts)).1;
            && (out.Filled? <==> !Short(l, id, qty))
            && (out.Filled? ==> out.trade == Trade(id, price, qty, ts))
            && (Lookup(l, id).None? ==> out == Rejected(UnknownOrder(id)))
            && (Lookup(l, id).Some? && Short(l, id, qty) ==>
                  out == Rejected(OverExecute(id, qty, Lookup(l, id).value.qty)))
  {
  }

  lemma CancelIsAnswered(l: seq<Order>, id: OrderId, qty: Quantity)
    ensures var out := Step(l, Cancel(id, qty)).1;
            && (out == Accepted <==> !Short(l, id, qty))
            && (Lookup(l, id).None? ==> out == Rejected(UnknownOrder(id)))
            && (Lookup(l, id).Some? && Short(l, id, qty) ==>
                  out == Rejected(OverCancel(id, qty, Lookup(l, id).value.qty)))
  {
  }

  lemma DeleteIsAnswered(l: seq<Order>, id: OrderId)
    ensures Step(l, Delete(id)).1 == if Lookup(l, id).Some? then Accepted else Rejected(UnknownOrder(id))
  {
  }

  lemma AddIsAnswered(l: seq<Order>, o: Order)
    ensures Step(l, Add(o)).1 == if Lookup(l, o.id).None? then Accepted else Rejected(DuplicateOrder(o.id))
  {
  }

  /** An unknown old id is reported as such; a live new id is a duplicate, unless it is the old one. */
  lemma ReplaceIsAnswered(l: seq<Order>, oldId: OrderId, newId: OrderId, price: Price, qty: Quantity, ts: Timestamp)
    ensures Step(l, Replace(oldId, newId, price, qty, ts)).1 ==
            if Lookup(l, oldId).None? then Rejected(UnknownOrder(oldId))
            else if newId != oldId && Lookup(l, newId).Some? then Rejected(DuplicateOrder(newId))
            else Accepted
  {
    LookupAmend(l, oldId, None, newId);
  }

  // ---- Effects ----

  /** An accepted execution or cancel leaves of its order what was not taken, and nothing exactly when all
      was taken; all other orders stay as they are. */
  lemma TakenOrderLeavesIff(l: seq<Order>, e: Event, id: OrderId, qty: Quantity)
    requires Takes(e, id, qty) && !Step(l, e).1.Rejected?
    ensures Lookup(l, id).Some? && qty <= Lookup(l, id).value.qty
    ensures Lookup(Step(l, e).0, id).None? <==> qty == Lookup(l, id).value.qty
    ensures qty < Lookup(l, id).value.qty ==>
              var o := Lookup(l, id).value;
              Lookup(Step(l, e).0, id) == Some(Order(id, o.side, o.price, o.qty - qty, o.ts))
    ensures forall x :: x != id ==> Lookup(Step(l, e).0, x) == Lookup(l, x)
  {
    TakeStep(l, e, id, qty);
    forall x ensures Lookup(Step(l, e).0, x) == if x == id then Shrunk(Lookup(l, id).value, qty) else Lookup(l, x) {
      LookupAmend(l, id, Shrunk(Lookup(l, id).value, qty), x);
    }
  }

  lemma DeletedOrderLeaves(l: seq<Order>, id: OrderId)
    ensures forall x :: Lookup(Step(l, Delete(id)).0, x) == if x == id then None else Lookup(l, x)
  {
    LookupsAfterDrop(l, id);
  }

  lemma AddedOrderRests(l: seq<Order>, o: Order)
    requires Lookup(l, o.id).None?
    ensures forall x :: Lookup(Step(l, Add(o)).0, x) == if x == o.id then Some(o) else Lookup(l, x)
  {
    AppendFacts(l, o, KeyOf(o));
  }

  /** The old order is gone, and the new one has its side. */
  lemma ReplacedOrderMoves(l: seq<Order>, oldId: OrderId, newId: OrderId, price: Price, qty: Quantity, ts: Timestamp)
    requires Step(l, Replace(oldId, newId, price, qty, ts)).1 == Accepted
    ensures Lookup(l, oldId).Some?
    ensures var o := Order(newId, Lookup(l, oldId).value.side, price, qty, ts);
            forall x :: Lookup(Step(l, Replace(oldId, newId, price, qty, ts)).0, x) ==
                        if x == newId then Some(o) else if x == oldId then None else Lookup(l, x)
  {
    LookupsAfterDrop(l, oldId);
    var o := Order(newId, Lookup(l, oldId).value.side, price, qty, ts);
    AppendFacts(Amend(l, oldId, None), o, KeyOf(o));
  }
}
