/** A feed of book events applied in turn, with no more than 2^32 - 1 orders alive at a time.  With
    quantities as wide as the feed's 32 bits no total of the book ever overflows. */
module Feed {
  import opened Widths
  import opened Wrappers
  import opened OrderTypes
  import opened BookModel
  import opened BookRuns
  import opened Pool
  import opened OrderBook

  // ---- Bounds ----

  ghost predicate SmallOrders(l: seq<Order>) {
    forall i :: 0 <= i < |l| ==> l[i].qty <= U32_MAX
  }

  /** The event carries no quantity wider than the 32 bits of the wire format. */
  predicate SmallEvent(e: Event) {
    && (e.Add? ==> e.order.qty <= U32_MAX)
    && (e.Replace? ==> e.qty <= U32_MAX)
  }

  lemma {:induction false} QtyAtBound(l: seq<Order>, k: LevelKey)
    requires SmallOrders(l)
    ensures QtyAt(l, k) <= |l| * U32_MAX
  {
    if l != [] { QtyAtBound(l[..|l| - 1], k); }
  }

  lemma {:induction false} AmendStaysSmall(l: seq<Order>, id: OrderId, o: Option<Order>)
    requires SmallOrders(l) && (o.Some? ==> o.value.qty <= U32_MAX)
    ensures SmallOrders(Amend(l, id, o))
  {
    if l != [] { AmendStaysSmall(l[..|l| - 1], id, o); }
  }

  lemma {:induction false} LookupIsSmall(l: seq<Order>, id: OrderId)
    requires SmallOrders(l)
    ensures Lookup(l, id).Some? ==> Lookup(l, id).value.qty <= U32_MAX
  {
    if l != [] && l[|l| - 1].id != id { LookupIsSmall(l[..|l| - 1], id); }
  }

  lemma StepStaysSmall(l: seq<Order>, e: Event)
    requires SmallOrders(l) && SmallEvent(e)
    ensures SmallOrders(Step(l, e).0)
  {
    match e
    case Add(o) =>
    case Execute(id, qty, ts) => ReduceStaysSmall(l, id, qty);
    case ExecuteAt(id, qty, price, ts) => ReduceStaysSmall(l, id, qty);
    case Cancel(id, qty) => ReduceStaysSmall(l, id, qty);
    case Delete(id) => AmendStaysSmall(l, id, None);
    case Replace(oldId, newId, price, qty, ts) => AmendStaysSmall(l, oldId, None);
  }

  lemma ReduceStaysSmall(l: seq<Order>, id: OrderId, qty: Quantity)
    requires SmallOrders(l)
    ensures Lookup(l, id).Some? && qty <= Lookup(l, id).value.qty ==>
              SmallOrders(Amend(l, id, Shrunk(Lookup(l, id).value, qty)))
  {
    LookupIsSmall(l, id);
    if Lookup(l, id).Some? && qty <= Lookup(l, id).value.qty {
      AmendStaysSmall(l, id, Shrunk(Lookup(l, id).value, qty));
    }
  }

  lemma {:induction false} RunStaysSmall(l: seq<Order>, es: seq<Event>)
    requires SmallOrders(l) && forall e :: e in es ==> SmallEvent(e)
    ensures SmallOrders(Run(l, es))
  {
    if es != [] {
      RunStaysSmall(l, es[..|es| - 1]);
      StepStaysSmall(Run(l, es[..|es| - 1]), es[|es| - 1]);
    }
  }

  /** The total of the level that the event adds an order to, if any, stays below 2^64. */
  ghost predicate Fits(l: seq<Order>, e: Event) {
    match e
    case Add(o) => Lookup(l, o.id).Some? || TotalFits(l, o)
    case Replace(oldId, newId, price, qty, ts) => ReplaceFits(l, oldId, newId, price, qty)
    case _ => true
  }

  /** (2^32 - 1)^2 is below 2^64. */
  lemma SmallFits(l: seq<Order>, e: Event)
    requires DistinctIds(l) && SmallOrders(l) && SmallEvent(e)
    requires |l| <= NIL && |Step(l, e).0| <= NIL
    ensures Fits(l, e)
  {
    if e.Add? {
      QtyAtBound(l, KeyOf(e.order));
    } else if e.Replace? && Lookup(l, e.oldId).Some? {
      AmendKeepsDistinct(l, e.oldId, None);
      AmendStaysSmall(l, e.oldId, None);
      QtyAtBound(Amend(l, e.oldId, None), LevelKey(Lookup(l, e.oldId).value.side, e.price));
    }
  }

  // ---- Runs of the book ----

  /** The most orders alive at a time in a history. */
  function Peak(l: seq<Order>, es: seq<Event>): nat {
    if es == [] then |l| else Max(Peak(l, es[..|es| - 1]), |Run(l, es)|)
  }

  lemma {:induction false} PeakCovers(l: seq<Order>, es: seq<Event>, n: nat)
    requires n <= |es|
    ensures |Run(l, es[..n])| <= Peak(l, es[..n]) <= Peak(l, es)
    decreases |es|
  {
    assert es[..|es|] == es;
    if es != [] && n < |es| {
      PeakCovers(l, es[..|es| - 1], n);
      assert es[..|es| - 1][..n] == es[..n];
    }
  }

  /** One message of the feed. */
  method Apply(book: OrderBook, e: Event) returns (outcome: Outcome)
    requires book.Valid() && |Step(book.arrivals, e).0| <= NIL
    modifies book, book.pool
    ensures book.Valid()
    ensures (book.arrivals, outcome) == Step(old(book.arrivals), e)
    ensures book.totalsExact == (old(book.totalsExact) && Fits(old(book.arrivals), e))
    ensures book.pool.CapacityUsed() == Max(old(book.pool.CapacityUsed()), |book.arrivals|)
  {
    match e
    case Add(o) =>
      var r := book.Add(o);
      outcome := if r.Ok? then Accepted else Rejected(r.error);
    case Execute(id, qty, ts) =>
      var r := book.ExecuteInner(id, qty, ts, None);
      outcome := if r.Ok? then Filled(r.value) else Rejected(r.error);
    case ExecuteAt(id, qty, price, ts) =>
      var r := book.ExecuteInner(id, qty, ts, Some(price));
      outcome := if r.Ok? then Filled(r.value) else Rejected(r.error);
    case Cancel(id, qty) =>
      var r := book.Cancel(id, qty);
      outcome := if r.Ok? then Accepted else Rejected(r.error);
    case Delete(id) =>
      var r := book.Delete(id);
      outcome := if r.Ok? then Accepted else Rejected(r.error);
    case Replace(oldId, newId, price, qty, ts) =>
      var r := book.Replace(oldId, newId, price, qty, ts);
      outcome := if r.Ok? then Accepted else Rejected(r.error);
  }

  /** Every event of a history fits where it comes. */
  ghost predicate AllFit(l: seq<Order>, es: seq<Event>) {
    es == [] || (AllFit(l, es[..|es| - 1]) && Fits(Run(l, es[..|es| - 1]), es[|es| - 1]))
  }

  /** Small quantities always fit. */
  lemma {:induction false} SmallFeedFits(l: seq<Order>, es: seq<Event>)
    requires DistinctIds(l) && SmallOrders(l) && (forall e :: e in es ==> SmallEvent(e)) && Peak(l, es) <= NIL
    ensures AllFit(l, es)
  {
    if es != [] {
      var n := |es| - 1;
      PeakCovers(l, es, n);
      RunKeepsDistinct(l, es[..n]);
      RunStaysSmall(l, es[..n]);
      SmallFits(Run(l, es[..n]), es[n]);
      SmallFeedFits(l, es[..n]);
    }
  }

  /** No level's total exceeds 64 bits. */
  ghost predicate InRange(l: seq<Order>) {
    forall k: LevelKey :: QtyAt(l, k) <= U64_MAX
  }

  lemma AppendInRangeIff(l: seq<Order>, o: Order)
    requires InRange(l)
    ensures InRange(l + [o]) <==> TotalFits(l, o)
  {
    AppendFacts(l, o, KeyOf(o));
    forall k: LevelKey | k != KeyOf(o) ensures QtyAt(l + [o], k) <= U64_MAX { AppendFacts(l, o, k); }
    if InRange(l + [o]) { assert QtyAt(l + [o], KeyOf(o)) <= U64_MAX; }
  }

  lemma AmendStaysInRange(l: seq<Order>, id: OrderId, o: Option<Order>)
    requires DistinctIds(l) && InRange(l) && Lookup(l, id).Some?
    requires o.Some? ==> o.value.id == id && KeyOf(o.value) == KeyOf(Lookup(l, id).value)
    requires o.Some? ==> o.value.qty <= Lookup(l, id).value.qty
    ensures InRange(Amend(l, id, o))
  {
    forall k: LevelKey ensures QtyAt(Amend(l, id, o), k) <= U64_MAX { QtyAfterAmend(l, id, o, k); }
  }

  /** From totals in range an event leads to totals in range exactly when it fits. */
  lemma FitsIff(l: seq<Order>, e: Event)
    requires DistinctIds(l) && InRange(l)
    ensures Fits(l, e) <==> InRange(Step(l, e).0)
  {
    match e
    case Add(o) => AppendInRangeIff(l, o);
    case Execute(id, qty, ts) => ReduceStaysInRange(l, id, qty);
    case ExecuteAt(id, qty, price, ts) => ReduceStaysInRange(l, id, qty);
    case Cancel(id, qty) => ReduceStaysInRange(l, id, qty);
    case Delete(id) => if Lookup(l, id).Some? { AmendStaysInRange(l, id, None); }
    case Replace(oldId, newId, price, qty, ts) =>
      if Lookup(l, oldId).Some? {
        AmendStaysInRange(l, oldId, None);
        AppendInRangeIff(Amend(l, oldId, None), Order(newId, Lookup(l, oldId).value.side, price, qty, ts));
      }
  }

  lemma ReduceStaysInRange(l: seq<Order>, id: OrderId, qty: Quantity)
    requires DistinctIds(l) && InRange(l)
    ensures Lookup(l, id).Some? && qty <= Lookup(l, id).value.qty ==>
              InRange(Amend(l, id, Shrunk(Lookup(l, id).value, qty)))
  {
    if Lookup(l, id).Some? && qty <= Lookup(l, id).value.qty {
      AmendStaysInRange(l, id, Shrunk(Lookup(l, id).value, qty));
    }
  }

  /** All events fit exactly when no level's total ever exceeds 64 bits, so exactly when a 64-bit total can
      be right all along. */
  lemma {:induction false} AllFitIff(l: seq<Order>, es: seq<Event>)
    requires DistinctIds(l) && InRange(l)
    ensures AllFit(l, es) <==> forall n: nat :: n <= |es| ==> InRange(Run(l, es[..n]))
  {
    assert es[..|es|] == es;
    if es == [] {
      assert forall n: nat :: n <= |es| ==> es[..n] == [];
    } else {
      var m := |es| - 1;
      AllFitIff(l, es[..m]);
      assert forall n: nat :: n <= m ==> es[..m][..n] == es[..n];
      assert forall n: nat :: n <= |es| ==> n <= m || es[..n] == es;
      if forall n: nat :: n <= m ==> InRange(Run(l, es[..n])) {
        assert InRange(Run(l, es[..m]));
        RunKeepsDistinct(l, es[..m]);
        FitsIff(Run(l, es[..m]), es[m]);
      }
    }
  }

  ghost predicate Reached(l: seq<Order>, es: seq<Event>, l': seq<Order>, outcomes: seq<Outcome>) {
    l' == Run(l, es) && outcomes == Outcomes(l, es)
  }

  ghost predicate Kept(l: seq<Order>, es: seq<Event>, exact: bool, exact': bool, capacity: nat, capacity': nat) {
    exact' == (exact && AllFit(l, es)) && capacity' == Max(capacity, Peak(l, es))
  }

  lemma OneMoreEvent(l: seq<Order>, es: seq<Event>, n: nat, l1: seq<Order>, outcomes: seq<Outcome>)
    requires n < |es| && Reached(l, es[..n], l1, outcomes)
    ensures Reached(l, es[..n + 1], Step(l1, es[n]).0, outcomes + [Step(l1, es[n]).1])
  {
    assert es[..n + 1][..n] == es[..n];
  }

  lemma OneMoreKept(l: seq<Order>, es: seq<Event>, n: nat, l1: seq<Order>, exact: bool, exact1: bool, exact2: bool,
                    capacity: nat, capacity1: nat, capacity2: nat)
    requires n < |es| && l1 == Run(l, es[..n]) && Kept(l, es[..n], exact, exact1, capacity, capacity1)
    requires exact2 == (exact1 && Fits(l1, es[n])) && capacity2 == Max(capacity1, |Step(l1, es[n]).0|)
    ensures Kept(l, es[..n + 1], exact, exact2, capacity, capacity2)
  {
    assert es[..n + 1][..n] == es[..n];
  }

  method ApplyNext(book: OrderBook, es: seq<Event>, n: nat, outcomes: seq<Outcome>, ghost l: seq<Order>,
                   ghost exact: bool, ghost capacity: nat)
    returns (outcomes': seq<Outcome>)
    requires n < |es| && book.Valid() && |Run(l, es[..n + 1])| <= NIL
    requires Reached(l, es[..n], book.arrivals, outcomes)
    requires Kept(l, es[..n], exact, book.totalsExact, capacity, book.pool.CapacityUsed())
    modifies book, book.pool
    ensures book.Valid() && Reached(l, es[..n + 1], book.arrivals, outcomes')
    ensures Kept(l, es[..n + 1], exact, book.totalsExact, capacity, book.pool.CapacityUsed())
  {
    ghost var l1, exact1, capacity1 := book.arrivals, book.totalsExact, book.pool.CapacityUsed();
    OneMoreEvent(l, es, n, l1, outcomes);
    var outcome := Apply(book, es[n]);
    outcomes' := outcomes + [outcome];
    OneMoreKept(l, es, n, l1, exact, exact1, book.totalsExact, capacity, capacity1, book.pool.CapacityUsed());
  }

  /** A whole feed.  The slab grows to the peak number of live orders and not beyond, and every cached total
      is exact unless some event made one overflow. */
  method ApplyAll(book: OrderBook, es: seq<Event>) returns (outcomes: seq<Outcome>)
    requires book.Valid() && Peak(book.arrivals, es) <= NIL
    modifies book, book.pool
    ensures book.Valid()
    ensures book.arrivals == Run(old(book.arrivals), es)
    ensures outcomes == Outcomes(old(book.arrivals), es)
    ensures book.totalsExact == (old(book.totalsExact) && AllFit(old(book.arrivals), es))
    ensures book.pool.CapacityUsed() == Max(old(book.pool.CapacityUsed()), Peak(old(book.arrivals), es))
  {
    ghost var l, exact, capacity := book.arrivals, book.totalsExact, book.pool.CapacityUsed();
    outcomes := [];
    for n := 0 to |es|
      invariant book.Valid()
      invariant Reached(l, es[..n], book.arrivals, outcomes)
      invariant Kept(l, es[..n], exact, book.totalsExact, capacity, book.pool.CapacityUsed())
    {
      PeakCovers(l, es, n + 1);
      outcomes := ApplyNext(book, es, n, outcomes, l, exact, capacity);
    }
    assert es[..|es|] == es;
  }
}
