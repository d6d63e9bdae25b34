/** Executions, cancels and deletes of different orders do not disturb each other. */
module Interleaving {
  import opened Widths
  import opened Wrappers
  import opened OrderTypes
  import opened BookModel

  /** Events that only take quantity out. */
  predicate IsReduction(e: Event) {
    e.Execute? || e.ExecuteAt? || e.Cancel? || e.Delete?
  }

  function IdOf(e: Event): OrderId
    requires IsReduction(e)
  {
    e.id
  }

  /** The part of a history that is about one order. */
  function About(es: seq<Event>, id: OrderId): seq<Event>
    requires forall e :: e in es ==> IsReduction(e)
  {
    if es == [] then []
    else About(es[..|es| - 1], id) + (if IdOf(es[|es| - 1]) == id then [es[|es| - 1]] else [])
  }

  /** The answers to the events about one order. */
  function AnswersAbout(es: seq<Event>, outcomes: seq<Outcome>, id: OrderId): seq<Outcome>
    requires |es| == |outcomes| && forall e :: e in es ==> IsReduction(e)
  {
    if es == [] then []
    else
      var n := |es| - 1;
      AnswersAbout(es[..n], outcomes[..n], id) + (if IdOf(es[n]) == id then [outcomes[n]] else [])
  }

  /** What one order alone does with an event about it. */
  function React(o: Option<Order>, e: Event): (r: (Option<Order>, Outcome))
    requires IsReduction(e)
    ensures o.Some? && r.0.Some? ==> r.0.value.id == o.value.id
    ensures o.None? ==> r.0.None?
  {
    if o.None? then (None, Rejected(UnknownOrder(IdOf(e))))
    else
      match e
      case Execute(id, qty, ts) => ReactExecute(o.value, id, qty, ts, None)
      case ExecuteAt(id, qty, price, ts) => ReactExecute(o.value, id, qty, ts, Some(price))
      case Cancel(id, qty) =>
        if qty > o.value.qty then (o, Rejected(OverCancel(id, qty, o.value.qty))) else (Shrunk(o.value, qty), Accepted)
      case Delete(id) => (None, Accepted)
  }

  function ReactExecute(o: Order, id: OrderId, qty: Quantity, ts: Timestamp, printAt: Option<Price>)
    : (Option<Order>, Outcome)
  {
    if qty > o.qty then (Some(o), Rejected(OverExecute(id, qty, o.qty)))
    else (Shrunk(o, qty), Filled(Trade(id, printAt.GetOr(o.price), qty, ts)))
  }

  /** What a history of events about one order leaves of it. */
  function Settle(o: Option<Order>, es: seq<Event>): (r: Option<Order>)
    requires forall e :: e in es ==> IsReduction(e)
    ensures o.None? ==> r.None?
    ensures o.Some? && r.Some? ==> r.value.id == o.value.id
  {
    if es == [] then o else React(Settle(o, es[..|es| - 1]), es[|es| - 1]).0
  }

  function Answers(o: Option<Order>, es: seq<Event>): seq<Outcome>
    requires forall e :: e in es ==> IsReduction(e)
  {
    if es == [] then []
    else Answers(o, es[..|es| - 1]) + [React(Settle(o, es[..|es| - 1]), es[|es| - 1]).1]
  }

  lemma {:induction false} AboutReduces(es: seq<Event>, id: OrderId)
    requires forall e :: e in es ==> IsReduction(e)
    ensures forall e :: e in About(es, id) ==> IsReduction(e)
  {
    if es != [] { AboutReduces(es[..|es| - 1], id); }
  }

  function SettleAbout(o: Order, es: seq<Event>): (r: Option<Order>)
    requires forall e :: e in es ==> IsReduction(e)
    ensures r.Some? ==> r.value.id == o.id
  {
    AboutReduces(es, o.id);
    Settle(Some(o), About(es, o.id))
  }

  /** Every order of the book settled by itself. */
  function Survivors(l: seq<Order>, es: seq<Event>): seq<Order>
    requires forall e :: e in es ==> IsReduction(e)
  {
    if l == [] then []
    else
      var o := SettleAbout(l[|l| - 1], es);
      Survivors(l[..|l| - 1], es) + (if o.Some? then [o.value] else [])
  }

  lemma {:induction false} AmendSame(l: seq<Order>, id: OrderId)
    requires DistinctIds(l)
    ensures Amend(l, id, Lookup(l, id)) == l
  {
    if l != [] {
      var n := |l| - 1;
      assert l == l[..n] + [l[n]];
      if l[n].id == id {
        AmendAbsent(l[..n], id, Some(l[n]));
      } else {
        AmendSame(l[..n], id);
      }
    }
  }

  /** The book's step on a reduction is the reaction of that one order. */
  lemma StepIsReact(l: seq<Order>, e: Event)
    requires DistinctIds(l) && IsReduction(e)
    ensures var (o, outcome) := React(Lookup(l, IdOf(e)), e);
            Step(l, e) == (Amend(l, IdOf(e), o), outcome)
  {
    AmendSame(l, IdOf(e));
  }

  lemma {:induction false} LookupSurvivors(l: seq<Order>, es: seq<Event>, id: OrderId)
    requires DistinctIds(l) && forall e :: e in es ==> IsReduction(e)
    ensures Lookup(Survivors(l, es), id) ==
            if Lookup(l, id).None? then None else SettleAbout(Lookup(l, id).value, es)
  {
    if l != [] {
      var n := |l| - 1;
      var s := Survivors(l[..n], es);
      var o := SettleAbout(l[n], es);
      LookupSurvivors(l[..n], es, id);
      assert o.Some? ==> (s + [o.value])[..|s|] == s;
      assert s + [] == s;
    }
  }

  lemma {:induction false} SurvivorsDistinct(l: seq<Order>, es: seq<Event>)
    requires DistinctIds(l) && forall e :: e in es ==> IsReduction(e)
    ensures DistinctIds(Survivors(l, es))
  {
    if l != [] {
      var n := |l| - 1;
      var s := Survivors(l[..n], es);
      var o := SettleAbout(l[n], es);
      SurvivorsDistinct(l[..n], es);
      LookupSurvivors(l[..n], es, l[n].id);
      assert o.Some? ==> (s + [o.value])[..|s|] == s;
      assert s + [] == s;
    }
  }

  /** One more event about `o`, or about another order. */
  lemma SettleOneMore(o: Order, es: seq<Event>, e: Event)
    requires IsReduction(e) && forall e' :: e' in es ==> IsReduction(e')
    ensures forall e' :: e' in es + [e] ==> IsReduction(e')
    ensures SettleAbout(o, es + [e]) == if IdOf(e) == o.id then React(SettleAbout(o, es), e).0 else SettleAbout(o, es)
  {
    AboutReduces(es, o.id);
    var about := About(es, o.id);
    assert (es + [e])[..|es|] == es;
    assert (about + [e])[..|about|] == about;
    assert about + [] == about;
  }

  lemma {:induction false} SurvivorsOneMore(l: seq<Order>, es: seq<Event>, e: Event)
    requires DistinctIds(l) && IsReduction(e) && forall e' :: e' in es ==> IsReduction(e')
    ensures forall e' :: e' in es + [e] ==> IsReduction(e')
    ensures var s := Survivors(l, es);
            Survivors(l, es + [e]) == Amend(s, IdOf(e), React(Lookup(s, IdOf(e)), e).0)
  {
    if l != [] {
      var n := |l| - 1;
      var s := Survivors(l[..n], es);
      var o := SettleAbout(l[n], es);
      SurvivorsOneMore(l[..n], es, e);
      SettleOneMore(l[n], es, e);
      LookupSurvivors(l[..n], es, IdOf(e));
      assert o.Some? ==> (s + [o.value])[..|s|] == s;
      assert s + [] == s;
      if IdOf(e) == l[n].id {
        AmendAbsent(s, IdOf(e), None);
        if o.Some? { AmendAbsent(s, IdOf(e), React(o, e).0); }
      }
    }
  }

  /** A run of reductions settles every order by itself. */
  lemma {:induction false} RunSettlesEachOrder(l: seq<Order>, es: seq<Event>)
    requires DistinctIds(l) && forall e :: e in es ==> IsReduction(e)
    ensures Run(l, es) == Survivors(l, es)
  {
    if es == [] {
      SurvivorsOfNothing(l);
    } else {
      var n := |es| - 1;
      assert es == es[..n] + [es[n]];
      RunSettlesEachOrder(l, es[..n]);
      SurvivorsDistinct(l, es[..n]);
      StepIsReact(Run(l, es[..n]), es[n]);
      SurvivorsOneMore(l, es[..n], es[n]);
    }
  }

  lemma {:induction false} SurvivorsOfNothing(l: seq<Order>)
    ensures Survivors(l, []) == l
  {
    if l != [] {
      SurvivorsOfNothing(l[..|l| - 1]);
      assert l == l[..|l| - 1] + [l[|l| - 1]];
    }
  }

  /** The next answer depends only on what the order itself went through. */
  lemma AnswerIsItsOwn(l: seq<Order>, es: seq<Event>, e: Event)
    requires DistinctIds(l) && IsReduction(e) && forall e' :: e' in es ==> IsReduction(e')
    ensures forall e' :: e' in About(es, IdOf(e)) ==> IsReduction(e')
    ensures Step(Run(l, es), e).1 == React(Settle(Lookup(l, IdOf(e)), About(es, IdOf(e))), e).1
  {
    AboutReduces(es, IdOf(e));
    RunSettlesEachOrder(l, es);
    SurvivorsDistinct(l, es);
    LookupSurvivors(l, es, IdOf(e));
    NothingSettlesToNothing(About(es, IdOf(e)));
    StepIsReact(Survivors(l, es), e);
  }

  /** And it answers the events about an order as that order alone would. */
  lemma {:induction false} RunAnswersEachOrder(l: seq<Order>, es: seq<Event>, id: OrderId)
    requires DistinctIds(l) && forall e :: e in es ==> IsReduction(e)
    ensures |Outcomes(l, es)| == |es|
    ensures forall e :: e in About(es, id) ==> IsReduction(e)
    ensures AnswersAbout(es, Outcomes(l, es), id) == Answers(Lookup(l, id), About(es, id))
  {
    AboutReduces(es, id);
    if es != [] {
      var n := |es| - 1;
      var outs := Outcomes(l, es[..n]);
      RunAnswersEachOrder(l, es[..n], id);
      assert (outs + [Step(Run(l, es[..n]), es[n]).1])[..n] == outs;
      assert AnswersAbout(es[..n], outs, id) + [] == AnswersAbout(es[..n], outs, id);
      assert About(es[..n], id) + [] == About(es[..n], id);
      if IdOf(es[n]) == id {
        var about := About(es[..n], id);
        AnswerIsItsOwn(l, es[..n], es[n]);
        assert (about + [es[n]])[..|about|] == about;
      }
    }
  }

  lemma {:induction false} NothingSettlesToNothing(es: seq<Event>)
    requires forall e :: e in es ==> IsReduction(e)
    ensures Settle(None, es) == None
  {
    if es != [] { NothingSettlesToNothing(es[..|es| - 1]); }
  }

  lemma {:induction false} SurvivorsAgree(l: seq<Order>, es: seq<Event>, es': seq<Event>)
    requires forall e :: e in es ==> IsReduction(e)
    requires forall e :: e in es' ==> IsReduction(e)
    requires forall id :: About(es, id) == About(es', id)
    ensures Survivors(l, es) == Survivors(l, es')
  {
    if l != [] { SurvivorsAgree(l[..|l| - 1], es, es'); }
  }

  /** Two histories of reductions that agree order by order, however they interleave different
      orders, leave the same book and give every order the same answers. */
  lemma InterleavingIsIrrelevant(l: seq<Order>, es: seq<Event>, es': seq<Event>)
    requires DistinctIds(l)
    requires forall e :: e in es ==> IsReduction(e)
    requires forall e :: e in es' ==> IsReduction(e)
    requires forall id :: About(es, id) == About(es', id)
    ensures Run(l, es) == Run(l, es')
    ensures |Outcomes(l, es)| == |es| && |Outcomes(l, es')| == |es'|
    ensures forall id :: AnswersAbout(es, Outcomes(l, es), id) == AnswersAbout(es', Outcomes(l, es'), id)
  {
    RunSettlesEachOrder(l, es);
    RunSettlesEachOrder(l, es');
    SurvivorsAgree(l, es, es');
    RunAnswersEachOrder(l, es, 0);
    RunAnswersEachOrder(l, es', 0);
    forall id: OrderId
      ensures AnswersAbout(es, Outcomes(l, es), id) == AnswersAbout(es', Outcomes(l, es'), id)
    {
      RunAnswersEachOrder(l, es, id);
      RunAnswersEachOrder(l, es', id);
    }
  }

  predicate Takes(e: Event, id: OrderId, qty: Quantity) {
    (e.Execute? || e.ExecuteAt? || e.Cancel?) && e.id == id && e.qty == qty
  }

  /** An execution or cancel is accepted exactly when the order is live and big enough. */
  lemma TakeStep(l: seq<Order>, e: Event, id: OrderId, qty: Quantity)
    requires Takes(e, id, qty)
    ensures !Step(l, e).1.Rejected? <==> Lookup(l, id).Some? && qty <= Lookup(l, id).value.qty
    ensures !Step(l, e).1.Rejected? ==> Step(l, e).0 == Amend(l, id, Shrunk(Lookup(l, id).value, qty))
  {
  }

  /** Two accepted executions or cancels of one order leave the book that one of the summed size leaves. */
  lemma ReductionsAddUp(l: seq<Order>, e1: Event, e2: Event, e: Event, id: OrderId, qty1: Quantity, qty2: Quantity)
    requires Takes(e1, id, qty1) && Takes(e2, id, qty2)
    requires !Step(l, e1).1.Rejected? && !Step(Step(l, e1).0, e2).1.Rejected?
    ensures qty1 + qty2 <= U64_MAX
    ensures Takes(e, id, qty1 + qty2) ==> !Step(l, e).1.Rejected? && Step(l, e).0 == Step(Step(l, e1).0, e2).0
  {
    TakeStep(l, e1, id, qty1);
    var o := Lookup(l, id).value;
    var l1 := Amend(l, id, Shrunk(o, qty1));
    TakeStep(l1, e2, id, qty2);
    LookupAmend(l, id, Shrunk(o, qty1), id);
    AmendTwice(l, id, o.(qty := o.qty - qty1), Shrunk(o.(qty := o.qty - qty1), qty2));
    if Takes(e, id, qty1 + qty2) { TakeStep(l, e, id, qty1 + qty2); }
  }
}
