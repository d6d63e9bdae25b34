/** Top of book and depth, read off the cached levels and judged by a scan of the live orders. */
module Queries {
  import opened Wrappers
  import opened OrderTypes
  import opened BookModel
  import opened Level
  import opened BookLinks
  import opened OrderBook

  // ---- Scans of the live orders ----

  /** Some live order rests at `k`. */
  ghost predicate Quoted(l: seq<Order>, k: LevelKey) {
    exists i :: 0 <= i < |l| && KeyOf(l[i]) == k
  }

  ghost function SideQty(l: seq<Order>, side: Side): nat {
    if l == [] then 0
    else SideQty(l[..|l| - 1], side) + (if l[|l| - 1].side == side then l[|l| - 1].qty else 0)
  }

  predicate Better(side: Side, p: Price, p': Price) {
    if side == Bid then p > p' else p < p'
  }

  lemma {:induction false} QuotedIsQueued(l: seq<Order>, k: LevelKey)
    ensures Quoted(l, k) <==> IdsAt(l, k) != []
  {
    if l != [] {
      var n := |l| - 1;
      QuotedIsQueued(l[..n], k);
      if Quoted(l[..n], k) {
        var i :| 0 <= i < n && KeyOf(l[..n][i]) == k;
        assert KeyOf(l[i]) == k;
      }
      if Quoted(l, k) && KeyOf(l[n]) != k {
        var i :| 0 <= i < |l| && KeyOf(l[i]) == k;
        assert KeyOf(l[..n][i]) == k;
      }
    }
  }

  // ---- The order of the levels ----

  function MinOf(s: set<Price>): (m: Price)
    requires s != {}
    ensures m in s && forall p :: p in s ==> m <= p
  {
    HasLeast(s);
    var m :| m in s && forall p :: p in s ==> m <= p;
    m
  }

  lemma HasLeast(s: set<Price>)
    requires s != {}
    ensures exists m :: m in s && forall p :: p in s ==> m <= p
  {
    var m := LeastOf(s);
  }

  lemma {:induction false} LeastOf(s: set<Price>) returns (m: Price)
    requires s != {}
    ensures m in s && forall p :: p in s ==> m <= p
    decreases |s|
  {
    var x :| x in s;
    m := x;
    var rest := s - {x};
    assert s == rest + {x};
    if rest != {} {
      var least := LeastOf(rest);
      if least < x { m := least; }
    }
  }

  /** The keys of a price map in the order a B-tree iterates them. */
  function Ascending(s: set<Price>): (r: seq<Price>)
    ensures |r| == |s|
    ensures forall p :: p in r <==> p in s
    ensures forall i, j :: 0 <= i < j < |r| ==> r[i] < r[j]
    decreases |s|
  {
    if s == {} then []
    else
      var m := MinOf(s);
      [m] + Ascending(s - {m})
  }

  function Reversed(s: seq<Price>): (r: seq<Price>)
    ensures |r| == |s|
    ensures forall p :: p in r <==> p in s
    ensures forall i :: 0 <= i < |r| ==> r[i] == s[|s| - 1 - i]
  {
    if s == [] then [] else
      assert s == [s[0]] + s[1..];
      Reversed(s[1..]) + [s[0]]
  }

  /** The levels of a side, best first. */
  function BestFirst(side: Side, levels: map<Price, Level>): (r: seq<Price>)
    ensures |r| == |levels|
    ensures forall p :: p in r <==> p in levels
    ensures forall i, j :: 0 <= i < j < |r| ==> Better(side, r[i], r[j])
  {
    if side == Bid then Reversed(Ascending(levels.Keys)) else Ascending(levels.Keys)
  }

  // ---- The queries ----

  /** What a query for the best level of `side` must answer, by a scan of all live orders; the quantity
      only when the totals of the book are exact. */
  ghost predicate IsBest(exact: bool, l: seq<Order>, side: Side, best: Option<(Price, Quantity)>) {
    match best
    case None => forall p :: !Quoted(l, LevelKey(side, p))
    case Some((price, qty)) =>
      && Quoted(l, LevelKey(side, price))
      && (forall p :: Quoted(l, LevelKey(side, p)) && p != price ==> Better(side, price, p))
      && (exact ==> qty == QtyAt(l, LevelKey(side, price)))
  }

  /** The best `n` levels of `side`, by a scan of all live orders. */
  ghost predicate IsDepth(exact: bool, l: seq<Order>, side: Side, n: nat, depth: seq<(Price, Quantity)>) {
    && |depth| <= n
    && (forall i, j :: 0 <= i < j < |depth| ==> Better(side, depth[i].0, depth[j].0))
    && (forall i :: 0 <= i < |depth| ==>
          Quoted(l, LevelKey(side, depth[i].0)) && (exact ==> depth[i].1 == QtyAt(l, LevelKey(side, depth[i].0))))
    && (forall p :: Quoted(l, LevelKey(side, p)) && (forall i :: 0 <= i < |depth| ==> depth[i].0 != p) ==>
          |depth| == n && forall i :: 0 <= i < |depth| ==> Better(side, depth[i].0, p))
  }

  /** The cached levels are the quotes of the side with their totals. */
  ghost predicate Quotes(exact: bool, levels: map<Price, Level>, l: seq<Order>, side: Side) {
    && (forall p :: p in levels <==> Quoted(l, LevelKey(side, p)))
    && (exact ==> forall p :: p in levels ==> levels[p].totalQty == QtyAt(l, LevelKey(side, p)))
  }

  lemma LevelsAreQuotes(book: OrderBook, side: Side)
    requires book.Valid()
    ensures Quotes(book.totalsExact, book.SideLevels(side), book.arrivals, side)
  {
    var levels := book.SideLevels(side);
    forall p: Price
      ensures p in levels <==> Quoted(book.arrivals, LevelKey(side, p))
      ensures p in levels && book.totalsExact ==> levels[p].totalQty == QtyAt(book.arrivals, LevelKey(side, p))
    {
      var k := LevelKey(side, p);
      QuotedIsQueued(book.arrivals, k);
      assert LevelExact(book.totalsExact, levels, k.price, book.orders, IdsAt(book.arrivals, k),
                        QtyAt(book.arrivals, k));
    }
  }

  function BestOf(side: Side, levels: map<Price, Level>): Option<(Price, Quantity)> {
    var prices := BestFirst(side, levels);
    if prices == [] then None
    else
      assert prices[0] in prices;
      Some((prices[0], levels[prices[0]].totalQty))
  }

  function DepthOf(side: Side, levels: map<Price, Level>, n: nat): (r: seq<(Price, Quantity)>)
    ensures |r| == if n < |levels| then n else |levels|
  {
    var prices := BestFirst(side, levels);
    assert forall i :: 0 <= i < |prices| ==> prices[i] in prices;
    seq(if n < |prices| then n else |prices|, i requires 0 <= i < |prices| => (prices[i], levels[prices[i]].totalQty))
  }

  /** Any first `n` quotes, best first and with the scanned totals, are the depth. */
  lemma DepthIsDepth(exact: bool, l: seq<Order>, side: Side, n: nat, prices: seq<Price>, r: seq<(Price, Quantity)>)
    requires forall p :: p in prices <==> Quoted(l, LevelKey(side, p))
    requires forall i, j :: 0 <= i < j < |prices| ==> Better(side, prices[i], prices[j])
    requires |r| == if n < |prices| then n else |prices|
    requires forall i :: 0 <= i < |r| ==>
               r[i].0 == prices[i] && (exact ==> r[i].1 == QtyAt(l, LevelKey(side, prices[i])))
    ensures IsDepth(exact, l, side, n, r)
  {
    forall i | 0 <= i < |r| ensures Quoted(l, LevelKey(side, r[i].0)) {
      assert prices[i] in prices;
    }
    forall p | Quoted(l, LevelKey(side, p)) && (forall i :: 0 <= i < |r| ==> r[i].0 != p)
      ensures |r| == n && forall i :: 0 <= i < |r| ==> Better(side, r[i].0, p)
    {
      var j :| 0 <= j < |prices| && prices[j] == p;
      if j < |r| { assert false; }
    }
  }

  // ---- Full depth accounts for every resting share ----

  ghost function DepthTotal(depth: seq<(Price, Quantity)>): nat {
    if depth == [] then 0 else DepthTotal(depth[..|depth| - 1]) + depth[|depth| - 1].1
  }

  ghost function QtyAtAll(l: seq<Order>, side: Side, prices: seq<Price>): nat {
    if prices == [] then 0
    else QtyAtAll(l, side, prices[..|prices| - 1]) + QtyAt(l, LevelKey(side, prices[|prices| - 1]))
  }

  /** One more order counts once, at its own price. */
  lemma {:induction false} QtyAtAllAppend(l: seq<Order>, o: Order, side: Side, prices: seq<Price>)
    requires forall i, j :: 0 <= i < j < |prices| ==> prices[i] != prices[j]
    ensures QtyAtAll(l + [o], side, prices) ==
            QtyAtAll(l, side, prices) + (if o.side == side && o.price in prices then o.qty else 0)
  {
    if prices != [] {
      var n := |prices| - 1;
      QtyAtAllAppend(l, o, side, prices[..n]);
      AppendFacts(l, o, LevelKey(side, prices[n]));
      assert prices == prices[..n] + [prices[n]];
    }
  }

  lemma {:induction false} QtyAtAllNothing(side: Side, prices: seq<Price>)
    ensures QtyAtAll([], side, prices) == 0
  {
    if prices != [] { QtyAtAllNothing(side, prices[..|prices| - 1]); }
  }

  lemma {:induction false} LevelsPartitionSide(l: seq<Order>, side: Side, prices: seq<Price>)
    requires forall i, j :: 0 <= i < j < |prices| ==> prices[i] != prices[j]
    requires forall i :: 0 <= i < |l| && l[i].side == side ==> l[i].price in prices
    ensures QtyAtAll(l, side, prices) == SideQty(l, side)
  {
    if l == [] {
      QtyAtAllNothing(side, prices);
    } else {
      var n := |l| - 1;
      LevelsPartitionSide(l[..n], side, prices);
      QtyAtAllAppend(l[..n], l[n], side, prices);
      assert l == l[..n] + [l[n]];
    }
  }

  lemma {:induction false} DepthTotalIsQtyAtAll(l: seq<Order>, side: Side, depth: seq<(Price, Quantity)>,
                                                prices: seq<Price>)
    requires |prices| == |depth|
    requires forall i :: 0 <= i < |depth| ==>
               depth[i].0 == prices[i] && depth[i].1 == QtyAt(l, LevelKey(side, prices[i]))
    ensures DepthTotal(depth) == QtyAtAll(l, side, prices)
  {
    if depth != [] {
      var n := |depth| - 1;
      DepthTotalIsQtyAtAll(l, side, depth[..n], prices[..n]);
    }
  }

  /** A depth that misses no quote accounts for every resting share of the side. */
  lemma FullDepthIsWholeSide(l: seq<Order>, side: Side, prices: seq<Price>, depth: seq<(Price, Quantity)>)
    requires forall p :: p in prices <==> Quoted(l, LevelKey(side, p))
    requires forall i, j :: 0 <= i < j < |prices| ==> Better(side, prices[i], prices[j])
    requires |depth| == |prices|
    requires forall i :: 0 <= i < |depth| ==> depth[i] == (prices[i], QtyAt(l, LevelKey(side, prices[i])))
    ensures DepthTotal(depth) == SideQty(l, side)
  {
    forall i | 0 <= i < |l| && l[i].side == side ensures l[i].price in prices {
      assert KeyOf(l[i]) == LevelKey(side, l[i].price);
    }
    LevelsPartitionSide(l, side, prices);
    DepthTotalIsQtyAtAll(l, side, depth, prices);
  }

  // ---- The queries of the book ----

  lemma BestOfIsBest(exact: bool, l: seq<Order>, side: Side, levels: map<Price, Level>)
    requires Quotes(exact, levels, l, side)
    ensures IsBest(exact, l, side, BestOf(side, levels))
  {
    var prices := BestFirst(side, levels);
    if prices == [] {
      assert levels.Keys == {};
    } else {
      var best := prices[0];
      assert best in prices && best in levels;
      forall p | Quoted(l, LevelKey(side, p)) && p != best ensures Better(side, best, p) {
        assert p in levels && p in prices;
        var i :| 0 <= i < |prices| && prices[i] == p;
      }
    }
  }

  lemma DepthOfIsDepth(exact: bool, l: seq<Order>, side: Side, levels: map<Price, Level>, n: nat)
    requires Quotes(exact, levels, l, side)
    ensures IsDepth(exact, l, side, n, DepthOf(side, levels, n))
    ensures exact && |levels| <= n ==> DepthTotal(DepthOf(side, levels, n)) == SideQty(l, side)
  {
    var prices := BestFirst(side, levels);
    var r := DepthOf(side, levels, n);
    forall i | 0 <= i < |r|
      ensures r[i].0 == prices[i] && (exact ==> r[i] == (prices[i], QtyAt(l, LevelKey(side, prices[i]))))
    {
      assert prices[i] in prices;
    }
    DepthIsDepth(exact, l, side, n, prices, r);
    if exact && |levels| <= n { FullDepthIsWholeSide(l, side, prices, r); }
  }

  /** `best_bid` and `best_ask`. */
  function Best(book: OrderBook, side: Side): (r: Option<(Price, Quantity)>)
    requires book.Valid()
    reads book, book.pool
    ensures IsBest(book.totalsExact, book.arrivals, side, r)
  {
    LevelsAreQuotes(book, side);
    BestOfIsBest(book.totalsExact, book.arrivals, side, book.SideLevels(side));
    BestOf(side, book.SideLevels(side))
  }

  /** One side of `depth(n)`. */
  function Depth(book: OrderBook, side: Side, n: nat): (r: seq<(Price, Quantity)>)
    requires book.Valid()
    reads book, book.pool
    ensures IsDepth(book.totalsExact, book.arrivals, side, n, r)
    ensures book.totalsExact && |book.SideLevels(side)| <= n ==> DepthTotal(r) == SideQty(book.arrivals, side)
  {
    LevelsAreQuotes(book, side);
    DepthOfIsDepth(book.totalsExact, book.arrivals, side, book.SideLevels(side), n);
    DepthOf(side, book.SideLevels(side), n)
  }
}
