/** What a list of datagrams amounts to for a consumer that stops at the end of the session. */
module Readings {
  import opened Wrappers
  import opened Chunking

  /** What is read out of one datagram: items for the handler, or the end of the session. */
  datatype Reading<T> = Ending | Data(items: seq<T>)

  /** No ending among the first `i` datagrams. */
  predicate NoEnd<D, T>(read: D -> Reading<T>, ds: seq<D>, i: nat)
    requires i <= |ds|
  {
    forall k :: 0 <= k < i ==> read(ds[k]).Data?
  }

  /** The items of the first `i` datagrams, up to the first ending. */
  function Kept<D, T>(read: D -> Reading<T>, ds: seq<D>, i: nat): seq<T>
    requires i <= |ds|
  {
    if i == 0 then []
    else Kept(read, ds, i - 1) + (if NoEnd(read, ds, i) then read(ds[i - 1]).items else [])
  }

  /** Nothing behind an ending is kept. */
  lemma {:induction false} NothingBehindTheEnd<D, T>(read: D -> Reading<T>, ds: seq<D>, i: nat, j: nat)
    requires i <= j <= |ds| && !NoEnd(read, ds, i)
    ensures Kept(read, ds, j) == Kept(read, ds, i)
  {
    if i < j {
      NothingBehindTheEnd(read, ds, i, j - 1);
    }
  }

  lemma NoEndOfPrefix<D, T>(read: D -> Reading<T>, a: seq<D>, b: seq<D>, i: nat)
    requires i <= |a|
    ensures NoEnd(read, a + b, i) <==> NoEnd(read, a, i)
  {
    assert forall k :: 0 <= k < i ==> (a + b)[k] == a[k];
  }

  lemma NoEndConcat<D, T>(read: D -> Reading<T>, a: seq<D>, b: seq<D>, i: nat, n: nat)
    requires i <= |b| && n == |a| + i && NoEnd(read, a, |a|)
    ensures NoEnd(read, a + b, n) <==> NoEnd(read, b, i)
  {
    assert forall k :: 0 <= k < |a| ==> (a + b)[k] == a[k];
    if NoEnd(read, a + b, n) {
      forall k | 0 <= k < i ensures read(b[k]).Data? { assert (a + b)[|a| + k] == b[k]; }
    } else {
      var k :| 0 <= k < n && !read((a + b)[k]).Data?;
      assert |a| <= k && (a + b)[k] == b[k - |a|];
    }
  }

  lemma {:induction false} KeptOfPrefix<D, T>(read: D -> Reading<T>, a: seq<D>, b: seq<D>, i: nat)
    requires i <= |a|
    ensures Kept(read, a + b, i) == Kept(read, a, i)
  {
    if 0 < i {
      KeptOfPrefix(read, a, b, i - 1);
      NoEndOfPrefix(read, a, b, i);
    }
  }

  lemma KeptOfTake<D, T>(read: D -> Reading<T>, ds: seq<D>, n: nat)
    requires n <= |ds|
    ensures Kept(read, ds[..n], n) == Kept(read, ds, n)
  {
    KeptOfPrefix(read, ds[..n], ds[n..], n);
    assert ds[..n] + ds[n..] == ds;
  }

  lemma NextOfTake<D, T>(read: D -> Reading<T>, ds: seq<D>, n: nat)
    requires n < |ds| && NoEnd(read, ds, n + 1)
    ensures Kept(read, ds[..n + 1], n + 1) == Kept(read, ds[..n], n) + read(ds[n]).items
  {
    KeptOfTake(read, ds, n);
    KeptOfTake(read, ds, n + 1);
  }

  lemma {:induction false} ItemsAreKept<D, T>(read: D -> Reading<T>, ds: seq<D>, i: nat, n: nat)
    requires i < n <= |ds| && NoEnd(read, ds, n)
    ensures forall x :: x in read(ds[i]).items ==> x in Kept(read, ds, n)
  {
    if i < n - 1 { ItemsAreKept(read, ds, i, n - 1); }
  }

  lemma {:induction false} KeptConcat<D, T>(read: D -> Reading<T>, a: seq<D>, b: seq<D>, i: nat, n: nat)
    requires i <= |b| && n == |a| + i && NoEnd(read, a, |a|)
    ensures Kept(read, a + b, n) == Kept(read, a, |a|) + Kept(read, b, i)
    decreases i
  {
    if i == 0 {
      KeptOfPrefix(read, a, b, |a|);
    } else {
      KeptConcat(read, a, b, i - 1, n - 1);
      NoEndConcat(read, a, b, i, n);
      assert (a + b)[n - 1] == b[i - 1];
      KeptGrows(read, b, i - 1, Kept(read, a, |a|));
    }
  }

  /** Datagrams behind others among which there is no ending. */
  lemma ConcatReads<D, T>(read: D -> Reading<T>, a: seq<D>, b: seq<D>)
    requires NoEnd(read, a, |a|)
    ensures NoEnd(read, a + b, |a + b|) <==> NoEnd(read, b, |b|)
    ensures Kept(read, a + b, |a + b|) == Kept(read, a, |a|) + Kept(read, b, |b|)
  {
    NoEndConcat(read, a, b, |b|, |a + b|);
    KeptConcat(read, a, b, |b|, |a + b|);
  }

  lemma OneIsKept<D, T>(read: D -> Reading<T>, d: D)
    ensures NoEnd(read, [d], 1) <==> read(d).Data?
    ensures Kept(read, [d], 1) == if read(d).Data? then read(d).items else []
  {
    assert [d][0] == d && Kept(read, [d], 0) == [];
  }

  lemma KeptGrows<D, T>(read: D -> Reading<T>, ds: seq<D>, i: nat, before: seq<T>)
    requires i < |ds|
    ensures before + Kept(read, ds, i + 1) ==
            before + Kept(read, ds, i) + (if NoEnd(read, ds, i + 1) then read(ds[i]).items else [])
  {
    var more := if NoEnd(read, ds, i + 1) then read(ds[i]).items else [];
    Regroup(before, Kept(read, ds, i), more);
  }

  // ---- Handing the items over ----

  /** A handler's calls after the first `i` datagrams, when `hand` is what one datagram adds to them. */
  function Handed<D, T>(read: D -> Reading<T>, hand: (seq<T>, D) -> seq<T>, calls: seq<T>, ds: seq<D>, i: nat): seq<T>
    requires i <= |ds|
  {
    if i == 0 then calls
    else
      var before := Handed(read, hand, calls, ds, i - 1);
      if NoEnd(read, ds, i) then hand(before, ds[i - 1]) else before
  }

  lemma HandedNext<D, T>(read: D -> Reading<T>, hand: (seq<T>, D) -> seq<T>, calls: seq<T>, ds: seq<D>, i: nat)
    requires i < |ds| && NoEnd(read, ds, i)
    ensures NoEnd(read, ds, i + 1) <==> read(ds[i]).Data?
    ensures Handed(read, hand, calls, ds, i + 1) ==
            if read(ds[i]).Data? then hand(Handed(read, hand, calls, ds, i), ds[i])
            else Handed(read, hand, calls, ds, i)
  {
  }

  lemma {:induction false} NothingHandedBehindTheEnd<D, T>(read: D -> Reading<T>, hand: (seq<T>, D) -> seq<T>,
                                                           calls: seq<T>, ds: seq<D>, i: nat, j: nat)
    requires i <= j <= |ds| && !NoEnd(read, ds, i)
    ensures Handed(read, hand, calls, ds, j) == Handed(read, hand, calls, ds, i)
  {
    if i < j {
      NothingHandedBehindTheEnd(read, hand, calls, ds, i, j - 1);
    }
  }

  /** Handing a datagram over adds its items to the calls. */
  ghost predicate Adds<D, T>(read: D -> Reading<T>, hand: (seq<T>, D) -> seq<T>, calls: seq<T>, d: D) {
    read(d).Data? ==> hand(calls, d) == calls + read(d).items
  }

  /** A handler that takes all items of a datagram is called with all that is kept. */
  lemma {:induction false} HandedIsKept<D, T>(read: D -> Reading<T>, hand: (seq<T>, D) -> seq<T>,
                                              calls: seq<T>, ds: seq<D>, i: nat)
    requires i <= |ds| && forall c, d :: Adds(read, hand, c, d)
    ensures Handed(read, hand, calls, ds, i) == calls + Kept(read, ds, i)
  {
    if i == 0 {
      assert calls + [] == calls;
    } else {
      var n := i - 1;
      HandedIsKept(read, hand, calls, ds, n);
      assert Adds(read, hand, Handed(read, hand, calls, ds, n), ds[n]);
      KeptGrows(read, ds, n, calls);
    }
  }

  // ---- A handler that asks to stop ----

  /** Of some items, those up to call `k` of a handler that has had `calls` so far; all, when call `k` is not
      among them. */
  function Cut<T>(calls: seq<T>, items: seq<T>, k: nat): seq<T> {
    if |calls| < k <= |calls| + |items| then items[..k - |calls|] else items
  }

  /** Handing a datagram over adds its items up to call `k`. */
  ghost predicate Cuts<D, T>(read: D -> Reading<T>, hand: (seq<T>, D) -> seq<T>, k: nat, calls: seq<T>, d: D) {
    read(d).Data? ==> hand(calls, d) == calls + Cut(calls, read(d).items, k)
  }

  lemma {:induction false} KeptIsPrefix<D, T>(read: D -> Reading<T>, ds: seq<D>, i: nat, j: nat)
    requires i <= j <= |ds|
    ensures Kept(read, ds, i) <= Kept(read, ds, j)
  {
    if i < j { KeptIsPrefix(read, ds, i, j - 1); }
  }

  /** Before call `k` nothing is missed. */
  lemma {:induction false} HandedBeforeStop<D, T>(read: D -> Reading<T>, hand: (seq<T>, D) -> seq<T>, k: nat,
                                                  calls: seq<T>, ds: seq<D>, i: nat)
    requires i <= |ds| && forall c, d :: Cuts(read, hand, k, c, d)
    requires |calls| + |Kept(read, ds, i)| < k
    ensures Handed(read, hand, calls, ds, i) == calls + Kept(read, ds, i)
  {
    if i == 0 {
      assert calls + [] == calls;
    } else {
      var n := i - 1;
      KeptIsPrefix(read, ds, n, i);
      HandedBeforeStop(read, hand, k, calls, ds, n);
      assert Cuts(read, hand, k, Handed(read, hand, calls, ds, n), ds[n]);
      KeptGrows(read, ds, n, calls);
    }
  }

  /** Nor behind it. */
  lemma {:induction false} HandedBehindStop<D, T>(read: D -> Reading<T>, hand: (seq<T>, D) -> seq<T>, k: nat,
                                                  calls: seq<T>, ds: seq<D>, i: nat, j: nat)
    requires i <= j <= |ds| && forall c, d :: Cuts(read, hand, k, c, d)
    requires k <= |Handed(read, hand, calls, ds, i)|
    ensures Kept(read, ds, i) <= Kept(read, ds, j)
    ensures Handed(read, hand, calls, ds, j) ==
            Handed(read, hand, calls, ds, i) + Kept(read, ds, j)[|Kept(read, ds, i)|..]
  {
    KeptIsPrefix(read, ds, i, j);
    var before, kept := Handed(read, hand, calls, ds, i), Kept(read, ds, i);
    if i == j {
      assert before + kept[|kept|..] == before;
    } else {
      var n := j - 1;
      HandedBehindStop(read, hand, k, calls, ds, i, n);
      assert Cuts(read, hand, k, Handed(read, hand, calls, ds, n), ds[n]);
      var more := if NoEnd(read, ds, j) then read(ds[n]).items else [];
      assert (Kept(read, ds, n) + more)[|kept|..] == Kept(read, ds, n)[|kept|..] + more;
      Regroup(before, Kept(read, ds, n)[|kept|..], more);
    }
  }

  /** A handler that asks to stop on call `k`, and gets it with datagram `i`, misses the rest of that
      datagram and nothing else. */
  lemma StopMissesRest<D, T>(read: D -> Reading<T>, hand: (seq<T>, D) -> seq<T>, k: nat, calls: seq<T>,
                             ds: seq<D>, i: nat)
    requires i < |ds| && forall c, d :: Cuts(read, hand, k, c, d)
    requires |calls| + |Kept(read, ds, i)| < k <= |calls| + |Kept(read, ds, i + 1)|
    ensures |Kept(read, ds, i + 1)| <= |Kept(read, ds, |ds|)|
    ensures Handed(read, hand, calls, ds, |ds|) ==
            calls + Kept(read, ds, |ds|)[..k - |calls|] + Kept(read, ds, |ds|)[|Kept(read, ds, i + 1)|..]
  {
    var kept, kept', all := Kept(read, ds, i), Kept(read, ds, i + 1), Kept(read, ds, |ds|);
    KeptIsPrefix(read, ds, i + 1, |ds|);
    HandedBeforeStop(read, hand, k, calls, ds, i);
    assert NoEnd(read, ds, i + 1) && kept' == kept + read(ds[i]).items;
    assert Cuts(read, hand, k, calls + kept, ds[i]);
    var some := read(ds[i]).items[..k - |calls + kept|];
    Regroup(calls, kept, some);
    assert kept + some == all[..k - |calls|];
    HandedBehindStop(read, hand, k, calls, ds, i + 1, |ds|);
  }

  // ---- Chunks ----

  /** Datagram `i` reads as chunk `i`, or as an ending instead. */
  ghost predicate ReadsAs<D, T>(read: D -> Reading<T>, ds: seq<D>, chunks: seq<seq<T>>) {
    |ds| == |chunks| &&
    forall i :: 0 <= i < |chunks| ==>
      chunks[i] != [] && (read(ds[i]) == Data(chunks[i]) || read(ds[i]) == Reading<T>.Ending)
  }

  /** All items of the chunks are kept exactly when there is no ending among them. */
  lemma {:induction false} KeptCompletelyIff<D, T>(read: D -> Reading<T>, ds: seq<D>, chunks: seq<seq<T>>, i: nat)
    requires ReadsAs(read, ds, chunks) && i <= |chunks|
    ensures |Kept(read, ds, i)| <= |Flatten(chunks[..i])|
    ensures Kept(read, ds, i) == Flatten(chunks[..i]) <==> NoEnd(read, ds, i)
  {
    if 0 < i {
      KeptCompletelyIff(read, ds, chunks, i - 1);
      assert chunks[..i][..i - 1] == chunks[..i - 1];
    }
  }
}
