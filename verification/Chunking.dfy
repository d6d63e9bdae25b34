/** Splitting a list of messages into packet-sized chunks. */
module Chunking {
  import opened Widths

  type Payloads = seq<Bytes>

  function Total(msgs: Payloads): nat {
    if msgs == [] then 0 else Total(msgs[..|msgs| - 1]) + |msgs[|msgs| - 1]|
  }

  function Flatten<T>(chunks: seq<seq<T>>): seq<T> {
    if chunks == [] then [] else Flatten(chunks[..|chunks| - 1]) + chunks[|chunks| - 1]
  }

  /** A chunk may exceed the limit only when it is a single message. */
  ghost predicate Admissible(chunk: Payloads, limit: nat) {
    chunk != [] && (|chunk| == 1 || Total(chunk) <= limit)
  }

  /** An order-preserving partition of `msgs` into admissible chunks. */
  ghost predicate Partitions(chunks: seq<Payloads>, msgs: Payloads, limit: nat) {
    Flatten(chunks) == msgs && forall i :: 0 <= i < |chunks| ==> Admissible(chunks[i], limit)
  }

  /** Chunk `i` has no room for the first message of the next one. */
  ghost predicate Full(chunks: seq<Payloads>, i: nat, limit: nat)
    requires i + 1 < |chunks|
  {
    chunks[i + 1] != [] && Total(chunks[i]) + |chunks[i + 1][0]| > limit
  }

  ghost predicate Saturated(chunks: seq<Payloads>, limit: nat) {
    forall i: nat :: i + 1 < |chunks| ==> Full(chunks, i, limit)
  }

  /** The chunks of `msgs`, one message after the other. */
  function Chunks(msgs: Payloads, limit: nat): seq<Payloads> {
    if msgs == [] then []
    else
      var msg := msgs[|msgs| - 1];
      var chunks := Chunks(msgs[..|msgs| - 1], limit);
      if chunks == [] || Total(chunks[|chunks| - 1]) + |msg| > limit then chunks + [[msg]]
      else chunks[..|chunks| - 1] + [chunks[|chunks| - 1] + [msg]]
  }

  method ChunkMessages(msgs: Payloads, chunkSize: nat) returns (chunks: seq<Payloads>)
    ensures chunks == Chunks(msgs, chunkSize)
  {
    chunks := [];
    var current: Payloads := [];
    var currentSize := 0;
    for i := 0 to |msgs|
      invariant chunks + (if current == [] then [] else [current]) == Chunks(msgs[..i], chunkSize)
      invariant current == [] ==> chunks == []
      invariant currentSize == Total(current)
    {
      var msg := msgs[i];
      assert msgs[..i + 1][..i] == msgs[..i];
      ghost var so := Chunks(msgs[..i], chunkSize);
      assert current != [] ==> so[|so| - 1] == current && so[..|so| - 1] == chunks;
      if current != [] && currentSize + |msg| > chunkSize {
        chunks := chunks + [current];
        current := [];
        currentSize := 0;
      }
      currentSize := currentSize + |msg|;
      assert (current + [msg])[..|current|] == current;
      current := current + [msg];
    }
    if current != [] {
      chunks := chunks + [current];
    }
    assert msgs[..|msgs|] == msgs;
  }

  lemma OneMoreChunk(chunks: seq<Payloads>, msgs: Payloads, msg: Bytes, limit: nat)
    requires Partitions(chunks, msgs, limit) && Saturated(chunks, limit)
    requires chunks == [] || Total(chunks[|chunks| - 1]) + |msg| > limit
    ensures Partitions(chunks + [[msg]], msgs + [msg], limit) && Saturated(chunks + [[msg]], limit)
  {
    var chunks' := chunks + [[msg]];
    assert chunks'[..|chunks|] == chunks;
    forall i: nat | i + 1 < |chunks'| ensures Full(chunks', i, limit) {
      if i + 1 < |chunks| { assert Full(chunks, i, limit); }
    }
  }

  lemma OneMoreInChunk(chunks: seq<Payloads>, msgs: Payloads, msg: Bytes, limit: nat)
    requires Partitions(chunks, msgs, limit) && Saturated(chunks, limit)
    requires chunks != [] && Total(chunks[|chunks| - 1]) + |msg| <= limit
    ensures var chunks' := chunks[..|chunks| - 1] + [chunks[|chunks| - 1] + [msg]];
            Partitions(chunks', msgs + [msg], limit) && Saturated(chunks', limit)
  {
    var m := |chunks| - 1;
    var last := chunks[m] + [msg];
    var chunks' := chunks[..m] + [last];
    assert last[..|chunks[m]|] == chunks[m];
    assert chunks'[..m] == chunks[..m];
    assert Flatten(chunks') == Flatten(chunks[..m]) + (chunks[m] + [msg]);
    assert Admissible(chunks[m], limit) && last[0] == chunks[m][0];
    forall i: nat | i + 1 < |chunks'| ensures Full(chunks', i, limit) {
      assert Full(chunks, i, limit);
    }
  }

  lemma {:induction false} ChunksPartition(msgs: Payloads, limit: nat)
    ensures Partitions(Chunks(msgs, limit), msgs, limit) && Saturated(Chunks(msgs, limit), limit)
  {
    if msgs != [] {
      var n := |msgs| - 1;
      var chunks := Chunks(msgs[..n], limit);
      ChunksPartition(msgs[..n], limit);
      assert msgs == msgs[..n] + [msgs[n]];
      if chunks == [] || Total(chunks[|chunks| - 1]) + |msgs[n]| > limit {
        OneMoreChunk(chunks, msgs[..n], msgs[n], limit);
      } else {
        OneMoreInChunk(chunks, msgs[..n], msgs[n], limit);
      }
    }
  }

  // ---- Minimality ----

  /** Where chunk `i` starts in the flattened list. */
  ghost function Start(chunks: seq<Payloads>, i: nat): nat
    requires i <= |chunks|
  {
    |Flatten(chunks[..i])|
  }

  lemma {:induction false} ChunkIsSlice(chunks: seq<Payloads>, i: nat)
    requires i < |chunks|
    ensures Start(chunks, i + 1) == Start(chunks, i) + |chunks[i]| <= |Flatten(chunks)|
    ensures chunks[i] == Flatten(chunks)[Start(chunks, i)..Start(chunks, i + 1)]
    decreases |chunks|
  {
    var n := |chunks| - 1;
    assert chunks[..i + 1][..i] == chunks[..i];
    if i < n {
      ChunkIsSlice(chunks[..n], i);
      assert chunks[..n][..i] == chunks[..i] && chunks[..n][..i + 1] == chunks[..i + 1];
    } else {
      assert chunks[..n + 1] == chunks;
    }
  }

  lemma {:induction false} TotalConcat(a: Payloads, b: Payloads)
    ensures Total(a + b) == Total(a) + Total(b)
  {
    if b == [] {
      assert a + b == a;
    } else {
      var n := |b| - 1;
      assert (a + b)[..|a + b| - 1] == a + b[..n];
      TotalConcat(a, b[..n]);
    }
  }

  lemma TotalOne(msg: Bytes)
    ensures Total([msg]) == |msg|
  {
    var one: Payloads := [msg];
    assert |one[..0]| == 0;
  }

  lemma TotalOfSlice(msgs: Payloads, a: nat, b: nat, c: nat, d: nat)
    requires a <= b <= c <= d <= |msgs|
    ensures Total(msgs[b..c]) <= Total(msgs[a..d])
  {
    assert msgs[a..d] == msgs[a..b] + (msgs[b..c] + msgs[c..d]);
    TotalConcat(msgs[b..c], msgs[c..d]);
    TotalConcat(msgs[a..b], msgs[b..c] + msgs[c..d]);
  }

  /** A saturated partition is never behind an admissible one. */
  lemma {:induction false} StaysAhead(greedy: seq<Payloads>, other: seq<Payloads>, msgs: Payloads, limit: nat, i: nat)
    requires Partitions(greedy, msgs, limit) && Saturated(greedy, limit) && Partitions(other, msgs, limit)
    requires i <= |greedy| && i <= |other|
    ensures Start(other, i) <= Start(greedy, i)
  {
    if 0 < i {
      StaysAhead(greedy, other, msgs, limit, i - 1);
      ChunkIsSlice(greedy, i - 1);
      ChunkIsSlice(other, i - 1);
      assert i == |greedy| ==> greedy[..i] == greedy;
      if Start(greedy, i) < Start(other, i) {
        NextStartsThere(greedy, msgs, limit, i - 1);
        assert Admissible(other[i - 1], limit);
        SpansTooMuch(msgs, Start(other, i - 1), Start(greedy, i - 1), Start(greedy, i), Start(other, i));
      }
    }
  }

  lemma NextStartsThere(chunks: seq<Payloads>, msgs: Payloads, limit: nat, i: nat)
    requires Flatten(chunks) == msgs && Saturated(chunks, limit) && i + 1 < |chunks|
    ensures Start(chunks, i + 1) < |msgs|
    ensures Total(chunks[i]) + |msgs[Start(chunks, i + 1)]| > limit
  {
    ChunkIsSlice(chunks, i + 1);
    assert Full(chunks, i, limit) && chunks[i + 1][0] == msgs[Start(chunks, i + 1)];
  }

  /** A stretch of messages that reaches beyond another on both sides has at least its total and one more message. */
  lemma SpansTooMuch(msgs: Payloads, a: nat, b: nat, c: nat, d: nat)
    requires a <= b <= c < d <= |msgs|
    ensures Total(msgs[b..c]) + |msgs[c]| <= Total(msgs[a..d])
  {
    assert msgs[b..c + 1] == msgs[b..c] + [msgs[c]];
    TotalConcat(msgs[b..c], [msgs[c]]);
    TotalOne(msgs[c]);
    TotalOfSlice(msgs, a, b, c + 1, d);
  }

  /** No order-preserving partition into admissible chunks has fewer chunks than the greedy one. */
  lemma ChunksAreFewest(msgs: Payloads, limit: nat, other: seq<Payloads>)
    requires Partitions(other, msgs, limit)
    ensures |Chunks(msgs, limit)| <= |other|
  {
    var greedy := Chunks(msgs, limit);
    ChunksPartition(msgs, limit);
    assert other[..|other|] == other;
    if |other| < |greedy| {
      StaysAhead(greedy, other, msgs, limit, |other|);
      ChunkIsSlice(greedy, |other|);
    }
  }

  lemma FlattenOne(chunk: Payloads)
    ensures Flatten([chunk]) == chunk
  {
    var one: seq<Payloads> := [chunk];
    assert |one[..0]| == 0 && Flatten(one) == Flatten(one[..0]) + chunk;
  }

  /** Everything goes into one chunk exactly when there is a single message or all of it fits. */
  lemma OneChunkIff(msgs: Payloads, limit: nat)
    requires msgs != []
    ensures |Chunks(msgs, limit)| == 1 <==> |msgs| == 1 || Total(msgs) <= limit
    ensures |Chunks(msgs, limit)| == 1 ==> Chunks(msgs, limit) == [msgs]
  {
    ChunksPartition(msgs, limit);
    var chunks := Chunks(msgs, limit);
    if |chunks| == 1 {
      FlattenOne(chunks[0]);
    }
    if |msgs| == 1 || Total(msgs) <= limit {
      FlattenOne(msgs);
      ChunksAreFewest(msgs, limit, [msgs]);
    }
  }
}
