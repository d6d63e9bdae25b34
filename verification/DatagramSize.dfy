/** How large the datagrams get.  The chunk limit counts message bytes but not their length prefixes, so
    the documented limit on a packet's payload needs a margin; here is exactly how much. */
module DatagramSize {
  import opened Widths
  import opened Packet
  import opened Chunking
  import opened Server
  import opened ServerLaws
  import opened ItchParser

  /** The message area of a packet has two bytes more per message than the chunk limit counts. */
  lemma {:induction false} FrameLength(msgs: Payloads)
    requires Framable(msgs)
    ensures |Frame(msgs)| == Total(msgs) + 2 * |msgs|
  {
    if msgs != [] {
      var n := |msgs| - 1;
      FrameLength(msgs[..n]);
      FrameConcat(msgs[..n], [msgs[n]]);
      FrameOne(msgs[n]);
      assert msgs == msgs[..n] + [msgs[n]];
    }
  }

  /** So a packet can exceed the limit on its payload: these three messages have a total of 3. */
  lemma PayloadLimitIsExceeded()
    ensures var msgs: Payloads := [[1], [2], [3]];
            Chunks(msgs, 3) == [msgs] && Framable(msgs) && |Frame(msgs)| == 9
  {
    var msgs: Payloads := [[1], [2], [3]];
    TotalOne(msgs[0]);
    TotalOne(msgs[1]);
    TotalOne(msgs[2]);
    TotalConcat([msgs[0]], [msgs[1]]);
    TotalConcat([msgs[0]] + [msgs[1]], [msgs[2]]);
    assert msgs == [msgs[0]] + [msgs[1]] + [msgs[2]];
    OneChunkIff(msgs, 3);
    FrameLength(msgs);
  }

  /** The exact size of every datagram sent for a list of messages. */
  lemma DatagramSizes(session: Bytes, seqNum: u64, msgs: Payloads, limit: nat)
    requires |session| == 10 && Buildable(Chunks(msgs, limit))
    ensures var out, chunks := Packets(session, seqNum, Chunks(msgs, limit)), Chunks(msgs, limit);
            && |out| == |chunks|
            && forall i :: 0 <= i < |out| ==> |out[i]| == HEADER_LEN + Total(chunks[i]) + 2 * |chunks[i]|
  {
    var chunks := Chunks(msgs, limit);
    PacketsPerChunk(session, seqNum, chunks);
    forall i | 0 <= i < |chunks|
      ensures |PacketBytes(session, seqNum, chunks[i])| == HEADER_LEN + Total(chunks[i]) + 2 * |chunks[i]|
    {
      FrameLength(chunks[i]);
    }
  }

  // ---- All messages of a configured range of sizes ----

  ghost predicate SizesWithin(msgs: Payloads, lo: nat, hi: nat) {
    forall i :: 0 <= i < |msgs| ==> lo <= |msgs[i]| <= hi
  }

  /** Every datagram of these messages has a message area of at most `bound`. */
  ghost predicate AreasWithin(session: Bytes, seqNum: u64, msgs: Payloads, limit: nat, bound: nat)
    requires Buildable(Chunks(msgs, limit))
  {
    var out := Packets(session, seqNum, Chunks(msgs, limit));
    forall i :: 0 <= i < |out| ==> |out[i]| <= HEADER_LEN + bound
  }

  /** The most messages of `lo` bytes or more that one packet within the limit can hold. */
  function MostMessages(lo: nat, limit: nat): nat {
    if lo == 0 || limit / lo > U16_MAX then U16_MAX else limit / lo
  }

  function Min(a: nat, b: nat): nat {
    if a < b then a else b
  }

  /** The largest message area: the limit filled with as many messages as possible, or one message that is
      alone because it exceeds the limit. */
  function LargestArea(lo: nat, hi: nat, limit: nat): nat {
    var n := MostMessages(lo, limit);
    var full := Min(limit, n * hi) + 2 * n;
    if full < hi + 2 then hi + 2 else full
  }

  lemma {:induction false} TotalWithin(msgs: Payloads, lo: nat, hi: nat)
    requires SizesWithin(msgs, lo, hi)
    ensures |msgs| * lo <= Total(msgs) <= |msgs| * hi
  {
    if msgs != [] {
      var n := |msgs| - 1;
      TotalWithin(msgs[..n], lo, hi);
      TimesNext(n, lo);
      TimesNext(n, hi);
    }
  }

  lemma TimesNext(n: nat, k: nat)
    ensures (n + 1) * k == n * k + k
  {
  }

  lemma TimesMonotone(a: nat, b: nat, k: nat)
    requires a <= b
    ensures a * k <= b * k
  {
  }

  /** As many messages fit as the quotient says. */
  lemma MostMessagesFit(lo: nat, limit: nat, n: nat)
    requires n <= U16_MAX
    ensures n * lo <= limit <==> n <= MostMessages(lo, limit)
  {
    if lo == 0 {
      assert n * lo == 0;
    } else if n <= limit / lo {
      TimesMonotone(n, limit / lo, lo);
    } else {
      TimesMonotone(limit / lo + 1, n, lo);
      TimesNext(limit / lo, lo);
    }
  }

  lemma ChunkFits(chunk: Payloads, lo: nat, hi: nat, limit: nat)
    requires SizesWithin(chunk, lo, hi) && Admissible(chunk, limit) && |chunk| <= U16_MAX
    ensures Total(chunk) + 2 * |chunk| <= LargestArea(lo, hi, limit)
  {
    TotalWithin(chunk, lo, hi);
    var n := MostMessages(lo, limit);
    if Total(chunk) <= limit {
      MostMessagesFit(lo, limit, |chunk|);
      TimesMonotone(|chunk|, n, hi);
    }
  }

  /** `n` messages within the sizes with a given total. */
  function Filled(n: nat, lo: nat, hi: nat, total: nat): (msgs: Payloads)
    requires lo <= hi && n * lo <= total <= n * hi
    ensures |msgs| == n && SizesWithin(msgs, lo, hi) && Total(msgs) == total
  {
    if n == 0 then []
    else
      TimesNext(n - 1, lo);
      TimesNext(n - 1, hi);
      var last := Min(hi, total - (n - 1) * lo);
      var before := Filled(n - 1, lo, hi, total - last);
      var msgs := before + [seq(last, _ => 0)];
      assert msgs[..n - 1] == before;
      msgs
  }

  /** Messages of these sizes that fill one packet to the largest area. */
  lemma WorstCase(lo: nat, hi: nat, limit: nat) returns (msgs: Payloads)
    requires lo <= hi <= U16_MAX
    ensures SizesWithin(msgs, lo, hi) && 1 <= |msgs| <= U16_MAX && (|msgs| == 1 || Total(msgs) <= limit)
    ensures Total(msgs) + 2 * |msgs| == LargestArea(lo, hi, limit)
  {
    var n := MostMessages(lo, limit);
    MostMessagesFit(lo, limit, n);
    msgs := FilledToLimit(n, lo, hi, limit);
    if Total(msgs) + 2 * n < hi + 2 {
      msgs := [seq(hi, _ => 0)];
      TotalOne(msgs[0]);
    }
  }

  lemma FilledToLimit(n: nat, lo: nat, hi: nat, limit: nat) returns (msgs: Payloads)
    requires lo <= hi && n * lo <= limit
    ensures |msgs| == n && SizesWithin(msgs, lo, hi) && Total(msgs) == Min(limit, n * hi)
  {
    TimesMonotoneRight(n, lo, hi);
    msgs := Filled(n, lo, hi, Min(limit, n * hi));
  }

  /** Some list of such messages goes out in a packet that large. */
  lemma LargestAreaIsReached(session: Bytes, seqNum: u64, lo: nat, hi: nat, limit: nat) returns (msgs: Payloads)
    requires |session| == 10 && lo <= hi <= U16_MAX
    ensures SizesWithin(msgs, lo, hi) && Buildable(Chunks(msgs, limit))
    ensures forall bound :: AreasWithin(session, seqNum, msgs, limit, bound) ==> LargestArea(lo, hi, limit) <= bound
  {
    msgs := WorstCase(lo, hi, limit);
    OnePacketOfThese(session, seqNum, msgs, limit);
  }

  lemma TimesMonotoneRight(n: nat, a: nat, b: nat)
    requires a <= b
    ensures n * a <= n * b
  {
  }

  lemma OnePacketOfThese(session: Bytes, seqNum: u64, msgs: Payloads, limit: nat)
    requires |session| == 10 && 1 <= |msgs| <= U16_MAX && Framable(msgs)
    requires |msgs| == 1 || Total(msgs) <= limit
    ensures Buildable(Chunks(msgs, limit))
    ensures forall bound :: AreasWithin(session, seqNum, msgs, limit, bound) ==> Total(msgs) + 2 * |msgs| <= bound
  {
    OneChunkIff(msgs, limit);
    PacketsPerChunk(session, seqNum, Chunks(msgs, limit));
    FrameLength(msgs);
    var out := Packets(session, seqNum, Chunks(msgs, limit));
    assert |out[0]| == HEADER_LEN + Total(msgs) + 2 * |msgs|;
  }

  lemma AreasAreWithin(session: Bytes, seqNum: u64, msgs: Payloads, lo: nat, hi: nat, limit: nat)
    requires |session| == 10 && SizesWithin(msgs, lo, hi) && Buildable(Chunks(msgs, limit))
    ensures AreasWithin(session, seqNum, msgs, limit, LargestArea(lo, hi, limit))
  {
    DatagramSizes(session, seqNum, msgs, limit);
    forall i | 0 <= i < |Chunks(msgs, limit)|
      ensures Total(Chunks(msgs, limit)[i]) + 2 * |Chunks(msgs, limit)[i]| <= LargestArea(lo, hi, limit)
    {
      ChunkOfThese(msgs, lo, hi, limit, i);
      ChunkFits(Chunks(msgs, limit)[i], lo, hi, limit);
    }
  }

  lemma ChunkOfThese(msgs: Payloads, lo: nat, hi: nat, limit: nat, i: nat)
    requires SizesWithin(msgs, lo, hi) && i < |Chunks(msgs, limit)|
    ensures SizesWithin(Chunks(msgs, limit)[i], lo, hi) && Admissible(Chunks(msgs, limit)[i], limit)
  {
    var chunks := Chunks(msgs, limit);
    ChunksPartition(msgs, limit);
    ChunkIsSlice(chunks, i);
    forall j | 0 <= j < |chunks[i]| ensures lo <= |chunks[i][j]| <= hi {
      assert chunks[i][j] == msgs[Start(chunks, i) + j];
    }
  }

  /** Whatever messages of `lo` to `hi` bytes are sent, no datagram has a message area above `bound`: that
      is so exactly when `bound` covers the largest one, which is plain arithmetic on the configuration. */
  lemma AreasWithinIff(session: Bytes, seqNum: u64, lo: nat, hi: nat, limit: nat, bound: nat)
    requires |session| == 10 && lo <= hi <= U16_MAX
    ensures (forall msgs: Payloads :: SizesWithin(msgs, lo, hi) && Buildable(Chunks(msgs, limit)) ==>
              AreasWithin(session, seqNum, msgs, limit, bound)) <==> LargestArea(lo, hi, limit) <= bound
  {
    var worst := LargestAreaIsReached(session, seqNum, lo, hi, limit);
    if LargestArea(lo, hi, limit) <= bound {
      forall msgs: Payloads | SizesWithin(msgs, lo, hi) && Buildable(Chunks(msgs, limit))
        ensures AreasWithin(session, seqNum, msgs, limit, bound)
      {
        AreasAreWithin(session, seqNum, msgs, lo, hi, limit);
      }
    }
  }

  // ---- When packets can be built at all ----

  /** `build_packet` panics on no `Send` of messages of `lo` to `hi` bytes exactly when every such message has
      a 16-bit length and the limit is too small for 65536 of the shortest. */
  lemma BuildableIff(lo: nat, hi: nat, limit: nat)
    requires lo <= hi
    ensures (forall msgs: Payloads :: SizesWithin(msgs, lo, hi) ==> Buildable(Chunks(msgs, limit))) <==>
            hi <= U16_MAX && limit < (U16_MAX + 1) * lo
  {
    if hi > U16_MAX {
      LongMessageIsNotBuildable(hi, limit);
    } else if limit >= (U16_MAX + 1) * lo {
      ManyMessagesAreNotBuildable(lo, limit);
    } else {
      forall msgs: Payloads | SizesWithin(msgs, lo, hi) ensures Buildable(Chunks(msgs, limit)) {
        FewMessagesAreBuildable(msgs, lo, hi, limit);
      }
    }
  }

  lemma LongMessageIsNotBuildable(hi: nat, limit: nat)
    requires hi > U16_MAX
    ensures exists msgs: Payloads :: SizesWithin(msgs, hi, hi) && !Buildable(Chunks(msgs, limit))
  {
    var msgs: Payloads := [seq(hi, _ => 0)];
    OneChunkIff(msgs, limit);
    assert Chunks(msgs, limit)[0][0] == msgs[0];
    assert SizesWithin(msgs, hi, hi);
  }

  lemma ManyMessagesAreNotBuildable(lo: nat, limit: nat)
    requires limit >= (U16_MAX + 1) * lo
    ensures exists msgs: Payloads :: SizesWithin(msgs, lo, lo) && !Buildable(Chunks(msgs, limit))
  {
    var msgs: Payloads := seq(U16_MAX + 1, _ => seq(lo, _ => 0));
    assert SizesWithin(msgs, lo, lo);
    TotalWithin(msgs, lo, lo);
    OneChunkIff(msgs, limit);
    assert |Chunks(msgs, limit)[0]| == U16_MAX + 1;
  }

  lemma FewMessagesAreBuildable(msgs: Payloads, lo: nat, hi: nat, limit: nat)
    requires SizesWithin(msgs, lo, hi) && lo <= hi <= U16_MAX && limit < (U16_MAX + 1) * lo
    ensures Buildable(Chunks(msgs, limit))
  {
    forall i | 0 <= i < |Chunks(msgs, limit)|
      ensures |Chunks(msgs, limit)[i]| <= U16_MAX && Framable(Chunks(msgs, limit)[i])
    {
      var chunk := Chunks(msgs, limit)[i];
      ChunkOfThese(msgs, lo, hi, limit, i);
      TotalWithin(chunk, lo, hi);
      if |chunk| > U16_MAX { TimesMonotone(U16_MAX + 1, |chunk|, lo); }
    }
  }

  /** A single `Send` can be built whatever the limit when it has at most 65535 messages, none of them longer. */
  lemma ShortSendIsBuildable(msgs: Payloads, limit: nat)
    requires |msgs| <= U16_MAX && Framable(msgs)
    ensures Buildable(Chunks(msgs, limit))
  {
    forall i | 0 <= i < |Chunks(msgs, limit)|
      ensures |Chunks(msgs, limit)[i]| <= U16_MAX && Framable(Chunks(msgs, limit)[i])
    {
      ChunkOfThese(msgs, 0, U16_MAX, limit, i);
      ChunkWithin(msgs, limit, i);
    }
  }

  // ---- Limits a packet's 16-bit fields can keep up with ----

  lemma QuotientBounds(m: nat, limit: nat)
    requires 1 <= m <= limit
    ensures 1 <= limit / m <= limit
  {
    TimesMonotone(1, m, limit / m);
  }

  /** For messages of `m` bytes up to the limit: every `Send` of them can be built, and keeps all message
      areas within `bound`, exactly when `bound` has a margin of two bytes for every `m` of the limit. */
  lemma PayloadBoundIff(session: Bytes, seqNum: u64, m: nat, limit: nat, bound: nat)
    requires |session| == 10 && 1 <= m <= limit <= U16_MAX
    ensures (forall msgs: Payloads :: SizesWithin(msgs, m, limit) ==>
              Buildable(Chunks(msgs, limit)) && AreasWithin(session, seqNum, msgs, limit, bound))
            <==> limit + 2 * (limit / m) <= bound
  {
    QuotientBounds(m, limit);
    TimesMonotone(1, limit / m, limit);
    assert LargestArea(m, limit, limit) == limit + 2 * (limit / m);
    AreasWithinIff(session, seqNum, m, limit, limit, bound);
    TimesMonotoneRight(U16_MAX + 1, 1, m);
    forall msgs: Payloads | SizesWithin(msgs, m, limit) ensures Buildable(Chunks(msgs, limit)) {
      FewMessagesAreBuildable(msgs, m, limit, limit);
    }
  }

  /** So the documented limit is guaranteed for no configuration. */
  lemma DocumentedLimitIsNeverGuaranteed(session: Bytes, seqNum: u64, m: nat, limit: nat)
    requires |session| == 10 && 1 <= m <= limit <= U16_MAX
    ensures exists msgs: Payloads :: SizesWithin(msgs, m, limit) && Buildable(Chunks(msgs, limit)) &&
              !AreasWithin(session, seqNum, msgs, limit, limit)
  {
    QuotientBounds(m, limit);
    PayloadBoundIff(session, seqNum, m, limit, limit);
    var msgs: Payloads :|
      && SizesWithin(msgs, m, limit)
      && !(Buildable(Chunks(msgs, limit)) && AreasWithin(session, seqNum, msgs, limit, limit));
    TimesMonotoneRight(U16_MAX + 1, 1, m);
    FewMessagesAreBuildable(msgs, m, limit, limit);
  }

  /** What to allow for when the messages are those of an ITCH feed. */
  lemma ItchAreasWithin(session: Bytes, seqNum: u64, msgs: Payloads, limit: nat)
    requires |session| == 10 && AllExact(msgs) && Buildable(Chunks(msgs, limit))
    ensures AreasWithin(session, seqNum, msgs, limit, LargestArea(SHORTEST_BODY, LONGEST_BODY, limit))
    ensures LargestArea(SHORTEST_BODY, LONGEST_BODY, 1452) == 1694
  {
    forall i | 0 <= i < |msgs| ensures SHORTEST_BODY <= |msgs[i]| <= LONGEST_BODY {
      ExactBodiesFit(msgs[i]);
    }
    AreasAreWithin(session, seqNum, msgs, SHORTEST_BODY, LONGEST_BODY, limit);
  }
}
