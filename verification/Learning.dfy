/** What a consumer learns from downstream packets: the payload under each sequence number. */
module Learning {
  import opened Widths
  import opened Packet
  import opened Chunking
  import opened Server
  import opened ServerLaws

  /** Consecutive messages go under consecutive numbers. */
  function Learn(got: map<nat, Bytes>, start: nat, msgs: seq<Bytes>): map<nat, Bytes> {
    if msgs == [] then got
    else Learn(got, start, msgs[..|msgs| - 1])[start + |msgs| - 1 := msgs[|msgs| - 1]]
  }

  function LearnPacket(got: map<nat, Bytes>, p: Packet): map<nat, Bytes> {
    Learn(got, p.seqNum, Blocks(p.messages, p.Advertised()))
  }

  function LearnAll(got: map<nat, Bytes>, datagrams: seq<Bytes>): map<nat, Bytes> {
    if datagrams == [] then got
    else
      var before := LearnAll(got, datagrams[..|datagrams| - 1]);
      var p := Parse(datagrams[|datagrams| - 1]);
      if p.Some? then LearnPacket(before, p.value) else before
  }

  lemma {:induction false} LearnAt(got: map<nat, Bytes>, start: nat, msgs: seq<Bytes>)
    ensures forall n :: n in Learn(got, start, msgs) <==> n in got || start <= n < start + |msgs|
    ensures forall n :: n in Learn(got, start, msgs) ==>
              Learn(got, start, msgs)[n] == if start <= n < start + |msgs| then msgs[n - start] else got[n]
  {
    if msgs != [] { LearnAt(got, start, msgs[..|msgs| - 1]); }
  }

  /** A built packet teaches its messages, unless there are 65535 of them. */
  lemma PacketTeaches(got: map<nat, Bytes>, session: Bytes, seqNum: u64, msgs: seq<Bytes>)
    requires |session| == 10 && |msgs| <= U16_MAX && Framable(msgs)
    ensures var p := Parse(PacketBytes(session, seqNum, msgs));
            p.Some? && LearnPacket(got, p.value) == if |msgs| == 0xFFFF then got else Learn(got, seqNum, msgs)
  {
    PacketRoundTrip(session, seqNum, msgs);
  }

  lemma LearnSnoc(got: map<nat, Bytes>, datagrams: seq<Bytes>, d: Bytes)
    requires Parse(d).Some?
    ensures LearnAll(got, datagrams + [d]) == LearnPacket(LearnAll(got, datagrams), Parse(d).value)
  {
    assert (datagrams + [d])[..|datagrams|] == datagrams;
  }

  /** Whatever packets of chunks teach, it is under numbers within a chunk's length of the one they all carry. */
  lemma {:induction false} ChunksTeach(session: Bytes, start: u64, chunks: seq<Payloads>, n: nat)
    requires |session| == 10 && Buildable(chunks)
    ensures n in LearnAll(map[], Packets(session, start, chunks)) <==>
            exists i :: 0 <= i < |chunks| && |chunks[i]| != 0xFFFF && start <= n < start + |chunks[i]|
  {
    if chunks != [] {
      var m := |chunks| - 1;
      var before, pkt := Packets(session, start, chunks[..m]), PacketBytes(session, start, chunks[m]);
      ChunksTeach(session, start, chunks[..m], n);
      PacketTeaches(LearnAll(map[], before), session, start, chunks[m]);
      LearnSnoc(map[], before, pkt);
      LearnAt(LearnAll(map[], before), start, chunks[m]);
      assert forall i :: 0 <= i < m ==> chunks[..m][i] == chunks[i];
    }
  }

  lemma LastNumberIff(session: Bytes, start: u64, chunks: seq<Payloads>, total: nat)
    requires |session| == 10 && Buildable(chunks) && chunks != [] && 0 < total
    requires forall i :: 0 <= i < |chunks| ==> |chunks[i]| <= total && (|chunks[i]| == total <==> |chunks| == 1)
    ensures start + total - 1 in LearnAll(map[], Packets(session, start, chunks)) <==>
            |chunks| == 1 && total != 0xFFFF
  {
    ChunksTeach(session, start, chunks, start + total - 1);
    assert |chunks[0]| == total <==> |chunks| == 1;
  }

  /** The packets of a list of messages teach the last of them under its own number exactly when they are
      one packet that does not read as the end of the session. */
  lemma LastMessageLearntIff(session: Bytes, start: u64, msgs: seq<Bytes>, limit: nat)
    requires |session| == 10 && msgs != [] && Buildable(Chunks(msgs, limit))
    ensures start + |msgs| - 1 in LearnAll(map[], Packets(session, start, Chunks(msgs, limit))) <==>
            (|msgs| == 1 || Total(msgs) <= limit) && |msgs| != 0xFFFF
  {
    ChunksWithin(msgs, limit);
    LastNumberIff(session, start, Chunks(msgs, limit), |msgs|);
  }

  /** And exactly then they teach what was sent: each message under its own number, and nothing else. */
  lemma MessagesLearntIff(session: Bytes, start: u64, msgs: seq<Bytes>, limit: nat)
    requires |session| == 10 && msgs != [] && Buildable(Chunks(msgs, limit))
    ensures LearnAll(map[], Packets(session, start, Chunks(msgs, limit))) == Learn(map[], start, msgs) <==>
            (|msgs| == 1 || Total(msgs) <= limit) && |msgs| != 0xFFFF
  {
    LastMessageLearntIff(session, start, msgs, limit);
    LearnAt(map[], start, msgs);
    OneChunkIff(msgs, limit);
    if (|msgs| == 1 || Total(msgs) <= limit) && |msgs| != 0xFFFF {
      OneChunkTeaches(map[], session, start, msgs, limit);
    }
  }

  lemma OneChunkTeaches(got: map<nat, Bytes>, session: Bytes, start: u64, msgs: seq<Bytes>, limit: nat)
    requires |session| == 10 && Buildable(Chunks(msgs, limit))
    requires (|msgs| <= 1 || Total(msgs) <= limit) && |msgs| != 0xFFFF
    ensures LearnAll(got, Packets(session, start, Chunks(msgs, limit))) == Learn(got, start, msgs)
  {
    if msgs != [] {
      OneChunkIff(msgs, limit);
      assert Chunks(msgs, limit) == [msgs];
      var none: seq<Payloads> := [];
      assert [msgs][..0] == none && [msgs][0] == msgs;
      assert Packets(session, start, [msgs]) == [] + [PacketBytes(session, start, msgs)];
      PacketTeaches(got, session, start, msgs);
      LearnSnoc(got, [], PacketBytes(session, start, msgs));
    }
  }

  /** The same for the answer to a re-request: it teaches the whole selection exactly when that is one packet. */
  lemma AnswerLearntIff(session: Bytes, log: Log, request: Bytes, limit: nat)
    requires |session| == 10 && Buildable(Chunks(Selected(session, log, request), limit))
    requires Selected(session, log, request) != []
    ensures var msgs, start := Selected(session, log, request), Parse(request).value.seqNum;
            LearnAll(map[], Replies(session, log, request, limit)) == Learn(map[], start, msgs) <==>
            (|msgs| == 1 || Total(msgs) <= limit) && |msgs| != 0xFFFF
  {
    MessagesLearntIff(session, Parse(request).value.seqNum, Selected(session, log, request), limit);
  }

  /** Two messages in two packets: the second is learnt under the number that the log gives to the first. */
  lemma SecondChunkIsMisfiled(session: Bytes, start: u64)
    requires |session| == 10 && start + 2 <= U64_MAX
    ensures var msgs: Payloads := [[1], [2]];
            Buildable(Chunks(msgs, 1)) &&
            var got := LearnAll(map[], Packets(session, start, Chunks(msgs, 1)));
            && start in Stored(map[], start, msgs) && Stored(map[], start, msgs)[start] == [1]
            && start in got && got[start] == [2]
            && start + 1 !in got
  {
    var msgs: Payloads := [[1], [2]];
    TwoChunks();
    StoredAt(map[], start, msgs);
    assert Stored(map[], start, msgs)[start] == msgs[0];
    SecondOfTwoWins(session, start, Chunks(msgs, 1));
  }

  lemma SecondOfTwoWins(session: Bytes, start: u64, chunks: seq<Payloads>)
    requires |session| == 10 && Buildable(chunks) && |chunks| == 2 && |chunks[0]| == |chunks[1]| == 1
    ensures var got := LearnAll(map[], Packets(session, start, chunks));
            start in got && got[start] == chunks[1][0] && start + 1 !in got
  {
    NothingBeyond(session, start, chunks, 1);
    LastChunkWins(session, start, chunks);
    assert start <= start < start + |chunks[1]|;
  }

  lemma NothingBeyond(session: Bytes, start: u64, chunks: seq<Payloads>, k: nat)
    requires |session| == 10 && Buildable(chunks) && forall i :: 0 <= i < |chunks| ==> |chunks[i]| <= k
    ensures start + k !in LearnAll(map[], Packets(session, start, chunks))
  {
    ChunksTeach(session, start, chunks, start + k);
  }

  /** Where the chunks overlap, what is learnt is the last one. */
  lemma LastChunkWins(session: Bytes, start: u64, chunks: seq<Payloads>)
    requires |session| == 10 && Buildable(chunks) && chunks != [] && |chunks[|chunks| - 1]| != 0xFFFF
    ensures var got, last := LearnAll(map[], Packets(session, start, chunks)), chunks[|chunks| - 1];
            forall n: nat :: start <= n < start + |last| ==> n in got && got[n] == last[n - start]
  {
    var m := |chunks| - 1;
    var before := Packets(session, start, chunks[..m]);
    PacketTeaches(LearnAll(map[], before), session, start, chunks[m]);
    LearnSnoc(map[], before, PacketBytes(session, start, chunks[m]));
    LearnAt(LearnAll(map[], before), start, chunks[m]);
  }

  lemma TwoChunks()
    ensures var msgs: Payloads := [[1], [2]]; Chunks(msgs, 1) == [[[1]], [[2]]]
  {
    var msgs, first: Payloads := [[1], [2]], [[1]];
    assert msgs[..1] == first;
    OneChunkIff(first, 1);
    TotalOne(first[0]);
  }

  lemma {:induction false} TotalOfOnes(msgs: Payloads)
    requires forall i :: 0 <= i < |msgs| ==> |msgs[i]| == 1
    ensures Total(msgs) == |msgs|
  {
    if msgs != [] { TotalOfOnes(msgs[..|msgs| - 1]); }
  }

  /** 65535 messages of one byte within the limit are one packet, which reads as the end of the session and
      teaches nothing. */
  lemma FullSendReadsAsEnd(session: Bytes, start: u64)
    requires |session| == 10
    ensures var msgs: Payloads := seq(0xFFFF, _ => [0]);
            && Buildable(Chunks(msgs, 0xFFFF))
            && Packets(session, start, Chunks(msgs, 0xFFFF)) == [PacketBytes(session, start, msgs)]
            && Parse(PacketBytes(session, start, msgs)).Some?
            && Parse(PacketBytes(session, start, msgs)).value.Kind() == EndOfSession
            && LearnAll(map[], Packets(session, start, Chunks(msgs, 0xFFFF))) == map[]
  {
    var msgs: Payloads := seq(0xFFFF, _ => [0]);
    TotalOfOnes(msgs);
    OnlyPacket(session, start, msgs, 0xFFFF);
    FullPacketTeachesNothing(session, start, msgs);
  }

  lemma OnlyPacket(session: Bytes, start: u64, msgs: Payloads, limit: nat)
    requires 1 <= |msgs| <= U16_MAX && Framable(msgs) && Total(msgs) <= limit
    ensures Chunks(msgs, limit) == [msgs] && Buildable([msgs])
    ensures Packets(session, start, [msgs]) == [PacketBytes(session, start, msgs)]
  {
    OneChunkIff(msgs, limit);
    PacketsPerChunk(session, start, [msgs]);
    var pkts := Packets(session, start, [msgs]);
    assert pkts == [pkts[0]];
  }

  lemma FullPacketTeachesNothing(session: Bytes, start: u64, msgs: Payloads)
    requires |session| == 10 && |msgs| == 0xFFFF && Framable(msgs)
    ensures Parse(PacketBytes(session, start, msgs)).Some?
    ensures Parse(PacketBytes(session, start, msgs)).value.Kind() == EndOfSession
    ensures LearnAll(map[], [PacketBytes(session, start, msgs)]) == map[]
  {
    PacketRoundTrip(session, start, msgs);
    PacketTeaches(map[], session, start, msgs);
    LearnSnoc(map[], [], PacketBytes(session, start, msgs));
    assert [] + [PacketBytes(session, start, msgs)] == [PacketBytes(session, start, msgs)];
  }
}
