/** The receive loop of the application: what it makes of the datagrams that reach it. */
module Consumer {
  import opened Widths
  import opened Wrappers
  import opened Packet
  import opened ItchParser
  import opened Chunking
  import opened Server
  import opened ServerLaws
  import opened Readings

  /** What the consumer makes of one datagram: the bodies it hands to its handler, or the end. */
  function Read(d: Bytes): Reading<Bytes> {
    if Parse(d).None? || Parse(d).value.Kind() == EndOfSession then Ending
    else Data(if Parse(d).value.Kind() == Standard then Calls(Parse(d).value.messages) else [])
  }

  /** The bodies for datagrams arriving in this order, up to the first that ends the session. */
  function Consumed(datagrams: seq<Bytes>): seq<Bytes> {
    Kept(Read, datagrams, |datagrams|)
  }

  /** What one datagram adds to the calls of a handler: its messages are parsed as a stream of their own, so
      a handler that asks to stop misses no more than the rest of that packet. */
  function HandOver(stopAt: Option<nat>): (seq<Bytes>, Bytes) -> seq<Bytes> {
    (calls, d) =>
      if Parse(d).Some? && Parse(d).value.Kind() == Standard then Stream(calls, Parse(d).value.messages, stopAt).calls
      else calls
  }

  lemma HandOverIsRead(calls: seq<Bytes>, d: Bytes)
    ensures Adds(Read, HandOver(None), calls, d)
  {
    if Read(d).Data? && Parse(d).value.Kind() == Standard { StreamCalls(calls, Parse(d).value.messages); }
  }

  /** A handler that never stops is called with all that is consumed. */
  lemma AllHandedOver(calls: seq<Bytes>, datagrams: seq<Bytes>)
    ensures Handed(Read, HandOver(None), calls, datagrams, |datagrams|) == calls + Consumed(datagrams)
  {
    forall c: seq<Bytes>, d: Bytes ensures Adds(Read, HandOver(None), c, d) {
      HandOverIsRead(c, d);
    }
    HandedIsKept(Read, HandOver(None), calls, datagrams, |datagrams|);
  }

  /** The receive loop of the application, with any handler. */
  method ConsumeAll(datagrams: seq<Bytes>, handler: Handler)
    requires forall i :: 0 <= i < |datagrams| ==> HEADER_LEN <= |datagrams[i]|
    modifies handler
    ensures handler.calls == Handed(Read, HandOver(handler.stopAt), old(handler.calls), datagrams, |datagrams|)
  {
    ghost var hand, calls := HandOver(handler.stopAt), handler.calls;
    for i := 0 to |datagrams|
      invariant handler.calls == Handed(Read, hand, calls, datagrams, i) && NoEnd(Read, datagrams, i)
    {
      HandedNext(Read, hand, calls, datagrams, i);
      var ended := ConsumeOne(datagrams[i], handler);
      if ended {
        NothingHandedBehindTheEnd(Read, hand, calls, datagrams, i + 1, |datagrams|);
        return;
      }
    }
  }

  /** One packet: skipped, taken for the end, or parsed as a stream of its own. */
  method ConsumeOne(datagram: Bytes, handler: Handler) returns (ended: bool)
    requires HEADER_LEN <= |datagram|
    modifies handler
    ensures ended == (Read(datagram) == Ending)
    ensures handler.calls ==
            if ended then old(handler.calls) else HandOver(handler.stopAt)(old(handler.calls), datagram)
  {
    var p := Parse(datagram).value;
    match p.Kind() {
      case Heartbeat => return false;
      case EndOfSession => return true;
      case Standard =>
        var parser := new Parser(p.messages);
        var r := parser.ParseStream(handler);
        return false;
    }
  }

  // ---- Packets of well-formed messages ----

  /** A chunk of exact bodies that still fits one packet's 16-bit count, 65535 included. */
  ghost predicate Sendable(chunks: seq<Payloads>) {
    forall i :: 0 <= i < |chunks| ==> 1 <= |chunks[i]| <= 0xFFFF && AllExact(chunks[i]) && Framable(chunks[i])
  }

  /** Chunks whose packets the receiving side takes for data and not for the end of the session. */
  ghost predicate Deliverable(chunks: seq<Payloads>) {
    forall i :: 0 <= i < |chunks| ==> 1 <= |chunks[i]| < 0xFFFF && AllExact(chunks[i]) && Framable(chunks[i])
  }

  lemma PacketIsConsumed(session: Bytes, seqNum: u64, chunk: Payloads)
    requires |session| == 10 && 1 <= |chunk| <= 0xFFFF && AllExact(chunk) && Framable(chunk)
    ensures var pkt := PacketBytes(session, seqNum, chunk);
            && HEADER_LEN <= |pkt|
            && Read(pkt) == if |chunk| == 0xFFFF then Ending else Data(chunk)
  {
    PacketRoundTrip(session, seqNum, chunk);
    CallsOfFrame(chunk, []);
    assert Frame(chunk) + [] == Frame(chunk);
    assert chunk + Calls([]) == chunk;
  }

  /** Packet by packet, the consumer gets the chunk, or takes a chunk of 65535 for the end. */
  lemma PacketsCarry(session: Bytes, seqNum: u64, chunks: seq<Payloads>)
    requires |session| == 10 && Sendable(chunks) && Buildable(chunks)
    ensures var pkts := Packets(session, seqNum, chunks);
            && ReadsAs(Read, pkts, chunks)
            && (NoEnd(Read, pkts, |pkts|) <==> forall i :: 0 <= i < |chunks| ==> |chunks[i]| != 0xFFFF)
            && (forall i :: 0 <= i < |pkts| ==> HEADER_LEN <= |pkts[i]|)
  {
    var pkts := Packets(session, seqNum, chunks);
    PacketsPerChunk(session, seqNum, chunks);
    forall i: nat | i < |pkts|
      ensures HEADER_LEN <= |pkts[i]| && Read(pkts[i]) == if |chunks[i]| == 0xFFFF then Ending else Data(chunks[i])
    {
      PacketIsConsumed(session, seqNum, chunks[i]);
    }
  }

  lemma {:induction false} ExactTotal(msgs: Payloads)
    requires AllExact(msgs)
    ensures SHORTEST_BODY * |msgs| <= Total(msgs) <= LONGEST_BODY * |msgs| && Framable(msgs)
  {
    if msgs != [] {
      var n := |msgs| - 1;
      ExactTotal(msgs[..n]);
      ExactBodiesFit(msgs[n]);
      assert msgs == msgs[..n] + [msgs[n]];
    }
  }

  /** Exact bodies are long enough that no chunk within the limit can hold 65535 of them. */
  lemma ExactChunksAreDeliverable(msgs: Payloads, limit: nat)
    requires AllExact(msgs) && limit < SHORTEST_BODY * 0xFFFF
    ensures Deliverable(Chunks(msgs, limit)) && Buildable(Chunks(msgs, limit))
  {
    var chunks := Chunks(msgs, limit);
    ChunksPartition(msgs, limit);
    forall i | 0 <= i < |chunks|
      ensures 1 <= |chunks[i]| < 0xFFFF && AllExact(chunks[i]) && Framable(chunks[i])
    {
      ChunkIsSlice(chunks, i);
      assert AllExact(chunks[i]) by {
        forall j | 0 <= j < |chunks[i]| ensures Exact(chunks[i][j]) {
          assert chunks[i][j] == msgs[Start(chunks, i) + j];
        }
      }
      ExactTotal(chunks[i]);
      assert Admissible(chunks[i], limit);
    }
  }

  /** The packets of a list of chunks read back as their messages exactly when no chunk has 65535 of them:
      such a packet is taken for the end of the session, and it and all later ones are lost. */
  lemma ConsumedCompletelyIff(session: Bytes, seqNum: u64, chunks: seq<Payloads>)
    requires |session| == 10 && Sendable(chunks) && Buildable(chunks)
    ensures Consumed(Packets(session, seqNum, chunks)) == Flatten(chunks) <==>
            forall i :: 0 <= i < |chunks| ==> |chunks[i]| != 0xFFFF
  {
    PacketsCarry(session, seqNum, chunks);
    KeptCompletelyIff(Read, Packets(session, seqNum, chunks), chunks, |chunks|);
    assert chunks[..|chunks|] == chunks;
  }

  /** No datagram that the consumer takes for the end of the session. */
  ghost predicate AllData(sent: seq<Bytes>) {
    NoEnd(Read, sent, |sent|)
  }

  /** The packets of any exact bodies read back as them. */
  lemma PacketsAreConsumed(session: Bytes, seqNum: u64, msgs: Payloads, limit: nat)
    requires |session| == 10 && AllExact(msgs) && limit < SHORTEST_BODY * 0xFFFF
    ensures Buildable(Chunks(msgs, limit))
    ensures AllData(Packets(session, seqNum, Chunks(msgs, limit)))
    ensures Consumed(Packets(session, seqNum, Chunks(msgs, limit))) == msgs
  {
    var chunks := Chunks(msgs, limit);
    ExactChunksAreDeliverable(msgs, limit);
    ChunksPartition(msgs, limit);
    PacketsCarry(session, seqNum, chunks);
    ConsumedCompletelyIff(session, seqNum, chunks);
  }

  lemma MoreData(a: seq<Bytes>, b: seq<Bytes>)
    requires AllData(a)
    ensures AllData(a + b) <==> AllData(b)
    ensures Consumed(a + b) == Consumed(a) + Consumed(b)
  {
    ConcatReads(Read, a, b);
  }

  lemma SpecialsAreRead(session: Bytes, seqNum: u64)
    requires |session| == 10
    ensures Read(Header(session, seqNum, HEARTBEAT)) == Data([])
    ensures Read(Header(session, seqNum, END_OF_SESSION)) == Ending
  {
    SpecialParses(session, seqNum, HEARTBEAT);
    SpecialParses(session, seqNum, END_OF_SESSION);
  }

  lemma OneReads(d: Bytes)
    ensures AllData([d]) <==> Read(d).Data?
    ensures Consumed([d]) == if Read(d).Data? then Read(d).items else []
  {
    OneIsKept(Read, d);
  }

  lemma HeartbeatAddsNothing(sent: seq<Bytes>, d: Bytes)
    requires AllData(sent) && Read(d) == Data([])
    ensures AllData(sent + [d]) && Consumed(sent + [d]) == Consumed(sent)
  {
    OneReads(d);
    MoreData(sent, [d]);
  }

  lemma EndAddsNothing(sent: seq<Bytes>, d: Bytes)
    requires AllData(sent) && Read(d) == Ending
    ensures Consumed(sent + [d]) == Consumed(sent)
  {
    OneReads(d);
    MoreData(sent, [d]);
  }
}
