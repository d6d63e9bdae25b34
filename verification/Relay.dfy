/** When a lossless feed makes the client ask for retransmissions. */
module Relay {
  import opened Widths
  import opened Wrappers
  import opened Packet
  import opened Chunking
  import opened Server
  import opened ServerLaws
  import opened Client

  /** What the client expects, and whether it has ever seen a gap to ask for. */
  datatype Stand = Stand(expected: Expected, asked: bool)

  function StandAfter(s: Stand, d: Bytes): Stand {
    match Parse(d)
    case None => s
    case Some(p) => Stand(Follow(s.expected, p), s.asked || Gap(s.expected, p) > 0)
  }

  function StandAll(s: Stand, datagrams: seq<Bytes>): Stand {
    if datagrams == [] then s
    else StandAfter(StandAll(s, datagrams[..|datagrams| - 1]), datagrams[|datagrams| - 1])
  }

  lemma {:induction false} StandConcat(s: Stand, a: seq<Bytes>, b: seq<Bytes>)
    ensures StandAll(s, a + b) == StandAll(StandAll(s, a), b)
    decreases |b|
  {
    if b == [] {
      assert a + b == a;
    } else {
      var n := |b| - 1;
      assert (a + b)[..|a| + n] == a + b[..n];
      StandConcat(s, a, b[..n]);
    }
  }

  /** The client is in step with the sender as long as every `Send` was one packet.  After one of several
      packets it is behind, and has asked or will with the next datagram. */
  ghost predicate InStep(s: Stand, session: Bytes, next: u64, onePacketEach: bool) {
    if onePacketEach then
      !s.asked && (s.expected.session.Some? && s.expected.seqNum.Some? ==>
        s.expected.session.value == session && s.expected.seqNum.value == next)
    else
      s.asked || Before(s.expected, session, next)
  }

  predicate Before(e: Expected, session: Bytes, next: u64) {
    e.session == Some(session) && e.seqNum.Some? && e.seqNum.value < next
  }

  /** A packet at the sender's number `next`, announcing `count` messages. */
  lemma StandAfterPacket(s: Stand, session: Bytes, next: u64, count: u16, messages: Bytes)
    requires |session| == 10 && next + count <= U64_MAX
    ensures var d := Header(session, next, count) + messages;
            StandAfter(s, d) ==
            Stand(Expected(Some(session), Some(next + count)),
                  s.asked || Before(s.expected, session, next))
  {
    ParseHeader(session, next, count, messages);
  }

  /** A heartbeat keeps the client in step; a client that was behind now has asked. */
  lemma HeartbeatStaysInStep(s: Stand, session: Bytes, next: u64, onePacketEach: bool)
    requires |session| == 10 && InStep(s, session, next, onePacketEach)
    ensures var s' := StandAfter(s, Header(session, next, HEARTBEAT));
            InStep(s', session, next, onePacketEach) && s'.asked == !onePacketEach
  {
    StandAfterPacket(s, session, next, HEARTBEAT, []);
    assert Header(session, next, HEARTBEAT) + [] == Header(session, next, HEARTBEAT);
  }

  lemma EndShowsGap(s: Stand, session: Bytes, next: u64, onePacketEach: bool)
    requires |session| == 10 && InStep(s, session, next, onePacketEach)
    ensures StandAfter(s, Header(session, next, END_OF_SESSION)).asked == !onePacketEach
  {
    SpecialParses(session, next, END_OF_SESSION);
  }

  /** After the packets of some chunks the client expects what follows the last of them. */
  lemma {:induction false} StandAfterChunks(s: Stand, session: Bytes, next: u64, chunks: seq<Payloads>)
    requires |session| == 10 && Buildable(chunks) && chunks != []
    requires forall i :: 0 <= i < |chunks| ==> next + |chunks[i]| <= U64_MAX
    ensures StandAll(s, Packets(session, next, chunks)) ==
            Stand(Expected(Some(session), Some(next + |chunks[|chunks| - 1]|)),
                  s.asked || Before(s.expected, session, next))
  {
    var n := |chunks| - 1;
    var before, pkt := Packets(session, next, chunks[..n]), PacketBytes(session, next, chunks[n]);
    if n > 0 { StandAfterChunks(s, session, next, chunks[..n]); }
    StandAfterPacket(StandAll(s, before), session, next, |chunks[n]|, Frame(chunks[n]));
    assert (before + [pkt])[..|before|] == before;
  }

  lemma ChunksStayInStep(s: Stand, session: Bytes, next: u64, chunks: seq<Payloads>, total: nat, onePacketEach: bool)
    requires |session| == 10 && Buildable(chunks) && chunks != [] && next + total <= U64_MAX
    requires forall i :: 0 <= i < |chunks| ==> |chunks[i]| <= total && (|chunks[i]| == total <==> |chunks| == 1)
    requires InStep(s, session, next, onePacketEach)
    ensures InStep(StandAll(s, Packets(session, next, chunks)), session, next + total, onePacketEach && |chunks| == 1)
  {
    StandAfterChunks(s, session, next, chunks);
    assert |chunks[|chunks| - 1]| <= total;
  }

  /** A `Send` keeps the client in step exactly when it goes out as one packet. */
  lemma SendStaysInStep(s: Stand, session: Bytes, next: u64, msgs: seq<Bytes>, limit: nat, onePacketEach: bool)
    requires |session| == 10 && Buildable(Chunks(msgs, limit)) && next + |msgs| <= U64_MAX
    requires InStep(s, session, next, onePacketEach)
    ensures InStep(StandAll(s, Packets(session, next, Chunks(msgs, limit))), session, next + |msgs|,
                   onePacketEach && (|msgs| == 1 || Total(msgs) <= limit))
  {
    if msgs == [] {
      assert Packets(session, next, Chunks(msgs, limit)) == [];
    } else {
      ChunksWithin(msgs, limit);
      ChunksStayInStep(s, session, next, Chunks(msgs, limit), |msgs|, onePacketEach);
    }
  }
}
