/** MoldUDP64 downstream packets: a 20-byte header and length-prefixed message blocks. */
module Packet {
  import opened Widths
  import opened Wrappers
  import opened BigEndian

  const HEARTBEAT: u16 := 0
  const END_OF_SESSION: u16 := 0xFFFF
  const HEADER_LEN: nat := 20

  datatype PacketKind = Standard | Heartbeat | EndOfSession

  datatype Packet = Packet(session: Bytes, seqNum: u64, msgCount: u16, messages: Bytes) {
    function Kind(): (k: PacketKind)
      ensures k == Heartbeat <==> msgCount == 0
      ensures k == EndOfSession <==> msgCount == 0xFFFF
    {
      if msgCount == HEARTBEAT then Heartbeat else if msgCount == END_OF_SESSION then EndOfSession else Standard
    }

    /** The number of blocks the iterator over the packet sets out to yield. */
    function Advertised(): (n: u16)
      ensures n == if msgCount == 0xFFFF then 0 else msgCount
    {
      if msgCount == HEARTBEAT || msgCount == END_OF_SESSION then 0 else msgCount
    }
  }

  /** `Packet::parse`: any 20 bytes are a header, the rest is the message area. */
  function Parse(bytes: Bytes): (p: Option<Packet>)
    ensures p.Some? <==> HEADER_LEN <= |bytes|
  {
    if |bytes| < HEADER_LEN then None
    else Some(Packet(bytes[..10], ToU64(bytes[10..18]), ToU16(bytes[18..20]), bytes[20..]))
  }

  /** The fields of a parsed packet, written out again, are its bytes. */
  lemma ParseLosesNothing(bytes: Bytes)
    requires HEADER_LEN <= |bytes|
    ensures var p := Parse(bytes).value;
            |p.session| == 10 && bytes == Header(p.session, p.seqNum, p.msgCount) + p.messages
  {
    var a, b, c, rest := bytes[..10], bytes[10..18], bytes[18..20], bytes[20..];
    FieldRoundTrips(0, c, 0, b);
    assert bytes == a + b + c + rest;
  }

  function Header(session: Bytes, seqNum: u64, msgCount: u16): Bytes {
    session + U64(seqNum) + U16(msgCount)
  }

  lemma ParseHeader(session: Bytes, seqNum: u64, msgCount: u16, messages: Bytes)
    requires |session| == 10
    ensures Parse(Header(session, seqNum, msgCount) + messages) == Some(Packet(session, seqNum, msgCount, messages))
  {
    var bytes := Header(session, seqNum, msgCount) + messages;
    assert bytes[..10] == session && bytes[10..18] == U64(seqNum) && bytes[18..20] == U16(msgCount);
    assert bytes[20..] == messages;
    FieldRoundTrips(msgCount, [0, 0], seqNum, bytes[10..18]);
  }

  /** The fields in their places: the session in ten bytes, then the number in eight and the count in two,
      both with the most significant byte first. */
  lemma HeaderFields(session: Bytes, seqNum: u64, msgCount: u16)
    requires |session| == 10
    ensures var h := Header(session, seqNum, msgCount);
            && |h| == 20 && h[..10] == session
            && seqNum == 0x100_0000_0000_0000 * (h[10] as int) + 0x1_0000_0000_0000 * (h[11] as int)
                         + 0x100_0000_0000 * (h[12] as int) + 0x1_0000_0000 * (h[13] as int)
                         + 0x100_0000 * (h[14] as int) + 0x1_0000 * (h[15] as int)
                         + 0x100 * (h[16] as int) + h[17] as int
            && msgCount == 0x100 * (h[18] as int) + h[19] as int
  {
    var h := Header(session, seqNum, msgCount);
    assert h[..10] == session && h[10..18] == U64(seqNum) && h[18..20] == U16(msgCount);
    FieldRoundTrips(msgCount, [0, 0], seqNum, h[10..18]);
    U64Bytes(h[10..18]);
    U16Bytes(h[18..20]);
  }

  /** A header alone. */
  lemma SpecialParses(session: Bytes, seqNum: u64, msgCount: u16)
    requires |session| == 10
    ensures Parse(Header(session, seqNum, msgCount)) == Some(Packet(session, seqNum, msgCount, []))
  {
    ParseHeader(session, seqNum, msgCount, []);
    assert Header(session, seqNum, msgCount) + [] == Header(session, seqNum, msgCount);
  }

  // ---- Message blocks ----

  /** The first block of `bytes` and what follows it; None when the bytes end inside the block. */
  function NextBlock(bytes: Bytes): (r: Option<(Bytes, Bytes)>)
    ensures r.Some? ==> |r.value.0| <= U16_MAX && |bytes| == 2 + |r.value.0| + |r.value.1|
  {
    if |bytes| < 2 then None
    else
      var len := ToU16(bytes[..2]);
      if |bytes| < 2 + len then None else Some((bytes[2..2 + len], bytes[2 + len..]))
  }

  lemma NextBlockSplits(bytes: Bytes)
    requires NextBlock(bytes).Some?
    ensures bytes == Block(NextBlock(bytes).value.0) + NextBlock(bytes).value.1
  {
    var len := ToU16(bytes[..2]);
    ToU16RoundTrip(bytes[..2]);
    assert bytes == bytes[..2] + bytes[2..2 + len] + bytes[2 + len..];
  }

  function Block(msg: Bytes): Bytes
    requires |msg| <= U16_MAX
  {
    U16(|msg|) + msg
  }

  /** The length in two bytes, most significant first, and then the message. */
  lemma BlockFields(msg: Bytes)
    requires |msg| <= U16_MAX
    ensures |msg| == 0x100 * (Block(msg)[0] as int) + Block(msg)[1] as int && Block(msg)[2..] == msg
  {
    U16RoundTrip(|msg|);
    U16Bytes(U16(|msg|));
  }

  ghost predicate Framable(msgs: seq<Bytes>) {
    forall i :: 0 <= i < |msgs| ==> |msgs[i]| <= U16_MAX
  }

  /** The message area that carries `msgs`. */
  function Frame(msgs: seq<Bytes>): Bytes
    requires Framable(msgs)
  {
    if msgs == [] then [] else Block(msgs[0]) + Frame(msgs[1..])
  }

  lemma NextBlockOfFrame(msg: Bytes, rest: Bytes)
    requires |msg| <= U16_MAX
    ensures NextBlock(Block(msg) + rest) == Some((msg, rest))
  {
    var bytes := Block(msg) + rest;
    U16RoundTrip(|msg|);
    assert bytes[..2] == U16(|msg|) && bytes[2..2 + |msg|] == msg && bytes[2 + |msg|..] == rest;
  }

  lemma {:induction false} FrameConcat(a: seq<Bytes>, b: seq<Bytes>)
    requires Framable(a) && Framable(b)
    ensures Framable(a + b) && Frame(a + b) == Frame(a) + Frame(b)
  {
    if a == [] {
      assert a + b == b;
      assert Frame(a) + Frame(b) == Frame(b);
    } else {
      var tail := Frame(a[1..]);
      FrameConcat(a[1..], b);
      assert (a + b)[1..] == a[1..] + b && (a + b)[0] == a[0];
      Regroup(Block(a[0]), tail, Frame(b));
    }
  }

  lemma FrameOne(msg: Bytes)
    requires |msg| <= U16_MAX
    ensures Frame([msg]) == Block(msg)
  {
    assert Frame([msg]) == Block(msg) + Frame([msg][1..]);
    assert [msg][1..] == [];
    assert Block(msg) + [] == Block(msg);
  }

  /** What an iterator over `bytes` yields when it sets out to yield `n` blocks. */
  function Blocks(bytes: Bytes, n: nat): seq<Bytes> {
    if n == 0 then []
    else
      match NextBlock(bytes)
      case None => []
      case Some((msg, rest)) => [msg] + Blocks(rest, n - 1)
  }

  /** Iterating a frame yields its messages. */
  lemma {:induction false} BlocksOfFrame(msgs: seq<Bytes>, rest: Bytes)
    requires Framable(msgs)
    ensures Blocks(Frame(msgs) + rest, |msgs|) == msgs
    decreases |msgs|
  {
    if msgs != [] {
      var tail := Frame(msgs[1..]);
      Regroup(Block(msgs[0]), tail, rest);
      NextBlockOfFrame(msgs[0], tail + rest);
      BlocksOfFrame(msgs[1..], rest);
    }
  }

  /** On arbitrary bytes the blocks are a frame that the bytes start with, and the iterator stops short
      of `n` blocks only where no further block is complete. */
  lemma {:induction false} BlocksArePrefix(bytes: Bytes, n: nat)
    ensures var msgs := Blocks(bytes, n);
            && |msgs| <= n && Framable(msgs) && Frame(msgs) <= bytes
            && (|msgs| < n ==> NextBlock(bytes[|Frame(msgs)|..]) == None)
    decreases n
  {
    var msgs := Blocks(bytes, n);
    if n > 0 && NextBlock(bytes).Some? {
      var (msg, rest) := NextBlock(bytes).value;
      var later := Blocks(rest, n - 1);
      NextBlockSplits(bytes);
      BlocksArePrefix(rest, n - 1);
      assert msgs == [msg] + later && msgs[1..] == later;
      PrefixBehind(Block(msg), Frame(later), rest);
    }
  }

  lemma PrefixBehind(a: Bytes, b: Bytes, c: Bytes)
    requires b <= c
    ensures a + b <= a + c && (a + c)[|a + b|..] == c[|b|..]
  {
    assert c == b + c[|b|..];
    assert a + c == a + b + c[|b|..];
  }

  /** The iterator over the message blocks of a packet. */
  class Messages {
    var bytes: Bytes
    var remaining: u16

    constructor (packet: Packet)
      ensures bytes == packet.messages && remaining == packet.Advertised()
    {
      bytes, remaining := packet.messages, packet.Advertised();
    }

    /** What the iterator still has to yield. */
    ghost function Pending(): seq<Bytes>
      reads this
    {
      Blocks(bytes, remaining)
    }

    method Next() returns (msg: Option<Bytes>)
      modifies this
      ensures msg.None? ==> old(Pending()) == [] && bytes == old(bytes) && remaining == old(remaining)
      ensures msg.Some? ==> old(Pending()) == [msg.value] + Pending() && remaining == old(remaining) - 1
      ensures msg.Some? ==> |msg.value| <= U16_MAX && old(bytes) == Block(msg.value) + bytes
    {
      if remaining == 0 {
        return None;
      }
      match NextBlock(bytes)
      case None => return None;
      case Some((block, rest)) =>
        NextBlockSplits(bytes);
        bytes := rest;
        remaining := remaining - 1;
        return Some(block);
    }
  }

  /** A consumer's loop over a packet: it gets all blocks, and what it leaves unread is what follows them. */
  method Collect(packet: Packet) returns (msgs: seq<Bytes>, unread: Bytes)
    ensures msgs == Blocks(packet.messages, packet.Advertised())
    ensures Framable(msgs) && packet.messages == Frame(msgs) + unread
  {
    var it := new Messages(packet);
    msgs := [];
    while true
      invariant Yielded(packet, msgs, it.bytes, it.remaining)
      decreases it.remaining
    {
      ghost var before := it.bytes;
      var msg := it.Next();
      if msg.None? {
        assert msgs + [] == msgs;
        return msgs, it.bytes;
      }
      OneMoreYielded(packet, msgs, before, it.remaining, msg.value, it.bytes);
      msgs := msgs + [msg.value];
    }
  }

  /** The iterator has yielded `msgs` of the packet and stands before `bytes`. */
  ghost predicate Yielded(packet: Packet, msgs: seq<Bytes>, bytes: Bytes, remaining: u16) {
    && msgs + Blocks(bytes, remaining) == Blocks(packet.messages, packet.Advertised())
    && Framable(msgs) && packet.messages == Frame(msgs) + bytes
  }

  lemma OneMoreYielded(packet: Packet, msgs: seq<Bytes>, bytes: Bytes, remaining: u16, msg: Bytes, rest: Bytes)
    requires remaining < U16_MAX && Yielded(packet, msgs, bytes, remaining + 1)
    requires |msg| <= U16_MAX && bytes == Block(msg) + rest
    requires Blocks(bytes, remaining + 1) == [msg] + Blocks(rest, remaining)
    ensures Yielded(packet, msgs + [msg], rest, remaining)
  {
    Regroup(msgs, [msg], Blocks(rest, remaining));
    FrameSnoc(msgs, msg, rest);
  }

  lemma FrameSnoc(msgs: seq<Bytes>, msg: Bytes, rest: Bytes)
    requires Framable(msgs) && |msg| <= U16_MAX
    ensures Framable(msgs + [msg]) && Frame(msgs + [msg]) + rest == Frame(msgs) + (Block(msg) + rest)
  {
    FrameConcat(msgs, [msg]);
    FrameOne(msg);
    Regroup(Frame(msgs), Block(msg), rest);
  }

  // ---- Building packets ----

  method BuildPacket(session: Bytes, seqNum: u64, msgs: seq<Bytes>) returns (buf: Bytes)
    requires |msgs| <= U16_MAX && Framable(msgs)
    ensures buf == PacketBytes(session, seqNum, msgs)
  {
    buf := session;
    buf := buf + U64(seqNum);
    buf := buf + U16(|msgs|);
    for i := 0 to |msgs|
      invariant buf == Header(session, seqNum, |msgs|) + Frame(msgs[..i])
    {
      assert msgs[..i + 1] == msgs[..i] + [msgs[i]];
      FrameConcat(msgs[..i], [msgs[i]]);
      FrameOne(msgs[i]);
      buf := buf + U16(|msgs[i]|);
      buf := buf + msgs[i];
    }
    assert msgs[..|msgs|] == msgs;
  }

  function PacketBytes(session: Bytes, seqNum: u64, msgs: seq<Bytes>): Bytes
    requires |msgs| <= U16_MAX && Framable(msgs)
  {
    Header(session, seqNum, |msgs|) + Frame(msgs)
  }

  /** A heartbeat or end-of-session packet. */
  method BuildSpecial(session: Bytes, seqNum: u64, msgCount: u16) returns (buf: Bytes)
    requires |session| == 10
    ensures buf == Header(session, seqNum, msgCount)
    ensures Parse(buf) == Some(Packet(session, seqNum, msgCount, []))
  {
    buf := seq(HEADER_LEN, _ => 0);
    buf := session + buf[10..];
    buf := buf[..10] + U64(seqNum) + buf[18..];
    buf := buf[..18] + U16(msgCount);
    assert buf == Header(session, seqNum, msgCount);
    assert buf + [] == buf;
    ParseHeader(session, seqNum, msgCount, []);
  }

  /** A built packet parses to its header fields, and its iterator yields the messages put in, exactly
      when there are not 65535 of them: that count announces the end of the session instead. */
  lemma PacketRoundTrip(session: Bytes, seqNum: u64, msgs: seq<Bytes>)
    requires |session| == 10 && |msgs| <= U16_MAX && Framable(msgs)
    ensures var p := Parse(PacketBytes(session, seqNum, msgs));
            && p == Some(Packet(session, seqNum, |msgs|, Frame(msgs)))
            && (Blocks(p.value.messages, p.value.Advertised()) == msgs <==> |msgs| != 0xFFFF)
            && (Blocks(p.value.messages, |msgs|) == msgs)
  {
    ParseHeader(session, seqNum, |msgs|, Frame(msgs));
    BlocksOfFrame(msgs, []);
    assert Frame(msgs) + [] == Frame(msgs);
  }
}
