/** The ITCH 5.0 parser: length-prefixed messages, dispatched to a handler by their tag. */
module ItchParser {
  import opened Widths
  import opened Wrappers
  import opened BigEndian
  import opened Packet

  datatype ParseError = EmptyBuffer | UnknownMessageType(tag: u8) | MalformedData

  datatype Sizes = End | Row(tag: char, size: nat, more: Sizes)

  // Message tags and the exact sizes of the message structs they stand for.

  const AUCTION_SIZES: Sizes := Row('I', 50, Row('N', 20, Row('O', 48, End)))
  const TRADE_SIZES: Sizes := Row('P', 44, Row('Q', 40, Row('B', 19, AUCTION_SIZES)))
  const ORDER_SIZES: Sizes :=
    Row('A', 36, Row('F', 40, Row('E', 31, Row('C', 36, Row('X', 23, Row('D', 19, Row('U', 35, TRADE_SIZES)))))))
  const HALT_SIZES: Sizes := Row('W', 12, Row('K', 28, Row('J', 35, Row('h', 21, ORDER_SIZES))))
  const SIZES: Sizes := Row('S', 12, Row('R', 39, Row('H', 25, Row('Y', 20, Row('L', 26, Row('V', 35, HALT_SIZES))))))

  function SizeIn(sizes: Sizes, tag: u8): nat {
    match sizes
    case End => 0
    case Row(t, size, more) => if t as int == tag then size else SizeIn(more, tag)
  }

  /** The size of the message a tag stands for; 0 for an unknown tag. */
  function BodyLen(tag: u8): nat {
    SizeIn(SIZES, tag)
  }

  predicate Known(tag: u8) {
    BodyLen(tag) != 0
  }

  const SHORTEST_BODY: nat := 12
  const LONGEST_BODY: nat := 50

  /** A body that casts to the message its tag announces. */
  predicate Exact(body: Bytes) {
    body != [] && |body| == BodyLen(body[0])
  }

  ghost predicate AllExact(bodies: seq<Bytes>) {
    forall i :: 0 <= i < |bodies| ==> Exact(bodies[i])
  }

  ghost predicate Between(sizes: Sizes, lo: nat, hi: nat) {
    sizes.Row? ==> lo <= sizes.size <= hi && Between(sizes.more, lo, hi)
  }

  lemma {:induction false} SizesBetween(sizes: Sizes, tag: u8, lo: nat, hi: nat)
    requires Between(sizes, lo, hi)
    ensures SizeIn(sizes, tag) == 0 || lo <= SizeIn(sizes, tag) <= hi
  {
    if sizes.Row? { SizesBetween(sizes.more, tag, lo, hi); }
  }

  lemma ExactBodiesFit(body: Bytes)
    requires Exact(body)
    ensures SHORTEST_BODY <= |body| <= LONGEST_BODY
  {
    assert Between(TRADE_SIZES, SHORTEST_BODY, LONGEST_BODY);
    assert Between(ORDER_SIZES, SHORTEST_BODY, LONGEST_BODY);
    assert Between(HALT_SIZES, SHORTEST_BODY, LONGEST_BODY);
    SizesBetween(SIZES, body[0], SHORTEST_BODY, LONGEST_BODY);
  }

  /** One framed message: its body, and the rest of the buffer. */
  function ParseOne(buf: Bytes): Result<(Bytes, Bytes), ParseError> {
    if |buf| < 2 then Err(EmptyBuffer)
    else
      var len := ToU16(buf[..2]);
      var rest := buf[2..];
      if |rest| < len then Err(MalformedData)
      else
        var body := rest[..len];
        if body == [] then Err(MalformedData)
        else if Known(body[0]) then Ok((body, rest[len..]))
        else Err(UnknownMessageType(body[0]))
  }

  /** What is at the front of a buffer, in terms of the framing of MoldUDP64 blocks: a complete block with
      a known tag, or the first thing that is wrong. */
  function First(buf: Bytes): Result<(Bytes, Bytes), ParseError> {
    match NextBlock(buf)
    case None => Err(if |buf| < 2 then EmptyBuffer else MalformedData)
    case Some((msg, rest)) =>
      if msg == [] then Err(MalformedData)
      else if Known(msg[0]) then Ok((msg, rest))
      else Err(UnknownMessageType(msg[0]))
  }

  /** `parse_one` reads the framing of MoldUDP64 blocks. */
  lemma ParseOneIsFirst(buf: Bytes)
    ensures ParseOne(buf) == First(buf)
  {
    if |buf| >= 2 {
      var len := ToU16(buf[..2]);
      if 2 + len <= |buf| {
        assert buf[2..][..len] == buf[2..2 + len] && buf[2..][len..] == buf[2 + len..];
      }
    }
  }

  /** `parse_one` as the loops over a buffer call it. */
  method TakeOne(buf: Bytes) returns (one: Result<(Bytes, Bytes), ParseError>)
    ensures one == First(buf) && (one.Ok? ==> |one.value.1| < |buf|)
  {
    ParseOneIsFirst(buf);
    one := ParseOne(buf);
  }

  // ---- Streams ----

  /** What parsing a whole buffer leads to: all calls of the handler, the unread rest, the result. */
  datatype Parsed = Parsed(calls: seq<Bytes>, rest: Bytes, result: Result<(), ParseError>)

  /** Parsing `buf` with a handler that has had `calls` so far and stops the parser on the call that
      `stopAt` counts to, if any. */
  function Stream(calls: seq<Bytes>, buf: Bytes, stopAt: Option<nat>): Parsed
    decreases |buf|
  {
    if buf == [] then Parsed(calls, [], Ok(()))
    else
      match First(buf)
      case Err(e) => Parsed(calls, buf, Err(e))
      case Ok((body, rest)) =>
        if !Exact(body) then Parsed(calls, rest, Err(MalformedData))
        else if stopAt == Some(|calls| + 1) then Parsed(calls + [body], rest, Ok(()))
        else Stream(calls + [body], rest, stopAt)
  }

  /** A message handler: the bodies it was called with, and when it asks to stop. */
  class Handler {
    var calls: seq<Bytes>
    const stopAt: Option<nat>

    constructor (stopAt: Option<nat>)
      ensures calls == [] && this.stopAt == stopAt
    {
      calls := [];
      this.stopAt := stopAt;
    }

    method On(body: Bytes) returns (stop: bool)
      modifies this
      ensures calls == old(calls) + [body] && stop == (stopAt == Some(|calls|))
    {
      calls := calls + [body];
      stop := stopAt == Some(|calls|);
    }
  }

  class Parser {
    var buf: Bytes

    constructor (buf: Bytes)
      ensures this.buf == buf
    {
      this.buf := buf;
    }

    method ParseStream(handler: Handler) returns (r: Result<(), ParseError>)
      modifies this, handler
      ensures Parsed(handler.calls, buf, r) == Stream(old(handler.calls), old(buf), handler.stopAt)
    {
      while buf != []
        invariant Stream(handler.calls, buf, handler.stopAt) == Stream(old(handler.calls), old(buf), handler.stopAt)
        decreases |buf|
      {
        var one := TakeOne(buf);
        if one.Err? {
          return Err(one.error);
        }
        var (body, rest) := one.value;
        buf := rest;
        if !Exact(body) {
          return Err(MalformedData);
        }
        var stop := handler.On(body);
        if stop {
          break;
        }
      }
      return Ok(());
    }
  }

  /** `buf` is the blocks of `bodies` one after the other, and then `rest`. */
  ghost predicate Carries(buf: Bytes, bodies: seq<Bytes>, rest: Bytes) {
    if bodies == [] then buf == rest
    else
      var next := NextBlock(buf);
      next.Some? && next.value.0 == bodies[0] && Carries(next.value.1, bodies[1..], rest)
  }

  lemma {:induction false} FrameCarries(bodies: seq<Bytes>, rest: Bytes)
    requires Framable(bodies)
    ensures Carries(Frame(bodies) + rest, bodies, rest)
    decreases |bodies|
  {
    if bodies == [] {
      assert Frame(bodies) + rest == rest;
    } else {
      var tail := Frame(bodies[1..]) + rest;
      assert Frame(bodies) + rest == Block(bodies[0]) + tail;
      NextBlockOfFrame(bodies[0], tail);
      FrameCarries(bodies[1..], rest);
    }
  }

  /** The bodies a handler that never stops is called with. */
  function Calls(buf: Bytes): seq<Bytes>
    decreases |buf|
  {
    var next := NextBlock(buf);
    if next.None? || !Exact(next.value.0) then [] else [next.value.0] + Calls(next.value.1)
  }

  lemma {:induction false} StreamCalls(calls: seq<Bytes>, buf: Bytes)
    ensures Stream(calls, buf, None).calls == calls + Calls(buf)
    decreases |buf|
  {
    if buf != [] && First(buf).Ok? && Exact(First(buf).value.0) {
      var (body, rest) := First(buf).value;
      StreamCalls(calls + [body], rest);
      Regroup(calls, [body], Calls(rest));
    }
  }

  lemma {:induction false} CallsOfCarried(buf: Bytes, bodies: seq<Bytes>, rest: Bytes)
    requires Carries(buf, bodies, rest) && AllExact(bodies)
    ensures Calls(buf) == bodies + Calls(rest)
    decreases |bodies|
  {
    if bodies != [] {
      var first, others, more := bodies[0], bodies[1..], Calls(rest);
      assert Exact(first);
      CallsOfCarried(NextBlock(buf).value.1, others, rest);
      assert bodies == [first] + others;
      Regroup([first], others, more);
    }
  }

  /** A frame of exact bodies in front of a buffer is handed over body by body. */
  lemma CallsOfFrame(bodies: seq<Bytes>, rest: Bytes)
    requires AllExact(bodies) && Framable(bodies)
    ensures Calls(Frame(bodies) + rest) == bodies + Calls(rest)
  {
    FrameCarries(bodies, rest);
    CallsOfCarried(Frame(bodies) + rest, bodies, rest);
  }

  /** What a stream hands over is exact, framed it is what the buffer starts with, and it is the whole
      buffer exactly when the parser reports no error. */
  lemma {:induction false} CallsAreFramed(calls: seq<Bytes>, buf: Bytes)
    ensures AllExact(Calls(buf)) && Framable(Calls(buf)) && Frame(Calls(buf)) <= buf
    ensures Stream(calls, buf, None).result.Ok? <==> Frame(Calls(buf)) == buf
    decreases |buf|
  {
    if buf != [] && First(buf).Ok? && Exact(First(buf).value.0) {
      var (body, rest) := First(buf).value;
      NextBlockSplits(buf);
      CallsAreFramed(calls + [body], rest);
      var later := Calls(rest);
      assert ([body] + later)[1..] == later;
      PrefixBehind(Block(body), Frame(later), rest);
      assert Frame(later) == rest <==> |Frame(later)| == |rest|;
    }
  }

  /** A stream parses without error exactly when it is a frame of exact bodies, and those are the calls. */
  lemma StreamSucceedsIff(buf: Bytes)
    ensures Stream([], buf, None).result.Ok? <==>
            exists bodies :: AllExact(bodies) && Framable(bodies) && Frame(bodies) == buf
    ensures forall bodies :: AllExact(bodies) && Framable(bodies) && Frame(bodies) == buf ==>
              Stream([], buf, None).calls == bodies
  {
    CallsAreFramed([], buf);
    StreamCalls([], buf);
    forall bodies | AllExact(bodies) && Framable(bodies) && Frame(bodies) == buf
      ensures Calls(buf) == bodies
    {
      CallsOfFrame(bodies, []);
      assert Frame(bodies) + [] == buf;
      assert bodies + Calls([]) == bodies;
    }
  }

  /** The bodies `parse_one` finds from the start of a file up to the first framing error. */
  function Bodies(buf: Bytes): seq<Bytes>
    decreases |buf|
  {
    if buf == [] || First(buf).Err? then []
    else [First(buf).value.0] + Bodies(First(buf).value.1)
  }

  /** When those bodies are exact they are the calls of one parse over the whole file. */
  lemma {:induction false} CallsAreBodies(buf: Bytes)
    requires AllExact(Bodies(buf))
    ensures Calls(buf) == Bodies(buf)
    decreases |buf|
  {
    if buf != [] && First(buf).Ok? {
      var (body, rest) := First(buf).value;
      assert Bodies(buf)[0] == body && Bodies(buf)[1..] == Bodies(rest);
      CallsAreBodies(rest);
    }
  }
}
