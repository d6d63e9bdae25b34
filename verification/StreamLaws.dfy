/** Where a parse ends, and what a handler gets that asks to stop. */
module StreamLaws {
  import opened Widths
  import opened Wrappers
  import opened BigEndian
  import opened Packet
  import opened ItchParser
  import opened Readings
  import opened Consumer

  // ---- Errors ----

  /** The length a block announces, most significant byte first. */
  function Announced(buf: Bytes): nat
    requires 2 <= |buf|
  {
    0x100 * (buf[0] as int) + buf[1] as int
  }

  /** The parser's errors: fewer than two bytes, a block that is cut off or empty, or an unknown tag. */
  lemma ParseErrors(buf: Bytes)
    ensures ParseOne(buf) == Err(EmptyBuffer) <==> |buf| < 2
    ensures ParseOne(buf) == Err(MalformedData) <==>
            2 <= |buf| && (Announced(buf) == 0 || |buf| < 2 + Announced(buf))
    ensures forall tag :: ParseOne(buf) == Err(UnknownMessageType(tag)) <==>
              2 <= |buf| && 0 < Announced(buf) <= |buf| - 2 && buf[2] == tag && !Known(tag)
  {
    if 2 <= |buf| { U16Bytes(buf[..2]); }
  }

  /** What is left of a buffer behind the blocks of the bodies handed over. */
  function Left(buf: Bytes): Bytes
    decreases |buf|
  {
    var next := NextBlock(buf);
    if next.None? || !Exact(next.value.0) then buf else Left(next.value.1)
  }

  lemma {:induction false} LeftIsBehind(buf: Bytes)
    ensures Framable(Calls(buf)) && Frame(Calls(buf)) + Left(buf) == buf
    decreases |buf|
  {
    var next := NextBlock(buf);
    if next.None? || !Exact(next.value.0) {
      assert Frame(Calls(buf)) == [] && [] + buf == buf;
    } else {
      var (body, rest) := next.value;
      LeftIsBehind(rest);
      NextBlockSplits(buf);
      assert ([body] + Calls(rest))[1..] == Calls(rest);
      Regroup(Block(body), Frame(Calls(rest)), Left(rest));
    }
  }

  /** A parse ends without error exactly when nothing is left.  Otherwise it ends at the first block that is
      no message: in front of it when it cannot be told from the rest, and behind it when it is of a known
      kind but has not the size of that kind. */
  lemma {:induction false} StreamEnds(calls: seq<Bytes>, buf: Bytes)
    ensures Stream(calls, buf, None) ==
            var left := Left(buf);
            if left == [] then Parsed(calls + Calls(buf), [], Ok(()))
            else
              match ParseOne(left)
              case Err(e) => Parsed(calls + Calls(buf), left, Err(e))
              case Ok((body, rest)) => Parsed(calls + Calls(buf), rest, Err(MalformedData))
    decreases |buf|
  {
    ParseOneIsFirst(buf);
    if buf != [] && First(buf).Ok? && Exact(First(buf).value.0) {
      var (body, rest) := First(buf).value;
      StreamEnds(calls + [body], rest);
      Regroup(calls, [body], Calls(rest));
    } else {
      assert Left(buf) == buf && calls + Calls(buf) == calls;
    }
  }

  // ---- A handler that asks to stop ----

  /** A handler that asks to stop on a call it has had already is handed everything. */
  lemma {:induction false} PastStopIsIgnored(calls: seq<Bytes>, buf: Bytes, k: nat)
    requires k <= |calls|
    ensures Stream(calls, buf, Some(k)) == Stream(calls, buf, None)
    decreases |buf|
  {
    if buf != [] && First(buf).Ok? && Exact(First(buf).value.0) {
      PastStopIsIgnored(calls + [First(buf).value.0], First(buf).value.1, k);
    }
  }

  /** The first `m` calls of a parse, and all of them when there are fewer. */
  function FirstCalls(calls: seq<Bytes>, m: nat): seq<Bytes> {
    if m <= |calls| then calls[..m] else calls
  }

  lemma FirstOfMore(body: Bytes, later: seq<Bytes>, m: nat)
    requires 1 < m
    ensures FirstCalls([body] + later, m) == [body] + FirstCalls(later, m - 1)
  {
  }

  /** One that asks to stop on a later call gets the calls up to that one. */
  lemma {:induction false} StoppedStream(calls: seq<Bytes>, buf: Bytes, k: nat)
    requires |calls| < k
    ensures Stream(calls, buf, Some(k)).calls == calls + FirstCalls(Calls(buf), k - |calls|)
    decreases |buf|
  {
    if buf != [] && First(buf).Ok? && Exact(First(buf).value.0) {
      var (body, rest) := First(buf).value;
      if k == |calls| + 1 {
        assert FirstCalls([body] + Calls(rest), 1) == [body];
      } else {
        StoppedStream(calls + [body], rest, k);
        FirstOfMore(body, Calls(rest), k - |calls|);
        Regroup(calls, [body], FirstCalls(Calls(rest), k - |calls| - 1));
      }
    }
  }

  /** If there are so many, the parse ends there without error, and what was not handed over is still in the
      buffer; otherwise it goes as if the handler never stopped. */
  lemma {:induction false} StoppedStreamEnds(calls: seq<Bytes>, buf: Bytes, k: nat)
    requires |calls| < k
    ensures if k - |calls| <= |Calls(buf)| then
              var done, end := FirstCalls(Calls(buf), k - |calls|), Stream(calls, buf, Some(k));
              end.result == Ok(()) && Framable(done) && Frame(done) + end.rest == buf
            else Stream(calls, buf, Some(k)) == Stream(calls, buf, None)
    decreases |buf|
  {
    if buf != [] && First(buf).Ok? && Exact(First(buf).value.0) {
      var (body, rest) := First(buf).value;
      NextBlockSplits(buf);
      if k == |calls| + 1 {
        assert FirstCalls([body] + Calls(rest), 1) == [body];
        FrameOne(body);
      } else {
        StoppedStreamEnds(calls + [body], rest, k);
        FirstOfMore(body, Calls(rest), k - |calls|);
        var done := FirstCalls(Calls(rest), k - |calls| - 1);
        assert ([body] + done)[1..] == done;
        if k - |calls| <= |Calls(buf)| { Regroup(Block(body), Frame(done), Stream(calls, buf, Some(k)).rest); }
      }
    }
  }

  // ---- In the receive loop ----

  lemma HandOverCuts(k: nat, calls: seq<Bytes>, d: Bytes)
    ensures Cuts(Read, HandOver(Some(k)), k, calls, d)
  {
    if Read(d).Data? && Parse(d).value.Kind() == Standard {
      var messages := Parse(d).value.messages;
      StreamCalls(calls, messages);
      if |calls| < k {
        StoppedStream(calls, messages, k);
        assert Calls(messages)[..|Calls(messages)|] == Calls(messages);
      } else {
        PastStopIsIgnored(calls, messages, k);
      }
    }
  }

  /** The receive loop hands a handler that asks to stop on call `k`, and gets it with datagram `i`, all that
      is consumed except the rest of that datagram: asking to stop ends the packet and not the loop. */
  lemma StoppingHandlerMisses(calls: seq<Bytes>, datagrams: seq<Bytes>, k: nat, i: nat)
    requires i < |datagrams|
    requires |calls| + |Kept(Read, datagrams, i)| < k <= |calls| + |Kept(Read, datagrams, i + 1)|
    ensures |Kept(Read, datagrams, i + 1)| <= |Consumed(datagrams)|
    ensures Handed(Read, HandOver(Some(k)), calls, datagrams, |datagrams|) ==
            calls + Consumed(datagrams)[..k - |calls|] + Consumed(datagrams)[|Kept(Read, datagrams, i + 1)|..]
  {
    forall c: seq<Bytes>, d: Bytes ensures Cuts(Read, HandOver(Some(k)), k, c, d) { HandOverCuts(k, c, d); }
    StopMissesRest(Read, HandOver(Some(k)), k, calls, datagrams, i);
  }

  /** One that never gets there is handed all that is consumed. */
  lemma UnreachedStop(calls: seq<Bytes>, datagrams: seq<Bytes>, k: nat)
    requires |calls| + |Consumed(datagrams)| < k
    ensures Handed(Read, HandOver(Some(k)), calls, datagrams, |datagrams|) == calls + Consumed(datagrams)
  {
    forall c: seq<Bytes>, d: Bytes ensures Cuts(Read, HandOver(Some(k)), k, c, d) { HandOverCuts(k, c, d); }
    HandedBeforeStop(Read, HandOver(Some(k)), k, calls, datagrams, |datagrams|);
  }
}
