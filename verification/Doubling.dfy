/** The smallest replay that is delivered with a body too many. */
module Doubling {
  import opened Widths
  import opened Wrappers
  import opened Packet
  import opened ItchParser
  import opened Chunking
  import opened Server
  import opened ServerLaws
  import opened Client
  import opened Readings
  import opened Consumer
  import opened Records
  import opened Delivery

  /** A system event message, the shortest body. */
  function Event(code: u8): (body: Bytes)
    ensures Exact(body) && |body| == SHORTEST_BODY
  {
    [0x53, 0, 0, 0, 0, 0, 0, 0, 0, 0, 0, code]
  }

  lemma TwoChunks(a: Bytes, b: Bytes, limit: nat)
    requires |a| + |b| > limit
    ensures Chunks([a, b], limit) == [[a], [b]]
  {
    var none: Payloads := [];
    assert [a, b][..1] == [a] && [a][..0] == none && Total(none) == 0;
    assert Chunks(none, limit) == [] && Chunks([a], limit) == [[a]] && Total([a]) == |a|;
  }

  /** Both messages in one `Send`, a heartbeat, and the end. */
  function SentFor(session: Bytes, first: u64, a: Bytes, b: Bytes): seq<Bytes>
    requires |a| <= U16_MAX && |b| <= U16_MAX && first + 2 <= U64_MAX
  {
    [PacketBytes(session, first, [a]), PacketBytes(session, first, [b]),
     Header(session, first + 2, HEARTBEAT), Header(session, first + 2, END_OF_SESSION)]
  }

  function WorldFor(session: Bytes, first: u64, a: Bytes, b: Bytes, limit: nat): World
    requires |a| <= U16_MAX && |b| <= U16_MAX && first + 2 <= U64_MAX
  {
    World(session, map[first := a, first + 1 := b], limit, SentFor(session, first, a, b))
  }

  // ---- The client ----

  /** Two packets under one number, a heartbeat, and the end. */
  ghost predicate LooksLike(sent: seq<Bytes>, session: Bytes, first: u64, x: Bytes, y: Bytes) {
    && first + 2 <= U64_MAX && |sent| == 4
    && Parse(sent[0]) == Some(Packet(session, first, 1, x)) && Parse(sent[1]) == Some(Packet(session, first, 1, y))
    && Parse(sent[2]) == Some(Packet(session, first + 2, HEARTBEAT, []))
    && Parse(sent[3]) == Some(Packet(session, first + 2, END_OF_SESSION, []))
  }

  lemma OneParses(session: Bytes, first: u64, msg: Bytes)
    requires |session| == 10 && |msg| <= U16_MAX
    ensures Parse(PacketBytes(session, first, [msg])) == Some(Packet(session, first, 1, Frame([msg])))
  {
    ParseHeader(session, first, 1, Frame([msg]));
  }

  lemma SentLooksLike(session: Bytes, first: u64, a: Bytes, b: Bytes)
    requires |session| == 10 && |a| <= U16_MAX && |b| <= U16_MAX && first + 2 <= U64_MAX
    ensures LooksLike(SentFor(session, first, a, b), session, first, Frame([a]), Frame([b]))
  {
    OneParses(session, first, a);
    OneParses(session, first, b);
    SpecialParses(session, first + 2, HEARTBEAT);
    SpecialParses(session, first + 2, END_OF_SESSION);
  }

  lemma AllAreParsed(sent: seq<Bytes>, session: Bytes, first: u64, x: Bytes, y: Bytes)
    requires LooksLike(sent, session, first, x, y)
    ensures AllParsed(sent)
  {
    forall i | 0 <= i < |sent| ensures Parse(sent[i]).Some? {
      assert i == 0 || i == 1 || i == 2 || i == 3;
    }
  }

  lemma FirstIsCalm(w: World, e: Expected, session: Bytes, first: u64, x: Bytes, y: Bytes, e1: Expected)
    requires LooksLike(w.sent, session, first, x, y) && e == Expected(Some(session), None)
    requires e1 == Expected(Some(session), Some(first + 1))
    ensures Reached(w, e, Calm(w, 1, e1))
  {
    var p := Packet(session, first, 1, x);
    CalmAtFirst(w, e);
    assert Wanted(e, p) == [] && Follow(e, p) == e1;
    CalmNext(w, e, 0, e, p);
  }

  /** The second packet comes under the number of the first, so the client expects no more than before. */
  lemma SecondIsCalm(w: World, e: Expected, session: Bytes, first: u64, x: Bytes, y: Bytes, e1: Expected)
    requires LooksLike(w.sent, session, first, x, y) && e == Expected(Some(session), None)
    requires e1 == Expected(Some(session), Some(first + 1))
    ensures Reached(w, e, Calm(w, 2, e1))
  {
    var p := Packet(session, first, 1, y);
    FirstIsCalm(w, e, session, first, x, y, e1);
    assert Wanted(e1, p) == [] && Follow(e1, p) == e1;
    CalmNext(w, e, 1, e1, p);
  }

  /** The answer reaches the consumer before the heartbeat that provoked it. */
  lemma WithAnswer(w: World, e: Expected, session: Bytes, first: u64, x: Bytes, y: Bytes, r: Request)
    requires LooksLike(w.sent, session, first, x, y) && e == Expected(Some(session), None)
    requires r == Request(session, first + 1, 1) && CanAnswer(w, r)
    ensures Possible(w, e, w.sent[..2] + AnswerTo(w, r) + w.sent[2..])
  {
    var e1, p := Expected(Some(session), Some(first + 1)), Packet(session, first + 2, HEARTBEAT, []);
    SecondIsCalm(w, e, session, first, x, y, e1);
    AllAreParsed(w.sent, session, first, x, y);
    assert Wanted(e1, p) == [r];
    AnswerLands(w, e, 2, e1, p, r);
  }

  /** Or not at all. */
  lemma WithoutAnswer(w: World, e: Expected, session: Bytes, first: u64, x: Bytes, y: Bytes)
    requires LooksLike(w.sent, session, first, x, y) && e == Expected(Some(session), None)
    ensures Possible(w, e, w.sent)
  {
    FreshIsReached(w, e);
    AllAreParsed(w.sent, session, first, x, y);
    assert [] + w.sent[0..] == w.sent;
    RestIsPassedOn(w, e, Fresh(e), w.sent);
  }

  // ---- The consumer ----

  /** The answer holds the second body. */
  lemma AnswerHoldsSecond(w: World, first: u64, a: Bytes, b: Bytes, r: Request)
    requires |w.session| == 10 && Exact(a) && Exact(b) && first + 2 <= U64_MAX
    requires w.log == map[first := a, first + 1 := b] && w.limit < SHORTEST_BODY * 0xFFFF
    requires r == Request(w.session, first + 1, 1)
    ensures CanAnswer(w, r) && AllData(AnswerTo(w, r)) && Consumed(AnswerTo(w, r)) == [b]
  {
    assert Dense(w.log, first, first + 2) && Recorded(w.log, first, first + 2);
    AnswerIsConsumed(w, first, first + 2, r);
    assert Contiguous(w.log, first + 2, 0) == [];
    assert Contiguous(w.log, first + 1, 1) == [b] + Contiguous(w.log, first + 2, 0);
  }

  lemma FourAreConsumed(one: Bytes, two: Bytes, three: Bytes, four: Bytes, a: Bytes, b: Bytes)
    requires Read(one) == Data([a]) && Read(two) == Data([b]) && Read(three) == Data([]) && Read(four) == Ending
    ensures AllData([one, two]) && Consumed([one, two]) == [a, b] && Consumed([three, four]) == []
  {
    OneReads(one);
    OneReads(two);
    OneReads(three);
    MoreData([one], [two]);
    EndAddsNothing([three], four);
    assert [one, two] == [one] + [two] && [three, four] == [three] + [four];
  }

  lemma SentIsConsumed(session: Bytes, first: u64, a: Bytes, b: Bytes)
    requires |session| == 10 && Exact(a) && Exact(b) && |a| <= U16_MAX && |b| <= U16_MAX && first + 2 <= U64_MAX
    ensures var sent := SentFor(session, first, a, b);
            && AllData(sent[..2]) && Consumed(sent[..2]) == [a, b] && Consumed(sent[2..]) == []
  {
    var one, two := PacketBytes(session, first, [a]), PacketBytes(session, first, [b]);
    var three, four := Header(session, first + 2, HEARTBEAT), Header(session, first + 2, END_OF_SESSION);
    PacketIsConsumed(session, first, [a]);
    PacketIsConsumed(session, first, [b]);
    SpecialsAreRead(session, first + 2);
    FourAreConsumed(one, two, three, four, a, b);
    assert [one, two, three, four][..2] == [one, two] && [one, two, three, four][2..] == [three, four];
  }

  lemma ThreeCalls(sent: seq<Bytes>, answer: seq<Bytes>, a: Bytes, b: Bytes)
    requires |sent| == 4 && AllData(sent[..2]) && Consumed(sent[..2]) == [a, b] && Consumed(sent[2..]) == []
    requires AllData(answer) && Consumed(answer) == [b]
    ensures Consumed(sent) == [a, b] && Consumed(sent[..2] + answer + sent[2..]) == [a, b, b]
  {
    AnswerAdds(sent[..2], answer, sent[2..]);
    assert sent == sent[..2] + sent[2..];
  }

  // ---- Both ----

  /** That is what a server broadcasts and logs. */
  lemma SentIsSent(session: Bytes, first: u64, a: Bytes, b: Bytes, limit: nat)
    requires |a| <= U16_MAX && |b| <= U16_MAX && first + 2 <= U64_MAX && limit < |a| + |b|
    ensures Buildable(Chunks([a, b], limit))
    ensures SentFor(session, first, a, b)[..2] == Packets(session, first, Chunks([a, b], limit))
    ensures Stored(map[], first, [a, b]) == map[first := a, first + 1 := b]
  {
    TwoChunks(a, b, limit);
    PacketsPerChunk(session, first, [[a], [b]]);
    LogOfTwo(first, a, b);
  }

  lemma LogOfTwo(first: u64, a: Bytes, b: Bytes)
    requires first + 2 <= U64_MAX
    ensures Stored(map[], first, [a, b]) == map[first := a, first + 1 := b]
  {
    var none: seq<Bytes> := [];
    assert [a, b][..1] == [a] && [a][..0] == none;
    assert Stored(map[], first, none) == map[] && Stored(map[], first, [a]) == map[first := a];
  }

  /** Two exact bodies that do not fit one packet together, sent at once: the heartbeat behind them makes
      the client ask for the second one, which it has passed on already, and when the answer arrives the
      consumer's handler is called three times. */
  lemma TwoBodiesThreeCalls(session: Bytes, first: u64, a: Bytes, b: Bytes, limit: nat, w: World)
    returns (received: seq<Bytes>)
    requires |session| == 10 && Exact(a) && Exact(b) && limit < |a| + |b| && first + 2 <= U64_MAX
    requires |a| <= U16_MAX && |b| <= U16_MAX && w == WorldFor(session, first, a, b, limit)
    ensures Consumed(w.sent) == [a, b] && Possible(w, Expected(Some(session), None), w.sent)
    ensures Consumed(received) == [a, b, b] && Possible(w, Expected(Some(session), None), received)
  {
    ExactBodiesFit(a);
    ExactBodiesFit(b);
    var r := Request(session, first + 1, 1);
    AnswerHoldsSecond(w, first, a, b, r);
    SentIsConsumed(session, first, a, b);
    SentLooksLike(session, first, a, b);
    WithoutAnswer(w, Expected(Some(session), None), session, first, Frame([a]), Frame([b]));
    WithAnswer(w, Expected(Some(session), None), session, first, Frame([a]), Frame([b]), r);
    ThreeCalls(w.sent, AnswerTo(w, r), a, b);
    received := w.sent[..2] + AnswerTo(w, r) + w.sent[2..];
  }

  /** For instance two events with a limit of 12 bytes. */
  lemma TwoEventsThreeCalls(session: Bytes, first: u64) returns (received: seq<Bytes>)
    requires |session| == 10 && first + 2 <= U64_MAX
    ensures var a, b := Event(0x4F), Event(0x53);
            var w := WorldFor(session, first, a, b, 12);
            && Buildable(Chunks([a, b], 12)) && w.sent[..2] == Packets(session, first, Chunks([a, b], 12))
            && w.log == Stored(map[], first, [a, b])
            && Consumed(w.sent) == [a, b] && Possible(w, Expected(Some(session), None), w.sent)
            && Consumed(received) == [a, b, b] && Possible(w, Expected(Some(session), None), received)
  {
    var a, b := Event(0x4F), Event(0x53);
    SentIsSent(session, first, a, b, 12);
    received := TwoBodiesThreeCalls(session, first, a, b, 12, WorldFor(session, first, a, b, 12));
  }
}
