/** How what a server sent reaches the consumer when no live datagram is lost: the client asks for what it
    takes to be missing, the responder answers, and the answers land among the live datagrams. */
module Delivery {
  import opened Widths
  import opened Wrappers
  import opened Packet
  import opened ItchParser
  import opened Chunking
  import opened Server
  import opened Client
  import opened Relay
  import opened Consumer
  import opened Records

  /** What was sent, and what the responder answers from. */
  datatype World = World(session: Bytes, log: Log, limit: nat, sent: seq<Bytes>)

  /** The live thread looks at the next datagram, which may queue a re-request, and then passes it on.  In
      between and at any time a re-request is answered or lost, and a packet of an answer reaches the
      consumer or is lost. */
  datatype Choice = Look | PassOn | Answer(j: nat) | Lose(j: nat) | Arrive(k: nat) | Drop(k: nat)

  /** `inFlight` are the packets of answers under way, `received` what the consumer's channel got so far. */
  datatype Situation = Situation(looked: nat, passed: nat, expected: Expected, pending: seq<Request>,
                                 inFlight: seq<Bytes>, received: seq<Bytes>)

  function Without<T>(s: seq<T>, j: nat): seq<T>
    requires j < |s|
  {
    s[..j] + s[j + 1..]
  }

  ghost predicate Can(w: World, s: Situation, c: Choice) {
    match c
    case Look => s.looked == s.passed < |w.sent| && Parse(w.sent[s.looked]).Some?
    case PassOn => s.passed < s.looked <= |w.sent|
    case Answer(j) => j < |s.pending| && CanAnswer(w, s.pending[j])
    case Lose(j) => j < |s.pending|
    case Arrive(k) => k < |s.inFlight|
    case Drop(k) => k < |s.inFlight|
  }

  ghost predicate CanAnswer(w: World, r: Request) {
    |w.session| == 10 && Buildable(Chunks(Selected(w.session, w.log, RequestBytes(r)), w.limit))
  }

  ghost function AnswerTo(w: World, r: Request): seq<Bytes>
    requires CanAnswer(w, r)
  {
    Replies(w.session, w.log, RequestBytes(r), w.limit)
  }

  ghost function Then(w: World, s: Situation, c: Choice): Situation
    requires Can(w, s, c)
  {
    match c
    case Look => Seen(s, Parse(w.sent[s.looked]).value)
    case PassOn => s.(passed := s.passed + 1, received := s.received + [w.sent[s.passed]])
    case Answer(j) => s.(pending := Without(s.pending, j), inFlight := s.inFlight + AnswerTo(w, s.pending[j]))
    case Lose(j) => s.(pending := Without(s.pending, j))
    case Arrive(k) => s.(inFlight := Without(s.inFlight, k), received := s.received + [s.inFlight[k]])
    case Drop(k) => s.(inFlight := Without(s.inFlight, k))
  }

  function Seen(s: Situation, p: Packet): Situation {
    s.(looked := s.looked + 1, expected := Follow(s.expected, p), pending := s.pending + Wanted(s.expected, p))
  }

  /** The first `n` choices are possible one after the other. */
  ghost predicate CanAll(w: World, s: Situation, cs: seq<Choice>, n: nat)
    requires n <= |cs|
    decreases n, 0
  {
    0 < n ==> CanAll(w, s, cs, n - 1) && Can(w, After(w, s, cs, n - 1), cs[n - 1])
  }

  ghost function After(w: World, s: Situation, cs: seq<Choice>, n: nat): Situation
    requires n <= |cs| && CanAll(w, s, cs, n)
    decreases n, 1
  {
    if n == 0 then s else Then(w, After(w, s, cs, n - 1), cs[n - 1])
  }

  function Fresh(e: Expected): Situation {
    Situation(0, 0, e, [], [], [])
  }

  ghost predicate Leads(w: World, e: Expected, cs: seq<Choice>, s: Situation) {
    CanAll(w, Fresh(e), cs, |cs|) && After(w, Fresh(e), cs, |cs|) == s
  }

  ghost predicate Reached(w: World, e: Expected, s: Situation) {
    exists cs :: Leads(w, e, cs, s)
  }

  /** A client that starts out expecting `e` may put `received` into the consumer's channel. */
  ghost predicate Possible(w: World, e: Expected, received: seq<Bytes>) {
    exists s :: Reached(w, e, s) && s.passed == |w.sent| && s.received == received
  }

  lemma FreshIsReached(w: World, e: Expected)
    ensures Reached(w, e, Fresh(e))
  {
    assert Leads(w, e, [], Fresh(e));
  }

  lemma {:induction false} SamePrefix(w: World, s: Situation, cs: seq<Choice>, cs': seq<Choice>, n: nat)
    requires n <= |cs| <= |cs'| && CanAll(w, s, cs, n) && forall i :: 0 <= i < n ==> cs'[i] == cs[i]
    ensures CanAll(w, s, cs', n) && After(w, s, cs', n) == After(w, s, cs, n)
  {
    if 0 < n { SamePrefix(w, s, cs, cs', n - 1); }
  }

  lemma LeadsOn(w: World, e: Expected, cs: seq<Choice>, cs': seq<Choice>, s: Situation, c: Choice)
    requires Leads(w, e, cs, s) && Can(w, s, c) && cs' == cs + [c]
    ensures Leads(w, e, cs', Then(w, s, c))
  {
    var n := |cs|;
    SamePrefix(w, Fresh(e), cs, cs', n);
    assert cs'[n] == c && |cs'| == n + 1;
    assert CanAll(w, Fresh(e), cs', n + 1);
  }

  lemma OneMoreChoice(w: World, e: Expected, s: Situation, c: Choice)
    requires Reached(w, e, s) && Can(w, s, c)
    ensures Reached(w, e, Then(w, s, c))
  {
    var cs :| Leads(w, e, cs, s);
    LeadsOn(w, e, cs, cs + [c], s, c);
  }

  // ---- Without a gap there is nothing to answer ----

  lemma {:induction false} AskedGrows(s: Stand, sent: seq<Bytes>, n: nat)
    requires n <= |sent|
    ensures StandAll(s, sent[..n]).asked ==> StandAll(s, sent).asked
    decreases |sent|
  {
    if n == |sent| {
      assert sent[..n] == sent;
    } else {
      var m := |sent| - 1;
      assert sent[..m][..n] == sent[..n];
      AskedGrows(s, sent[..m], n);
    }
  }

  lemma StandNext(s: Stand, sent: seq<Bytes>, n: nat)
    requires n < |sent|
    ensures StandAll(s, sent[..n + 1]) == StandAfter(StandAll(s, sent[..n]), sent[n])
  {
    assert sent[..n + 1][..n] == sent[..n];
  }

  /** The client never had anything to ask for, and what it passed on is the beginning of what was sent. */
  ghost predicate Quiet(w: World, e: Expected, s: Situation) {
    && s.passed <= s.looked <= |w.sent| && s.pending == [] && s.inFlight == [] && s.received == w.sent[..s.passed]
    && StandAll(Stand(e, false), w.sent[..s.looked]) == Stand(s.expected, false)
  }

  lemma ChoiceStaysQuiet(w: World, e: Expected, s: Situation, c: Choice)
    requires !StandAll(Stand(e, false), w.sent).asked && Quiet(w, e, s) && Can(w, s, c)
    ensures Quiet(w, e, Then(w, s, c))
  {
    if c.Look? {
      StandNext(Stand(e, false), w.sent, s.looked);
      AskedGrows(Stand(e, false), w.sent, s.looked + 1);
    } else if c.PassOn? {
      TakeNext(w.sent, s.passed);
    }
  }

  lemma {:induction false} RunStaysQuiet(w: World, e: Expected, cs: seq<Choice>, n: nat)
    requires n <= |cs| && CanAll(w, Fresh(e), cs, n) && !StandAll(Stand(e, false), w.sent).asked
    ensures Quiet(w, e, After(w, Fresh(e), cs, n))
  {
    if 0 < n {
      RunStaysQuiet(w, e, cs, n - 1);
      ChoiceStaysQuiet(w, e, After(w, Fresh(e), cs, n - 1), cs[n - 1]);
    }
  }

  /** Then the consumer receives what was sent and nothing else. */
  lemma QuietDelivery(w: World, e: Expected, received: seq<Bytes>)
    requires !StandAll(Stand(e, false), w.sent).asked && Possible(w, e, received)
    ensures received == w.sent
  {
    var s :| Reached(w, e, s) && s.passed == |w.sent| && s.received == received;
    var cs :| Leads(w, e, cs, s);
    RunStaysQuiet(w, e, cs, |cs|);
    assert w.sent[..|w.sent|] == w.sent;
  }

  // ---- An answer in the middle ----

  lemma LookNext(w: World, e: Expected, s: Situation, p: Packet)
    requires Reached(w, e, s) && s.passed == s.looked < |w.sent| && Parse(w.sent[s.passed]) == Some(p)
    ensures Reached(w, e, Seen(s, p))
  {
    OneMoreChoice(w, e, s, Look);
  }

  lemma PassNext(w: World, e: Expected, s: Situation, d: Bytes)
    requires Reached(w, e, s) && s.passed < s.looked <= |w.sent| && w.sent[s.passed] == d
    ensures Reached(w, e, s.(passed := s.passed + 1, received := s.received + [d]))
  {
    OneMoreChoice(w, e, s, PassOn);
  }

  /** What the client stands at after a datagram that shows no gap. */
  lemma NothingWanted(s: Stand, d: Bytes)
    requires Parse(d).Some? && !StandAfter(s, d).asked
    ensures !s.asked && Wanted(s.expected, Parse(d).value) == []
    ensures StandAfter(s, d).expected == Follow(s.expected, Parse(d).value)
  {
  }

  /** `n` live datagrams were passed on and nothing else, and `e1` is expected next. */
  function Calm(w: World, n: nat, e1: Expected): Situation
    requires n <= |w.sent|
  {
    Situation(n, n, e1, [], [], w.sent[..n])
  }

  lemma CalmAtFirst(w: World, e: Expected)
    ensures Reached(w, e, Calm(w, 0, e))
  {
    FreshIsReached(w, e);
    assert w.sent[..0] == [];
  }

  /** A live datagram without a gap in front of it. */
  lemma CalmLook(w: World, e: Expected, n: nat, e1: Expected, p: Packet, before: seq<Bytes>)
    requires n < |w.sent| && Reached(w, e, Situation(n, n, e1, [], [], before))
    requires Parse(w.sent[n]) == Some(p) && Wanted(e1, p) == []
    ensures Reached(w, e, Situation(n + 1, n, Follow(e1, p), [], [], before))
  {
    var none: seq<Request> := [];
    assert none + none == none;
    LookNext(w, e, Situation(n, n, e1, none, [], before), p);
  }

  lemma CalmPass(w: World, e: Expected, n: nat, e2: Expected, before: seq<Bytes>)
    requires n < |w.sent| && Reached(w, e, Situation(n + 1, n, e2, [], [], before))
    ensures Reached(w, e, Situation(n + 1, n + 1, e2, [], [], before + [w.sent[n]]))
  {
    PassNext(w, e, Situation(n + 1, n, e2, [], [], before), w.sent[n]);
  }

  lemma CalmNext(w: World, e: Expected, n: nat, e1: Expected, p: Packet)
    requires n < |w.sent| && Reached(w, e, Calm(w, n, e1))
    requires Parse(w.sent[n]) == Some(p) && Wanted(e1, p) == []
    ensures Reached(w, e, Calm(w, n + 1, Follow(e1, p)))
  {
    CalmLook(w, e, n, e1, p, w.sent[..n]);
    CalmPass(w, e, n, Follow(e1, p), w.sent[..n]);
    TakeNext(w.sent, n);
  }

  lemma TakeNext<T>(s: seq<T>, n: nat)
    requires n < |s|
    ensures s[..n + 1] == s[..n] + [s[n]]
  {
  }

  ghost predicate AllParsed(sent: seq<Bytes>) {
    forall i :: 0 <= i < |sent| ==> Parse(sent[i]).Some?
  }

  /** As long as there was no gap, the first `n` datagrams can be passed on without ado. */
  lemma {:induction false} FirstArePassedOn(w: World, e: Expected, n: nat)
    requires n <= |w.sent| && !StandAll(Stand(e, false), w.sent[..n]).asked && AllParsed(w.sent)
    ensures Reached(w, e, Calm(w, n, StandAll(Stand(e, false), w.sent[..n]).expected))
  {
    if n == 0 {
      CalmAtFirst(w, e);
      assert w.sent[..0] == [];
    } else {
      var m := n - 1;
      var st := StandAll(Stand(e, false), w.sent[..m]);
      StandNext(Stand(e, false), w.sent, m);
      NothingWanted(st, w.sent[m]);
      FirstArePassedOn(w, e, m);
      CalmNext(w, e, m, st.expected, Parse(w.sent[m]).value);
    }
  }

  /** Live datagrams from the present one on, passed on one by one. */
  lemma {:induction false} RestIsPassedOn(w: World, e: Expected, s: Situation, received: seq<Bytes>)
    requires Reached(w, e, s) && s.passed == s.looked <= |w.sent| && AllParsed(w.sent)
    requires received == s.received + w.sent[s.passed..]
    ensures Possible(w, e, received)
    decreases |w.sent| - s.passed
  {
    if s.passed == |w.sent| {
      assert received == s.received;
    } else {
      var d, p := w.sent[s.passed], Parse(w.sent[s.passed]).value;
      LookNext(w, e, s, p);
      PassNext(w, e, Seen(s, p), d);
      assert w.sent[s.passed..] == [d] + w.sent[s.passed + 1..];
      Regroup(s.received, [d], w.sent[s.passed + 1..]);
      RestIsPassedOn(w, e, Seen(s, p).(passed := s.passed + 1, received := s.received + [d]), received);
    }
  }

  /** The first datagram that shows a gap. */
  lemma {:induction false} FirstGap(s: Stand, sent: seq<Bytes>) returns (n: nat)
    requires !s.asked && StandAll(s, sent).asked
    ensures n < |sent| && !StandAll(s, sent[..n]).asked && StandAll(s, sent[..n + 1]).asked
    decreases |sent|
  {
    var m := |sent| - 1;
    if StandAll(s, sent[..m]).asked {
      n := FirstGap(s, sent[..m]);
      assert sent[..m][..n] == sent[..n] && sent[..m][..n + 1] == sent[..n + 1];
    } else {
      n := m;
      assert sent[..n + 1] == sent;
    }
  }

  lemma AnswerFirst(w: World, e: Expected, s: Situation, r: Request)
    requires Reached(w, e, s) && s.pending == [r] && CanAnswer(w, r)
    ensures Reached(w, e, s.(pending := [], inFlight := s.inFlight + AnswerTo(w, r)))
  {
    OneMoreChoice(w, e, s, Answer(0));
    assert Without(s.pending, 0) == [];
  }

  lemma ArriveFirst(w: World, e: Expected, s: Situation, d: Bytes, rest: seq<Bytes>)
    requires Reached(w, e, s) && s.inFlight == [d] + rest
    ensures Reached(w, e, s.(inFlight := rest, received := s.received + [d]))
  {
    OneMoreChoice(w, e, s, Arrive(0));
    assert Without(s.inFlight, 0) == rest;
  }

  /** Everything in flight reaches the consumer, in order. */
  lemma {:induction false} AllArrive(w: World, e: Expected, s: Situation, s': Situation)
    requires Reached(w, e, s) && s' == s.(inFlight := [], received := s.received + s.inFlight)
    ensures Reached(w, e, s')
    decreases |s.inFlight|
  {
    if s.inFlight == [] {
      assert s.received + s.inFlight == s.received;
    } else {
      var d, rest := s.inFlight[0], s.inFlight[1..];
      assert s.inFlight == [d] + rest;
      ArriveFirst(w, e, s, d, rest);
      Regroup(s.received, [d], rest);
      AllArrive(w, e, s.(inFlight := rest, received := s.received + [d]), s');
    }
  }

  /** A datagram that provokes a re-request, which is answered at once. */
  lemma AnswerArrives(w: World, e: Expected, n: nat, e1: Expected, p: Packet, r: Request)
    requires n < |w.sent| && Reached(w, e, Calm(w, n, e1))
    requires Parse(w.sent[n]) == Some(p) && Wanted(e1, p) == [r] && CanAnswer(w, r)
    ensures Reached(w, e, Situation(n + 1, n, Follow(e1, p), [], [], w.sent[..n] + AnswerTo(w, r)))
  {
    var e2, before, replies := Follow(e1, p), w.sent[..n], AnswerTo(w, r);
    LookNext(w, e, Calm(w, n, e1), p);
    var s1 := Situation(n + 1, n, e2, [r], [], before);
    assert Seen(Calm(w, n, e1), p) == s1;
    AnswerFirst(w, e, s1, r);
    assert [] + replies == replies;
    AllArrive(w, e, Situation(n + 1, n, e2, [], replies, before), Situation(n + 1, n, e2, [], [], before + replies));
  }

  /** The datagram that was looked at last, and all others behind it. */
  lemma RestFollows(w: World, e: Expected, n: nat, e2: Expected, before: seq<Bytes>)
    requires n < |w.sent| && AllParsed(w.sent) && Reached(w, e, Situation(n + 1, n, e2, [], [], before))
    ensures Possible(w, e, before + w.sent[n..])
  {
    var d := w.sent[n];
    PassNext(w, e, Situation(n + 1, n, e2, [], [], before), d);
    assert w.sent[n..] == [d] + w.sent[n + 1..];
    Regroup(before, [d], w.sent[n + 1..]);
    RestIsPassedOn(w, e, Situation(n + 1, n + 1, e2, [], [], before + [d]), before + w.sent[n..]);
  }

  /** The answer to the first re-request can reach the consumer just before the datagram that provoked it. */
  lemma AnswerLands(w: World, e: Expected, n: nat, e1: Expected, p: Packet, r: Request)
    requires n < |w.sent| && AllParsed(w.sent) && Reached(w, e, Calm(w, n, e1))
    requires Parse(w.sent[n]) == Some(p) && Wanted(e1, p) == [r] && CanAnswer(w, r)
    ensures Possible(w, e, w.sent[..n] + AnswerTo(w, r) + w.sent[n..])
  {
    AnswerArrives(w, e, n, e1, p, r);
    RestFollows(w, e, n, Follow(e1, p), w.sent[..n] + AnswerTo(w, r));
  }

  lemma AnswerAdds(a: seq<Bytes>, replies: seq<Bytes>, b: seq<Bytes>)
    requires AllData(a) && AllData(replies)
    ensures Consumed(a + b) == Consumed(a) + Consumed(b)
    ensures Consumed(a + replies + b) == Consumed(a) + Consumed(replies) + Consumed(b)
  {
    MoreData(a, b);
    MoreData(a, replies);
    MoreData(a + replies, b);
  }

  /** What lands among other data is consumed on top of it. */
  lemma AnswerDoubles(a: seq<Bytes>, replies: seq<Bytes>, b: seq<Bytes>)
    requires AllData(a) && AllData(replies)
    ensures Consumed(a + replies + b) == Consumed(a + b) <==> Consumed(replies) == []
  {
    AnswerAdds(a, replies, b);
    InsertedIff(Consumed(a), Consumed(replies), Consumed(b));
  }

  lemma AnswerDiffers(sent: seq<Bytes>, n: nat, replies: seq<Bytes>)
    requires n <= |sent| && AllData(sent[..n]) && AllData(replies) && Consumed(replies) != []
    ensures Consumed(sent[..n] + replies + sent[n..]) != Consumed(sent)
  {
    AnswerDoubles(sent[..n], replies, sent[n..]);
    assert sent[..n] + sent[n..] == sent;
  }

  lemma InsertedIff<T>(a: seq<T>, more: seq<T>, b: seq<T>)
    ensures a + more + b == a + b <==> more == []
  {
    if more == [] {
      assert a + more == a;
    } else {
      assert |a + more + b| != |a + b|;
    }
  }

  // ---- A server's log of exact bodies ----

  /** The responder can answer any re-request, from a log of exact bodies. */
  ghost predicate Answerable(w: World, first: nat, next: u64) {
    |w.session| == 10 && Recorded(w.log, first, next) && w.limit < SHORTEST_BODY * 0xFFFF
  }

  lemma AnyAnswerIsBuildable(w: World, first: nat, next: u64, r: Request)
    requires Answerable(w, first, next) && |r.session| == 10
    ensures CanAnswer(w, r)
  {
    RequestIsRead(r);
    SelectionIsExact(w.log, first, next, r.seqNum, r.msgCount);
    ExactChunksAreDeliverable(Selected(w.session, w.log, RequestBytes(r)), w.limit);
  }

  /** An answer to a re-request for logged numbers is data, and hands over all it selects. */
  lemma AnswerIsConsumed(w: World, first: nat, next: u64, r: Request)
    requires Answerable(w, first, next)
    requires r.session == w.session && first <= r.seqNum < next && 0 < r.msgCount
    ensures CanAnswer(w, r) && AllData(AnswerTo(w, r)) && Consumed(AnswerTo(w, r)) != []
    ensures Consumed(AnswerTo(w, r)) == Contiguous(w.log, r.seqNum, r.msgCount)
  {
    RequestIsRead(r);
    SelectionIsExact(w.log, first, next, r.seqNum, r.msgCount);
    PacketsAreConsumed(w.session, r.seqNum, Contiguous(w.log, r.seqNum, r.msgCount), w.limit);
  }

  /** The client expects no number of the session below `first`. */
  ghost predicate Above(session: Bytes, first: nat, e: Expected) {
    e.session == Some(session) && e.seqNum.Some? ==> first <= e.seqNum.value
  }

  lemma {:induction false} StaysAbove(s: Stand, session: Bytes, first: nat, next: u64, sent: seq<Bytes>, n: nat)
    requires Above(session, first, s.expected) && AllStamped(session, first, next, sent) && n <= |sent|
    ensures Above(session, first, StandAll(s, sent[..n]).expected)
  {
    if 0 < n {
      StaysAbove(s, session, first, next, sent, n - 1);
      StandNext(s, sent, n - 1);
      assert Stamped(session, first, next, sent[n - 1]);
    }
  }

  /** Everything a server sent of one session: data, and then the end of it. */
  ghost predicate WellSent(w: World, first: nat, next: u64, data: seq<Bytes>) {
    && Answerable(w, first, next) && AllData(data) && AllStamped(w.session, first, next, data)
    && w.sent == data + [Header(w.session, next, END_OF_SESSION)]
  }

  lemma SentIsParsed(w: World, first: nat, next: u64, data: seq<Bytes>)
    requires WellSent(w, first, next, data)
    ensures AllParsed(w.sent)
    ensures forall i :: 0 <= i < |w.sent| ==>
              Parse(w.sent[i]).Some? && Parse(w.sent[i]).value.session == w.session
              && first <= Parse(w.sent[i]).value.seqNum <= next
  {
    var end := Header(w.session, next, END_OF_SESSION);
    SpecialParses(w.session, next, END_OF_SESSION);
    forall i | 0 <= i < |w.sent|
      ensures Parse(w.sent[i]).Some? && Parse(w.sent[i]).value.session == w.session
              && first <= Parse(w.sent[i]).value.seqNum <= next
    {
      if i < |data| { assert Stamped(w.session, first, next, data[i]); }
    }
  }

  lemma PrefixIsData(data: seq<Bytes>, n: nat)
    requires AllData(data) && n <= |data|
    ensures AllData(data[..n])
  {
    assert forall k :: 0 <= k < n ==> data[..n][k] == data[k];
  }

  /** A gap makes the client ask for logged numbers. */
  lemma GapIsLogged(session: Bytes, first: nat, next: nat, e1: Expected, p: Packet) returns (r: Request)
    requires Above(session, first, e1) && p.session == session && p.seqNum <= next && Gap(e1, p) > 0
    ensures Wanted(e1, p) == [r] && r.session == session && first <= r.seqNum < next && 0 < r.msgCount
  {
    r := Missing(e1, p).value;
  }

  /** The first gap: what was passed on before it, and the re-request it leads to. */
  lemma GapIsReached(w: World, e: Expected, first: nat, next: u64, data: seq<Bytes>)
    returns (n: nat, e1: Expected, r: Request)
    requires WellSent(w, first, next, data) && Above(w.session, first, e)
    requires StandAll(Stand(e, false), w.sent).asked
    ensures n <= |data| && w.sent[..n] == data[..n] && AllParsed(w.sent)
    ensures Reached(w, e, Calm(w, n, e1)) && Wanted(e1, Parse(w.sent[n]).value) == [r]
    ensures r.session == w.session && first <= r.seqNum < next && 0 < r.msgCount
  {
    n := FirstGap(Stand(e, false), w.sent);
    SentIsParsed(w, first, next, data);
    StandNext(Stand(e, false), w.sent, n);
    e1 := StandAll(Stand(e, false), w.sent[..n]).expected;
    assert w.sent[..n] == data[..n];
    StaysAbove(Stand(e, false), w.session, first, next, data, n);
    FirstArePassedOn(w, e, n);
    r := GapIsLogged(w.session, first, next, e1, Parse(w.sent[n]).value);
  }

  /** What that answer holds is then consumed twice. */
  lemma AnswerIsExtra(w: World, e: Expected, n: nat, e1: Expected, p: Packet, r: Request)
    requires n < |w.sent| && AllParsed(w.sent) && Reached(w, e, Calm(w, n, e1))
    requires Parse(w.sent[n]) == Some(p) && Wanted(e1, p) == [r] && CanAnswer(w, r)
    requires AllData(w.sent[..n]) && AllData(AnswerTo(w, r)) && Consumed(AnswerTo(w, r)) != []
    ensures var received := w.sent[..n] + AnswerTo(w, r) + w.sent[n..];
            Possible(w, e, received) && Consumed(received) != Consumed(w.sent)
  {
    AnswerLands(w, e, n, e1, p, r);
    AnswerDiffers(w.sent, n, AnswerTo(w, r));
  }

  /** A gap leads to a delivery that hands over some bodies twice. */
  lemma GapIsHarmful(w: World, e: Expected, first: nat, next: u64, data: seq<Bytes>) returns (received: seq<Bytes>)
    requires WellSent(w, first, next, data) && Above(w.session, first, e)
    requires StandAll(Stand(e, false), w.sent).asked
    ensures Possible(w, e, received) && Consumed(received) != Consumed(w.sent)
  {
    var n, e1, r := GapIsReached(w, e, first, next, data);
    AnswerIsConsumed(w, first, next, r);
    PrefixIsData(data, n);
    AnswerIsExtra(w, e, n, e1, Parse(w.sent[n]).value, r);
    received := w.sent[..n] + AnswerTo(w, r) + w.sent[n..];
  }

  /** Whatever happens to the answers, the consumer's handler is called with `msgs`. */
  ghost predicate AlwaysConsumed(w: World, e: Expected, msgs: seq<Bytes>) {
    forall received :: Possible(w, e, received) ==> Consumed(received) == msgs
  }

  /** The answers make no difference exactly when the client never sees a gap. */
  lemma HarmlessIff(w: World, e: Expected, first: nat, next: u64, data: seq<Bytes>)
    requires WellSent(w, first, next, data) && Above(w.session, first, e)
    ensures AlwaysConsumed(w, e, Consumed(w.sent)) <==> !StandAll(Stand(e, false), w.sent).asked
  {
    if StandAll(Stand(e, false), w.sent).asked {
      var received := GapIsHarmful(w, e, first, next, data);
    } else {
      forall received | Possible(w, e, received) ensures Consumed(received) == Consumed(w.sent) {
        QuietDelivery(w, e, received);
      }
    }
  }

  /** When all answers are lost, the consumer receives what was sent. */
  lemma WithoutAnswers(w: World, e: Expected, first: nat, next: u64, data: seq<Bytes>)
    requires WellSent(w, first, next, data)
    ensures Possible(w, e, w.sent)
  {
    SentIsParsed(w, first, next, data);
    FreshIsReached(w, e);
    assert [] + w.sent[0..] == w.sent;
    RestIsPassedOn(w, e, Fresh(e), w.sent);
  }
}
