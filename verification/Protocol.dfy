/** The server and one client joined by a network that loses, repeats and reorders live packets. */
module Protocol {
  import opened Widths
  import opened Wrappers
  import opened Packet
  import opened Chunking
  import opened Server
  import opened ServerLaws
  import opened Learning
  import opened Client

  /** `live` are all datagrams ever broadcast: any of them may arrive at any time, any number of times,
      or never.  `pending` are the re-requests not yet answered, `lost` the numbers of the first session in
      those that never will be.  `got` is what the consumer knows, put together from the headers and blocks
      of the packets it was handed. */
  datatype System = System(
    sender: Sender, expected: Expected, tally: Tally,
    live: seq<Bytes>, pending: seq<Request>, lost: set<nat>, got: map<nat, Bytes>)

  /** What is fixed: the session that server and responder start with, the first sequence number, and the
      payload limit. */
  datatype Setting = Setting(home: Bytes, first: nat, limit: nat)

  datatype Move =
    | Command(input: Input)
    | Deliver(i: nat, requestRoom: bool, channelRoom: bool)
    | Answer(j: nat)
    | Lose(j: nat)

  /** A list that goes out as one packet which is not taken for the end of the session. */
  ghost predicate OnePacket(msgs: seq<Bytes>, limit: nat) {
    (|msgs| <= 1 || Total(msgs) <= limit) && |msgs| < 0xFFFF && Framable(msgs)
  }

  /** The moves considered: whatever the server sends or retransmits at a time fits one packet, which by
      `LastMessageLearntIff` is exactly when its last message arrives under its own number.  `Lose` is a
      re-request that is given up or lost, or whose answer is lost or finds no room. */
  ghost predicate Enabled(w: Setting, s: System, m: Move) {
    match m
    case Command(input) =>
      && Accepts(s.sender, input, w.limit) && s.sender.nextSeq + Numbered(input) <= U64_MAX
      && (input.Cmd? && input.cmd.Send? ==> OnePacket(input.cmd.msgs, w.limit))
    case Deliver(i, requestRoom, channelRoom) =>
      && i < |s.live| && Parse(s.live[i]).Some?
      && Parse(s.live[i]).value.seqNum + Parse(s.live[i]).value.msgCount <= U64_MAX
    case Answer(j) =>
      && j < |s.pending| && |w.home| == 10
      && OnePacket(Selected(w.home, s.sender.log, RequestBytes(s.pending[j])), w.limit)
      && Buildable(Chunks(Selected(w.home, s.sender.log, RequestBytes(s.pending[j])), w.limit))
    case Lose(j) => j < |s.pending|
  }

  /** The numbers of the first session that a re-request asks for. */
  function AskedFor(home: Bytes, r: Request): set<nat> {
    if r.session == home then Range(r.seqNum, r.seqNum + r.msgCount) else {}
  }

  ghost function Next(w: Setting, s: System, m: Move): System
    requires Enabled(w, s, m)
  {
    match m
    case Command(input) =>
      var (sender, out) := Step(s.sender, input, w.limit);
      s.(sender := sender, live := s.live + out)
    case Deliver(i, requestRoom, channelRoom) =>
      var p := Parse(s.live[i]).value;
      var a := Arrival(s.live[i], p, requestRoom, channelRoom);
      s.(expected := Follow(s.expected, p),
         tally := Count(w.home, s.expected, s.tally, a),
         pending := s.pending + Accepted(s.expected, a),
         got := if channelRoom then LearnPacket(s.got, p) else s.got)
    case Answer(j) =>
      var replies := Replies(w.home, s.sender.log, RequestBytes(s.pending[j]), w.limit);
      s.(pending := s.pending[..j] + s.pending[j + 1..], got := LearnAll(s.got, replies))
    case Lose(j) =>
      s.(pending := s.pending[..j] + s.pending[j + 1..], lost := s.lost + AskedFor(w.home, s.pending[j]))
  }

  ghost predicate Possible(w: Setting, s: System, moves: seq<Move>)
    decreases |moves|, 0
  {
    moves == [] || (
      && Possible(w, s, moves[..|moves| - 1])
      && Enabled(w, Play(w, s, moves[..|moves| - 1]), moves[|moves| - 1]))
  }

  ghost function Play(w: Setting, s: System, moves: seq<Move>): System
    requires Possible(w, s, moves)
    decreases |moves|, 1
  {
    if moves == [] then s else Next(w, Play(w, s, moves[..|moves| - 1]), moves[|moves| - 1])
  }

  // ---- The two ends of the system ----

  /** What the sender was given in a run. */
  function InputsOf(moves: seq<Move>): seq<Input> {
    if moves == [] then []
    else
      var last := moves[|moves| - 1];
      InputsOf(moves[..|moves| - 1]) + (if last.Command? then [last.input] else [])
  }

  /** The sender is where `inputs` lead it, and what it broadcast on the way is under way. */
  ghost predicate SenderAt(s0: Sender, live0: seq<Bytes>, inputs: seq<Input>, limit: nat, s: Sender, live: seq<Bytes>) {
    && AcceptsAll(s0, inputs, |inputs|, limit) && s == Run(s0, inputs, |inputs|, limit)
    && live == live0 + Sent(s0, inputs, |inputs|, limit)
  }

  /** The sender of the system is a sender on its own, and everything it broadcasts is under way. */
  lemma {:induction false} SystemRunsSender(w: Setting, s: System, moves: seq<Move>)
    requires |s.sender.session| == 10 && Possible(w, s, moves)
    ensures SenderAt(s.sender, s.live, InputsOf(moves), w.limit, Play(w, s, moves).sender, Play(w, s, moves).live)
  {
    if moves == [] {
      assert s.live + [] == s.live;
    } else {
      var n := |moves| - 1;
      var s1 := Play(w, s, moves[..n]);
      SystemRunsSender(w, s, moves[..n]);
      MoveRunsSender(w, s1, moves[n]);
      if moves[n].Command? {
        OneMoreInput(s.sender, s.live, InputsOf(moves[..n]), moves[n].input, w.limit, s1.sender, s1.live);
      } else {
        assert InputsOf(moves[..n]) + [] == InputsOf(moves[..n]);
      }
    }
  }

  lemma MoveRunsSender(w: Setting, s: System, m: Move)
    requires Enabled(w, s, m)
    ensures if m.Command? then
              var (sender, out) := Step(s.sender, m.input, w.limit);
              Next(w, s, m).sender == sender && Next(w, s, m).live == s.live + out
            else Next(w, s, m).sender == s.sender && Next(w, s, m).live == s.live
  {
  }

  lemma OneMoreInput(s0: Sender, live0: seq<Bytes>, inputs: seq<Input>, input: Input, limit: nat,
                     s: Sender, live: seq<Bytes>)
    requires SenderAt(s0, live0, inputs, limit, s, live) && Accepts(s, input, limit)
    ensures var (s', out) := Step(s, input, limit); SenderAt(s0, live0, inputs + [input], limit, s', live + out)
  {
    var more, sent := inputs + [input], Sent(s0, inputs, |inputs|, limit);
    SameInputs(s0, inputs, more, |inputs|, limit);
    assert more[|inputs|] == input;
    Regroup(live0, sent, Step(s, input, limit).1);
  }

  lemma {:induction false} SameInputs(s: Sender, inputs: seq<Input>, more: seq<Input>, n: nat, limit: nat)
    requires n <= |inputs| <= |more| && forall i :: 0 <= i < n ==> more[i] == inputs[i]
    requires AcceptsAll(s, inputs, n, limit)
    ensures AcceptsAll(s, more, n, limit) && Run(s, more, n, limit) == Run(s, inputs, n, limit)
    ensures Sent(s, more, n, limit) == Sent(s, inputs, n, limit)
  {
    if 0 < n { SameInputs(s, inputs, more, n - 1, limit); }
  }

  ghost function Arrived(s: System, i: nat, requestRoom: bool, channelRoom: bool): Arrival
    requires i < |s.live| && Parse(s.live[i]).Some?
  {
    Arrival(s.live[i], Parse(s.live[i]).value, requestRoom, channelRoom)
  }

  /** What reached the client in a run. */
  ghost function ArrivalsOf(w: Setting, s: System, moves: seq<Move>): seq<Arrival>
    requires Possible(w, s, moves)
  {
    if moves == [] then []
    else
      var n := |moves| - 1;
      var s1 := Play(w, s, moves[..n]);
      ArrivalsOf(w, s, moves[..n]) +
      (match moves[n]
       case Deliver(i, requestRoom, channelRoom) => [Arrived(s1, i, requestRoom, channelRoom)]
       case _ => [])
  }

  /** And the client of the system is a client on its own, in what it expects and in what it moved past. */
  lemma {:induction false} SystemRunsClient(w: Setting, s: System, moves: seq<Move>)
    requires Possible(w, s, moves)
    ensures var s', arrivals := Play(w, s, moves), ArrivalsOf(w, s, moves);
            && s'.expected == FollowAll(s.expected, arrivals)
            && s'.tally == CountAll(w.home, s.expected, s.tally, arrivals)
  {
    if moves != [] {
      var n := |moves| - 1;
      var before := ArrivalsOf(w, s, moves[..n]);
      SystemRunsClient(w, s, moves[..n]);
      if moves[n].Deliver? {
        var all := ArrivalsOf(w, s, moves);
        assert all[..|before|] == before;
      } else {
        assert before + [] == before;
      }
    }
  }

  // ---- The invariant ----

  /** A datagram says nothing but what the log says. */
  ghost predicate Truthful(w: Setting, log: Log, next: nat, d: Bytes) {
    && Parse(d).Some?
    && var p := Parse(d).value;
    && |p.session| == 10 && w.first <= p.seqNum <= next
    && (p.Kind() == Standard ==> |Blocks(p.messages, p.Advertised())| == p.msgCount && p.seqNum + p.msgCount <= next)
    && Agrees(log, p.seqNum, Blocks(p.messages, p.Advertised()))
  }

  ghost predicate Agrees(log: Log, start: nat, msgs: seq<Bytes>) {
    forall i: nat :: i < |msgs| ==> LoggedAt(log, start + i, msgs[i])
  }

  ghost predicate LoggedAt(log: Log, n: nat, msg: Bytes) {
    n in log && log[n] == msg
  }

  /** A re-request for the session the responder knows asks for nothing the log does not have. */
  ghost predicate Answerable(w: Setting, next: nat, r: Request) {
    && |r.session| == 10
    && (r.session == w.home ==> 0 < r.msgCount && w.first <= r.seqNum && r.seqNum + r.msgCount <= next)
  }

  ghost predicate Awaited(home: Bytes, pending: seq<Request>, n: nat) {
    exists r :: r in pending && r.session == home && r.seqNum <= n < r.seqNum + r.msgCount
  }

  ghost predicate Inv(w: Setting, s: System) {
    && |w.home| == |s.sender.session| == 10
    && Dense(s.sender.log, w.first, s.sender.nextSeq)
    && (forall d :: d in s.live ==> Truthful(w, s.sender.log, s.sender.nextSeq, d))
    && (forall r :: r in s.pending ==> Answerable(w, s.sender.nextSeq, r))
    && (s.expected.session == Some(w.home) && s.expected.seqNum.Some? ==> w.first <= s.expected.seqNum.value)
    && Covered(w.home, s.expected, s.tally)
    && (forall n :: n in s.got ==> n in s.sender.log && s.got[n] == s.sender.log[n])
    && Kept(w, s.tally, s.pending, s.lost, s.got)
  }

  /** What was heard is known, and what was asked for is known, still awaited, or lost. */
  ghost predicate Kept(w: Setting, t: Tally, pending: seq<Request>, lost: set<nat>, got: map<nat, Bytes>) {
    t.Tally? ==>
      && (forall n :: n in t.received ==> n in got)
      && (forall n :: n in t.requested ==> n in got || n in lost || Awaited(w.home, pending, n))
  }

  // ---- Learning ----

  /** Learning from a list that agrees with the log keeps all knowledge true. */
  lemma LearnStaysTrue(log: Log, got: map<nat, Bytes>, start: nat, msgs: seq<Bytes>)
    requires Agrees(log, start, msgs)
    requires forall n :: n in got ==> n in log && got[n] == log[n]
    ensures var got' := Learn(got, start, msgs);
            && (forall n :: n in got' ==> n in log && got'[n] == log[n])
            && (forall n :: n in got || start <= n < start + |msgs| ==> n in got')
  {
    LearnAt(got, start, msgs);
    var got' := Learn(got, start, msgs);
    forall n | n in got' ensures n in log && got'[n] == log[n] {
      if start <= n < start + |msgs| {
        assert LoggedAt(log, start + (n - start), msgs[n - start]);
      }
    }
  }

  // ---- Commands ----

  lemma TruthfulStays(w: Setting, log: Log, log': Log, next: nat, next': nat, d: Bytes)
    requires Truthful(w, log, next, d) && Extends(log, log') && next <= next'
    ensures Truthful(w, log', next', d)
  {
    if Parse(d).Some? {
      var p := Parse(d).value;
      AgreesStays(log, log', p.seqNum, Blocks(p.messages, p.Advertised()));
    }
  }

  lemma AgreesStays(log: Log, log': Log, start: nat, msgs: seq<Bytes>)
    requires Extends(log, log')
    ensures Agrees(log, start, msgs) ==> Agrees(log', start, msgs)
  {
    if Agrees(log, start, msgs) {
      forall i: nat | i < |msgs| ensures LoggedAt(log', start + i, msgs[i]) {
        assert LoggedAt(log, start + i, msgs[i]);
      }
    }
  }

  lemma SpecialIsTruthful(w: Setting, log: Log, session: Bytes, next: u64, count: u16)
    requires |session| == 10 && w.first <= next && (count == HEARTBEAT || count == END_OF_SESSION)
    ensures Truthful(w, log, next, Header(session, next, count))
  {
    SpecialParses(session, next, count);
  }

  lemma OnePacketIsOneChunk(session: Bytes, seqNum: u64, msgs: seq<Bytes>, limit: nat)
    requires |session| == 10 && OnePacket(msgs, limit) && Buildable(Chunks(msgs, limit))
    ensures Packets(session, seqNum, Chunks(msgs, limit)) ==
            if msgs == [] then [] else [PacketBytes(session, seqNum, msgs)]
  {
    if msgs != [] {
      OneChunkIff(msgs, limit);
      PacketsPerChunk(session, seqNum, [msgs]);
      var pkts := Packets(session, seqNum, [msgs]);
      assert pkts == [pkts[0]];
    }
  }

  lemma DataIsTruthful(w: Setting, log: Log, session: Bytes, next: u64, seqNum: u64, msgs: seq<Bytes>)
    requires |session| == 10 && |msgs| < 0xFFFF && Framable(msgs)
    requires w.first <= seqNum && seqNum + |msgs| <= next && Agrees(log, seqNum, msgs)
    ensures Truthful(w, log, next, PacketBytes(session, seqNum, msgs))
  {
    PacketRoundTrip(session, seqNum, msgs);
  }

  lemma StoredAgrees(log: Log, start: u64, msgs: seq<Bytes>)
    requires start + |msgs| <= U64_MAX
    ensures Agrees(Stored(log, start, msgs), start, msgs)
  {
    StoredAt(log, start, msgs);
    var log' := Stored(log, start, msgs);
    forall i: nat | i < |msgs| ensures LoggedAt(log', start + i, msgs[i]) {
      var n: u64 := start + i;
      assert log'[n] == msgs[n - start];
    }
  }

  ghost predicate AllTruthful(w: Setting, log: Log, next: nat, out: seq<Bytes>) {
    forall d :: d in out ==> Truthful(w, log, next, d)
  }

  lemma OneIsTruthful(w: Setting, log: Log, next: nat, d: Bytes, out: seq<Bytes>)
    requires Truthful(w, log, next, d) && (out == [] || out == [d])
    ensures AllTruthful(w, log, next, out)
  {
  }

  lemma SendIsTruthful(w: Setting, log: Log, session: Bytes, start: u64, msgs: seq<Bytes>, next: u64)
    requires |session| == 10 && w.first <= start && start + |msgs| == next
    requires OnePacket(msgs, w.limit) && Buildable(Chunks(msgs, w.limit)) && Agrees(log, start, msgs)
    ensures AllTruthful(w, log, next, Packets(session, start, Chunks(msgs, w.limit)))
  {
    OnePacketIsOneChunk(session, start, msgs, w.limit);
    DataIsTruthful(w, log, session, next, start, msgs);
    OneIsTruthful(w, log, next, PacketBytes(session, start, msgs), Packets(session, start, Chunks(msgs, w.limit)));
  }

  lemma CommandIsTruthful(w: Setting, s: Sender, input: Input)
    requires Accepts(s, input, w.limit) && s.nextSeq + Numbered(input) <= U64_MAX && w.first <= s.nextSeq
    requires input.Cmd? && input.cmd.Send? ==> OnePacket(input.cmd.msgs, w.limit)
    ensures var (s', out) := Step(s, input, w.limit); AllTruthful(w, s'.log, s'.nextSeq, out)
  {
    var (s', out) := Step(s, input, w.limit);
    if input.Cmd? && input.cmd.Send? && !s.stopped {
      StoredAgrees(s.log, s.nextSeq, input.cmd.msgs);
      SendIsTruthful(w, s'.log, s.session, s.nextSeq, input.cmd.msgs, s'.nextSeq);
    } else {
      SpecialIsTruthful(w, s.log, s.session, s.nextSeq, HEARTBEAT);
      SpecialIsTruthful(w, s.log, s.session, s.nextSeq, END_OF_SESSION);
    }
  }

  lemma CommandKeepsInv(w: Setting, s: System, input: Input)
    requires Inv(w, s) && Enabled(w, s, Command(input))
    ensures Inv(w, Next(w, s, Command(input)))
  {
    var (sender, out) := Step(s.sender, input, w.limit);
    StepKeepsLog(s.sender, input, w.limit, w.first);
    CommandIsTruthful(w, s.sender, input);
    forall d | d in s.live + out ensures Truthful(w, sender.log, sender.nextSeq, d) {
      if d in s.live {
        TruthfulStays(w, s.sender.log, sender.log, s.sender.nextSeq, sender.nextSeq, d);
      } else {
        assert d in out;
      }
    }
  }

  // ---- Deliveries ----

  lemma DeliveryIsLearnt(w: Setting, s: System, i: nat, requestRoom: bool, channelRoom: bool)
    requires Inv(w, s) && Enabled(w, s, Deliver(i, requestRoom, channelRoom))
    ensures var s' := Next(w, s, Deliver(i, requestRoom, channelRoom));
            && (forall n :: n in s'.got ==> n in s.sender.log && s'.got[n] == s.sender.log[n])
            && (forall n :: n in s.got ==> n in s'.got)
            && (forall n :: n in Heard(Arrived(s, i, requestRoom, channelRoom)) ==> n in s'.got)
  {
    assert Truthful(w, s.sender.log, s.sender.nextSeq, s.live[i]);
    var p := Parse(s.live[i]).value;
    LearnStaysTrue(s.sender.log, s.got, p.seqNum, Blocks(p.messages, p.Advertised()));
  }

  lemma DeliveryIsAnswerable(w: Setting, s: System, i: nat, requestRoom: bool, channelRoom: bool)
    requires Inv(w, s) && Enabled(w, s, Deliver(i, requestRoom, channelRoom))
    ensures forall r :: r in Accepted(s.expected, Arrived(s, i, requestRoom, channelRoom)) ==>
              Answerable(w, s.sender.nextSeq, r)
  {
    assert Truthful(w, s.sender.log, s.sender.nextSeq, s.live[i]);
  }

  lemma CountKeepsKept(w: Setting, e: Expected, t: Tally, a: Arrival, pending: seq<Request>, lost: set<nat>,
                       got: map<nat, Bytes>, got': map<nat, Bytes>)
    requires Kept(w, t, pending, lost, got)
    requires (forall n :: n in got ==> n in got') && (forall n :: n in Heard(a) ==> n in got')
    ensures Kept(w, Count(w.home, e, t, a), pending + Accepted(e, a), lost, got')
  {
    var t' := Count(w.home, e, t, a);
    if t'.Tally? {
      forall n | n in t'.requested ensures n in got' || n in lost || Awaited(w.home, pending + Accepted(e, a), n) {
        if a.packet.session == w.home && n in Asked(e, a) {
          assert Accepted(e, a)[0] in pending + Accepted(e, a);
        } else if n !in got && n !in lost {
          AwaitedStays(w.home, pending, Accepted(e, a), n);
        }
      }
    }
  }

  lemma DeliverKeepsInv(w: Setting, s: System, i: nat, requestRoom: bool, channelRoom: bool)
    requires Inv(w, s) && Enabled(w, s, Deliver(i, requestRoom, channelRoom))
    ensures Inv(w, Next(w, s, Deliver(i, requestRoom, channelRoom)))
  {
    var a := Arrived(s, i, requestRoom, channelRoom);
    var s' := Next(w, s, Deliver(i, requestRoom, channelRoom));
    DeliveryIsLearnt(w, s, i, requestRoom, channelRoom);
    DeliveryIsAnswerable(w, s, i, requestRoom, channelRoom);
    CountKeepsCovered(w.home, s.expected, s.tally, a);
    CountKeepsKept(w, s.expected, s.tally, a, s.pending, s.lost, s.got, s'.got);
    DeliveryStaysAbove(w, s, i, requestRoom, channelRoom);
  }

  lemma DeliveryStaysAbove(w: Setting, s: System, i: nat, requestRoom: bool, channelRoom: bool)
    requires Inv(w, s) && Enabled(w, s, Deliver(i, requestRoom, channelRoom))
    ensures w.first <= Follow(s.expected, Parse(s.live[i]).value).seqNum.value
  {
    assert Truthful(w, s.sender.log, s.sender.nextSeq, s.live[i]);
  }

  lemma AwaitedStays(home: Bytes, pending: seq<Request>, more: seq<Request>, n: nat)
    requires Awaited(home, pending, n)
    ensures Awaited(home, pending + more, n)
  {
    var r :| r in pending && r.session == home && r.seqNum <= n < r.seqNum + r.msgCount;
    assert r in pending + more;
  }

  // ---- Answers ----

  lemma ReplyIsLearnt(w: Setting, log: Log, r: Request, got: map<nat, Bytes>)
    requires |w.home| == |r.session| == 10
    requires Buildable(Chunks(Selected(w.home, log, RequestBytes(r)), w.limit))
    requires OnePacket(Selected(w.home, log, RequestBytes(r)), w.limit)
    ensures LearnAll(got, Replies(w.home, log, RequestBytes(r), w.limit)) ==
            if r.session == w.home then Learn(got, r.seqNum, Contiguous(log, r.seqNum, r.msgCount)) else got
  {
    RequestIsRead(r);
    OneChunkTeaches(got, w.home, r.seqNum, Selected(w.home, log, RequestBytes(r)), w.limit);
  }

  /** The answer to a re-request tells the truth, and when it is for the session the responder knows, all
      of the range asked for. */
  lemma AnswerIsLearnt(w: Setting, log: Log, next: u64, r: Request, got: map<nat, Bytes>)
    requires |w.home| == 10 && Dense(log, w.first, next) && Answerable(w, next, r)
    requires Buildable(Chunks(Selected(w.home, log, RequestBytes(r)), w.limit))
    requires OnePacket(Selected(w.home, log, RequestBytes(r)), w.limit)
    requires forall n :: n in got ==> n in log && got[n] == log[n]
    ensures var got' := LearnAll(got, Replies(w.home, log, RequestBytes(r), w.limit));
            && (forall n :: n in got' ==> n in log && got'[n] == log[n])
            && (forall n: nat ::
                  n in got || (r.session == w.home && r.seqNum <= n < r.seqNum + r.msgCount) ==> n in got')
  {
    ReplyIsLearnt(w, log, r, got);
    if r.session == w.home {
      var msgs := Contiguous(log, r.seqNum, r.msgCount);
      ContiguousIsRange(log, w.first, next, r.seqNum, r.msgCount);
      forall i: nat | i < |msgs| ensures LoggedAt(log, r.seqNum + i, msgs[i]) { }
      LearnStaysTrue(log, got, r.seqNum, msgs);
    }
  }

  lemma AnswerKeepsInv(w: Setting, s: System, j: nat)
    requires Inv(w, s) && Enabled(w, s, Answer(j))
    ensures Inv(w, Next(w, s, Answer(j)))
  {
    var s' := Next(w, s, Answer(j));
    var r0 := s.pending[j];
    assert r0 in s.pending;
    AnswerIsLearnt(w, s.sender.log, s.sender.nextSeq, r0, s.got);
    if s.tally.Tally? {
      forall n | n in s'.tally.requested ensures n in s'.got || n in s'.lost || Awaited(w.home, s'.pending, n) {
        if n !in s'.got && n !in s'.lost { AwaitedElsewhere(w.home, s.pending, j, n); }
      }
    }
  }

  lemma LoseKeepsInv(w: Setting, s: System, j: nat)
    requires Inv(w, s) && Enabled(w, s, Lose(j))
    ensures Inv(w, Next(w, s, Lose(j)))
  {
    var s' := Next(w, s, Lose(j));
    if s.tally.Tally? {
      forall n | n in s'.tally.requested ensures n in s'.got || n in s'.lost || Awaited(w.home, s'.pending, n) {
        if n !in s'.got && n !in s'.lost { AwaitedElsewhere(w.home, s.pending, j, n); }
      }
    }
  }

  lemma AwaitedElsewhere(home: Bytes, pending: seq<Request>, j: nat, n: nat)
    requires j < |pending| && Awaited(home, pending, n)
    requires !(pending[j].session == home && pending[j].seqNum <= n < pending[j].seqNum + pending[j].msgCount)
    ensures Awaited(home, pending[..j] + pending[j + 1..], n)
  {
    var r :| r in pending && r.session == home && r.seqNum <= n < r.seqNum + r.msgCount;
    var i :| 0 <= i < |pending| && pending[i] == r;
    assert r == (pending[..j] + pending[j + 1..])[if i < j then i else i - 1];
  }

  // ---- Runs ----

  /** A fresh server, and a client that, if it is told of the server's session, is interested in nothing
      before its first message. */
  ghost predicate Initial(w: Setting, s: System) {
    && |w.home| == 10
    && s.sender.session == w.home && s.sender.nextSeq == w.first && s.sender.log == map[]
    && s.live == [] && s.pending == [] && s.lost == {} && s.got == map[]
    && (s.expected.session == Some(w.home) && s.expected.seqNum.Some? ==> w.first <= s.expected.seqNum.value)
    && s.tally == FirstTally(w.home, s.expected)
  }

  lemma {:induction false} RunKeepsInv(w: Setting, s: System, moves: seq<Move>)
    requires Initial(w, s) && Possible(w, s, moves)
    ensures Inv(w, Play(w, s, moves))
  {
    if moves != [] {
      var n := |moves| - 1;
      RunKeepsInv(w, s, moves[..n]);
      var s1 := Play(w, s, moves[..n]);
      match moves[n]
      case Command(input) => CommandKeepsInv(w, s1, input);
      case Deliver(i, requestRoom, channelRoom) => DeliverKeepsInv(w, s1, i, requestRoom, channelRoom);
      case Answer(j) => AnswerKeepsInv(w, s1, j);
      case Lose(j) => LoseKeepsInv(w, s1, j);
    }
  }

  /** No re-request for the server's first session is still open. */
  ghost predicate AllSettled(w: Setting, s: System) {
    forall r :: r in s.pending ==> r.session != w.home
  }

  /** Safety in every reachable state, also across changes of session: the consumer never holds anything
      under a sequence number but the payload the server logged there.  Completeness once every re-request
      is answered or lost: from where its interest starts up to its highest expectation it holds every
      payload, except where the client moved past a number or asked for it in vain. */
  lemma ConsumerHoldsTheLog(w: Setting, s: System, moves: seq<Move>)
    requires Initial(w, s) && Possible(w, s, moves)
    ensures var s' := Play(w, s, moves);
            && (forall n :: n in s'.got ==> n in s'.sender.log && s'.got[n] == s'.sender.log[n])
            && (s'.tally.Tally? && AllSettled(w, s') ==>
                  forall n: nat :: s'.tally.start <= n < s'.tally.high ==>
                    n in s'.got || n in s'.tally.abandoned || n in s'.lost)
  {
    RunKeepsInv(w, s, moves);
    var s' := Play(w, s, moves);
    assert forall n :: AllSettled(w, s') ==> !Awaited(w.home, s'.pending, n);
  }

  /** No delivery of the run makes the client move past a number of the server's first session, and no
      re-request for it is lost. */
  ghost predicate Careful(w: Setting, s: System, moves: seq<Move>)
    requires Possible(w, s, moves)
  {
    moves == [] || (
      var n := |moves| - 1;
      Careful(w, s, moves[..n]) && CarefulMove(w, Play(w, s, moves[..n]), moves[n]))
  }

  ghost predicate CarefulMove(w: Setting, s: System, m: Move)
    requires Enabled(w, s, m)
  {
    match m
    case Deliver(i, requestRoom, channelRoom) =>
      var a := Arrived(s, i, requestRoom, channelRoom);
      a.packet.session == w.home ==> Abandoned(s.expected, s.tally, a) == {}
    case Lose(j) => s.pending[j].session != w.home
    case _ => true
  }

  ghost predicate NothingAbandoned(t: Tally) {
    t.Tally? ==> t.abandoned == {}
  }

  lemma {:induction false} CarefulRunsAbandonNothing(w: Setting, s: System, moves: seq<Move>)
    requires Possible(w, s, moves) && Careful(w, s, moves) && NothingAbandoned(s.tally) && s.lost == {}
    ensures NothingAbandoned(Play(w, s, moves).tally) && Play(w, s, moves).lost == {}
  {
    if moves != [] {
      var n := |moves| - 1;
      CarefulRunsAbandonNothing(w, s, moves[..n]);
      assert CarefulMove(w, Play(w, s, moves[..n]), moves[n]);
    }
  }

  /** Then the consumer ends up with exactly the server's log from its start to its highest expectation. */
  lemma CarefulRunsAreComplete(w: Setting, s: System, moves: seq<Move>)
    requires Initial(w, s) && Possible(w, s, moves) && Careful(w, s, moves)
    requires AllSettled(w, Play(w, s, moves))
    ensures var s' := Play(w, s, moves);
            && (s'.tally.Tally? ==>
                  forall n: nat :: s'.tally.start <= n < s'.tally.high ==>
                    n in s'.got && n in s'.sender.log && s'.got[n] == s'.sender.log[n])
            && (s'.expected.session == Some(w.home) && s'.expected.seqNum.Some? ==>
                  s'.tally.Tally? && s'.expected.seqNum.value <= s'.tally.high)
  {
    CarefulRunsAbandonNothing(w, s, moves);
    ConsumerHoldsTheLog(w, s, moves);
    RunKeepsInv(w, s, moves);
  }
}
