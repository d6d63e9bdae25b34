/** The MoldUDP64 server: a sender that numbers, logs and broadcasts messages, and a responder that
    answers re-requests from the log. */
module Server {
  import opened Widths
  import opened Wrappers
  import opened BigEndian
  import opened Packet
  import opened Chunking

  datatype Command =
    | Send(msgs: seq<Bytes>)
    | SendDropped(msgs: seq<Bytes>)
    | SendHeartbeat
    | SendEndOfSession
    | StopSession
    | ChangeSession(name: Bytes)

  /** What the sender loop wakes up for. */
  datatype Input = Cmd(cmd: Command) | Timeout

  type Log = map<u64, Bytes>

  datatype Sender = Sender(session: Bytes, stopped: bool, nextSeq: u64, log: Log)

  /** Ten bytes: the name cut off or padded with spaces. */
  function PadSession(name: Bytes): (session: Bytes)
    ensures |session| == 10
    ensures forall i :: 0 <= i < 10 ==> session[i] == if i < |name| then name[i] else 0x20
  {
    var n := if |name| < 10 then |name| else 10;
    name[..n] + seq(10 - n, _ => 0x20)
  }

  /** `log` with `msgs` under consecutive numbers from `start`. */
  function Stored(log: Log, start: u64, msgs: seq<Bytes>): Log {
    if msgs == [] then log
    else Stored(log, start, msgs[..|msgs| - 1])[Wrap64(start + |msgs| - 1) := msgs[|msgs| - 1]]
  }

  /** Every chunk can be built into a packet: the counts fit 16 bits. */
  ghost predicate Buildable(chunks: seq<Payloads>) {
    forall i :: 0 <= i < |chunks| ==> |chunks[i]| <= U16_MAX && Framable(chunks[i])
  }

  /** One packet per chunk, all with the same sequence number. */
  function Packets(session: Bytes, seqNum: u64, chunks: seq<Payloads>): seq<Bytes>
    requires Buildable(chunks)
  {
    if chunks == [] then []
    else
      Packets(session, seqNum, chunks[..|chunks| - 1]) + [PacketBytes(session, seqNum, chunks[|chunks| - 1])]
  }

  /** The sender does not panic in `build_packet`. */
  ghost predicate Accepts(s: Sender, input: Input, limit: nat) {
    && |s.session| == 10
    && (input.Cmd? && input.cmd.Send? && !s.stopped ==> Buildable(Chunks(input.cmd.msgs, limit)))
  }

  /** One round of the sender loop: the new state and the datagrams it broadcasts. */
  ghost function Step(s: Sender, input: Input, limit: nat): (r: (Sender, seq<Bytes>))
    requires Accepts(s, input, limit)
    ensures |r.0.session| == 10
  {
    match input
    case Timeout => (s, [Periodic(s)])
    case Cmd(SendHeartbeat) => (s, [Periodic(s)])
    case Cmd(SendEndOfSession) => (s, [Header(s.session, s.nextSeq, END_OF_SESSION)])
    case Cmd(StopSession) => (s.(stopped := true), [])
    case Cmd(ChangeSession(name)) => (if s.stopped then s else s.(session := PadSession(name)), [])
    case Cmd(Send(msgs)) =>
      if s.stopped then (s, [])
      else (Advanced(s, msgs), Packets(s.session, s.nextSeq, Chunks(msgs, limit)))
    case Cmd(SendDropped(msgs)) =>
      if s.stopped then (s, []) else (Advanced(s, msgs), [])
  }

  ghost function Periodic(s: Sender): Bytes {
    Header(s.session, s.nextSeq, if s.stopped then END_OF_SESSION else HEARTBEAT)
  }

  ghost function Advanced(s: Sender, msgs: seq<Bytes>): Sender {
    s.(nextSeq := Wrap64(s.nextSeq + |msgs|), log := Stored(s.log, s.nextSeq, msgs))
  }

  /** The sender accepts the first `n` inputs one after the other. */
  ghost predicate AcceptsAll(s: Sender, inputs: seq<Input>, n: nat, limit: nat)
    requires n <= |inputs|
    decreases n, 0
  {
    && |s.session| == 10
    && (0 < n ==> AcceptsAll(s, inputs, n - 1, limit) && Accepts(Run(s, inputs, n - 1, limit), inputs[n - 1], limit))
  }

  /** The sender after the first `n` inputs. */
  ghost function Run(s: Sender, inputs: seq<Input>, n: nat, limit: nat): (r: Sender)
    requires n <= |inputs| && AcceptsAll(s, inputs, n, limit)
    ensures |r.session| == 10
    decreases n, 1
  {
    if n == 0 then s else Step(Run(s, inputs, n - 1, limit), inputs[n - 1], limit).0
  }

  /** Everything the first `n` inputs make it broadcast. */
  ghost function Sent(s: Sender, inputs: seq<Input>, n: nat, limit: nat): seq<Bytes>
    requires n <= |inputs| && AcceptsAll(s, inputs, n, limit)
  {
    if n == 0 then []
    else Sent(s, inputs, n - 1, limit) + Step(Run(s, inputs, n - 1, limit), inputs[n - 1], limit).1
  }

  // ---- The running server ----

  class Server {
    var session: Bytes
    var stopped: bool
    var nextSeq: u64
    var log: Log
    /** The session the responder thread was started with. */
    const replySession: Bytes
    const maxPayload: nat
    /** The datagrams put on the downstream socket. */
    var sent: seq<Bytes>

    constructor (name: Bytes, seqNum: u64, maxPayload: nat)
      ensures State() == Sender(PadSession(name), false, seqNum, map[]) && sent == []
      ensures replySession == PadSession(name) && this.maxPayload == maxPayload
    {
      session, replySession := PadSession(name), PadSession(name);
      stopped, nextSeq, log, sent := false, seqNum, map[], [];
      this.maxPayload := maxPayload;
    }

    ghost function State(): Sender
      reads this
    {
      Sender(session, stopped, nextSeq, log)
    }

    method StoreMessages(start: u64, msgs: seq<Bytes>)
      modifies this`log
      ensures log == Stored(old(log), start, msgs)
    {
      for i := 0 to |msgs|
        invariant log == Stored(old(log), start, msgs[..i])
      {
        assert msgs[..i + 1][..i] == msgs[..i];
        log := log[Wrap64(start + i) := msgs[i]];
      }
      assert msgs[..|msgs|] == msgs;
    }

    method SendPeriodic()
      requires |session| == 10
      modifies this`sent
      ensures sent == old(sent) + [Periodic(State())]
    {
      var pkt := BuildSpecial(session, nextSeq, if stopped then END_OF_SESSION else HEARTBEAT);
      sent := sent + [pkt];
    }

    /** One round of the sender loop. */
    method Handle(input: Input)
      requires Accepts(State(), input, maxPayload)
      modifies this
      ensures var (s, out) := Step(old(State()), input, maxPayload); State() == s && sent == old(sent) + out
    {
      match input
      case Timeout => SendPeriodic();
      case Cmd(cmd) =>
        match cmd {
          case Send(msgs) =>
            if stopped || msgs == [] { return; }
            var pktSeq := nextSeq;
            StoreMessages(pktSeq, msgs);
            nextSeq := Wrap64(nextSeq + |msgs|);
            var chunks := ChunkMessages(msgs, maxPayload);
            var pkts := BuildPackets(session, pktSeq, chunks);
            sent := sent + pkts;
          case SendDropped(msgs) =>
            if stopped || msgs == [] { return; }
            StoreMessages(nextSeq, msgs);
            nextSeq := Wrap64(nextSeq + |msgs|);
          case SendHeartbeat => SendPeriodic();
          case SendEndOfSession =>
            var pkt := BuildSpecial(session, nextSeq, END_OF_SESSION);
            sent := sent + [pkt];
          case ChangeSession(name) =>
            if stopped { return; }
            session := PadSession(name);
          case StopSession =>
            if stopped { return; }
            stopped := true;
        }
    }

    /** The sender loop over everything it is given until its channel is disconnected. */
    method SenderLoop(inputs: seq<Input>)
      requires AcceptsAll(State(), inputs, |inputs|, maxPayload)
      modifies this
      ensures State() == Run(old(State()), inputs, |inputs|, maxPayload)
      ensures sent == old(sent) + Sent(old(State()), inputs, |inputs|, maxPayload)
    {
      ghost var s, before := State(), sent;
      AcceptsPrefix(s, inputs, 0, |inputs|, maxPayload);
      for n := 0 to |inputs|
        invariant AcceptsAll(s, inputs, n, maxPayload) && State() == Run(s, inputs, n, maxPayload)
        invariant sent == before + Sent(s, inputs, n, maxPayload)
      {
        AcceptsPrefix(s, inputs, n + 1, |inputs|, maxPayload);
        ghost var out, sent1 := Step(State(), inputs[n], maxPayload).1, Sent(s, inputs, n, maxPayload);
        Handle(inputs[n]);
        Regroup(before, sent1, out);
      }
    }

    /** One round of the responder: the packets sent back for a re-request. */
    method Serve(request: Bytes) returns (replies: seq<Bytes>)
      requires |replySession| == 10
      requires Buildable(Chunks(Selected(replySession, log, request), maxPayload))
      ensures replies == Replies(replySession, log, request, maxPayload)
    {
      replies := [];
      if |request| < HEADER_LEN {
        return;
      }
      if request[..10] != replySession {
        return;
      }
      var startSeq := ToU64(request[10..18]);
      var want := ToU16(request[18..20]);
      if want == 0 {
        return;
      }
      var msgs := Select(startSeq, want);
      var chunks := ChunkMessages(msgs, maxPayload);
      replies := BuildPackets(replySession, startSeq, chunks);
    }

    method Select(start: u64, want: u16) returns (msgs: seq<Bytes>)
      ensures msgs == Contiguous(log, start, want)
    {
      msgs := [];
      var i: nat, n: u64 := 0, start;
      while i < want && n in log
        invariant 0 <= i <= want
        invariant msgs + Contiguous(log, n, want - i) == Contiguous(log, start, want)
      {
        Regroup(msgs, [log[n]], Contiguous(log, Wrap64(n + 1), want - i - 1));
        msgs := msgs + [log[n]];
        i, n := i + 1, Wrap64(n + 1);
      }
      assert msgs + [] == msgs;
    }
  }

  method BuildPackets(session: Bytes, seqNum: u64, chunks: seq<Payloads>) returns (pkts: seq<Bytes>)
    requires Buildable(chunks)
    ensures pkts == Packets(session, seqNum, chunks)
  {
    pkts := [];
    for i := 0 to |chunks|
      invariant pkts == Packets(session, seqNum, chunks[..i])
    {
      assert chunks[..i + 1][..i] == chunks[..i];
      var pkt := BuildPacket(session, seqNum, chunks[i]);
      pkts := pkts + [pkt];
    }
    assert chunks[..|chunks|] == chunks;
  }

  lemma {:induction false} AcceptsPrefix(s: Sender, inputs: seq<Input>, n: nat, m: nat, limit: nat)
    requires n <= m <= |inputs| && AcceptsAll(s, inputs, m, limit)
    ensures AcceptsAll(s, inputs, n, limit)
  {
    if n < m { AcceptsPrefix(s, inputs, n, m - 1, limit); }
  }

  // ---- Answering re-requests ----

  /** The logged messages from `start` on, at most `want` of them, up to the first missing one. */
  function Contiguous(log: Log, start: u64, want: nat): seq<Bytes>
    decreases want
  {
    if want == 0 || start !in log then [] else [log[start]] + Contiguous(log, Wrap64(start + 1), want - 1)
  }

  /** The messages a re-request selects. */
  function Selected(session: Bytes, log: Log, request: Bytes): seq<Bytes>
    requires |session| == 10
  {
    if |request| < HEADER_LEN || request[..10] != session then []
    else Contiguous(log, ToU64(request[10..18]), ToU16(request[18..20]))
  }

  function Replies(session: Bytes, log: Log, request: Bytes, limit: nat): seq<Bytes>
    requires |session| == 10 && Buildable(Chunks(Selected(session, log, request), limit))
  {
    if |request| < HEADER_LEN then []
    else Packets(session, ToU64(request[10..18]), Chunks(Selected(session, log, request), limit))
  }
}
