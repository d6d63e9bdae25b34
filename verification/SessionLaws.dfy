/** What the sender does with each command over whole runs: what it logs, what it broadcasts, and when it
    announces the end. */
module SessionLaws {
  import opened Widths
  import opened Wrappers
  import opened Packet
  import opened Chunking
  import opened Server
  import opened ServerLaws

  // ---- Stopping ----

  ghost predicate StopsAt(inputs: seq<Input>, i: nat)
    requires i < |inputs|
  {
    inputs[i] == Cmd(StopSession)
  }

  /** A stop is among the first `n` inputs. */
  ghost predicate StopsWithin(inputs: seq<Input>, n: nat)
    requires n <= |inputs|
  {
    exists i: nat :: i < n && StopsAt(inputs, i)
  }

  lemma StopsNext(inputs: seq<Input>, n: nat)
    requires n < |inputs|
    ensures StopsWithin(inputs, n + 1) <==> StopsWithin(inputs, n) || inputs[n] == Cmd(StopSession)
  {
    if inputs[n] == Cmd(StopSession) {
      assert StopsAt(inputs, n);
    } else if StopsWithin(inputs, n + 1) {
      var i: nat :| i < n + 1 && StopsAt(inputs, i);
      assert i < n;
    }
  }

  /** The sender is stopped exactly when it was at the start or a stop was among its inputs. */
  lemma {:induction false} StoppedIff(s: Sender, inputs: seq<Input>, n: nat, limit: nat)
    requires n <= |inputs| && AcceptsAll(s, inputs, n, limit)
    ensures Run(s, inputs, n, limit).stopped <==> s.stopped || StopsWithin(inputs, n)
  {
    if 0 < n {
      StoppedIff(s, inputs, n - 1, limit);
      StopsNext(inputs, n - 1);
    }
  }

  /** The datagram announces the end of the session at the number `next`. */
  ghost predicate EndsAt(session: Bytes, next: u64, d: Bytes) {
    Parse(d) == Some(Packet(session, next, 0xFFFF, []))
  }

  lemma StoppedStep(s: Sender, input: Input, limit: nat)
    requires Accepts(s, input, limit) && s.stopped
    ensures Step(s, input, limit).0 == s && forall d :: d in Step(s, input, limit).1 ==> EndsAt(s.session, s.nextSeq, d)
  {
    SpecialParses(s.session, s.nextSeq, END_OF_SESSION);
  }

  /** From a stopped state on nothing changes, and all that is broadcast announces the end. */
  lemma {:induction false} StaysStopped(s: Sender, inputs: seq<Input>, i: nat, n: nat, limit: nat)
    requires i <= n <= |inputs| && AcceptsAll(s, inputs, n, limit)
    requires AcceptsAll(s, inputs, i, limit) && Run(s, inputs, i, limit).stopped
    ensures Run(s, inputs, n, limit) == Run(s, inputs, i, limit)
    ensures var s1 := Run(s, inputs, i, limit);
            OnlyEndsBehind(s1.session, s1.nextSeq, Sent(s, inputs, i, limit), Sent(s, inputs, n, limit))
    decreases n
  {
    if i < n {
      var s1 := Run(s, inputs, i, limit);
      StaysStopped(s, inputs, i, n - 1, limit);
      StoppedStep(s1, inputs[n - 1], limit);
      MoreEndsBehind(s1.session, s1.nextSeq, Sent(s, inputs, i, limit), Sent(s, inputs, n - 1, limit),
                     Step(s1, inputs[n - 1], limit).1);
    }
  }

  /** `all` is `before` and then nothing but announcements of the end. */
  ghost predicate OnlyEndsBehind(session: Bytes, next: u64, before: seq<Bytes>, all: seq<Bytes>) {
    before <= all && forall j :: |before| <= j < |all| ==> EndsAt(session, next, all[j])
  }

  lemma MoreEndsBehind(session: Bytes, next: u64, before: seq<Bytes>, all: seq<Bytes>, more: seq<Bytes>)
    requires OnlyEndsBehind(session, next, before, all) && forall d :: d in more ==> EndsAt(session, next, d)
    ensures OnlyEndsBehind(session, next, before, all + more)
  {
    forall j | |before| <= j < |all + more| ensures EndsAt(session, next, (all + more)[j]) {
      if |all| <= j { assert (all + more)[j] in more; }
    }
  }

  /** A stop is final: whatever follows it, the log and the numbers stay as they were before it, and all
      that is broadcast after it announces the end at that number. */
  lemma StopIsFinal(s: Sender, inputs: seq<Input>, i: nat, n: nat, limit: nat)
    requires i < n <= |inputs| && AcceptsAll(s, inputs, n, limit) && inputs[i] == Cmd(StopSession)
    ensures AcceptsAll(s, inputs, i, limit)
    ensures var before := Run(s, inputs, i, limit);
            && Run(s, inputs, n, limit) == Sender(before.session, true, before.nextSeq, before.log)
            && OnlyEndsBehind(before.session, before.nextSeq, Sent(s, inputs, i, limit), Sent(s, inputs, n, limit))
  {
    AcceptsPrefix(s, inputs, i, n, limit);
    AcceptsPrefix(s, inputs, i + 1, n, limit);
    StopTakesEffect(s, inputs, i, limit);
    StaysStopped(s, inputs, i + 1, n, limit);
  }

  lemma StopTakesEffect(s: Sender, inputs: seq<Input>, i: nat, limit: nat)
    requires i < |inputs| && AcceptsAll(s, inputs, i + 1, limit) && inputs[i] == Cmd(StopSession)
    ensures var before := Run(s, inputs, i, limit);
            Run(s, inputs, i + 1, limit) == Sender(before.session, true, before.nextSeq, before.log)
    ensures Sent(s, inputs, i + 1, limit) == Sent(s, inputs, i, limit)
  {
    assert Sent(s, inputs, i, limit) + [] == Sent(s, inputs, i, limit);
  }

  // ---- The log ----

  /** The messages given out to be numbered by the first `n` inputs, up to a stop. */
  ghost function Given(inputs: seq<Input>, n: nat): Payloads
    requires n <= |inputs|
  {
    if n == 0 then []
    else Given(inputs, n - 1) + (if StopsWithin(inputs, n - 1) then [] else ToNumber(inputs[n - 1]))
  }

  function ToNumber(input: Input): Payloads {
    match input
    case Cmd(Send(msgs)) => msgs
    case Cmd(SendDropped(msgs)) => msgs
    case _ => []
  }

  /** As long as there are numbers for them, the log holds exactly the messages given before a stop, whether
      sent or dropped, one behind the other. */
  lemma {:induction false} LogIsGiven(s: Sender, inputs: seq<Input>, n: nat, limit: nat)
    requires n <= |inputs| && AcceptsAll(s, inputs, n, limit) && !s.stopped
    requires s.nextSeq + |Given(inputs, n)| <= U64_MAX
    ensures Run(s, inputs, n, limit).log == Stored(s.log, s.nextSeq, Given(inputs, n))
    ensures Run(s, inputs, n, limit).nextSeq == s.nextSeq + |Given(inputs, n)|
  {
    if 0 < n {
      LogIsGiven(s, inputs, n - 1, limit);
      StoppedIff(s, inputs, n - 1, limit);
      var s1, before := Run(s, inputs, n - 1, limit), Given(inputs, n - 1);
      GivenIsStored(s1, inputs[n - 1], limit);
      if !s1.stopped {
        MoreIsStored(s.log, s.nextSeq, before, ToNumber(inputs[n - 1]));
      } else {
        assert before + [] == before;
      }
    }
  }

  lemma GivenIsStored(s: Sender, input: Input, limit: nat)
    requires Accepts(s, input, limit)
    ensures var s', more := Step(s, input, limit).0, if s.stopped then [] else ToNumber(input);
            && s'.log == Stored(s.log, s.nextSeq, more)
            && s'.nextSeq == Wrap64(s.nextSeq + |more|)
  {
  }

  /** The next number goes on modulo 2^64. */
  lemma NumbersWrap(s: Sender, input: Input, limit: nat)
    requires Accepts(s, input, limit)
    ensures Step(s, input, limit).0.nextSeq ==
            (s.nextSeq + if s.stopped then 0 else |ToNumber(input)|) % 0x1_0000_0000_0000_0000
  {
    GivenIsStored(s, input, limit);
    WrapIsModulo(s.nextSeq + if s.stopped then 0 else |ToNumber(input)|);
  }

  // ---- The broadcast ----

  /** The message areas of some datagrams one behind the other. */
  function Areas(sent: seq<Bytes>): Bytes {
    if sent == [] then []
    else
      var d := sent[|sent| - 1];
      Areas(sent[..|sent| - 1]) + (if Parse(d).Some? then Parse(d).value.messages else [])
  }

  lemma {:induction false} AreasConcat(a: seq<Bytes>, b: seq<Bytes>)
    ensures Areas(a + b) == Areas(a) + Areas(b)
    decreases |b|
  {
    if b == [] {
      assert a + b == a;
      assert Areas(a) + [] == Areas(a);
    } else {
      var n := |b| - 1;
      var last := if Parse(b[n]).Some? then Parse(b[n]).value.messages else [];
      AreasConcat(a, b[..n]);
      assert (a + b)[..|a| + n] == a + b[..n];
      Regroup(Areas(a), Areas(b[..n]), last);
    }
  }

  lemma AreaOfOne(d: Bytes)
    requires Parse(d).Some?
    ensures Areas([d]) == Parse(d).value.messages
  {
    assert [d][..0] == [];
    assert [] + Parse(d).value.messages == Parse(d).value.messages;
  }

  lemma {:induction false} AreasOfPackets(session: Bytes, seqNum: u64, chunks: seq<Payloads>)
    requires |session| == 10 && Buildable(chunks)
    ensures Framable(Flatten(chunks)) && Areas(Packets(session, seqNum, chunks)) == Frame(Flatten(chunks))
  {
    if chunks != [] {
      var n := |chunks| - 1;
      var pkt := PacketBytes(session, seqNum, chunks[n]);
      AreasOfPackets(session, seqNum, chunks[..n]);
      ParseHeader(session, seqNum, |chunks[n]|, Frame(chunks[n]));
      AreaOfOne(pkt);
      AreasConcat(Packets(session, seqNum, chunks[..n]), [pkt]);
      FrameConcat(Flatten(chunks[..n]), chunks[n]);
    }
  }

  /** The messages to broadcast among the first `n` inputs, up to a stop. */
  ghost function Told(inputs: seq<Input>, n: nat): Payloads
    requires n <= |inputs|
  {
    if n == 0 then []
    else Told(inputs, n - 1) + (if StopsWithin(inputs, n - 1) then [] else ToSend(inputs[n - 1]))
  }

  function ToSend(input: Input): Payloads {
    match input
    case Cmd(Send(msgs)) => msgs
    case _ => []
  }

  /** Whatever else the sender broadcasts, the message areas of its datagrams are one frame of exactly the
      messages sent before a stop. */
  lemma {:induction false} BroadcastIsTold(s: Sender, inputs: seq<Input>, n: nat, limit: nat)
    requires n <= |inputs| && AcceptsAll(s, inputs, n, limit) && !s.stopped
    ensures Framable(Told(inputs, n)) && Areas(Sent(s, inputs, n, limit)) == Frame(Told(inputs, n))
  {
    if 0 < n {
      var s1 := Run(s, inputs, n - 1, limit);
      var more := if s1.stopped then [] else ToSend(inputs[n - 1]);
      BroadcastIsTold(s, inputs, n - 1, limit);
      StoppedIff(s, inputs, n - 1, limit);
      StepIsTold(s1, inputs[n - 1], limit);
      AreasConcat(Sent(s, inputs, n - 1, limit), Step(s1, inputs[n - 1], limit).1);
      FrameConcat(Told(inputs, n - 1), more);
    }
  }

  lemma StepIsTold(s: Sender, input: Input, limit: nat)
    requires Accepts(s, input, limit)
    ensures var more := if s.stopped then [] else ToSend(input);
            Framable(more) && Areas(Step(s, input, limit).1) == Frame(more)
  {
    if input.Cmd? && input.cmd.Send? {
      if !s.stopped {
        AreasOfPackets(s.session, s.nextSeq, Chunks(input.cmd.msgs, limit));
        ChunksPartition(input.cmd.msgs, limit);
      }
    } else {
      SpecialIsSent(s, input, limit);
      if Step(s, input, limit).1 != [] { AreaOfOne(Step(s, input, limit).1[0]); }
    }
  }

  // ---- Heartbeats and ends ----

  /** What the sender broadcasts besides messages: one heartbeat or end of session at the next number. */
  lemma SpecialIsSent(s: Sender, input: Input, limit: nat)
    requires Accepts(s, input, limit) && !(input.Cmd? && input.cmd.Send?)
    ensures var out := Step(s, input, limit).1;
            if input == Cmd(SendEndOfSession) || (s.stopped && (input == Timeout || input == Cmd(SendHeartbeat))) then
              |out| == 1 && Parse(out[0]) == Some(Packet(s.session, s.nextSeq, 0xFFFF, []))
            else if input == Timeout || input == Cmd(SendHeartbeat) then
              |out| == 1 && Parse(out[0]) == Some(Packet(s.session, s.nextSeq, 0, []))
            else out == []
  {
    SpecialParses(s.session, s.nextSeq, HEARTBEAT);
    SpecialParses(s.session, s.nextSeq, END_OF_SESSION);
  }

  /** And the packets of a `Send` carry the number of its first message, their counts and their messages. */
  lemma MessagesAreSent(s: Sender, msgs: Payloads, limit: nat)
    requires Accepts(s, Cmd(Send(msgs)), limit) && !s.stopped
    ensures var chunks, out := Chunks(msgs, limit), Step(s, Cmd(Send(msgs)), limit).1;
            && |out| == |chunks|
            && forall i :: 0 <= i < |out| ==>
                 |chunks[i]| <= U16_MAX && Framable(chunks[i])
                 && Parse(out[i]) == Some(Packet(s.session, s.nextSeq, |chunks[i]|, Frame(chunks[i])))
  {
    var chunks := Chunks(msgs, limit);
    PacketsPerChunk(s.session, s.nextSeq, chunks);
    forall i | 0 <= i < |chunks|
      ensures Parse(Packets(s.session, s.nextSeq, chunks)[i]) ==
              Some(Packet(s.session, s.nextSeq, |chunks[i]|, Frame(chunks[i])))
    {
      ParseHeader(s.session, s.nextSeq, |chunks[i]|, Frame(chunks[i]));
    }
  }

  /** The input makes a sender announce the end: it is told to, it is stopped and due for a heartbeat, or it
      sends 65535 messages in one packet. */
  ghost predicate Announces(s: Sender, input: Input, limit: nat) {
    || input == Cmd(SendEndOfSession)
    || (s.stopped && (input == Timeout || input == Cmd(SendHeartbeat)))
    || (!s.stopped && input.Cmd? && input.cmd.Send? && HasFullChunk(Chunks(input.cmd.msgs, limit)))
  }

  ghost predicate HasFullChunk(chunks: seq<Payloads>) {
    exists i :: 0 <= i < |chunks| && |chunks[i]| == 0xFFFF
  }

  ghost predicate IsEnd(d: Bytes) {
    Parse(d).Some? && Parse(d).value.Kind() == EndOfSession
  }

  ghost predicate HasEnd(sent: seq<Bytes>) {
    exists j :: 0 <= j < |sent| && IsEnd(sent[j])
  }

  /** Nothing else the sender broadcasts reads as the end of the session. */
  lemma StepAnnouncesIff(s: Sender, input: Input, limit: nat)
    requires Accepts(s, input, limit)
    ensures HasEnd(Step(s, input, limit).1) <==> Announces(s, input, limit)
  {
    var out := Step(s, input, limit).1;
    if input.Cmd? && input.cmd.Send? {
      if !s.stopped {
        var chunks := Chunks(input.cmd.msgs, limit);
        MessagesAreSent(s, input.cmd.msgs, limit);
        if HasFullChunk(chunks) {
          var i :| 0 <= i < |chunks| && |chunks[i]| == 0xFFFF;
          assert IsEnd(out[i]);
        }
      }
    } else {
      SpecialIsSent(s, input, limit);
      assert out != [] ==> (IsEnd(out[0]) <==> Announces(s, input, limit));
    }
  }

  ghost predicate AnnouncesAt(s: Sender, inputs: seq<Input>, i: nat, n: nat, limit: nat)
    requires i < n <= |inputs| && AcceptsAll(s, inputs, n, limit)
  {
    AcceptsAll(s, inputs, i, limit) && Announces(Run(s, inputs, i, limit), inputs[i], limit)
  }

  lemma HasEndConcat(a: seq<Bytes>, b: seq<Bytes>)
    ensures HasEnd(a + b) <==> HasEnd(a) || HasEnd(b)
  {
    if HasEnd(a) {
      var j :| 0 <= j < |a| && IsEnd(a[j]);
      assert IsEnd((a + b)[j]);
    }
    if HasEnd(b) {
      var j :| 0 <= j < |b| && IsEnd(b[j]);
      assert IsEnd((a + b)[|a| + j]);
    }
    if HasEnd(a + b) {
      var j :| 0 <= j < |a + b| && IsEnd((a + b)[j]);
      assert if j < |a| then IsEnd(a[j]) else IsEnd(b[j - |a|]);
    }
  }

  /** Over a whole run: an end of session is broadcast exactly when some input made the sender announce it. */
  lemma {:induction false} EndIsAnnouncedIff(s: Sender, inputs: seq<Input>, n: nat, limit: nat)
    requires n <= |inputs| && AcceptsAll(s, inputs, n, limit)
    ensures HasEnd(Sent(s, inputs, n, limit)) <==> exists i: nat :: i < n && AnnouncesAt(s, inputs, i, n, limit)
  {
    if 0 < n {
      var m := n - 1;
      EndIsAnnouncedIff(s, inputs, m, limit);
      StepAnnouncesIff(Run(s, inputs, m, limit), inputs[m], limit);
      HasEndConcat(Sent(s, inputs, m, limit), Step(Run(s, inputs, m, limit), inputs[m], limit).1);
      if HasEnd(Sent(s, inputs, m, limit)) {
        var i: nat :| i < m && AnnouncesAt(s, inputs, i, m, limit);
        assert AnnouncesAt(s, inputs, i, n, limit);
      }
      if Announces(Run(s, inputs, m, limit), inputs[m], limit) { assert AnnouncesAt(s, inputs, m, n, limit); }
      if exists i: nat :: i < n && AnnouncesAt(s, inputs, i, n, limit) {
        var i: nat :| i < n && AnnouncesAt(s, inputs, i, n, limit);
        if i < m { assert AnnouncesAt(s, inputs, i, m, limit); }
      }
    }
  }
}
