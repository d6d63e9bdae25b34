/** End to end: a file replayed through the server, its datagrams and the answers they provoke delivered
    through the client, and every packet parsed by the receiving side. */
module Pipeline {
  import opened Widths
  import opened Wrappers
  import opened Packet
  import opened ItchParser
  import opened Chunking
  import opened Server
  import opened ServerLaws
  import opened Client
  import opened Relay
  import opened Consumer
  import opened Records
  import opened Delivery
  import opened AtLeastOnce
  import opened Transport
  import opened Replay

  ghost predicate AllSends(cmds: seq<Command>) {
    forall i :: 0 <= i < |cmds| ==> cmds[i].Send?
  }

  lemma QueuedBatchIsExact(cmds: seq<Command>, n: nat)
    requires n < |cmds| && AllSends(cmds) && AllExact(Queued(cmds))
    ensures AllExact(cmds[n].msgs)
  {
    QueuedPrefix(cmds, n);
    ExactInside(Queued(cmds[..n]), cmds[n].msgs, Queued(cmds));
  }

  lemma ExactInside(a: Payloads, b: Payloads, all: Payloads)
    requires a + b <= all && AllExact(all)
    ensures AllExact(b)
  {
    forall i | 0 <= i < |b| ensures Exact(b[i]) { assert b[i] == all[|a| + i]; }
  }

  /** Every command goes out as one packet. */
  ghost predicate OnePacketEach(cmds: seq<Command>, limit: nat) {
    forall i :: 0 <= i < |cmds| && cmds[i].Send? ==> |cmds[i].msgs| == 1 || Total(cmds[i].msgs) <= limit
  }

  /** What was sent so far holds no end of session, and keeps the client in step as long as all of it went
      out one packet at a time. */
  ghost predicate Underway(s: Stand, sent: seq<Bytes>, session: Bytes, next: u64, onePacketEach: bool) {
    AllData(sent) && InStep(StandAll(s, sent), session, next, onePacketEach)
  }

  lemma IdleStaysUnderway(s: Stand, sent: seq<Bytes>, session: Bytes, next: u64, onePacketEach: bool)
    requires |session| == 10 && Underway(s, sent, session, next, onePacketEach)
    ensures var sent' := sent + [Header(session, next, HEARTBEAT)];
            Underway(s, sent', session, next, onePacketEach) && Consumed(sent') == Consumed(sent)
  {
    var d := Header(session, next, HEARTBEAT);
    SpecialsAreRead(session, next);
    HeartbeatAddsNothing(sent, d);
    HeartbeatStaysInStep(StandAll(s, sent), session, next, onePacketEach);
    assert (sent + [d])[..|sent|] == sent;
  }

  /** The server logged `msgs` and nothing else, and numbered what it sent, from `first` on. */
  ghost predicate OnRecord(server: Server, first: u64, msgs: Payloads)
    reads server
  {
    && first + |msgs| == server.nextSeq && server.log == Stored(map[], first, msgs)
    && AllStamped(server.session, first, server.nextSeq, server.sent)
  }

  /** The sender loop waits for a command, with a heartbeat whenever the wait takes too long. */
  method Idle(server: Server, ghost s: Stand, ghost onePacketEach: bool, ghost first: u64,
              ghost logged: Payloads)
    requires |server.session| == 10 && !server.stopped && OnRecord(server, first, logged)
    requires Underway(s, server.sent, server.session, server.nextSeq, onePacketEach)
    modifies server
    ensures server.State() == old(server.State()) && OnRecord(server, first, logged)
    ensures Underway(s, server.sent, server.session, server.nextSeq, onePacketEach)
    ensures Consumed(server.sent) == old(Consumed(server.sent))
  {
    var ticks :| 0 <= ticks;
    for t := 0 to ticks
      invariant server.State() == old(server.State()) && OnRecord(server, first, logged)
      invariant Underway(s, server.sent, server.session, server.nextSeq, onePacketEach)
      invariant Consumed(server.sent) == old(Consumed(server.sent))
    {
      IdleStaysUnderway(s, server.sent, server.session, server.nextSeq, onePacketEach);
      HeartbeatIsStamped(server.session, first, server.nextSeq, server.sent);
      server.Handle(Timeout);
    }
  }

  lemma BatchStaysUnderway(s: Stand, sent: seq<Bytes>, session: Bytes, next: u64, msgs: Payloads, limit: nat,
                           onePacketEach: bool)
    requires |session| == 10 && AllExact(msgs) && limit < SHORTEST_BODY * 0xFFFF && next + |msgs| <= U64_MAX
    requires Underway(s, sent, session, next, onePacketEach)
    ensures Buildable(Chunks(msgs, limit))
    ensures var sent' := sent + Packets(session, next, Chunks(msgs, limit));
            && Underway(s, sent', session, next + |msgs|, onePacketEach && (|msgs| == 1 || Total(msgs) <= limit))
            && Consumed(sent') == Consumed(sent) + msgs
  {
    PacketsAreConsumed(session, next, msgs, limit);
    MoreData(sent, Packets(session, next, Chunks(msgs, limit)));
    StandConcat(s, sent, Packets(session, next, Chunks(msgs, limit)));
    SendStaysInStep(StandAll(s, sent), session, next, msgs, limit, onePacketEach);
  }

  lemma OnePacketMore(cmds: seq<Command>, n: nat, limit: nat)
    requires n < |cmds| && cmds[n].Send?
    ensures OnePacketEach(cmds[..n + 1], limit) <==>
            OnePacketEach(cmds[..n], limit) && (|cmds[n].msgs| == 1 || Total(cmds[n].msgs) <= limit)
  {
    assert cmds[..n + 1] == cmds[..n] + [cmds[n]];
  }

  lemma QueueLeaves(cmds: seq<Command>, n: nat)
    requires n < |cmds| && AllSends(cmds) && AllExact(Queued(cmds))
    ensures Queued(cmds[..n + 1]) == Queued(cmds[..n]) + cmds[n].msgs
    ensures |Queued(cmds[..n])| + |cmds[n].msgs| <= |Queued(cmds)| && AllExact(cmds[n].msgs)
  {
    QueuedPrefix(cmds, n);
    QueuedBatchIsExact(cmds, n);
  }

  /** A `Send` command in the sender loop. */
  method Broadcast(server: Server, msgs: Payloads, ghost first: u64, ghost logged: Payloads)
    requires |server.session| == 10 && !server.stopped && server.nextSeq + |msgs| <= U64_MAX
    requires OnRecord(server, first, logged)
    requires Buildable(Chunks(msgs, server.maxPayload))
    modifies server
    ensures server.session == old(server.session) && !server.stopped && OnRecord(server, first, logged + msgs)
    ensures server.nextSeq == old(server.nextSeq) + |msgs|
    ensures server.sent ==
            old(server.sent) + Packets(server.session, old(server.nextSeq), Chunks(msgs, server.maxPayload))
  {
    MoreIsStored(map[], first, logged, msgs);
    SendIsStamped(server.session, first, server.nextSeq, server.sent, msgs, server.maxPayload);
    server.Handle(Cmd(Send(msgs)));
  }

  /** One batch, after any number of heartbeats. */
  method SendBatch(server: Server, msgs: Payloads, ghost s: Stand, ghost onePacketEach: bool, ghost first: u64,
              ghost logged: Payloads)
    returns (ghost stillOne: bool)
    requires |server.session| == 10 && !server.stopped && AllExact(msgs) && OnRecord(server, first, logged)
    requires server.maxPayload < SHORTEST_BODY * 0xFFFF && server.nextSeq + |msgs| <= U64_MAX
    requires Underway(s, server.sent, server.session, server.nextSeq, onePacketEach)
    modifies server
    ensures server.session == old(server.session) && !server.stopped && OnRecord(server, first, logged + msgs)
    ensures server.nextSeq == old(server.nextSeq) + |msgs|
    ensures Consumed(server.sent) == old(Consumed(server.sent)) + msgs
    ensures stillOne == (onePacketEach && (|msgs| == 1 || Total(msgs) <= server.maxPayload))
    ensures Underway(s, server.sent, server.session, server.nextSeq, stillOne)
  {
    Idle(server, s, onePacketEach, first, logged);
    stillOne := onePacketEach && (|msgs| == 1 || Total(msgs) <= server.maxPayload);
    BatchStaysUnderway(s, server.sent, server.session, server.nextSeq, msgs, server.maxPayload, onePacketEach);
    Broadcast(server, msgs, first, logged);
  }

  /** The sender goes through a queue of batches of exact bodies, and what it sends reads back as them. */
  method SendAll(server: Server, cmds: seq<Command>, ghost s: Stand)
    requires |server.session| == 10 && !server.stopped && server.sent == [] && server.log == map[]
    requires AllSends(cmds) && AllExact(Queued(cmds))
    requires server.maxPayload < SHORTEST_BODY * 0xFFFF
    requires server.nextSeq + |Queued(cmds)| <= U64_MAX
    requires InStep(s, server.session, server.nextSeq, true)
    modifies server
    ensures Consumed(server.sent) == Queued(cmds)
    ensures server.session == old(server.session) && !server.stopped
    ensures OnRecord(server, old(server.nextSeq), Queued(cmds))
    ensures Underway(s, server.sent, server.session, server.nextSeq, OnePacketEach(cmds, server.maxPayload))
  {
    ghost var first := server.nextSeq;
    ghost var queued, onePacketEach := [], true;
    assert cmds[..0] == [];
    for n := 0 to |cmds|
      invariant queued == Queued(cmds[..n]) && onePacketEach == OnePacketEach(cmds[..n], server.maxPayload)
      invariant server.session == old(server.session) && !server.stopped && server.nextSeq == first + |queued|
      invariant OnRecord(server, first, queued) && Consumed(server.sent) == queued
      invariant Underway(s, server.sent, server.session, server.nextSeq, onePacketEach)
    {
      ghost var msgs := cmds[n].msgs;
      QueueLeaves(cmds, n);
      OnePacketMore(cmds, n, server.maxPayload);
      onePacketEach := SendBatch(server, cmds[n].msgs, s, onePacketEach, first, queued);
      queued := queued + msgs;
    }
    assert cmds[..|cmds|] == cmds;
  }

  lemma {:induction false} QueuedPrefix(cmds: seq<Command>, n: nat)
    requires n < |cmds| && AllSends(cmds)
    ensures Queued(cmds[..n + 1]) == Queued(cmds[..n]) + cmds[n].msgs
    ensures Queued(cmds[..n + 1]) <= Queued(cmds)
    decreases |cmds|
  {
    assert cmds[..n + 1][..n] == cmds[..n];
    var m := |cmds| - 1;
    if n < m {
      QueuedPrefix(cmds[..m], n);
      assert cmds[..m][..n + 1] == cmds[..n + 1] && cmds[..m][..n] == cmds[..n];
    } else {
      assert cmds[..n + 1] == cmds;
    }
  }

  lemma EndIsReached(s: Stand, sent: seq<Bytes>, session: Bytes, next: u64, onePacketEach: bool)
    requires |session| == 10 && Underway(s, sent, session, next, onePacketEach)
    ensures var sent' := sent + [Header(session, next, END_OF_SESSION)];
            Consumed(sent') == Consumed(sent) && StandAll(s, sent').asked == !onePacketEach
  {
    var d := Header(session, next, END_OF_SESSION);
    SpecialsAreRead(session, next);
    EndAddsNothing(sent, d);
    EndShowsGap(StandAll(s, sent), session, next, onePacketEach);
    assert (sent + [d])[..|sent|] == sent;
  }

  /** The end-of-session marker behind the last batch. */
  method Finish(server: Server, ghost s: Stand, ghost onePacketEach: bool, ghost first: u64, ghost logged: Payloads)
    returns (ghost data: seq<Bytes>)
    requires |server.session| == 10 && !server.stopped && server.replySession == server.session
    requires server.maxPayload < SHORTEST_BODY * 0xFFFF && OnRecord(server, first, logged) && AllExact(logged)
    requires Underway(s, server.sent, server.session, server.nextSeq, onePacketEach)
    modifies server
    ensures Consumed(server.sent) == Consumed(data) == old(Consumed(server.sent))
    ensures StandAll(s, server.sent).asked == !onePacketEach
    ensures server.nextSeq == old(server.nextSeq) && server.log == old(server.log)
    ensures WellSent(WorldOf(server), first, server.nextSeq, data)
  {
    Idle(server, s, onePacketEach, first, logged);
    data := server.sent;
    EndIsReached(s, data, server.session, server.nextSeq, onePacketEach);
    LogIsRecorded(first, logged);
    server.Handle(Cmd(SendEndOfSession));
  }

  /** The sender goes through the queue and announces the end. */
  method SendSession(server: Server, cmds: seq<Command>, ghost e: Expected) returns (ghost data: seq<Bytes>)
    requires |server.session| == 10 && !server.stopped && server.sent == [] && server.log == map[]
    requires server.replySession == server.session && server.maxPayload < SHORTEST_BODY * 0xFFFF
    requires AllSends(cmds) && AllExact(Queued(cmds)) && server.nextSeq + |Queued(cmds)| <= U64_MAX
    requires e == Expected(Some(server.session), None)
    modifies server
    ensures server.nextSeq == old(server.nextSeq) + |Queued(cmds)|
    ensures server.log == Stored(map[], old(server.nextSeq), Queued(cmds))
    ensures WellSent(WorldOf(server), old(server.nextSeq), server.nextSeq, data)
    ensures Consumed(server.sent) == Consumed(data) == Queued(cmds)
    ensures StandAll(Stand(e, false), server.sent).asked == !OnePacketEach(cmds, server.maxPayload)
  {
    ghost var first := server.nextSeq;
    SendAll(server, cmds, Stand(e, false));
    data := Finish(server, Stand(e, false), OnePacketEach(cmds, server.maxPayload), first, Queued(cmds));
  }

  /** Whatever happens to the answers, a consumer that was called `calls` before ends up with what one parse
      of the whole file adds to them. */
  ghost predicate AlwaysAsParsed(w: World, e: Expected, calls: seq<Bytes>, file: Bytes) {
    forall received :: Possible(w, e, received) ==> calls + Consumed(received) == Stream(calls, file, None).calls
  }

  lemma AlwaysAsParsedIff(w: World, e: Expected, calls: seq<Bytes>, file: Bytes)
    requires AllExact(Bodies(file))
    ensures AlwaysAsParsed(w, e, calls, file) <==> AlwaysConsumed(w, e, Bodies(file))
  {
    CallsAreBodies(file);
    StreamCalls(calls, file);
    forall received | Possible(w, e, received)
      ensures calls + Consumed(received) == Stream(calls, file, None).calls <==> Consumed(received) == Bodies(file)
    {
      SameBehind(calls, Consumed(received), Bodies(file));
    }
  }

  lemma SameBehind<T>(a: seq<T>, b: seq<T>, c: seq<T>)
    ensures a + b == a + c <==> b == c
  {
    if a + b == a + c {
      assert b == (a + b)[|a|..] && c == (a + c)[|a|..];
    }
  }

  /** A session of the server: all batches are sent, and the client passes on what arrives, asks for what it
      takes to be missing and passes on the answers.  What the consumer gets is independent of the answers
      exactly when every batch goes out as one packet: for a larger one the client asks although nothing is
      missing, and the answer is consumed on top of the live data. */
  method Transmit(name: Bytes, seqNum: u64, maxPayload: nat, cmds: seq<Command>)
    returns (received: seq<Bytes>, ghost w: World)
    requires AllSends(cmds) && AllExact(Queued(cmds)) && seqNum + |Queued(cmds)| <= U64_MAX
    requires maxPayload < SHORTEST_BODY * 0xFFFF
    ensures w.session == PadSession(name) && w.limit == maxPayload && Consumed(w.sent) == Queued(cmds)
    ensures w.log == Stored(map[], seqNum, Queued(cmds))
    ensures Possible(w, Expected(Some(w.session), None), w.sent)
    ensures Possible(w, Expected(Some(w.session), None), received) && AllParsed(received)
    ensures AlwaysConsumed(w, Expected(Some(w.session), None), Queued(cmds)) <==> OnePacketEach(cmds, maxPayload)
    ensures Within(Queued(cmds), Consumed(received)) && AllIn(Consumed(received), Queued(cmds))
  {
    var server := new Server(name, seqNum, maxPayload);
    var receiver := new Receiver(Some(PadSession(name)), None);
    ghost var e := receiver.Expectation();
    ghost var data := SendSession(server, cmds, e);
    w := WorldOf(server);
    HarmlessIff(w, e, seqNum, server.nextSeq, data);
    WithoutAnswers(w, e, seqNum, server.nextSeq, data);
    SentIsParsed(w, seqNum, server.nextSeq, data);
    received := Deliver(receiver, server, seqNum, server.nextSeq);
    LogIsRecorded(seqNum, Queued(cmds));
    DeliveredAtLeastOnce(w, e, seqNum, server.nextSeq, data, received);
  }

  /** A replay: the file is cut into batches, and the consumer's handler is called for all that reaches it.
      Whatever happens to the answers, it is called as by one parse of the whole file, exactly when every
      batch goes out as one packet. */
  method Run(file: Bytes, name: Bytes, seqNum: u64, maxPayload: nat, maxMsgs: nat, handler: Handler)
    returns (interrupted: bool, ghost batches: seq<Command>, ghost w: World, ghost received: seq<Bytes>)
    requires AllExact(Bodies(file)) && seqNum + |Bodies(file)| <= U64_MAX
    requires maxPayload < SHORTEST_BODY * 0xFFFF && 1 <= maxMsgs
    requires handler.stopAt == None
    modifies handler
    ensures AreBatches(batches, maxMsgs) && Queued(batches) <= Bodies(file)
    ensures !interrupted ==> Queued(batches) == Bodies(file)
    ensures w.session == PadSession(name) && w.limit == maxPayload && Consumed(w.sent) == Queued(batches)
    ensures w.log == Stored(map[], seqNum, Queued(batches))
    ensures Possible(w, Expected(Some(w.session), None), w.sent)
    ensures Possible(w, Expected(Some(w.session), None), received)
    ensures handler.calls == old(handler.calls) + Consumed(received)
    ensures Within(Queued(batches), Consumed(received)) && AllIn(Consumed(received), Queued(batches))
    ensures AlwaysConsumed(w, Expected(Some(w.session), None), Queued(batches)) <==> OnePacketEach(batches, maxPayload)
    ensures !interrupted ==>
              (AlwaysAsParsed(w, Expected(Some(w.session), None), old(handler.calls), file) <==>
               OnePacketEach(batches, maxPayload))
    ensures !interrupted && OnePacketEach(batches, maxPayload) ==>
              handler.calls == Stream(old(handler.calls), file, None).calls
  {
    var handle := new ServerHandle();
    var count, arrived;
    ghost var sizes;
    interrupted, count, batches, sizes := ReplayFile(file, handle, maxMsgs);
    assert handle.queue == batches;
    PrefixIsExact(Queued(batches), Bodies(file));
    arrived, w := Transmit(name, seqNum, maxPayload, handle.queue);
    received := arrived;
    AlwaysAsParsedIff(w, Expected(Some(w.session), None), handler.calls, file);
    AllHandedOver(handler.calls, arrived);
    ConsumeAll(arrived, handler);
  }

  lemma PrefixIsExact(a: Payloads, all: Payloads)
    requires a <= all && AllExact(all)
    ensures AllExact(a)
  {
    assert a == all[..|a|];
  }

  /** A configuration under which a lossless replay makes no re-request: a batch of the largest messages
      fits the payload limit. */
  lemma SmallBatchesFit(batches: seq<Command>, maxPayload: nat, maxMsgs: nat)
    requires AreBatches(batches, maxMsgs) && AllExact(Queued(batches)) && maxMsgs * LONGEST_BODY <= maxPayload
    ensures OnePacketEach(batches, maxPayload)
  {
    forall n | 0 <= n < |batches| ensures Total(batches[n].msgs) <= maxPayload {
      QueuedBatchIsExact(batches, n);
      ExactTotal(batches[n].msgs);
    }
  }
}
