/** What the server keeps over whole runs, and exactly what it sends. */
module ServerLaws {
  import opened Widths
  import opened Wrappers
  import opened BigEndian
  import opened Packet
  import opened Chunking
  import opened Server

  // ---- The log ----

  /** The log numbers its messages from `first` without a gap. */
  ghost predicate Dense(log: Log, first: nat, next: nat) {
    first <= next && forall n: u64 :: n in log <==> first <= n < next
  }

  /** Nothing that was logged is ever changed or forgotten. */
  ghost predicate Extends(log: Log, log': Log) {
    forall n :: n in log ==> n in log' && log'[n] == log[n]
  }

  lemma {:induction false} StoredAt(log: Log, start: u64, msgs: seq<Bytes>)
    requires start + |msgs| <= U64_MAX
    ensures forall n: u64 :: n in Stored(log, start, msgs) <==> n in log || start <= n < start + |msgs|
    ensures forall n: u64 :: start <= n < start + |msgs| ==> Stored(log, start, msgs)[n] == msgs[n - start]
    ensures forall n: u64 :: n in log && !(start <= n < start + |msgs|) ==> Stored(log, start, msgs)[n] == log[n]
  {
    if msgs != [] { StoredAt(log, start, msgs[..|msgs| - 1]); }
  }

  ghost predicate Logs(log: Log, n: u64, msg: Bytes) {
    n in log && log[n] == msg
  }

  /** How far a number is ahead of another, going on at 0 behind the last one. */
  function Ahead(start: u64, n: u64): nat {
    if start <= n then n - start else n + (U64_MAX + 1) - start
  }

  /** Also where numbers wrap around, the messages are stored under the numbers ahead of the start. */
  lemma {:induction false} StoredWraps(log: Log, start: u64, msgs: seq<Bytes>, n: u64)
    requires |msgs| <= U64_MAX
    ensures if Ahead(start, n) < |msgs| then Logs(Stored(log, start, msgs), n, msgs[Ahead(start, n)])
            else n in Stored(log, start, msgs) <==> n in log
    ensures |msgs| <= Ahead(start, n) && n in log ==> Logs(Stored(log, start, msgs), n, log[n])
  {
    if msgs != [] {
      var m := |msgs| - 1;
      StoredWraps(log, start, msgs[..m], n);
      assert n == Wrap64(start + m) <==> Ahead(start, n) == m by { WrapOnce(start + m); }
    }
  }

  lemma WrapOnce(n: nat)
    requires n < 2 * (U64_MAX + 1)
    ensures Wrap64(n) == if n <= U64_MAX then n else n - (U64_MAX + 1)
  {
  }

  /** Storing one list behind another is storing both at once. */
  lemma {:induction false} MoreIsStored(log: Log, start: u64, a: Payloads, b: Payloads)
    requires start + |a| + |b| <= U64_MAX
    ensures Stored(Stored(log, start, a), start + |a|, b) == Stored(log, start, a + b)
    decreases |b|
  {
    if b == [] {
      assert a + b == a;
    } else {
      var n := |b| - 1;
      MoreIsStored(log, start, a, b[..n]);
      assert (a + b)[..|a| + n] == a + b[..n];
    }
  }

  /** How many messages an input asks the sender to number. */
  function Numbered(input: Input): nat {
    match input
    case Cmd(Send(msgs)) => |msgs|
    case Cmd(SendDropped(msgs)) => |msgs|
    case _ => 0
  }

  function NumberedAll(inputs: seq<Input>, n: nat): nat
    requires n <= |inputs|
  {
    if n == 0 then 0 else NumberedAll(inputs, n - 1) + Numbered(inputs[n - 1])
  }

  lemma StepKeepsLog(s: Sender, input: Input, limit: nat, first: nat)
    requires Accepts(s, input, limit) && Dense(s.log, first, s.nextSeq) && s.nextSeq + Numbered(input) <= U64_MAX
    ensures var s' := Step(s, input, limit).0;
            Dense(s'.log, first, s'.nextSeq) && Extends(s.log, s'.log) && s'.nextSeq <= s.nextSeq + Numbered(input)
  {
    if input.Cmd? && (input.cmd.Send? || input.cmd.SendDropped?) && !s.stopped {
      StoredAt(s.log, s.nextSeq, input.cmd.msgs);
    }
  }

  /** As long as there are numbers for all messages: after every input of a run the log is dense up to the
      next number, and it only ever grows. */
  lemma {:induction false} LogIsDense(s: Sender, inputs: seq<Input>, n: nat, limit: nat, first: nat)
    requires n <= |inputs| && AcceptsAll(s, inputs, n, limit) && Dense(s.log, first, s.nextSeq)
    requires s.nextSeq + NumberedAll(inputs, n) <= U64_MAX
    ensures var s' := Run(s, inputs, n, limit);
            && Dense(s'.log, first, s'.nextSeq) && Extends(s.log, s'.log)
            && s'.nextSeq <= s.nextSeq + NumberedAll(inputs, n)
  {
    if 0 < n {
      LogIsDense(s, inputs, n - 1, limit, first);
      StepKeepsLog(Run(s, inputs, n - 1, limit), inputs[n - 1], limit, first);
    }
  }

  // ---- The end of the session ----

  /** A stopped sender stays stopped, and from then on only announces the end of the session at a fixed
      sequence number; no message goes out or into the log any more. */
  lemma {:induction false} StoppedSendsOnlyEndOfSession(s: Sender, inputs: seq<Input>, n: nat, limit: nat)
    requires n <= |inputs| && AcceptsAll(s, inputs, n, limit) && s.stopped
    ensures Run(s, inputs, n, limit) == s
    ensures forall i :: 0 <= i < |Sent(s, inputs, n, limit)| ==>
              Parse(Sent(s, inputs, n, limit)[i]) == Some(Packet(s.session, s.nextSeq, END_OF_SESSION, []))
  {
    if 0 < n {
      StoppedSendsOnlyEndOfSession(s, inputs, n - 1, limit);
      SpecialParses(s.session, s.nextSeq, END_OF_SESSION);
    }
  }

  // ---- Re-requests ----

  /** From any log a re-request selects logged messages under consecutive numbers, and stops short of the
      wanted count only at a number that is not logged. */
  lemma {:induction false} SelectionStopsAtGap(log: Log, start: u64, want: nat)
    ensures var msgs := Contiguous(log, start, want);
            && |msgs| <= want
            && (forall i: nat :: i < |msgs| ==> Logs(log, Wrap64(start + i), msgs[i]))
            && (|msgs| < want ==> Wrap64(start + |msgs|) !in log)
    decreases want
  {
    if want > 0 && start in log {
      var later := Contiguous(log, Wrap64(start + 1), want - 1);
      SelectionStopsAtGap(log, Wrap64(start + 1), want - 1);
      forall i: nat | i < |later| + 1
        ensures Logs(log, Wrap64(start + i), ([log[start]] + later)[i])
      {
        if i > 0 {
          WrapTwice(start, i - 1);
          assert Logs(log, Wrap64(Wrap64(start + 1) + (i - 1)), later[i - 1]);
        }
      }
      WrapTwice(start, |later|);
    }
  }

  lemma WrapTwice(start: u64, i: nat)
    ensures Wrap64(Wrap64(start + 1) + i) == Wrap64(start + (i + 1))
  {
  }

  /** From a dense log a re-request selects exactly the requested range, cut off at the next number. */
  lemma {:induction false} ContiguousIsRange(log: Log, first: nat, next: nat, start: u64, want: nat)
    requires Dense(log, first, next) && next <= U64_MAX
    ensures var msgs := Contiguous(log, start, want);
            && |msgs| == (if first <= start < next then if want < next - start then want else next - start else 0)
            && (forall i :: 0 <= i < |msgs| ==> start + i in log && msgs[i] == log[start + i])
    decreases want
  {
    if want > 0 && start in log {
      ContiguousIsRange(log, first, next, start + 1, want - 1);
      var later := Contiguous(log, start + 1, want - 1);
      forall i | 0 <= i < |later| + 1
        ensures start + i in log && ([log[start]] + later)[i] == log[start + i]
      {
        if i > 0 { assert later[i - 1] == log[start + 1 + (i - 1)]; }
      }
    }
  }

  /** A re-request for numbers that were given out already selects the same from any later log. */
  lemma LaterLogAnswersAlike(log: Log, log': Log, first: nat, next: nat, next': nat, start: u64, want: nat)
    requires Dense(log, first, next) && Dense(log', first, next') && Extends(log, log')
    requires start + want <= next <= next' <= U64_MAX
    ensures Contiguous(log', start, want) == Contiguous(log, start, want)
  {
    ContiguousIsRange(log, first, next, start, want);
    ContiguousIsRange(log', first, next', start, want);
    var msgs, msgs' := Contiguous(log, start, want), Contiguous(log', start, want);
    forall i | 0 <= i < |msgs| ensures msgs'[i] == msgs[i] {
      assert start + i in log && log'[start + i] == log[start + i];
    }
  }

  lemma {:induction false} PacketsPerChunk(session: Bytes, seqNum: u64, chunks: seq<Payloads>)
    requires Buildable(chunks)
    ensures |Packets(session, seqNum, chunks)| == |chunks|
    ensures forall i :: 0 <= i < |chunks| ==>
              Packets(session, seqNum, chunks)[i] == PacketBytes(session, seqNum, chunks[i])
  {
    if chunks != [] { PacketsPerChunk(session, seqNum, chunks[..|chunks| - 1]); }
  }

  /** A re-request is answered exactly when it is a whole header for the session the responder was
      started with that asks for at least one message the log has. */
  lemma AnsweredIff(session: Bytes, log: Log, request: Bytes, limit: nat)
    requires |session| == 10 && Buildable(Chunks(Selected(session, log, request), limit))
    ensures Replies(session, log, request, limit) != [] <==>
            && Parse(request).Some?
            && var p := Parse(request).value; p.session == session && 0 < p.msgCount && p.seqNum in log
  {
    ChunksPartition(Selected(session, log, request), limit);
    if HEADER_LEN <= |request| {
      PacketsPerChunk(session, ToU64(request[10..18]), Chunks(Selected(session, log, request), limit));
    }
  }

  /** Every packet of an answer is of the responder's session and carries the number asked for. */
  lemma AnswerIsStamped(session: Bytes, log: Log, request: Bytes, limit: nat)
    requires |session| == 10 && Buildable(Chunks(Selected(session, log, request), limit))
    ensures var chunks := Chunks(Selected(session, log, request), limit);
            var replies := Replies(session, log, request, limit);
            && |replies| == |chunks|
            && forall i :: 0 <= i < |replies| ==>
                 && Parse(request).Some? && |chunks[i]| <= U16_MAX && Framable(chunks[i])
                 && Parse(replies[i]) ==
                    Some(Packet(session, Parse(request).value.seqNum, |chunks[i]|, Frame(chunks[i])))
  {
    if |request| < HEADER_LEN {
      assert Chunks([], limit) == [];
    } else {
      var start, chunks := ToU64(request[10..18]), Chunks(Selected(session, log, request), limit);
      PacketsPerChunk(session, start, chunks);
      forall i | 0 <= i < |chunks|
        ensures Parse(Packets(session, start, chunks)[i]) ==
                Some(Packet(session, start, |chunks[i]|, Frame(chunks[i])))
      {
        ParseHeader(session, start, |chunks[i]|, Frame(chunks[i]));
      }
    }
  }

  /** A server that was started as one session and goes on as another logs what it sends, but a re-request
      for it under the new name selects nothing, whatever is asked for. */
  lemma RenamedSessionIsNotServed(a: Bytes, b: Bytes, log: Log, start: u64, want: u16, limit: nat)
    requires |a| == |b| == 10 && a != b
    ensures Selected(a, log, Header(b, start, want)) == []
    ensures Replies(a, log, Header(b, start, want), limit) == []
  {
    SpecialParses(b, start, want);
    assert Chunks([], limit) == [];
  }

  /** For instance session A renamed to B, and number 1 asked for. */
  lemma RenamedToB(limit: nat)
    ensures var a, b := PadSession([0x41]), PadSession([0x42]);
            && Step(Sender(a, false, 1, map[]), Cmd(ChangeSession([0x42])), limit).0 == Sender(b, false, 1, map[])
            && Step(Sender(b, false, 1, map[]), Cmd(SendDropped([[7]])), limit).0.log == map[1 := [7]]
            && Selected(a, map[1 := [7]], Header(b, 1, 1)) == []
            && Replies(a, map[1 := [7]], Header(b, 1, 1), limit) == []
  {
    var a, b := PadSession([0x41]), PadSession([0x42]);
    assert a[0] != b[0];
    RenamedSessionIsNotServed(a, b, map[1 := [7]], 1, 1, limit);
    LogOfOne([7]);
  }

  lemma LogOfOne(msg: Bytes)
    ensures Stored(map[], 1, [msg]) == map[1 := msg]
  {
    var one, none: seq<Bytes> := [msg], [];
    assert one[..0] == none && Stored(map[], 1, none) == map[];
  }

  // ---- Chunked sends ----

  /** A chunk as long as the whole list leaves no message for another chunk. */
  lemma WholeChunkIsOnlyChunk(chunks: seq<Payloads>, i: nat)
    requires i < |chunks| && forall j :: 0 <= j < |chunks| ==> chunks[j] != []
    ensures |chunks[i]| == |Flatten(chunks)| <==> |chunks| == 1
  {
    ChunkIsSlice(chunks, i);
    if |chunks| > 1 {
      var j := if i == 0 then 1 else 0;
      ChunkIsSlice(chunks, j);
      if i == 0 {
        assert Start(chunks, 1) < Start(chunks, 2);
      } else {
        StartGrows(chunks, 1, i);
      }
    } else {
      FlattenOne(chunks[0]);
      assert chunks == [chunks[0]];
    }
  }

  lemma {:induction false} StartGrows(chunks: seq<Payloads>, i: nat, j: nat)
    requires i <= j <= |chunks|
    ensures Start(chunks, i) <= Start(chunks, j)
  {
    if i < j {
      StartGrows(chunks, i, j - 1);
      ChunkIsSlice(chunks, j - 1);
    }
  }

  lemma ChunkWithin(msgs: seq<Bytes>, limit: nat, i: nat)
    requires i < |Chunks(msgs, limit)|
    ensures var chunks := Chunks(msgs, limit);
            |chunks[i]| <= |msgs| && (|chunks[i]| == |msgs| <==> |chunks| == 1)
  {
    var chunks := Chunks(msgs, limit);
    ChunksPartition(msgs, limit);
    assert forall j :: 0 <= j < |chunks| ==> Admissible(chunks[j], limit);
    ChunkIsSlice(chunks, i);
    WholeChunkIsOnlyChunk(chunks, i);
  }

  /** Every chunk is within the list, and the whole list only when it is the only one. */
  lemma ChunksWithin(msgs: seq<Bytes>, limit: nat)
    requires msgs != []
    ensures var chunks := Chunks(msgs, limit);
            && chunks != [] && (|chunks| == 1 <==> |msgs| == 1 || Total(msgs) <= limit)
            && forall i :: 0 <= i < |chunks| ==> |chunks[i]| <= |msgs| && (|chunks[i]| == |msgs| <==> |chunks| == 1)
  {
    OneChunkIff(msgs, limit);
    forall i | 0 <= i < |Chunks(msgs, limit)|
      ensures var chunks := Chunks(msgs, limit); |chunks[i]| <= |msgs| && (|chunks[i]| == |msgs| <==> |chunks| == 1)
    {
      ChunkWithin(msgs, limit, i);
    }
  }
}
