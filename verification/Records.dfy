/** What a server that sends exact bodies has logged, and how its datagrams are numbered. */
module Records {
  import opened Widths
  import opened Packet
  import opened ItchParser
  import opened Chunking
  import opened Server
  import opened ServerLaws

  /** The log numbers exact bodies from `first` to `next`. */
  ghost predicate Recorded(log: Log, first: nat, next: nat) {
    Dense(log, first, next) && forall n :: n in log ==> Exact(log[n])
  }

  /** A datagram of the session whose number is among those of the log. */
  ghost predicate Stamped(session: Bytes, first: nat, next: nat, d: Bytes) {
    && Parse(d).Some?
    && var p := Parse(d).value; p.session == session && first <= p.seqNum && p.seqNum + p.msgCount <= next
  }

  ghost predicate AllStamped(session: Bytes, first: nat, next: nat, sent: seq<Bytes>) {
    forall i :: 0 <= i < |sent| ==> Stamped(session, first, next, sent[i])
  }

  /** The log holds nothing but bodies among `msgs`. */
  ghost predicate LogIn(log: Log, msgs: Payloads) {
    forall n :: n in log ==> log[n] in msgs
  }

  lemma SelectionIsExact(log: Log, first: nat, next: u64, start: u64, want: nat)
    requires Recorded(log, first, next)
    ensures AllExact(Contiguous(log, start, want))
    ensures first <= start < next && 0 < want ==> Contiguous(log, start, want) != []
  {
    ContiguousIsRange(log, first, next, start, want);
    var msgs := Contiguous(log, start, want);
    forall i | 0 <= i < |msgs| ensures Exact(msgs[i]) {
      assert start + i in log && msgs[i] == log[start + i];
    }
  }

  /** The log of a server that numbered exact bodies from `first` on. */
  lemma LogIsRecorded(first: u64, msgs: Payloads)
    requires AllExact(msgs) && first + |msgs| <= U64_MAX
    ensures Recorded(Stored(map[], first, msgs), first, first + |msgs|) && LogIn(Stored(map[], first, msgs), msgs)
  {
    var log := Stored(map[], first, msgs);
    StoredAt(map[], first, msgs);
    forall n | n in log ensures Exact(log[n]) && log[n] in msgs { assert log[n] == msgs[n - first]; }
  }

  lemma StampedConcat(session: Bytes, first: nat, next: nat, next': nat, a: seq<Bytes>, b: seq<Bytes>)
    requires AllStamped(session, first, next, a) && AllStamped(session, first, next', b) && next <= next'
    ensures AllStamped(session, first, next', a + b)
  {
    forall i | 0 <= i < |a + b| ensures Stamped(session, first, next', (a + b)[i]) {
      if i < |a| { assert Stamped(session, first, next, a[i]); }
    }
  }

  lemma HeartbeatIsStamped(session: Bytes, first: nat, next: u64, sent: seq<Bytes>)
    requires |session| == 10 && first <= next && AllStamped(session, first, next, sent)
    ensures AllStamped(session, first, next, sent + [Header(session, next, HEARTBEAT)])
  {
    var d := Header(session, next, HEARTBEAT);
    SpecialParses(session, next, HEARTBEAT);
    assert Stamped(session, first, next, d);
    StampedConcat(session, first, next, next, sent, [d]);
  }

  lemma PacketIsStamped(session: Bytes, first: nat, next: u64, chunk: Payloads, next': nat)
    requires |session| == 10 && first <= next && |chunk| <= U16_MAX && Framable(chunk) && next + |chunk| <= next'
    ensures Stamped(session, first, next', PacketBytes(session, next, chunk))
  {
    ParseHeader(session, next, |chunk|, Frame(chunk));
  }

  lemma SendIsStamped(session: Bytes, first: nat, next: u64, sent: seq<Bytes>, msgs: Payloads, limit: nat)
    requires |session| == 10 && first <= next && Buildable(Chunks(msgs, limit))
    requires AllStamped(session, first, next, sent)
    ensures AllStamped(session, first, next + |msgs|, sent + Packets(session, next, Chunks(msgs, limit)))
  {
    var chunks := Chunks(msgs, limit);
    var pkts := Packets(session, next, chunks);
    PacketsPerChunk(session, next, chunks);
    forall i | 0 <= i < |pkts| ensures Stamped(session, first, next + |msgs|, pkts[i]) {
      ChunkWithin(msgs, limit, i);
      PacketIsStamped(session, first, next, chunks[i], next + |msgs|);
    }
    StampedConcat(session, first, next, next + |msgs|, sent, pkts);
  }
}
