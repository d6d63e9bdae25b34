/** The MoldUDP64 client: gap detection on the live feed and re-requests for what was missed. */
module Client {
  import opened Widths
  import opened Wrappers
  import opened BigEndian
  import opened Packet

  /** Capacity of the re-request queue and of the consumer's channel. */
  const POOL_SIZE: nat := 1024

  datatype Request = Request(session: Bytes, seqNum: u64, msgCount: u16)

  /** A re-request on the wire. */
  function RequestBytes(r: Request): Bytes {
    Header(r.session, r.seqNum, r.msgCount)
  }

  /** The responder reads the fields the client wrote. */
  lemma RequestIsRead(r: Request)
    requires |r.session| == 10
    ensures var bytes := RequestBytes(r);
            && |bytes| == HEADER_LEN && bytes[..10] == r.session
            && ToU64(bytes[10..18]) == r.seqNum && ToU16(bytes[18..20]) == r.msgCount
  {
    SpecialParses(r.session, r.seqNum, r.msgCount);
  }

  /** The expectation of the live feed. */
  datatype Expected = Expected(session: Option<Bytes>, seqNum: Option<u64>)

  /** The packet belongs to the session the client follows. */
  predicate Tracks(e: Expected, p: Packet) {
    e.session == Some(p.session) && e.seqNum.Some?
  }

  function Gap(e: Expected, p: Packet): nat {
    if Tracks(e, p) && e.seqNum.value < p.seqNum then p.seqNum - e.seqNum.value else 0
  }

  /** The re-request a packet triggers: the first 65535 messages of the gap in front of it. */
  function Missing(e: Expected, p: Packet): Option<Request> {
    if Gap(e, p) == 0 then None
    else Some(Request(p.session, e.seqNum.value, if Gap(e, p) < U16_MAX then Gap(e, p) else U16_MAX))
  }

  function Wanted(e: Expected, p: Packet): seq<Request> {
    if Missing(e, p).Some? then [Missing(e, p).value] else []
  }

  /** The number after the last message the packet announces; 64-bit arithmetic wraps around. */
  function NextExpected(p: Packet): u64 {
    Wrap64(p.seqNum + p.msgCount)
  }

  /** Following a packet, whether or not it belongs to the session followed so far. */
  function Follow(e: Expected, p: Packet): Expected {
    Expected(Some(p.session), Some(NextExpected(p)))
  }

  class Receiver {
    var expectedSession: Option<Bytes>
    var expectedSeqNum: Option<u64>
    /** Re-requests waiting for a sender thread. */
    var requests: seq<Request>
    /** Datagrams waiting for the consumer. */
    var channel: seq<Bytes>
    /** Every re-request and every datagram that ever found room in its queue. */
    ghost var asked: seq<Request>
    ghost var handed: seq<Bytes>

    constructor (session: Option<Bytes>, seqNum: Option<u64>)
      ensures Expectation() == Expected(session, seqNum)
      ensures requests == [] && channel == [] && asked == [] && handed == []
    {
      expectedSession, expectedSeqNum, requests, channel := session, seqNum, [], [];
      asked, handed := [], [];
    }

    function Expectation(): Expected
      reads this
    {
      Expected(expectedSession, expectedSeqNum)
    }

    /** Puts a datagram into the consumer's channel, or drops it when the channel is full. */
    method Forward(datagram: Bytes)
      modifies this`channel, this`handed
      ensures var room := |old(channel)| < POOL_SIZE;
              && channel == (if room then old(channel) + [datagram] else old(channel))
              && handed == (if room then old(handed) + [datagram] else old(handed))
    {
      if |channel| < POOL_SIZE {
        channel := channel + [datagram];
        handed := handed + [datagram];
      }
    }

    /** Gap detection: asks for what is missing in front of the packet, and expects what follows it. */
    method Inspect(p: Packet)
      modifies this`requests, this`asked, this`expectedSession, this`expectedSeqNum
      ensures Expectation() == Follow(old(Expectation()), p)
      ensures var more := if |old(requests)| < POOL_SIZE then Wanted(old(Expectation()), p) else [];
              requests == old(requests) + more && asked == old(asked) + more
    {
      match (expectedSession, expectedSeqNum) {
        case (Some(session), Some(seqNum)) =>
          if session == p.session && p.seqNum > seqNum {
            var gap := p.seqNum - seqNum;
            var msgCount := if gap < U16_MAX then gap else U16_MAX;
            if |requests| < POOL_SIZE {
              requests := requests + [Request(p.session, seqNum, msgCount)];
              asked := asked + [Request(p.session, seqNum, msgCount)];
            }
          }
        case _ =>
      }
      expectedSeqNum := Some(Wrap64(p.seqNum + p.msgCount));
      expectedSession := Some(p.session);
    }

    method ProcessMulticastDatagram(datagram: Bytes)
      modifies this
      ensures match Parse(datagram)
              case None => unchanged(this)
              case Some(p) =>
                var a := Arrival(datagram, p, |old(requests)| < POOL_SIZE, |old(channel)| < POOL_SIZE);
                var more := Accepted(old(Expectation()), a);
                && Expectation() == Follow(old(Expectation()), p)
                && requests == old(requests) + more && asked == old(asked) + more
                && channel == old(channel) + HandedOver(a) && handed == old(handed) + HandedOver(a)
    {
      var packet := Parse(datagram);
      if packet.None? {
        return;
      }
      Inspect(packet.value);
      Forward(datagram);
    }

    /** A retransmission: forwarded, and never counted as progress of the live feed. */
    method ProcessRereqDatagram(datagram: Bytes)
      modifies this
      ensures Expectation() == old(Expectation()) && requests == old(requests) && asked == old(asked)
      ensures var more := if Parse(datagram).Some? && |old(channel)| < POOL_SIZE then [datagram] else [];
              channel == old(channel) + more && handed == old(handed) + more
    {
      if |datagram| < HEADER_LEN {
        return;
      }
      Forward(datagram);
    }

    /** A sender thread takes the oldest re-request. */
    method TakeRequest() returns (r: Request)
      requires requests != []
      modifies this`requests
      ensures [r] + requests == old(requests)
    {
      r := requests[0];
      requests := requests[1..];
    }

    /** The consumer takes the oldest datagram out of its channel. */
    method Receive() returns (datagram: Bytes)
      requires channel != []
      modifies this`channel
      ensures [datagram] + channel == old(channel)
    {
      datagram := channel[0];
      channel := channel[1..];
    }

    /** The receive loop of the live feed.  Before each datagram the sender threads and the consumer may
        have taken any number of entries off the queues. */
    method MulticastRecvLoop(datagrams: seq<Bytes>, taken: seq<(nat, nat)>) returns (ghost arrivals: seq<Arrival>)
      requires |taken| == |datagrams|
      modifies this
      ensures Processed(old(Record()), datagrams, arrivals, Record())
    {
      ghost var h := Record();
      arrivals := [];
      for n := 0 to |datagrams|
        invariant Processed(h, datagrams[..n], arrivals, Record())
      {
        requests := requests[if taken[n].0 < |requests| then taken[n].0 else |requests|..];
        channel := channel[if taken[n].1 < |channel| then taken[n].1 else |channel|..];
        ghost var h1 := Record();
        ghost var requestRoom, channelRoom := |requests| < POOL_SIZE, |channel| < POOL_SIZE;
        ProcessMulticastDatagram(datagrams[n]);
        arrivals := ProcessedOneMore(h, datagrams, n, arrivals, h1, requestRoom, channelRoom);
      }
      assert datagrams[..|datagrams|] == datagrams;
    }

    ghost function Record(): History
      reads this
    {
      History(Expectation(), asked, handed)
    }
  }

  /** Where the client stands, and all it ever asked for and handed over. */
  datatype History = History(expected: Expected, asked: seq<Request>, handed: seq<Bytes>)

  function HistoryAfter(h: History, a: Arrival): History {
    History(Follow(h.expected, a.packet), h.asked + Accepted(h.expected, a), h.handed + HandedOver(a))
  }

  function HistoryAll(h: History, arrivals: seq<Arrival>): History {
    if arrivals == [] then h else HistoryAfter(HistoryAll(h, arrivals[..|arrivals| - 1]), arrivals[|arrivals| - 1])
  }

  /** `datagrams` reached the client as `arrivals`, those too short for a header left out, and led it from
      one history to another. */
  ghost predicate Processed(h: History, datagrams: seq<Bytes>, arrivals: seq<Arrival>, h': History) {
    && Arrived(arrivals) == LongEnough(datagrams)
    && (forall i: nat :: i < |arrivals| ==> Genuine(arrivals[i]))
    && h' == HistoryAll(h, arrivals)
  }

  ghost predicate Genuine(a: Arrival) {
    Parse(a.datagram) == Some(a.packet)
  }

  lemma ProcessedOneMore(h: History, datagrams: seq<Bytes>, n: nat, arrivals: seq<Arrival>, h1: History,
                         requestRoom: bool, channelRoom: bool)
    returns (arrivals': seq<Arrival>)
    requires n < |datagrams| && Processed(h, datagrams[..n], arrivals, h1)
    ensures match Parse(datagrams[n])
            case None => Processed(h, datagrams[..n + 1], arrivals', h1)
            case Some(p) =>
              Processed(h, datagrams[..n + 1], arrivals',
                        HistoryAfter(h1, Arrival(datagrams[n], p, requestRoom, channelRoom)))
  {
    assert datagrams[..n + 1][..n] == datagrams[..n];
    if Parse(datagrams[n]).Some? {
      var a := Arrival(datagrams[n], Parse(datagrams[n]).value, requestRoom, channelRoom);
      arrivals' := arrivals + [a];
      assert arrivals'[..|arrivals|] == arrivals;
    } else {
      arrivals' := arrivals;
      assert LongEnough(datagrams[..n]) + [] == LongEnough(datagrams[..n]);
    }
  }

  /** The datagrams long enough for a header. */
  function LongEnough(datagrams: seq<Bytes>): seq<Bytes> {
    if datagrams == [] then []
    else
      var d := datagrams[|datagrams| - 1];
      LongEnough(datagrams[..|datagrams| - 1]) + (if Parse(d).Some? then [d] else [])
  }

  function Arrived(arrivals: seq<Arrival>): seq<Bytes> {
    if arrivals == [] then [] else Arrived(arrivals[..|arrivals| - 1]) + [arrivals[|arrivals| - 1].datagram]
  }

  /** What an arrival puts into the consumer's channel. */
  function HandedOver(a: Arrival): seq<Bytes> {
    if a.channelRoom then [a.datagram] else []
  }

  /** The re-request an arrival puts into the queue. */
  function Accepted(e: Expected, a: Arrival): seq<Request> {
    if a.requestRoom then Wanted(e, a.packet) else []
  }

  // ---- Coverage ----

  /** A datagram as it reaches the client, its packet, and whether the two queues have room. */
  datatype Arrival = Arrival(datagram: Bytes, packet: Packet, requestRoom: bool, channelRoom: bool)

  /** What became of the numbers of one session since the client took an interest in it. */
  datatype Tally =
    | NotYet
    | Tally(start: nat, high: nat, received: set<nat>, requested: set<nat>, abandoned: set<nat>)

  function Range(lo: nat, hi: nat): (r: set<nat>)
    ensures forall n: nat :: n in r <==> lo <= n < hi
    decreases hi
  {
    if hi <= lo then {} else Range(lo, hi - 1) + {hi - 1}
  }

  /** The numbers the expectation moves over with this packet. */
  function Announced(p: Packet): set<nat> {
    Range(p.seqNum, p.seqNum + p.msgCount)
  }

  /** The numbers asked for. */
  function Asked(e: Expected, a: Arrival): set<nat> {
    var more := Accepted(e, a);
    if more == [] then {} else Range(more[0].seqNum, more[0].seqNum + more[0].msgCount)
  }

  /** The numbers whose messages are handed to the consumer. */
  function Heard(a: Arrival): set<nat> {
    var p := a.packet;
    if a.channelRoom then Range(p.seqNum, p.seqNum + |Blocks(p.messages, p.Advertised())|) else {}
  }

  /** The numbers below the packet that the expectation skips: the gap when the client follows the
      session, and all it has not reached so far when it comes back from another session or finds the
      session for the first time. */
  function Skipped(e: Expected, t: Tally, p: Packet): set<nat> {
    if Tracks(e, p) then Range(p.seqNum - Gap(e, p), p.seqNum)
    else if t.NotYet? then {}
    else Range(t.high, p.seqNum)
  }

  /** The numbers the expectation moves over without receiving or requesting them: the far end of a gap
      wider than one request, a gap with no room in the queue, a packet with no room in the channel, the
      messages a packet announces but does not carry, as an end-of-session packet does 65535 of them, and
      whatever a packet of another session made the client lose sight of. */
  function Abandoned(e: Expected, t: Tally, a: Arrival): set<nat> {
    (Skipped(e, t, a.packet) - Asked(e, a)) + (Announced(a.packet) - Heard(a))
  }

  /** The tally of the session `home` after an arrival. */
  function Count(home: Bytes, e: Expected, t: Tally, a: Arrival): Tally {
    var p := a.packet;
    var end := p.seqNum + p.msgCount;
    if p.session != home then t
    else
      match t
      case NotYet => Tally(p.seqNum, end, Heard(a), {}, Abandoned(e, t, a))
      case Tally(start, high, received, requested, abandoned) =>
        Tally(start, if high < end then end else high,
              received + Heard(a), requested + Asked(e, a), abandoned + Abandoned(e, t, a))
  }

  /** The client's interest in `home` starts at its expected number, unless it is told of another session. */
  function FirstTally(home: Bytes, e: Expected): Tally {
    if e.seqNum.Some? && (e.session.None? || e.session == Some(home))
    then Tally(e.seqNum.value, e.seqNum.value, {}, {}, {}) else NotYet
  }

  function FollowAll(e: Expected, arrivals: seq<Arrival>): Expected {
    if arrivals == [] then e
    else Follow(FollowAll(e, arrivals[..|arrivals| - 1]), arrivals[|arrivals| - 1].packet)
  }

  function CountAll(home: Bytes, e: Expected, t: Tally, arrivals: seq<Arrival>): Tally {
    if arrivals == [] then t
    else
      var before := arrivals[..|arrivals| - 1];
      Count(home, FollowAll(e, before), CountAll(home, e, t, before), arrivals[|arrivals| - 1])
  }

  /** Every number from the start to the highest expectation is accounted for. */
  ghost predicate Covered(home: Bytes, e: Expected, t: Tally) {
    && (e.session == Some(home) && e.seqNum.Some? ==> t.Tally? && e.seqNum.value <= t.high)
    && (t.Tally? ==>
          && t.start <= t.high
          && forall n: nat :: t.start <= n < t.high ==> n in t.received || n in t.requested || n in t.abandoned)
  }

  lemma HeardIsAnnounced(a: Arrival)
    ensures Heard(a) <= Announced(a.packet)
    ensures |Blocks(a.packet.messages, a.packet.Advertised())| <= a.packet.msgCount
  {
    BlocksArePrefix(a.packet.messages, a.packet.Advertised());
  }

  lemma CountKeepsCovered(home: Bytes, e: Expected, t: Tally, a: Arrival)
    requires Covered(home, e, t)
    ensures Covered(home, Follow(e, a.packet), Count(home, e, t, a))
    ensures a.packet.session == home ==>
              Count(home, e, t, a).Tally? && a.packet.seqNum + a.packet.msgCount <= Count(home, e, t, a).high
  {
    var p := a.packet;
    var t' := Count(home, e, t, a);
    if p.session == home {
      HeardIsAnnounced(a);
      forall n: nat | t'.start <= n < t'.high
        ensures n in t'.received || n in t'.requested || n in t'.abandoned
      {
        if t.NotYet? || t.high <= n {
          assert n in Announced(p) || n in Skipped(e, t, p);
        }
      }
    }
  }

  /** Whatever is lost, duplicated or reordered, and whatever other sessions come in between: every number
      of `home` from where the client's interest starts up to its highest expectation was handed over live,
      was asked for again, or is one the client moved past. */
  lemma {:induction false} FeedIsCovered(home: Bytes, e: Expected, t: Tally, arrivals: seq<Arrival>)
    requires Covered(home, e, t)
    ensures Covered(home, FollowAll(e, arrivals), CountAll(home, e, t, arrivals))
  {
    if arrivals != [] {
      var n := |arrivals| - 1;
      FeedIsCovered(home, e, t, arrivals[..n]);
      CountKeepsCovered(home, FollowAll(e, arrivals[..n]), CountAll(home, e, t, arrivals[..n]), arrivals[n]);
    }
  }

  /** The packet carries all it announces, and there is room for it. */
  ghost predicate Whole(a: Arrival) {
    a.packet.msgCount == 0 ||
    (a.channelRoom && |Blocks(a.packet.messages, a.packet.Advertised())| == a.packet.msgCount)
  }

  /** The gap in front of the packet, if any, fits one request for which there is room. */
  ghost predicate Recoverable(e: Expected, a: Arrival) {
    Gap(e, a.packet) == 0 || (a.requestRoom && Gap(e, a.packet) <= U16_MAX)
  }

  lemma RangesMatch(lo: nat, mid: nat, hi: nat)
    requires lo <= mid <= hi
    ensures Range(lo, hi) - Range(lo, mid) == {} <==> mid == hi
    ensures Range(lo, hi) == {} <==> lo == hi
  {
    if mid < hi { assert hi - 1 in Range(lo, hi) - Range(lo, mid); }
    if lo < hi { assert hi - 1 in Range(lo, hi); }
  }

  lemma NothingUnheardIff(a: Arrival)
    ensures Announced(a.packet) - Heard(a) == {} <==> Whole(a)
  {
    var p := a.packet;
    HeardIsAnnounced(a);
    var carried := |Blocks(p.messages, p.Advertised())|;
    RangesMatch(p.seqNum, p.seqNum + carried, p.seqNum + p.msgCount);
    assert Announced(p) - {} == Announced(p);
  }

  lemma NothingUnaskedIff(e: Expected, a: Arrival)
    requires Tracks(e, a.packet)
    ensures Range(a.packet.seqNum - Gap(e, a.packet), a.packet.seqNum) - Asked(e, a) == {} <==> Recoverable(e, a)
  {
    var p, gap := a.packet, Gap(e, a.packet);
    var first := p.seqNum - gap;
    if gap > 0 {
      RangesMatch(first, first + (if gap < U16_MAX then gap else U16_MAX), p.seqNum);
    }
    RangesMatch(first, first, p.seqNum);
    assert Range(first, p.seqNum) - {} == Range(first, p.seqNum);
  }

  /** A packet makes the client move past nothing exactly when it carries all it announces and has room,
      and what is in front of it can be asked for, or, where the client does not follow its session, was
      reached before. */
  lemma NothingAbandonedIff(e: Expected, t: Tally, a: Arrival)
    ensures Abandoned(e, t, a) == {} <==>
            && Whole(a)
            && if Tracks(e, a.packet) then Recoverable(e, a) else t.NotYet? || a.packet.seqNum <= t.high
  {
    NothingUnheardIff(a);
    if Tracks(e, a.packet) {
      NothingUnaskedIff(e, a);
    } else {
      assert Skipped(e, t, a.packet) - {} == Skipped(e, t, a.packet);
      if t.Tally? && t.high <= a.packet.seqNum { RangesMatch(t.high, t.high, a.packet.seqNum); }
    }
  }

  /** A re-request is queued exactly for a packet beyond the expected number of the session followed, when
      the queue has room.  So there is none for what precedes the first packet of a session, with or
      without an expected number for it. */
  lemma AskedIff(e: Expected, a: Arrival)
    ensures Accepted(e, a) != [] <==>
            && e.session == Some(a.packet.session) && e.seqNum.Some? && e.seqNum.value < a.packet.seqNum
            && a.requestRoom
    ensures Accepted(e, a) != [] ==>
              var r := Accepted(e, a)[0];
              && Accepted(e, a) == [r] && r.session == a.packet.session && r.seqNum == e.seqNum.value
              && 0 < r.msgCount && r.seqNum + r.msgCount <= a.packet.seqNum
              && (r.seqNum + r.msgCount == a.packet.seqNum || r.msgCount == U16_MAX)
  {
  }

  /** Whatever it expected before, a packet makes the client expect the number behind the last message the
      packet announces. */
  lemma ExpectsNumberBehind(e: Expected, p: Packet)
    ensures Follow(e, p).session == Some(p.session)
    ensures Follow(e, p).seqNum.Some? &&
            Follow(e, p).seqNum.value == (p.seqNum + p.msgCount) % 0x1_0000_0000_0000_0000
  {
    WrapIsModulo(p.seqNum + p.msgCount);
  }

  /** An end of session counts as 65535 messages.  So when the session goes on after one, the client asks for
      nothing in front of its next packet, unless that is further ahead. */
  lemma EndHidesGap(e: Expected, end: Packet, a: Arrival)
    requires end.Kind() == EndOfSession && a.packet.session == end.session && end.seqNum + 0xFFFF <= U64_MAX
    ensures Accepted(Follow(e, end), a) != [] <==> end.seqNum + 0xFFFF < a.packet.seqNum && a.requestRoom
  {
  }

  /** A feed in which no packet of `home` makes the client move past a number. */
  ghost predicate Gentle(home: Bytes, e: Expected, t: Tally, arrivals: seq<Arrival>) {
    arrivals == [] || (
      var before, last := arrivals[..|arrivals| - 1], arrivals[|arrivals| - 1];
      && Gentle(home, e, t, before)
      && (last.packet.session == home ==> Abandoned(FollowAll(e, before), CountAll(home, e, t, before), last) == {}))
  }

  /** Such a feed is covered by what was handed over or asked for; after a heartbeat at `n` that is
      everything below `n`. */
  lemma {:induction false} GentleFeedAbandonsNothing(home: Bytes, e: Expected, t: Tally, arrivals: seq<Arrival>)
    requires Covered(home, e, t) && (t.Tally? ==> t.abandoned == {}) && Gentle(home, e, t, arrivals)
    ensures var t' := CountAll(home, e, t, arrivals);
            && (t'.Tally? ==>
                  && t'.abandoned == {}
                  && forall n: nat :: t'.start <= n < t'.high ==> n in t'.received || n in t'.requested)
            && (arrivals != [] && arrivals[|arrivals| - 1].packet.session == home ==>
                  var p := arrivals[|arrivals| - 1].packet;
                  t'.Tally? && p.seqNum + p.msgCount <= t'.high)
  {
    if arrivals != [] {
      var n := |arrivals| - 1;
      GentleFeedAbandonsNothing(home, e, t, arrivals[..n]);
      FeedIsCovered(home, e, t, arrivals[..n]);
      CountKeepsCovered(home, FollowAll(e, arrivals[..n]), CountAll(home, e, t, arrivals[..n]), arrivals[n]);
    }
  }

  // ---- A pinned session ----

  /** Told to expect a session, the client stays on it exactly when no packet of another one arrives:
      unlike documented it drops none, but follows it. */
  lemma {:induction false} StaysPinnedIff(home: Bytes, e: Expected, arrivals: seq<Arrival>)
    requires e.session == Some(home)
    ensures (forall n: nat :: n <= |arrivals| ==> FollowAll(e, arrivals[..n]).session == Some(home)) <==>
            forall i: nat :: i < |arrivals| ==> arrivals[i].packet.session == home
  {
    forall n: nat | n < |arrivals|
      ensures FollowAll(e, arrivals[..n + 1]).session == Some(arrivals[n].packet.session)
    {
      assert arrivals[..n + 1][..n] == arrivals[..n];
    }
    if forall n: nat :: n <= |arrivals| ==> FollowAll(e, arrivals[..n]).session == Some(home) {
      forall i: nat | i < |arrivals| ensures arrivals[i].packet.session == home {
        assert FollowAll(e, arrivals[..i + 1]).session == Some(home);
      }
    } else {
      var n: nat :| n <= |arrivals| && FollowAll(e, arrivals[..n]).session != Some(home);
      assert n > 0 && arrivals[n - 1].packet.session != home;
    }
  }

  ghost predicate AllOf(home: Bytes, datagrams: seq<Bytes>) {
    forall i: nat :: i < |datagrams| ==> IsOf(home, datagrams[i])
  }

  ghost predicate IsOf(home: Bytes, d: Bytes) {
    Parse(d).Some? && Parse(d).value.session == home
  }

  lemma AllOfConcat(home: Bytes, a: seq<Bytes>, b: seq<Bytes>)
    ensures AllOf(home, a + b) <==> AllOf(home, a) && AllOf(home, b)
  {
    if AllOf(home, a + b) {
      forall i: nat | i < |a| ensures IsOf(home, a[i]) { assert IsOf(home, (a + b)[i]); }
      forall i: nat | i < |b| ensures IsOf(home, b[i]) { assert IsOf(home, (a + b)[|a| + i]); }
    }
  }

  /** Nor does it keep the consumer from them: only packets of `home` are handed over exactly when no
      other packet finds room. */
  lemma {:induction false} OnlyPinnedForwardedIff(home: Bytes, h: History, arrivals: seq<Arrival>)
    requires h.handed == [] && forall i: nat :: i < |arrivals| ==> Genuine(arrivals[i])
    ensures AllOf(home, HistoryAll(h, arrivals).handed) <==>
            forall i: nat :: i < |arrivals| ==> AdmissibleFor(home, arrivals[i])
  {
    if arrivals != [] {
      var n := |arrivals| - 1;
      var before := HistoryAll(h, arrivals[..n]).handed;
      assert forall i: nat :: i < n ==> arrivals[..n][i] == arrivals[i];
      OnlyPinnedForwardedIff(home, h, arrivals[..n]);
      HandedIsOf(home, arrivals[n]);
      AllOfConcat(home, before, HandedOver(arrivals[n]));
      assert HistoryAll(h, arrivals).handed == before + HandedOver(arrivals[n]);
    }
  }

  /** A packet of `home`, or one that finds no room. */
  predicate AdmissibleFor(home: Bytes, a: Arrival) {
    !a.channelRoom || a.packet.session == home
  }

  lemma HandedIsOf(home: Bytes, a: Arrival)
    requires Genuine(a)
    ensures AllOf(home, HandedOver(a)) <==> AdmissibleFor(home, a)
  {
    assert a.channelRoom ==> HandedOver(a)[0] == a.datagram;
    if a.channelRoom && AllOf(home, HandedOver(a)) { assert IsOf(home, HandedOver(a)[0]); }
  }

  /** One heartbeat of another session, and the numbers up to the next packet of the pinned one are neither
      received nor asked for. */
  lemma PinnedGapIsLost(home: Bytes, other: Bytes)
    requires |home| == |other| == 10 && home != other
    ensures var first := Arrival(Header(other, 7, HEARTBEAT), Packet(other, 7, HEARTBEAT, []), true, true);
            var second := Arrival(Header(home, 100, HEARTBEAT), Packet(home, 100, HEARTBEAT, []), true, true);
            var e := Expected(Some(home), Some(5));
            && Genuine(first) && Genuine(second)
            && FollowAll(e, [first, second]) == Expected(Some(home), Some(100))
            && HistoryAll(History(e, [], []), [first, second]).asked == []
            && CountAll(home, e, FirstTally(home, e), [first, second]) == Tally(5, 100, {}, {}, Range(5, 100))
  {
    HeartbeatIsGenuine(other, 7);
    HeartbeatIsGenuine(home, 100);
    TwoHeartbeats(home, Arrival(Header(other, 7, HEARTBEAT), Packet(other, 7, HEARTBEAT, []), true, true),
                  Arrival(Header(home, 100, HEARTBEAT), Packet(home, 100, HEARTBEAT, []), true, true));
  }

  lemma HeartbeatIsGenuine(session: Bytes, seqNum: u64)
    requires |session| == 10
    ensures Genuine(Arrival(Header(session, seqNum, HEARTBEAT), Packet(session, seqNum, HEARTBEAT, []), true, true))
  {
    SpecialParses(session, seqNum, HEARTBEAT);
  }

  lemma TwoHeartbeats(home: Bytes, first: Arrival, second: Arrival)
    requires first.packet.session != home && second.packet.session == home && second.packet.seqNum == 100
    requires first.packet.msgCount == second.packet.msgCount == 0
    ensures var e := Expected(Some(home), Some(5));
            && FollowAll(e, [first, second]) == Expected(Some(home), Some(100))
            && HistoryAll(History(e, [], []), [first, second]).asked == []
            && CountAll(home, e, FirstTally(home, e), [first, second]) == Tally(5, 100, {}, {}, Range(5, 100))
  {
    var arrivals, none: seq<Arrival> := [first, second], [];
    var e, t := Expected(Some(home), Some(5)), Tally(5, 5, {}, {}, {});
    assert arrivals[..1] == [first] && [first][..0] == none && arrivals[1] == second && [first][0] == first;
    assert FollowAll(e, [first]) == Follow(FollowAll(e, none), first.packet);
    assert HistoryAll(History(e, [], []), [first]) == HistoryAfter(HistoryAll(History(e, [], []), none), first);
    assert CountAll(home, e, t, [first]) == Count(home, FollowAll(e, none), CountAll(home, e, t, none), first);
    HeardIsAnnounced(second);
    RangesMatch(100, 100, 100);
  }

  /** The highest expectation of `home` that a feed reaches from `s` on. */
  function Reach(home: Bytes, s: nat, arrivals: seq<Arrival>): nat {
    if arrivals == [] then s
    else
      var reach, p := Reach(home, s, arrivals[..|arrivals| - 1]), arrivals[|arrivals| - 1].packet;
      if p.session == home && reach < p.seqNum + p.msgCount then p.seqNum + p.msgCount else reach
  }

  lemma {:induction false} PinnedTally(home: Bytes, s: u64, arrivals: seq<Arrival>)
    ensures var e := Expected(Some(home), Some(s));
            var t := CountAll(home, e, FirstTally(home, e), arrivals);
            t.Tally? && t.start == s && t.high == Reach(home, s, arrivals)
  {
    if arrivals != [] { PinnedTally(home, s, arrivals[..|arrivals| - 1]); }
  }

  /** Every number of a pinned session, from the one the client was told to expect to the highest it got to,
      was handed over, asked for, or moved past. */
  lemma PinnedSessionIsCovered(home: Bytes, s: u64, arrivals: seq<Arrival>)
    ensures var e := Expected(Some(home), Some(s));
            var t := CountAll(home, e, FirstTally(home, e), arrivals);
            && t.Tally?
            && forall n: nat :: s <= n < Reach(home, s, arrivals) ==>
                 n in t.received || n in t.requested || n in t.abandoned
  {
    var e := Expected(Some(home), Some(s));
    PinnedTally(home, s, arrivals);
    FeedIsCovered(home, e, FirstTally(home, e), arrivals);
  }

  /** Every packet is whole, and its gap recoverable. */
  ghost predicate Smooth(e: Expected, arrivals: seq<Arrival>) {
    arrivals == [] || (
      var before, last := arrivals[..|arrivals| - 1], arrivals[|arrivals| - 1];
      Smooth(e, before) && Whole(last) && Recoverable(FollowAll(e, before), last))
  }

  /** When all packets are of the pinned session, it moves past nothing exactly when every packet is whole
      and every gap recoverable, and then nothing is missing. */
  lemma PinnedFeedIsComplete(home: Bytes, s: u64, arrivals: seq<Arrival>)
    requires forall i: nat :: i < |arrivals| ==> arrivals[i].packet.session == home
    ensures var e := Expected(Some(home), Some(s));
            Gentle(home, e, FirstTally(home, e), arrivals) <==> Smooth(e, arrivals)
    ensures var e := Expected(Some(home), Some(s));
            var t := CountAll(home, e, FirstTally(home, e), arrivals);
            Gentle(home, e, FirstTally(home, e), arrivals) ==>
              t.Tally? && forall n: nat :: s <= n < Reach(home, s, arrivals) ==> n in t.received || n in t.requested
  {
    var e := Expected(Some(home), Some(s));
    PinnedTally(home, s, arrivals);
    PinnedGentleIff(home, e, arrivals);
    if Gentle(home, e, FirstTally(home, e), arrivals) {
      GentleFeedAbandonsNothing(home, e, FirstTally(home, e), arrivals);
    }
  }

  lemma {:induction false} PinnedGentleIff(home: Bytes, e: Expected, arrivals: seq<Arrival>)
    requires e.session == Some(home) && e.seqNum.Some?
    requires forall i: nat :: i < |arrivals| ==> arrivals[i].packet.session == home
    ensures Tracks(FollowAll(e, arrivals), Packet(home, 0, 0, []))
    ensures Gentle(home, e, FirstTally(home, e), arrivals) <==> Smooth(e, arrivals)
  {
    if arrivals != [] {
      var n := |arrivals| - 1;
      assert forall i: nat :: i < n ==> arrivals[..n][i] == arrivals[i];
      PinnedGentleIff(home, e, arrivals[..n]);
      NothingAbandonedIff(FollowAll(e, arrivals[..n]), CountAll(home, e, FirstTally(home, e), arrivals[..n]),
                          arrivals[n]);
    }
  }

  // ---- A client that has not seen the session yet ----

  /** Told to expect number 5 of whatever session comes first, the client asks for nothing when that session
      is already at 100. */
  lemma FreshGapIsLost(home: Bytes)
    requires |home| == 10
    ensures var first := Arrival(Header(home, 100, HEARTBEAT), Packet(home, 100, HEARTBEAT, []), true, true);
            var e := Expected(None, Some(5));
            && Genuine(first)
            && HistoryAll(History(e, [], []), [first]).asked == []
            && CountAll(home, e, FirstTally(home, e), [first]) == Tally(5, 100, {}, {}, Range(5, 100))
  {
    HeartbeatIsGenuine(home, 100);
    OneHeartbeat(home, Arrival(Header(home, 100, HEARTBEAT), Packet(home, 100, HEARTBEAT, []), true, true));
  }

  lemma OneHeartbeat(home: Bytes, first: Arrival)
    requires first.packet.session == home && first.packet.seqNum == 100 && first.packet.msgCount == 0
    ensures var e := Expected(None, Some(5));
            && HistoryAll(History(e, [], []), [first]).asked == []
            && CountAll(home, e, FirstTally(home, e), [first]) == Tally(5, 100, {}, {}, Range(5, 100))
  {
    var one, none: seq<Arrival> := [first], [];
    assert one[..0] == none;
    HeardIsAnnounced(first);
    RangesMatch(100, 100, 100);
  }

  /** Such a client moves past nothing exactly when its first packet comes no later than the number it was
      told to expect, and from then on every packet is whole and every gap recoverable. */
  lemma {:induction false} FreshGentleIff(home: Bytes, s: u64, arrivals: seq<Arrival>)
    requires forall i: nat :: i < |arrivals| ==> arrivals[i].packet.session == home
    ensures var e := Expected(None, Some(s));
            Gentle(home, e, FirstTally(home, e), arrivals) <==>
            arrivals == [] || (arrivals[0].packet.seqNum <= s && Smooth(e, arrivals))
    ensures arrivals != [] ==> Tracks(FollowAll(Expected(None, Some(s)), arrivals), Packet(home, 0, 0, []))
  {
    if arrivals != [] {
      var e, n := Expected(None, Some(s)), |arrivals| - 1;
      var before := arrivals[..n];
      assert forall i: nat :: i < n ==> before[i] == arrivals[i];
      FreshGentleIff(home, s, before);
      NothingAbandonedIff(FollowAll(e, before), CountAll(home, e, FirstTally(home, e), before), arrivals[n]);
    }
  }
}
