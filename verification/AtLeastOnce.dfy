/** What every delivery has in common, whatever happens to the answers: all that was sent is consumed in
    order, and nothing is consumed that was not sent. */
module AtLeastOnce {
  import opened Widths
  import opened Packet
  import opened ItchParser
  import opened Chunking
  import opened Server
  import opened ServerLaws
  import opened Client
  import opened Readings
  import opened Consumer
  import opened Records
  import opened Delivery

  /** `a` is `b` with some of its elements left out. */
  ghost predicate Within<T>(a: seq<T>, b: seq<T>)
    decreases |b|
  {
    a == [] || (b != [] && (
      var i, j := |a| - 1, |b| - 1;
      Within(a, b[..j]) || (a[i] == b[j] && Within(a[..i], b[..j]))))
  }

  lemma {:induction false} WithinMore<T>(a: seq<T>, b: seq<T>, more: seq<T>)
    requires Within(a, b)
    ensures Within(a, b + more)
    decreases |more|
  {
    if more == [] {
      assert b + more == b;
    } else {
      var j := |more| - 1;
      WithinMore(a, b, more[..j]);
      assert (b + more)[..|b| + j] == b + more[..j];
    }
  }

  lemma {:induction false} WithinBoth<T>(a: seq<T>, b: seq<T>, more: seq<T>)
    requires Within(a, b)
    ensures Within(a + more, b + more)
    decreases |more|
  {
    if more == [] {
      assert a + more == a && b + more == b;
    } else {
      var j := |more| - 1;
      WithinBoth(a, b, more[..j]);
      assert (a + more)[..|a| + j] == a + more[..j] && (b + more)[..|b| + j] == b + more[..j];
    }
  }

  /** A datagram that carries nothing but bodies among `msgs`. */
  ghost predicate Carries(d: Bytes, msgs: Payloads) {
    Read(d).Data? && AllIn(Read(d).items, msgs)
  }

  ghost predicate AllCarry(ds: seq<Bytes>, msgs: Payloads) {
    forall i :: 0 <= i < |ds| ==> Carries(ds[i], msgs)
  }

  ghost predicate AllIn<T(!new)>(items: seq<T>, all: seq<T>) {
    forall x :: x in items ==> x in all
  }

  lemma AllCarryConcat(a: seq<Bytes>, b: seq<Bytes>, msgs: Payloads)
    requires AllCarry(a, msgs) && AllCarry(b, msgs)
    ensures AllCarry(a + b, msgs)
  {
  }

  lemma AllCarryWithout(ds: seq<Bytes>, k: nat, msgs: Payloads)
    requires k < |ds| && AllCarry(ds, msgs)
    ensures AllCarry(Without(ds, k), msgs)
  {
    forall i | 0 <= i < |ds| - 1 ensures Carries(Without(ds, k)[i], msgs) {
      assert Without(ds, k)[i] == ds[if i < k then i else i + 1];
    }
  }

  lemma DataCarries(data: seq<Bytes>)
    requires AllData(data)
    ensures AllCarry(data, Consumed(data))
  {
    forall i | 0 <= i < |data| ensures Carries(data[i], Consumed(data)) {
      ItemsAreKept(Read, data, i, |data|);
    }
  }

  lemma {:induction false} SelectionIsIn(log: Log, msgs: Payloads, start: u64, want: nat)
    requires LogIn(log, msgs)
    ensures AllIn(Contiguous(log, start, want), msgs)
    decreases want
  {
    if want > 0 && start in log { SelectionIsIn(log, msgs, Wrap64(start + 1), want - 1); }
  }

  lemma ChunksAreIn(selected: Payloads, limit: nat, msgs: Payloads, i: nat)
    requires AllIn(selected, msgs) && i < |Chunks(selected, limit)|
    ensures AllIn(Chunks(selected, limit)[i], msgs)
  {
    var chunks := Chunks(selected, limit);
    ChunksPartition(selected, limit);
    ChunkIsSlice(chunks, i);
    forall x | x in chunks[i] ensures x in msgs {
      var j :| 0 <= j < |chunks[i]| && chunks[i][j] == x;
      assert x == selected[Start(chunks, i) + j];
    }
  }

  /** Every packet of an answer carries logged bodies. */
  lemma PacketsAreIn(session: Bytes, seqNum: u64, selected: Payloads, limit: nat, msgs: Payloads)
    requires |session| == 10 && AllExact(selected) && AllIn(selected, msgs) && limit < SHORTEST_BODY * 0xFFFF
    ensures Buildable(Chunks(selected, limit)) && AllCarry(Packets(session, seqNum, Chunks(selected, limit)), msgs)
  {
    var chunks := Chunks(selected, limit);
    ExactChunksAreDeliverable(selected, limit);
    PacketsPerChunk(session, seqNum, chunks);
    forall i | 0 <= i < |chunks| ensures Carries(Packets(session, seqNum, chunks)[i], msgs) {
      PacketIsConsumed(session, seqNum, chunks[i]);
      ChunksAreIn(selected, limit, msgs, i);
    }
  }

  lemma AnswerCarries(w: World, first: nat, next: u64, r: Request, msgs: Payloads)
    requires Answerable(w, first, next) && LogIn(w.log, msgs) && |r.session| == 10 && CanAnswer(w, r)
    ensures AllCarry(AnswerTo(w, r), msgs)
  {
    RequestIsRead(r);
    SelectionIsExact(w.log, first, next, r.seqNum, r.msgCount);
    SelectionIsIn(w.log, msgs, r.seqNum, r.msgCount);
    PacketsAreIn(w.session, r.seqNum, Selected(w.session, w.log, RequestBytes(r)), w.limit, msgs);
  }

  // ---- The invariant ----

  /** What the consumer makes of what it received: everything up to the live datagram passed on last, with
      nothing foreign in between; and once the end was passed on, nothing is added any more. */
  ghost predicate Complete(received: seq<Bytes>, passed: Payloads, msgs: Payloads, ended: bool) {
    AllData(received) == !ended && Within(passed, Consumed(received)) && AllIn(Consumed(received), msgs)
  }

  ghost predicate Sound(w: World, data: seq<Bytes>, s: Situation) {
    && s.passed <= s.looked <= |w.sent| && (forall i :: 0 <= i < |s.pending| ==> |s.pending[i].session| == 10)
    && AllCarry(s.inFlight, Consumed(data))
    && Complete(s.received, Consumed(data[..if s.passed < |data| then s.passed else |data|]), Consumed(data),
                s.passed == |w.sent|)
  }

  /** One more datagram: an answer, or the next live one. */
  lemma ExtraStaysComplete(received: seq<Bytes>, d: Bytes, passed: Payloads, msgs: Payloads, ended: bool)
    requires Complete(received, passed, msgs, ended) && Carries(d, msgs)
    ensures Complete(received + [d], passed, msgs, ended)
  {
    if ended {
      BehindTheEnd(received, d);
    } else {
      OneReads(d);
      MoreData(received, [d]);
      WithinMore(passed, Consumed(received), Consumed([d]));
    }
  }

  lemma LiveStaysComplete(received: seq<Bytes>, d: Bytes, passed: Payloads, msgs: Payloads)
    requires Complete(received, passed, msgs, false) && Carries(d, msgs)
    ensures Complete(received + [d], passed + Read(d).items, msgs, false)
  {
    OneReads(d);
    MoreData(received, [d]);
    WithinBoth(passed, Consumed(received), Read(d).items);
  }

  lemma EndStaysComplete(received: seq<Bytes>, d: Bytes, passed: Payloads, msgs: Payloads)
    requires Complete(received, passed, msgs, false) && Read(d) == Ending
    ensures Complete(received + [d], passed, msgs, true)
  {
    OneReads(d);
    MoreData(received, [d]);
    assert Consumed(received) + [] == Consumed(received);
  }

  lemma BehindTheEnd(received: seq<Bytes>, d: Bytes)
    requires !AllData(received)
    ensures !AllData(received + [d]) && Consumed(received + [d]) == Consumed(received)
  {
    var n := |received|;
    NoEndOfPrefix(Read, received, [d], n);
    KeptOfPrefix(Read, received, [d], n);
    NothingBehindTheEnd(Read, received + [d], n, n + 1);
  }

  lemma NextIsConsumed(data: seq<Bytes>, n: nat)
    requires n < |data| && AllData(data)
    ensures Consumed(data[..n + 1]) == Consumed(data[..n]) + Read(data[n]).items
  {
    assert NoEnd(Read, data, n + 1);
    NextOfTake(Read, data, n);
  }

  lemma PassOnStaysSound(w: World, first: nat, next: u64, data: seq<Bytes>, s: Situation)
    requires WellSent(w, first, next, data) && Sound(w, data, s) && Can(w, s, PassOn)
    ensures Sound(w, data, Then(w, s, PassOn))
  {
    var n := s.passed;
    if n < |data| {
      DataCarries(data);
      LiveStaysComplete(s.received, data[n], Consumed(data[..n]), Consumed(data));
      NextIsConsumed(data, n);
    } else {
      SpecialsAreRead(w.session, next);
      EndStaysComplete(s.received, w.sent[n], Consumed(data[..n]), Consumed(data));
    }
  }

  lemma LookStaysSound(w: World, data: seq<Bytes>, s: Situation)
    requires Sound(w, data, s) && Can(w, s, Look)
    ensures Sound(w, data, Then(w, s, Look))
  {
  }

  lemma AnswerStaysSound(w: World, first: nat, next: u64, data: seq<Bytes>, s: Situation, j: nat)
    requires Answerable(w, first, next) && LogIn(w.log, Consumed(data)) && Sound(w, data, s) && Can(w, s, Answer(j))
    ensures Sound(w, data, Then(w, s, Answer(j)))
  {
    AnswerCarries(w, first, next, s.pending[j], Consumed(data));
    AllCarryConcat(s.inFlight, AnswerTo(w, s.pending[j]), Consumed(data));
  }

  lemma ArriveStaysSound(w: World, data: seq<Bytes>, s: Situation, k: nat)
    requires Sound(w, data, s) && Can(w, s, Arrive(k))
    ensures Sound(w, data, Then(w, s, Arrive(k)))
  {
    AllCarryWithout(s.inFlight, k, Consumed(data));
    ExtraStaysComplete(s.received, s.inFlight[k],
                       Consumed(data[..if s.passed < |data| then s.passed else |data|]), Consumed(data),
                       s.passed == |w.sent|);
  }

  lemma LoseStaysSound(w: World, data: seq<Bytes>, s: Situation, j: nat)
    requires Sound(w, data, s) && Can(w, s, Lose(j))
    ensures Sound(w, data, Then(w, s, Lose(j)))
  {
  }

  lemma DropStaysSound(w: World, data: seq<Bytes>, s: Situation, k: nat)
    requires Sound(w, data, s) && Can(w, s, Drop(k))
    ensures Sound(w, data, Then(w, s, Drop(k)))
  {
    AllCarryWithout(s.inFlight, k, Consumed(data));
  }

  lemma ChoiceStaysSound(w: World, first: nat, next: u64, data: seq<Bytes>, s: Situation, c: Choice)
    requires WellSent(w, first, next, data) && LogIn(w.log, Consumed(data)) && Sound(w, data, s) && Can(w, s, c)
    ensures Sound(w, data, Then(w, s, c))
  {
    match c
    case Look => LookStaysSound(w, data, s);
    case PassOn => PassOnStaysSound(w, first, next, data, s);
    case Answer(j) => AnswerStaysSound(w, first, next, data, s, j);
    case Lose(j) => LoseStaysSound(w, data, s, j);
    case Arrive(k) => ArriveStaysSound(w, data, s, k);
    case Drop(k) => DropStaysSound(w, data, s, k);
  }

  lemma {:induction false} RunStaysSound(w: World, e: Expected, first: nat, next: u64, data: seq<Bytes>,
                                         cs: seq<Choice>, n: nat)
    requires WellSent(w, first, next, data) && LogIn(w.log, Consumed(data))
    requires n <= |cs| && CanAll(w, Fresh(e), cs, n)
    ensures Sound(w, data, After(w, Fresh(e), cs, n))
  {
    if n == 0 {
      assert data[..0] == [];
    } else {
      RunStaysSound(w, e, first, next, data, cs, n - 1);
      ChoiceStaysSound(w, first, next, data, After(w, Fresh(e), cs, n - 1), cs[n - 1]);
    }
  }

  /** Whatever happens to the answers: the consumer's handler is called with everything that was sent, in
      order, and in between with nothing that was not sent. */
  lemma DeliveredAtLeastOnce(w: World, e: Expected, first: nat, next: u64, data: seq<Bytes>, received: seq<Bytes>)
    requires WellSent(w, first, next, data) && LogIn(w.log, Consumed(data)) && Possible(w, e, received)
    ensures Within(Consumed(w.sent), Consumed(received)) && AllIn(Consumed(received), Consumed(w.sent))
  {
    var s :| Reached(w, e, s) && s.passed == |w.sent| && s.received == received;
    var cs :| Leads(w, e, cs, s);
    RunStaysSound(w, e, first, next, data, cs, |cs|);
    assert data[..|data|] == data;
    SpecialsAreRead(w.session, next);
    EndAddsNothing(data, Header(w.session, next, END_OF_SESSION));
  }
}
