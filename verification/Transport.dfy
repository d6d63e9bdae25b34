/** The client's threads between server and consumer, and the responder that answers them, while no live
    datagram is lost. */
module Transport {
  import opened Widths
  import opened Wrappers
  import opened Packet
  import opened Server
  import opened Client
  import opened Delivery

  /** The world of a server that has sent everything it had to send. */
  ghost function WorldOf(server: Server): World
    reads server
  {
    World(server.replySession, server.log, server.maxPayload, server.sent)
  }

  /** The client has looked at `looked` live datagrams and passed on `passed` of them, `inFlight` are packets
      of answers under way to it, and the consumer took `received` out of its channel. */
  ghost predicate Stands(w: World, e: Expected, receiver: Receiver, looked: nat, passed: nat,
                         inFlight: seq<Bytes>, received: seq<Bytes>)
    reads receiver
  {
    && WholeSessions(receiver.requests) && AllParsed(received + receiver.channel)
    && Reached(w, e, Situation(looked, passed, receiver.Expectation(), receiver.requests, inFlight,
                               received + receiver.channel))
  }

  ghost predicate WholeSessions(requests: seq<Request>) {
    forall i :: 0 <= i < |requests| ==> |requests[i].session| == 10
  }

  lemma OneMoreParsed(all: seq<Bytes>, d: Bytes)
    requires AllParsed(all) && Parse(d).Some?
    ensures AllParsed(all + [d])
  {
  }

  /** The consumer empties its channel down to `keep` datagrams. */
  method Drain(receiver: Receiver, keep: nat) returns (taken: seq<Bytes>)
    modifies receiver`channel
    ensures taken + receiver.channel == old(receiver.channel) && |receiver.channel| <= keep
  {
    taken := [];
    while |receiver.channel| > keep
      invariant taken + receiver.channel == old(receiver.channel)
      decreases |receiver.channel|
    {
      ghost var before := receiver.channel;
      var d := receiver.Receive();
      assert taken + before == taken + [d] + receiver.channel;
      taken := taken + [d];
    }
  }

  /** A sender thread sends the oldest re-request and the responder answers it. */
  method AnswerOne(receiver: Receiver, server: Server, inFlight: seq<Bytes>, ghost w: World, ghost e: Expected,
                   ghost looked: nat, ghost passed: nat, ghost received: seq<Bytes>, ghost first: nat, ghost next: u64)
    returns (inFlight': seq<Bytes>)
    requires receiver.requests != [] && Stands(w, e, receiver, looked, passed, inFlight, received)
    requires w == WorldOf(server) && Answerable(w, first, next)
    modifies receiver`requests
    ensures Stands(w, e, receiver, looked, passed, inFlight', received)
  {
    ghost var s := Situation(looked, passed, receiver.Expectation(), receiver.requests, inFlight,
                             received + receiver.channel);
    var r := receiver.TakeRequest();
    assert s.pending[0] == r && Without(s.pending, 0) == receiver.requests;
    AnyAnswerIsBuildable(w, first, next, r);
    var replies := server.Serve(RequestBytes(r));
    OneMoreChoice(w, e, s, Answer(0));
    inFlight' := inFlight + replies;
    RestIsWhole(s.pending, receiver.requests, r);
  }

  lemma RestIsWhole(requests: seq<Request>, rest: seq<Request>, r: Request)
    requires requests == [r] + rest && WholeSessions(requests)
    ensures WholeSessions(rest)
  {
    assert forall i :: 0 <= i < |rest| ==> rest[i] == requests[i + 1];
  }

  /** Or it is lost, or given up. */
  method LoseOne(receiver: Receiver, ghost inFlight: seq<Bytes>, ghost w: World, ghost e: Expected,
                 ghost looked: nat, ghost passed: nat, ghost received: seq<Bytes>)
    requires receiver.requests != [] && Stands(w, e, receiver, looked, passed, inFlight, received)
    modifies receiver`requests
    ensures Stands(w, e, receiver, looked, passed, inFlight, received)
  {
    ghost var s := Situation(looked, passed, receiver.Expectation(), receiver.requests, inFlight,
                             received + receiver.channel);
    var r := receiver.TakeRequest();
    assert s.pending[0] == r && Without(s.pending, 0) == receiver.requests;
    OneMoreChoice(w, e, s, Lose(0));
    RestIsWhole(s.pending, receiver.requests, r);
  }

  /** A packet of an answer reaches the client, which forwards it if there is room. */
  method OneArrives(receiver: Receiver, inFlight: seq<Bytes>, k: nat, ghost w: World, ghost e: Expected,
                    ghost looked: nat, ghost passed: nat, ghost received: seq<Bytes>)
    returns (inFlight': seq<Bytes>)
    requires k < |inFlight| && Stands(w, e, receiver, looked, passed, inFlight, received)
    modifies receiver
    ensures Stands(w, e, receiver, looked, passed, inFlight', received) && |inFlight'| < |inFlight|
  {
    ghost var s := Situation(looked, passed, receiver.Expectation(), receiver.requests, inFlight,
                             received + receiver.channel);
    ghost var before := receiver.channel;
    receiver.ProcessRereqDatagram(inFlight[k]);
    inFlight' := Without(inFlight, k);
    if receiver.channel == before {
      OneMoreChoice(w, e, s, Drop(k));
    } else {
      OneMoreChoice(w, e, s, Arrive(k));
      Regroup(received, before, [inFlight[k]]);
      OneMoreParsed(received + before, inFlight[k]);
    }
  }

  /** The consumer takes a datagram. */
  method OneIsTaken(receiver: Receiver, ghost inFlight: seq<Bytes>, ghost w: World, ghost e: Expected,
                    ghost looked: nat, ghost passed: nat, received: seq<Bytes>)
    returns (received': seq<Bytes>)
    requires receiver.channel != [] && Stands(w, e, receiver, looked, passed, inFlight, received)
    modifies receiver`channel
    ensures Stands(w, e, receiver, looked, passed, inFlight, received')
  {
    var d := receiver.Receive();
    received' := received + [d];
    Regroup(received, [d], receiver.channel);
  }

  /** The other threads at work between two steps of the live one. */
  method Meanwhile(receiver: Receiver, server: Server, inFlight: seq<Bytes>, received: seq<Bytes>, ghost w: World,
                   ghost e: Expected, ghost looked: nat, ghost passed: nat, ghost first: nat, ghost next: u64)
    returns (inFlight': seq<Bytes>, received': seq<Bytes>)
    requires Stands(w, e, receiver, looked, passed, inFlight, received)
    requires w == WorldOf(server) && Answerable(w, first, next)
    modifies receiver
    ensures Stands(w, e, receiver, looked, passed, inFlight', received')
  {
    inFlight', received' := inFlight, received;
    var steps :| 0 <= steps;
    for i := 0 to steps
      invariant Stands(w, e, receiver, looked, passed, inFlight', received')
    {
      if {
        case receiver.requests != [] =>
          inFlight' := AnswerOne(receiver, server, inFlight', w, e, looked, passed, received', first, next);
        case receiver.requests != [] => LoseOne(receiver, inFlight', w, e, looked, passed, received');
        case inFlight' != [] =>
          var k :| 0 <= k < |inFlight'|;
          inFlight' := OneArrives(receiver, inFlight', k, w, e, looked, passed, received');
        case receiver.channel != [] =>
          received' := OneIsTaken(receiver, inFlight', w, e, looked, passed, received');
        case true =>
      }
    }
  }

  /** The live thread looks at a datagram; a re-request that finds no room in the queue is lost. */
  method LookAt(receiver: Receiver, d: Bytes, ghost inFlight: seq<Bytes>, ghost w: World, ghost e: Expected,
                ghost n: nat, ghost received: seq<Bytes>)
    requires n < |w.sent| && w.sent[n] == d && HEADER_LEN <= |d|
    requires Stands(w, e, receiver, n, n, inFlight, received)
    modifies receiver
    ensures receiver.channel == old(receiver.channel)
    ensures Stands(w, e, receiver, n + 1, n, inFlight, received)
  {
    var p := Parse(d).value;
    ghost var s := Situation(n, n, receiver.Expectation(), receiver.requests, inFlight, received + receiver.channel);
    receiver.Inspect(p);
    OneMoreChoice(w, e, s, Look);
    if |receiver.requests| < |s.pending + Wanted(s.expected, p)| {
      assert Without(s.pending + Wanted(s.expected, p), |s.pending|) == s.pending;
      OneMoreChoice(w, e, Seen(s, p), Lose(|s.pending|));
    }
  }

  /** It passes the datagram on, once the consumer has left room for it. */
  method HandOn(receiver: Receiver, d: Bytes, ghost inFlight: seq<Bytes>, received: seq<Bytes>, ghost w: World,
                ghost e: Expected, ghost n: nat)
    returns (received': seq<Bytes>)
    requires n < |w.sent| && w.sent[n] == d && HEADER_LEN <= |d|
    requires Stands(w, e, receiver, n + 1, n, inFlight, received)
    modifies receiver
    ensures Stands(w, e, receiver, n + 1, n + 1, inFlight, received')
  {
    ghost var s := Situation(n + 1, n, receiver.Expectation(), receiver.requests, inFlight,
                             received + receiver.channel);
    var lag :| 0 <= lag < POOL_SIZE;
    var taken := Drain(receiver, lag);
    received' := received + taken;
    Regroup(received, taken, receiver.channel);
    ghost var kept := receiver.channel;
    receiver.Forward(d);
    OneMoreChoice(w, e, s, PassOn);
    Regroup(received', kept, [d]);
    OneMoreParsed(received' + kept, d);
  }

  lemma NothingIsReceivedYet(w: World, receiver: Receiver)
    requires receiver.channel == [] && receiver.requests == []
    ensures Stands(w, receiver.Expectation(), receiver, 0, 0, [], [])
  {
    FreshIsReached(w, receiver.Expectation());
    assert [] + receiver.channel == [];
  }

  lemma AllIsReceived(w: World, e: Expected, receiver: Receiver, inFlight: seq<Bytes>, received: seq<Bytes>,
                      taken: seq<Bytes>)
    requires Stands(w, e, receiver, |w.sent|, |w.sent|, inFlight, received) && taken == receiver.channel
    ensures Possible(w, e, received + taken) && AllParsed(received + taken)
  {
  }

  /** All that was sent, while the other threads do their work and the consumer lags behind as it likes, but
      never so far that a live datagram finds its channel full. */
  method Deliver(receiver: Receiver, server: Server, ghost first: nat, ghost next: u64)
    returns (received: seq<Bytes>)
    requires receiver.channel == [] && receiver.requests == []
    requires Answerable(WorldOf(server), first, next) && AllParsed(server.sent)
    modifies receiver
    ensures Possible(WorldOf(server), old(receiver.Expectation()), received) && AllParsed(received)
  {
    ghost var w, e := WorldOf(server), receiver.Expectation();
    NothingIsReceivedYet(w, receiver);
    var inFlight: seq<Bytes>;
    inFlight, received := [], [];
    for n := 0 to |server.sent|
      invariant Stands(w, e, receiver, n, n, inFlight, received)
    {
      var d := server.sent[n];
      assert Parse(d).Some?;
      LookAt(receiver, d, inFlight, w, e, n, received);
      inFlight, received := Meanwhile(receiver, server, inFlight, received, w, e, n + 1, n, first, next);
      received := HandOn(receiver, d, inFlight, received, w, e, n);
      inFlight, received := Meanwhile(receiver, server, inFlight, received, w, e, n + 1, n + 1, first, next);
    }
    AllIsReceived(w, e, receiver, inFlight, received, receiver.channel);
    var taken := Drain(receiver, 0);
    assert taken + [] == taken;
    received := received + taken;
  }
}
