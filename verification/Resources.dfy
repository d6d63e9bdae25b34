/** Buffers and re-requests of a running client, under any interleaving of its two receive loops, its
    sender threads and the consumer. */
module Resources {
  import opened Widths
  import opened Wrappers

  const POOL_SIZE: nat := 1024

  datatype Loop = LiveLoop | ReplyLoop

  /** A re-request in the queue, or in the hands of a sender thread. */
  datatype Ticket = Ticket(attempts: u8, holder: Option<nat>)

  /** Buffers by where they are; re-requests by number; and how often each was sent or failed so far. */
  datatype State = State(
    pool: nat, holding: set<Loop>, channel: nat, consumer: nat,
    tickets: map<nat, Ticket>, issued: nat, sent: multiset<nat>, failed: multiset<nat>)

  /** `room` says whether a bounded queue had room at the time. */
  datatype Step =
    | TakeBuffer(loop: Loop)
    | GiveUp(loop: Loop)
    | Forward(loop: Loop, room: bool)
    | Receive
    | DropDatagram
    | Enqueue(room: bool)
    | TakeTicket(n: nat, sender: nat)
    | SendOk(n: nat)
    | SendFailed(n: nat, room: bool)
    | Abandon(n: nat)

  /** Buffers outside the pool: held by a loop, waiting in the channel, or with the consumer. */
  function Leased(s: State): nat {
    |s.holding| + s.channel + s.consumer
  }

  function Pushed(pool: nat): nat {
    if pool < POOL_SIZE then pool + 1 else pool
  }

  predicate Enabled(s: State, step: Step, maxRetries: u8) {
    match step
    case TakeBuffer(loop) => loop !in s.holding
    case GiveUp(loop) => loop in s.holding
    case Forward(loop, room) => loop in s.holding
    case Receive => 0 < s.channel
    case DropDatagram => 0 < s.consumer
    case Enqueue(room) => true
    case TakeTicket(n, sender) => n in s.tickets && s.tickets[n].holder.None?
    case SendOk(n) => n in s.tickets && s.tickets[n].holder.Some? && s.tickets[n].attempts < maxRetries
    case SendFailed(n, room) => n in s.tickets && s.tickets[n].holder.Some? && s.tickets[n].attempts < maxRetries
    case Abandon(n) => n in s.tickets && s.tickets[n].holder.Some? && s.tickets[n].attempts >= maxRetries
  }

  function Next(s: State, step: Step, maxRetries: u8): State
    requires Enabled(s, step, maxRetries)
  {
    match step
    case TakeBuffer(loop) =>
      s.(pool := if 0 < s.pool then s.pool - 1 else 0, holding := s.holding + {loop})
    case GiveUp(loop) => s.(pool := Pushed(s.pool), holding := s.holding - {loop})
    case Forward(loop, room) =>
      if room then s.(channel := s.channel + 1, holding := s.holding - {loop})
      else s.(pool := Pushed(s.pool), holding := s.holding - {loop})
    case Receive => s.(channel := s.channel - 1, consumer := s.consumer + 1)
    case DropDatagram => s.(consumer := s.consumer - 1, pool := Pushed(s.pool))
    case Enqueue(room) =>
      if room then s.(tickets := s.tickets[s.issued := Ticket(0, None)], issued := s.issued + 1)
      else s
    case TakeTicket(n, sender) => s.(tickets := s.tickets[n := s.tickets[n].(holder := Some(sender))])
    case SendOk(n) => s.(tickets := s.tickets - {n}, sent := s.sent + multiset{n})
    case SendFailed(n, room) =>
      s.(tickets := if room then s.tickets[n := Ticket(s.tickets[n].attempts + 1, None)] else s.tickets - {n},
         failed := s.failed + multiset{n})
    case Abandon(n) => s.(tickets := s.tickets - {n})
  }

  predicate Possible(s: State, steps: seq<Step>, maxRetries: u8)
    decreases |steps|, 0
  {
    steps == [] || (
      && Possible(s, steps[..|steps| - 1], maxRetries)
      && Enabled(Run(s, steps[..|steps| - 1], maxRetries), steps[|steps| - 1], maxRetries))
  }

  function Run(s: State, steps: seq<Step>, maxRetries: u8): State
    requires Possible(s, steps, maxRetries)
    decreases |steps|, 1
  {
    if steps == [] then s
    else Next(Run(s, steps[..|steps| - 1], maxRetries), steps[|steps| - 1], maxRetries)
  }

  /** No buffer of the initial pool is ever lost, and the pool never outgrows its capacity. */
  ghost predicate BuffersKept(s: State) {
    s.pool <= POOL_SIZE <= s.pool + Leased(s)
  }

  /** Every re-request is sent at most once and fails at most `maxRetries` times, and it is not sent after
      the last of these; while it is still around it was not sent yet, and its counter says how often it
      failed. */
  ghost predicate RequestsKept(s: State, maxRetries: u8) {
    && (forall n: nat :: s.sent[n] <= 1 && s.failed[n] <= maxRetries)
    && (forall n: nat :: s.sent[n] == 0 || s.failed[n] < maxRetries)
    && (forall n: nat :: n in s.tickets ==>
          n < s.issued && s.sent[n] == 0 && s.failed[n] == s.tickets[n].attempts)
    && (forall n: nat :: s.issued <= n ==> s.sent[n] == 0 && s.failed[n] == 0)
  }

  const START: State := State(POOL_SIZE, {}, 0, 0, map[], 0, multiset{}, multiset{})

  lemma {:induction false} ResourcesAreKept(steps: seq<Step>, maxRetries: u8)
    requires Possible(START, steps, maxRetries)
    ensures BuffersKept(Run(START, steps, maxRetries))
    ensures RequestsKept(Run(START, steps, maxRetries), maxRetries)
  {
    if steps != [] {
      var n := |steps| - 1;
      ResourcesAreKept(steps[..n], maxRetries);
      StepKeepsBuffers(Run(START, steps[..n], maxRetries), steps[n], maxRetries);
      StepKeepsRequests(Run(START, steps[..n], maxRetries), steps[n], maxRetries);
    }
  }

  lemma StepKeepsBuffers(s: State, step: Step, maxRetries: u8)
    requires BuffersKept(s) && Enabled(s, step, maxRetries)
    ensures BuffersKept(Next(s, step, maxRetries))
  {
    if step.GiveUp? || step.Forward? {
      assert s.holding == (s.holding - {step.loop}) + {step.loop};
    }
  }

  lemma StepKeepsRequests(s: State, step: Step, maxRetries: u8)
    requires RequestsKept(s, maxRetries) && Enabled(s, step, maxRetries)
    ensures RequestsKept(Next(s, step, maxRetries), maxRetries)
  {
    match step
    case Enqueue(room) =>
    case TakeTicket(n, sender) =>
    case SendOk(n) => OnlyThatCountGrows(s.sent, n);
    case SendFailed(n, room) => OnlyThatCountGrows(s.failed, n);
    case _ =>
  }

  lemma OnlyThatCountGrows(counts: multiset<nat>, n: nat)
    ensures forall m :: (counts + multiset{n})[m] == counts[m] + (if m == n then 1 else 0)
  {
  }

  // ---- Retrying ----

  /** Some failed send of re-request `n` found no room in the queue to try again. */
  ghost predicate NoRoomAmong(steps: seq<Step>, n: nat) {
    exists i :: 0 <= i < |steps| && steps[i] == SendFailed(n, false)
  }

  /** What became of re-request `n`. */
  ghost predicate Settled(s: State, steps: seq<Step>, n: nat, maxRetries: u8) {
    || n in s.tickets
    || s.sent[n] == 1
    || s.failed[n] == maxRetries
    || NoRoomAmong(steps, n)
  }

  lemma NoRoomStays(steps: seq<Step>, i: nat, n: nat)
    requires i <= |steps| && NoRoomAmong(steps[..i], n)
    ensures NoRoomAmong(steps, n)
  {
    var j :| 0 <= j < i && steps[..i][j] == SendFailed(n, false);
    assert steps[j] == SendFailed(n, false);
  }

  /** No re-request is given up early: one that is not around any more was sent, failed as often as it may, or
      failed when the queue was full. */
  lemma {:induction false} RequestsAreRetried(steps: seq<Step>, maxRetries: u8, n: nat)
    requires Possible(START, steps, maxRetries) && n < Run(START, steps, maxRetries).issued
    ensures Settled(Run(START, steps, maxRetries), steps, n, maxRetries)
  {
    if steps != [] {
      var m := |steps| - 1;
      var s, step := Run(START, steps[..m], maxRetries), steps[m];
      ResourcesAreKept(steps[..m], maxRetries);
      if n < s.issued {
        RequestsAreRetried(steps[..m], maxRetries, n);
        StepKeepsSettled(s, step, n, maxRetries, NoRoomAmong(steps[..m], n));
        if NoRoomAmong(steps[..m], n) { NoRoomStays(steps, m, n); }
        if step == SendFailed(n, false) { assert steps[m] == SendFailed(n, false); }
      }
    }
  }

  lemma StepKeepsSettled(s: State, step: Step, n: nat, maxRetries: u8, full: bool)
    requires RequestsKept(s, maxRetries) && Enabled(s, step, maxRetries) && n < s.issued
    requires n in s.tickets || s.sent[n] == 1 || s.failed[n] == maxRetries || full
    ensures var s' := Next(s, step, maxRetries);
            || n in s'.tickets || s'.sent[n] == 1 || s'.failed[n] == maxRetries
            || full || step == SendFailed(n, false)
  {
    StepKeepsRequests(s, step, maxRetries);
    match step
    case SendOk(m) => OnlyThatCountGrows(s.sent, m);
    case SendFailed(m, room) => OnlyThatCountGrows(s.failed, m);
    case _ =>
  }

  // ---- The exact account of the buffers ----

  /** The step takes a buffer although the pool is empty: it is allocated. */
  function Allocated(s: State, step: Step): nat {
    if step.TakeBuffer? && s.pool == 0 then 1 else 0
  }

  /** The step gives a buffer back to a pool that is full: it is freed. */
  function Freed(s: State, step: Step): nat {
    if (step.GiveUp? || (step.Forward? && !step.room) || step.DropDatagram?) && s.pool == POOL_SIZE then 1 else 0
  }

  function AllAllocated(s: State, steps: seq<Step>, maxRetries: u8): nat
    requires Possible(s, steps, maxRetries)
  {
    if steps == [] then 0
    else
      var before := steps[..|steps| - 1];
      AllAllocated(s, before, maxRetries) + Allocated(Run(s, before, maxRetries), steps[|steps| - 1])
  }

  function AllFreed(s: State, steps: seq<Step>, maxRetries: u8): nat
    requires Possible(s, steps, maxRetries)
  {
    if steps == [] then 0
    else
      var before := steps[..|steps| - 1];
      AllFreed(s, before, maxRetries) + Freed(Run(s, before, maxRetries), steps[|steps| - 1])
  }

  /** Every buffer is in the pool or leased, and none is in two places: pooled and leased ones together are
      the initial ones and those allocated since, less those freed. */
  lemma {:induction false} BuffersAreAccountedFor(steps: seq<Step>, maxRetries: u8)
    requires Possible(START, steps, maxRetries)
    ensures var s := Run(START, steps, maxRetries);
            s.pool + Leased(s) + AllFreed(START, steps, maxRetries) ==
            POOL_SIZE + AllAllocated(START, steps, maxRetries)
  {
    if steps != [] {
      var n := |steps| - 1;
      ResourcesAreKept(steps[..n], maxRetries);
      BuffersAreAccountedFor(steps[..n], maxRetries);
      StepAccounts(Run(START, steps[..n], maxRetries), steps[n], maxRetries);
    }
  }

  lemma StepAccounts(s: State, step: Step, maxRetries: u8)
    requires BuffersKept(s) && Enabled(s, step, maxRetries)
    ensures var s' := Next(s, step, maxRetries);
            s'.pool + Leased(s') + Freed(s, step) == s.pool + Leased(s) + Allocated(s, step)
  {
    if step.GiveUp? || step.Forward? {
      assert s.holding == (s.holding - {step.loop}) + {step.loop};
    }
  }
}
