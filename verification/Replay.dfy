/** The replay loop: an ITCH file cut into messages and queued for the server in batches. */
module Replay {
  import opened Widths
  import opened Wrappers
  import opened ItchParser
  import opened Server

  /** The command queue of a running server. */
  class ServerHandle {
    var queue: seq<Command>

    constructor ()
      ensures queue == []
    {
      queue := [];
    }

    method Send(msgs: seq<Bytes>)
      modifies this
      ensures queue == old(queue) + [Command.Send(msgs)]
    {
      queue := queue + [Command.Send(msgs)];
    }
  }

  /** Any size from 1 to `max`. */
  method PickFlushSize(max: nat) returns (n: nat)
    requires 1 <= max
    ensures 1 <= n <= max
  {
    n :| 1 <= n <= max;
  }

  class Batch {
    var buf: seq<Bytes>
    const cap: nat
    var nextFlush: nat

    ghost predicate Valid()
      reads this
    {
      |buf| < nextFlush <= cap
    }

    constructor (cap: nat)
      requires 1 <= cap
      ensures Valid() && buf == [] && this.cap == cap
    {
      this.cap := cap;
      buf := [];
      new;
      nextFlush := PickFlushSize(cap);
    }

    method Push(msg: Bytes)
      modifies this`buf
      ensures buf == old(buf) + [msg]
    {
      buf := buf + [msg];
    }

    predicate IsReadyToFlush(): (ready: bool)
      reads this
      ensures ready <==> nextFlush <= |buf|
    {
      |buf| >= nextFlush
    }

    /** Sends what has gathered as one command and starts a new batch. */
    method Flush(handle: ServerHandle) returns (n: nat)
      requires 1 <= cap
      modifies this, handle
      ensures handle.queue == old(handle.queue) + [Command.Send(old(buf))]
      ensures Valid() && buf == [] && n == |old(buf)|
    {
      n := |buf|;
      var payload := buf;
      buf := [];
      handle.Send(payload);
      nextFlush := PickFlushSize(cap);
    }
  }

  /** All messages of a list of send commands. */
  function Queued(cmds: seq<Command>): seq<Bytes> {
    if cmds == [] then []
    else Queued(cmds[..|cmds| - 1]) + (if cmds[|cmds| - 1].Send? then cmds[|cmds| - 1].msgs else [])
  }

  /** Sends of 1 to `max` messages each. */
  ghost predicate AreBatches(cmds: seq<Command>, max: nat) {
    forall i :: 0 <= i < |cmds| ==> cmds[i].Send? && 1 <= |cmds[i].msgs| <= max
  }

  /** The first `n` batches are as large as the sizes picked for them. */
  ghost predicate FilledUpTo(cmds: seq<Command>, sizes: seq<nat>, n: int) {
    n <= |cmds| && n <= |sizes| &&
    forall i :: 0 <= i < n ==> cmds[i].Send? && |cmds[i].msgs| == sizes[i]
  }

  /** All batches are, and `next` is the size picked for the next one. */
  ghost predicate Picked(cmds: seq<Command>, sizes: seq<nat>, next: nat) {
    |sizes| == |cmds| + 1 && sizes[|cmds|] == next && FilledUpTo(cmds, sizes, |cmds|)
  }

  /** All but the last one are, and that one is no larger than the size picked for it. */
  ghost predicate NearlyPicked(cmds: seq<Command>, sizes: seq<nat>) {
    && |cmds| <= |sizes| && FilledUpTo(cmds, sizes, |cmds| - 1)
    && (cmds != [] ==> cmds[|cmds| - 1].Send? && |cmds[|cmds| - 1].msgs| <= sizes[|cmds| - 1])
  }

  lemma OneMorePick(cmds: seq<Command>, sizes: seq<nat>, next: nat, msgs: seq<Bytes>, next': nat)
    requires Picked(cmds, sizes, next) && |msgs| <= next
    ensures NearlyPicked(cmds + [Command.Send(msgs)], sizes + [next'])
    ensures |msgs| == next ==> Picked(cmds + [Command.Send(msgs)], sizes + [next'], next')
  {
  }

  lemma PickedIsNearly(cmds: seq<Command>, sizes: seq<nat>, next: nat)
    requires Picked(cmds, sizes, next)
    ensures NearlyPicked(cmds, sizes)
  {
  }

  /** What is queued, what has gathered for the next batch, and what is still unread make up the file. */
  ghost predicate Progress(file: Bytes, batches: seq<Command>, max: nat, gathered: seq<Bytes>, unread: Bytes) {
    AreBatches(batches, max) && Queued(batches) + gathered + Bodies(unread) == Bodies(file)
  }

  lemma OneMoreMessage(file: Bytes, batches: seq<Command>, max: nat, gathered: seq<Bytes>, unread: Bytes)
    requires Progress(file, batches, max, gathered, unread) && unread != [] && First(unread).Ok?
    ensures Progress(file, batches, max, gathered + [First(unread).value.0], First(unread).value.1)
  {
    var (msg, rest) := First(unread).value;
    Regroup(Queued(batches), gathered, [msg]);
    Regroup(Queued(batches) + gathered, [msg], Bodies(rest));
  }

  lemma OneMoreBatch(file: Bytes, before: seq<Command>, batches: seq<Command>, max: nat, gathered: seq<Bytes>,
                     unread: Bytes)
    requires Progress(file, batches, max, gathered, unread) && 1 <= |gathered| <= max
    ensures before + (batches + [Command.Send(gathered)]) == before + batches + [Command.Send(gathered)]
    ensures Progress(file, batches + [Command.Send(gathered)], max, [], unread)
    ensures |Queued(batches + [Command.Send(gathered)])| == |Queued(batches)| + |gathered|
  {
    assert (batches + [Command.Send(gathered)])[..|batches|] == batches;
    assert Queued(batches) + gathered + [] == Queued(batches) + gathered;
  }

  /** One message of the file, if the rest of it starts with one. */
  method Gather(batch: Batch, buf: Bytes, ghost file: Bytes, ghost batches: seq<Command>)
    returns (ended: bool, rest: Bytes)
    requires buf != [] && Progress(file, batches, batch.cap, batch.buf, buf)
    modifies batch`buf
    ensures ended ==> Bodies(buf) == [] && batch.buf == old(batch.buf)
    ensures !ended ==> |rest| < |buf| && |batch.buf| == |old(batch.buf)| + 1
    ensures !ended ==> Progress(file, batches, batch.cap, batch.buf, rest)
  {
    var one := TakeOne(buf);
    if one.Err? {
      return true, buf;
    }
    OneMoreMessage(file, batches, batch.cap, batch.buf, buf);
    batch.Push(one.value.0);
    return false, one.value.1;
  }

  /** What has gathered goes out. */
  method Ship(batch: Batch, handle: ServerHandle, ghost file: Bytes, ghost before: seq<Command>,
              ghost batches: seq<Command>, ghost sizes: seq<nat>, ghost unread: Bytes)
    returns (n: nat, ghost batches': seq<Command>, ghost sizes': seq<nat>)
    requires handle.queue == before + batches && 1 <= |batch.buf| <= batch.nextFlush <= batch.cap
    requires Progress(file, batches, batch.cap, batch.buf, unread) && Picked(batches, sizes, batch.nextFlush)
    modifies batch, handle
    ensures handle.queue == before + batches' && batch.Valid() && batch.buf == []
    ensures Progress(file, batches', batch.cap, [], unread) && |Queued(batches')| == |Queued(batches)| + n
    ensures if n == old(batch.nextFlush) then Picked(batches', sizes', batch.nextFlush)
            else NearlyPicked(batches', sizes')
  {
    OneMoreBatch(file, before, batches, batch.cap, batch.buf, unread);
    ghost var msgs, size := batch.buf, batch.nextFlush;
    batches' := batches + [Command.Send(msgs)];
    n := batch.Flush(handle);
    sizes' := sizes + [batch.nextFlush];
    OneMorePick(batches, sizes, size, msgs, batch.nextFlush);
  }

  /** Goes through the file and ships whatever fills a batch; a shutdown request may stop it between two
      messages, and the first framing error does. */
  method GatherAll(file: Bytes, batch: Batch, handle: ServerHandle, ghost before: seq<Command>)
    returns (interrupted: bool, sent: nat, ghost batches: seq<Command>, ghost sizes: seq<nat>, ghost unread: Bytes)
    requires batch.Valid() && batch.buf == [] && handle.queue == before
    modifies batch, handle
    ensures batch.Valid() && handle.queue == before + batches && Picked(batches, sizes, batch.nextFlush)
    ensures Progress(file, batches, batch.cap, batch.buf, unread) && sent == |Queued(batches)|
    ensures !interrupted ==> Bodies(unread) == []
  {
    var buf := file;
    interrupted, sent, batches, sizes, unread := false, 0, [], [batch.nextFlush], file;
    while buf != []
      invariant batch.Valid() && handle.queue == before + batches && Picked(batches, sizes, batch.nextFlush)
      invariant Progress(file, batches, batch.cap, batch.buf, buf) && sent == |Queued(batches)| && unread == buf
      decreases |buf|
    {
      interrupted := *;
      if interrupted {
        break;
      }
      var ended, rest := Gather(batch, buf, file, batches);
      if ended {
        break;
      }
      buf, unread := rest, rest;
      if batch.IsReadyToFlush() {
        var n;
        n, batches, sizes := Ship(batch, handle, file, before, batches, sizes, buf);
        sent := sent + n;
      }
    }
  }

  lemma AllIsQueued(file: Bytes, batches: seq<Command>, max: nat, unread: Bytes)
    requires Progress(file, batches, max, [], unread)
    ensures Queued(batches) <= Bodies(file) && (Bodies(unread) == [] ==> Queued(batches) == Bodies(file))
  {
    assert Queued(batches) + [] == Queued(batches);
  }

  /** Queues every message of the file in batches of arbitrary sizes from 1 to `maxMsgs`, up to the first
      framing error or a shutdown.  Only the last batch may fall short of the size picked for it. */
  method ReplayFile(file: Bytes, handle: ServerHandle, maxMsgs: nat)
    returns (interrupted: bool, sent: nat, ghost batches: seq<Command>, ghost sizes: seq<nat>)
    requires 1 <= maxMsgs
    modifies handle
    ensures handle.queue == old(handle.queue) + batches && AreBatches(batches, maxMsgs)
    ensures NearlyPicked(batches, sizes)
    ensures Queued(batches) <= Bodies(file)
    ensures !interrupted ==> Queued(batches) == Bodies(file)
    ensures sent == |Queued(batches)|
  {
    var batch := new Batch(maxMsgs);
    ghost var unread;
    interrupted, sent, batches, sizes, unread := GatherAll(file, batch, handle, handle.queue);
    PickedIsNearly(batches, sizes, batch.nextFlush);
    if batch.buf != [] {
      var n;
      n, batches, sizes := Ship(batch, handle, file, old(handle.queue), batches, sizes, unread);
      sent := sent + n;
    }
    AllIsQueued(file, batches, maxMsgs, unread);
  }
}
