/** The bridge object of `brain_bridge_inprocess_core.py` and
    `brain_bridge_http_kg_hive.py`: breaker fields, offline write queue, the
    asynchronous drain run on its own and the blocking drain of shutdown.
    The clock and the outcome of every post are parameters. */
module Bridge {
  import opened Breaker
  import opened Wrappers

  const WRITE_QUEUE_CAP := 100

  /** A queued `save`, or a knowledge-graph event. */
  datatype Entry = Save(key: string, value: string) | KgEvent(eventType: string, payload: string)

  // ----- What the drain does, on values --------------------------------------

  /** What one turn of the drain loop reads and meets: the clock at the loop
      check, the clock at the check inside `save`, and the call. */
  datatype Turn = Turn(loop: real, save: real, script: Script)

  datatype Replayed = Applied | Lost | Requeued

  datatype Replay = Replay(breaker: Breaker, queue: seq<Entry>, result: Replayed)

  function Offer(queue: seq<Entry>, entry: Entry): (r: seq<Entry>) {
    if |queue| < WRITE_QUEUE_CAP then queue + [entry] else queue
  }

  /** `_replay_queued_write`: a `save` looks at the circuit itself and queues
      the entry again when it is open; everything else goes to the call. */
  function ReplayEntry(b: Breaker, queue: seq<Entry>, entry: Entry, turn: Turn): (r: Replay)
    requires turn.script.Possible()
  {
    if entry.Save? && b.Blocks(turn.save) then Replay(b.Read(turn.save), Offer(queue, entry), Requeued)
    else
      var r := RunCall(if entry.Save? then b.Read(turn.save) else b, turn.script);
      Replay(r.breaker, queue, if r.result == Returned then Applied else Lost)
  }

  /** After a check that found the circuit closed, an entry is never put back. */
  lemma ReplayNeverRequeues(b: Breaker, queue: seq<Entry>, entry: Entry, turn: Turn)
    requires turn.script.Possible() && b.openAt.None?
    ensures ReplayEntry(b, queue, entry, turn).result != Requeued
    ensures ReplayEntry(b, queue, entry, turn).queue == queue
    ensures ReplayEntry(b, queue, entry, turn) ==
            ReplayEntry(b, queue, entry, turn).(breaker := RunCall(b, turn.script).breaker)
  {
  }

  /** A replay that finds the circuit open: a save goes back behind the queue, if that has
      room, and anything else is lost. */
  lemma ReplayWhileOpen(b: Breaker, queue: seq<Entry>, entry: Entry, turn: Turn)
    requires turn.script.Possible() && b.openAt.Some?
    requires turn.save - b.openAt.value < 30.0 && turn.script.entry - b.openAt.value < 30.0
    ensures ReplayEntry(b, queue, entry, turn) ==
              if entry.Save? then Replay(b, if |queue| < 100 then queue + [entry] else queue, Requeued)
              else Replay(b, queue, Lost)
  {
  }

  datatype Drained = Drained(breaker: Breaker, queue: seq<Entry>, applied: seq<Entry>, lost: seq<Entry>)

  ghost predicate AllPossible(turns: nat -> Turn) {
    forall k: nat :: turns(k).script.Possible()
  }

  /** `_drain_write_queue` when nothing else runs; turn `k` is its next. */
  ghost function DrainQueue(b: Breaker, queue: seq<Entry>, turns: nat -> Turn, k: nat): (r: Drained)
    requires AllPossible(turns)
    decreases |queue|
  {
    if queue == [] then Drained(b, queue, [], [])
    else if b.Blocks(turns(k).loop) then Drained(b.Read(turns(k).loop), queue, [], [])
    else
      var replay := ReplayEntry(b.Read(turns(k).loop), queue[1..], queue[0], turns(k));
      ReplayNeverRequeues(b.Read(turns(k).loop), queue[1..], queue[0], turns(k));
      var rest := DrainQueue(replay.breaker, replay.queue, turns, k + 1);
      if replay.result == Applied then rest.(applied := [queue[0]] + rest.applied)
      else rest.(lost := [queue[0]] + rest.lost)
  }

  /** `merged` is `a` and `b` interleaved, each in its own order. */
  ghost predicate Interleaving(merged: seq<Entry>, a: seq<Entry>, b: seq<Entry>)
    decreases |merged|
  {
    if merged == [] then a == [] && b == []
    else
      || (a != [] && a[0] == merged[0] && Interleaving(merged[1..], a[1..], b))
      || (b != [] && b[0] == merged[0] && Interleaving(merged[1..], a, b[1..]))
  }

  /** Nothing is duplicated, reordered or put back: the entries taken off are
      a prefix of the queue, split in order into applied and lost ones, and
      the rest of the queue is untouched. */
  lemma {:induction false} DrainConserves(b: Breaker, queue: seq<Entry>, turns: nat -> Turn, k: nat)
    requires AllPossible(turns)
    ensures var r := DrainQueue(b, queue, turns, k);
            var taken := |r.applied| + |r.lost|;
            && taken <= |queue|
            && r.queue == queue[taken..]
            && Interleaving(queue[..taken], r.applied, r.lost)
    decreases |queue|
  {
    if queue != [] && !b.Blocks(turns(k).loop) {
      var rest, r := DrainStep(b, queue, turns, k);
      DrainConserves(rest.0, queue[1..], turns, k + 1);
      assert queue[..|r.applied| + |r.lost|][1..] == queue[1..][..|rest.1.applied| + |rest.1.lost|];
    }
  }

  /** One turn: the head entry joins the applied or the lost ones. */
  lemma DrainStep(b: Breaker, queue: seq<Entry>, turns: nat -> Turn, k: nat)
    returns (next: (Breaker, Drained), r: Drained)
    requires AllPossible(turns) && queue != [] && !b.Blocks(turns(k).loop)
    ensures r == DrainQueue(b, queue, turns, k)
    ensures next.0 == ReplayEntry(b.Read(turns(k).loop), queue[1..], queue[0], turns(k)).breaker
    ensures next.1 == DrainQueue(next.0, queue[1..], turns, k + 1)
    ensures r.breaker == next.1.breaker && r.queue == next.1.queue
    ensures
      if ReplayEntry(b.Read(turns(k).loop), queue[1..], queue[0], turns(k)).result == Applied
      then r.applied == [queue[0]] + next.1.applied && r.lost == next.1.lost
      else r.lost == [queue[0]] + next.1.lost && r.applied == next.1.applied
  {
    hide RunCall;
    r := DrainQueue(b, queue, turns, k);
    ReplayNeverRequeues(b.Read(turns(k).loop), queue[1..], queue[0], turns(k));
    var replay := ReplayEntry(b.Read(turns(k).loop), queue[1..], queue[0], turns(k));
    next := (replay.breaker, DrainQueue(replay.breaker, queue[1..], turns, k + 1));
  }

  // ----- The object --------------------------------------------------------------

  class BrainBridge {
    var failures: nat
    var openAt: Option<real>
    var writeQueue: seq<Entry>

    constructor ()
      ensures State() == INITIAL && writeQueue == []
    {
      failures, openAt, writeQueue := 0, None, [];
    }

    function State(): (b: Breaker)
      reads this
    {
      Breaker(failures, openAt)
    }

    method CircuitOpen(now: real) returns (open: bool)
      modifies this`failures, this`openAt
      ensures open == old(State()).Blocks(now)
      ensures State() == old(State()).Read(now)
    {
      if openAt.None? {
        return false;
      }
      if now - openAt.value >= CB_RESET_SECONDS {
        failures := 0;
        openAt := None;
        return false;
      }
      return true;
    }

    method RecordSuccess()
      modifies this`failures
      ensures State() == old(State()).Succeeded()
    {
      failures := 0;
    }

    method RecordFailure(now: real)
      modifies this`failures, this`openAt
      ensures State() == old(State()).Failed(now)
    {
      failures := failures + 1;
      if failures >= CB_FAILURE_THRESHOLD {
        openAt := Some(now);
      }
    }

    /** `_call`, and `_http_mcp_call` with a post for the wrapped function; `invoked`
        holds the breaker at each invocation of it. */
    method Call(script: Script) returns (result: CallResult, ghost invoked: seq<Breaker>, slept: real)
      requires script.Possible()
      modifies this`failures, this`openAt
      ensures Report(State(), result, invoked, slept) == RunCall(old(State()), script)
    {
      hide Delay, Breaker.Failed;
      invoked, slept := [], 0.0;
      var open := CircuitOpen(script.entry);
      if open {
        return CallResult.CircuitOpen, [], 0.0;
      }
      for attempt := 0 to RETRY_ATTEMPTS
        invariant attempt < RETRY_ATTEMPTS ==>
                    RunCall(old(State()), script) == Resumed(RunAttempts(State(), attempt, script), invoked, slept)
        invariant attempt == RETRY_ATTEMPTS ==>
                    Report(State(), Exhausted, invoked, slept) == RunCall(old(State()), script)
      {
        var a := script.attempts[attempt];
        ghost var closed, before := State(), invoked;
        invoked := invoked + [State()];
        match a.outcome {
          case Returns =>
            RecordSuccess();
            return Returned, invoked, slept;
          case RaisesAtOnce =>
            return Raised, invoked, slept;
          case Fails =>
            RecordFailure(a.stamp);
            open := CircuitOpen(a.recheck);
            if open {
              return Exhausted, invoked, slept;
            }
            if attempt < RETRY_ATTEMPTS - 1 {
              ResumedTwice(RunAttempts(State(), attempt + 1, script), before, slept, [closed],
                  Delay(attempt, a.jitter));
              slept := slept + Delay(attempt, a.jitter);
            }
        }
      }
      return Exhausted, invoked, slept;
    }

    /** `_enqueue_write`: a full queue refuses and stays as it was. */
    method EnqueueWrite(entry: Entry) returns (accepted: bool)
      modifies this`writeQueue
      ensures accepted == (|old(writeQueue)| < WRITE_QUEUE_CAP)
      ensures writeQueue == if accepted then old(writeQueue) + [entry] else old(writeQueue)
    {
      if |writeQueue| >= WRITE_QUEUE_CAP {
        return false;
      }
      writeQueue := writeQueue + [entry];
      return true;
    }

    method ReplayQueuedWrite(entry: Entry, turn: Turn) returns (result: Replayed)
      requires turn.script.Possible()
      modifies this
      ensures Replay(State(), writeQueue, result) == ReplayEntry(old(State()), old(writeQueue), entry, turn)
    {
      if entry.Save? {
        var open := CircuitOpen(turn.save);
        if open {
          var _ := EnqueueWrite(entry);
          return Requeued;
        }
      }
      var outcome, _, _ := Call(turn.script);
      return if outcome == Returned then Applied else Lost;
    }

    /** `_drain_write_queue`. */
    method DrainWriteQueue(turns: nat -> Turn) returns (applied: seq<Entry>, lost: seq<Entry>)
      requires AllPossible(turns)
      modifies this
      ensures Drained(State(), writeQueue, applied, lost) == DrainQueue(old(State()), old(writeQueue), turns, 0)
    {
      hide RunCall, ReplayEntry;
      applied, lost := [], [];
      ghost var start := DrainQueue(State(), writeQueue, turns, 0);
      var k: nat := 0;
      while writeQueue != []
        invariant var rest := DrainQueue(State(), writeQueue, turns, k);
                  start == rest.(applied := applied + rest.applied, lost := lost + rest.lost)
        decreases |writeQueue|
      {
        var open := CircuitOpen(turns(k).loop);
        if open {
          break;
        }
        var entry := writeQueue[0];
        writeQueue := writeQueue[1..];
        ReplayNeverRequeues(State(), writeQueue, entry, turns(k));
        var result := ReplayQueuedWrite(entry, turns(k));
        if result == Applied {
          applied := applied + [entry];
        } else {
          lost := lost + [entry];
        }
        k := k + 1;
      }
    }

    /** `drain_blocking`: reading `i` of the clock is `clock(i)`, and
        `saves(i)` says whether the `i`-th entry is written without raising. */
    method DrainBlocking(timeout: real, clock: nat -> real, saves: nat -> bool)
      returns (drained: nat, dropped: nat, remaining: nat)
      modifies this`writeQueue
      ensures drained + dropped + remaining == |old(writeQueue)|
      ensures writeQueue == old(writeQueue)[drained + dropped..]
      ensures remaining == |writeQueue|
      ensures drained == Count(saves, drained + dropped)
      ensures var deadline := clock(0) + if timeout > 0.0 then timeout else 0.0;
              && (forall i | 1 <= i <= drained + dropped :: clock(i) < deadline)
              && (remaining > 0 ==> clock(drained + dropped + 1) >= deadline)
    {
      var deadline := clock(0) + if timeout > 0.0 then timeout else 0.0;
      drained, dropped := 0, 0;
      while writeQueue != []
        invariant drained + dropped <= |old(writeQueue)|
        invariant writeQueue == old(writeQueue)[drained + dropped..]
        invariant drained == Count(saves, drained + dropped)
        invariant forall i | 1 <= i <= drained + dropped :: clock(i) < deadline
        decreases |writeQueue|
      {
        if clock(drained + dropped + 1) >= deadline {
          break;
        }
        writeQueue := writeQueue[1..];
        if saves(drained + dropped) {
          drained := drained + 1;
        } else {
          dropped := dropped + 1;
        }
      }
      remaining := |writeQueue|;
    }
  }

  function Count(saves: nat -> bool, n: nat): (c: nat)
    ensures c <= n
  {
    if n == 0 then 0 else Count(saves, n - 1) + if saves(n - 1) then 1 else 0
  }
}
