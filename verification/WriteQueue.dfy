/** What goes into the write queue of `BridgeMachine` and what comes off it, over every run:
    which calls are queued, and when a drain takes the next entry. */
module WriteQueue {
  import opened Bridge
  import opened BridgeMachine
  import opened Wrappers

  /** Stamped less than 30 seconds before `at`. */
  predicate Recent(stamp: Option<real>, at: real) {
    stamp.Some? && at - stamp.value < 30.0
  }

  // ----- What is queued -------------------------------------------------------------

  /** The write an event hands to the queue: that of a save or knowledge-graph call which
      reads the circuit open while fewer than 100 writes are queued. */
  function Offered(s: Sys, e: Event): (entries: seq<Entry>) {
    match e
    case Begin(_, kind, entry, c) =>
      if (kind == SaveCall || kind == KgCall) && Recent(s.breaker.openAt, c.save) && |s.queue| < 100
      then [entry] else []
    case _ => []
  }

  /** All writes a run hands to the queue, in order. */
  function OfferedIn(s: Sys, es: seq<Event>): (entries: seq<Entry>)
    requires Runs(s, es)
    decreases |es|
  {
    if es == [] then [] else Offered(s, es[0]) + OfferedIn(Next(s, es[0]), es[1..])
  }

  lemma LoopAccepts(s: Sys, id: TaskId, c: Clock)
    ensures DrainLoop(s, id, c).accepted == s.accepted
  {
  }

  lemma FinishAccepts(s: Sys, id: TaskId, ok: bool, spawn: TaskId, c: Clock)
    requires id in s.tasks && s.tasks[id].Draining?
    ensures FinishReplay(s, id, ok, spawn, c).accepted == s.accepted
  {
    hide DrainLoop;
    var index, entry := s.tasks[id].index, s.tasks[id].entry;
    var s1 := if ok && entry.Save? then MaybeStartDrain(s, c.start, spawn) else s.(now := c.start);
    var s2 := if ok then s1.(applied := s1.applied + [index]) else s1.(dropped := s1.dropped + [index]);
    LoopAccepts(s2.(tasks := s2.tasks[id := DrainReady]), id, c);
  }

  lemma {:induction false} SettleAccepts(s: Sys, saves: seq<bool>)
    requires |saves| <= |s.queue|
    ensures Settle(s, saves).accepted == s.accepted
    decreases |saves|
  {
    if saves != [] {
      SettleAccepts(SettleOne(s, saves[0]), saves[1..]);
    }
  }

  /** Only such a write is taken in, behind those accepted before. */
  lemma StepAccepts(s: Sys, e: Event)
    requires Enabled(s, e)
    ensures Next(s, e).accepted == s.accepted + Offered(s, e)
  {
    hide FinishReplay, DrainLoop, Settle;
    assert s.accepted + [] == s.accepted;
    match e
    case PostReturns(id, spawn, c) =>
      if s.tasks[id].Draining? {
        FinishAccepts(Release(s, id).(now := c.recheck, breaker := s.breaker.Succeeded()), id, true, spawn, c);
      }
    case PostFails(id, c) =>
      if s.tasks[id].Draining? {
        FinishAccepts(Release(s, id).(now := c.recheck, breaker := s.breaker.Failed(c.stamp).Read(c.recheck)), id,
            false, id, c);
      }
    case PostRaisesAtOnce(id, c) =>
      if s.tasks[id].Draining? {
        FinishAccepts(Release(s, id), id, false, id, c);
      }
    case StartDrain(id, c) => LoopAccepts(s.(drainTask := Some(id)), id, c);
    case AwaitDrain(id, c) => LoopAccepts(s.(drainTask := Some(id), tasks := s.tasks[id := DrainReady]), id, c);
    case DrainBlocking(saves, at) => SettleAccepts(s.(now := at), saves);
    case _ =>
  }

  lemma {:induction false} RunAccepts(s: Sys, es: seq<Event>)
    requires Runs(s, es)
    ensures Final(s, es).accepted == s.accepted + OfferedIn(s, es)
    decreases |es|
  {
    hide Next, Offered;
    if es == [] {
      assert s.accepted + [] == s.accepted;
    } else {
      StepAccepts(s, es[0]);
      RunAccepts(Next(s, es[0]), es[1..]);
    }
  }

  /** In every run from the start: the queue takes in exactly the writes of save and
      knowledge-graph calls that met an open circuit and fewer than 100 queued writes, in
      the order of those calls, and holds those not yet taken off. */
  lemma QueuedExactlyWhenOpen(es: seq<Event>)
    requires Runs(START, es)
    ensures var s := Final(START, es);
      && s.accepted == OfferedIn(START, es)
      && s.popped <= |s.accepted| && s.queue == OfferedIn(START, es)[s.popped..]
  {
    RunAccepts(START, es);
    QueueConservation(es);
    assert START.accepted + OfferedIn(START, es) == OfferedIn(START, es);
  }

  /** A call that reads the circuit closed, or a plain read, is not queued: it goes to its
      first post, or waits for the lock before it. */
  lemma BeginSendsIff(s: Sys, id: TaskId, kind: ClientKind, entry: Entry, c: Clock)
    requires Inv(s) && Enabled(s, Begin(id, kind, entry, c))
    ensures var r := Next(s, Begin(id, kind, entry, c));
      && (id in r.tasks <==> !Recent(s.breaker.openAt, if kind == ReadCall then c.call else c.save))
      && (id in r.tasks ==> r.tasks[id] == Client(kind, Posting(0)) || r.tasks[id] == Client(kind, Waiting(0)))
      && (id in r.tasks ==>
            (r.tasks[id].pc.Waiting? <==>
               && s.patched
               && (s.lock.Some? || exists w | w in s.tasks :: !s.tasks[w].DrainReady? && s.tasks[w].pc.Waiting?)))
      && r.tasks - {id} == s.tasks
  {
    assert LockFree(s) <==>
      s.lock.None? && forall w | w in s.tasks :: s.tasks[w].DrainReady? || !s.tasks[w].pc.Waiting?;
    assert forall b, t :: LockFree(s.(breaker := b, now := t)) == LockFree(s);
    hide LockFree;
  }

  // ----- When a drain takes the next entry ----------------------------------------------

  /** The stamp of the breaker once the outcome in this event is recorded. */
  function Stamp(s: Sys, e: Event): (stamp: Option<real>) {
    if e.PostFails? && s.breaker.failures + 1 >= 3 then Some(e.c.stamp) else s.breaker.openAt
  }

  /** The event is one by which a drain task comes to its loop check: it starts, or the
      replay it was at is over. A replay is over when its post returns or raises at once,
      and when an ordinary exception is the third one or leaves the circuit open. */
  predicate ReachesLoop(s: Sys, e: Event)
    requires Enabled(s, e)
  {
    match e
    case StartDrain(_, _) => true
    case AwaitDrain(_, _) => true
    case PostReturns(id, _, _) => s.tasks[id].Draining?
    case PostRaisesAtOnce(id, _) => s.tasks[id].Draining?
    case PostFails(id, c) =>
      s.tasks[id].Draining? && (s.tasks[id].pc.attempt == 2 || Recent(Stamp(s, e), c.recheck))
    case _ => false
  }

  /** The drain `id` takes the head of the queue and sends it, or waits for the lock to. */
  ghost predicate TakesHead(s: Sys, id: TaskId, r: Sys)
    requires s.queue != []
  {
    && r.queue == s.queue[1..]
    && id in r.tasks
    && (r.tasks[id] == Draining(s.popped, s.queue[0], Posting(0))
        || r.tasks[id] == Draining(s.popped, s.queue[0], Waiting(0)))
  }

  lemma LoopTakesIff(s: Sys, id: TaskId, c: Clock)
    requires id in s.tasks && s.now <= c.loop <= c.save <= c.call
    ensures var r := DrainLoop(s, id, c);
      if s.queue != [] && !Recent(s.breaker.openAt, c.loop) then TakesHead(s, id, r)
      else r.queue == s.queue && id !in r.tasks
  {
    hide LockFree;
  }

  lemma FinishTakesIff(s: Sys, id: TaskId, ok: bool, spawn: TaskId, c: Clock)
    requires Inv(s) && id in s.tasks && s.tasks[id].Draining? && c.From(c.stamp) && s.now <= c.start
    ensures var r := FinishReplay(s, id, ok, spawn, c);
      if s.queue != [] && !Recent(s.breaker.openAt, c.loop) then TakesHead(s, id, r)
      else r.queue == s.queue && id !in r.tasks
  {
    hide DrainLoop;
    var index, entry := s.tasks[id].index, s.tasks[id].entry;
    var s1 := if ok && entry.Save? then MaybeStartDrain(s, c.start, spawn) else s.(now := c.start);
    assert DrainLive(s);
    assert s1 == s.(now := c.start, breaker := s1.breaker);
    var s2 := if ok then s1.(applied := s1.applied + [index]) else s1.(dropped := s1.dropped + [index]);
    LoopTakesIff(s2.(tasks := s2.tasks[id := DrainReady]), id, c);
  }

  /** Whenever a drain comes to its loop check, it takes the head of the queue exactly if
      there is one and the circuit is not open then; otherwise it ends and leaves the queue
      as it is. A replay that is not over sleeps before it tries again. */
  lemma DrainTakesHeadIff(s: Sys, e: Event)
    requires Inv(s) && Enabled(s, e) && ReachesLoop(s, e)
    ensures var r := Next(s, e);
      if s.queue != [] && !Recent(Stamp(s, e), e.c.loop) then TakesHead(s, e.id, r)
      else r.queue == s.queue && e.id !in r.tasks
  {
    hide DrainLoop, FinishReplay;
    match e
    case StartDrain(id, c) => LoopTakesIff(s.(drainTask := Some(id)), id, c);
    case AwaitDrain(id, c) => LoopTakesIff(s.(drainTask := Some(id), tasks := s.tasks[id := DrainReady]), id, c);
    case PostReturns(id, spawn, c) =>
      FinishTakesIff(Release(s, id).(now := c.recheck, breaker := s.breaker.Succeeded()), id, true, spawn, c);
    case PostRaisesAtOnce(id, c) => FinishTakesIff(Release(s, id), id, false, id, c);
    case PostFails(id, c) =>
      FinishTakesIff(Release(s, id).(now := c.recheck, breaker := s.breaker.Failed(c.stamp).Read(c.recheck)), id,
          false, id, c);
    case _ =>
  }

  /** An ordinary exception in a post: the task sleeps and keeps what it is about exactly
      if there is an attempt left and the circuit is not open at the recheck. */
  lemma RetriesIff(s: Sys, id: TaskId, c: Clock)
    requires Inv(s) && Enabled(s, PostFails(id, c))
    ensures var e, r, attempt := PostFails(id, c), Next(s, PostFails(id, c)), s.tasks[id].pc.attempt;
      if attempt < 2 && !Recent(Stamp(s, e), c.recheck)
      then r.queue == s.queue && id in r.tasks && r.tasks[id] == s.tasks[id].(pc := Sleeping(attempt))
      else id in r.tasks ==> s.tasks[id].Draining? && r.tasks[id] != s.tasks[id]
  {
    hide DrainLoop, FinishReplay;
    if s.tasks[id].Draining? && ReachesLoop(s, PostFails(id, c)) {
      DrainTakesHeadIff(s, PostFails(id, c));
      assert s.tasks[id].index < s.popped;
    }
  }
}
