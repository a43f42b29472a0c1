/** The breaker across the interleavings of `BridgeMachine`: how long it stays open, and
    exactly which posts go on the wire while it is open. */
module OpenCircuit {
  import Breaker
  import opened Bridge
  import opened BridgeMachine
  import opened Wrappers

  /** Open at `t0` or later, and still so unless the clock has reached `t0 + 30`. */
  predicate OpenSince(s: Sys, t0: real) {
    s.breaker.openAt.Some? && s.breaker.openAt.value >= t0
  }

  lemma LoopKeepsOpen(s: Sys, id: TaskId, c: Clock, t0: real)
    requires OpenSince(s, t0) && c.From(c.stamp)
    requires DrainLoop(s, id, c).now < t0 + Breaker.CB_RESET_SECONDS
    ensures OpenSince(DrainLoop(s, id, c), t0)
  {
  }

  lemma FinishKeepsOpen(s: Sys, id: TaskId, ok: bool, spawn: TaskId, c: Clock, t0: real)
    requires OpenSince(s, t0) && c.From(c.stamp) && id in s.tasks && s.tasks[id].Draining?
    requires FinishReplay(s, id, ok, spawn, c).now < t0 + Breaker.CB_RESET_SECONDS
    ensures OpenSince(FinishReplay(s, id, ok, spawn, c), t0)
  {
    var index, entry := s.tasks[id].index, s.tasks[id].entry;
    var s1 := if ok && entry.Save? then MaybeStartDrain(s, c.start, spawn) else s.(now := c.start);
    var s2 := if ok then s1.(applied := s1.applied + [index]) else s1.(dropped := s1.dropped + [index]);
    var s3 := s2.(tasks := s2.tasks[id := DrainReady]);
    LoopAdvances(s3, id, c);
    LoopKeepsOpen(s3, id, c, t0);
  }

  lemma LoopAdvances(s: Sys, id: TaskId, c: Clock)
    requires c.From(c.stamp) && s.now <= c.loop
    ensures s.now <= DrainLoop(s, id, c).now
  {
  }

  lemma FinishAdvances(s: Sys, id: TaskId, ok: bool, spawn: TaskId, c: Clock)
    requires c.From(c.stamp) && s.now <= c.start && id in s.tasks && s.tasks[id].Draining?
    ensures s.now <= c.start <= FinishReplay(s, id, ok, spawn, c).now
  {
    var index, entry := s.tasks[id].index, s.tasks[id].entry;
    var s1 := if ok && entry.Save? then MaybeStartDrain(s, c.start, spawn) else s.(now := c.start);
    var s2 := if ok then s1.(applied := s1.applied + [index]) else s1.(dropped := s1.dropped + [index]);
    LoopAdvances(s2.(tasks := s2.tasks[id := DrainReady]), id, c);
  }

  /** Whatever the other tasks do, a circuit opened at `t0` stays open, with a
      stamp no older, until the clock reads `t0 + 30`. */
  lemma StepKeepsOpen(s: Sys, e: Event, t0: real)
    requires Inv(s) && Enabled(s, e) && OpenSince(s, t0)
    requires Next(s, e).now < t0 + Breaker.CB_RESET_SECONDS
    ensures OpenSince(Next(s, e), t0)
  {
    assert BreakerOk(s);
    hide Inv, FinishReplay, DrainLoop;
    match e
    case PostReturns(id, spawn, c) =>
      if s.tasks[id].Draining? {
        FinishKeepsOpen(Release(s, id).(now := c.recheck, breaker := s.breaker.Succeeded()), id, true, spawn, c, t0);
      }
    case PostFails(id, c) =>
      if s.tasks[id].Draining? {
        FailKeepsOpen(s, id, c, t0);
      }
    case PostRaisesAtOnce(id, c) =>
      if s.tasks[id].Draining? {
        FinishKeepsOpen(Release(s, id), id, false, id, c, t0);
      }
    case StartDrain(id, c) => LoopKeepsOpen(s.(drainTask := Some(id)), id, c, t0);
    case AwaitDrain(id, c) => LoopKeepsOpen(s.(drainTask := Some(id), tasks := s.tasks[id := DrainReady]), id, c, t0);
    case DrainBlocking(saves, at) => SettleLeavesBreaker(s.(now := at), saves);
    case _ =>
  }

  lemma FailKeepsOpen(s: Sys, id: TaskId, c: Clock, t0: real)
    requires Inv(s) && Enabled(s, PostFails(id, c)) && OpenSince(s, t0) && s.tasks[id].Draining?
    requires Next(s, PostFails(id, c)).now < t0 + Breaker.CB_RESET_SECONDS
    ensures OpenSince(Next(s, PostFails(id, c)), t0)
  {
    hide FinishReplay;
    var failed := s.breaker.Failed(c.stamp);
    var s1 := Release(s, id).(now := c.recheck, breaker := failed.Read(c.recheck));
    FinishAdvances(s1, id, false, id, c);
    if c.recheck < t0 + Breaker.CB_RESET_SECONDS {
      assert OpenSince(s1, t0);
      if Next(s, PostFails(id, c)) == FinishReplay(s1, id, false, id, c) {
        FinishKeepsOpen(s1, id, false, id, c, t0);
      }
    }
  }

  lemma StepAdvancesClock(s: Sys, e: Event)
    requires Enabled(s, e)
    ensures s.now <= Next(s, e).now
  {
    hide FinishReplay, DrainLoop;
    match e
    case PostReturns(id, spawn, c) =>
      if s.tasks[id].Draining? {
        FinishAdvances(Release(s, id).(now := c.recheck, breaker := s.breaker.Succeeded()), id, true, spawn, c);
      }
    case PostFails(id, c) =>
      if s.tasks[id].Draining? {
        FinishAdvances(Release(s, id).(now := c.recheck, breaker := s.breaker.Failed(c.stamp).Read(c.recheck)), id,
            false, id, c);
      }
    case PostRaisesAtOnce(id, c) =>
      if s.tasks[id].Draining? {
        FinishAdvances(Release(s, id), id, false, id, c);
      }
    case StartDrain(id, c) => LoopAdvances(s.(drainTask := Some(id)), id, c);
    case AwaitDrain(id, c) => LoopAdvances(s.(drainTask := Some(id), tasks := s.tasks[id := DrainReady]), id, c);
    case DrainBlocking(saves, at) => SettleLeavesBreaker(s.(now := at), saves);
    case _ =>
  }

  lemma {:induction false} OpenStaysOpen(s: Sys, es: seq<Event>, t0: real)
    requires Inv(s) && Runs(s, es)
    requires OpenSince(s, t0) && Final(s, es).now < t0 + Breaker.CB_RESET_SECONDS
    ensures OpenSince(Final(s, es), t0)
    decreases |es|
  {
    if es != [] {
      RunAdvancesClock(Next(s, es[0]), es[1..]);
      StepKeeps(s, es[0]);
      StepKeepsOpen(s, es[0], t0);
      OpenStaysOpen(Next(s, es[0]), es[1..], t0);
    }
  }

  lemma {:induction false} RunAdvancesClock(s: Sys, es: seq<Event>)
    requires Runs(s, es)
    ensures s.now <= Final(s, es).now
    decreases |es|
  {
    if es != [] {
      StepAdvancesClock(s, es[0]);
      RunAdvancesClock(Next(s, es[0]), es[1..]);
    }
  }

  /** A replay at its first attempt. */
  predicate First(task: Task) {
    task.Draining? && (task.pc == Posting(0) || task.pc == Waiting(0))
  }

  lemma LoopPostsClosed(s: Sys, id: TaskId, c: Clock, other: TaskId)
    ensures var r := DrainLoop(s, id, c);
            && (other != id && other in r.tasks ==> other in s.tasks && r.tasks[other] == s.tasks[other])
            && (id in r.tasks ==> s.queue != [] && r.breaker.openAt.None? && First(r.tasks[id]))
  {
  }

  lemma FinishPostsClosed(s: Sys, id: TaskId, ok: bool, spawn: TaskId, c: Clock, other: TaskId)
    requires id in s.tasks && s.tasks[id].Draining?
    ensures var r := FinishReplay(s, id, ok, spawn, c);
            && (other != id && other in r.tasks && IsPosting(r.tasks[other]) ==>
                  other in s.tasks && r.tasks[other] == s.tasks[other])
            && (id in r.tasks ==> r.breaker.openAt.None? && First(r.tasks[id]))
  {
    hide DrainLoop;
    var index, entry := s.tasks[id].index, s.tasks[id].entry;
    var s1 := if ok && entry.Save? then MaybeStartDrain(s, c.start, spawn) else s.(now := c.start);
    var s2 := if ok then s1.(applied := s1.applied + [index]) else s1.(dropped := s1.dropped + [index]);
    LoopPostsClosed(s2.(tasks := s2.tasks[id := DrainReady]), id, c, other);
    LoopPostsClosed(s2.(tasks := s2.tasks[id := DrainReady]), id, c, id);
  }

  /** The step puts a post of task `id` on the wire. */
  predicate Issues(s: Sys, e: Event, id: TaskId)
    requires Enabled(s, e)
  {
    var r := Next(s, e);
    id in r.tasks && IsPosting(r.tasks[id]) && (id in s.tasks ==> s.tasks[id] != r.tasks[id])
  }

  /** No call or replay that goes on the wire straight from its check does so while the
      circuit is open; all others are retries, or have waited for the lock. */
  lemma FirstPostFindsClosed(s: Sys, e: Event, id: TaskId)
    requires Inv(s) && Enabled(s, e) && Issues(s, e, id)
    ensures !e.Wake? && !e.Acquire? ==> Next(s, e).breaker.openAt.None? && Next(s, e).tasks[id].pc.attempt == 0
    ensures e.Wake? ==> Next(s, e).tasks[id].pc.attempt > 0
    ensures e.Acquire? ==> s.patched
  {
    assert LockOk(s);
    hide Inv, FinishReplay, DrainLoop;
    match e
    case PostReturns(t, spawn, c) =>
      if s.tasks[t].Draining? {
        FinishPostsClosed(Release(s, t).(now := c.recheck, breaker := s.breaker.Succeeded()), t, true, spawn, c, id);
      }
    case PostFails(t, c) =>
      if s.tasks[t].Draining? {
        FinishPostsClosed(Release(s, t).(now := c.recheck, breaker := s.breaker.Failed(c.stamp).Read(c.recheck)), t,
            false, t, c, id);
      }
    case PostRaisesAtOnce(t, c) =>
      if s.tasks[t].Draining? {
        FinishPostsClosed(Release(s, t), t, false, t, c, id);
      }
    case StartDrain(t, c) => LoopPostsClosed(s.(drainTask := Some(t)), t, c, id);
    case AwaitDrain(t, c) => LoopPostsClosed(s.(drainTask := Some(t), tasks := s.tasks[t := DrainReady]), t, c, id);
    case DrainBlocking(saves, at) => SettleLeavesTasks(s.(now := at), saves);
    case _ =>
  }

  /** Posts into an open circuit, exactly: a step puts a post on the wire while the breaker
      blocks if and only if it is a retry waking up, or a post that has waited for the lock
      and gets it, less than 30 s past the last stamped failure. */
  lemma PostsWhileOpenIff(s: Sys, e: Event, id: TaskId)
    requires Inv(s) && Enabled(s, e) && Issues(s, e, id)
    ensures Next(s, e).breaker.Blocks(Next(s, e).now) <==>
              (e.Wake? || e.Acquire?) && s.breaker.openAt.Some?
                  && e.at - s.breaker.openAt.value < Breaker.CB_RESET_SECONDS
  {
    FirstPostFindsClosed(s, e, id);
  }

  const AT_ZERO := Clock(0.0, 0.0, 0.0, 0.0, 0.0, 0.0)

  /** A read begins at time 0. */
  function Read(id: TaskId): (e: Event) {
    Begin(id, ReadCall, KgEvent("", ""), AT_ZERO)
  }

  /** `es` leads from the start to `s`. */
  ghost predicate Leads(es: seq<Event>, s: Sys) {
    Runs(START, es) && Final(START, es) == s
  }

  lemma LeadsOn(es: seq<Event>, s: Sys, e: Event, r: Sys)
    requires Leads(es, s) && Enabled(s, e) && Next(s, e) == r
    ensures Leads(es + [e], r)
  {
    RunsSnoc(START, es, e);
  }

  /** A read passes its check and is sent. */
  lemma ReadIsSent(es: seq<Event>, s: Sys, id: TaskId)
    requires Leads(es, s) && s.now == 0.0 && s.breaker.openAt.None? && s.drainTask.None? && id !in s.tasks
    ensures Leads(es + [Read(id)], Send(s, id, Client(ReadCall, Posting(0)), 0))
  {
    LeadsOn(es, s, Read(id), Send(s, id, Client(ReadCall, Posting(0)), 0));
  }

  /** The state once the read `id` has failed at its first attempt: asleep, or given up. */
  function OnceFailed(s: Sys, id: TaskId): (r: Sys) {
    var failed := s.breaker.Failed(0.0);
    var tasks := if failed.Blocks(0.0) then s.tasks - {id} else s.tasks[id := Client(ReadCall, Sleeping(0))];
    Release(s, id).(breaker := failed, tasks := tasks)
  }

  lemma ReadFails(es: seq<Event>, s: Sys, id: TaskId)
    requires Leads(es, s) && s.now == 0.0 && s.breaker.openAt.None?
    requires id in s.tasks && s.tasks[id] == Client(ReadCall, Posting(0))
    ensures Leads(es + [PostFails(id, AT_ZERO)], OnceFailed(s, id))
  {
    LeadsOn(es, s, PostFails(id, AT_ZERO), OnceFailed(s, id));
  }

  /** Such a wake is reached: on the stock class three calls fail once each, and the first
      one's retry posts into the circuit the third one opened. */
  lemma RetryPostsIntoOpenCircuit() returns (es: seq<Event>, wake: Event)
    ensures Runs(START, es) && Enabled(Final(START, es), wake) && wake.Wake?
    ensures !Final(START, es).patched && Issues(Final(START, es), wake, wake.id)
    ensures var r := Next(Final(START, es), wake); r.breaker.Blocks(r.now)
  {
    var post := Client(ReadCall, Posting(0));
    var s1, s2 := START.(tasks := map[1 := post]), START.(tasks := map[1 := post, 2 := post]);
    var s3 := START.(tasks := map[1 := post, 2 := post, 3 := post]);
    ReadIsSent([], START, 1);
    ReadIsSent([] + [Read(1)], s1, 2);
    ReadIsSent([] + [Read(1)] + [Read(2)], s2, 3);
    es := [] + [Read(1)] + [Read(2)] + [Read(3)];
    assert Leads(es, s3);
    hide Next, Enabled, Runs, Final;
    ReadFails(es, s3, 1);
    ReadFails(es + [PostFails(1, AT_ZERO)], OnceFailed(s3, 1), 2);
    es := es + [PostFails(1, AT_ZERO)] + [PostFails(2, AT_ZERO)];
    var s5 := OnceFailed(OnceFailed(s3, 1), 2);
    ReadFails(es, s5, 3);
    es := es + [PostFails(3, AT_ZERO)];
    wake := Wake(1, 0.0);
    WakeIssues(OnceFailed(s5, 3), 1, 0.0);
  }

  lemma WakeIssues(s: Sys, id: TaskId, at: real)
    requires id in s.tasks && s.tasks[id] == Client(ReadCall, Sleeping(0)) && s.now <= at && !s.patched
    ensures Enabled(s, Wake(id, at)) && Issues(s, Wake(id, at), id) && Next(s, Wake(id, at)).breaker == s.breaker
    ensures Next(s, Wake(id, at)).now == at
  {
  }

  lemma AcquireIssues(es: seq<Event>, s: Sys, id: TaskId, at: real)
    requires Leads(es, s)
    requires id in s.tasks && s.tasks[id] == Client(ReadCall, Waiting(0)) && s.now <= at && s.lock.None?
    ensures Enabled(s, Acquire(id, at)) && Issues(s, Acquire(id, at), id)
    ensures Next(s, Acquire(id, at))
        == s.(now := at, lock := Some(id), tasks := s.tasks[id := Client(ReadCall, Posting(0))])
    ensures Leads(es + [Acquire(id, at)], Next(s, Acquire(id, at)))
  {
    LeadsOn(es, s, Acquire(id, at), Next(s, Acquire(id, at)));
  }

  /** And so is such an acquire: on the patched class four calls pass their check, three fail
      once each, and the last makes its first attempt into the open circuit. */
  lemma FirstPostIntoOpenCircuit() returns (es: seq<Event>, acquire: Event)
    ensures Runs(START, es) && Enabled(Final(START, es), acquire) && acquire.Acquire?
    ensures Issues(Final(START, es), acquire, acquire.id)
    ensures var r := Next(Final(START, es), acquire);
      r.breaker.Blocks(r.now) && r.tasks[acquire.id].pc.attempt == 0
  {
    var s;
    es, s := FourSent();
    hide Next, Enabled, Runs, Final, Issues;
    ReadFails(es, s, 1);
    var s1 := OnceFailed(s, 1);
    es := es + [PostFails(1, AT_ZERO)];
    AcquireIssues(es, s1, 2, 0.0);
    var s2 := Next(s1, Acquire(2, 0.0));
    ReadFails(es + [Acquire(2, 0.0)], s2, 2);
    var s3 := OnceFailed(s2, 2);
    es := es + [Acquire(2, 0.0)] + [PostFails(2, AT_ZERO)];
    AcquireIssues(es, s3, 3, 0.0);
    var s4 := Next(s3, Acquire(3, 0.0));
    ReadFails(es + [Acquire(3, 0.0)], s4, 3);
    es := es + [Acquire(3, 0.0)] + [PostFails(3, AT_ZERO)];
    acquire := Acquire(4, 0.0);
    AcquireIssues(es, OnceFailed(s4, 3), 4, 0.0);
  }

  /** On the patched class: four reads at once, the first at its post. */
  lemma FourSent() returns (es: seq<Event>, s: Sys)
    ensures Leads(es, s) && s.now == 0.0 && s.breaker == Breaker.INITIAL && s.lock == Some(1)
    ensures var wait := Client(ReadCall, Waiting(0));
      s.tasks == map[1 := Client(ReadCall, Posting(0)), 2 := wait, 3 := wait, 4 := wait]
  {
    var patched := START.(patched := true);
    LeadsOn([], START, Patch(0.0), patched);
    es := [] + [Patch(0.0)];
    hide Next, Enabled, Runs, Final, Leads;
    var post, wait := Client(ReadCall, Posting(0)), Client(ReadCall, Waiting(0));
    ReadIsSent(es, patched, 1);
    var s1 := patched.(tasks := map[1 := post], lock := Some(1));
    ReadIsSent(es + [Read(1)], s1, 2);
    es := es + [Read(1)] + [Read(2)];
    ReadIsSent(es, s1.(tasks := map[1 := post, 2 := wait]), 3);
    es := es + [Read(3)];
    ReadIsSent(es, s1.(tasks := map[1 := post, 2 := wait, 3 := wait]), 4);
    es := es + [Read(4)];
    s := s1.(tasks := map[1 := post, 2 := wait, 3 := wait, 4 := wait]);
  }

  // ----- What a step does to the breaker -------------------------------------------------

  /** The breaker once the outcome in this event is recorded, and the recheck after an
      ordinary exception is made. */
  function Recorded(s: Sys, e: Event): (b: Breaker.Breaker) {
    match e
    case PostReturns(_, _, _) => s.breaker.(failures := 0)
    case PostFails(_, c) =>
      var n := s.breaker.failures + 1;
      var stamp := if n >= 3 then Some(c.stamp) else s.breaker.openAt;
      if stamp.Some? && c.recheck - stamp.value >= 30.0 then Breaker.Breaker(0, None) else Breaker.Breaker(n, stamp)
    case _ => s.breaker
  }

  /** The event reads the circuit for certain. */
  predicate Looks(s: Sys, e: Event)
    requires Enabled(s, e)
  {
    match e
    case Begin(_, _, _, _) => true
    case Status(_) => true
    case StartDrain(_, _) => s.queue != []
    case AwaitDrain(_, _) => s.queue != []
    case PostReturns(id, _, _) =>
      s.queue != [] && (s.tasks[id].Draining? || s.tasks[id].kind.SaveCall?)
    case PostRaisesAtOnce(id, _) => s.queue != [] && s.tasks[id].Draining?
    case _ => false
  }

  /** `b`, or `b` as a reading at the time of `r` leaves it; that if it is `read`. */
  predicate Left(b: Breaker.Breaker, r: Sys, read: bool) {
    r.breaker == b.Read(r.now) || (!read && r.breaker == b)
  }

  lemma LoopLeaves(s: Sys, id: TaskId, c: Clock)
    requires c.From(c.stamp) && s.now <= c.loop
    ensures Left(s.breaker, DrainLoop(s, id, c), s.queue != [])
  {
  }

  lemma FinishLeaves(s: Sys, id: TaskId, ok: bool, spawn: TaskId, c: Clock)
    requires c.From(c.stamp) && s.now <= c.start && id in s.tasks && s.tasks[id].Draining?
    ensures Left(s.breaker, FinishReplay(s, id, ok, spawn, c), s.queue != [])
  {
    var index, entry := s.tasks[id].index, s.tasks[id].entry;
    var s1 := if ok && entry.Save? then MaybeStartDrain(s, c.start, spawn) else s.(now := c.start);
    var s2 := if ok then s1.(applied := s1.applied + [index]) else s1.(dropped := s1.dropped + [index]);
    var s3 := s2.(tasks := s2.tasks[id := DrainReady]);
    assert s3.queue == s.queue && Left(s.breaker, s3, false);
    LoopAdvances(s3, id, c);
    LoopLeaves(s3, id, c);
  }

  lemma OverLeaves(s: Sys, e: Event)
    requires Inv(s) && Enabled(s, e) && (e.PostReturns? || e.PostFails? || e.PostRaisesAtOnce?)
    ensures Left(Recorded(s, e), Next(s, e), Looks(s, e))
  {
    hide FinishReplay;
    match e
    case PostReturns(id, spawn, c) =>
      if s.tasks[id].Draining? {
        FinishLeaves(Release(s, id).(now := c.recheck, breaker := s.breaker.Succeeded()), id, true, spawn, c);
      }
    case PostFails(id, c) =>
      assert s.breaker.Failed(c.stamp).Read(c.recheck) == Recorded(s, e);
      if s.tasks[id].Draining? {
        FinishLeaves(Release(s, id).(now := c.recheck, breaker := Recorded(s, e)), id, false, id, c);
      }
    case PostRaisesAtOnce(id, c) =>
      if s.tasks[id].Draining? {
        FinishLeaves(Release(s, id), id, false, id, c);
      }
  }

  /** What any step leaves of the breaker: the outcome it records, as a reading of the
      circuit at the end of the step leaves it, or not read again. Only outcomes are
      recorded, and only readings 30 s past the stamp clear anything. */
  lemma BreakerFollows(s: Sys, e: Event)
    requires Inv(s) && Enabled(s, e)
    ensures Left(Recorded(s, e), Next(s, e), Looks(s, e))
  {
    hide FinishReplay, DrainLoop, FailPost;
    match e
    case PostReturns(_, _, _) => OverLeaves(s, e);
    case PostFails(_, _) => OverLeaves(s, e);
    case PostRaisesAtOnce(_, _) => OverLeaves(s, e);
    case StartDrain(id, c) => LoopLeaves(s.(drainTask := Some(id)), id, c);
    case AwaitDrain(id, c) => LoopLeaves(s.(drainTask := Some(id), tasks := s.tasks[id := DrainReady]), id, c);
    case DrainBlocking(saves, at) => SettleLeavesBreaker(s.(now := at), saves);
    case _ =>
  }
}
