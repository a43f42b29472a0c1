/** The lock of the fleet patch in `BridgeMachine`: once posts go through it and none is
    left that did not, no two posts are ever on the wire together. */
module PostLock {
  import opened Bridge
  import opened BridgeMachine
  import opened Wrappers

  /** The class is patched, and whoever is at its post holds the lock. */
  ghost predicate Guarded(s: Sys) {
    s.patched && forall id | id in s.tasks && IsPosting(s.tasks[id]) :: s.lock == Some(id)
  }

  lemma SendGuards(s: Sys, id: TaskId, task: Task, attempt: nat)
    requires Guarded(s) && (task.Client? || task.Draining?)
    requires id !in s.tasks || !IsPosting(s.tasks[id])
    ensures Guarded(Send(s, id, task, attempt))
  {
    hide LockFree;
    if LockFree(s) {
      assert s.lock.None? by {
        LockFreeIsFree(s);
      }
    }
  }

  lemma LockFreeIsFree(s: Sys)
    requires LockFree(s)
    ensures s.lock.None?
  {
  }

  lemma ReleaseGuards(s: Sys, id: TaskId)
    requires Guarded(s) && id in s.tasks && IsPosting(s.tasks[id])
    ensures var r := Release(s, id);
      r.patched && r.lock.None? && forall other | other in s.tasks && IsPosting(s.tasks[other]) :: other == id
  {
  }

  lemma LoopGuards(s: Sys, id: TaskId, c: Clock)
    requires Guarded(s) && id in s.tasks && s.tasks[id].DrainReady?
    ensures Guarded(DrainLoop(s, id, c))
  {
    hide Send;
    if s.queue != [] && !s.breaker.Blocks(c.loop) {
      var s1 := Look(s, c.loop);
      var s2 := Look(s1.(queue := s1.queue[1..], popped := s1.popped + 1), c.call);
      SendGuards(s2, id, Draining(s1.popped, s1.queue[0], Posting(0)), 0);
    }
  }

  lemma FinishGuards(s: Sys, id: TaskId, ok: bool, spawn: TaskId, c: Clock)
    requires Inv(s) && id in s.tasks && s.tasks[id].Draining? && s.patched
    requires forall other | other in s.tasks && IsPosting(s.tasks[other]) :: other == id || s.lock == Some(other)
    ensures Guarded(FinishReplay(s, id, ok, spawn, c))
  {
    hide DrainLoop;
    var index, entry := s.tasks[id].index, s.tasks[id].entry;
    assert DrainLive(s);
    var s1 := if ok && entry.Save? then MaybeStartDrain(s, c.start, spawn) else s.(now := c.start);
    var s2 := if ok then s1.(applied := s1.applied + [index]) else s1.(dropped := s1.dropped + [index]);
    LoopGuards(s2.(tasks := s2.tasks[id := DrainReady]), id, c);
  }

  lemma {:induction false} SettleGuards(s: Sys, saves: seq<bool>)
    requires |saves| <= |s.queue|
    ensures Settle(s, saves).lock == s.lock && Settle(s, saves).patched == s.patched
    decreases |saves|
  {
    if saves != [] {
      SettleGuards(SettleOne(s, saves[0]), saves[1..]);
    }
  }

  lemma OverGuards(s: Sys, e: Event)
    requires Inv(s) && Enabled(s, e) && Guarded(s) && (e.PostReturns? || e.PostFails? || e.PostRaisesAtOnce?)
    ensures Guarded(Next(s, e))
  {
    ReleaseGuards(s, e.id);
    hide FinishReplay;
    var freed := Release(s, e.id);
    assert Inv(freed);
    match e
    case PostReturns(id, spawn, c) =>
      if s.tasks[id].Draining? {
        FinishGuards(freed.(now := c.recheck, breaker := s.breaker.Succeeded()), id, true, spawn, c);
      }
    case PostFails(id, c) =>
      if s.tasks[id].Draining? {
        var failed := freed.(now := c.recheck, breaker := s.breaker.Failed(c.stamp).Read(c.recheck));
        FinishGuards(failed, id, false, id, c);
      }
    case PostRaisesAtOnce(id, c) =>
      if s.tasks[id].Draining? {
        FinishGuards(freed, id, false, id, c);
      }
  }

  lemma StepGuards(s: Sys, e: Event)
    requires Inv(s) && Enabled(s, e) && Guarded(s)
    ensures Guarded(Next(s, e))
  {
    hide FinishReplay, DrainLoop, Settle, Send, LockFree, FailPost;
    match e
    case PostReturns(_, _, _) => OverGuards(s, e);
    case PostFails(_, _) => OverGuards(s, e);
    case PostRaisesAtOnce(_, _) => OverGuards(s, e);
    case Begin(id, kind, entry, c) =>
      var s1 := if kind.ReadCall? then s else Look(s, c.save);
      SendGuards(Look(s1, c.call), id, Client(kind, Posting(0)), 0);
    case Wake(id, at) => SendGuards(s.(now := at), id, s.tasks[id], s.tasks[id].pc.attempt + 1);
    case StartDrain(id, c) => LoopGuards(s.(drainTask := Some(id)), id, c);
    case AwaitDrain(id, c) => LoopGuards(s.(drainTask := Some(id), tasks := s.tasks[id := DrainReady]), id, c);
    case DrainBlocking(saves, at) =>
      SettleGuards(s.(now := at), saves);
      SettleLeavesTasks(s.(now := at), saves);
    case _ =>
  }

  lemma {:induction false} RunGuards(s: Sys, es: seq<Event>)
    requires Runs(s, es) && Inv(s) && Guarded(s)
    ensures Guarded(Final(s, es))
    decreases |es|
  {
    hide Next, Inv, Guarded;
    if es != [] {
      StepKeeps(s, es[0]);
      StepGuards(s, es[0]);
      RunGuards(Next(s, es[0]), es[1..]);
    }
  }

  /** However clients, drains, cancels and status reads interleave: from a sound state in
      which the patch is applied and no post is out, at most one post is on the wire in every
      state reached, and the one there is holds the lock. */
  lemma OnePostOnTheWire(s: Sys, at: real, es: seq<Event>, a: TaskId, b: TaskId)
    requires Inv(s) && Enabled(s, Patch(at)) && forall id | id in s.tasks :: !IsPosting(s.tasks[id])
    requires Runs(s, [Patch(at)] + es)
    requires var r := Final(s, [Patch(at)] + es);
             && a in r.tasks && IsPosting(r.tasks[a])
             && b in r.tasks && IsPosting(r.tasks[b])
    ensures a == b && Final(s, [Patch(at)] + es).lock == Some(a)
  {
    var run := [Patch(at)] + es;
    assert run[1..] == es;
    StepKeeps(s, Patch(at));
    RunGuards(Next(s, Patch(at)), es);
  }

  /** Nobody is ever stuck: every task of a sound state can go on, whatever the clock reads,
      unless it waits for a lock whose holder is at its post; and that post can end in any
      way. A cancel, a status read and the patch are always possible. */
  lemma NobodyIsStuck(s: Sys, id: TaskId, spawn: TaskId, at: real)
    requires Inv(s) && id in s.tasks && spawn !in s.tasks && s.now <= at
    ensures var c, task := Clock(at, at, at, at, at, at), s.tasks[id];
      if task.DrainReady? then Enabled(s, StartDrain(id, c))
      else match task.pc
        case Posting(_) =>
          Enabled(s, PostReturns(id, spawn, c)) && Enabled(s, PostFails(id, c)) && Enabled(s, PostRaisesAtOnce(id, c))
        case Sleeping(_) => Enabled(s, Wake(id, at))
        case Waiting(_) =>
          if s.lock.Some? then s.lock.value in s.tasks && IsPosting(s.tasks[s.lock.value])
          else Enabled(s, Acquire(id, at))
    ensures Enabled(s, Kill(id, at)) && Enabled(s, Status(at)) && Enabled(s, Patch(at))
  {
  }
}
