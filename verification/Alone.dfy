/** A task of `BridgeMachine` that runs alone. The machine then does what the sequential
    code of `Breaker` and `Bridge` does: one call with its retries, and one drain of the
    queue. */
module Alone {
  import Breaker
  import opened Bridge
  import opened BridgeMachine
  import opened Wrappers

  // ----- The events of one call ---------------------------------------------------------

  /** The clock does not run backwards from attempt to attempt. */
  predicate Ordered(script: Breaker.Script)
    requires script.Possible()
  {
    && script.entry <= script.attempts[0].stamp
    && script.attempts[0].recheck <= script.attempts[1].stamp
    && script.attempts[1].recheck <= script.attempts[2].stamp
  }

  /** How the clock is read as attempt `a` ends, and in the loop check after it. */
  function Reading(a: Breaker.Attempt, loop: real, save: real, call: real): (c: Clock) {
    Clock(a.stamp, a.recheck, a.recheck, loop, save, call)
  }

  /** The attempts from `from` up to `to` fail, and each time the call wakes again. */
  function Retries(id: TaskId, script: Breaker.Script, from: nat, to: nat, next: Turn): (es: seq<Event>)
    requires script.Possible() && from <= to < Breaker.RETRY_ATTEMPTS
    decreases Breaker.RETRY_ATTEMPTS - from
  {
    if from == to then []
    else
      var a := script.attempts[from];
      [PostFails(id, Reading(a, next.loop, next.save, next.script.entry)), Wake(id, a.recheck)]
      + Retries(id, script, from + 1, to, next)
  }

  /** The attempt with which the call ends. */
  function Ends(id: TaskId, spawn: TaskId, a: Breaker.Attempt, next: Turn): (e: Event) {
    var c := Reading(a, next.loop, next.save, next.script.entry);
    match a.outcome
    case Returns => PostReturns(id, spawn, c)
    case RaisesAtOnce => PostRaisesAtOnce(id, c)
    case Fails => PostFails(id, c)
  }

  /** The number of the attempt with which a call that finds the circuit closed ends. */
  function LastOf(b: Breaker.Breaker, from: nat, script: Breaker.Script): (to: nat)
    requires script.Possible() && from < Breaker.RETRY_ATTEMPTS
    ensures from <= to < Breaker.RETRY_ATTEMPTS
  {
    Breaker.InvokedOnce(b, from, script);
    from + |Breaker.RunAttempts(b, from, script).invoked| - 1
  }

  /** Task `id` is the only one, and at its post. */
  predicate Lone(s: Sys, id: TaskId, task: Task) {
    && s.tasks == map[id := task] && IsPosting(task)
    && s.lock == (if s.patched then Some(id) else None)
    && s.breaker.openAt.None? && s.breaker.Armed()
  }

  ghost predicate Reaches(s: Sys, es: seq<Event>, r: Sys) {
    Runs(s, es) && Final(s, es) == r
  }

  lemma {:induction false} ReachesBoth(s: Sys, es: seq<Event>, r: Sys, fs: seq<Event>, t: Sys)
    requires Reaches(s, es, r) && Reaches(r, fs, t)
    ensures Reaches(s, es + fs, t)
    decreases |es|
  {
    hide Next;
    if es == [] {
      assert es + fs == fs;
    } else {
      assert (es + fs)[1..] == es[1..] + fs;
      ReachesBoth(Next(s, es[0]), es[1..], r, fs, t);
    }
  }

  lemma ReachesOne(s: Sys, e: Event)
    requires Enabled(s, e)
    ensures Reaches(s, [e], Next(s, e))
  {
    assert [e][1..] == [];
  }

  /** One failed attempt that is not the last, and the waking after it. */
  lemma OneRetry(s: Sys, id: TaskId, task: Task, script: Breaker.Script, next: Turn)
    requires Lone(s, id, task) && script.Possible() && Ordered(script) && task.pc.attempt < 2
    requires script.attempts[2].recheck <= next.loop <= next.save <= next.script.entry
    requires s.now <= script.attempts[task.pc.attempt].stamp
    requires var a := script.attempts[task.pc.attempt];
             a.outcome == Breaker.Fails && !s.breaker.Failed(a.stamp).Blocks(a.recheck)
    ensures var a := script.attempts[task.pc.attempt];
            var r := s.(now := a.recheck, breaker := s.breaker.Failed(a.stamp).Read(a.recheck),
                        tasks := map[id := task.(pc := Posting(task.pc.attempt + 1))]);
            && Lone(r, id, r.tasks[id])
            && Reaches(s, [PostFails(id, Reading(a, next.loop, next.save, next.script.entry)), Wake(id, a.recheck)], r)
  {
    var a := script.attempts[task.pc.attempt];
    var e, f := PostFails(id, Reading(a, next.loop, next.save, next.script.entry)), Wake(id, a.recheck);
    assert s.tasks[id] == task;
    var slept := Next(s, e);
    var r := s.(now := a.recheck, breaker := s.breaker.Failed(a.stamp).Read(a.recheck),
                tasks := map[id := task.(pc := Posting(task.pc.attempt + 1))]);
    assert slept == r.(tasks := map[id := task.(pc := Sleeping(task.pc.attempt))], lock := None);
    assert LockFree(slept.(now := a.recheck));
    assert Next(slept, f) == r;
    ReachesOne(s, e);
    ReachesOne(slept, f);
    ReachesBoth(s, [e], slept, [f], r);
    assert [e] + [f] == [e, f];
  }

  /** The retries lead to the attempt with which the call ends; it leaves to that attempt
      what the whole call comes to. */
  lemma {:induction false} RetriesLead(s: Sys, id: TaskId, task: Task, script: Breaker.Script, next: Turn)
    returns (r: Sys)
    requires Lone(s, id, task) && script.Possible() && Ordered(script) && task.pc.attempt < Breaker.RETRY_ATTEMPTS
    requires script.attempts[2].recheck <= next.loop <= next.save <= next.script.entry
    requires s.now <= script.attempts[task.pc.attempt].stamp
    ensures var from, to := task.pc.attempt, LastOf(s.breaker, task.pc.attempt, script);
            var whole, last := Breaker.RunAttempts(s.breaker, from, script), Breaker.RunAttempts(r.breaker, to, script);
            && Reaches(s, Retries(id, script, from, to, next), r)
            && r == s.(now := r.now, breaker := r.breaker, tasks := map[id := task.(pc := Posting(to))])
            && Lone(r, id, r.tasks[id]) && r.now <= script.attempts[to].stamp
            && last.breaker == whole.breaker && last.result == whole.result && |last.invoked| == 1
    decreases Breaker.RETRY_ATTEMPTS - task.pc.attempt
  {
    var from := task.pc.attempt;
    var a := script.attempts[from];
    hide Breaker.Delay;
    Breaker.InvokedOnce(s.breaker, from, script);
    if a.outcome == Breaker.Fails && from < 2 && !s.breaker.Failed(a.stamp).Blocks(a.recheck) {
      OneRetry(s, id, task, script, next);
      var woken := s.(now := a.recheck, breaker := s.breaker.Failed(a.stamp).Read(a.recheck),
                      tasks := map[id := task.(pc := Posting(from + 1))]);
      hide Next, Enabled;
      r := RetriesLead(woken, id, woken.tasks[id], script, next);
      Breaker.InvokedOnce(woken.breaker, from + 1, script);
      var to := LastOf(s.breaker, from, script);
      assert to == LastOf(woken.breaker, from + 1, script);
      var head := [PostFails(id, Reading(a, next.loop, next.save, next.script.entry)), Wake(id, a.recheck)];
      ReachesBoth(s, head, woken, Retries(id, script, from + 1, to, next), r);
    } else {
      r := s;
    }
  }

  // ----- A call of a client -------------------------------------------------------------

  /** The call is queued instead of sent. */
  predicate Queued(b: Breaker.Breaker, kind: ClientKind, save: real) {
    !kind.ReadCall? && b.Blocks(save)
  }

  /** The breaker a call that is not queued begins with: `save` and the knowledge-graph
      verbs read it first. */
  function Entered(b: Breaker.Breaker, kind: ClientKind, save: real): (r: Breaker.Breaker) {
    if kind.ReadCall? then b else b.Read(save)
  }

  /** The last reading of a call's clock, for all that follows it. */
  function After(script: Breaker.Script): (t: Turn)
    requires script.Possible()
  {
    var end := script.attempts[2].recheck;
    Turn(end, end, script.(entry := end))
  }

  function CallStart(id: TaskId, kind: ClientKind, entry: Entry, save: real, call: real): (e: Event) {
    Begin(id, kind, entry, Clock(save, save, save, save, save, call))
  }

  /** Everything a lone call meets, from its beginning to its end. */
  function CallEvents(b: Breaker.Breaker, id: TaskId, spawn: TaskId, kind: ClientKind, entry: Entry, save: real,
    script: Breaker.Script): (es: seq<Event>)
    requires script.Possible()
  {
    var entered := Entered(b, kind, save);
    [CallStart(id, kind, entry, save, script.entry)]
    + if Queued(b, kind, save) || entered.Blocks(script.entry) then []
      else
        var to := LastOf(entered.Read(script.entry), 0, script);
        Retries(id, script, 0, to, After(script)) + [Ends(id, spawn, script.attempts[to], After(script))]
  }

  /** What the last attempt of a client's call does. */
  lemma ClientEnds(s: Sys, id: TaskId, spawn: TaskId, task: Task, script: Breaker.Script, next: Turn)
    requires Lone(s, id, task) && task.Client? && script.Possible() && task.pc.attempt < Breaker.RETRY_ATTEMPTS
    requires var a := script.attempts[task.pc.attempt];
             s.now <= a.stamp && a.recheck <= next.loop <= next.save <= next.script.entry
    requires |Breaker.RunAttempts(s.breaker, task.pc.attempt, script).invoked| == 1
    requires spawn != id && s.drainTask != Some(id) && !DrainLive(s)
    ensures var e := Ends(id, spawn, script.attempts[task.pc.attempt], next);
            var whole := Breaker.RunAttempts(s.breaker, task.pc.attempt, script);
            var starts := task.kind == SaveCall && whole.result == Breaker.Returned && s.queue != [];
            && Enabled(s, e)
            && Next(s, e) == s.(now := script.attempts[task.pc.attempt].recheck, breaker := whole.breaker, lock := None,
                                tasks := if starts then map[spawn := DrainReady] else map[],
                                drainTask := if starts then Some(spawn) else s.drainTask)
  {
    hide Breaker.Delay;
    var attempt := task.pc.attempt;
    if attempt < 2 {
      var a := script.attempts[attempt];
      Breaker.InvokedOnce(s.breaker.Failed(a.stamp).Read(a.recheck), attempt + 1, script);
    }
  }

  /** The state after a lone call. */
  ghost predicate CallDone(s: Sys, spawn: TaskId, kind: ClientKind, entry: Entry, save: real, script: Breaker.Script,
    r: Sys)
    requires script.Possible()
  {
    var whole := Breaker.RunCall(Entered(s.breaker, kind, save), script);
    var starts := kind == SaveCall && whole.result == Breaker.Returned && s.queue != [];
    if Queued(s.breaker, kind, save) then
      && r.breaker == s.breaker && r.tasks == map[] && r.drainTask == s.drainTask
      && r.queue == Offer(s.queue, entry)
      && (r.popped, r.applied, r.dropped) == (s.popped, s.applied, s.dropped)
    else
      r == s.(now := r.now, breaker := whole.breaker, tasks := if starts then map[spawn := DrainReady] else map[],
              drainTask := if starts then Some(spawn) else s.drainTask)
  }

  /** A call that runs alone in the machine does to the breaker and the queue what the
      sequential code does: a write that meets an open circuit is offered to the queue, all
      else goes through the retry loop, and a save that has returned starts a drain of a
      queue that is not empty. */
  lemma LoneCallIsTheCall(s: Sys, id: TaskId, spawn: TaskId, kind: ClientKind, entry: Entry, save: real,
    script: Breaker.Script)
    requires Inv(s) && s.tasks == map[] && s.drainTask != Some(id) && spawn != id
    requires script.Possible() && Ordered(script) && s.now <= save <= script.entry
    ensures var es := CallEvents(s.breaker, id, spawn, kind, entry, save, script);
            Runs(s, es) && CallDone(s, spawn, kind, entry, save, script, Final(s, es))
  {
    var e := CallStart(id, kind, entry, save, script.entry);
    var begun := Next(s, e);
    var entered := Entered(s.breaker, kind, save);
    assert LockFree(s);
    ReachesOne(s, e);
    if Queued(s.breaker, kind, save) || entered.Blocks(script.entry) {
      assert [e] + [] == [e];
    } else {
      var task := Client(kind, Posting(0));
      assert begun == s.(now := script.entry, breaker := entered.Read(script.entry), tasks := map[id := task],
                         lock := if s.patched then Some(id) else None);
      assert Lone(begun, id, task);
      hide Next, Enabled;
      var r := RetriesLead(begun, id, task, script, After(script));
      var to := LastOf(begun.breaker, 0, script);
      ClientEnds(r, id, spawn, r.tasks[id], script, After(script));
      var last := Ends(id, spawn, script.attempts[to], After(script));
      ReachesOne(r, last);
      ReachesBoth(begun, Retries(id, script, 0, to, After(script)), r, [last], Next(r, last));
      ReachesBoth(s, [e], begun, Retries(id, script, 0, to, After(script)) + [last], Next(r, last));
    }
  }

  // ----- A drain ------------------------------------------------------------------------

  /** The clock does not run backwards from turn to turn. */
  ghost predicate Timed(turns: nat -> Turn) {
    forall k: nat ::
      && turns(k).script.Possible() && Ordered(turns(k).script)
      && turns(k).loop <= turns(k).save <= turns(k).script.entry
      && turns(k).script.attempts[2].recheck <= turns(k + 1).loop
  }

  /** What the replay of turn `k` meets, from its first post to the loop check after it. */
  ghost function TurnEvents(id: TaskId, spawn: TaskId, b: Breaker.Breaker, turns: nat -> Turn, k: nat)
    : (es: seq<Event>)
    requires Timed(turns)
  {
    var script := turns(k).script;
    var to := LastOf(b.Read(turns(k).loop), 0, script);
    Retries(id, script, 0, to, turns(k + 1)) + [Ends(id, spawn, script.attempts[to], turns(k + 1))]
  }

  /** Everything a lone drain meets from its `k`-th loop check on, with `n` writes queued. */
  ghost function DrainEvents(id: TaskId, spawn: TaskId, b: Breaker.Breaker, n: nat, turns: nat -> Turn, k: nat)
    : (es: seq<Event>)
    requires Timed(turns)
    decreases n
  {
    if n == 0 || b.Blocks(turns(k).loop) then []
    else
      var whole := Breaker.RunAttempts(b.Read(turns(k).loop), 0, turns(k).script);
      TurnEvents(id, spawn, b, turns, k) + DrainEvents(id, spawn, whole.breaker, n - 1, turns, k + 1)
  }

  /** The drain `id` alone, at its loop check. */
  predicate AtLoop(s: Sys, id: TaskId) {
    && s.tasks == map[id := DrainReady] && s.drainTask == Some(id) && s.lock.None? && s.breaker.Armed()
    && s.popped <= |s.accepted| && s.queue == s.accepted[s.popped..]
  }

  function LoopClock(now: real, turn: Turn): (c: Clock) {
    Clock(now, now, now, turn.loop, turn.save, turn.script.entry)
  }

  /** The entries at these indices. */
  ghost predicate Are(accepted: seq<Entry>, indices: seq<nat>, entries: seq<Entry>) {
    && |indices| == |entries|
    && forall i | 0 <= i < |indices| :: indices[i] < |accepted| && accepted[indices[i]] == entries[i]
  }

  /** The drain has left `r` behind: what it applied and lost is what `d` says. */
  ghost predicate DrainedTo(s: Sys, r: Sys, d: Drained) {
    && r.breaker == d.breaker && r.queue == d.queue && r.tasks == map[] && r.accepted == s.accepted
    && s.applied <= r.applied && Are(s.accepted, r.applied[|s.applied|..], d.applied)
    && s.dropped <= r.dropped && Are(s.accepted, r.dropped[|s.dropped|..], d.lost)
  }

  /** What the last attempt of a replay does: the entry is accounted for, and the drain
      comes to its next loop check. */
  lemma ReplayEnds(s: Sys, id: TaskId, spawn: TaskId, task: Task, script: Breaker.Script, next: Turn)
    returns (r: Sys)
    requires Lone(s, id, task) && task.Draining? && script.Possible() && task.pc.attempt < Breaker.RETRY_ATTEMPTS
    requires var a := script.attempts[task.pc.attempt];
             s.now <= a.stamp && a.recheck <= next.loop <= next.save <= next.script.entry
    requires |Breaker.RunAttempts(s.breaker, task.pc.attempt, script).invoked| == 1
    requires spawn != id && s.drainTask == Some(id)
    requires s.popped <= |s.accepted| && s.queue == s.accepted[s.popped..]
    ensures var e, a := Ends(id, spawn, script.attempts[task.pc.attempt], next), script.attempts[task.pc.attempt];
            var whole := Breaker.RunAttempts(s.breaker, task.pc.attempt, script);
            && Enabled(s, e) && Next(s, e) == DrainLoop(r, id, Reading(a, next.loop, next.save, next.script.entry))
            && AtLoop(r, id)
            && r.now <= a.recheck
            && r.breaker == whole.breaker
            && r == s.(now := r.now, breaker := r.breaker, tasks := r.tasks, lock := None,
                       applied := s.applied + if whole.result == Breaker.Returned then [task.index] else [],
                       dropped := s.dropped + if whole.result == Breaker.Returned then [] else [task.index])
  {
    hide Breaker.Delay, DrainLoop;
    var attempt := task.pc.attempt;
    var a := script.attempts[attempt];
    if attempt < 2 {
      Breaker.InvokedOnce(s.breaker.Failed(a.stamp).Read(a.recheck), attempt + 1, script);
    }
    var whole := Breaker.RunAttempts(s.breaker, attempt, script);
    r := s.(now := a.recheck, breaker := whole.breaker, tasks := map[id := DrainReady], lock := None,
            applied := s.applied + if whole.result == Breaker.Returned then [task.index] else [],
            dropped := s.dropped + if whole.result == Breaker.Returned then [] else [task.index]);
    assert s.tasks[id := DrainReady] == map[id := DrainReady];
    assert s.applied + [] == s.applied && s.dropped + [] == s.dropped;
  }

  /** The loop check that finds a write and a closed circuit begins the replay. */
  lemma LoopBegins(s: Sys, id: TaskId, c: Clock)
    requires AtLoop(s, id) && s.queue != [] && !s.breaker.Blocks(c.loop) && c.loop <= c.save <= c.call
    ensures var task := Draining(s.popped, s.queue[0], Posting(0));
            var r := DrainLoop(s, id, c);
            && Lone(r, id, task)
            && r == s.(now := c.call, breaker := s.breaker.Read(c.loop), queue := s.queue[1..], popped := s.popped + 1,
                       tasks := map[id := task], lock := if s.patched then Some(id) else None)
  {
    assert LockFree(s);
  }

  lemma LoopStops(s: Sys, id: TaskId, c: Clock)
    requires AtLoop(s, id) && (s.queue == [] || s.breaker.Blocks(c.loop))
    ensures DrainLoop(s, id, c) == s.(now := DrainLoop(s, id, c).now, tasks := map[])
  {
    assert s.tasks - {id} == map[];
  }

  /** One replay from the loop check before it to the loop check after it. */
  lemma TurnLeads(s: Sys, id: TaskId, spawn: TaskId, c: Clock, script: Breaker.Script, next: Turn)
    returns (over: Sys)
    requires AtLoop(s, id) && spawn != id && s.queue != [] && !s.breaker.Blocks(c.loop)
    requires script.Possible() && Ordered(script) && c.loop <= c.save <= c.call == script.entry
    requires script.attempts[2].recheck <= next.loop <= next.save <= next.script.entry
    ensures var to := LastOf(s.breaker.Read(c.loop), 0, script);
            var a := script.attempts[to];
            Reaches(DrainLoop(s, id, c), Retries(id, script, 0, to, next) + [Ends(id, spawn, a, next)],
                DrainLoop(over, id, Reading(a, next.loop, next.save, next.script.entry)))
    ensures var whole := Breaker.RunAttempts(s.breaker.Read(c.loop), 0, script);
            && AtLoop(over, id) && over.accepted == s.accepted && over.queue == s.queue[1..]
            && over.breaker == whole.breaker
            && over.applied == s.applied + (if whole.result == Breaker.Returned then [s.popped] else [])
            && over.dropped == s.dropped + (if whole.result == Breaker.Returned then [] else [s.popped])
  {
    LoopBegins(s, id, c);
    hide DrainLoop, Next, Enabled, Breaker.RunAttempts;
    var start := DrainLoop(s, id, c);
    var r := RetriesLead(start, id, start.tasks[id], script, next);
    over := ReplayEnds(r, id, spawn, r.tasks[id], script, next);
    var to := LastOf(start.breaker, 0, script);
    var last := Ends(id, spawn, script.attempts[to], next);
    ReachesOne(r, last);
    ReachesBoth(start, Retries(id, script, 0, to, next), r, [last], Next(r, last));
  }

  lemma {:induction false} DrainLeads(s: Sys, id: TaskId, spawn: TaskId, c: Clock, turns: nat -> Turn, k: nat)
    requires AtLoop(s, id) && Timed(turns) && spawn != id
    requires (c.loop, c.save, c.call) == (turns(k).loop, turns(k).save, turns(k).script.entry)
    ensures var es := DrainEvents(id, spawn, s.breaker, |s.queue|, turns, k);
            var start := DrainLoop(s, id, c);
            Runs(start, es) && DrainedTo(s, Final(start, es), DrainQueue(s.breaker, s.queue, turns, k))
    decreases |s.queue|
  {
    hide Next, Enabled, Timed;
    var start := DrainLoop(s, id, c);
    if s.queue == [] || s.breaker.Blocks(c.loop) {
      NoTurn(s, id, spawn, c, turns, k);
    } else {
      hide DrainLoop, Breaker.RunAttempts, DrainQueue, DrainedTo, AtLoop, LastOf, Retries, DrainEvents;
      TimedTurn(turns, k);
      var script, next := turns(k).script, turns(k + 1);
      var over := TurnLeads(s, id, spawn, c, script, next);
      var a := script.attempts[LastOf(s.breaker.Read(c.loop), 0, script)];
      var again := Reading(a, next.loop, next.save, next.script.entry);
      DrainLeads(over, id, spawn, again, turns, k + 1);
      var rest := DrainEvents(id, spawn, over.breaker, |over.queue|, turns, k + 1);
      var r := Final(DrainLoop(over, id, again), rest);
      ReachesBoth(start, TurnEvents(id, spawn, s.breaker, turns, k), DrainLoop(over, id, again), rest, r);
      DrainEventsStep(id, spawn, s.breaker, |s.queue|, turns, k);
      AtLoopBounds(s, id);
      TimedIsPossible(turns);
      DrainJoins(s, over, r, turns, k);
    }
  }

  /** The loop check that ends the drain. */
  lemma NoTurn(s: Sys, id: TaskId, spawn: TaskId, c: Clock, turns: nat -> Turn, k: nat)
    requires AtLoop(s, id) && Timed(turns) && c.loop == turns(k).loop
    requires s.queue == [] || s.breaker.Blocks(c.loop)
    ensures var es := DrainEvents(id, spawn, s.breaker, |s.queue|, turns, k);
            var start := DrainLoop(s, id, c);
            Runs(start, es) && DrainedTo(s, Final(start, es), DrainQueue(s.breaker, s.queue, turns, k))
  {
    LoopStops(s, id, c);
    TimedIsPossible(turns);
    hide Timed, AllPossible;
  }

  lemma AtLoopBounds(s: Sys, id: TaskId)
    requires AtLoop(s, id) && s.queue != []
    ensures s.popped < |s.accepted| && s.queue == s.accepted[s.popped..]
  {
  }

  lemma TimedIsPossible(turns: nat -> Turn)
    requires Timed(turns)
    ensures AllPossible(turns)
  {
  }

  lemma TimedTurn(turns: nat -> Turn, k: nat)
    requires Timed(turns)
    ensures turns(k).script.Possible() && Ordered(turns(k).script)
    ensures turns(k).loop <= turns(k).save <= turns(k).script.entry
    ensures turns(k).script.attempts[2].recheck <= turns(k + 1).loop
    ensures turns(k + 1).loop <= turns(k + 1).save <= turns(k + 1).script.entry
  {
  }

  lemma DrainEventsStep(id: TaskId, spawn: TaskId, b: Breaker.Breaker, n: nat, turns: nat -> Turn, k: nat)
    requires Timed(turns) && n > 0 && !b.Blocks(turns(k).loop)
    ensures var whole := Breaker.RunAttempts(b.Read(turns(k).loop), 0, turns(k).script);
            DrainEvents(id, spawn, b, n, turns, k) ==
              TurnEvents(id, spawn, b, turns, k) + DrainEvents(id, spawn, whole.breaker, n - 1, turns, k + 1)
  {
  }

  /** The entry just replayed joins the others the drain has applied or lost. */
  lemma DrainJoins(s: Sys, over: Sys, r: Sys, turns: nat -> Turn, k: nat)
    requires Timed(turns) && AllPossible(turns) && s.queue != [] && !s.breaker.Blocks(turns(k).loop)
    requires s.popped < |s.accepted| && s.queue == s.accepted[s.popped..]
    requires over.accepted == s.accepted && over.queue == s.queue[1..]
    requires var whole := Breaker.RunAttempts(s.breaker.Read(turns(k).loop), 0, turns(k).script);
             && over.breaker == whole.breaker
             && over.applied == s.applied + (if whole.result == Breaker.Returned then [s.popped] else [])
             && over.dropped == s.dropped + (if whole.result == Breaker.Returned then [] else [s.popped])
    requires DrainedTo(over, r, DrainQueue(over.breaker, over.queue, turns, k + 1))
    ensures DrainedTo(s, r, DrainQueue(s.breaker, s.queue, turns, k))
  {
    var closed := s.breaker.Read(turns(k).loop);
    var ok := Breaker.RunAttempts(closed, 0, turns(k).script).result == Breaker.Returned;
    ReplayIs(closed, s.queue[1..], s.queue[0], turns(k));
    var _, d := DrainStep(s.breaker, s.queue, turns, k);
    hide Breaker.RunAttempts, DrainQueue, ReplayEntry, Are;
    var rest := DrainQueue(over.breaker, over.queue, turns, k + 1);
    var head: seq<nat> := [s.popped];
    AreHead(s.accepted, s.popped, s.queue[0]);
    if ok {
      AreJoined(s.accepted, s.applied, head, r.applied, [s.queue[0]], rest.applied);
    } else {
      AreJoined(s.accepted, s.dropped, head, r.dropped, [s.queue[0]], rest.lost);
    }
    assert s.applied + [] == s.applied && s.dropped + [] == s.dropped;
  }

  lemma AreHead(accepted: seq<Entry>, index: nat, entry: Entry)
    requires index < |accepted| && accepted[index] == entry
    ensures Are(accepted, [index], [entry])
  {
  }

  lemma AreJoined(accepted: seq<Entry>, before: seq<nat>, here: seq<nat>, all: seq<nat>, entries: seq<Entry>,
    rest: seq<Entry>)
    requires before + here <= all
    requires Are(accepted, here, entries) && Are(accepted, all[|before + here|..], rest)
    ensures before <= all && Are(accepted, all[|before|..], entries + rest)
  {
    assert all[|before|..] == here + all[|before + here|..];
  }

  lemma ReplayIs(closed: Breaker.Breaker, queue: seq<Entry>, entry: Entry, turn: Turn)
    requires turn.script.Possible() && closed.openAt.None?
    ensures var whole := Breaker.RunAttempts(closed, 0, turn.script);
            ReplayEntry(closed, queue, entry, turn) ==
              Replay(whole.breaker, queue, if whole.result == Breaker.Returned then Applied else Lost)
  {
  }

  /** A drain that runs alone in the machine, from its start to its end, does what the
      sequential drain does: same breaker, same queue, and the same entries applied and
      lost in the same order. */
  lemma LoneDrainIsTheDrain(s: Sys, id: TaskId, spawn: TaskId, turns: nat -> Turn)
    requires Inv(s) && s.tasks == map[] && spawn != id
    requires Timed(turns) && s.now <= turns(0).loop
    ensures var es := [AwaitDrain(id, LoopClock(s.now, turns(0)))]
                      + DrainEvents(id, spawn, s.breaker, |s.queue|, turns, 0);
            Runs(s, es) && DrainedTo(s, Final(s, es), DrainQueue(s.breaker, s.queue, turns, 0))
  {
    var c := LoopClock(s.now, turns(0));
    var e := AwaitDrain(id, c);
    var ready := s.(drainTask := Some(id), tasks := s.tasks[id := DrainReady]);
    var rest := DrainEvents(id, spawn, s.breaker, |s.queue|, turns, 0);
    assert Enabled(s, e) && Next(s, e) == DrainLoop(ready, id, c);
    hide Next, Enabled, DrainLoop;
    ReachesOne(s, e);
    DrainLeads(ready, id, spawn, c, turns, 0);
    ReachesBoth(s, [e], Next(s, e), rest, Final(Next(s, e), rest));
  }
}
