/** The bridge on its event loop: client calls, drain tasks and the blocking
    drain of shutdown, interleaved at their `await`s in every possible way.
    Between two awaits a task runs alone. The environment chooses which task
    runs next, how every post ends, and every reading of the clock. */
module BridgeMachine {
  import opened Breaker
  import opened Bridge
  import opened Wrappers

  type TaskId = nat

  /** Where a call is suspended: waiting for the lock the fleet patch puts around a post,
      at its post, or asleep before a retry. */
  datatype Pc = Waiting(attempt: nat) | Posting(attempt: nat) | Sleeping(attempt: nat)

  /** `save` queues when the circuit is open and starts a drain when it has
      saved; the knowledge-graph verbs only queue; reads do neither. */
  datatype ClientKind = SaveCall | KgCall | ReadCall

  datatype Task =
    | Client(kind: ClientKind, pc: Pc)
    | DrainReady
    | Draining(index: nat, entry: Entry, pc: Pc)

  /** `accepted` is every write the queue ever took, in order; the indices in
      `applied` and `dropped` point into it. A finished task is in no map. `patched` says
      whether posts go through the lock: not before the fleet patch, and never in process. */
  datatype Sys = Sys(
    now: real,
    breaker: Breaker,
    queue: seq<Entry>,
    drainTask: Option<TaskId>,
    tasks: map<TaskId, Task>,
    accepted: seq<Entry>,
    popped: nat,
    applied: seq<nat>,
    dropped: seq<nat>,
    requeued: nat,
    patched: bool,
    lock: Option<TaskId>)

  const START := Sys(0.0, INITIAL, [], None, map[], [], 0, [], [], 0, false, None)

  // ----- Segments between awaits -------------------------------------------------

  /** Reading `circuit_open` at time `t`. */
  function Look(s: Sys, t: real): (r: Sys) {
    s.(now := t, breaker := s.breaker.Read(t))
  }

  function Put(s: Sys, entry: Entry): (r: Sys) {
    if |s.queue| < WRITE_QUEUE_CAP then s.(queue := s.queue + [entry], accepted := s.accepted + [entry]) else s
  }

  predicate DrainLive(s: Sys) {
    s.drainTask.Some? && s.drainTask.value in s.tasks
  }

  /** `_maybe_start_drain`; a new task gets the id `spawn`. */
  function MaybeStartDrain(s: Sys, t: real, spawn: TaskId): (r: Sys) {
    var s1 := Look(s, t);
    if !s.breaker.Blocks(t) && s1.queue != [] && !DrainLive(s1)
    then s1.(drainTask := Some(spawn), tasks := s1.tasks[spawn := DrainReady])
    else s1
  }

  function End(s: Sys, id: TaskId): (r: Sys) {
    s.(tasks := s.tasks - {id})
  }

  predicate Waits(task: Task) {
    (task.Client? || task.Draining?) && task.pc.Waiting?
  }

  /** Nobody holds the lock and nobody is ahead in waiting for it. */
  predicate LockFree(s: Sys) {
    s.lock.None? && forall id | id in s.tasks :: !Waits(s.tasks[id])
  }

  /** `_do_mcp_post` is called: it goes on the wire at once, or waits for the lock. */
  function Send(s: Sys, id: TaskId, task: Task, attempt: nat): (r: Sys)
    requires task.Client? || task.Draining?
  {
    var onWire := !s.patched || LockFree(s);
    s.(tasks := s.tasks[id := task.(pc := if onWire then Posting(attempt) else Waiting(attempt))],
       lock := if s.patched && LockFree(s) then Some(id) else s.lock)
  }

  /** The post is over: leaving `async with` releases the lock it holds. */
  function Release(s: Sys, id: TaskId): (r: Sys) {
    s.(lock := if s.lock == Some(id) then None else s.lock)
  }

  /** The clock as the checks of one segment read it, in order. */
  datatype Clock = Clock(stamp: real, recheck: real, start: real, loop: real, save: real, call: real) {
    predicate From(now: real) {
      now <= stamp <= recheck <= start <= loop <= save <= call
    }
  }

  /** The drain loop from its `while` to the next await or to its end:
      circuit check, pop, and the replay up to its first post. */
  function DrainLoop(s: Sys, id: TaskId, c: Clock): (r: Sys) {
    if s.queue == [] then End(s, id)
    else if s.breaker.Blocks(c.loop) then End(Look(s, c.loop), id)
    else
      var s1 := Look(s, c.loop);
      var entry, index := s1.queue[0], s1.popped;
      var s2 := s1.(queue := s1.queue[1..], popped := index + 1);
      if entry.Save? && s2.breaker.Blocks(c.save) then
        End(Put(Look(s2, c.save), entry).(requeued := s2.requeued + 1), id)
      else
        var s3 := if entry.Save? then Look(s2, c.save) else s2;
        if s3.breaker.Blocks(c.call) then End(Look(s3, c.call).(dropped := s3.dropped + [index]), id)
        else Send(Look(s3, c.call), id, Draining(index, entry, Posting(0)), 0)
  }

  datatype Event =
    | Begin(id: TaskId, kind: ClientKind, entry: Entry, c: Clock)
    | PostReturns(id: TaskId, spawn: TaskId, c: Clock)
    | PostFails(id: TaskId, c: Clock)
    | PostRaisesAtOnce(id: TaskId, c: Clock)
    | Wake(id: TaskId, at: real)
    | Acquire(id: TaskId, at: real)
    | StartDrain(id: TaskId, c: Clock)
    | AwaitDrain(id: TaskId, c: Clock)
    | Kill(id: TaskId, at: real)
    | DrainBlocking(saves: seq<bool>, at: real)
    | Status(at: real)
    | Patch(at: real)

  function Reads(e: Event): (c: Clock) {
    match e
    case Wake(_, at) => Clock(at, at, at, at, at, at)
    case Acquire(_, at) => Clock(at, at, at, at, at, at)
    case Kill(_, at) => Clock(at, at, at, at, at, at)
    case DrainBlocking(_, at) => Clock(at, at, at, at, at, at)
    case Status(at) => Clock(at, at, at, at, at, at)
    case Patch(at) => Clock(at, at, at, at, at, at)
    case _ => e.c
  }

  predicate IsPosting(task: Task) {
    (task.Client? || task.Draining?) && task.pc.Posting?
  }

  predicate IsDrain(task: Task) {
    task.DrainReady? || task.Draining?
  }

  predicate Enabled(s: Sys, e: Event) {
    && Reads(e).From(s.now)
    && match e
       case Begin(id, _, _, _) => id !in s.tasks && s.drainTask != Some(id)
       case PostReturns(id, spawn, _) => id in s.tasks && IsPosting(s.tasks[id]) && spawn !in s.tasks
       case PostFails(id, _) => id in s.tasks && IsPosting(s.tasks[id])
       case PostRaisesAtOnce(id, _) => id in s.tasks && IsPosting(s.tasks[id])
       case Wake(id, _) => id in s.tasks && !s.tasks[id].DrainReady? && s.tasks[id].pc.Sleeping?
       case Acquire(id, _) => id in s.tasks && Waits(s.tasks[id]) && s.lock.None?
       case StartDrain(id, _) => id in s.tasks && s.tasks[id].DrainReady?
       // `_drain_write_queue` awaited directly, while no drain is running
       case AwaitDrain(id, _) => id !in s.tasks && !DrainLive(s)
       case Kill(id, _) => id in s.tasks
       case DrainBlocking(saves, _) => |saves| <= |s.queue|
       case Status(_) => true
       case Patch(_) => true
  }

  /** The replay of a drain task is over: `save` tries to start a drain, the
      entry is accounted for, and the loop goes on. */
  function FinishReplay(s: Sys, id: TaskId, ok: bool, spawn: TaskId, c: Clock): (r: Sys)
    requires id in s.tasks && s.tasks[id].Draining?
  {
    var index, entry := s.tasks[id].index, s.tasks[id].entry;
    var s1 := if ok && entry.Save? then MaybeStartDrain(s, c.start, spawn) else s.(now := c.start);
    var s2 := if ok then s1.(applied := s1.applied + [index]) else s1.(dropped := s1.dropped + [index]);
    DrainLoop(s2.(tasks := s2.tasks[id := DrainReady]), id, c)
  }

  /** An ordinary exception in the post of `id`. */
  function FailPost(s: Sys, id: TaskId, c: Clock): (r: Sys)
    requires id in s.tasks && IsPosting(s.tasks[id])
  {
    var task := s.tasks[id];
    var failed := s.breaker.Failed(c.stamp);
    var s1 := Release(s, id).(now := c.recheck, breaker := failed.Read(c.recheck));
    if failed.Blocks(c.recheck) || task.pc.attempt + 1 >= RETRY_ATTEMPTS then
      if task.Client? then End(s1, id) else FinishReplay(s1, id, false, id, c)
    else s1.(tasks := s1.tasks[id := task.(pc := Sleeping(task.pc.attempt))])
  }

  /** One entry of the blocking drain: written, or given up. */
  function SettleOne(s: Sys, save: bool): (r: Sys)
    requires s.queue != []
  {
    var s1 := s.(queue := s.queue[1..], popped := s.popped + 1);
    if save then s1.(applied := s1.applied + [s.popped]) else s1.(dropped := s1.dropped + [s.popped])
  }

  function Settle(s: Sys, saves: seq<bool>): (r: Sys)
    requires |saves| <= |s.queue|
    decreases |saves|
  {
    if saves == [] then s else Settle(SettleOne(s, saves[0]), saves[1..])
  }

  function Next(s: Sys, e: Event): (r: Sys)
    requires Enabled(s, e)
  {
    match e
    case Begin(id, kind, entry, c) =>
      if !kind.ReadCall? && s.breaker.Blocks(c.save) then Put(Look(s, c.save), entry)
      else
        var s1 := if kind.ReadCall? then s else Look(s, c.save);
        if s1.breaker.Blocks(c.call) then Look(s1, c.call)
        else Send(Look(s1, c.call), id, Client(kind, Posting(0)), 0)
    case PostReturns(id, spawn, c) =>
      var s1 := Release(s, id).(now := c.recheck, breaker := s.breaker.Succeeded());
      var task := s.tasks[id];
      if task.Draining? then FinishReplay(s1, id, true, spawn, c)
      else if task.kind.SaveCall? then MaybeStartDrain(End(s1, id), c.start, spawn)
      else End(s1, id)
    case PostFails(id, c) => FailPost(s, id, c)
    case PostRaisesAtOnce(id, c) =>
      var s1 := Release(s, id);
      if s.tasks[id].Draining? then FinishReplay(s1, id, false, id, c) else End(s1.(now := c.recheck), id)
    case Wake(id, at) =>
      var task := s.tasks[id];
      Send(s.(now := at), id, task, task.pc.attempt + 1)
    case Acquire(id, at) =>
      var task := s.tasks[id];
      s.(now := at, lock := Some(id), tasks := s.tasks[id := task.(pc := Posting(task.pc.attempt))])
    case StartDrain(id, c) => DrainLoop(s.(drainTask := Some(id)), id, c)
    case AwaitDrain(id, c) => DrainLoop(s.(drainTask := Some(id), tasks := s.tasks[id := DrainReady]), id, c)
    case Kill(id, at) =>
      var s1 := End(Release(s, id).(now := at), id);
      if s.tasks[id].Draining? then s1.(dropped := s1.dropped + [s.tasks[id].index]) else s1
    case DrainBlocking(saves, at) => Settle(s.(now := at), saves)
    case Status(at) => Look(s, at)
    case Patch(at) => s.(now := at, patched := true)
  }

  // ----- What every step keeps -----------------------------------------------------

  ghost predicate BreakerOk(s: Sys) {
    s.breaker.Armed() && (s.breaker.openAt.Some? ==> s.breaker.openAt.value <= s.now)
  }

  /** The queue is the accepted writes not yet popped, at most 100 of them. */
  ghost predicate QueueOk(s: Sys) {
    && |s.queue| <= WRITE_QUEUE_CAP
    && s.popped <= |s.accepted|
    && s.queue == s.accepted[s.popped..]
    && s.requeued == 0
  }

  /** The drain tasks are the one the bridge remembers, while it lives. */
  ghost predicate SingleDrain(s: Sys) {
    && (forall id | id in s.tasks && IsDrain(s.tasks[id]) :: s.drainTask == Some(id))
    && (DrainLive(s) ==> IsDrain(s.tasks[s.drainTask.value]))
  }

  ghost predicate AttemptsOk(s: Sys) {
    forall id | id in s.tasks && !s.tasks[id].DrainReady? ::
      s.tasks[id].pc.attempt < if s.tasks[id].pc.Sleeping? then RETRY_ATTEMPTS - 1 else RETRY_ATTEMPTS
  }

  ghost predicate FlightOk(s: Sys) {
    forall id | id in s.tasks && s.tasks[id].Draining? ::
      s.tasks[id].index < s.popped <= |s.accepted| && s.accepted[s.tasks[id].index] == s.tasks[id].entry
  }

  /** The lock is held by a task at its post; without the patch there is none. */
  ghost predicate LockOk(s: Sys) {
    && (s.lock.Some? ==> s.patched && s.lock.value in s.tasks && IsPosting(s.tasks[s.lock.value]))
    && (!s.patched ==> LockFree(s))
  }

  ghost predicate Inv(s: Sys) {
    BreakerOk(s) && QueueOk(s) && SingleDrain(s) && AttemptsOk(s) && FlightOk(s) && LockOk(s)
  }

  /** `task` may be what `id` does next. */
  ghost predicate Fits(s: Sys, id: TaskId, task: Task) {
    && (task.Client? || task.Draining?) && s.lock != Some(id)
    && (task.Client? <==> s.drainTask != Some(id))
    && (task.Draining? ==> task.index < s.popped <= |s.accepted| && s.accepted[task.index] == task.entry)
  }

  lemma SendKeepsLock(s: Sys, id: TaskId, task: Task, attempt: nat)
    requires LockOk(s) && Fits(s, id, task)
    ensures LockOk(Send(s, id, task, attempt))
  {
  }

  lemma SendKeeps(s: Sys, id: TaskId, task: Task, attempt: nat)
    requires Inv(s) && Fits(s, id, task) && attempt < RETRY_ATTEMPTS
    ensures Inv(Send(s, id, task, attempt))
  {
    SendKeepsLock(s, id, task, attempt);
    hide LockOk, LockFree;
  }

  lemma DrainLoopKeeps(s: Sys, id: TaskId, c: Clock)
    requires Inv(s) && id in s.tasks && s.tasks[id].DrainReady? && c.From(c.stamp) && s.now <= c.loop
    ensures Inv(DrainLoop(s, id, c))
  {
    hide Send;
    if s.queue != [] && !s.breaker.Blocks(c.loop) {
      var s1 := Look(s, c.loop);
      var entry, index := s1.queue[0], s1.popped;
      var s2 := Look(s1.(queue := s1.queue[1..], popped := index + 1), c.call);
      assert Inv(s2);
      SendKeeps(s2, id, Draining(index, entry, Posting(0)), 0);
    }
  }

  lemma MaybeStartDrainKeeps(s: Sys, t: real, spawn: TaskId)
    requires Inv(s) && spawn !in s.tasks && s.now <= t
    ensures Inv(MaybeStartDrain(s, t, spawn))
  {
  }

  lemma FinishReplayKeeps(s: Sys, id: TaskId, ok: bool, spawn: TaskId, c: Clock)
    requires Inv(s) && id in s.tasks && s.tasks[id].Draining? && (spawn !in s.tasks || !ok)
    requires c.From(c.stamp) && s.now <= c.start && s.lock != Some(id)
    ensures Inv(FinishReplay(s, id, ok, spawn, c))
  {
    var index, entry := s.tasks[id].index, s.tasks[id].entry;
    var s1 := if ok && entry.Save? then MaybeStartDrain(s, c.start, spawn) else s.(now := c.start);
    if ok && entry.Save? {
      MaybeStartDrainKeeps(s, c.start, spawn);
    }
    var s2 := if ok then s1.(applied := s1.applied + [index]) else s1.(dropped := s1.dropped + [index]);
    DrainLoopKeeps(s2.(tasks := s2.tasks[id := DrainReady]), id, c);
  }

  lemma BeginKeeps(s: Sys, id: TaskId, kind: ClientKind, entry: Entry, c: Clock)
    requires Inv(s) && Enabled(s, Begin(id, kind, entry, c))
    ensures Inv(Next(s, Begin(id, kind, entry, c)))
  {
    hide Send;
    if !kind.ReadCall? && s.breaker.Blocks(c.save) {
      PutKeeps(Look(s, c.save), entry);
    } else {
      var s1 := if kind.ReadCall? then s else Look(s, c.save);
      assert Inv(Look(s1, c.call));
      if !s1.breaker.Blocks(c.call) {
        SendKeeps(Look(s1, c.call), id, Client(kind, Posting(0)), 0);
      }
    }
  }

  lemma PutKeeps(s: Sys, entry: Entry)
    requires Inv(s)
    ensures Inv(Put(s, entry))
  {
  }

  lemma SleepKeeps(s: Sys, id: TaskId)
    requires Inv(s) && id in s.tasks && IsPosting(s.tasks[id]) && s.lock != Some(id)
    requires s.tasks[id].pc.attempt + 1 < RETRY_ATTEMPTS
    ensures Inv(s.(tasks := s.tasks[id := s.tasks[id].(pc := Sleeping(s.tasks[id].pc.attempt))]))
  {
  }

  lemma EndKeeps(s: Sys, id: TaskId)
    requires Inv(s) && s.lock != Some(id)
    ensures Inv(End(s, id))
  {
  }

  lemma FailedKeeps(s: Sys, id: TaskId, c: Clock)
    requires Inv(s) && c.From(s.now)
    ensures Inv(Release(s, id).(now := c.recheck, breaker := s.breaker.Failed(c.stamp).Read(c.recheck)))
  {
  }

  lemma PostFailsKeeps(s: Sys, id: TaskId, c: Clock)
    requires Inv(s) && Enabled(s, PostFails(id, c))
    ensures Inv(Next(s, PostFails(id, c)))
  {
    FailedKeeps(s, id, c);
    hide Inv, FinishReplay;
    var s1 := Release(s, id).(now := c.recheck, breaker := s.breaker.Failed(c.stamp).Read(c.recheck));
    if s.breaker.Failed(c.stamp).Blocks(c.recheck) || s.tasks[id].pc.attempt + 1 >= RETRY_ATTEMPTS {
      if s.tasks[id].Draining? {
        FinishReplayKeeps(s1, id, false, id, c);
      } else {
        EndKeeps(s1, id);
      }
    } else {
      SleepKeeps(s1, id);
    }
  }

  lemma PostReturnsKeeps(s: Sys, id: TaskId, spawn: TaskId, c: Clock)
    requires Inv(s) && Enabled(s, PostReturns(id, spawn, c))
    ensures Inv(Next(s, PostReturns(id, spawn, c)))
  {
    var s1 := Release(s, id).(now := c.recheck, breaker := s.breaker.Succeeded());
    assert Inv(s1);
    if s.tasks[id].Draining? {
      FinishReplayKeeps(s1, id, true, spawn, c);
    } else {
      assert Inv(End(s1, id));
      if s.tasks[id].kind.SaveCall? {
        MaybeStartDrainKeeps(End(s1, id), c.start, spawn);
      }
    }
  }

  lemma {:induction false} SettleKeeps(s: Sys, saves: seq<bool>)
    requires Inv(s) && |saves| <= |s.queue|
    ensures Inv(Settle(s, saves))
    decreases |saves|
  {
    if saves != [] {
      SettleKeeps(SettleOne(s, saves[0]), saves[1..]);
    }
  }

  lemma QuietKeeps(s: Sys, e: Event)
    requires Inv(s) && Enabled(s, e) && (e.Acquire? || e.Kill? || e.Status? || e.Patch?)
    ensures Inv(Next(s, e))
  {
  }

  lemma StepKeeps(s: Sys, e: Event)
    requires Inv(s) && Enabled(s, e)
    ensures Inv(Next(s, e))
  {
    hide FinishReplay, FailPost, DrainLoop, Send;
    match e
    case Begin(id, kind, entry, c) => BeginKeeps(s, id, kind, entry, c);
    case PostReturns(id, spawn, c) => PostReturnsKeeps(s, id, spawn, c);
    case PostFails(id, c) => PostFailsKeeps(s, id, c);
    case PostRaisesAtOnce(id, c) =>
      if s.tasks[id].Draining? {
        FinishReplayKeeps(Release(s, id), id, false, id, c);
      }
    case StartDrain(id, c) => DrainLoopKeeps(s.(drainTask := Some(id)), id, c);
    case AwaitDrain(id, c) => DrainLoopKeeps(s.(drainTask := Some(id), tasks := s.tasks[id := DrainReady]), id, c);
    case DrainBlocking(saves, at) => SettleKeeps(s.(now := at), saves);
    case Wake(id, at) => SendKeeps(s.(now := at), id, s.tasks[id], s.tasks[id].pc.attempt + 1);
    case _ => QuietKeeps(s, e);
  }

  // ----- Bookkeeping: where every accepted write is ------------------------------------

  /** The index the drain has taken off the queue and not yet finished with. */
  function Flight(s: Sys): (index: Option<nat>) {
    if DrainLive(s) && s.tasks[s.drainTask.value].Draining? then Some(s.tasks[s.drainTask.value].index) else None
  }

  function FlightCount(s: Sys): (n: nat) {
    if Flight(s).Some? then 1 else 0
  }

  /** How often index `i` is applied, dropped or in flight. */
  function Times(s: Sys, i: nat): (n: nat) {
    multiset(s.applied)[i] + multiset(s.dropped)[i] + if Flight(s) == Some(i) then 1 else 0
  }

  ghost predicate Books(s: Sys) {
    && |s.applied| + |s.dropped| + FlightCount(s) == s.popped
    && forall i: nat :: Times(s, i) == if i < s.popped then 1 else 0
  }

  /** Two states with the same books. */
  ghost predicate SameBooks(s: Sys, r: Sys) {
    s.applied == r.applied && s.dropped == r.dropped && s.popped == r.popped && Flight(s) == Flight(r)
  }

  lemma SameBooksKeep(s: Sys, r: Sys)
    requires SameBooks(s, r)
    ensures Books(s) ==> Books(r)
  {
    if Books(s) {
      forall i: nat
        ensures Times(r, i) == if i < r.popped then 1 else 0
      {
        assert Times(r, i) == Times(s, i);
      }
    }
  }

  /** The entry popped last is in flight. */
  lemma TakeBooks(s: Sys, r: Sys)
    requires Books(s) && Flight(s).None? && Flight(r) == Some(s.popped) && r.popped == s.popped + 1
    requires r.applied == s.applied && r.dropped == s.dropped
    ensures Books(r)
  {
    hide Flight;
    forall i: nat
      ensures Times(r, i) == if i < r.popped then 1 else 0
    {
      assert Times(s, i) == if i < s.popped then 1 else 0;
    }
  }

  /** With nothing in flight, the loop pops the head into flight, or stops. */
  lemma LoopTakes(s: Sys, id: TaskId, c: Clock)
    requires SingleDrain(s) && id in s.tasks && s.tasks[id].DrainReady?
    ensures var r := DrainLoop(s, id, c);
      && Flight(s).None? && r.applied == s.applied && r.dropped == s.dropped
      && (if id in r.tasks then Flight(r) == Some(s.popped) && r.popped == s.popped + 1
          else Flight(r).None? && r.popped == s.popped)
  {
    assert s.drainTask == Some(id);
    hide LockFree, SingleDrain;
  }

  lemma DrainLoopBooks(s: Sys, id: TaskId, c: Clock)
    requires Inv(s) && id in s.tasks && s.tasks[id].DrainReady?
    requires Books(s)
    ensures Books(DrainLoop(s, id, c))
  {
    LoopTakes(s, id, c);
    hide Inv, DrainLoop, Flight, Books, Times;
    if id in DrainLoop(s, id, c).tasks {
      TakeBooks(s, DrainLoop(s, id, c));
    } else {
      SameBooksKeep(s, DrainLoop(s, id, c));
    }
  }

  lemma AppendTimes(xs: seq<nat>, x: nat, i: nat)
    ensures multiset(xs + [x])[i] == multiset(xs)[i] + if i == x then 1 else 0
  {
    assert multiset(xs + [x]) == multiset(xs) + multiset{x};
  }

  /** What was in flight lands in `applied` or in `dropped`. */
  lemma LandBooks(s: Sys, r: Sys, ok: bool)
    requires Inv(s) && Books(s) && Flight(s).Some? && Flight(r) == None && r.popped == s.popped
    requires r.applied == if ok then s.applied + [Flight(s).value] else s.applied
    requires r.dropped == if ok then s.dropped else s.dropped + [Flight(s).value]
    ensures Books(r)
  {
    var index := Flight(s).value;
    assert index < s.popped;
    hide Inv;
    forall i: nat
      ensures Times(r, i) == if i < r.popped then 1 else 0
    {
      assert Times(s, i) == if i < s.popped then 1 else 0;
      AppendTimes(s.applied, index, i);
      AppendTimes(s.dropped, index, i);
    }
  }

  lemma FinishReplayBooks(s: Sys, id: TaskId, ok: bool, spawn: TaskId, c: Clock)
    requires Inv(s) && id in s.tasks && s.tasks[id].Draining? && (spawn !in s.tasks || !ok)
    requires c.From(c.stamp) && s.now <= c.start && s.lock != Some(id)
    requires Books(s)
    ensures Books(FinishReplay(s, id, ok, spawn, c))
  {
    var index, entry := s.tasks[id].index, s.tasks[id].entry;
    var s1 := if ok && entry.Save? then MaybeStartDrain(s, c.start, spawn) else s.(now := c.start);
    if ok && entry.Save? {
      MaybeStartDrainKeeps(s, c.start, spawn);
    }
    assert s.drainTask == Some(id) && s1.tasks == s.tasks;
    var s2 := if ok then s1.(applied := s1.applied + [index]) else s1.(dropped := s1.dropped + [index]);
    var s3 := s2.(tasks := s2.tasks[id := DrainReady]);
    LandBooks(s, s3, ok);
    DrainLoopBooks(s3, id, c);
  }

  lemma SettleOneKeeps(s: Sys, save: bool)
    requires Inv(s) && s.queue != []
    ensures Inv(SettleOne(s, save))
    ensures Flight(SettleOne(s, save)) == Flight(s)
  {
  }

  lemma SettleOneTimes(s: Sys, save: bool, i: nat)
    requires s.queue != [] && Flight(SettleOne(s, save)) == Flight(s)
    ensures Times(SettleOne(s, save), i) == Times(s, i) + if i == s.popped then 1 else 0
  {
    hide Flight;
    AppendTimes(s.applied, s.popped, i);
    AppendTimes(s.dropped, s.popped, i);
  }

  lemma SettleOneBooks(s: Sys, save: bool)
    requires Inv(s) && s.queue != [] && Books(s)
    ensures Inv(SettleOne(s, save)) && Books(SettleOne(s, save))
    ensures Flight(SettleOne(s, save)) == Flight(s)
  {
    SettleOneKeeps(s, save);
    hide Inv, Flight, Times;
    var r := SettleOne(s, save);
    forall i: nat
      ensures Times(r, i) == if i < r.popped then 1 else 0
    {
      assert Times(s, i) == if i < s.popped then 1 else 0;
      SettleOneTimes(s, save, i);
    }
  }

  lemma {:induction false} SettleBooks(s: Sys, saves: seq<bool>)
    requires Inv(s) && |saves| <= |s.queue| && Books(s)
    ensures Inv(Settle(s, saves)) && Books(Settle(s, saves))
    ensures Flight(Settle(s, saves)) == Flight(s)
    decreases |saves|
  {
    hide Inv, Books, Flight;
    if saves != [] {
      SettleOneBooks(s, saves[0]);
      SettleBooks(SettleOne(s, saves[0]), saves[1..]);
    }
  }

  lemma PostFailsBooks(s: Sys, id: TaskId, c: Clock)
    requires Inv(s) && Enabled(s, PostFails(id, c)) && Books(s)
    ensures Books(Next(s, PostFails(id, c)))
  {
    var s1 := Release(s, id).(now := c.recheck, breaker := s.breaker.Failed(c.stamp).Read(c.recheck));
    SameBooksKeep(s, s1);
    FailedKeeps(s, id, c);
    hide Books, Times, Inv, FinishReplay;
    if s.tasks[id].Draining? && Next(s, PostFails(id, c)) == FinishReplay(s1, id, false, id, c) {
      FinishReplayBooks(s1, id, false, id, c);
    } else {
      SameBooksKeep(s, Next(s, PostFails(id, c)));
    }
  }

  lemma PostReturnsBooks(s: Sys, id: TaskId, spawn: TaskId, c: Clock)
    requires Inv(s) && Enabled(s, PostReturns(id, spawn, c)) && Books(s)
    ensures Books(Next(s, PostReturns(id, spawn, c)))
  {
    var s1 := Release(s, id).(now := c.recheck, breaker := s.breaker.Succeeded());
    SameBooksKeep(s, s1);
    if s.tasks[id].Draining? {
      FinishReplayBooks(s1, id, true, spawn, c);
    } else {
      SameBooksKeep(s, Next(s, PostReturns(id, spawn, c)));
    }
  }

  lemma PostRaisesBooks(s: Sys, id: TaskId, c: Clock)
    requires Inv(s) && Enabled(s, PostRaisesAtOnce(id, c)) && Books(s)
    ensures Books(Next(s, PostRaisesAtOnce(id, c)))
  {
    SameBooksKeep(s, Release(s, id));
    if s.tasks[id].Draining? {
      FinishReplayBooks(Release(s, id), id, false, id, c);
    } else {
      SameBooksKeep(s, Next(s, PostRaisesAtOnce(id, c)));
    }
  }

  lemma DrainStartBooks(s: Sys, e: Event)
    requires Inv(s) && Enabled(s, e) && (e.StartDrain? || e.AwaitDrain?) && Books(s)
    ensures Books(Next(s, e))
  {
    var s1 := if e.StartDrain? then s.(drainTask := Some(e.id))
              else s.(drainTask := Some(e.id), tasks := s.tasks[e.id := DrainReady]);
    SameBooksKeep(s, s1);
    DrainLoopBooks(s1, e.id, e.c);
  }

  lemma KillBooks(s: Sys, id: TaskId, at: real)
    requires Inv(s) && Enabled(s, Kill(id, at)) && Books(s)
    ensures Books(Next(s, Kill(id, at)))
  {
    if s.tasks[id].Draining? {
      LandBooks(s, Next(s, Kill(id, at)), false);
    } else {
      SameBooksKeep(s, Next(s, Kill(id, at)));
    }
  }

  lemma SendBooks(s: Sys, id: TaskId, task: Task, attempt: nat)
    requires Fits(s, id, task) && (task.Draining? ==> id in s.tasks && s.tasks[id] == task)
    ensures SameBooks(s, Send(s, id, task, attempt))
  {
  }

  lemma WakeBooks(s: Sys, id: TaskId, at: real)
    requires Inv(s) && Enabled(s, Wake(id, at)) && Books(s)
    ensures Books(Next(s, Wake(id, at)))
  {
    SendBooks(s.(now := at), id, s.tasks[id], s.tasks[id].pc.attempt + 1);
    hide Send, Books, Times, Inv;
    SameBooksKeep(s, Next(s, Wake(id, at)));
  }

  lemma BeginBooks(s: Sys, id: TaskId, kind: ClientKind, entry: Entry, c: Clock)
    requires Inv(s) && Enabled(s, Begin(id, kind, entry, c)) && Books(s)
    ensures Books(Next(s, Begin(id, kind, entry, c)))
  {
    var s1 := if kind.ReadCall? then s else Look(s, c.save);
    SendBooks(Look(s1, c.call), id, Client(kind, Posting(0)), 0);
    hide Send, Books, Times, Inv;
    SameBooksKeep(s, Next(s, Begin(id, kind, entry, c)));
  }

  lemma QuietBooks(s: Sys, e: Event)
    requires Inv(s) && Enabled(s, e) && (e.Acquire? || e.Status? || e.Patch?) && Books(s)
    ensures Books(Next(s, e))
  {
    hide Books, Times, Inv;
    SameBooksKeep(s, Next(s, e));
  }

  lemma StepBooks(s: Sys, e: Event)
    requires Inv(s) && Enabled(s, e) && Books(s)
    ensures Books(Next(s, e))
  {
    hide Books, Inv, FinishReplay, FailPost, DrainLoop;
    match e
    case PostReturns(id, spawn, c) => PostReturnsBooks(s, id, spawn, c);
    case PostFails(id, c) => PostFailsBooks(s, id, c);
    case PostRaisesAtOnce(id, c) => PostRaisesBooks(s, id, c);
    case StartDrain(id, c) => DrainStartBooks(s, e);
    case AwaitDrain(id, c) => DrainStartBooks(s, e);
    case Kill(id, at) => KillBooks(s, id, at);
    case DrainBlocking(saves, at) =>
      ClockBooks(s, at);
      SettleBooks(s.(now := at), saves);
    case Begin(id, kind, entry, c) => BeginBooks(s, id, kind, entry, c);
    case Wake(id, at) => WakeBooks(s, id, at);
    case _ => QuietBooks(s, e);
  }

  lemma ClockBooks(s: Sys, at: real)
    requires Inv(s) && s.now <= at && Books(s)
    ensures Inv(s.(now := at)) && Books(s.(now := at)) && Flight(s.(now := at)) == Flight(s)
  {
    SameBooksKeep(s, s.(now := at));
  }

  // ----- Whole runs --------------------------------------------------------------------

  predicate Runs(s: Sys, es: seq<Event>)
    decreases |es|
  {
    es == [] || (Enabled(s, es[0]) && Runs(Next(s, es[0]), es[1..]))
  }

  function Final(s: Sys, es: seq<Event>): (r: Sys)
    requires Runs(s, es)
    decreases |es|
  {
    if es == [] then s else Final(Next(s, es[0]), es[1..])
  }

  lemma {:induction false} RunKeeps(s: Sys, es: seq<Event>)
    requires Runs(s, es) && Inv(s) && Books(s)
    ensures Inv(Final(s, es)) && Books(Final(s, es))
    decreases |es|
  {
    if es != [] {
      StepKeeps(s, es[0]);
      StepBooks(s, es[0]);
      RunKeeps(Next(s, es[0]), es[1..]);
    }
  }

  lemma StartIsSound()
    ensures Inv(START) && Books(START)
  {
    forall i: nat
      ensures Times(START, i) == 0
    {
      assert multiset(START.applied)[i] == 0;
    }
  }

  /** Queue conservation, for every run from the start: every accepted write
      is applied, dropped, in flight or still queued, and only one of these;
      the queue holds the accepted writes not yet taken off, in order, and
      never more than 100 of them; no entry taken off is ever put back. */
  lemma QueueConservation(es: seq<Event>)
    requires Runs(START, es)
    ensures var s := Final(START, es);
            && |s.accepted| == |s.applied| + |s.dropped| + FlightCount(s) + |s.queue|
            && |s.queue| <= WRITE_QUEUE_CAP
            && s.popped <= |s.accepted| && s.queue == s.accepted[s.popped..]
            && s.requeued == 0
            && (forall i: nat :: Times(s, i) == if i < s.popped then 1 else 0)
            && (forall id | id in s.tasks && s.tasks[id].Draining? ::
                  s.tasks[id].index < |s.accepted| && s.accepted[s.tasks[id].index] == s.tasks[id].entry)
  {
    StartIsSound();
    RunKeeps(START, es);
  }

  /** Single flight: in every reachable state at most one drain task is live,
      and it is the one the bridge remembers. */
  lemma SingleFlight(es: seq<Event>, a: TaskId, b: TaskId)
    requires Runs(START, es)
    requires a in Final(START, es).tasks && IsDrain(Final(START, es).tasks[a])
    requires b in Final(START, es).tasks && IsDrain(Final(START, es).tasks[b])
    ensures a == b && Final(START, es).drainTask == Some(a)
  {
    StartIsSound();
    RunKeeps(START, es);
  }

  lemma {:induction false} SettleLeavesBreaker(s: Sys, saves: seq<bool>)
    requires |saves| <= |s.queue|
    ensures Settle(s, saves).breaker == s.breaker && Settle(s, saves).now == s.now
    decreases |saves|
  {
    if saves != [] {
      SettleLeavesBreaker(SettleOne(s, saves[0]), saves[1..]);
    }
  }

  lemma {:induction false} SettleLeavesTasks(s: Sys, saves: seq<bool>)
    requires |saves| <= |s.queue|
    ensures Settle(s, saves).tasks == s.tasks
    decreases |saves|
  {
    if saves != [] {
      SettleLeavesTasks(SettleOne(s, saves[0]), saves[1..]);
    }
  }

  lemma {:induction false} RunsSnoc(s: Sys, es: seq<Event>, e: Event)
    requires Runs(s, es) && Enabled(Final(s, es), e)
    ensures Runs(s, es + [e]) && Final(s, es + [e]) == Next(Final(s, es), e)
    decreases |es|
  {
    if es == [] {
      assert [e][1..] == [] && es + [e] == [e];
    } else {
      assert (es + [e])[1..] == es[1..] + [e];
      RunsSnoc(Next(s, es[0]), es[1..], e);
    }
  }

  /** A write met by a full queue changes nothing but what reading the breaker
      does. */
  lemma RefusedWriteChangesNothing(s: Sys, id: TaskId, kind: ClientKind, entry: Entry, c: Clock)
    requires Enabled(s, Begin(id, kind, entry, c)) && !kind.ReadCall?
    requires s.breaker.Blocks(c.save) && |s.queue| >= WRITE_QUEUE_CAP
    ensures Next(s, Begin(id, kind, entry, c)) == s.(now := c.save)
  {
  }

  /** Self-starting: after a client's save has gone through, queued writes
      have a live drain task unless the circuit is open. */
  lemma SavedMeansDraining(s: Sys, id: TaskId, spawn: TaskId, c: Clock)
    requires Inv(s) && Enabled(s, PostReturns(id, spawn, c))
    requires s.tasks[id].Client? && s.tasks[id].kind.SaveCall?
    ensures var r := Next(s, PostReturns(id, spawn, c));
            r.queue == [] || r.breaker.openAt.Some? || (DrainLive(r) && IsDrain(r.tasks[r.drainTask.value]))
  {
  }
}
