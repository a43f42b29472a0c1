/** `packages/tapps-core/src/tapps_core/brain_bridge_fleet_rpc.py`: the patch
    that serialises posts on one session, and every interleaving of patch
    applications, flag resets, calls, lock hand-overs, replies and cancels. */
module FleetRpc {
  type TaskId = nat
  type BridgeId = nat

  /** A class attribute: the stock method, or a wrapper of this module's,
      which carries the marker, around another. */
  datatype Method = Stock | Fleet(inner: Method) {
    function Depth(): (n: nat) {
      if Stock? then 0 else 1 + inner.Depth()
    }
  }

  /** The patched class and the module global `_PATCHED`. */
  datatype Class = Class(post: Method, health: Method, patched: bool)

  const UNPATCHED := Class(Stock, Stock, false)

  /** `apply_http_fleet_rpc_patches`. */
  function ApplyPatches(c: Class): (r: Class) {
    if c.patched then c
    else if c.post.Fleet? || c.health.Fleet? then c.(patched := true)
    else Class(Fleet(c.post), Fleet(c.health), true)
  }

  function ApplyWithoutMarker(c: Class): (r: Class) {
    if c.patched then c else Class(Fleet(c.post), Fleet(c.health), true)
  }

  /** `left` wrappers still have to be entered, each taking the bridge's lock;
      once none is left the request is on the wire. Every request carries the
      same id, so all that ties a reply to a caller is which request of the
      bridge the transport believes it answers. */
  datatype Stage = Waiting(left: nat, held: bool) | Posting(held: bool, request: TaskId)

  datatype Task = Task(bridge: BridgeId, stage: Stage)

  /** `delivered` records which request's reply each caller got. */
  datatype Sys = Sys(
    class_: Class,
    tasks: map<TaskId, Task>,
    locks: map<BridgeId, TaskId>,
    delivered: seq<(TaskId, TaskId)>)

  const START := Sys(UNPATCHED, map[], map[], [])

  datatype Event =
    | Apply
    | ResetFlag
    | Call(task: TaskId, bridge: BridgeId)
    | Acquire(task: TaskId)
    | Swap(task: TaskId, other: TaskId)
    | Reply(task: TaskId)
    | Cancel(task: TaskId)

  predicate IsPosting(s: Sys, t: TaskId) {
    t in s.tasks && s.tasks[t].stage.Posting?
  }

  predicate Enabled(s: Sys, e: Event) {
    match e
    case Apply => true
    case ResetFlag => true
    case Call(t, _) => t !in s.tasks
    case Acquire(t) => t in s.tasks && s.tasks[t].stage.Waiting? && s.tasks[t].stage.left > 0
        && s.tasks[t].bridge !in s.locks
    // JSON-RPC 2.0, section 5: a reply is matched to its request by id alone
    case Swap(t, u) => t != u && IsPosting(s, t) && IsPosting(s, u) && s.tasks[t].bridge == s.tasks[u].bridge
    case Reply(t) => IsPosting(s, t)
    case Cancel(t) => t in s.tasks
  }

  function Enter(t: TaskId, left: nat, held: bool): (stage: Stage) {
    if left == 0 then Posting(held, t) else Waiting(left, held)
  }

  /** The task is over; leaving `async with` releases the lock it holds. */
  function Leave(s: Sys, t: TaskId): (r: Sys)
    requires t in s.tasks
  {
    var b := s.tasks[t].bridge;
    s.(tasks := s.tasks - {t}, locks := if b in s.locks && s.locks[b] == t then s.locks - {b} else s.locks)
  }

  function Next(s: Sys, e: Event): (r: Sys)
    requires Enabled(s, e)
  {
    match e
    case Apply => s.(class_ := ApplyPatches(s.class_))
    case ResetFlag => s.(class_ := s.class_.(patched := false))
    case Call(t, b) => s.(tasks := s.tasks[t := Task(b, Enter(t, s.class_.post.Depth(), false))])
    case Acquire(t) =>
      var task := s.tasks[t];
      s.(tasks := s.tasks[t := task.(stage := Enter(t, task.stage.left - 1, true))], locks := s.locks[task.bridge := t])
    case Swap(t, u) =>
      var a, b := s.tasks[t], s.tasks[u];
      s.(tasks := s.tasks[t := a.(stage := a.stage.(request := b.stage.request))]
                         [u := b.(stage := b.stage.(request := a.stage.request))])
    case Reply(t) => Leave(s, t).(delivered := s.delivered + [(t, s.tasks[t].stage.request)])
    case Cancel(t) => Leave(s, t)
  }

  predicate Runs(s: Sys, es: seq<Event>)
    decreases |es|
  {
    es == [] || (Enabled(s, es[0]) && Runs(Next(s, es[0]), es[1..]))
  }

  function Final(s: Sys, es: seq<Event>): (r: Sys)
    requires Runs(s, es)
    decreases |es|
  {
    if es == [] then s else Final(Next(s, es[0]), es[1..])
  }

  // ----- Any history ---------------------------------------------------------------

  /** Wrapped at most once, the lock only ever held by a task at its post, and on the
      stock class neither a flag nor a call that has taken the lock. */
  ghost predicate Inv(s: Sys) {
    && s.class_.post.Depth() <= 1 && s.class_.health.Depth() <= 1
    && (s.class_.post.Stock? ==>
          && !s.class_.patched && s.class_.health.Stock?
          && forall t | t in s.tasks :: s.tasks[t].stage.Posting? && !s.tasks[t].stage.held)
    && (forall b | b in s.locks ::
          s.locks[b] in s.tasks && s.tasks[s.locks[b]].bridge == b
          && s.tasks[s.locks[b]].stage.Posting? && s.tasks[s.locks[b]].stage.held)
    && (forall t | t in s.tasks ::
          match s.tasks[t].stage
          case Waiting(left, held) => left == 1 && !held
          case Posting(held, _) => held ==> s.tasks[t].bridge in s.locks && s.locks[s.tasks[t].bridge] == t)
  }

  lemma StepKeeps(s: Sys, e: Event)
    requires Inv(s) && Enabled(s, e)
    ensures Inv(Next(s, e))
  {
  }

  lemma {:induction false} RunKeeps(s: Sys, es: seq<Event>)
    requires Inv(s) && Runs(s, es)
    ensures Inv(Final(s, es))
    decreases |es|
  {
    if es != [] {
      StepKeeps(s, es[0]);
      RunKeeps(Next(s, es[0]), es[1..]);
    }
  }

  /** For every history of applications and flag resets, before, between and
      after calls, each method is wrapped at most once. */
  lemma WrappedAtMostOnce(es: seq<Event>)
    requires Runs(START, es)
    ensures Final(START, es).class_.post in {Stock, Fleet(Stock)}
    ensures Final(START, es).class_.health in {Stock, Fleet(Stock)}
  {
    RunKeeps(START, es);
    ShallowMethod(Final(START, es).class_.post);
    ShallowMethod(Final(START, es).class_.health);
  }

  /** The class after a history in which the patches were applied, or were not. */
  ghost predicate WrappedAs(c: Class, applied: bool) {
    if applied then c.post == Fleet(Stock) && c.health == Fleet(Stock) else c == UNPATCHED
  }

  lemma {:induction false} WrappedFrom(s: Sys, es: seq<Event>, applied: bool)
    requires WrappedAs(s.class_, applied) && Runs(s, es)
    ensures WrappedAs(Final(s, es).class_, applied || Apply in es)
    decreases |es|
  {
    if es != [] {
      assert Apply in es <==> es[0] == Apply || Apply in es[1..];
      WrappedFrom(Next(s, es[0]), es[1..], applied || es[0] == Apply);
    }
  }

  /** From the first application on both methods are wrapped, each once; before it neither
      is, whatever resets the flag. */
  lemma BothWrappedOnceApplied(es: seq<Event>)
    requires Runs(START, es)
    ensures var c, wanted := Final(START, es).class_, if Apply in es then Fleet(Stock) else Stock;
      c.post == wanted && c.health == wanted && (c.patched <==> Flagged(es))
  {
    WrappedFrom(START, es, false);
    FlagFollows(START, es);
  }

  /** The patches were applied, and the flag not reset since. */
  ghost predicate Flagged(es: seq<Event>) {
    exists i | 0 <= i < |es| :: es[i] == Apply && forall j | i < j < |es| :: es[j] != ResetFlag
  }

  lemma {:induction false} FlagFollows(s: Sys, es: seq<Event>)
    requires Runs(s, es)
    ensures Final(s, es).class_.patched <==> Flagged(es) || (s.class_.patched && ResetFlag !in es)
    decreases |es|
  {
    if es != [] {
      var rest := es[1..];
      FlagFollows(Next(s, es[0]), rest);
      assert ResetFlag in es <==> es[0] == ResetFlag || ResetFlag in rest;
      if i :| 0 <= i < |rest| && rest[i] == Apply && forall j | i < j < |rest| :: rest[j] != ResetFlag {
        assert forall j | i + 1 < j < |es| :: es[j] == rest[j - 1];
        assert es[i + 1] == Apply;
      }
      if i :| 0 <= i < |es| && es[i] == Apply && forall j | i < j < |es| :: es[j] != ResetFlag {
        assert forall j | i - 1 < j < |rest| && j >= 0 :: rest[j] == es[j + 1];
        assert i > 0 ==> rest[i - 1] == Apply;
      }
      if es[0] == Apply && ResetFlag !in rest {
        assert forall j | 0 < j < |es| :: es[j] == rest[j - 1] && rest[j - 1] in rest;
        assert es[0] == Apply && forall j | 0 < j < |es| :: es[j] != ResetFlag;
      }
    }
  }

  lemma ShallowMethod(m: Method)
    requires m.Depth() <= 1
    ensures m == Stock || m == Fleet(Stock)
  {
    if m.Fleet? {
      assert m.inner.Depth() == 0;
    }
  }

  /** A task can go on without a cancel or another application. */
  predicate Moves(s: Sys, t: TaskId) {
    Enabled(s, Acquire(t)) || Enabled(s, Reply(t))
  }

  /** No reachable state is deadlocked: every waiting call can take its lock,
      or waits for one whose holder can get its reply. */
  lemma NoDeadlock(es: seq<Event>, t: TaskId)
    requires Runs(START, es) && t in Final(START, es).tasks
    ensures var s := Final(START, es);
            var b := s.tasks[t].bridge;
            Moves(s, t) || (b in s.locks && s.locks[b] != t && Enabled(s, Reply(s.locks[b])))
  {
    RunKeeps(START, es);
  }

  /** Why the marker is checked: with the flag alone, one reset wraps twice. */
  lemma FlagAloneWrapsTwice()
    ensures ApplyWithoutMarker(ApplyWithoutMarker(UNPATCHED).(patched := false)).post.Depth() == 2
  {
  }

  /** The task holds its bridge's lock and waits for that same lock. */
  predicate SelfBlocked(s: Sys, t: TaskId) {
    && t in s.tasks && s.tasks[t].stage.Waiting? && s.tasks[t].stage.left > 0
    && s.tasks[t].bridge in s.locks && s.locks[s.tasks[t].bridge] == t
  }

  /** A call of a twice-wrapped method blocks itself by taking its lock. */
  lemma TwiceWrappedCallBlocks(s: Sys, t: TaskId, b: BridgeId)
    requires s.class_.post.Depth() >= 2 && t !in s.tasks && b !in s.locks
    ensures var called := Next(s, Call(t, b));
            Enabled(called, Acquire(t)) && SelfBlocked(Next(called, Acquire(t)), t)
  {
  }

  /** And then nothing that happens to the other calls or to the class ever
      lets it go on, short of cancelling it. */
  lemma {:induction false} SelfBlockedForEver(s: Sys, es: seq<Event>, t: TaskId)
    requires SelfBlocked(s, t) && Runs(s, es) && Cancel(t) !in es
    ensures SelfBlocked(Final(s, es), t) && !Moves(Final(s, es), t)
    decreases |es|
  {
    if es != [] {
      assert es[0] in es && es[0] != Cancel(t);
      assert forall e | e in es[1..] :: e in es;
      SelfBlockedForEver(Next(s, es[0]), es[1..], t);
    }
  }

  // ----- When posts are serial ----------------------------------------------------------

  /** The class is patched, and every outstanding post went through the lock and is
      still tied to its own request. */
  ghost predicate Guarded(s: Sys) {
    && s.class_.post.Fleet?
    && forall t | IsPosting(s, t) :: s.tasks[t].stage.held && s.tasks[t].stage.request == t
  }

  predicate OnePost(s: Sys) {
    forall t, u | t in s.tasks && u in s.tasks && IsPosting(s, t) && IsPosting(s, u)
        && s.tasks[t].bridge == s.tasks[u].bridge :: t == u
  }

  /** Every reply delivered from the `n`-th on was to the caller's own request. */
  predicate OwnReplies(s: Sys, n: nat) {
    forall i | n <= i < |s.delivered| :: s.delivered[i].0 == s.delivered[i].1
  }

  /** However the system goes on from `s`: one post per bridge, and own replies. */
  ghost predicate StaysSerial(s: Sys) {
    forall es | Runs(s, es) :: OnePost(Final(s, es)) && OwnReplies(Final(s, es), |s.delivered|)
  }

  lemma GuardedIsSerial(s: Sys)
    requires Inv(s) && Guarded(s)
    ensures OnePost(s)
  {
  }

  lemma GuardedStep(s: Sys, e: Event, n: nat)
    requires Inv(s) && Guarded(s) && OwnReplies(s, n) && Enabled(s, e)
    ensures Guarded(Next(s, e)) && OwnReplies(Next(s, e), n)
  {
    GuardedIsSerial(s);
  }

  lemma {:induction false} GuardedRun(s: Sys, es: seq<Event>, n: nat)
    requires Inv(s) && Guarded(s) && OwnReplies(s, n) && Runs(s, es)
    ensures Guarded(Final(s, es)) && OnePost(Final(s, es)) && OwnReplies(Final(s, es), n)
    decreases |es|
  {
    if es == [] {
      GuardedIsSerial(s);
    } else {
      StepKeeps(s, es[0]);
      GuardedStep(s, es[0], n);
      GuardedRun(Next(s, es[0]), es[1..], n);
    }
  }

  /** Some task id is new, whatever ids are in use. */
  lemma {:induction false} NewTask(used: set<TaskId>) returns (t: TaskId)
    ensures forall u | u in used :: u < t
    decreases |used|
  {
    if used == {} {
      t := 0;
    } else {
      var u :| u in used;
      var rest := NewTask(used - {u});
      assert forall v | v in used :: v == u || v in used - {u};
      t := if u < rest then rest else u + 1;
    }
  }

  lemma RunsOne(s: Sys, e: Event)
    requires Enabled(s, e)
    ensures Runs(s, [e]) && Final(s, [e]) == Next(s, e)
  {
    assert [e][1..] == [];
  }

  lemma RunsTwo(s: Sys, e: Event, f: Event)
    requires Enabled(s, e) && Enabled(Next(s, e), f)
    ensures Runs(s, [e, f]) && Final(s, [e, f]) == Next(Next(s, e), f)
  {
    assert [e, f][1..] == [f];
    RunsOne(Next(s, e), f);
  }

  /** On the stock class two new calls are two outstanding posts. */
  lemma StockGoesWrong(s: Sys)
    requires s.class_.post.Stock?
    ensures !StaysSerial(s)
  {
    var t := NewTask(s.tasks.Keys);
    RunsTwo(s, Call(t, 0), Call(t + 1, 0));
    var r := Final(s, [Call(t, 0), Call(t + 1, 0)]);
    assert IsPosting(r, t) && IsPosting(r, t + 1);
  }

  /** On a patched class a post outside the lock leaves the lock free for another. */
  lemma UnlockedPostGoesWrong(s: Sys, t: TaskId)
    requires Inv(s) && s.class_.post.Fleet? && IsPosting(s, t) && !s.tasks[t].stage.held
    ensures !StaysSerial(s)
  {
    var b := s.tasks[t].bridge;
    if b in s.locks {
      assert Runs(s, []) && Final(s, []) == s;
      assert IsPosting(s, s.locks[b]);
    } else {
      var u := NewTask(s.tasks.Keys);
      assert s.class_.post.Depth() == 1;
      RunsTwo(s, Call(u, b), Acquire(u));
      var r := Final(s, [Call(u, b), Acquire(u)]);
      assert IsPosting(r, t) && IsPosting(r, u) && r.tasks[t].bridge == r.tasks[u].bridge;
    }
  }

  /** A post already tied to another request is answered with that one's reply. */
  lemma SwappedPostGoesWrong(s: Sys, t: TaskId)
    requires IsPosting(s, t) && s.tasks[t].stage.request != t
    ensures !StaysSerial(s)
  {
    RunsOne(s, Reply(t));
    var r := Final(s, [Reply(t)]);
    assert r.delivered[|s.delivered|] == (t, s.tasks[t].stage.request);
  }

  /** Serial posts, exactly: from a reachable state on, every interleaving keeps at most
      one post per bridge outstanding and gives every caller the reply to its own request
      if and only if the class is patched and every outstanding post holds its lock and is
      tied to its own request. */
  lemma PostsAreSerialIff(before: seq<Event>)
    requires Runs(START, before)
    ensures StaysSerial(Final(START, before)) <==> Guarded(Final(START, before))
  {
    RunKeeps(START, before);
    var s := Final(START, before);
    if Guarded(s) {
      forall es | Runs(s, es) ensures OnePost(Final(s, es)) && OwnReplies(Final(s, es), |s.delivered|) {
        GuardedRun(s, es, |s.delivered|);
      }
    } else if s.class_.post.Stock? {
      StockGoesWrong(s);
    } else {
      var t :| IsPosting(s, t) && !(s.tasks[t].stage.held && s.tasks[t].stage.request == t);
      if s.tasks[t].stage.held {
        SwappedPostGoesWrong(s, t);
      } else {
        UnlockedPostGoesWrong(s, t);
      }
    }
  }

  /** What that asks of whoever applies the patch: the application that wraps the method
      makes posts serial from there on if and only if no call is outstanding. */
  lemma PatchingSerialisesIff(before: seq<Event>)
    requires Runs(START, before) && Final(START, before).class_.post.Stock?
    ensures Runs(START, before + [Apply])
    ensures StaysSerial(Final(START, before + [Apply])) <==> Final(START, before).tasks == map[]
  {
    RunKeeps(START, before);
    var s := Final(START, before);
    RunsOn(START, before, [Apply]);
    RunsOne(s, Apply);
    PostsAreSerialIff(before + [Apply]);
    if s.tasks != map[] {
      var t :| t in s.tasks;
      assert IsPosting(Next(s, Apply), t);
    }
  }

  lemma {:induction false} RunsOn(s: Sys, es: seq<Event>, more: seq<Event>)
    requires Runs(s, es)
    ensures Runs(s, es + more) <==> Runs(Final(s, es), more)
    ensures Runs(s, es + more) ==> Final(s, es + more) == Final(Final(s, es), more)
    decreases |es|
  {
    if es == [] {
      assert es + more == more;
    } else {
      assert (es + more)[1..] == es[1..] + more;
      RunsOn(Next(s, es[0]), es[1..], more);
    }
  }

  /** On an unpatched class two calls can be outstanding on one bridge, and
      one of them can be handed the other's reply. */
  lemma UnpatchedCallsSwap(s: Sys, t: TaskId, u: TaskId, b: BridgeId)
    requires s.class_.post.Stock? && t != u && t !in s.tasks && u !in s.tasks
    ensures var both := Next(Next(s, Call(t, b)), Call(u, b));
            && Enabled(both, Swap(t, u))
            && Enabled(Next(both, Swap(t, u)), Reply(t))
            && Next(Next(both, Swap(t, u)), Reply(t)).delivered == s.delivered + [(t, u)]
  {
  }
}
