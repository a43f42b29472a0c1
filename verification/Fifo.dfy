/** The order in which queued writes are applied, over every run of `BridgeMachine`:
    the order of acceptance, unless the shutdown drain saves a later write while a
    replay that itself goes through is in flight. */
module Fifo {
  import opened BridgeMachine
  import opened Wrappers

  ghost predicate Increasing(xs: seq<nat>) {
    forall i, j | 0 <= i < j < |xs| :: xs[i] < xs[j]
  }

  // ----- What a step applies --------------------------------------------------------

  /** The indices a blocking drain saves, from `from` on. */
  function Saved(from: nat, saves: seq<bool>): (indices: seq<nat>)
    decreases |saves|
  {
    if saves == [] then [] else (if saves[0] then [from] else []) + Saved(from + 1, saves[1..])
  }

  predicate SavesSome(e: Event) {
    e.DrainBlocking? && exists i | 0 <= i < |e.saves| :: e.saves[i]
  }

  /** The index of the replay whose post returns. */
  function Lands(s: Sys, e: Event): (index: Option<nat>)
    requires Enabled(s, e)
  {
    if e.PostReturns? && s.tasks[e.id].Draining? then Some(s.tasks[e.id].index) else None
  }

  function Applies(s: Sys, e: Event): (indices: seq<nat>)
    requires Enabled(s, e)
  {
    if Lands(s, e).Some? then [Lands(s, e).value] else if e.DrainBlocking? then Saved(s.popped, e.saves) else []
  }

  lemma {:induction false} SavedOrder(from: nat, saves: seq<bool>)
    ensures Increasing(Saved(from, saves))
    ensures forall x | x in Saved(from, saves) :: from <= x
    decreases |saves|
  {
    if saves != [] {
      SavedOrder(from + 1, saves[1..]);
      var rest := Saved(from + 1, saves[1..]);
      assert forall i | 0 <= i < |rest| :: rest[i] in rest;
    }
  }

  lemma {:induction false} SavedIff(from: nat, saves: seq<bool>)
    ensures Saved(from, saves) != [] <==> exists i | 0 <= i < |saves| :: saves[i]
    decreases |saves|
  {
    if saves != [] {
      SavedIff(from + 1, saves[1..]);
      if i :| 0 <= i < |saves| && saves[i] {
        assert i > 0 ==> saves[1..][i - 1];
      }
    }
  }

  lemma SettleOneApplies(s: Sys, save: bool)
    requires s.queue != []
    ensures SettleOne(s, save).applied == s.applied + if save then [s.popped] else []
    ensures SettleOne(s, save).popped == s.popped + 1 && Flight(SettleOne(s, save)) == Flight(s)
  {
  }

  lemma {:induction false} SettleApplies(s: Sys, saves: seq<bool>)
    requires |saves| <= |s.queue|
    ensures Settle(s, saves).applied == s.applied + Saved(s.popped, saves)
    ensures Settle(s, saves).popped == s.popped + |saves| && Flight(Settle(s, saves)) == Flight(s)
    decreases |saves|
  {
    if saves == [] {
      assert s.applied + [] == s.applied;
    } else {
      SettleOneApplies(s, saves[0]);
      hide Flight;
      SettleApplies(SettleOne(s, saves[0]), saves[1..]);
      var head: seq<nat> := if saves[0] then [s.popped] else [];
      assert (s.applied + head) + Saved(s.popped + 1, saves[1..]) == s.applied + Saved(s.popped, saves);
    }
  }

  /** The drain loop applies nothing, and takes the next entry into flight or ends. */
  lemma LoopApplies(s: Sys, id: TaskId, c: Clock)
    requires Inv(s) && id in s.tasks && s.tasks[id].DrainReady?
    ensures var r := DrainLoop(s, id, c);
      r.applied == s.applied && s.popped <= r.popped && (Flight(r).None? || Flight(r) == Some(s.popped))
  {
    LoopTakes(s, id, c);
    hide DrainLoop, Inv, Flight;
  }

  lemma ReplayApplies(s: Sys, id: TaskId, ok: bool, spawn: TaskId, c: Clock)
    requires Inv(s) && id in s.tasks && s.tasks[id].Draining? && (spawn !in s.tasks || !ok)
    requires c.From(c.stamp) && s.now <= c.start && s.lock != Some(id)
    ensures var r := FinishReplay(s, id, ok, spawn, c);
      && r.applied == s.applied + (if ok then [s.tasks[id].index] else [])
      && s.popped <= r.popped && (Flight(r).None? || Flight(r) == Some(s.popped))
  {
    var index, entry := s.tasks[id].index, s.tasks[id].entry;
    var s1 := if ok && entry.Save? then MaybeStartDrain(s, c.start, spawn) else s.(now := c.start);
    if ok && entry.Save? {
      MaybeStartDrainKeeps(s, c.start, spawn);
    }
    var s2 := if ok then s1.(applied := s1.applied + [index]) else s1.(dropped := s1.dropped + [index]);
    var s3 := s2.(tasks := s2.tasks[id := DrainReady]);
    assert Inv(s3);
    LoopApplies(s3, id, c);
  }

  /** What one step does to the applied indices and to the flight. */
  ghost predicate StepsTo(s: Sys, e: Event, r: Sys)
    requires Enabled(s, e)
  {
    && r.applied == s.applied + Applies(s, e)
    && s.popped <= r.popped
    && (Lands(s, e).Some? ==> Flight(s) == Lands(s, e) && Flight(r) != Flight(s))
    && (e.DrainBlocking? ==> Flight(r) == Flight(s))
    && (Flight(r) == Flight(s) || Flight(r).None? || Flight(r) == Some(s.popped))
  }

  lemma FailApplies(s: Sys, e: Event)
    requires Inv(s) && Enabled(s, e) && (e.PostFails? || e.PostRaisesAtOnce?)
    ensures StepsTo(s, e, Next(s, e))
  {
    hide FinishReplay;
    var s0 := Release(s, e.id);
    var s1 := if e.PostFails? then s0.(now := e.c.recheck, breaker := s.breaker.Failed(e.c.stamp).Read(e.c.recheck))
              else s0;
    assert Inv(s1);
    if s.tasks[e.id].Draining? {
      assert s1.lock != Some(e.id) && s1.now <= e.c.start;
      hide Inv;
      ReplayApplies(s1, e.id, false, e.id, e.c);
    }
  }

  lemma ReturnApplies(s: Sys, e: Event)
    requires Inv(s) && Enabled(s, e) && e.PostReturns?
    ensures StepsTo(s, e, Next(s, e))
  {
    hide FinishReplay;
    var s1 := Release(s, e.id).(now := e.c.recheck, breaker := s.breaker.Succeeded());
    assert Inv(s1);
    if s.tasks[e.id].Draining? {
      ReplayApplies(s1, e.id, true, e.spawn, e.c);
      assert Flight(s).value < s.popped;
    }
  }

  lemma StartApplies(s: Sys, e: Event)
    requires Inv(s) && Enabled(s, e) && (e.StartDrain? || e.AwaitDrain?)
    ensures StepsTo(s, e, Next(s, e))
  {
    var s1 := if e.StartDrain? then s.(drainTask := Some(e.id))
              else s.(drainTask := Some(e.id), tasks := s.tasks[e.id := DrainReady]);
    LoopApplies(s1, e.id, e.c);
  }

  lemma StepApplies(s: Sys, e: Event)
    requires Inv(s) && Enabled(s, e)
    ensures StepsTo(s, e, Next(s, e))
  {
    hide FinishReplay, FailPost, DrainLoop;
    match e
    case PostReturns(_, _, _) => ReturnApplies(s, e);
    case PostFails(_, _) => FailApplies(s, e);
    case PostRaisesAtOnce(_, _) => FailApplies(s, e);
    case StartDrain(_, _) => StartApplies(s, e);
    case AwaitDrain(_, _) => StartApplies(s, e);
    case DrainBlocking(saves, at) => SettleApplies(s.(now := at), saves);
    case _ => assert s.applied + [] == s.applied;
  }

  // ----- Runs, step by step ------------------------------------------------------------

  /** The state after the first `k` events. */
  function At(s: Sys, es: seq<Event>, k: nat): (r: Sys)
    requires Runs(s, es) && k <= |es|
    decreases k
  {
    if k == 0 then s else At(Next(s, es[0]), es[1..], k - 1)
  }

  lemma {:induction false} AtStep(s: Sys, es: seq<Event>, k: nat)
    requires Runs(s, es) && k < |es|
    ensures Enabled(At(s, es, k), es[k]) && At(s, es, k + 1) == Next(At(s, es, k), es[k])
    decreases k
  {
    hide Next;
    if k > 0 {
      AtStep(Next(s, es[0]), es[1..], k - 1);
    }
  }

  lemma {:induction false} AtEnd(s: Sys, es: seq<Event>)
    requires Runs(s, es)
    ensures At(s, es, |es|) == Final(s, es)
    decreases |es|
  {
    hide Next;
    if es != [] {
      AtEnd(Next(s, es[0]), es[1..]);
    }
  }

  lemma {:induction false} AtSound(s: Sys, es: seq<Event>, k: nat)
    requires Runs(s, es) && k <= |es| && Inv(s) && Books(s)
    ensures Inv(At(s, es, k)) && Books(At(s, es, k))
    decreases k
  {
    hide Next, Inv, Books;
    if k > 0 {
      StepKeeps(s, es[0]);
      StepBooks(s, es[0]);
      AtSound(Next(s, es[0]), es[1..], k - 1);
    }
  }

  lemma {:induction false} PoppedGrows(es: seq<Event>, k: nat, n: nat)
    requires Runs(START, es) && k <= n <= |es|
    ensures At(START, es, k).popped <= At(START, es, n).popped
    decreases n - k
  {
    hide Next, Inv, Books, At;
    if k < n {
      StartIsSound();
      AtSound(START, es, k);
      AtStep(START, es, k);
      StepApplies(At(START, es, k), es[k]);
      PoppedGrows(es, k + 1, n);
    }
  }

  // ----- Order, exactly --------------------------------------------------------------------

  /** Event `k` is a shutdown drain that saves a write while `x` is in flight. */
  ghost predicate SavesOver(es: seq<Event>, k: nat, x: nat)
    requires Runs(START, es)
  {
    k < |es| && SavesSome(es[k]) && Flight(At(START, es, k)) == Some(x)
  }

  /** Event `j` lands a replay in `applied`. */
  ghost predicate LandsAt(es: seq<Event>, j: nat, x: nat)
    requires Runs(START, es)
  {
    j < |es| && Enabled(At(START, es, j), es[j]) && Lands(At(START, es, j), es[j]) == Some(x)
  }

  /** A replay landed before event `n` that a saved write had overtaken in flight. */
  ghost predicate Overtaken(es: seq<Event>, n: nat)
    requires Runs(START, es)
  {
    exists k: nat, j: nat, x: nat :: k < j < n && SavesOver(es, k, x) && LandsAt(es, j, x)
  }

  /** Some applied index is above `x`. */
  ghost predicate Above(xs: seq<nat>, x: nat) {
    exists i | 0 <= i < |xs| :: xs[i] > x
  }

  lemma AppendOrder(xs: seq<nat>, ys: seq<nat>)
    requires Increasing(ys)
    ensures Increasing(xs + ys) <==> Increasing(xs) && forall i, j | 0 <= i < |xs| && 0 <= j < |ys| :: xs[i] < ys[j]
  {
    var zs := xs + ys;
    if Increasing(zs) {
      assert forall i | 0 <= i < |xs| :: zs[i] == xs[i];
      forall i, j | 0 <= i < |xs| && 0 <= j < |ys| ensures xs[i] < ys[j] {
        assert zs[|xs| + j] == ys[j];
      }
    }
  }

  /** Applied indices have been popped, and are not in flight. */
  lemma AppliedBelow(s: Sys)
    requires Books(s)
    ensures forall i | 0 <= i < |s.applied| :: s.applied[i] < s.popped && Flight(s) != Some(s.applied[i])
  {
    forall i | 0 <= i < |s.applied| ensures s.applied[i] < s.popped && Flight(s) != Some(s.applied[i]) {
      var x := s.applied[i];
      assert x in multiset(s.applied);
      assert Times(s, x) == if x < s.popped then 1 else 0;
    }
  }

  lemma AboveAppend(xs: seq<nat>, ys: seq<nat>, x: nat)
    ensures Above(xs + ys, x) <==> Above(xs, x) || Above(ys, x)
  {
    var zs := xs + ys;
    assert forall i | 0 <= i < |xs| :: zs[i] == xs[i];
    assert forall i | 0 <= i < |ys| :: zs[|xs| + i] == ys[i];
  }

  /** What a step applies besides a landing replay is above all that was applied. */
  lemma AppliesAbove(s: Sys, e: Event)
    requires Enabled(s, e)
    ensures Increasing(Applies(s, e))
    ensures Lands(s, e).None? ==> forall j | 0 <= j < |Applies(s, e)| :: s.popped <= Applies(s, e)[j]
    ensures Lands(s, e).None? ==> (Applies(s, e) != [] <==> SavesSome(e))
  {
    hide Next;
    if e.DrainBlocking? {
      SavedOrder(s.popped, e.saves);
      SavedIff(s.popped, e.saves);
      var ys := Saved(s.popped, e.saves);
      assert forall j | 0 <= j < |ys| :: ys[j] in ys;
    }
  }

  /** One step keeps the order unless it lands a replay below an applied index. */
  lemma StepOrder(s: Sys, e: Event)
    requires Inv(s) && Books(s) && Enabled(s, e)
    ensures Increasing(Next(s, e).applied) <==>
              Increasing(s.applied) && !(Lands(s, e).Some? && Above(s.applied, Lands(s, e).value))
  {
    StepApplies(s, e);
    AppliedBelow(s);
    AppliesAbove(s, e);
    hide Next, Inv, Books, Enabled, Flight, Saved, SavesSome, Increasing;
    AppendOrder(s.applied, Applies(s, e));
    if Lands(s, e).Some? {
      var x := Lands(s, e).value;
      assert Applies(s, e) == [x];
      assert (forall i, j | 0 <= i < |s.applied| && 0 <= j < |[x]| :: s.applied[i] < [x][j]) <==>
          !Above(s.applied, x) by {
        assert [x][0] == x;
        assert forall i | 0 <= i < |s.applied| :: s.applied[i] != x;
      }
    }
  }

  /** An index above the flight is applied during it by a shutdown drain only. */
  lemma StepAbove(s: Sys, e: Event, x: nat)
    requires Inv(s) && Books(s) && Enabled(s, e) && Flight(Next(s, e)) == Some(x)
    ensures Flight(s) == Some(x) ==> (Above(Next(s, e).applied, x) <==> Above(s.applied, x) || SavesSome(e))
    ensures Flight(s) != Some(x) ==> x == s.popped && !Above(Next(s, e).applied, x)
  {
    StepApplies(s, e);
    AppliedBelow(s);
    AppliesAbove(s, e);
    FlightIsPopped(s);
    hide Next, Inv, Books, Enabled, Flight, Saved, SavesSome, Increasing;
    var ys := Applies(s, e);
    AboveAppend(s.applied, ys, x);
    if Flight(s) == Some(x) {
      assert Lands(s, e).None?;
      if ys != [] {
        assert ys[0] > x;
      }
    } else {
      assert !Above(s.applied, x);
      assert Lands(s, e).Some? ==> ys == [Lands(s, e).value];
      assert Lands(s, e).None? ==> !e.DrainBlocking?;
    }
  }

  lemma FlightIsPopped(s: Sys)
    requires Inv(s)
    ensures Flight(s).Some? ==> Flight(s).value < s.popped
  {
  }

  lemma {:induction false} OrderUpTo(es: seq<Event>, n: nat)
    requires Runs(START, es) && n <= |es|
    ensures var s := At(START, es, n);
      && (Increasing(s.applied) <==> !Overtaken(es, n))
      && (forall x | Flight(s) == Some(x) :: Above(s.applied, x) <==> exists k: nat | k < n :: SavesOver(es, k, x))
    decreases n
  {
    hide Next, Inv, Books, Flight, At, Lands, SavesSome, Above, Increasing;
    if n == 0 {
      StartOrder();
      AtStart(es);
    } else {
      var s, e := At(START, es, n - 1), es[n - 1];
      StartIsSound();
      AtSound(START, es, n - 1);
      AtStep(START, es, n - 1);
      OrderUpTo(es, n - 1);
      StepOrder(s, e);
      OvertakenStep(es, n - 1);
      if Lands(s, e).Some? {
        LandsFromFlight(s, e);
      }
      forall x | Flight(Next(s, e)) == Some(x)
        ensures Above(Next(s, e).applied, x) <==> exists k: nat | k < n :: SavesOver(es, k, x)
      {
        StepAbove(s, e, x);
        if Flight(s) == Some(x) {
          assert SavesOver(es, n - 1, x) <==> SavesSome(e);
          if k: nat :| k < n && SavesOver(es, k, x) {
            assert k == n - 1 || k < n - 1;
          }
        } else {
          NotOverBefore(es, n, x);
        }
      }
    }
  }

  lemma AtStart(es: seq<Event>)
    requires Runs(START, es)
    ensures At(START, es, 0) == START
  {
  }

  lemma StartOrder()
    ensures Increasing(START.applied) && Flight(START).None?
  {
  }

  lemma LandsFromFlight(s: Sys, e: Event)
    requires Inv(s) && Enabled(s, e) && Lands(s, e).Some?
    ensures Flight(s) == Lands(s, e)
  {
    StepApplies(s, e);
  }

  lemma OvertakenStep(es: seq<Event>, n: nat)
    requires Runs(START, es) && n < |es| && Enabled(At(START, es, n), es[n])
    ensures Overtaken(es, n + 1) <==>
              Overtaken(es, n) || exists k: nat, x: nat :: k < n && SavesOver(es, k, x) && LandsAt(es, n, x)
  {
    hide SavesOver, LandsAt;
  }

  /** No drain saved over `x` before `x` was taken off the queue. */
  lemma NotOverBefore(es: seq<Event>, n: nat, x: nat)
    requires Runs(START, es) && 0 < n <= |es| && x == At(START, es, n - 1).popped
    ensures forall k | 0 <= k < n :: !SavesOver(es, k, x)
  {
    hide Next, Inv, Books, At;
    StartIsSound();
    forall k | 0 <= k < n ensures !SavesOver(es, k, x) {
      AtSound(START, es, k);
      PoppedGrows(es, k, n - 1);
      FlightIsPopped(At(START, es, k));
    }
  }

  /** FIFO, exactly, over every run: writes are applied in the order in which they were
      accepted if and only if no replay that went through had been overtaken, while in
      flight, by a write the shutdown drain saved. */
  lemma AppliedInOrderIff(es: seq<Event>)
    requires Runs(START, es)
    ensures Increasing(Final(START, es).applied) <==> !Overtaken(es, |es|)
  {
    OrderUpTo(es, |es|);
    AtEnd(START, es);
  }

  /** The failure is there to be had: whenever a replay is at its post and another write
      is queued, a shutdown drain that saves anything, and then the reply. */
  lemma OvertakingReorders(s: Sys, saves: seq<bool>, id: TaskId, spawn: TaskId, c: Clock)
    requires Inv(s) && Books(s) && Enabled(s, DrainBlocking(saves, s.now)) && SavesSome(DrainBlocking(saves, s.now))
    requires Enabled(s, PostReturns(id, spawn, c)) && s.tasks[id].Draining?
    ensures var overtaken := Next(s, DrainBlocking(saves, s.now));
      Enabled(overtaken, PostReturns(id, spawn, c)) &&
      !Increasing(Next(overtaken, PostReturns(id, spawn, c)).applied)
  {
    var drain, reply := DrainBlocking(saves, s.now), PostReturns(id, spawn, c);
    var overtaken := Next(s, drain);
    SettleLeavesTasks(s, saves);
    SettleLeavesBreaker(s, saves);
    StepKeeps(s, drain);
    StepBooks(s, drain);
    LandsFromFlight(s, reply);
    StepAbove(s, drain, s.tasks[id].index);
    StepOrder(overtaken, reply);
  }
}
