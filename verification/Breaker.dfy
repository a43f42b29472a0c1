/** The circuit breaker and the retry wrapper of
    `packages/tapps-core/src/tapps_core/brain_bridge_inprocess_core.py`
    (`_call`) and of its HTTP twin `_http_mcp_call`: what one call does to the
    breaker, for every outcome of every attempt and every reading of the clock. */
module Breaker {
  import opened Wrappers

  const CB_FAILURE_THRESHOLD := 3
  const CB_RESET_SECONDS := 30.0
  const RETRY_ATTEMPTS := 3
  const RETRY_BASE := 0.5
  const RETRY_MAX := 8.0

  datatype Breaker = Breaker(failures: nat, openAt: Option<real>) {
    /** An open breaker has been stamped; the stamp is the only thing that blocks. */
    predicate Armed() {
      failures >= CB_FAILURE_THRESHOLD ==> openAt.Some?
    }

    predicate Blocks(now: real) {
      openAt.Some? && now - openAt.value < CB_RESET_SECONDS
    }

    /** `circuit_open` clears an expired stamp as it is read. */
    function Read(now: real): (b: Breaker) {
      if openAt.Some? && !Blocks(now) then INITIAL else this
    }

    function Succeeded(): (b: Breaker) {
      this.(failures := 0)
    }

    function Failed(now: real): (b: Breaker) {
      Breaker(failures + 1, if failures + 1 >= CB_FAILURE_THRESHOLD then Some(now) else openAt)
    }
  }

  const INITIAL := Breaker(0, None)

  // ----- Every history of the breaker ------------------------------------------

  /** What any interleaving of calls and status reads does to the breaker. */
  datatype Event = Success(at: real) | Failure(at: real) | Reading(at: real)

  function After(b: Breaker, e: Event): (r: Breaker) {
    match e
    case Success(_) => b.Succeeded()
    case Failure(at) => b.Failed(at)
    case Reading(at) => b.Read(at)
  }

  function Run(b: Breaker, es: seq<Event>): (r: Breaker)
    decreases |es|
  {
    if es == [] then b else Run(After(b, es[0]), es[1..])
  }

  /** The clock never runs backwards. */
  ghost predicate Timed(from: real, es: seq<Event>) {
    && (forall i | 0 <= i < |es| :: from <= es[i].at)
    && (forall i, j | 0 <= i < j < |es| :: es[i].at <= es[j].at)
  }

  /** The time of the last failure that reached the threshold, if any. */
  function LastStamp(b: Breaker, es: seq<Event>): (t: Option<real>)
    decreases |es|
  {
    if es == [] then b.openAt
    else
      var before := Run(b, es[..|es| - 1]);
      match es[|es| - 1]
      case Failure(at) =>
        if before.failures + 1 >= CB_FAILURE_THRESHOLD then Some(at) else LastStamp(b, es[..|es| - 1])
      case _ => LastStamp(b, es[..|es| - 1])
  }

  lemma {:induction false} RunSnoc(b: Breaker, es: seq<Event>)
    requires es != []
    ensures Run(b, es) == After(Run(b, es[..|es| - 1]), es[|es| - 1])
    decreases |es|
  {
    if |es| > 1 {
      RunSnoc(After(b, es[0]), es[1..]);
      assert es[1..][..|es| - 2] == es[..|es| - 1][1..];
    }
  }

  lemma {:induction false} AlwaysArmed(b: Breaker, es: seq<Event>)
    requires b.Armed()
    ensures Run(b, es).Armed()
    decreases |es|
  {
    if es != [] {
      AlwaysArmed(After(b, es[0]), es[1..]);
    }
  }

  lemma TimedPrefix(from: real, es: seq<Event>, now: real)
    requires es != [] && Timed(from, es) && es[|es| - 1].at <= now
    ensures Timed(from, es[..|es| - 1])
    ensures |es| > 1 ==> es[|es| - 2].at <= es[|es| - 1].at
    ensures from <= es[|es| - 1].at
  {
  }

  /** In every history, under every clock that does not run backwards: the
      breaker blocks exactly while less than 30 seconds have passed since the
      last stamped failure. Successes in between neither close it nor keep it
      open. */
  lemma {:induction false} BlocksExactlySinceLastStamp(from: real, es: seq<Event>, now: real)
    requires Timed(from, es) && (if es == [] then from else es[|es| - 1].at) <= now
    ensures var stamp := LastStamp(INITIAL, es);
            && (Run(INITIAL, es).Blocks(now) <==> stamp.Some? && now - stamp.value < CB_RESET_SECONDS)
            && (Run(INITIAL, es).openAt.Some? ==> Run(INITIAL, es).openAt == stamp)
            && (stamp.Some? ==> stamp.value <= now)
    decreases |es|
  {
    if es != [] {
      var init, last := es[..|es| - 1], es[|es| - 1];
      RunSnoc(INITIAL, es);
      TimedPrefix(from, es, now);
      BlocksExactlySinceLastStamp(from, init, last.at);
      BlocksExactlySinceLastStamp(from, init, now);
    }
  }

  /** The first reading at or after the 30 seconds restores the initial state,
      whatever count the successes and failures in between had left. */
  lemma FirstLateReadingRestores(from: real, es: seq<Event>, now: real)
    requires Timed(from, es) && (if es == [] then from else es[|es| - 1].at) <= now
    requires Run(INITIAL, es).openAt.Some?
    ensures LastStamp(INITIAL, es).Some?
    ensures Run(INITIAL, es + [Reading(now)]) ==
            if now - LastStamp(INITIAL, es).value >= CB_RESET_SECONDS then INITIAL else Run(INITIAL, es)
  {
    BlocksExactlySinceLastStamp(from, es, now);
    RunSnoc(INITIAL, es + [Reading(now)]);
    assert (es + [Reading(now)])[..|es|] == es;
  }

  // ----- One call ------------------------------------------------------------------

  /** How one attempt ends: with a result, with an exception that is raised at
      once and not recorded, or with an ordinary exception. */
  datatype Outcome = Returns | RaisesAtOnce | Fails

  /** One attempt: its outcome, the clock as `_record_failure` and then
      `circuit_open` read it, and the jitter as a fraction of the delay. */
  datatype Attempt = Attempt(outcome: Outcome, stamp: real, recheck: real, jitter: real) {
    predicate Possible() {
      stamp <= recheck && 0.0 <= jitter <= 0.1
    }

    /** The two readings of the clock are less than the reset time apart. */
    predicate Prompt() {
      recheck - stamp < CB_RESET_SECONDS
    }
  }

  datatype Script = Script(entry: real, attempts: seq<Attempt>) {
    predicate Possible() {
      |attempts| == RETRY_ATTEMPTS && forall i | 0 <= i < |attempts| :: attempts[i].Possible()
    }

    predicate Prompt() {
      forall i | 0 <= i < |attempts| :: attempts[i].Prompt()
    }

    predicate Ordinary() {
      forall i | 0 <= i < |attempts| :: attempts[i].outcome != RaisesAtOnce
    }
  }

  datatype CallResult = CircuitOpen | Returned | Raised | Exhausted

  /** The breaker after the call, how it ended, the breaker at each invocation of the
      wrapped function, and how long the call slept. */
  datatype Report = Report(breaker: Breaker, result: CallResult, invoked: seq<Breaker>, slept: real)

  function Power2(n: nat): (r: real) {
    if n == 0 then 1.0 else 2.0 * Power2(n - 1)
  }

  function Delay(attempt: nat, jitter: real): (d: real) {
    var delay := if RETRY_BASE * Power2(attempt) <= RETRY_MAX then RETRY_BASE * Power2(attempt) else RETRY_MAX;
    delay + jitter * delay
  }

  /** A call's report, with what it had invoked and slept before. */
  function Resumed(rest: Report, invoked: seq<Breaker>, slept: real): (r: Report) {
    rest.(invoked := invoked + rest.invoked, slept := slept + rest.slept)
  }

  lemma ResumedTwice(rest: Report, invoked: seq<Breaker>, slept: real, more: seq<Breaker>, longer: real)
    ensures Resumed(Resumed(rest, more, longer), invoked, slept) == Resumed(rest, invoked + more, slept + longer)
  {
    assert invoked + (more + rest.invoked) == invoked + more + rest.invoked;
  }

  function RunAttempts(b: Breaker, attempt: nat, script: Script): (r: Report)
    requires script.Possible() && attempt < RETRY_ATTEMPTS
    decreases RETRY_ATTEMPTS - attempt
  {
    var a := script.attempts[attempt];
    match a.outcome
    case Returns => Report(b.Succeeded(), Returned, [b], 0.0)
    case RaisesAtOnce => Report(b, Raised, [b], 0.0)
    case Fails =>
      var failed := b.Failed(a.stamp);
      var read := failed.Read(a.recheck);
      if failed.Blocks(a.recheck) || attempt == RETRY_ATTEMPTS - 1 then Report(read, Exhausted, [b], 0.0)
      else
        Resumed(RunAttempts(read, attempt + 1, script), [b], Delay(attempt, a.jitter))
  }

  function RunCall(b: Breaker, script: Script): (r: Report)
    requires script.Possible()
  {
    if b.Blocks(script.entry) then Report(b.Read(script.entry), CircuitOpen, [], 0.0)
    else RunAttempts(b.Read(script.entry), 0, script)
  }

  lemma DelayBound(attempt: nat, jitter: real)
    requires attempt < 2 && 0.0 <= jitter <= 0.1
    ensures Delay(attempt, jitter) <= if attempt == 0 then 0.55 else 1.1
  {
    assert Power2(0) == 1.0 && Power2(1) == 2.0 * Power2(0);
  }

  /** Every attempt runs with the circuit closed, and a call that gives
      up has either opened the circuit or lost all its remaining attempts. */
  lemma {:induction false} AttemptsBehave(b: Breaker, attempt: nat, script: Script)
    requires script.Possible() && attempt < RETRY_ATTEMPTS
    requires b.openAt.None? && b.Armed()
    ensures var r := RunAttempts(b, attempt, script);
            && 1 <= |r.invoked| <= RETRY_ATTEMPTS - attempt
            && (forall i | 0 <= i < |r.invoked| :: r.invoked[i].openAt.None?)
            && r.slept <= (if attempt == 0 then 1.65 else if attempt == 1 then 1.1 else 0.0)
            && r.breaker.Armed()
            && r.result != CircuitOpen
            && (r.result == Returned ==> r.breaker == INITIAL)
            && (r.result == Raised ==> !script.Ordinary() && r.breaker.openAt.None?)
            && (r.result == Exhausted ==>
                  var last := script.attempts[attempt + |r.invoked| - 1];
                  && last.outcome == Fails
                  && (r.breaker.openAt.Some? ==> r.breaker.openAt == Some(last.stamp) && last.Prompt()))
    decreases RETRY_ATTEMPTS - attempt
  {
    var a := script.attempts[attempt];
    if a.outcome == Fails && attempt < RETRY_ATTEMPTS - 1 {
      var failed := b.Failed(a.stamp);
      if !failed.Blocks(a.recheck) {
        DelayBound(attempt, a.jitter);
        AttemptsBehave(failed.Read(a.recheck), attempt + 1, script);
      }
    }
  }

  /** How many attempts fail in a row, counted from `from`. */
  function Failing(script: Script, from: nat): (n: nat)
    requires script.Possible() && from <= RETRY_ATTEMPTS
    ensures from + n <= RETRY_ATTEMPTS
    ensures forall i | from <= i < from + n :: script.attempts[i].outcome == Fails
    ensures from + n < RETRY_ATTEMPTS ==> script.attempts[from + n].outcome != Fails
    decreases RETRY_ATTEMPTS - from
  {
    if from == RETRY_ATTEMPTS || script.attempts[from].outcome != Fails then 0 else 1 + Failing(script, from + 1)
  }

  /** With `failures` counted, the third failure in a row would be that of this attempt. */
  function Decisive(failures: nat, from: nat): (k: nat)
    requires failures < CB_FAILURE_THRESHOLD
  {
    from + CB_FAILURE_THRESHOLD - 1 - failures
  }

  /** The attempts come to the third failure in a row, and its recheck is prompt. */
  predicate Opens(failures: nat, script: Script, from: nat)
    requires script.Possible() && from < RETRY_ATTEMPTS && failures < CB_FAILURE_THRESHOLD
  {
    Decisive(failures, from) < from + Failing(script, from) && script.attempts[Decisive(failures, from)].Prompt()
  }

  datatype Ending = Ending(result: CallResult, breaker: Breaker, invocations: nat)

  /** What the attempts come to, read off the outcomes and the clock alone: they end with
      the third failure in a row if its recheck is prompt, or else with the first attempt
      that does not fail, or else with the last. Failures then count modulo three. */
  function EndOf(failures: nat, script: Script, from: nat): (e: Ending)
    requires script.Possible() && from < RETRY_ATTEMPTS && failures < CB_FAILURE_THRESHOLD
  {
    var n := Failing(script, from);
    var left := Breaker((failures + n) % CB_FAILURE_THRESHOLD, None);
    if Opens(failures, script, from) then
      Ending(Exhausted, Breaker(CB_FAILURE_THRESHOLD, Some(script.attempts[Decisive(failures, from)].stamp)),
             CB_FAILURE_THRESHOLD - failures)
    else if from + n == RETRY_ATTEMPTS then Ending(Exhausted, left, n)
    else if script.attempts[from + n].outcome == Returns then Ending(Returned, INITIAL, n + 1)
    else Ending(Raised, left, n + 1)
  }

  /** A failure that does not open the circuit leaves the end to the next attempt. */
  lemma FailureDefers(f: nat, script: Script, from: nat)
    requires script.Possible() && from < RETRY_ATTEMPTS - 1 && f < CB_FAILURE_THRESHOLD
    requires script.attempts[from].outcome == Fails
        && !(f == CB_FAILURE_THRESHOLD - 1 && script.attempts[from].Prompt())
    ensures var rest := EndOf((f + 1) % CB_FAILURE_THRESHOLD, script, from + 1);
            EndOf(f, script, from) == rest.(invocations := rest.invocations + 1)
  {
  }

  /** The attempt after which the loop does not go on. */
  lemma EndsHere(b: Breaker, attempt: nat, script: Script)
    requires script.Possible() && attempt < RETRY_ATTEMPTS && b.openAt.None? && b.Armed()
    requires var a := script.attempts[attempt];
      a.outcome != Fails || attempt == RETRY_ATTEMPTS - 1 || (b.failures == CB_FAILURE_THRESHOLD - 1 && a.Prompt())
    ensures var r := RunAttempts(b, attempt, script);
            EndOf(b.failures, script, attempt) == Ending(r.result, r.breaker, |r.invoked|)
  {
    hide Delay;
  }

  /** The retry loop meets that description. */
  lemma {:induction false} AttemptsEnd(b: Breaker, attempt: nat, script: Script)
    requires script.Possible() && attempt < RETRY_ATTEMPTS
    requires b.openAt.None? && b.Armed()
    ensures var r := RunAttempts(b, attempt, script);
            EndOf(b.failures, script, attempt) == Ending(r.result, r.breaker, |r.invoked|)
    decreases RETRY_ATTEMPTS - attempt
  {
    hide EndOf, Delay;
    var a := script.attempts[attempt];
    if a.outcome != Fails || attempt == RETRY_ATTEMPTS - 1 || (b.failures == CB_FAILURE_THRESHOLD - 1 && a.Prompt()) {
      EndsHere(b, attempt, script);
    } else {
      var next := b.Failed(a.stamp).Read(a.recheck);
      assert next == Breaker((b.failures + 1) % CB_FAILURE_THRESHOLD, None);
      FailureDefers(b.failures, script, attempt);
      AttemptsEnd(next, attempt + 1, script);
    }
  }

  lemma DelayIs(attempt: nat, jitter: real)
    requires attempt < 2
    ensures Delay(attempt, jitter) == if attempt == 0 then 0.5 + 0.5 * jitter else 1.0 + jitter
  {
    assert Power2(0) == 1.0 && Power2(1) == 2.0 * Power2(0);
  }

  /** The sleep before each retry: half a second, then one, each with its jitter. */
  lemma {:induction false} SleepIs(b: Breaker, attempt: nat, script: Script)
    requires script.Possible() && attempt < RETRY_ATTEMPTS
    ensures var r := RunAttempts(b, attempt, script);
            r.slept == (if attempt == 0 && |r.invoked| >= 2 then 0.5 + 0.5 * script.attempts[0].jitter else 0.0)
                       + (if attempt <= 1 && attempt + |r.invoked| == 3 then 1.0 + script.attempts[1].jitter else 0.0)
    decreases RETRY_ATTEMPTS - attempt
  {
    var a := script.attempts[attempt];
    if a.outcome == Fails && attempt < RETRY_ATTEMPTS - 1 {
      var failed := b.Failed(a.stamp);
      if !failed.Blocks(a.recheck) {
        DelayIs(attempt, a.jitter);
        hide Delay;
        SleepIs(failed.Read(a.recheck), attempt + 1, script);
        InvokedOnce(failed.Read(a.recheck), attempt + 1, script);
      }
    }
  }

  lemma {:induction false} InvokedOnce(b: Breaker, attempt: nat, script: Script)
    requires script.Possible() && attempt < RETRY_ATTEMPTS
    ensures 1 <= |RunAttempts(b, attempt, script).invoked| <= RETRY_ATTEMPTS - attempt
    decreases RETRY_ATTEMPTS - attempt
  {
    hide Delay;
    var a := script.attempts[attempt];
    if a.outcome == Fails && attempt < RETRY_ATTEMPTS - 1 {
      InvokedOnce(b.Failed(a.stamp).Read(a.recheck), attempt + 1, script);
    }
  }

  /** Retry and breaker together, for a call that does not overlap another:
      never invoked while the circuit is open, at most three invocations, at
      most 1.65 seconds of sleep, and a success leaves the initial state. */
  lemma CallBehaves(b: Breaker, script: Script)
    requires script.Possible() && b.Armed()
    ensures var r := RunCall(b, script);
            && |r.invoked| <= 3
            && (forall i | 0 <= i < |r.invoked| :: r.invoked[i].openAt.None?)
            && r.slept <= 1.65
            && r.slept == (if |r.invoked| >= 2 then 0.5 + 0.5 * script.attempts[0].jitter else 0.0)
                          + (if |r.invoked| == 3 then 1.0 + script.attempts[1].jitter else 0.0)
            && r.breaker.Armed()
            && (r.result == CircuitOpen <==> b.Blocks(script.entry))
            && (r.result == CircuitOpen <==> r.invoked == [])
            && (r.result == CircuitOpen ==> r.breaker == b && r.slept == 0.0)
            && (r.result == Returned ==> r.breaker == INITIAL)
            && (r.result == Raised ==> !script.Ordinary() && r.breaker.openAt.None?)
  {
    if !b.Blocks(script.entry) {
      AttemptsBehave(b.Read(script.entry), 0, script);
      SleepIs(b.Read(script.entry), 0, script);
      hide RunAttempts;
    }
  }

  /** "Retries exhausted" leaves the circuit open exactly when the recheck
      after the third failure in a row read a clock less than 30 seconds past
      that failure's stamp; and then it was that failure that ended the call. */
  lemma ExhaustedOpensIff(b: Breaker, script: Script)
    requires script.Possible() && b.Armed() && RunCall(b, script).result == Exhausted
    ensures var r, k := RunCall(b, script), CB_FAILURE_THRESHOLD - 1 - b.Read(script.entry).failures;
            && 0 <= k < RETRY_ATTEMPTS
            && (r.breaker.openAt.Some? <==> script.attempts[k].Prompt())
            && (r.breaker.openAt.Some? ==> r.breaker.openAt == Some(script.attempts[k].stamp) && |r.invoked| == k + 1)
  {
    AttemptsEnd(b.Read(script.entry), 0, script);
    AttemptsBehave(b.Read(script.entry), 0, script);
  }

  /** Such a clock is possible: one that jumps 30 seconds
      between the stamp and the recheck resets the breaker, and the call gives
      up with the circuit closed. */
  lemma SlowRecheckLeavesClosed() returns (script: Script)
    ensures script.Possible() && !script.Prompt()
    ensures RunCall(INITIAL, script).result == Exhausted
    ensures RunCall(INITIAL, script).breaker == INITIAL
  {
    var quick := Attempt(Fails, 0.0, 0.0, 0.0);
    var slow := Attempt(Fails, 0.0, 30.0, 0.0);
    script := Script(0.0, [quick, quick, slow]);
    assert !script.attempts[2].Prompt();
    var b1 := INITIAL.Failed(0.0);
    var b2 := b1.Failed(0.0);
    assert RunAttempts(b2, 2, script) == Report(INITIAL, Exhausted, [b2], 0.0);
    assert RunAttempts(b1, 1, script).breaker == INITIAL;
  }
}
