# Dafny model of the context-floor evaluator, the brain bridge and the release tooling

The project models the parts of the repository whose correctness is argued in comments or
promised by tests, and proves what those arguments claim. It stands on its own:
`dafny verify dfyconfig.toml` checks all of it.

## What is modelled

**The static skill-body evaluator and its guarded frontmatter parser.** The script evaluates
a string expression as far as it can, puts a marker where it cannot, parses the resulting
frontmatter, and refuses a skill whose measured fields a marker might touch.
`Frontmatter` and `FrontmatterLoops` are the parser, as functions on lines and as the
script's loops, on Python's own white space and line breaks (`PyText`). `BodyResolver` is the
evaluator against the value the expression really has. `Reading` says what a report and its
refusal mean on the lines of the body themselves, without the parser: which line decides each
measured value, what a block scalar is worth, and exactly which bodies are accepted. `Template` is a text with holes and the
correspondence, line by line, between the marked text and the text with the holes filled.
`NonInterference` is the central theorem: if the script reports a skill, the deployed body has
that very skill, for every fill that opens no key and forms no delimiter of its own on a
holed line between the delimiters; fills may contain line breaks. `LineFills` says the same
line by line for fills without line breaks that leave the number of lines as it is, where
nothing needs to be known of how the two texts were woven. `Exactness` says how much the remaining tolerance is worth: the report
is certain for every fill if and only if no hole lies between the delimiters; otherwise some
fill gives the skill any other description. `Spans` is the partition the guards rely on.
`Splice` is the case the evaluator exists for, in general: markers that only stand in the
values of unmeasured keys are resolved past, rightly, whatever one-line text they stand for.
`SkillDict` compares the static simulation of the skill dictionary with running the module.

**The brain bridge.** `Breaker` is the circuit breaker over any history and any clock that
does not run backwards, and one call with its retries. `Bridge` is the bridge object: the
queue, the drain, the shutdown drain; `DrainLosses` says how much a drain loses.
`BridgeMachine` interleaves client calls, drain tasks, the shutdown drain, cancels and status
reads at their `await`s, with and without the lock of the fleet patch; the environment chooses
outcomes, order and clock. `WriteQueue` says what the queue takes in and when a drain takes
from it, `Alone` that a task without company does what the sequential code does, `PostLock`
that the patched class has one post on the wire at a time. `OpenCircuit` says exactly which posts meet an open circuit, `Fifo`
which runs apply writes in order. `FleetRpc` is the patch that serialises posts, with its
marker, its flag and its non-reentrant lock.

**The accounting scripts.** `BumpVersions` and `BumpThenCheck` (bump against drift check),
`EvalDiff` (two evaluation runs against their comparison), `DiffNetting` (a diff against the
edits it stands for), `EnvelopeTree`, `EnvelopeNames`, `EnvelopeLint`, `EnvelopePayload` and
`EnvelopeFindings` (the response-envelope sweep, from the walk over syntax trees to what is
found), `SprintBoard`, `BoardStamp` and `BoardFreshness` (the board, its completeness, its
date and what its freshness check tells apart), `SafeSlug`, `TokenFloor`.

## Where the code differs from what is said about it

- The elision marker is eight characters long; the comment at
  scripts/context_floor_skill_body.py:33-34 says nine. The marker contains no line break, so
  it never straddles one (`Template.MarkerUnbroken`), unlike what lines 50-53 suggest.
- "Retries exhausted" implies an open circuit only if the clock moves less than 30 seconds
  between the failure's stamp and the recheck after it: `Breaker.ExhaustedOpensIff` is the
  exact condition, `Breaker.SlowRecheckLeavesClosed` a run without it.
- A call on its own never invokes anything while the circuit is open (`Breaker.CallBehaves`),
  but a call that is past its check does not look again when another has opened it. A post
  goes on the wire with the circuit open exactly when it is a retry waking up, or a post that
  has waited for the lock of the fleet patch and gets it, less than 30 seconds past the stamp
  (`OpenCircuit.PostsWhileOpenIff`). Without the patch only retries do so
  (`OpenCircuit.RetryPostsIntoOpenCircuit`); with it first attempts do as well
  (`OpenCircuit.FirstPostIntoOpenCircuit`).
- A drain need not stop at its first loss: an exception that is raised at once leaves the
  circuit closed, so one drain loses every event of a gated tool
  (`DrainLosses.GatedAreAllLost`, `DrainLosses.DrainLosesAtMostOneIff`).
- Writes are applied in order of acceptance if and only if no replay that goes through was
  overtaken, while in flight, by a write the shutdown drain saved
  (`Fifo.AppliedInOrderIff`, `Fifo.OvertakingReorders`).
- Posts are serial from a state on if and only if the class is patched there and every
  outstanding post holds its lock and its own request; so the patch makes them serial if and
  only if no call is outstanding when it is applied (`FleetRpc.PostsAreSerialIff`,
  `FleetRpc.PatchingSerialisesIff`).
- A module that assigns its dict literal again is simulated as a merge
  (`SkillDict.ReassignmentSimulatedIff`). With different literals of one name in several
  files, which one is merged depends on the order a set is iterated in
  (`SkillDict.OrderIsImmaterialIff`).
- Of several assignments to a payload's name the lint takes the deepest, not the last
  (`EnvelopePayload.PayloadResolvesIff`, `EnvelopePayload.NestedBindingWins`).
- A bump replaces the first literal `version = "..."` of that version, which need not be the
  one that is read (`BumpThenCheck.BumpEstablishesCheckIff`, `BumpThenCheck.EarlierLiteralIsStruck`).
- The diff patterns spend one character before they look for a call, so a registration in
  the first column, such as a direct decorator at module level, slips past, although the
  comment at scripts/tool_budget_lint.py:26-28 says it cannot
  (`DiffNetting.FirstColumnSlipsPast`, `DiffNetting.DirectDecoratorIsSuch`). They also refuse
  a repeated sign, and a deleted file has no header of the kind looked for
  (`DiffNetting.MoveOutOfDeletedFileIsRefused`). `DiffNetting.NettingExactIff` accounts for
  all of it.
- The noise-adjusted headline says it is left out when nothing errored; it is also shown when
  a baseline scenario is missing at the head (`EvalDiff.AdjustedShownIff`).

## Model

| member | source | states |
|---|---|---|
| FrontmatterLoops.FrontmatterBounds | scripts/context_floor_skill_body.py:94-110 | raises exactly if no line strips to `---`; otherwise the first such line and the next one after it, if any |
| FrontmatterLoops.FoldBlockScalar | scripts/context_floor_skill_body.py:113-121 | the folded text and the first line after it are those of the longest run of indented or blank lines |
| FrontmatterLoops.KeyStarts | scripts/context_floor_skill_body.py:199 | all and only the lines that open a key, in order |
| FrontmatterLoops.ReadField | scripts/context_floor_skill_body.py:205-219 | one span adds its key's last value and appends its raw lines to what the key already had |
| FrontmatterLoops.ReadFields | scripts/context_floor_skill_body.py:204-220 | the index loop over key starts collects exactly the spans of the partition |
| FrontmatterLoops.ParseSkillFrontmatterFields | scripts/context_floor_skill_body.py:171-220 | the parser computes the line-level specification, refusals included |
| FrontmatterLoops.RejectElidedFields | scripts/context_floor_skill_body.py:274-281 | nothing is rejected exactly if no measured field's raw text holds a marker |
| FrontmatterLoops.SkillInfoFromBody | scripts/context_floor_skill_body.py:288-300 | parsing, guarding and reading the three fields together; what comes of it is `Reading.AcceptedIff` and `Reading.ReportReads` |
| Reading.KeyLineIff | scripts/context_floor_skill_body.py:133-145 | a line opens a key exactly if it is a token, a colon and the rest, the token free of colons and markers and starting with neither blank, tab nor dash; the key is the token stripped |
| Reading.FoldsOnce | scripts/context_floor_skill_body.py:113-121 | the value of a block scalar: the non-blank lines of the longest indented or blank run below the key, each stripped, in order, one space between each two |
| Reading.SaysIff | scripts/context_floor_skill_body.py:205-213 | what a key line says: that, behind a block indicator, and otherwise the rest of the line stripped of white space and then of double quotes |
| Reading.ReportReads | scripts/context_floor_skill_body.py:291-300 | in an accepted body the last `description` line says the description; the fork flag is set exactly if the last `context` line says `fork`, the other exactly if the last `disable-model-invocation` line says `true` in any case; no line moves another value |
| Reading.AcceptedIff | scripts/context_floor_skill_body.py:171-202 | accepted exactly if a line strips to `---`, no marker stands up to it, every marker below it stands under an unmeasured key, and some line opens `description` |
| Reading.RefusalIs | scripts/context_floor_skill_body.py:148-168 | why a body is refused, as the first that applies: no delimiter, a marker up to it, a marker above every key, a marker under `description`, `context` or `disable-model-invocation`, no description |
| PyText.SplitLinesIff | scripts/context_floor_skill_body.py:94-110 | the lines of a text are those of the one way to cut it into unbroken lines and what ends them, no carriage return parted from its line feed |
| Template.MarkerUnbroken | scripts/context_floor_skill_body.py:57 | the marker holds no line break |
| Template.GroupsAreLines | scripts/context_floor_skill_body.py:39-55 | the lines of the marked text and of any filled text correspond group by group, holed groups included |
| NonInterference.KeySurvivesFilling | scripts/context_floor_skill_body.py:133-145 | a holed line that opens a key opens the same key once it is filled |
| NonInterference.DelimiterStays | scripts/context_floor_skill_body.py:39-43 | a discreet fill forms no delimiter before the first one of the marked text, which stays where it is |
| NonInterference.FrontmatterStays | scripts/context_floor_skill_body.py:195-202 | the filled text's frontmatter is what the marked frontmatter lines turn into |
| NonInterference.PartitionsAgree | scripts/context_floor_skill_body.py:184-193 | marked and filled frontmatter are cut into spans at the same keys |
| NonInterference.FieldsAgree | scripts/context_floor_skill_body.py:204-220 | a field without a marker in its raw text has the same value in the filled text; a field with one is still there |
| NonInterference.MeasureAgrees | scripts/context_floor_skill_body.py:284-300 | so the three measured values agree |
| NonInterference.ReportSurvivesFilling | scripts/context_floor_skill_body.py:30-57 | non-interference: a reported skill info is that of the body with every marker replaced by any harmless text |
| LineFills.MarkedLinesStayLines | scripts/context_floor_skill_body.py:39-55 | under fills without line breaks every marked line has at most one filled line, exactly one if no fill is empty |
| LineFills.ReportSurvivesQuietFilling | scripts/context_floor_skill_body.py:30-57 | a report is that of the deployed body if both have equally many lines and, line by line between the delimiters, no filled line newly strips to `---` or newly opens a key |
| LineFills.BehindKeysIsHarmless | scripts/context_floor_skill_body.py:133-145 | if every line with a marker between the delimiters opens a key, every fill without line breaks is harmless |
| Exactness.HoleFreeIsExact | scripts/context_floor_skill_body.py:257-270 | with no hole between the delimiters the report is right for every fill |
| Exactness.HoleCanTakeOver | scripts/context_floor_skill_body.py:261-264 | with a hole there, some fill gives an accepted skill any description a key line can give |
| Exactness.ReportIsCertainIffNoHoleInFrontmatter | scripts/context_floor_skill_body.py:261-270 | the tolerance exactly: certain for all fills if and only if no hole lies between the delimiters |
| Spans.PartitionTiles | scripts/context_floor_skill_body.py:199-214 | preamble and spans put together are the frontmatter lines, without gap or overlap |
| Spans.PartitionUnique | scripts/context_floor_skill_body.py:177-179 | there is no other way to cut the lines into a keyless preamble and spans that open one key each |
| Spans.FoldingStaysInside | scripts/context_floor_skill_body.py:113-121 | folding reads lines of its own key's span only |
| Spans.RawKeepsEveryLine | scripts/context_floor_skill_body.py:214-219 | the raw text of a key holds every line of every span that opens it |
| Spans.MarkersAreAttributed | scripts/context_floor_skill_body.py:184-193 | in an accepted body every marker lies in the raw text of the nearest key at or above it |
| Spans.ReportedFieldsHoldNoMarker | scripts/context_floor_skill_body.py:274-281 | no line of a measured field of a reported skill holds a marker |
| BodyResolver.ResolvedIsMarked | scripts/context_floor_skill_body.py:60-91 | the resolved text is a template with every hole marked, or both are refused as too deep |
| BodyResolver.TemplateEvaluates | scripts/context_floor_skill_body.py:67-72 | the template's holes, filled with the true values, give the value of the expression |
| BodyResolver.ResolutionSound | scripts/context_floor_skill_body.py:60-91 | for every expression, symbol table and valuation: the filled result is the one value the expression has, or the depth is exceeded and the value is not to be had in 51 levels |
| BodyResolver.FullyReadableIsExact | scripts/context_floor_skill_body.py:76-90 | with nothing opaque the result is the value itself |
| BodyResolver.CyclesAreRefused | scripts/context_floor_skill_body.py:74-75 | every expression that needs a cyclic name is refused, at any depth |
| BodyResolver.SkillInfoFromFrontmatter | scripts/context_floor_skill_body.py:284-300 | resolve, parse, guard, read |
| BodyResolver.MeasurementIsReal | scripts/context_floor_skill_body.py:257-271 | a reported skill info is that of the string the program deploys, if the opaque parts are harmless |
| BodyResolver.MeasurementIsCertainIff | scripts/context_floor_skill_body.py:257-271 | it is that for every valuation if and only if no opaque part lands between the delimiters |
| Splice.SplicedIsAccepted | scripts/context_floor_skill_body.py:261-267 | a body whose markers only stand in the values of unmeasured keys is accepted exactly if it has a description, and refused for nothing else |
| Splice.ResolvedPastSplices | scripts/context_floor_skill_body.py:264-267 | and the script and the deployed body then agree, for every fill without line breaks |
| Splice.ResolvedPastName | scripts/context_floor_skill_body.py:261-267 | an instance: a skill with an unreadable name is reported, and rightly for every one-line name |
| SkillDict.ResolveDictLiteral | scripts/context_floor_skills.py:129-135 | the first dict literal assigned to the name, files and statements in order |
| SkillDict.ResolvesTheLiteral | scripts/context_floor_skills.py:129-135 | a name with one literal in all files resolves to its entries in any file order |
| SkillDict.EntriesIff | scripts/context_floor_skills.py:121-126 | a literal holds exactly the constant keys of its entries, each with the value of its last entry |
| SkillDict.EntriesAreRun | scripts/context_floor_skills.py:121-126 | what is read of a literal is what running its entries one by one builds |
| SkillDict.OrderIsImmaterialIff | scripts/context_floor_skills.py:129-135 | the literal found does not depend on the order the set of files is iterated in if and only if all files that have one have the same |
| SkillDict.CollectSkillDict | scripts/context_floor_skills.py:168-190 | the loop computes the merge of the statements' effects in order |
| SkillDict.SimulationRefinesExecution | scripts/context_floor_skills.py:168-173 | for a literal assigned once, first: the map that running the module, literals entry by entry, leaves |
| SkillDict.ReassignmentSimulatedIff | scripts/context_floor_skills.py:176-179 | with earlier statements or literals: right if and only if every earlier key is written again from the last literal on |
| Breaker.AlwaysArmed | packages/tapps-core/src/tapps_core/brain_bridge_inprocess_core.py:135-143 | three failures or more imply an opening time, in every history |
| Breaker.BlocksExactlySinceLastStamp | packages/tapps-core/src/tapps_core/brain_bridge_inprocess_core.py:85-94 | open exactly while less than 30 s have passed since the last stamped failure, whatever successes arrive |
| Breaker.FirstLateReadingRestores | packages/tapps-core/src/tapps_core/brain_bridge_inprocess_core.py:90-93 | the first reading after that restores the initial state, an earlier one changes nothing |
| Breaker.AttemptsEnd | packages/tapps-core/src/tapps_core/brain_bridge_inprocess_core.py:154-172 | the retry loop ends with the third failure in a row if its recheck is prompt, or else with the first attempt that does not fail, or else with the last; failures are left counted modulo three |
| Breaker.CallBehaves | packages/tapps-core/src/tapps_core/brain_bridge_inprocess_core.py:149-172 | at most 3 invocations, each with no opening time set; the sleep is half a second before the second and a second before the third, each with its jitter; a success leaves the initial state |
| Breaker.ExhaustedOpensIff | packages/tapps-core/src/tapps_core/brain_bridge_inprocess_core.py:162-172 | exhausted retries leave the circuit open if and only if the recheck after the third failure in a row is less than 30 s past its stamp, and then that failure ended the call |
| Breaker.SlowRecheckLeavesClosed | packages/tapps-core/src/tapps_core/brain_bridge_inprocess_core.py:164-166 | a clock under which a call gives up with the circuit closed |
| Bridge.BrainBridge.constructor | packages/tapps-core/src/tapps_core/brain_bridge_inprocess_core.py:55-60 | starts closed with an empty queue |
| Bridge.BrainBridge.CircuitOpen | packages/tapps-core/src/tapps_core/brain_bridge_inprocess_core.py:85-94 | the answer and the whole state a reading leaves |
| Bridge.BrainBridge.RecordSuccess | packages/tapps-core/src/tapps_core/brain_bridge_inprocess_core.py:135-136 | clears the count and keeps the opening time |
| Bridge.BrainBridge.RecordFailure | packages/tapps-core/src/tapps_core/brain_bridge_inprocess_core.py:138-143 | counts, and stamps every failure from the third on |
| Bridge.BrainBridge.Call | packages/tapps-core/src/tapps_core/brain_bridge_inprocess_core.py:149-172 | the retry loop: breaker, outcome, the breaker at each invocation, and sleep are those of the specified call |
| Bridge.BrainBridge.EnqueueWrite | packages/tapps-core/src/tapps_core/brain_bridge_inprocess_core.py:178-194 | accepts below 100 entries, at the end; a refusal changes nothing |
| Bridge.BrainBridge.ReplayQueuedWrite | packages/tapps-core/src/tapps_core/brain_bridge_http_kg_hive.py:281-294 | routes a `save` through its own circuit check and anything else to the call |
| Bridge.ReplayNeverRequeues | packages/tapps-core/src/tapps_core/brain_bridge_http_kg_hive.py:495-505 | a replay behind a closed circuit never puts its entry back |
| Bridge.ReplayWhileOpen | packages/tapps-core/src/tapps_core/brain_bridge_http_kg_hive.py:495-505 | a replay that finds the circuit open: a save goes to the end of the queue if fewer than 100 are queued, anything else is lost |
| Bridge.BrainBridge.DrainWriteQueue | packages/tapps-core/src/tapps_core/brain_bridge_inprocess_core.py:196-211 | the drain loop, run alone, applies and loses what is specified |
| Bridge.DrainConserves | packages/tapps-core/src/tapps_core/brain_bridge_inprocess_core.py:196-211 | the entries taken off are the applied and the lost ones interleaved in order; the rest is still queued |
| DrainLosses.DrainLosesAtMostOne | packages/tapps-core/src/tapps_core/brain_bridge_inprocess_core.py:196-211 | under ordinary exceptions and a prompt clock one drain loses at most one entry and then stops |
| DrainLosses.DrainLosesAtMostOneIff | packages/tapps-core/src/tapps_core/brain_bridge_inprocess_core.py:196-211 | one drain loses at most one entry if and only if, as the outcomes and the clock have it, it does not lose one, go on and come to lose another |
| DrainLosses.GoesOnAfterLossIff | packages/tapps-core/src/tapps_core/brain_bridge_inprocess_core.py:201-211 | after a loss the drain goes on exactly if the attempts did not come to a third failure in a row with a prompt recheck, or the next loop check is 30 s or more past its stamp |
| DrainLosses.GatedAreAllLost | packages/tapps-core/src/tapps_core/brain_bridge_http_session.py:147-151 | entries whose first attempt raises at once, such as events of a gated tool, are all lost in one drain, and it stops for none of them |
| Bridge.BrainBridge.DrainBlocking | packages/tapps-core/src/tapps_core/brain_bridge_inprocess_core.py:342-379 | drained + dropped + remaining is the depth at entry; a prefix is settled in order; it goes on exactly while the clock is before the deadline |
| BridgeMachine.StepKeeps | packages/tapps-core/src/tapps_core/brain_bridge_inprocess_core.py:149-232 | every step of every task keeps the breaker armed, the queue a suffix of the accepted writes, and the drain single |
| BridgeMachine.StepBooks | packages/tapps-core/src/tapps_core/brain_bridge_inprocess_core.py:196-211 | every step keeps each accepted write in exactly one account |
| BridgeMachine.QueueConservation | packages/tapps-core/src/tapps_core/brain_bridge_inprocess_core.py:178-211 | in every run: accepted = applied + dropped + in flight + queued, each once, at most 100 queued, none put back |
| WriteQueue.QueuedExactlyWhenOpen | packages/tapps-core/src/tapps_core/brain_bridge_http_kg_hive.py:495-505 | in every run the queue has taken in exactly the writes of the save and knowledge-graph calls that met an open circuit and fewer than 100 queued writes, in the order of the calls, and holds those not yet taken off |
| WriteQueue.BeginSendsIff | packages/tapps-core/src/tapps_core/brain_bridge_http_kg_hive.py:495-509 | a call goes to its first post, or waits for the lock if another holds it or is ahead, exactly if it meets no open circuit |
| WriteQueue.DrainTakesHeadIff | packages/tapps-core/src/tapps_core/brain_bridge_inprocess_core.py:196-211 | whenever a drain comes to its loop check it takes the head of the queue into flight exactly if there is one and the circuit is not open; otherwise it ends and leaves the queue |
| WriteQueue.RetriesIff | packages/tapps-core/src/tapps_core/brain_bridge_inprocess_core.py:154-172 | a failed post is tried again exactly if an attempt is left and the circuit is not open at the recheck |
| Alone.LoneCallIsTheCall | packages/tapps-core/src/tapps_core/brain_bridge_inprocess_core.py:145-172 | a call that runs alone in the machine does what the sequential retry loop does, its write offered to the queue if it meets an open circuit, and a save that returns starts a drain of what is queued |
| Alone.LoneDrainIsTheDrain | packages/tapps-core/src/tapps_core/brain_bridge_inprocess_core.py:196-211 | a drain that runs alone in the machine ends with the breaker and the queue of the sequential drain, the same entries applied and lost in the same order |
| BridgeMachine.SingleFlight | packages/tapps-core/src/tapps_core/brain_bridge_inprocess_core.py:197-200 | in every reachable state at most one drain task is live, and the bridge remembers it |
| OpenCircuit.OpenStaysOpen | packages/tapps-core/src/tapps_core/brain_bridge_inprocess_core.py:85-94 | in every interleaving an opened circuit stays open until the clock reads 30 s past its stamp |
| OpenCircuit.BreakerFollows | packages/tapps-core/src/tapps_core/brain_bridge_inprocess_core.py:85-94 | every step of the machine leaves the breaker as the outcome it records and a reading of the circuit at its end leave it |
| OpenCircuit.FirstPostFindsClosed | packages/tapps-core/src/tapps_core/brain_bridge_http_session.py:136-142 | a post that goes on the wire straight from its check finds no opening time; every other one is a retry waking up, or has waited for the lock of the patched class |
| OpenCircuit.PostsWhileOpenIff | packages/tapps-core/src/tapps_core/brain_bridge_fleet_rpc.py:60-70 | a step puts a post on the wire while the circuit is open if and only if it is a retry waking up, or a post getting the lock it waited for, less than 30 s past the stamp |
| OpenCircuit.RetryPostsIntoOpenCircuit | packages/tapps-core/src/tapps_core/brain_bridge_http_session.py:140-163 | a run of three overlapping calls on the stock class in which a retry posts into the open circuit |
| OpenCircuit.FirstPostIntoOpenCircuit | packages/tapps-core/src/tapps_core/brain_bridge_fleet_rpc.py:64-70 | a run of four overlapping calls on the patched class in which the last one makes its first attempt into the open circuit |
| PostLock.OnePostOnTheWire | packages/tapps-core/src/tapps_core/brain_bridge_fleet_rpc.py:60-70 | however clients, drains and cancels interleave: once the class is patched with no post out, at most one post is on the wire at any time, and it holds the lock |
| PostLock.NobodyIsStuck | packages/tapps-core/src/tapps_core/brain_bridge_fleet_rpc.py:60-70 | every task of a sound state can go on, or waits for a lock whose holder is at its post |
| BridgeMachine.RefusedWriteChangesNothing | packages/tapps-core/src/tapps_core/brain_bridge_http_kg_hive.py:495-505 | a write that meets a full queue changes neither queue nor accounts |
| BridgeMachine.SavedMeansDraining | packages/tapps-core/src/tapps_core/brain_bridge_http_kg_hive.py:510-513 | after a save, queued writes have a live drain task unless the circuit is open |
| Fifo.AppliedInOrderIff | packages/tapps-core/src/tapps_core/brain_bridge_inprocess_core.py:196-232 | over every run: writes are applied in the order of acceptance if and only if no replay that landed had been overtaken in flight by a write the shutdown drain saved |
| Fifo.OvertakingReorders | packages/tapps-core/src/tapps_core/brain_bridge_http_health.py:385-427 | whenever a replay is at its post and the shutdown drain saves anything, the reply makes the order wrong |
| FleetRpc.WrappedAtMostOnce | packages/tapps-core/src/tapps_core/brain_bridge_fleet_rpc.py:25-51 | for every history of applications and flag resets each method is wrapped at most once |
| FleetRpc.BothWrappedOnceApplied | packages/tapps-core/src/tapps_core/brain_bridge_fleet_rpc.py:40-51 | from the first application on both methods are wrapped once, before it neither is; the flag is up exactly if it was not reset since an application |
| FleetRpc.NoDeadlock | packages/tapps-core/src/tapps_core/brain_bridge_fleet_rpc.py:60-70 | in every reachable state each waiting call can go on or waits for one that can |
| FleetRpc.FlagAloneWrapsTwice | packages/tapps-core/src/tapps_core/brain_bridge_fleet_rpc.py:35-38 | with the flag alone one reset wraps twice |
| FleetRpc.TwiceWrappedCallBlocks | packages/tapps-core/src/tapps_core/brain_bridge_fleet_rpc.py:28-33 | a call of a twice-wrapped method takes its lock and then waits for it |
| FleetRpc.SelfBlockedForEver | packages/tapps-core/src/tapps_core/brain_bridge_fleet_rpc.py:28-33 | and nothing but a cancel ever lets it go on |
| FleetRpc.PostsAreSerialIff | packages/tapps-core/src/tapps_core/brain_bridge_fleet_rpc.py:53-70 | from every reachable state: all continuations keep one post per bridge and own replies if and only if the class is patched and every outstanding post holds its lock and its own request |
| FleetRpc.PatchingSerialisesIff | packages/tapps-core/src/tapps_core/brain_bridge_fleet_rpc.py:106-110 | the application that wraps the method achieves that if and only if no call is outstanding |
| FleetRpc.UnpatchedCallsSwap | packages/tapps-core/src/tapps_core/brain_bridge_fleet_rpc.py:64-66 | unpatched, two calls can be given each other's replies |
| BumpVersions.TargetExceeds | scripts/bump_versions.py:279-307 | a bump's target is above every package's version in the order of SemVer 2.0.0, section 11.2; a sync's is one of them |
| BumpVersions.TargetIsLeast | scripts/bump_versions.py:95-103 | from the highest version a major target is the least with a greater major number, a minor target the least with that major and a greater minor number, a patch target the least above it; a sync keeps it |
| BumpVersions.CollectDrift | scripts/bump_versions.py:188-259 | no finding exactly if every stamp, version, manifest and pin is at the target and no hook is a phantom; raises exactly if a version cannot be read |
| BumpVersions.RunCheck | scripts/bump_versions.py:262-276 | succeeds exactly if all is in sync with the version of the main pyproject |
| BumpVersions.RewriteFile | scripts/bump_versions.py:316-346 | version and pins are rewritten in one content, flagged changed exactly if it differs |
| BumpVersions.CollectBumpChanges | scripts/bump_versions.py:296-396 | the loops collect the changes of the specified bump, in order, or its first error |
| BumpVersions.PinsReplaced | scripts/bump_versions.py:332-343 | all named pins end at the target and nothing else moves |
| BumpVersions.PyprojectRewritten | scripts/bump_versions.py:316-343 | the rewritten file reads as the target if the replacement struck the version that is read, and else as before |
| BumpThenCheck.BumpWrites | scripts/bump_versions.py:310-379 | every tracked file ends up rewritten from its original content: no change clobbers another |
| BumpThenCheck.BumpGoesThroughIff | scripts/bump_versions.py:296-396 | a bump goes through if and only if every existing package has a version of three numbers, a literal to strike unless it is at the target, its pins and its npm version, and the manifest is clean if the main pyproject exists |
| BumpThenCheck.BumpEstablishesCheckIff | scripts/bump_versions.py:262-276 | a bump goes through and the check then passes if and only if the tree was ready: versions, pins and npm versions readable, main pyproject and stamps present, manifest clean, and every replacement striking the version that is read |
| BumpThenCheck.SyncAfterBumpIsIdle | scripts/bump_versions.py:301-304 | after a bump of a ready tree `--sync` goes through and changes no content |
| BumpThenCheck.OwnWorkspaceIsApart | scripts/bump_versions.py:27-76 | the script's own tables meet the assumptions on paths |
| BumpThenCheck.EarlierLiteralIsStruck | scripts/bump_versions.py:320 | a tree that is not bumpable: an earlier literal of the same version is replaced instead |
| EvalDiff.Score | scripts/eval-descriptions/run.py:128-136 | never an error; exact, no tool and the lenient pass each exactly when the choice says so |
| EvalDiff.BuildSummary | scripts/eval-descriptions/run.py:552-579 | the accuracies, and counts per verdict that add up to the total |
| EvalDiff.CountsAre | scripts/eval-descriptions/run.py:552-579 | the counts are those of the verdicts as a multiset; exact and acceptable ones pass |
| EvalDiff.PartitionScenarios | scripts/eval-descriptions/compare.py:183-215 | the four lists are the common scenarios by how their verdict moved, in order |
| EvalDiff.BucketsPartition | scripts/eval-descriptions/compare.py:186-215 | every common scenario is in exactly one list, once |
| EvalDiff.LenientDeltaIsNetMoves | scripts/eval-descriptions/compare.py:233-244 | over the same scenarios the lenient accuracy delta times their number is improvements less regressions |
| EvalDiff.EveryRowIsFiled | scripts/eval-descriptions/report.py:183-230 | each row is either signal or noise, and signal exactly if it ran on both sides |
| EvalDiff.AdjustedDeltaIsNetSignal | scripts/eval-descriptions/report.py:120-154 | the noise-adjusted delta times its size is true improvements less true regressions |
| EvalDiff.AdjustedShownIff | scripts/eval-descriptions/report.py:123-137 | exactly when the noise-adjusted headline is shown |
| DiffNetting.CountRegistrations | scripts/tool_budget_lint.py:114-130 | the loop counts the matching lines under the package-source headers |
| DiffNetting.CheckNewRegistrations | scripts/tool_budget_lint.py:143-191 | passes exactly on a bypass, no net addition, or a touched budget document |
| DiffNetting.RegistrationIff | scripts/tool_budget_lint.py:26-34 | a text registers a tool exactly if it is anything, `@mcp.tool` or a `register_tool` that does not continue a word, white space, a parenthesis and anything |
| DiffNetting.SlipsIff | scripts/tool_budget_lint.py:26-34 | a changed registration escapes the pattern of its sign if and only if its text begins with that sign or its only call is in the first column |
| DiffNetting.FiledByLastHeader | scripts/tool_budget_lint.py:121-130 | a line is filed under the last added line before it that reads as a header, and otherwise under its section |
| DiffNetting.NettingAccounts | scripts/tool_budget_lint.py:114-140 | for every edit script and sign: what the scan counts, with what is filed elsewhere or escapes for these causes, is the number of changed registrations in package source |
| DiffNetting.NettingExactIff | scripts/tool_budget_lint.py:143-152 | the net count is the change in registrations if and only if as many of the added as of the removed are filed elsewhere, begin with the sign or only call in the first column |
| DiffNetting.RefusedIffSourceGrew | scripts/tool_budget_lint.py:155-191 | refused exactly if the source gained more registrations than are missed on balance, untold and without bypass |
| DiffNetting.PlainScriptMissesNothing | scripts/tool_budget_lint.py:143-152 | nothing is missed where sections name their file and registrations stand past the first character |
| DiffNetting.FirstColumnSlipsPast | scripts/tool_budget_lint.py:26-34 | a registration in the first column is looked past: the source grows and the check passes |
| DiffNetting.DirectDecoratorIsSuch | scripts/tool_budget_lint.py:26-29 | a direct decorator at module level is such a text |
| DiffNetting.MoveOutOfDeletedFileIsRefused | scripts/tool_budget_lint.py:121-130 | a registration moved out of a deleted file that comes first is refused as new, though the source has not grown |
| EnvelopeTree.WalkIff | scripts/response_envelope_lint.py:129-168 | a walk visits the nodes it starts from and those below them, part by part, and no others |
| EnvelopeNames.OptionalDictIff | scripts/response_envelope_lint.py:104-126 | the annotations that count: `dict[...]` or `Dict[...]` beside `None` in either order, or within `Optional` |
| EnvelopeNames.CollectBestEffortFields | scripts/response_envelope_lint.py:129-140 | a field is collected exactly if some class below the module declares it as an optional dict |
| EnvelopeNames.TokensInConditions | scripts/response_envelope_lint.py:158-168 | a name is collected exactly if a name or attribute spelled so lies below some condition below the function |
| EnvelopeLint.KnownFieldsIff | scripts/response_envelope_lint.py:304-324 | a field is known exactly if some class of some file that parses declares it as an optional dict |
| EnvelopePayload.PayloadResolvesIff | scripts/response_envelope_lint.py:171-186 | a payload resolves exactly if it is a dict literal or a name some assignment below the function binds to one, and then to the one bound on the deepest level, rightmost there |
| EnvelopePayload.NestedBindingWins | scripts/response_envelope_lint.py:178-185 | so a binding below a condition beats a later one beside it |
| EnvelopePayload.PayloadOfIff | scripts/response_envelope_lint.py:229-256 | from the shape of a call alone: it has a payload exactly if it calls `success_response` without `degraded` and what it passes, the first `data` keyword or else the third argument, stands for a dict literal, and that is the payload |
| EnvelopeLint.ReasonIff | scripts/response_envelope_lint.py:189-197 | the reason of a mark is what follows the first mark on its line, stripped |
| EnvelopeLint.CheckFunction | scripts/response_envelope_lint.py:258-289 | the findings of one function's response sites |
| EnvelopeLint.CheckSource | scripts/response_envelope_lint.py:200-226 | the findings of one module against its own and the known fields |
| EnvelopeLint.RunSweep | scripts/response_envelope_lint.py:301-329 | every file against the fields declared in any of them |
| EnvelopeFindings.SweepFindsIff | scripts/response_envelope_lint.py:8-31 | a finding exactly when, below some function of some file, the payload of an undegraded response call, as given by its shape, pairs a key with a name that some class of some file declares and no condition below the function mentions, on a line with no mark or one without a reason; and how it is worded |
| EnvelopeLint.SweepIgnoresOrder | scripts/response_envelope_lint.py:301-329 | the findings, as a multiset, do not depend on the order of the files |
| EnvelopeLint.SweepOnlyGrows | scripts/response_envelope_lint.py:304-306 | scanning more files loses no finding, not even one of a file scanned alone |
| SprintBoard.SortSorts | scripts/gen_sprint_board.py:51-59 | sorting by rank and id gives an ordered permutation |
| SprintBoard.KnownRanks | scripts/gen_sprint_board.py:51-59 | the four known priorities rank in their order, all others behind them |
| SprintBoard.GroupByParent | scripts/gen_sprint_board.py:93-107 | the sorted top level and, per parent, the sorted children |
| SprintBoard.ListedIff | scripts/gen_sprint_board.py:93-107 | an issue is listed under an id exactly if it names that id as parent and an issue has it, and at the top level exactly if no issue has the id it names |
| SprintBoard.GroupsPartition | scripts/gen_sprint_board.py:93-107 | the groups are sorted and hold every issue as often as the input, in one group |
| SprintBoard.RenderPrioritySections | scripts/gen_sprint_board.py:135-149 | the lines of the sections, a heading before each change of priority |
| SprintBoard.HeadingsAscend | scripts/gen_sprint_board.py:138-144 | below sorted issues the headings go up in rank: at most one per known priority, unknown ones last, each issue under its own |
| SprintBoard.ShownOnceIfReached | scripts/gen_sprint_board.py:140-147 | an issue is shown once if it is no child or its parent is none, and otherwise not at all |
| SprintBoard.CompleteIff | scripts/gen_sprint_board.py:135-149 | every issue is shown exactly once if and only if no child has children |
| BoardStamp.RenderIsCutAtDates | scripts/gen_sprint_board.py:152-157 | joining and stripping never reach into the header |
| BoardStamp.BoardStaysFresh | scripts/gen_sprint_board.py:160-172 | boards of the same issues on any two dates are fresh to each other |
| BoardFreshness.FreshIff | scripts/gen_sprint_board.py:160-172 | boards of issues whose texts hold neither the date mark nor a line break are fresh to each other, on any dates, if and only if their counts and the lines of their sections are the same |
| BoardStamp.CountIs | scripts/gen_sprint_board.py:80-84 | a priority is counted as often as issues have it |
| BoardStamp.IsoRoundTrip | scripts/gen_sprint_board.py:175-185 | a date is recovered from its ISO text |
| BoardStamp.StampIsRenderedDate | scripts/gen_sprint_board.py:175-185 | the first stamp of a board is the date it was rendered for |
| SafeSlug.UncappedIsNormal | packages/docs-mcp/src/docs_mcp/server_helpers.py:23-35 | only letters, digits and single inner dashes, with every letter and digit of the text in order |
| SafeSlug.SlugIsWords | packages/docs-mcp/src/docs_mcp/server_helpers.py:23-35 | the slug is the runs of letters and digits of the lower-cased text with one dash between each two |
| SafeSlug.CappedIsNormal | packages/docs-mcp/src/docs_mcp/server_helpers.py:36-38 | with a cap: the longest prefix that fits, less the one dash it may end in |
| SafeSlug.FixedIffNormal | packages/docs-mcp/src/docs_mcp/server_helpers.py:23-38 | the texts that are their own slug are those in normal form within the cap |
| SafeSlug.SlugIsIdempotent | packages/docs-mcp/src/docs_mcp/server_helpers.py:23-38 | slugging twice is slugging once, also when the cap cuts at a dash |
| TokenFloor.TokensIsNearest | scripts/context_floor_core.py:36-38 | no whole number is nearer to a quarter of the bytes, ties go to the even one |
| TokenFloor.CountBundles | scripts/context_floor_server.py:56-63 | the number of entries per command as a multiset, and only commands that occur |
| TokenFloor.MeasureServerInstructions | scripts/context_floor_server.py:100-123 | each text's tokens times the bundles launching its module |
| TokenFloor.MeasureBucket | scripts/context_floor_report.py:35-42 | a failure becomes an entry and no value |
| TokenFloor.FloorIsWithinRounding | scripts/context_floor_report.py:104-136 | four times the floor is within two bytes of the total per rounding, server texts weighted by their sendings |
| TokenFloor.BuildReport | scripts/context_floor_report.py:89-136 | the floor is a number exactly if no bucket failed; a failed bucket leaves the others as measured |
| TokenFloor.BoundIsReached | scripts/context_floor_report.py:29-32 | the bound cannot be improved, whatever the bundles |

## Left out

- HTTP, sockets, signal handling, logging and metrics: only outcomes and the clock of a post or call remain. `_http_mcp_call` is modelled with `_call`, whose steps it repeats; `brain_bridge_inprocess_ops` is not part of this model.
- The session handshake and its lock: they belong to the post they precede, which is on the wire from there on.
- BridgeMachine.Next: whoever waits may get the lock next, where asyncio hands it over in order; statements over all runs hold of the fewer real ones.
- LineFills.ReportSurvivesQuietFilling: a fill that empties a line between a carriage return and a line feed makes the filled text a line shorter; `NonInterference.ReportSurvivesFilling` covers it.
- `_maybe_start_drain` without a running event loop: every task of the machine runs on one.
- `hive_propagate`, `health_check`, `status` and the version probe: counters and result building around the same calls.
- The two shutdown drains: that of the base class and that of the HTTP class differ only in what counts as saved, so one event with an arbitrary outcome per entry stands for both; which project a queued save belongs to is not modelled.
- FleetRpc.PostsAreSerialIff: a cancelled post is taken to be closed on the transport as well, so a late reply to it reaches nobody.
- BodyResolver.ResolutionSound: valuations cover nodes whose value is a string, formatted parts included; an expression that raises has no value.
- PyText.Lower: ASCII only, which is exact for the comparison with `true`.
- The domain-skill call, asset files and the discovery of sibling modules: thin readers around the modelled parser.
- SkillDict.ResolveDictLiteral: the set of files enters as a sequence in some iteration order.
- The Python parser, the regular-expression engine, JSON, YAML, globbing and git: parsed trees, classified stretches of a file and lists of lines are inputs.
- BumpVersions.CollectBumpChanges: file contents are sequences of the stretches the patterns tell apart; overlapping stretches and the JSON layout of npm manifests are not modelled.
- DiffNetting.CountRegistrations: lines are taken as already split; word characters in the patterns are ASCII.
- EvalDiff.PartitionScenarios: the sorted list of ids is a parameter. Markdown, per-category tables and the stable-failure table are left out.
- EnvelopeLint.RunSweep: syntax the lint never looks at is one kind of node, generators of comprehensions are not nodes of their own, and unreadable files are dropped before the sweep.
- SprintBoard: headings of priorities outside the four known ones may repeat; nothing is claimed on titles that themselves contain the date mark, which the freshness comparison drops.
- SafeSlug.Slug: starts from the ASCII text that normalisation leaves.
- TokenFloor.Tokens: exact halves; byte counts beyond the 53 bits a float holds exactly are not modelled.
- `safe_slug`'s neighbours, the document handlers, generators, validators and command-line wrappers: no property worth proving.
