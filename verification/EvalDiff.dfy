/** `scripts/eval-descriptions`: the accuracies of two evaluation runs, the buckets
    scenarios are sorted into, and what the two must say of each other. */
module EvalDiff {
  import opened Wrappers

  datatype Verdict = Exact | Acceptable | Wrong | NoTool | Error

  datatype Outcome = Outcome(id: string, expected: string, actual: Option<string>, verdict: Verdict)

  type Runs = seq<Outcome>
  type Table = map<string, Outcome>

  // ----- One run -----------------------------------------------------------------

  /** The lenient reading; `error` is not a pass. */
  predicate Passes(v: Verdict) {
    v == Exact || v == Acceptable
  }

  function Score(expected: string, alternatives: seq<string>, actual: Option<string>): (v: Verdict)
    ensures v != Error
    ensures v == Exact <==> actual == Some(expected)
    ensures v == NoTool <==> actual.None?
    ensures Passes(v) <==> actual.Some? && actual.value in [expected] + alternatives
  {
    if actual.None? then NoTool
    else if actual.value == expected then Exact
    else if actual.value in alternatives then Acceptable
    else Wrong
  }

  function Passed(results: Runs): (n: nat) {
    if results == [] then 0
    else (if Passes(results[|results| - 1].verdict) then 1 else 0) + Passed(results[..|results| - 1])
  }

  function Having(results: Runs, v: Verdict): (n: nat) {
    if results == [] then 0
    else (if results[|results| - 1].verdict == v then 1 else 0) + Having(results[..|results| - 1], v)
  }

  function Verdicts(results: Runs): (vs: seq<Verdict>) {
    seq(|results|, i requires 0 <= i < |results| => results[i].verdict)
  }

  lemma {:induction false} CountsAre(results: Runs)
    ensures forall v :: Having(results, v) == multiset(Verdicts(results))[v]
    ensures Passed(results) == multiset(Verdicts(results))[Exact] + multiset(Verdicts(results))[Acceptable]
    decreases |results|
  {
    if results != [] {
      var front, last := results[..|results| - 1], results[|results| - 1];
      CountsAre(front);
      assert Verdicts(results) == Verdicts(front) + [last.verdict];
    }
  }

  function Rate(count: nat, total: nat): real {
    count as real / (if total == 0 then 1 else total) as real
  }

  function Lenient(results: Runs): real {
    Rate(Passed(results), |results|)
  }

  datatype Summary = Summary(total: nat, byVerdict: map<Verdict, nat>, strict: real, lenient: real)

  /** `build_summary`: every verdict is listed, with its number of occurrences. */
  method BuildSummary(results: Runs) returns (s: Summary)
    ensures s.total == |results| && s.lenient == Lenient(results) && s.strict == Rate(Having(results, Exact), |results|)
    ensures forall v: Verdict :: v in s.byVerdict && s.byVerdict[v] == Having(results, v)
    ensures s.byVerdict[Exact] + s.byVerdict[Acceptable] + s.byVerdict[Wrong] + s.byVerdict[NoTool]
        + s.byVerdict[Error] == s.total
  {
    var counts: map<Verdict, nat> := map[Exact := 0, Acceptable := 0, Wrong := 0, NoTool := 0, Error := 0];
    var strict, lenient: nat := 0, 0;
    forall v: Verdict ensures v in counts && counts[v] == Having(results[..0], v) {
      match v case Exact => case Acceptable => case Wrong => case NoTool => case Error =>
    }
    for i := 0 to |results|
      invariant forall v: Verdict :: v in counts && counts[v] == Having(results[..i], v)
      invariant counts[Exact] + counts[Acceptable] + counts[Wrong] + counts[NoTool] + counts[Error] == i
      invariant strict == Having(results[..i], Exact) && lenient == Passed(results[..i])
    {
      var v := results[i].verdict;
      assert results[..i + 1][..i] == results[..i];
      counts := counts[v := counts[v] + 1];
      if v == Exact {
        strict := strict + 1;
      }
      if Passes(v) {
        lenient := lenient + 1;
      }
    }
    assert results[..|results|] == results;
    return Summary(|results|, counts, Rate(strict, |results|), Rate(lenient, |results|));
  }

  // ----- Two runs ------------------------------------------------------------------

  /** Results by scenario id; a repeated id keeps its last result. */
  function ById(results: Runs): (t: Table) {
    if results == [] then map[]
    else ById(results[..|results| - 1])[results[|results| - 1].id := results[|results| - 1]]
  }

  datatype Move = Regressed | Improved | StableCorrect | StableWrong | OneSided

  function MoveOf(b: Table, h: Table, id: string): (m: Move) {
    if id !in b || id !in h then OneSided
    else
      match (Passes(b[id].verdict), Passes(h[id].verdict))
      case (true, false) => Regressed
      case (false, true) => Improved
      case (true, true) => StableCorrect
      case (false, false) => StableWrong
  }

  datatype Row = Row(id: string, base: Outcome, head: Outcome)

  datatype Parts = Parts(regressions: seq<Row>, improvements: seq<Row>, correct: seq<string>, wrong: seq<string>)

  function Select(b: Table, h: Table, ids: seq<string>, m: Move): (r: seq<string>) {
    if ids == [] then []
    else Select(b, h, ids[..|ids| - 1], m) + if MoveOf(b, h, ids[|ids| - 1]) == m then [ids[|ids| - 1]] else []
  }

  predicate RowsAre(b: Table, h: Table, rows: seq<Row>, ids: seq<string>) {
    |rows| == |ids| && forall i | 0 <= i < |rows| ::
      ids[i] in b && ids[i] in h && rows[i] == Row(ids[i], b[ids[i]], h[ids[i]])
  }

  lemma SelectNext(b: Table, h: Table, ids: seq<string>, i: nat, m: Move)
    requires i < |ids|
    ensures Select(b, h, ids[..i + 1], m) ==
              Select(b, h, ids[..i], m) + if MoveOf(b, h, ids[i]) == m then [ids[i]] else []
  {
    assert ids[..i + 1][..i] == ids[..i];
  }

  lemma NoRows(b: Table, h: Table, m: Move)
    ensures Select(b, h, [], m) == [] && RowsAre(b, h, [], [])
  {
  }

  lemma OneMoreRow(b: Table, h: Table, rows: seq<Row>, ids: seq<string>, id: string)
    requires RowsAre(b, h, rows, ids) && id in b && id in h
    ensures RowsAre(b, h, rows + [Row(id, b[id], h[id])], ids + [id])
  {
  }

  /** `_partition_scenarios`, over the ids in sorted order. */
  method PartitionScenarios(b: Table, h: Table, ids: seq<string>) returns (p: Parts)
    ensures RowsAre(b, h, p.regressions, Select(b, h, ids, Regressed))
    ensures RowsAre(b, h, p.improvements, Select(b, h, ids, Improved))
    ensures p.correct == Select(b, h, ids, StableCorrect) && p.wrong == Select(b, h, ids, StableWrong)
  {
    p := Parts([], [], [], []);
    assert ids[..0] == [] && ids[..|ids|] == ids;
    forall m: Move ensures Select(b, h, [], m) == [] && RowsAre(b, h, [], []) {
      NoRows(b, h, m);
    }
    hide Passes, Select, RowsAre;
    for i := 0 to |ids|
      invariant RowsAre(b, h, p.regressions, Select(b, h, ids[..i], Regressed))
      invariant RowsAre(b, h, p.improvements, Select(b, h, ids[..i], Improved))
      invariant p.correct == Select(b, h, ids[..i], StableCorrect) && p.wrong == Select(b, h, ids[..i], StableWrong)
    {
      var id := ids[i];
      SelectNext(b, h, ids, i, Regressed);
      SelectNext(b, h, ids, i, Improved);
      SelectNext(b, h, ids, i, StableCorrect);
      SelectNext(b, h, ids, i, StableWrong);
      if id !in b || id !in h {
        continue;
      }
      var bPass, hPass := Passes(b[id].verdict), Passes(h[id].verdict);
      if bPass && !hPass {
        OneMoreRow(b, h, p.regressions, Select(b, h, ids[..i], Regressed), id);
        p := p.(regressions := p.regressions + [Row(id, b[id], h[id])]);
      } else if hPass && !bPass {
        OneMoreRow(b, h, p.improvements, Select(b, h, ids[..i], Improved), id);
        p := p.(improvements := p.improvements + [Row(id, b[id], h[id])]);
      } else if bPass {
        p := p.(correct := p.correct + [id]);
      } else {
        p := p.(wrong := p.wrong + [id]);
      }
    }
  }

  // ----- The buckets partition the common scenarios --------------------------------------

  ghost predicate Distinct(s: seq<string>) {
    forall i, j | 0 <= i < j < |s| :: s[i] != s[j]
  }

  /** The ids as `sorted` lists them: each once, and all of both runs. */
  ghost predicate Lists(ids: seq<string>, b: Table, h: Table) {
    Distinct(ids) && forall id :: id in ids <==> id in b || id in h
  }

  lemma {:induction false} DistinctSize(s: seq<string>, members: set<string>)
    requires Distinct(s) && forall id :: id in s <==> id in members
    ensures |s| == |members|
    decreases |s|
  {
    if s == [] {
      assert members == {};
    } else {
      var front, last := s[..|s| - 1], s[|s| - 1];
      assert s == front + [last];
      DistinctSize(front, members - {last});
    }
  }

  function Bucket(b: Table, h: Table, m: Move): (s: set<string>) {
    set id | id in b.Keys && id in h.Keys && MoveOf(b, h, id) == m
  }

  lemma {:induction false} SelectMembers(b: Table, h: Table, ids: seq<string>, m: Move)
    requires Distinct(ids)
    ensures forall id :: id in Select(b, h, ids, m) <==> id in ids && MoveOf(b, h, id) == m
    ensures Distinct(Select(b, h, ids, m))
    decreases |ids|
  {
    hide MoveOf;
    if ids != [] {
      var front, last := ids[..|ids| - 1], ids[|ids| - 1];
      SelectMembers(b, h, front, m);
      assert ids == front + [last];
      assert Select(b, h, ids, m) == Select(b, h, front, m) + if MoveOf(b, h, last) == m then [last] else [];
    }
  }

  lemma SelectIsBucket(b: Table, h: Table, ids: seq<string>, m: Move)
    requires Lists(ids, b, h) && m != OneSided
    ensures forall id :: id in Select(b, h, ids, m) <==> id in Bucket(b, h, m)
    ensures |Select(b, h, ids, m)| == |Bucket(b, h, m)|
  {
    SelectMembers(b, h, ids, m);
    DistinctSize(Select(b, h, ids, m), Bucket(b, h, m));
  }

  lemma SizesAdd(s: set<string>, t: set<string>, whole: set<string>)
    requires s !! t && whole == s + t
    ensures |whole| == |s| + |t|
  {
  }

  function Within(b: Table, h: Table, moves: set<Move>): (s: set<string>) {
    set id | id in b.Keys && id in h.Keys && MoveOf(b, h, id) in moves
  }

  lemma WithinGrows(b: Table, h: Table, moves: set<Move>, m: Move)
    requires m !in moves
    ensures |Within(b, h, moves + {m})| == |Within(b, h, moves)| + |Bucket(b, h, m)|
  {
    hide MoveOf;
    SizesAdd(Within(b, h, moves), Bucket(b, h, m), Within(b, h, moves + {m}));
  }

  lemma BucketSizes(b: Table, h: Table)
    ensures |Bucket(b, h, Regressed)| + |Bucket(b, h, Improved)| + |Bucket(b, h, StableCorrect)|
            + |Bucket(b, h, StableWrong)| == |b.Keys * h.Keys|
  {
    assert Within(b, h, {Regressed, Improved, StableCorrect, StableWrong}) == b.Keys * h.Keys;
    assert Within(b, h, {}) == {};
    hide *;
    WithinGrows(b, h, {}, Regressed);
    WithinGrows(b, h, {Regressed}, Improved);
    WithinGrows(b, h, {Regressed, Improved}, StableCorrect);
    WithinGrows(b, h, {Regressed, Improved, StableCorrect}, StableWrong);
    assert {} + {Regressed} == {Regressed};
    assert {Regressed} + {Improved} == {Regressed, Improved};
    assert {Regressed, Improved} + {StableCorrect} == {Regressed, Improved, StableCorrect};
    assert {Regressed, Improved, StableCorrect} + {StableWrong} == {Regressed, Improved, StableCorrect, StableWrong};
  }

  /** Every scenario of both runs is in exactly one bucket, once. */
  lemma BucketsPartition(b: Table, h: Table, ids: seq<string>)
    requires Lists(ids, b, h)
    ensures forall m: Move, id | m != OneSided ::
              id in Select(b, h, ids, m) <==> id in b && id in h && MoveOf(b, h, id) == m
    ensures forall m: Move | m != OneSided :: Distinct(Select(b, h, ids, m))
    ensures |Select(b, h, ids, Regressed)| + |Select(b, h, ids, Improved)| + |Select(b, h, ids, StableCorrect)|
            + |Select(b, h, ids, StableWrong)| == |b.Keys * h.Keys|
  {
    hide Select, MoveOf;
    forall m: Move | m != OneSided
      ensures Distinct(Select(b, h, ids, m)) && |Select(b, h, ids, m)| == |Bucket(b, h, m)|
      ensures forall id :: id in Select(b, h, ids, m) <==> id in b && id in h && MoveOf(b, h, id) == m
    {
      SelectMembers(b, h, ids, m);
      SelectIsBucket(b, h, ids, m);
    }
    BucketSizes(b, h);
  }

  // ----- Accuracy and buckets agree ---------------------------------------------------------

  function Passing(t: Table, over: set<string>): (s: set<string>)
    requires over <= t.Keys
  {
    set id | id in over && Passes(t[id].verdict)
  }

  ghost predicate DistinctIds(results: Runs) {
    forall i, j | 0 <= i < j < |results| :: results[i].id != results[j].id
  }

  lemma {:induction false} IdsAreThere(results: Runs, id: string)
    ensures id in ById(results) <==> exists i | 0 <= i < |results| :: results[i].id == id
  {
    if results != [] {
      var front, last := results[..|results| - 1], results[|results| - 1];
      IdsAreThere(front, id);
      if i :| 0 <= i < |results| && results[i].id == id {
        assert i < |front| ==> front[i].id == id;
      }
    }
  }

  lemma OneMore(t: Table, r: Outcome)
    requires r.id !in t
    ensures var u := t[r.id := r];
      |u.Keys| == |t.Keys| + 1 && |Passing(u, u.Keys)| == |Passing(t, t.Keys)| + if Passes(r.verdict) then 1 else 0
  {
    hide Passes;
    var u := t[r.id := r];
    SizesAdd(t.Keys, {r.id}, u.Keys);
    SizesAdd(Passing(t, t.Keys), if Passes(r.verdict) then {r.id} else {}, Passing(u, u.Keys));
  }

  lemma {:induction false} PassedIsPassing(results: Runs)
    requires DistinctIds(results)
    ensures Passed(results) == |Passing(ById(results), ById(results).Keys)| && |ById(results).Keys| == |results|
  {
    hide Passing;
    if results == [] {
      NothingPasses(ById(results));
    } else {
      var front, last := results[..|results| - 1], results[|results| - 1];
      PassedIsPassing(front);
      IdsAreThere(front, last.id);
      OneMore(ById(front), last);
    }
  }

  lemma NothingPasses(t: Table)
    requires t == map[]
    ensures t.Keys == {} && Passing(t, t.Keys) == {}
  {
  }

  /** Passing at the head less passing at the baseline is improvements less regressions,
      over any of the common scenarios that contains or omits each bucket's ids together. */
  lemma MovesBalance(b: Table, h: Table, over: set<string>)
    requires over <= b.Keys && over <= h.Keys
    ensures |Passing(h, over)| + |Bucket(b, h, Regressed) * over| == |Passing(b, over)|
        + |Bucket(b, h, Improved) * over|
  {
    var kept := Bucket(b, h, StableCorrect) * over;
    assert Passing(h, over) == kept + (Bucket(b, h, Improved) * over);
    assert Passing(b, over) == kept + (Bucket(b, h, Regressed) * over);
  }

  /** For two runs over the same scenarios, the difference in lenient accuracy, times
      their number, is improvements less regressions. */
  lemma LenientDeltaIsNetMoves(base: Runs, head: Runs, ids: seq<string>)
    requires DistinctIds(base) && DistinctIds(head) && ById(base).Keys == ById(head).Keys
    requires Lists(ids, ById(base), ById(head))
    ensures var (b, h) := (ById(base), ById(head));
      |base| == |head| &&
      (Lenient(head) - Lenient(base)) * |head| as real
      == |Select(b, h, ids, Improved)| as real - |Select(b, h, ids, Regressed)| as real
  {
    hide Passing, Bucket, Select, Rate, Passed, ById;
    var b, h := ById(base), ById(head);
    PassedIsPassing(base);
    PassedIsPassing(head);
    MovesBalance(b, h, b.Keys);
    SelectIsBucket(b, h, ids, Improved);
    SelectIsBucket(b, h, ids, Regressed);
    BucketIsCommon(b, h, Improved);
    BucketIsCommon(b, h, Regressed);
    RatesSubtract(Passed(head), Passed(base), |head|);
  }

  lemma BucketIsCommon(b: Table, h: Table, m: Move)
    ensures Bucket(b, h, m) * b.Keys == Bucket(b, h, m)
  {
  }

  lemma RatesSubtract(x: nat, y: nat, n: nat)
    requires n == 0 ==> x == y
    ensures (Rate(x, n) - Rate(y, n)) * n as real == x as real - y as real
  {
    if n > 0 {
      var d := n as real;
      assert (x as real / d) * d == x as real && (y as real / d) * d == y as real;
    }
  }

  // ----- Noise ---------------------------------------------------------------------------------

  /** The scenarios that ran on both sides. */
  function CommonOk(b: Table, h: Table): (s: set<string>) {
    set id | id in b.Keys && id in h.Keys && b[id].verdict != Error && h[id].verdict != Error
  }

  predicate Signal(r: Row) {
    r.base.verdict != Error && r.head.verdict != Error
  }

  predicate ErrorIntroduced(r: Row) {
    r.base.verdict != Error && r.head.verdict == Error
  }

  predicate ErrorRecovered(r: Row) {
    r.base.verdict == Error && r.head.verdict != Error
  }

  function Signals(b: Table, h: Table, ids: seq<string>): (r: seq<string>) {
    if ids == [] then []
    else Signals(b, h, ids[..|ids| - 1]) + if ids[|ids| - 1] in CommonOk(b, h) then [ids[|ids| - 1]] else []
  }

  /** Each row the report is given lands under exactly one of its two headings. */
  lemma EveryRowIsFiled(b: Table, h: Table, rows: seq<Row>, ids: seq<string>, m: Move)
    requires m == Regressed || m == Improved
    requires RowsAre(b, h, rows, Select(b, h, ids, m))
    ensures forall i | 0 <= i < |rows| ::
              && (Signal(rows[i]) <==> !(if m == Regressed then ErrorIntroduced(rows[i]) else ErrorRecovered(rows[i])))
              && (Signal(rows[i]) <==> rows[i].id in CommonOk(b, h))
  {
    SelectMoves(b, h, ids, m);
  }

  lemma {:induction false} SelectMoves(b: Table, h: Table, ids: seq<string>, m: Move)
    ensures forall i | 0 <= i < |Select(b, h, ids, m)| :: MoveOf(b, h, Select(b, h, ids, m)[i]) == m
    decreases |ids|
  {
    if ids != [] {
      SelectMoves(b, h, ids[..|ids| - 1], m);
    }
  }

  lemma {:induction false} SignalsMembers(b: Table, h: Table, ids: seq<string>)
    requires Distinct(ids)
    ensures forall id :: id in Signals(b, h, ids) <==> id in ids && id in CommonOk(b, h)
    ensures Distinct(Signals(b, h, ids))
    decreases |ids|
  {
    hide CommonOk;
    if ids != [] {
      var front, last := ids[..|ids| - 1], ids[|ids| - 1];
      SignalsMembers(b, h, front);
      assert ids == front + [last];
      assert Signals(b, h, ids) == Signals(b, h, front) + if last in CommonOk(b, h) then [last] else [];
    }
  }

  lemma SignalsSize(b: Table, h: Table, ids: seq<string>, m: Move)
    requires Lists(ids, b, h) && m != OneSided
    ensures |Signals(b, h, Select(b, h, ids, m))| == |Bucket(b, h, m) * CommonOk(b, h)|
  {
    hide Signals, Select, Bucket, CommonOk;
    var moved := Select(b, h, ids, m);
    SelectMembers(b, h, ids, m);
    SelectIsBucket(b, h, ids, m);
    SignalsMembers(b, h, moved);
    DistinctSize(Signals(b, h, moved), Bucket(b, h, m) * CommonOk(b, h));
  }

  /** The noise-adjusted delta, times the scenarios it is over, is true improvements
      less true regressions. */
  lemma AdjustedDeltaIsNetSignal(b: Table, h: Table, ids: seq<string>)
    requires Lists(ids, b, h)
    ensures var (ok, n) := (CommonOk(b, h), |CommonOk(b, h)|);
      (Rate(|Passing(h, ok)|, n) - Rate(|Passing(b, ok)|, n)) * n as real
      == |Signals(b, h, Select(b, h, ids, Improved))| as real - |Signals(b, h, Select(b, h, ids, Regressed))| as real
  {
    var ok := CommonOk(b, h);
    hide Signals, Select, Bucket, Rate;
    MovesBalance(b, h, ok);
    SignalsSize(b, h, ids, Improved);
    SignalsSize(b, h, ids, Regressed);
    if |ok| == 0 {
      assert Passing(h, ok) == {} && Passing(b, ok) == {};
    }
    hide *;
    RatesSubtract(|Passing(h, ok)|, |Passing(b, ok)|, |ok|);
  }

  /** Whether `_render_headline_noise_adjusted` returns any lines. */
  predicate ShowsAdjusted(b: Table, h: Table) {
    CommonOk(b, h) != {} && |CommonOk(b, h)| < |b|
  }

  /** It does exactly when something ran on both sides and some baseline scenario did
      not; for runs over the same scenarios, exactly when some of them errored. */
  lemma AdjustedShownIff(b: Table, h: Table)
    ensures ShowsAdjusted(b, h) <==> CommonOk(b, h) != {} && exists id | id in b :: id !in CommonOk(b, h)
    ensures b.Keys == h.Keys ==>
              (ShowsAdjusted(b, h) <==>
                CommonOk(b, h) != {} && exists id | id in b :: b[id].verdict == Error || h[id].verdict == Error)
  {
    var ok := CommonOk(b, h);
    assert |b| == |b.Keys|;
    var rest := b.Keys - ok;
    assert b.Keys == ok + rest && ok !! rest;
    if id :| id in b && id !in ok {
      assert id in rest;
    } else {
      assert rest == {};
    }
  }
}
