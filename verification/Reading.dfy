/** What a reported skill of `scripts/context_floor_skill_body.py` says, read off the
    frontmatter lines alone: which lines open a key, which of them decides, what value it
    has, and which bodies are accepted at all. Nothing here refers to the parser's tables. */
module Reading {
  import opened PyText
  import opened Frontmatter
  import opened FrontmatterLoops
  import opened Spans
  import opened Template
  import opened Wrappers

  // ----- Lines ----------------------------------------------------------------------------

  predicate AllSpace(s: string) {
    forall i | 0 <= i < |s| :: IsSpace(s[i])
  }

  /** The line opens the key: a token that does not begin like a continuation and holds no
      marker, a colon, and the rest. */
  ghost predicate KeyLine(line: string, key: string, rest: string) {
    exists token :: IsKeyToken(line, token, key, rest)
  }

  ghost predicate IsKeyToken(line: string, token: string, key: string, rest: string) {
    && line == token + ":" + rest && ':' !in token
    && token != "" && token[0] != ' ' && token[0] != '\t' && token[0] != '-'
    && !Contains(token, ELISION)
    && Trimmed(token, key, c => IsSpace(c))
  }

  lemma KeyLineIff(line: string, key: string, rest: string)
    ensures KeyLine(line, key, rest) <==>
              OpensKey(line) && KeyOf(line) == key && rest == line[IndexOf(line, ':') + 1..]
  {
    hide Trimmed, Trim, Contains;
    var i := IndexOf(line, ':');
    if OpensKey(line) && KeyOf(line) == key && rest == line[i + 1..] {
      TrimIff(line[..i], key, c => IsSpace(c));
      assert line == line[..i] + ":" + rest;
      assert IsKeyToken(line, line[..i], key, rest);
    }
    if token :| IsKeyToken(line, token, key, rest) {
      assert line[..|token|] == token && line[|token|] == ':';
      IndexOfUnique(line, ':', |token|);
      TrimIff(token, key, c => IsSpace(c));
      assert line[|token| + 1..] == rest;
    }
  }

  // ----- Values ---------------------------------------------------------------------------

  /** The line may continue a block scalar. */
  predicate Continues(line: string) {
    (|line| >= 2 && line[0] == ' ' && line[1] == ' ') || AllSpace(line)
  }

  lemma BlankIff(line: string)
    ensures Strip(line) == "" <==> AllSpace(line)
  {
    hide Trim;
    TrimIff(line, "", c => IsSpace(c));
    if AllSpace(line) {
      assert line == line + "" + "" && IsTrim(line, "", "", c => IsSpace(c));
    }
    if Trimmed(line, "", c => IsSpace(c)) {
      var a, b :| line == a + "" + b && IsTrim(a, "", b, c => IsSpace(c));
      assert line == a + b;
    }
  }

  lemma ContinuesIff(line: string)
    ensures Foldable(line) <==> Continues(line)
  {
    BlankIff(line);
    hide Strip;
    assert |line| >= 2 ==> ("  " <= line <==> line[..2] == "  ");
  }

  ghost predicate Rising(at: seq<nat>) {
    forall i, j | 0 <= i < j < |at| :: at[i] < at[j]
  }

  ghost predicate StripsTo(line: string, part: string) {
    Trimmed(line, part, c => IsSpace(c))
  }

  /** `parts` are the lines at `at`, stripped. */
  ghost predicate StrippedAt(lines: seq<string>, parts: seq<string>, at: seq<nat>) {
    && |at| == |parts|
    && forall k | 0 <= k < |at| ::
         at[k] < |lines| && !AllSpace(lines[at[k]]) && StripsTo(lines[at[k]], parts[k])
  }

  ghost predicate HasEveryText(lines: seq<string>, at: seq<nat>) {
    forall i | 0 <= i < |lines| && !AllSpace(lines[i]) :: i in at
  }

  /** `parts` are the lines that are not blank, stripped, in order. */
  ghost predicate PicksNonBlank(lines: seq<string>, parts: seq<string>, at: seq<nat>) {
    Rising(at) && StrippedAt(lines, parts, at) && HasEveryText(lines, at)
  }

  /** The block scalar below a key line, of `n` lines, comes to `value`. */
  ghost predicate Folds(below: seq<string>, n: nat, parts: seq<string>, at: seq<nat>, value: string) {
    && n <= |below| && (forall i | 0 <= i < n :: Continues(below[i])) && (n < |below| ==> !Continues(below[n]))
    && PicksNonBlank(below[..n], parts, at)
    && value == Join(" ", parts)
  }

  function Later(at: seq<nat>): (r: seq<nat>)
    ensures |r| == |at| && forall k | 0 <= k < |at| :: r[k] == at[k] + 1
  {
    if at == [] then [] else [at[0] + 1] + Later(at[1..])
  }

  lemma {:induction false} PartsArePicked(lines: seq<string>) returns (at: seq<nat>)
    ensures PicksNonBlank(lines[..FoldLength(lines)], FoldParts(lines), at)
    decreases |lines|
  {
    at := [];
    if lines != [] && Foldable(lines[0]) {
      var rest := PartsArePicked(lines[1..]);
      var n := FoldLength(lines);
      BlankIff(lines[0]);
      TrimIff(lines[0], Strip(lines[0]), c => IsSpace(c));
      assert StripsTo(lines[0], Strip(lines[0]));
      hide StripsTo, Trimmed, AllSpace, Foldable, Strip;
      assert lines[..n][1..] == lines[1..][..n - 1];
      if Strip(lines[0]) == "" {
        at := Later(rest);
        PickedBelowBlank(lines[..n], FoldParts(lines[1..]), rest);
      } else {
        at := [0] + Later(rest);
        PickedWithFirst(lines[..n], FoldParts(lines[1..]), rest, Strip(lines[0]));
      }
    }
  }

  lemma PickedBelowBlank(lines: seq<string>, parts: seq<string>, rest: seq<nat>)
    requires lines != [] && PicksNonBlank(lines[1..], parts, rest) && AllSpace(lines[0])
    ensures PicksNonBlank(lines, parts, Later(rest))
  {
    LaterHasText(lines, rest);
    assert HasEveryText(lines, Later(rest));
    hide AllSpace, HasEveryText, StrippedAt, Rising;
    RisingLater(rest);
    StrippedLater(lines, parts, rest);
  }

  lemma RisingLater(rest: seq<nat>)
    requires Rising(rest)
    ensures Rising(Later(rest))
  {
  }

  lemma StrippedLater(lines: seq<string>, parts: seq<string>, rest: seq<nat>)
    requires lines != [] && StrippedAt(lines[1..], parts, rest)
    ensures StrippedAt(lines, parts, Later(rest))
  {
    hide StripsTo, AllSpace;
    var at := Later(rest);
    forall k | 0 <= k < |at| ensures at[k] < |lines| && !AllSpace(lines[at[k]]) && StripsTo(lines[at[k]], parts[k]) {
      assert lines[at[k]] == lines[1..][rest[k]];
    }
  }

  lemma LaterHasText(lines: seq<string>, rest: seq<nat>)
    requires lines != [] && HasEveryText(lines[1..], rest)
    ensures forall i | 1 <= i < |lines| && !AllSpace(lines[i]) :: i in Later(rest)
  {
    hide AllSpace;
    forall i | 1 <= i < |lines| && !AllSpace(lines[i]) ensures i in Later(rest) {
      assert lines[1..][i - 1] == lines[i];
      var k :| 0 <= k < |rest| && rest[k] == i - 1;
      assert Later(rest)[k] == i;
    }
  }

  lemma PickedWithFirst(lines: seq<string>, parts: seq<string>, rest: seq<nat>, first: string)
    requires lines != [] && PicksNonBlank(lines[1..], parts, rest) && !AllSpace(lines[0])
    requires StripsTo(lines[0], first)
    ensures PicksNonBlank(lines, [first] + parts, [0] + Later(rest))
  {
    var at := [0] + Later(rest);
    assert HasEveryText(lines, at) by {
      LaterHasText(lines, rest);
      assert at[0] == 0;
      assert forall x | x in Later(rest) :: x in at;
    }
    hide HasEveryText, StrippedAt, Rising;
    RisingWithFirst(rest);
    StrippedWithFirst(lines, parts, rest, first);
  }

  lemma RisingWithFirst(rest: seq<nat>)
    requires Rising(rest)
    ensures Rising([0] + Later(rest))
  {
  }

  lemma StrippedWithFirst(lines: seq<string>, parts: seq<string>, rest: seq<nat>, first: string)
    requires lines != [] && StrippedAt(lines[1..], parts, rest) && !AllSpace(lines[0]) && StripsTo(lines[0], first)
    ensures StrippedAt(lines, [first] + parts, [0] + Later(rest))
  {
    hide StripsTo, AllSpace;
    var at := [0] + Later(rest);
    forall k | 0 <= k < |at|
      ensures at[k] < |lines| && !AllSpace(lines[at[k]]) && StripsTo(lines[at[k]], ([first] + parts)[k])
    {
      if k > 0 {
        assert at[k] == rest[k - 1] + 1 && lines[at[k]] == lines[1..][rest[k - 1]];
      }
    }
  }

  lemma FoldedFolds(below: seq<string>) returns (at: seq<nat>)
    ensures Folds(below, FoldLength(below), FoldParts(below), at, Folded(below))
  {
    at := PartsArePicked(below);
    forall i | 0 <= i <= FoldLength(below) && i < |below| ensures Foldable(below[i]) <==> Continues(below[i]) {
      ContinuesIff(below[i]);
    }
  }

  /** Picking leaves no choice. */
  lemma {:induction false} PickedOnce(lines: seq<string>, p: seq<string>, at: seq<nat>, q: seq<string>, bt: seq<nat>)
    requires PicksNonBlank(lines, p, at) && PicksNonBlank(lines, q, bt)
    ensures p == q
  {
    SameIndices(lines, p, at, q, bt);
    forall k | 0 <= k < |p| ensures p[k] == q[k] {
      TrimIff(lines[at[k]], p[k], c => IsSpace(c));
      TrimIff(lines[at[k]], q[k], c => IsSpace(c));
    }
  }

  lemma SameIndices(lines: seq<string>, p: seq<string>, at: seq<nat>, q: seq<string>, bt: seq<nat>)
    requires PicksNonBlank(lines, p, at) && PicksNonBlank(lines, q, bt)
    ensures at == bt
  {
    hide AllSpace, StripsTo;
    forall x | x in at ensures x in bt {
      assert x < |lines| && !AllSpace(lines[x]);
    }
    forall x | x in bt ensures x in at {
      assert x < |lines| && !AllSpace(lines[x]);
    }
    SortedOnce(at, bt);
  }

  lemma {:induction false} SortedOnce(a: seq<nat>, b: seq<nat>)
    requires (forall i, j | 0 <= i < j < |a| :: a[i] < a[j]) && (forall i, j | 0 <= i < j < |b| :: b[i] < b[j])
    requires forall x :: x in a <==> x in b
    ensures a == b
    decreases |a|
  {
    if a == [] {
      if b != [] {
        HasFirst(b);
      }
    } else if b == [] {
      HasFirst(a);
    } else {
      assert a[0] in b && b[0] in a;
      assert a[0] == b[0];
      forall x ensures x in a[1..] <==> x in b[1..] {
        assert x in a <==> x == a[0] || x in a[1..];
        assert x in b <==> x == b[0] || x in b[1..];
      }
      SortedOnce(a[1..], b[1..]);
      assert a == [a[0]] + a[1..] && b == [b[0]] + b[1..];
    }
  }

  lemma HasFirst(s: seq<nat>)
    requires s != []
    ensures exists x :: x in s
  {
    assert s[0] in s;
  }

  lemma {:induction false} FoldLengthIs(below: seq<string>, n: nat)
    requires n <= |below| && (forall i | 0 <= i < n :: Foldable(below[i])) && (n < |below| ==> !Foldable(below[n]))
    ensures FoldLength(below) == n
    decreases n
  {
    hide Foldable;
    if n > 0 {
      FoldLengthIs(below[1..], n - 1);
    }
  }

  /** What a key line whose rest is `rest` says, with `below` the lines below it. */
  ghost predicate Says(rest: string, below: seq<string>, value: string) {
    var remainder := Strip(rest);
    if remainder in {">-", ">", "|-", "|"} then exists n, parts, at :: Folds(below, n, parts, at, value)
    else Trimmed(remainder, value, c => c == '"')
  }

  lemma SaysIff(line: string, below: seq<string>, value: string)
    requires OpensKey(line)
    ensures Says(line[IndexOf(line, ':') + 1..], below, value) <==> ValueOf(line, below) == value
  {
    var remainder := Strip(line[IndexOf(line, ':') + 1..]);
    assert remainder in {">-", ">", "|-", "|"} <==> remainder in BLOCK_INDICATORS;
    TrimIff(remainder, value, c => c == '"');
    hide Trimmed, Strip, Trim, Foldable, PicksNonBlank, FoldParts, Join;
    if remainder in BLOCK_INDICATORS {
      var at := FoldedFolds(below);
      if n, parts, bt :| Folds(below, n, parts, bt, value) {
        FoldsOnce(below, n, parts, bt, value);
      }
    }
  }

  lemma FoldsOnce(below: seq<string>, n: nat, parts: seq<string>, at: seq<nat>, value: string)
    requires Folds(below, n, parts, at, value)
    ensures value == Folded(below)
  {
    var bt := FoldedFolds(below);
    hide Continues, PicksNonBlank, FoldParts, Join;
    forall i | 0 <= i <= n && i < |below| ensures Foldable(below[i]) <==> Continues(below[i]) {
      ContinuesIff(below[i]);
    }
    hide Foldable;
    FoldLengthIs(below, n);
    PickedOnce(below[..n], parts, at, FoldParts(below), bt);
  }

  // ----- Fields -----------------------------------------------------------------------------

  /** Line `i` is the last to open the key. */
  ghost predicate LastKeyLine(fm: seq<string>, key: string, i: nat, rest: string) {
    i < |fm| && KeyLine(fm[i], key, rest) && forall j, r | i < j < |fm| :: !KeyLine(fm[j], key, r)
  }

  lemma {:induction false} LastKeyLineExists(fm: seq<string>, key: string, i: nat) returns (last: nat, rest: string)
    requires i < |fm| && OpensKey(fm[i]) && KeyOf(fm[i]) == key
    ensures LastKeyLine(fm, key, last, rest)
    decreases |fm| - i
  {
    if j :| i < j < |fm| && OpensKey(fm[j]) && KeyOf(fm[j]) == key {
      last, rest := LastKeyLineExists(fm, key, j);
    } else {
      last, rest := i, fm[i][IndexOf(fm[i], ':') + 1..];
      KeyLineIff(fm[i], key, rest);
      forall j, r | i < j < |fm| ensures !KeyLine(fm[j], key, r) {
        KeyLineIff(fm[j], key, r);
      }
    }
  }

  lemma {:induction false} StartsExist(fm: seq<string>, upTo: nat) returns (starts: seq<nat>)
    requires upTo <= |fm|
    ensures AreKeyStarts(fm, upTo, starts)
  {
    hide OpensKey;
    if upTo == 0 {
      starts := [];
    } else {
      starts := StartsExist(fm, upTo - 1);
      if OpensKey(fm[upTo - 1]) {
        starts := starts + [upTo - 1];
      }
    }
  }

  function Head(span: seq<string>): (line: string)
    requires IsSpan(span)
  {
    span[0]
  }

  lemma {:induction false} CollectedValue(spans: seq<seq<string>>, key: string, n: nat)
    requires forall m | 0 <= m < |spans| :: IsSpan(spans[m])
    requires n < |spans| && KeyOf(Head(spans[n])) == key
    requires forall m | n < m < |spans| :: KeyOf(Head(spans[m])) != key
    ensures key in Collect(spans) && Collect(spans)[key].value == ValueOf(Head(spans[n]), spans[n][1..])
    decreases |spans|
  {
    hide KeyOf, ValueOf, OpensKey, Join;
    if n < |spans| - 1 {
      CollectedValue(spans[..|spans| - 1], key, n);
      assert KeyOf(Head(spans[|spans| - 1])) != key;
    }
  }

  lemma {:induction false} CollectedKey(spans: seq<seq<string>>, key: string)
    requires forall m | 0 <= m < |spans| :: IsSpan(spans[m])
    requires key in Collect(spans)
    ensures exists n | 0 <= n < |spans| :: KeyOf(Head(spans[n])) == key
    decreases |spans|
  {
    hide KeyOf, ValueOf, OpensKey, Join;
    var n := |spans| - 1;
    if KeyOf(Head(spans[n])) != key {
      CollectedKey(spans[..n], key);
      var m :| 0 <= m < n && KeyOf(Head(spans[..n][m])) == key;
      assert KeyOf(Head(spans[m])) == key;
    }
  }

  lemma SpanOfLine(fm: seq<string>, i: nat) returns (starts: seq<nat>, n: nat)
    requires i < |fm| && OpensKey(fm[i])
    ensures AreKeyStarts(fm, |fm|, starts) && n < |starts| && starts[n] == i
    ensures |Split(fm).spans| == |starts| && forall m | 0 <= m < |starts| :: Head(Split(fm).spans[m]) == fm[starts[m]]
    ensures ValueOf(fm[i], Split(fm).spans[n][1..]) == ValueOf(fm[i], fm[i + 1..])
  {
    hide ValueOf, OpensKey, Split;
    starts := StartsExist(fm, |fm|);
    n :| n < |starts| && starts[n] == i;
    SpanCount(fm, starts);
    forall m | 0 <= m < |starts| ensures Head(Split(fm).spans[m]) == fm[starts[m]] {
      SpanAt(fm, starts, m);
    }
    SpanAt(fm, starts, n);
    var e := SpanEnd(fm, starts, n + 1);
    assert fm[i..e][1..] + fm[e..] == fm[i + 1..];
    ValueStaysInSpan(fm[i], fm[i..e][1..], fm[e..]);
  }

  lemma ValueStaysInSpan(line: string, inside: seq<string>, after: seq<string>)
    requires after == [] || OpensKey(after[0])
    ensures ValueOf(line, inside) == ValueOf(line, inside + after)
  {
    FoldStaysInSpan(inside, after);
    hide FoldParts, Strip, Unquoted, Join;
  }

  lemma LaterStart(fm: seq<string>, starts: seq<nat>, n: nat, m: nat)
    requires AreKeyStarts(fm, |fm|, starts) && n < m < |starts|
    ensures starts[n] < starts[m] < |fm| && OpensKey(fm[starts[m]])
    ensures IndexOf(fm[starts[m]], ':') < |fm[starts[m]]|
  {
  }

  /** A field is there exactly if some line opens its key. */
  lemma FieldIsThere(fm: seq<string>, key: string)
    requires key in Collect(Split(fm).spans)
    ensures exists i, rest :: LastKeyLine(fm, key, i, rest)
  {
    hide OpensKey, KeyOf, KeyLine, Split, LastKeyLine;
    var spans := Split(fm).spans;
    CollectedKey(spans, key);
    var n: nat :| n < |spans| && KeyOf(Head(spans[n])) == key;
    var starts := StartsExist(fm, |fm|);
    SpanCount(fm, starts);
    SpanAt(fm, starts, n);
    var i, rest := LastKeyLineExists(fm, key, starts[n]);
  }

  /** And it has the value the last such line says. */
  lemma FieldReads(fm: seq<string>, key: string, i: nat, rest: string, value: string)
    requires LastKeyLine(fm, key, i, rest)
    ensures key in Collect(Split(fm).spans)
    ensures Says(rest, fm[i + 1..], value) <==> Collect(Split(fm).spans)[key].value == value
  {
    hide OpensKey, KeyOf, ValueOf, Says, KeyLine, Split;
    var spans := Split(fm).spans;
    KeyLineIff(fm[i], key, rest);
    var starts, n := SpanOfLine(fm, i);
    forall m | n < m < |spans| ensures KeyOf(Head(spans[m])) != key {
      LaterStart(fm, starts, n, m);
      KeyLineIff(fm[starts[m]], key, fm[starts[m]][IndexOf(fm[starts[m]], ':') + 1..]);
    }
    CollectedValue(spans, key, n);
    SaysIff(fm[i], fm[i + 1..], value);
  }

  // ----- Reports ----------------------------------------------------------------------------

  /** The last line that opens the key says `value`. */
  ghost predicate LastSays(fm: seq<string>, key: string, value: string) {
    exists i: nat, rest :: LastKeyLine(fm, key, i, rest) && Says(rest, fm[i + 1..], value)
  }

  lemma ValueIff(fm: seq<string>, key: string, value: string)
    ensures LastSays(fm, key, value) <==>
              key in Collect(Split(fm).spans) && Collect(Split(fm).spans)[key].value == value
  {
    hide Collect, Split, Says;
    if key in Collect(Split(fm).spans) {
      FieldIsThere(fm, key);
      var i: nat, rest :| LastKeyLine(fm, key, i, rest);
      FieldReads(fm, key, i, rest, value);
    }
    if LastSays(fm, key, value) {
      var i: nat, rest :| LastKeyLine(fm, key, i, rest) && Says(rest, fm[i + 1..], value);
      FieldReads(fm, key, i, rest, value);
    }
  }

  /** The last line that opens the key says `word`, but for white space. */
  ghost predicate LastSaysWord(fm: seq<string>, key: string, word: string) {
    exists value :: LastSays(fm, key, value) && StripsTo(value, word)
  }

  lemma WordIff(fm: seq<string>, key: string, word: string)
    ensures LastSaysWord(fm, key, word) <==>
              key in Collect(Split(fm).spans) && Strip(Collect(Split(fm).spans)[key].value) == word
  {
    hide Collect, Split, LastSays, Trimmed, Trim;
    var fields := Collect(Split(fm).spans);
    if key in fields {
      ValueIff(fm, key, fields[key].value);
      TrimIff(fields[key].value, word, c => IsSpace(c));
    }
    if LastSaysWord(fm, key, word) {
      var value :| LastSays(fm, key, value) && StripsTo(value, word);
      ValueIff(fm, key, value);
    }
  }

  lemma NothingStrips()
    ensures Strip("") == "" && Lower("") == ""
  {
  }

  /** What the measured values are, on the collected fields. */
  lemma MeasuredValues(name: string, fields: Fields)
    requires Measure(name, fields).Ok?
    ensures var info := Measure(name, fields).value;
      && info.name == name && "description" in fields && info.description == fields["description"].value
      && (info.contextFork <==> "context" in fields && Strip(fields["context"].value) == "fork")
      && (info.disableModelInvocation <==>
            "disable-model-invocation" in fields && Lower(Strip(fields["disable-model-invocation"].value)) == "true")
  {
    NothingStrips();
    hide Strip, Contains;
  }

  /** `info` says what the lines say. */
  ghost predicate SaysSo(fm: seq<string>, info: SkillInfo) {
    && LastSays(fm, "description", info.description)
    && (info.contextFork <==> LastSaysWord(fm, "context", "fork"))
    && (info.disableModelInvocation <==>
          exists word :: LastSaysWord(fm, "disable-model-invocation", word) && Lower(word) == "true")
  }

  lemma MeasureReads(name: string, fm: seq<string>)
    requires Measure(name, Collect(Split(fm).spans)).Ok?
    ensures SaysSo(fm, Measure(name, Collect(Split(fm).spans)).value)
  {
    var fields := Collect(Split(fm).spans);
    MeasuredValues(name, fields);
    hide Collect, Split, LastSays, LastSaysWord, Strip, Measure;
    ValueIff(fm, "description", fields["description"].value);
    WordIff(fm, "context", "fork");
    var switch := "disable-model-invocation";
    if switch in fields {
      WordIff(fm, switch, Strip(fields[switch].value));
    }
    if word :| LastSaysWord(fm, switch, word) && Lower(word) == "true" {
      WordIff(fm, switch, word);
    }
  }

  lemma AcceptedIsMeasured(name: string, lines: seq<string>)
    requires InfoOfLines(name, lines).Ok?
    ensures LinesBeforeDelimiter(lines) < |lines|
    ensures InfoOfLines(name, lines) == Measure(name, Collect(Split(FrontmatterLines(lines)).spans))
  {
    hide Measure, Collect, Split, AnyElided;
  }

  /** What a reported skill says: the description is what the last `description` line says;
      the fork flag is set exactly if the last `context` line says `fork`, but for white
      space; the other exactly if the last `disable-model-invocation` line says `true`, in
      any case of letters. Without its line a flag is not set, and no line moves another's. */
  lemma ReportReads(name: string, lines: seq<string>)
    requires InfoOfLines(name, lines).Ok?
    ensures LinesBeforeDelimiter(lines) < |lines|
    ensures InfoOfLines(name, lines).value.name == name
    ensures SaysSo(FrontmatterLines(lines), InfoOfLines(name, lines).value)
  {
    AcceptedIsMeasured(name, lines);
    MeasuredValues(name, Collect(Split(FrontmatterLines(lines)).spans));
    hide InfoOfLines, Measure, Collect, Split, SaysSo, Strip;
    MeasureReads(name, FrontmatterLines(lines));
  }

  // ----- Which bodies are accepted -------------------------------------------------------------

  /** The nearest key at or above line `i` is `key`. */
  ghost predicate UnderKey(fm: seq<string>, i: nat, key: string) {
    exists j: nat :: NearestKey(fm, i, j) && KeyOf(fm[j]) == key
  }

  lemma {:induction false} JoinedMarker(lines: seq<string>)
    requires Elided(Join("\n", lines))
    ensures AnyElided(lines)
    decreases |lines|
  {
    hide Elided;
    if lines == [] {
      NothingElided();
    } else if |lines| > 1 {
      NoStraddle(lines[0], Join("\n", lines[1..]));
      if Elided(lines[0]) {
      } else {
        JoinedMarker(lines[1..]);
        var i :| 0 <= i < |lines[1..]| && Elided(lines[1..][i]);
        assert lines[i + 1] == lines[1..][i];
      }
    }
  }

  lemma NothingElided()
    ensures !Elided("")
  {
    MarkerUnbroken();
  }

  /** A marker in the raw text of a key lies in some span that opens it. */
  lemma {:induction false} RawMarker(spans: seq<seq<string>>, key: string) returns (n: nat)
    requires forall m | 0 <= m < |spans| :: IsSpan(spans[m])
    requires key in Collect(spans) && Elided(Collect(spans)[key].raw)
    ensures n < |spans| && KeyOf(Head(spans[n])) == key && AnyElided(spans[n])
    decreases |spans|
  {
    hide KeyOf, ValueOf, OpensKey, Elided, AnyElided, Join;
    n := |spans| - 1;
    var span, before := spans[n], Collect(spans[..n]);
    if KeyOf(Head(span)) == key {
      var raw := Join("\n", span);
      if key in before {
        NoStraddle(before[key].raw, raw);
      }
      if Elided(raw) {
        JoinedMarker(span);
      } else {
        n := RawMarker(spans[..n], key);
      }
    } else {
      n := RawMarker(spans[..n], key);
    }
  }

  /** The lines of span `n` have its key as their nearest. */
  lemma SpanLinesUnder(fm: seq<string>, n: nat, k: nat) returns (i: nat)
    requires n < |Split(fm).spans| && k < |Split(fm).spans[n]|
    ensures i < |fm| && fm[i] == Split(fm).spans[n][k] && UnderKey(fm, i, KeyOf(Head(Split(fm).spans[n])))
  {
    hide OpensKey, KeyOf, Split;
    var starts := StartsExist(fm, |fm|);
    SpanCount(fm, starts);
    SpanAt(fm, starts, n);
    i := starts[n] + k;
    forall x | starts[n] < x <= i ensures !OpensKey(fm[x]) {
      KeylessBetween(fm, starts, n, x);
    }
    assert NearestKey(fm, i, starts[n]);
  }

  predicate Measured(key: string) {
    key == "description" || key == "context" || key == "disable-model-invocation"
  }

  ghost predicate Tolerated(fm: seq<string>, i: nat) {
    exists key :: UnderKey(fm, i, key) && !Measured(key)
  }

  /** Every marker below the opening delimiter stands under a key that is not measured. */
  ghost predicate MarkersTolerated(fm: seq<string>) {
    forall i: nat | i < |fm| && Elided(fm[i]) :: Tolerated(fm, i)
  }

  /** A marker above every key, and one under this key. */
  ghost predicate MarkerAboveKeys(fm: seq<string>) {
    exists i | 0 <= i < |fm| :: Elided(fm[i]) && forall j | 0 <= j <= i :: !OpensKey(fm[j])
  }

  ghost predicate MarkerUnder(fm: seq<string>, key: string) {
    exists i: nat | i < |fm| :: Elided(fm[i]) && UnderKey(fm, i, key)
  }

  lemma PreambleIff(fm: seq<string>)
    ensures AnyElided(Split(fm).preamble) <==> MarkerAboveKeys(fm)
  {
    hide OpensKey, Elided;
    var p := Split(fm);
    PreambleIsPrefix(fm);
    if AnyElided(p.preamble) {
      var i :| 0 <= i < |p.preamble| && Elided(p.preamble[i]);
      assert forall j | 0 <= j <= i :: fm[j] == p.preamble[j];
    }
    if i :| 0 <= i < |fm| && Elided(fm[i]) && forall j | 0 <= j <= i :: !OpensKey(fm[j]) {
      var n, at, j := LineIsCovered(fm, i);
      assert i < |p.preamble|;
    }
  }

  lemma FieldMarkerIff(fm: seq<string>, key: string)
    ensures IsElidedField(Collect(Split(fm).spans), key) <==> MarkerUnder(fm, key)
  {
    hide OpensKey, KeyOf, Elided, Split, UnderKey;
    var spans := Split(fm).spans;
    if IsElidedField(Collect(spans), key) {
      var n := RawMarker(spans, key);
      var k: nat :| k < |spans[n]| && Elided(spans[n][k]);
      var i := SpanLinesUnder(fm, n, k);
    }
    if i: nat :| i < |fm| && Elided(fm[i]) && UnderKey(fm, i, key) {
      MarkerInRaw(fm, i, key);
    }
  }

  lemma MarkerInRaw(fm: seq<string>, i: nat, key: string)
    requires i < |fm| && Elided(fm[i]) && UnderKey(fm, i, key)
    ensures IsElidedField(Collect(Split(fm).spans), key)
  {
    var j: nat :| NearestKey(fm, i, j) && KeyOf(fm[j]) == key;
    var n, at, j' := LineIsCovered(fm, i);
    if i < |Split(fm).preamble| {
      PreambleHasNoKey(fm, i, j);
    }
    NearestKeyUnique(fm, i, j, j');
    RawKeepsEveryLine(Split(fm).spans, n, at);
    ContainsTrans(Collect(Split(fm).spans)[key].raw, fm[i], ELISION);
  }

  lemma PreambleHasNoKey(fm: seq<string>, i: nat, j: nat)
    requires j <= i < |Split(fm).preamble|
    ensures j < |fm| && !OpensKey(fm[j])
  {
    PreambleIsPrefix(fm);
    assert Split(fm).preamble[j] == fm[j];
  }

  lemma TolerationIff(fm: seq<string>)
    ensures MarkersTolerated(fm) <==>
              && !AnyElided(Split(fm).preamble)
              && forall key | Measured(key) :: !IsElidedField(Collect(Split(fm).spans), key)
  {
    PreambleIff(fm);
    hide Elided, OpensKey, KeyOf, Split, Collect, AnyElided, IsElidedField, UnderKey, Measured;
    if MarkersTolerated(fm) {
      if i :| 0 <= i < |fm| && Elided(fm[i]) && forall j | 0 <= j <= i :: !OpensKey(fm[j]) {
        assert Tolerated(fm, i);
        var key :| UnderKey(fm, i, key);
        UnderIsBelow(fm, i, key);
      }
      forall key | Measured(key) ensures !IsElidedField(Collect(Split(fm).spans), key) {
        FieldMarkerIff(fm, key);
        if i: nat :| i < |fm| && Elided(fm[i]) && UnderKey(fm, i, key) {
          assert Tolerated(fm, i);
          var other :| UnderKey(fm, i, other) && !Measured(other);
          UnderOneKey(fm, i, key, other);
        }
      }
    }
    if !AnyElided(Split(fm).preamble) && forall key | Measured(key) :: !IsElidedField(Collect(Split(fm).spans), key) {
      forall i: nat | i < |fm| && Elided(fm[i]) ensures Tolerated(fm, i) {
        var j: nat :| j <= i && OpensKey(fm[j]);
        var key := NearestExists(fm, i, j);
        FieldMarkerIff(fm, key);
      }
    }
  }

  lemma UnderIsBelow(fm: seq<string>, i: nat, key: string)
    requires UnderKey(fm, i, key)
    ensures i < |fm| && exists j | 0 <= j <= i :: OpensKey(fm[j])
  {
    hide OpensKey, KeyOf;
  }

  lemma {:induction false} NearestExists(fm: seq<string>, i: nat, j: nat) returns (key: string)
    requires j <= i < |fm| && OpensKey(fm[j])
    ensures UnderKey(fm, i, key)
    decreases i - j
  {
    hide OpensKey, KeyOf;
    if k: nat :| j < k <= i && OpensKey(fm[k]) {
      key := NearestExists(fm, i, k);
    } else {
      key := KeyOf(fm[j]);
      assert NearestKey(fm, i, j);
    }
  }

  lemma UnderOneKey(fm: seq<string>, i: nat, key: string, other: string)
    requires UnderKey(fm, i, key) && UnderKey(fm, i, other)
    ensures key == other
  {
    var j: nat :| NearestKey(fm, i, j) && KeyOf(fm[j]) == key;
    var k: nat :| NearestKey(fm, i, k) && KeyOf(fm[k]) == other;
    NearestKeyUnique(fm, i, j, k);
  }

  lemma MeasureAccepts(name: string, fields: Fields)
    ensures Measure(name, fields).Ok? <==>
              "description" in fields && forall key | Measured(key) :: !IsElidedField(fields, key)
  {
    hide IsElidedField, Strip;
    assert Measured("description") && Measured("context") && Measured("disable-model-invocation");
  }

  lemma InfoIsOkIff(name: string, lines: seq<string>)
    ensures InfoOfLines(name, lines).Ok? <==>
              var start := LinesBeforeDelimiter(lines);
              && start < |lines| && !AnyElided(lines[..start + 1])
              && var p := Split(FrontmatterLines(lines)); !AnyElided(p.preamble) && Measure(name, Collect(p.spans)).Ok?
  {
    hide AnyElided, Split, Collect, Measure, FrontmatterLines, LinesBeforeDelimiter, OpensKey, Elided;
  }

  /** Which bodies are accepted, exactly: those with an opening delimiter and no marker up
      to it, whose markers below it stand under unmeasured keys, and whose frontmatter has
      a line that opens `description`. */
  lemma AcceptedIff(name: string, lines: seq<string>)
    ensures InfoOfLines(name, lines).Ok? <==>
              var start := LinesBeforeDelimiter(lines);
              && start < |lines|
              && (forall i | 0 <= i <= start :: !Elided(lines[i]))
              && MarkersTolerated(FrontmatterLines(lines))
              && exists value :: LastSays(FrontmatterLines(lines), "description", value)
  {
    InfoIsOkIff(name, lines);
    var start := LinesBeforeDelimiter(lines);
    if start < |lines| {
      var fm := FrontmatterLines(lines);
      AboveIff(lines, start);
      TolerationIff(fm);
      DescriptionIff(fm);
      MeasureAccepts(name, Collect(Split(fm).spans));
      hide *;
    }
  }

  /** The reasons for refusing the lines between the delimiters, the first that applies. */
  ghost predicate RefusedFor(fm: seq<string>, error: MeasurementError) {
    if MarkerAboveKeys(fm) then error == ElisionInPreamble
    else if MarkerUnder(fm, "description") then error == ElidedField("description")
    else if MarkerUnder(fm, "context") then error == ElidedField("context")
    else if MarkerUnder(fm, "disable-model-invocation") then error == ElidedField("disable-model-invocation")
    else error == NoDescription
  }

  /** Why a body is refused. */
  lemma RefusalIs(name: string, lines: seq<string>)
    requires InfoOfLines(name, lines).Err?
    ensures var start, error := LinesBeforeDelimiter(lines), InfoOfLines(name, lines).error;
      if start == |lines| then error == NoStartDelimiter
      else if exists i | 0 <= i <= start :: Elided(lines[i]) then error == ElisionAboveStart
      else RefusedFor(FrontmatterLines(lines), error)
  {
    hide *;
    var start := LinesBeforeDelimiter(lines);
    ParseRefuses(name, lines);
    if start < |lines| {
      AboveIff(lines, start);
      if !AnyElided(lines[..start + 1]) {
        RefusedInside(name, FrontmatterLines(lines), InfoOfLines(name, lines));
      }
    }
  }

  lemma RefusedInside(name: string, fm: seq<string>, r: Result<SkillInfo>)
    requires var p := Split(fm);
      r == if AnyElided(p.preamble) then Err(ElisionInPreamble) else Measure(name, Collect(p.spans))
    requires r.Err?
    ensures RefusedFor(fm, r.error)
  {
    PreambleIff(fm);
    FieldMarkerIff(fm, "description");
    FieldMarkerIff(fm, "context");
    FieldMarkerIff(fm, "disable-model-invocation");
    hide MarkerAboveKeys, MarkerUnder, IsElidedField, AnyElided, Split, Collect, Measure;
    if r == Measure(name, Collect(Split(fm).spans)) {
      MeasureRefuses(name, Collect(Split(fm).spans));
    }
  }

  lemma ParseRefuses(name: string, lines: seq<string>)
    ensures var start, r := LinesBeforeDelimiter(lines), InfoOfLines(name, lines);
      if start == |lines| then r == Err(NoStartDelimiter)
      else if AnyElided(lines[..start + 1]) then r == Err(ElisionAboveStart)
      else
        var p := Split(FrontmatterLines(lines));
        r == if AnyElided(p.preamble) then Err(ElisionInPreamble) else Measure(name, Collect(p.spans))
  {
    hide AnyElided, Split, Collect, Measure, FrontmatterLines, LinesBeforeDelimiter;
  }

  lemma MeasureRefuses(name: string, fields: Fields)
    requires Measure(name, fields).Err?
    ensures Measure(name, fields).error ==
              if IsElidedField(fields, "description") then ElidedField("description")
              else if IsElidedField(fields, "context") then ElidedField("context")
              else if IsElidedField(fields, "disable-model-invocation") then ElidedField("disable-model-invocation")
              else NoDescription
  {
    hide IsElidedField, Strip;
  }

  lemma AboveIff(lines: seq<string>, start: nat)
    requires start < |lines|
    ensures AnyElided(lines[..start + 1]) <==> exists i | 0 <= i <= start :: Elided(lines[i])
  {
    hide Elided;
    assert forall i | 0 <= i <= start :: lines[..start + 1][i] == lines[i];
  }

  lemma DescriptionIff(fm: seq<string>)
    ensures "description" in Collect(Split(fm).spans) <==> exists value :: LastSays(fm, "description", value)
  {
    hide Collect, Split, LastSays;
    if "description" in Collect(Split(fm).spans) {
      ValueIff(fm, "description", Collect(Split(fm).spans)["description"].value);
    }
    if value :| LastSays(fm, "description", value) {
      ValueIff(fm, "description", value);
    }
  }
}
