/** `scripts/context_floor_skill_body.py`: the frontmatter parser and the
    guards that refuse an elided field, as functions that say what each step means
    on lines of text. The script's own loops are in `FrontmatterLoops`, each
    proved to compute its function. */
module Frontmatter {
  import opened PyText

  datatype Result<+T> = Ok(value: T) | Err(error: MeasurementError)

  datatype MeasurementError =
    | TooDeep
    | NoStartDelimiter
    | ElisionAboveStart
    | ElisionInPreamble
    | ElidedField(key: string)
    | NoDescription

  datatype Field = Field(value: string, raw: string)

  datatype SkillInfo = SkillInfo(name: string, description: string, contextFork: bool, disableModelInvocation: bool)

  /** Stands for text that could not be evaluated statically. */
  const ELISION := "\U{E000}elided\U{E000}"

  const MEASURED_FIELDS := ["description", "context", "disable-model-invocation"]

  /** The block-scalar indicators that `_fold_block_scalar` is called for. */
  const BLOCK_INDICATORS := [">-", ">", "|-", "|"]

  predicate Elided(line: string) {
    Contains(line, ELISION)
  }

  predicate AnyElided(lines: seq<string>) {
    exists i | 0 <= i < |lines| :: Elided(lines[i])
  }

  predicate IsDelimiter(line: string) {
    Strip(line) == "---"
  }

  predicate OpensKey(line: string) {
    var i := IndexOf(line, ':');
    && 0 < i < |line|
    && line[0] !in " \t-"
    && !Elided(line[..i])
  }

  function KeyOf(line: string): (key: string) {
    Strip(line[..IndexOf(line, ':')])
  }

  // ----- Delimiters ----------------------------------------------------------

  /** How many lines precede the first delimiter (all of them if none). */
  function LinesBeforeDelimiter(lines: seq<string>): (n: nat)
    ensures n <= |lines|
  {
    if lines == [] || IsDelimiter(lines[0]) then 0 else 1 + LinesBeforeDelimiter(lines[1..])
  }

  /** `n` is that number exactly when line `n` is the first delimiter. */
  lemma {:induction false} LinesBeforeDelimiterMeaning(lines: seq<string>, n: nat)
    requires n <= |lines|
    ensures LinesBeforeDelimiter(lines) == n <==>
              && (forall i | 0 <= i < n :: !IsDelimiter(lines[i]))
              && (n < |lines| ==> IsDelimiter(lines[n]))
  {
    if lines != [] && !IsDelimiter(lines[0]) && n > 0 {
      LinesBeforeDelimiterMeaning(lines[1..], n - 1);
      assert forall i | 1 <= i < n :: lines[i] == lines[1..][i - 1];
      assert forall i | 0 <= i < n - 1 :: lines[1..][i] == lines[i + 1];
    }
  }

  function FrontmatterLines(lines: seq<string>): (fm: seq<string>)
    requires LinesBeforeDelimiter(lines) < |lines|
  {
    var rest := lines[LinesBeforeDelimiter(lines) + 1..];
    rest[..LinesBeforeDelimiter(rest)]
  }

  // ----- Spans ---------------------------------------------------------------

  datatype Partition = Partition(preamble: seq<string>, spans: seq<seq<string>>)

  function PutFirst(line: string, p: Partition): (r: Partition) {
    if OpensKey(line) then Partition([], [[line] + p.preamble] + p.spans)
    else Partition([line] + p.preamble, p.spans)
  }

  /** The frontmatter cut before every line that opens a key. */
  function Split(fm: seq<string>): (p: Partition)
    ensures forall i | 0 <= i < |p.preamble| :: !OpensKey(p.preamble[i])
    ensures forall n | 0 <= n < |p.spans| :: IsSpan(p.spans[n])
  {
    if fm == [] then Partition([], []) else PutFirst(fm[0], Split(fm[1..]))
  }

  /** One key line, and the lines below it up to the next key. */
  predicate IsSpan(span: seq<string>) {
    && span != []
    && OpensKey(span[0])
    && forall i | 1 <= i < |span| :: !OpensKey(span[i])
  }

  /** Lines that open no key join the text above the next key. */
  lemma {:induction false} SplitKeyless(out: seq<string>, rest: seq<string>)
    requires forall i | 0 <= i < |out| :: !OpensKey(out[i])
    ensures Split(out + rest) == Partition(out + Split(rest).preamble, Split(rest).spans)
    decreases |out|
  {
    if out == [] {
      assert out + rest == rest;
    } else {
      assert (out + rest)[1..] == out[1..] + rest;
      SplitKeyless(out[1..], rest);
      assert [out[0]] + (out[1..] + Split(rest).preamble) == out + Split(rest).preamble;
    }
  }

  lemma SplitKeyed(out: seq<string>, rest: seq<string>)
    requires IsSpan(out)
    ensures Split(out + rest) == Partition([], [out + Split(rest).preamble] + Split(rest).spans)
  {
    assert (out + rest)[1..] == out[1..] + rest;
    SplitKeyless(out[1..], rest);
    assert [out[0]] + (out[1..] + Split(rest).preamble) == out + Split(rest).preamble;
  }

  // ----- Values --------------------------------------------------------------

  predicate Foldable(line: string) {
    "  " <= line || Strip(line) == ""
  }

  /** A line that opens a key ends block-scalar folding. */
  lemma KeyEndsFolding(line: string)
    requires OpensKey(line)
    ensures !Foldable(line)
  {
    var i := IndexOf(line, ':');
    assert line[i] == ':';
    StripKeeps(line, ':');
  }

  /** How many leading lines continue a block scalar. */
  function FoldLength(lines: seq<string>): (n: nat)
    ensures n <= |lines|
    ensures forall i | 0 <= i < n :: Foldable(lines[i])
    ensures n < |lines| ==> !Foldable(lines[n])
  {
    if lines == [] || !Foldable(lines[0]) then 0 else 1 + FoldLength(lines[1..])
  }

  function FoldParts(lines: seq<string>): (parts: seq<string>)
  {
    if lines == [] || !Foldable(lines[0]) then []
    else if Strip(lines[0]) == "" then FoldParts(lines[1..])
    else [Strip(lines[0])] + FoldParts(lines[1..])
  }

  function Folded(lines: seq<string>): (text: string) {
    Join(" ", FoldParts(lines))
  }

  function Unquoted(s: string): (r: string) {
    Trim(s, c => c == '"')
  }

  /** The value of a key line, given every frontmatter line below it. */
  function ValueOf(line: string, below: seq<string>): (value: string) {
    var remainder := Strip(line[if IndexOf(line, ':') < |line| then IndexOf(line, ':') + 1 else |line|..]);
    if remainder in BLOCK_INDICATORS then Folded(below) else Unquoted(remainder)
  }

  /** Folding never leaves the span of its own key: what follows the span
      does not change what is folded. */
  lemma {:induction false} FoldStaysInSpan(inside: seq<string>, after: seq<string>)
    requires after == [] || OpensKey(after[0])
    ensures FoldParts(inside + after) == FoldParts(inside)
    ensures FoldLength(inside + after) == FoldLength(inside)
    decreases |inside|
  {
    if inside == [] {
      assert inside + after == after;
      if after != [] {
        KeyEndsFolding(after[0]);
      }
    } else {
      assert (inside + after)[1..] == inside[1..] + after;
      FoldStaysInSpan(inside[1..], after);
    }
  }

  // ----- Fields --------------------------------------------------------------

  type Fields = map<string, Field>

  /** Adds one span: the last value of a repeated key wins, the raw text of
      every occurrence stays. */
  function AddSpan(acc: Fields, span: seq<string>): (r: Fields)
    requires IsSpan(span)
  {
    var key := KeyOf(span[0]);
    var raw := Join("\n", span);
    var value := ValueOf(span[0], span[1..]);
    acc[key := Field(value, if key in acc then acc[key].raw + "\n" + raw else raw)]
  }

  function Collect(spans: seq<seq<string>>): (r: Fields)
    requires forall n | 0 <= n < |spans| :: IsSpan(spans[n])
  {
    if spans == [] then map[] else AddSpan(Collect(spans[..|spans| - 1]), spans[|spans| - 1])
  }

  function ParseLines(lines: seq<string>): (r: Result<Fields>) {
    var start := LinesBeforeDelimiter(lines);
    if start == |lines| then Err(NoStartDelimiter)
    else if AnyElided(lines[..start + 1]) then Err(ElisionAboveStart)
    else
      var p := Split(FrontmatterLines(lines));
      if AnyElided(p.preamble) then Err(ElisionInPreamble) else Ok(Collect(p.spans))
  }

  predicate IsElidedField(fields: Fields, key: string) {
    key in fields && Elided(fields[key].raw)
  }

  function ValueOr(fields: Fields, key: string, default: string): (v: string) {
    if key in fields then fields[key].value else default
  }

  function Measure(name: string, fields: Fields): (r: Result<SkillInfo>) {
    if IsElidedField(fields, MEASURED_FIELDS[0]) then Err(ElidedField(MEASURED_FIELDS[0]))
    else if IsElidedField(fields, MEASURED_FIELDS[1]) then Err(ElidedField(MEASURED_FIELDS[1]))
    else if IsElidedField(fields, MEASURED_FIELDS[2]) then Err(ElidedField(MEASURED_FIELDS[2]))
    else if "description" !in fields then Err(NoDescription)
    else Ok(SkillInfo(
              name,
              fields["description"].value,
              Strip(ValueOr(fields, "context", "")) == "fork",
              Lower(Strip(ValueOr(fields, "disable-model-invocation", ""))) == "true"))
  }

  /** What `_skill_info_from_frontmatter` reports for a body text. */
  function InfoOfLines(name: string, lines: seq<string>): (r: Result<SkillInfo>) {
    var fields := ParseLines(lines);
    if fields.Err? then Err(fields.error) else Measure(name, fields.value)
  }

  function InfoOfBody(name: string, body: string): (r: Result<SkillInfo>) {
    InfoOfLines(name, SplitLines(body))
  }
}
