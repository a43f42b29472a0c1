/** The loops of `scripts/context_floor_skill_body.py`, as the script writes
    them, each proved to compute the function of the same name. */
module FrontmatterLoops {
  import opened PyText
  import opened Frontmatter
  import opened Wrappers

  ghost predicate DelimiterFree(lines: seq<string>, lo: nat, hi: nat) {
    hi <= |lines| && forall i | lo <= i < hi :: !IsDelimiter(lines[i])
  }

  lemma DelimiterFound(lines: seq<string>, lo: nat, hi: nat)
    requires lo <= hi && DelimiterFree(lines, lo, hi) && (hi < |lines| ==> IsDelimiter(lines[hi]))
    ensures LinesBeforeDelimiter(lines[lo..]) == hi - lo
  {
    LinesBeforeDelimiterMeaning(lines[lo..], hi - lo);
  }

  /** `_frontmatter_bounds`: the first two delimiters. */
  method FrontmatterBounds(lines: seq<string>) returns (r: Result<(nat, Option<nat>)>)
    ensures r == Err(NoStartDelimiter) || r.Ok?
    ensures r.Err? <==> DelimiterFree(lines, 0, |lines|)
    ensures r.Ok? ==> r.value.0 < |lines| && LinesBeforeDelimiter(lines[0..]) == r.value.0
    ensures r.Ok? && r.value.1.None? ==>
              LinesBeforeDelimiter(lines[r.value.0 + 1..]) == |lines| - (r.value.0 + 1)
    ensures r.Ok? && r.value.1.Some? ==>
              && r.value.0 < r.value.1.value < |lines|
              && LinesBeforeDelimiter(lines[r.value.0 + 1..]) == r.value.1.value - (r.value.0 + 1)
  {
    hide LinesBeforeDelimiter, IsDelimiter;
    var start: Option<nat> := None;
    for i := 0 to |lines|
      invariant start.None? ==> DelimiterFree(lines, 0, i)
      invariant start.Some? ==>
                  && start.value < i
                  && IsDelimiter(lines[start.value])
                  && DelimiterFree(lines, 0, start.value)
                  && DelimiterFree(lines, start.value + 1, i)
    {
      if !IsDelimiter(lines[i]) {
        continue;
      }
      if start.None? {
        start := Some(i);
      } else {
        DelimiterFound(lines, 0, start.value);
        DelimiterFound(lines, start.value + 1, i);
        return Ok((start.value, Some(i)));
      }
    }
    if start.None? {
      return Err(NoStartDelimiter);
    }
    DelimiterFound(lines, 0, start.value);
    DelimiterFound(lines, start.value + 1, |lines|);
    return Ok((start.value, None));
  }

  function NonEmpty(parts: seq<string>): (r: seq<string>)
  {
    if parts == [] then []
    else NonEmpty(parts[..|parts| - 1]) + if parts[|parts| - 1] == "" then [] else [parts[|parts| - 1]]
  }

  /** `_fold_block_scalar`: the folded text and the first line after it. */
  method FoldBlockScalar(fmLines: seq<string>, continuationStart: nat) returns (text: string, next: nat)
    requires continuationStart <= |fmLines|
    ensures text == Folded(fmLines[continuationStart..])
    ensures next == continuationStart + FoldLength(fmLines[continuationStart..])
  {
    hide Join, Strip, Foldable;
    var continuation: seq<string> := [];
    var j := continuationStart;
    while j < |fmLines| && Foldable(fmLines[j])
      invariant continuationStart <= j <= |fmLines|
      invariant FoldParts(fmLines[continuationStart..]) == NonEmpty(continuation) + FoldParts(fmLines[j..])
      invariant FoldLength(fmLines[continuationStart..]) == j - continuationStart + FoldLength(fmLines[j..])
    {
      assert fmLines[j..][1..] == fmLines[j + 1..];
      var part := Strip(fmLines[j]);
      assert (continuation + [part])[..|continuation|] == continuation;
      continuation := continuation + [part];
      j := j + 1;
    }
    assert NonEmpty(continuation) + FoldParts(fmLines[j..]) == NonEmpty(continuation);
    return Join(" ", NonEmpty(continuation)), j;
  }

  /** Every line that opens a key, in order. */
  ghost predicate AreKeyStarts(fm: seq<string>, upTo: nat, starts: seq<nat>) {
    && upTo <= |fm|
    && (forall n | 0 <= n < |starts| :: starts[n] < upTo && OpensKey(fm[starts[n]]))
    && (forall m, n | 0 <= m < n < |starts| :: starts[m] < starts[n])
    && (forall i | 0 <= i < upTo && OpensKey(fm[i]) :: i in starts)
  }

  method KeyStarts(fm: seq<string>) returns (starts: seq<nat>)
    ensures AreKeyStarts(fm, |fm|, starts)
  {
    starts := [];
    for i := 0 to |fm|
      invariant AreKeyStarts(fm, i, starts)
    {
      if OpensKey(fm[i]) {
        starts := starts + [i];
      }
    }
  }

  /** Where the span that starts at `starts[n]` ends. */
  function SpanEnd(fm: seq<string>, starts: seq<nat>, n: nat): (e: nat)
  {
    if n < |starts| then starts[n] else |fm|
  }

  lemma KeylessBetween(fm: seq<string>, starts: seq<nat>, n: nat, i: nat)
    requires AreKeyStarts(fm, |fm|, starts) && n < |starts|
    requires starts[n] < i < SpanEnd(fm, starts, n + 1)
    ensures !OpensKey(fm[i])
  {
    assert forall m | 0 <= m < |starts| && m <= n :: starts[m] <= starts[n];
    assert forall m | n < m < |starts| :: starts[n + 1] <= starts[m];
  }

  /** Cutting at consecutive key starts peels off one span of the partition. */
  lemma PeelSpan(fm: seq<string>, starts: seq<nat>, n: nat)
    requires AreKeyStarts(fm, |fm|, starts) && n < |starts|
    ensures var i, e := starts[n], SpanEnd(fm, starts, n + 1);
            && i < e <= |fm|
            && IsSpan(fm[i..e])
            && (e < |fm| ==> OpensKey(fm[e]))
            && Split(fm[i..]) == Partition([], [fm[i..e]] + Split(fm[e..]).spans)
  {
    var i, e := starts[n], SpanEnd(fm, starts, n + 1);
    forall k | i < k < e
      ensures !OpensKey(fm[k])
    {
      KeylessBetween(fm, starts, n, k);
    }
    assert forall k | 1 <= k < e - i :: fm[i..e][k] == fm[i + k];
    SplitKeyed(fm[i..e], fm[e..]);
    assert fm[i..e] + fm[e..] == fm[i..];
    KeyFirst(fm[e..]);
    assert fm[i..e] + [] == fm[i..e];
  }

  lemma PeelPreamble(fm: seq<string>, starts: seq<nat>)
    requires AreKeyStarts(fm, |fm|, starts)
    ensures SpanEnd(fm, starts, 0) <= |fm|
    ensures Split(fm) == Partition(fm[..SpanEnd(fm, starts, 0)], Split(fm[SpanEnd(fm, starts, 0)..]).spans)
  {
    var e := SpanEnd(fm, starts, 0);
    assert forall m | 0 < m < |starts| :: starts[0] < starts[m];
    assert forall k | 0 <= k < e :: fm[..e][k] == fm[k] && k !in starts;
    KeylessThenKey(fm, e);
  }

  lemma KeyFirst(fm: seq<string>)
    requires fm == [] || OpensKey(fm[0])
    ensures Split(fm).preamble == []
  {
  }

  lemma KeylessThenKey(fm: seq<string>, e: nat)
    requires e <= |fm| && (forall k | 0 <= k < e :: !OpensKey(fm[k])) && (e < |fm| ==> OpensKey(fm[e]))
    ensures Split(fm) == Partition(fm[..e], Split(fm[e..]).spans)
  {
    hide OpensKey, Split;
    assert fm[..e] + fm[e..] == fm;
    SplitKeyless(fm[..e], fm[e..]);
    KeyFirst(fm[e..]);
    assert fm[..e] + [] == fm[..e];
  }

  /** One turn of the field loop adds one span. */
  method ReadField(fm: seq<string>, i: nat, spanEnd: nat, acc: Fields) returns (result: Fields)
    requires i < spanEnd <= |fm| && IsSpan(fm[i..spanEnd])
    requires spanEnd < |fm| ==> OpensKey(fm[spanEnd])
    ensures result == AddSpan(acc, fm[i..spanEnd])
  {
    hide Strip, Trim, Join, FoldParts, FoldLength, Foldable;
    ghost var span := fm[i..spanEnd];
    assert span[0] == fm[i];
    var key := Strip(fm[i][..IndexOf(fm[i], ':')]);
    var remainder := Strip(fm[i][IndexOf(fm[i], ':') + 1..]);
    var value;
    if remainder in BLOCK_INDICATORS {
      var next;
      value, next := FoldBlockScalar(fm, i + 1);
      assert fm[i + 1..] == span[1..] + fm[spanEnd..];
      FoldStaysInSpan(span[1..], fm[spanEnd..]);
    } else {
      value := Trim(remainder, c => c == '"');
    }
    var raw := Join("\n", fm[i..spanEnd]);
    result := acc[key := Field(value, if key in acc then acc[key].raw + "\n" + raw else raw)];
  }

  /** Span `n` of the partition is what lies between key starts `n` and `n+1`. */
  lemma {:induction false} SpansFrom(fm: seq<string>, starts: seq<nat>, n: nat)
    requires AreKeyStarts(fm, |fm|, starts) && n <= |starts|
    ensures SpanEnd(fm, starts, n) <= |fm|
    ensures n <= |Split(fm).spans| && Split(fm[SpanEnd(fm, starts, n)..]).spans == Split(fm).spans[n..]
  {
    if n == 0 {
      PeelPreamble(fm, starts);
    } else {
      SpansFrom(fm, starts, n - 1);
      PeelSpan(fm, starts, n - 1);
      assert Split(fm).spans[n..] == Split(fm).spans[n - 1..][1..];
    }
  }

  lemma SpanAt(fm: seq<string>, starts: seq<nat>, n: nat)
    requires AreKeyStarts(fm, |fm|, starts) && n < |starts|
    ensures n < |Split(fm).spans| && starts[n] < SpanEnd(fm, starts, n + 1) <= |fm|
    ensures Split(fm).spans[n] == fm[starts[n]..SpanEnd(fm, starts, n + 1)]
    ensures SpanEnd(fm, starts, n + 1) < |fm| ==> OpensKey(fm[SpanEnd(fm, starts, n + 1)])
  {
    SpansFrom(fm, starts, n);
    PeelSpan(fm, starts, n);
  }

  lemma SpanCount(fm: seq<string>, starts: seq<nat>)
    requires AreKeyStarts(fm, |fm|, starts)
    ensures |Split(fm).spans| == |starts|
  {
    SpansFrom(fm, starts, |starts|);
    assert Split(fm[|fm|..]).spans == [];
  }

  method ReadFields(fm: seq<string>, starts: seq<nat>) returns (result: Fields)
    requires AreKeyStarts(fm, |fm|, starts)
    ensures result == Collect(Split(fm).spans)
  {
    hide Strip, OpensKey, IndexOf, AddSpan, Split;
    SpanCount(fm, starts);
    result := map[];
    ghost var spans := Split(fm).spans;
    for n := 0 to |starts|
      invariant result == Collect(spans[..n])
    {
      SpanAt(fm, starts, n);
      result := ReadField(fm, starts[n], SpanEnd(fm, starts, n + 1), result);
      assert spans[..n + 1][..n] == spans[..n];
    }
    assert spans[..|starts|] == spans;
  }

  /** `_parse_skill_frontmatter_fields`. */
  method ParseSkillFrontmatterFields(body: string) returns (r: Result<Fields>)
    ensures r == ParseLines(SplitLines(body))
  {
    var lines := SplitLines(body);
    var bounds := FrontmatterBounds(lines);
    assert lines[0..] == lines;
    if bounds.Err? {
      DelimiterFound(lines, 0, |lines|);
      return Err(bounds.error);
    }
    var start := bounds.value.0;
    var fm := lines[start + 1..if bounds.value.1.Some? then bounds.value.1.value else |lines|];
    assert fm == FrontmatterLines(lines);
    var starts := KeyStarts(fm);
    PeelPreamble(fm, starts);
    hide LinesBeforeDelimiter, Split, Collect, AnyElided, OpensKey, FrontmatterLines;
    if AnyElided(lines[..start + 1]) {
      return Err(ElisionAboveStart);
    }
    if AnyElided(fm[..SpanEnd(fm, starts, 0)]) {
      return Err(ElisionInPreamble);
    }
    var result := ReadFields(fm, starts);
    return Ok(result);
  }

  /** `_reject_elided_fields`: the first measured field whose raw text holds
      a marker. */
  method RejectElidedFields(fields: Fields) returns (rejected: Option<MeasurementError>)
    ensures rejected.None? <==> forall n | 0 <= n < |MEASURED_FIELDS| :: !IsElidedField(fields, MEASURED_FIELDS[n])
    ensures rejected.Some? ==>
              exists n | 0 <= n < |MEASURED_FIELDS| ::
                && rejected.value == ElidedField(MEASURED_FIELDS[n])
                && IsElidedField(fields, MEASURED_FIELDS[n])
                && forall m | 0 <= m < n :: !IsElidedField(fields, MEASURED_FIELDS[m])
  {
    for n := 0 to |MEASURED_FIELDS|
      invariant forall m | 0 <= m < n :: !IsElidedField(fields, MEASURED_FIELDS[m])
    {
      var key := MEASURED_FIELDS[n];
      if key in fields && Contains(fields[key].raw, ELISION) {
        return Some(ElidedField(key));
      }
    }
    return None;
  }

  /** `_skill_info_from_frontmatter`, on the body text it has resolved. */
  method SkillInfoFromBody(name: string, body: string) returns (r: Result<SkillInfo>)
    ensures r == InfoOfBody(name, body)
  {
    var fields := ParseSkillFrontmatterFields(body);
    if fields.Err? {
      return Err(fields.error);
    }
    var rejected := RejectElidedFields(fields.value);
    if rejected.Some? {
      return Err(rejected.value);
    }
    assert !IsElidedField(fields.value, MEASURED_FIELDS[0]);
    assert !IsElidedField(fields.value, MEASURED_FIELDS[1]);
    assert !IsElidedField(fields.value, MEASURED_FIELDS[2]);
    if "description" !in fields.value {
      return Err(NoDescription);
    }
    return Ok(SkillInfo(
                name,
                fields.value["description"].value,
                Strip(ValueOr(fields.value, "context", "")) == "fork",
                Lower(Strip(ValueOr(fields.value, "disable-model-invocation", ""))) == "true"));
  }
}
