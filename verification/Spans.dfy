/** The span partition behind the guards of
    `scripts/context_floor_skill_body.py`: it tiles the frontmatter, it is the
    only partition of its kind, and no marker is attributed away from the
    field it sits in. */
module Spans {
  import opened PyText
  import opened Frontmatter

  function Concat(parts: seq<seq<string>>): (lines: seq<string>)
  {
    if parts == [] then [] else parts[0] + Concat(parts[1..])
  }

  /** Preamble and spans put back together are the frontmatter lines, with no
      gap and no overlap. */
  lemma {:induction false} PartitionTiles(fm: seq<string>)
    ensures Split(fm).preamble + Concat(Split(fm).spans) == fm
  {
    if fm != [] {
      PartitionTiles(fm[1..]);
      var p := Split(fm[1..]);
      if OpensKey(fm[0]) {
        assert Concat([[fm[0]] + p.preamble] + p.spans) == [fm[0]] + p.preamble + Concat(p.spans);
        assert [fm[0]] + p.preamble + Concat(p.spans) == [fm[0]] + fm[1..];
      } else {
        assert [fm[0]] + p.preamble + Concat(p.spans) == [fm[0]] + fm[1..];
      }
    }
  }

  /** There is one way only to cut the lines into a preamble that opens no key
      and spans that each open exactly one, at their first line. */
  lemma {:induction false} PartitionUnique(preamble: seq<string>, spans: seq<seq<string>>)
    requires forall i | 0 <= i < |preamble| :: !OpensKey(preamble[i])
    requires forall n | 0 <= n < |spans| :: IsSpan(spans[n])
    ensures Split(preamble + Concat(spans)) == Partition(preamble, spans)
    decreases |spans|
  {
    if spans == [] {
      SplitKeyless(preamble, []);
      assert preamble + [] == preamble;
    } else {
      PartitionUnique([], spans[1..]);
      var rest := Concat(spans[1..]);
      assert [] + rest == rest;
      SplitKeyed(spans[0], rest);
      assert spans[0] + [] == spans[0];
      assert [spans[0]] + spans[1..] == spans;
      SplitKeyless(preamble, Concat(spans));
      assert preamble + [] == preamble;
    }
  }

  /** Folding below a key line reads lines of that key's span only. */
  lemma FoldingStaysInside(fm: seq<string>, n: nat)
    requires n < |Split(fm).spans|
    ensures var spans := Split(fm).spans;
            var below := spans[n][1..] + Concat(spans[n + 1..]);
            && FoldLength(below) <= |spans[n]| - 1
            && Folded(below) == Folded(spans[n][1..])
  {
    var spans := Split(fm).spans;
    var after := Concat(spans[n + 1..]);
    if n + 1 < |spans| {
      assert spans[n + 1..][0] == spans[n + 1];
    }
    FoldStaysInSpan(spans[n][1..], after);
  }

  lemma AddSpanKeepsRaw(acc: Fields, span: seq<string>, key: string, text: string)
    requires IsSpan(span) && key in acc && Contains(acc[key].raw, text)
    ensures key in AddSpan(acc, span) && Contains(AddSpan(acc, span)[key].raw, text)
  {
    if key == KeyOf(span[0]) {
      var earlier, raw := acc[key].raw, Join("\n", span);
      ContainsIn("", earlier, "\n" + raw, text);
      assert "" + earlier + ("\n" + raw) == earlier + "\n" + raw;
    }
  }

  lemma AddSpanHoldsLines(acc: Fields, span: seq<string>, i: nat)
    requires IsSpan(span) && i < |span|
    ensures Contains(AddSpan(acc, span)[KeyOf(span[0])].raw, span[i])
  {
    var raw := Join("\n", span);
    JoinContains("\n", span, i);
    if KeyOf(span[0]) in acc {
      var earlier := acc[KeyOf(span[0])].raw + "\n";
      ContainsIn(earlier, raw, "", span[i]);
      assert earlier + raw + "" == earlier + raw;
    }
  }

  /** The raw text kept for a key contains every line of every span that
      opens it, whatever value the key ends up with. */
  lemma {:induction false} RawKeepsEveryLine(spans: seq<seq<string>>, n: nat, i: nat)
    requires forall m | 0 <= m < |spans| :: IsSpan(spans[m])
    requires n < |spans| && i < |spans[n]|
    ensures KeyOf(spans[n][0]) in Collect(spans)
    ensures Contains(Collect(spans)[KeyOf(spans[n][0])].raw, spans[n][i])
    decreases |spans|
  {
    var last := |spans| - 1;
    if n == last {
      AddSpanHoldsLines(Collect(spans[..last]), spans[last], i);
    } else {
      RawKeepsEveryLine(spans[..last], n, i);
      AddSpanKeepsRaw(Collect(spans[..last]), spans[last], KeyOf(spans[n][0]), spans[n][i]);
    }
  }

  /** Line `i` belongs to the key opened at line `j`. */
  ghost predicate NearestKey(fm: seq<string>, i: nat, j: nat) {
    j <= i < |fm| && OpensKey(fm[j]) && forall k | j < k <= i :: !OpensKey(fm[k])
  }

  /** Every line is in the preamble or in the span its nearest key opens. */
  lemma {:induction false} LineIsCovered(fm: seq<string>, i: nat) returns (n: nat, at: nat, j: nat)
    requires i < |fm|
    ensures var p := Split(fm);
            if i < |p.preamble| then p.preamble[i] == fm[i]
            else
              && NearestKey(fm, i, j)
              && n < |p.spans| && at < |p.spans[n]|
              && p.spans[n][0] == fm[j] && p.spans[n][at] == fm[i]
              && (OpensKey(fm[0]) && n == 0 ==> j == 0)
    decreases |fm|
  {
    n, at, j := 0, 0, 0;
    var p := Split(fm[1..]);
    if i > 0 {
      n, at, j := LineIsCovered(fm[1..], i - 1);
      assert fm[1..][i - 1] == fm[i];
      if i - 1 < |p.preamble| {
        if OpensKey(fm[0]) {
          PreambleIsPrefix(fm[1..]);
          n, at, j := 0, i, 0;
          assert forall k | 0 < k <= i :: fm[k] == p.preamble[k - 1];
        }
      } else {
        j := j + 1;
        assert forall k | j < k <= i :: fm[k] == fm[1..][k - 1];
        if OpensKey(fm[0]) {
          n := n + 1;
        }
      }
    }
  }

  lemma PreambleIsPrefix(fm: seq<string>)
    ensures Split(fm).preamble <= fm
  {
    PartitionTiles(fm);
  }

  /** No marker gets away: when the parser accepts a body, every marker in its
      frontmatter lies in the raw text kept for the nearest key at or above
      it, even when that key is repeated and its value overwritten. */
  lemma MarkersAreAttributed(lines: seq<string>, i: nat)
    requires ParseLines(lines).Ok?
    requires i < |FrontmatterLines(lines)| && Elided(FrontmatterLines(lines)[i])
    ensures var fm, fields := FrontmatterLines(lines), ParseLines(lines).value;
            exists j: nat | j <= i ::
              && NearestKey(fm, i, j)
              && KeyOf(fm[j]) in fields
              && Contains(fields[KeyOf(fm[j])].raw, fm[i])
              && Elided(fields[KeyOf(fm[j])].raw)
  {
    var fm := FrontmatterLines(lines);
    var p := Split(fm);
    var n, at, j := LineIsCovered(fm, i);
    assert i >= |p.preamble|;
    RawKeepsEveryLine(p.spans, n, at);
    var raw := Collect(p.spans)[KeyOf(fm[j])].raw;
    ContainsTrans(raw, fm[i], ELISION);
    assert NearestKey(fm, i, j);
  }

  /** So the reported description was read from text without a marker. */
  lemma ReportedFieldsHoldNoMarker(name: string, lines: seq<string>, i: nat, j: nat)
    requires InfoOfLines(name, lines).Ok?
    requires i < |FrontmatterLines(lines)| && NearestKey(FrontmatterLines(lines), i, j)
    requires KeyOf(FrontmatterLines(lines)[j]) in MEASURED_FIELDS
    ensures !Elided(FrontmatterLines(lines)[i])
  {
    var fm := FrontmatterLines(lines);
    if Elided(fm[i]) {
      MarkersAreAttributed(lines, i);
      var j' :| 0 <= j' <= i && NearestKey(fm, i, j') && Elided(ParseLines(lines).value[KeyOf(fm[j'])].raw);
      NearestKeyUnique(fm, i, j, j');
      MeasuredIsGuarded(name, ParseLines(lines).value, KeyOf(fm[j]));
    }
  }

  lemma NearestKeyUnique(fm: seq<string>, i: nat, j: nat, k: nat)
    requires NearestKey(fm, i, j) && NearestKey(fm, i, k)
    ensures j == k
  {
  }

  lemma MeasuredIsGuarded(name: string, fields: Fields, key: string)
    requires Measure(name, fields).Ok? && key in MEASURED_FIELDS
    ensures !IsElidedField(fields, key)
  {
    assert MEASURED_FIELDS == [MEASURED_FIELDS[0], MEASURED_FIELDS[1], MEASURED_FIELDS[2]];
  }
}
