/** Why the guards of `scripts/context_floor_skill_body.py` are enough: when
    the script reports a skill, no text the markers could stand for changes
    what it reports, as long as that text does not itself open a key or form a
    delimiter above the closing `---`. */
module NonInterference {
  import opened PyText
  import opened Frontmatter
  import opened Template

  /** None of the filled lines a holed line turns into is a delimiter, and
      none opens a key, except the first when the marked line does too. */
  ghost predicate Discreet(g: Group) {
    g.holed ==>
      forall k | 0 <= k < |g.out| ::
        !IsDelimiter(g.out[k]) && (OpensKey(g.out[k]) ==> k == 0 && OpensKey(g.line))
  }

  ghost predicate AllDiscreet(gs: seq<Group>) {
    forall i | 0 <= i < |gs| :: Discreet(gs[i])
  }

  /** The lines between the two delimiters of the marked text. */
  ghost function Inside(gs: seq<Group>): (inside: seq<Group>)
  {
    var start := LinesBeforeDelimiter(LinesOf(gs));
    if start == |gs| then [] else
      gs[start + 1..][..LinesBeforeDelimiter(LinesOf(gs[start + 1..]))]
  }

  /** Only holed lines between the two delimiters have to be discreet; the
      text below the closing `---` may be anything. */
  ghost predicate Harmless(t: seq<Sym>, fill: Fill) {
    AllDiscreet(Inside(Groups(t, fill)))
  }

  // ----- Holed lines -----------------------------------------------------------

  lemma HoledIsElided(g: Group)
    requires g.Good() && g.holed
    ensures Elided(g.line)
  {
    ContainsSelf(ELISION);
    ContainsIn(g.lit, ELISION, g.line[|g.lit| + |ELISION|..], ELISION);
    assert g.lit + ELISION + g.line[|g.lit| + |ELISION|..] == g.line;
  }

  /** A marker cannot strip to `---`. */
  lemma ElidedIsNoDelimiter(line: string)
    requires Elided(line)
    ensures !IsDelimiter(line)
  {
    var i :| 0 <= i <= |line| - |ELISION| && OccursAt(line, ELISION, i);
    assert line[i] == ELISION[0] == '\U{E000}';
    StripKeeps(line, '\U{E000}');
  }

  /** A key token that reaches past the first hole carries the marker. */
  lemma ColonAfterHole(g: Group)
    requires g.Good() && g.holed && IndexOf(g.line, ':') >= |g.lit|
    ensures Elided(g.line[..IndexOf(g.line, ':')])
  {
    var i := IndexOf(g.line, ':');
    var n := |g.lit|;
    MarkerUnbroken();
    forall k | n <= k < n + |ELISION|
      ensures g.line[k] != ':'
    {
      assert g.line[k] == (g.lit + ELISION)[k] == ELISION[k - n];
    }
    assert |g.lit + ELISION| == n + |ELISION| <= |g.line|;
    assert i < |g.line| ==> g.line[i] == ':';
    assert n + |ELISION| <= i;
    assert g.line[n..n + |ELISION|] == (g.lit + ELISION)[n..] == ELISION;
    hide *;
    SliceOfPrefix(g.line, n, n + |ELISION|, i);
    MarkedHere(g.line[..i], n);
  }

  lemma SliceOfPrefix(s: string, a: nat, b: nat, i: nat)
    requires a <= b <= i <= |s|
    ensures s[..i][a..b] == s[a..b]
  {
  }

  lemma MarkedHere(s: string, n: nat)
    requires n + |ELISION| <= |s| && s[n..n + |ELISION|] == ELISION
    ensures Elided(s)
  {
    assert OccursAt(s, ELISION, n);
  }

  /** A holed line that opens a key has its whole key token before the hole,
      so the filled line opens the same key. */
  lemma KeySurvivesFilling(g: Group)
    requires g.Good() && g.holed && OpensKey(g.line)
    ensures g.out != [] && OpensKey(g.out[0]) && KeyOf(g.out[0]) == KeyOf(g.line)
  {
    var i := IndexOf(g.line, ':');
    if i >= |g.lit| {
      ColonAfterHole(g);
    }
    assert g.lit == g.line[..|g.lit|] == g.out[0][..|g.lit|];
    assert g.out[0][..i] == g.lit[..i] == g.line[..i];
    assert g.out[0][i] == g.lit[i] == g.line[i];
    IndexOfUnique(g.out[0], ':', i);
  }

  // ----- The two partitions ------------------------------------------------------

  ghost predicate SameSpan(marked: seq<string>, filled: seq<string>) {
    && IsSpan(marked) && IsSpan(filled)
    && KeyOf(marked[0]) == KeyOf(filled[0])
    && (AnyElided(marked) || marked == filled)
  }

  ghost predicate SamePartition(marked: Partition, filled: Partition) {
    && (AnyElided(marked.preamble) || marked.preamble == filled.preamble)
    && |marked.spans| == |filled.spans|
    && forall n | 0 <= n < |marked.spans| :: SameSpan(marked.spans[n], filled.spans[n])
  }

  lemma AnyElidedAt(lines: seq<string>, i: nat)
    requires i < |lines| && Elided(lines[i])
    ensures AnyElided(lines)
  {
  }

  /** Line by line, the marked and the filled frontmatter are cut at the same
      keys, and every span or preamble without a marker is word for word the
      same. */
  lemma {:induction false} PartitionsAgree(gs: seq<Group>)
    requires AllGood(gs)
    requires AllDiscreet(gs)
    ensures SamePartition(Split(LinesOf(gs)), Split(OutOf(gs)))
  {
    if gs != [] {
      var g, rest := gs[0], gs[1..];
      PartitionsAgree(rest);
      var marked, filled := Split(LinesOf(rest)), Split(OutOf(rest));
      assert LinesOf(gs) == [g.line] + LinesOf(rest);
      if g.holed {
        HoledIsElided(g);
      }
      if OpensKey(g.line) {
        if g.holed {
          KeySurvivesFilling(g);
          assert Discreet(g);
        }
        SplitKeyed([g.line], LinesOf(rest));
        SplitKeyed(g.out, OutOf(rest));
        KeyedSpansAgree(g, marked, filled);
      } else {
        SplitKeyless([g.line], LinesOf(rest));
        SplitKeyless(g.out, OutOf(rest));
        if g.holed {
          AnyElidedAt([g.line] + marked.preamble, 0);
        } else {
          PrefixedAgree(g.line, marked.preamble, filled.preamble);
        }
      }
    }
  }

  lemma PrefixedAgree(line: string, marked: seq<string>, filled: seq<string>)
    requires AnyElided(marked) || marked == filled
    ensures AnyElided([line] + marked) || [line] + marked == [line] + filled
  {
    if AnyElided(marked) {
      var i :| 0 <= i < |marked| && Elided(marked[i]);
      AnyElidedAt([line] + marked, i + 1);
    }
  }

  lemma KeyedSpansAgree(g: Group, marked: Partition, filled: Partition)
    requires g.Good() && OpensKey(g.line) && IsSpan(g.out) && KeyOf(g.out[0]) == KeyOf(g.line)
    requires g.holed ==> Elided(g.line)
    requires SamePartition(marked, filled)
    requires forall i | 0 <= i < |marked.preamble| :: !OpensKey(marked.preamble[i])
    requires forall i | 0 <= i < |filled.preamble| :: !OpensKey(filled.preamble[i])
    ensures SamePartition(Partition([], [[g.line] + marked.preamble] + marked.spans),
                          Partition([], [g.out + filled.preamble] + filled.spans))
  {
    hide Elided, IsDelimiter, KeyOf;
    var a, b := [g.line] + marked.preamble, g.out + filled.preamble;
    if g.holed {
      AnyElidedAt(a, 0);
    } else {
      PrefixedAgree(g.line, marked.preamble, filled.preamble);
    }
    assert SameSpan(a, b);
  }

  // ----- The two field tables ------------------------------------------------------

  /** A field without a marker anywhere in its raw text is the same field. */
  ghost predicate SameFields(marked: Fields, filled: Fields) {
    && marked.Keys == filled.Keys
    && forall key | key in marked :: Elided(marked[key].raw) || marked[key] == filled[key]
  }

  lemma SpanInRaw(span: seq<string>, earlier: string)
    requires AnyElided(span)
    ensures Elided(Join("\n", span)) && Elided(earlier + "\n" + Join("\n", span))
  {
    var i :| 0 <= i < |span| && Elided(span[i]);
    var raw := Join("\n", span);
    JoinContains("\n", span, i);
    ContainsTrans(raw, span[i], ELISION);
    ContainsIn(earlier + "\n", raw, "", ELISION);
    assert earlier + "\n" + raw + "" == earlier + "\n" + raw;
  }

  lemma RawKeepsEarlier(earlier: string, raw: string)
    requires Elided(earlier)
    ensures Elided(earlier + "\n" + raw)
  {
    ContainsIn("", earlier, "\n" + raw, ELISION);
    assert "" + earlier + ("\n" + raw) == earlier + "\n" + raw;
  }

  lemma {:induction false} FieldsAgree(marked: seq<seq<string>>, filled: seq<seq<string>>)
    requires |marked| == |filled|
    requires forall n | 0 <= n < |marked| :: IsSpan(marked[n])
    requires forall n | 0 <= n < |filled| :: IsSpan(filled[n])
    requires forall n | 0 <= n < |marked| :: SameSpan(marked[n], filled[n])
    ensures SameFields(Collect(marked), Collect(filled))
    decreases |marked|
  {
    if marked != [] {
      var n := |marked| - 1;
      FieldsAgree(marked[..n], filled[..n]);
      AddSpanAgrees(Collect(marked[..n]), Collect(filled[..n]), marked[n], filled[n]);
    }
  }

  lemma AddSpanAgrees(marked: Fields, filled: Fields, a: seq<string>, b: seq<string>)
    requires SameFields(marked, filled) && SameSpan(a, b)
    ensures SameFields(AddSpan(marked, a), AddSpan(filled, b))
  {
    var key := KeyOf(a[0]);
    var earlier := if key in marked then marked[key].raw else "";
    if AnyElided(a) {
      SpanInRaw(a, earlier);
    } else if Elided(earlier) {
      if key !in marked {
        ElidedIsLong(earlier);
      }
      RawKeepsEarlier(earlier, Join("\n", a));
    }
  }

  lemma ElidedIsLong(s: string)
    requires Elided(s)
    ensures s != ""
  {
  }

  // ----- The theorem ------------------------------------------------------------------

  lemma HolesShow(gs: seq<Group>)
    requires AllGood(gs)
    ensures forall i | 0 <= i < |gs| && gs[i].holed :: Elided(LinesOf(gs)[i])
  {
    forall i | 0 <= i < |gs| && gs[i].holed
      ensures Elided(LinesOf(gs)[i])
    {
      HoledIsElided(gs[i]);
    }
  }

  /** Lines without a hole are the same in both texts. */
  lemma {:induction false} UnholedOut(gs: seq<Group>)
    requires AllGood(gs)
    requires forall i | 0 <= i < |gs| :: !gs[i].holed
    ensures OutOf(gs) == LinesOf(gs)
  {
    if gs != [] {
      UnholedOut(gs[1..]);
    }
  }

  lemma {:induction false} NoDelimiterOut(gs: seq<Group>)
    requires AllGood(gs)
    requires AllDiscreet(gs)
    requires forall i | 0 <= i < |gs| :: !IsDelimiter(gs[i].line)
    ensures forall i | 0 <= i < |OutOf(gs)| :: !IsDelimiter(OutOf(gs)[i])
  {
    if gs != [] {
      assert Discreet(gs[0]);
      NoDelimiterOut(gs[1..]);
    }
  }

  lemma LinesOfSlice(gs: seq<Group>, n: nat)
    requires n <= |gs|
    ensures LinesOf(gs[..n]) == LinesOf(gs)[..n] && LinesOf(gs[n..]) == LinesOf(gs)[n..]
    ensures OutOf(gs) == OutOf(gs[..n]) + OutOf(gs[n..])
    ensures AllGood(gs) ==> AllGood(gs[..n]) && AllGood(gs[n..])
  {
    hide Group.Good;
    assert gs == gs[..n] + gs[n..];
    OutConcat(gs[..n], gs[n..]);
  }

  /** Cut at the first delimiter, the filled text has the filled lines of the
      groups above it, then that same delimiter. */
  lemma DelimiterStays(gs: seq<Group>, n: nat)
    requires AllGood(gs)
    requires n == LinesBeforeDelimiter(LinesOf(gs))
    requires AllDiscreet(gs[..n])
    ensures OutOf(gs) == OutOf(gs[..n]) + OutOf(gs[n..])
    ensures LinesBeforeDelimiter(OutOf(gs)) == |OutOf(gs[..n])|
    ensures n < |gs| ==> OutOf(gs[n..]) == [gs[n].line] + OutOf(gs[n + 1..])
    ensures n == |gs| ==> OutOf(gs) == OutOf(gs[..n])
  {
    var above, below := OutOf(gs[..n]), OutOf(gs[n..]);
    LinesOfSlice(gs, n);
    LinesBeforeDelimiterMeaning(LinesOf(gs), n);
    NoDelimiterOut(gs[..n]);
    if n < |gs| {
      var g := gs[n];
      if g.holed {
        HoledIsElided(g);
        ElidedIsNoDelimiter(g.line);
      }
      assert gs[n..][1..] == gs[n + 1..];
      assert (above + below)[|above|] == g.line;
    } else {
      assert gs[n..] == [];
    }
    assert forall i | 0 <= i < |above| :: (above + below)[i] == above[i];
    LinesBeforeDelimiterMeaning(above + below, |above|);
  }

  lemma AnyElidedPrefix(lines: seq<string>, n: nat, m: nat)
    requires n <= m <= |lines| && !AnyElided(lines[..m])
    ensures !AnyElided(lines[..n])
  {
    hide Elided;
    forall i | 0 <= i < n ensures !Elided(lines[..n][i]) {
      assert lines[..n][i] == lines[..m][i];
    }
  }

  lemma UnholedIsDiscreet(gs: seq<Group>)
    requires AllGood(gs)
    requires !AnyElided(LinesOf(gs))
    ensures AllDiscreet(gs)
  {
    HolesShow(gs);
  }

  /** Everything up to the opening delimiter is the same in both texts. */
  lemma StartStays(gs: seq<Group>, start: nat)
    requires AllGood(gs)
    requires LinesBeforeDelimiter(LinesOf(gs)) == start < |gs|
    requires !AnyElided(LinesOf(gs)[..start])
    ensures OutOf(gs) == LinesOf(gs)[..start] + ([gs[start].line] + OutOf(gs[start + 1..]))
    ensures LinesBeforeDelimiter(OutOf(gs)) == start
  {
    AboveStays(gs, start);
    DelimiterStays(gs, start);
  }

  lemma AboveStays(gs: seq<Group>, n: nat)
    requires AllGood(gs) && n <= |gs|
    requires !AnyElided(LinesOf(gs)[..n])
    ensures OutOf(gs[..n]) == LinesOf(gs)[..n] && AllDiscreet(gs[..n])
  {
    LinesOfSlice(gs, n);
    UnholedIsDiscreet(gs[..n]);
    HolesShow(gs[..n]);
    UnholedOut(gs[..n]);
  }

  lemma RestStays(rest: seq<Group>, n: nat)
    requires AllGood(rest) && n == LinesBeforeDelimiter(LinesOf(rest))
    requires AllDiscreet(rest[..n])
    ensures LinesOf(rest)[..n] == LinesOf(rest[..n])
    ensures OutOf(rest)[..LinesBeforeDelimiter(OutOf(rest))] == OutOf(rest[..n])
  {
    DelimiterStays(rest, n);
    LinesOfSlice(rest, n);
  }

  lemma CutAt(filled: seq<string>, above: seq<string>, delimiter: string, below: seq<string>)
    requires filled == above + ([delimiter] + below)
    ensures |filled| > |above|
    ensures filled[..|above| + 1] == above + [delimiter]
    ensures filled[|above| + 1..] == below
  {
  }

  /** The frontmatter of the filled text is exactly what the frontmatter lines
      of the marked text turn into. */
  lemma FrontmatterStays(gs: seq<Group>, marked: seq<string>, filled: seq<string>)
    requires AllGood(gs) && marked == LinesOf(gs) && filled == OutOf(gs)
    requires ParseLines(marked).Ok?
    requires AllDiscreet(Inside(gs))
    ensures LinesBeforeDelimiter(filled) == LinesBeforeDelimiter(marked) < |filled|
    ensures filled[..LinesBeforeDelimiter(marked) + 1] == marked[..LinesBeforeDelimiter(marked) + 1]
    ensures FrontmatterLines(marked) == LinesOf(Inside(gs))
    ensures FrontmatterLines(filled) == OutOf(Inside(gs))
  {
    hide Group.Good, Elided, IsDelimiter, Discreet, OpensKey, LinesBeforeDelimiter, OutOf, Split, Collect;
    var start := LinesBeforeDelimiter(marked);
    var rest := gs[start + 1..];
    AnyElidedPrefix(marked, start, start + 1);
    StartStays(gs, start);
    CutAt(filled, marked[..start], marked[start], OutOf(rest));
    LinesOfSlice(gs, start + 1);
    RestStays(rest, LinesBeforeDelimiter(LinesOf(rest)));
  }

  lemma MeasureSame(name: string, marked: Fields, filled: Fields)
    requires SameFields(marked, filled)
    requires forall n | 0 <= n < |MEASURED_FIELDS| :: !IsElidedField(marked, MEASURED_FIELDS[n])
    ensures Measure(name, filled) == Measure(name, marked)
  {
    forall n | 0 <= n < |MEASURED_FIELDS|
      ensures MEASURED_FIELDS[n] in marked ==>
                MEASURED_FIELDS[n] in filled && marked[MEASURED_FIELDS[n]] == filled[MEASURED_FIELDS[n]]
    {
      assert !IsElidedField(marked, MEASURED_FIELDS[n]);
    }
    assert MEASURED_FIELDS[0] == "description";
    assert MEASURED_FIELDS[1] == "context";
    assert MEASURED_FIELDS[2] == "disable-model-invocation";
  }

  lemma MeasureAgrees(name: string, marked: Fields, filled: Fields)
    requires SameFields(marked, filled)
    requires Measure(name, marked).Ok?
    ensures Measure(name, filled) == Measure(name, marked)
  {
    assert forall n | 0 <= n < |MEASURED_FIELDS| :: !IsElidedField(marked, MEASURED_FIELDS[n]);
    MeasureSame(name, marked, filled);
  }

  /** Harmless text in the place of the markers leaves the fields that hold none. */
  lemma FieldsSurviveFilling(t: seq<Sym>, fill: Fill)
    requires ParseLines(SplitLines(Marked(t))).Ok?
    requires Harmless(t, fill)
    ensures var marked, filled := ParseLines(SplitLines(Marked(t))), ParseLines(SplitLines(Render(t, fill)));
            filled.Ok? && SameFields(marked.value, filled.value)
  {
    hide Group.Good, Elided, IsDelimiter, Discreet, OpensKey, LinesBeforeDelimiter, OutOf, Split, Collect, LinesOf;
    var gs := Groups(t, fill);
    GroupsAreLines(t, fill);
    FrontmatterStays(gs, LinesOf(gs), OutOf(gs));
    PartitionsAgree(Inside(gs));
    var p, q := Split(LinesOf(Inside(gs))), Split(OutOf(Inside(gs)));
    FieldsAgree(p.spans, q.spans);
    assert ParseLines(OutOf(gs)) == Ok(Collect(q.spans));
  }

  /** Non-interference: whatever harmless text the markers stand for, the
      deployed body has the very skill info the script reports. */
  lemma ReportSurvivesFilling(name: string, t: seq<Sym>, fill: Fill)
    requires InfoOfBody(name, Marked(t)).Ok?
    requires Harmless(t, fill)
    ensures InfoOfBody(name, Render(t, fill)) == InfoOfBody(name, Marked(t))
  {
    hide ParseLines, SameFields, Measure, Harmless;
    FieldsSurviveFilling(t, fill);
    MeasureAgrees(name, ParseLines(SplitLines(Marked(t))).value, ParseLines(SplitLines(Render(t, fill))).value);
  }
}
