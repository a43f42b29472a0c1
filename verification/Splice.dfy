/** The case the evaluator of `scripts/context_floor_skill_body.py` is for: parts that
    cannot be read, spliced into unmeasured fields. The script resolves past them, and is
    right about every deployed body in which each of them is without a line break. */
module Splice {
  import opened PyText
  import opened Frontmatter
  import opened Template
  import opened NonInterference
  import opened LineFills
  import opened BodyResolver
  import Exactness
  import Spans

  /** The markers of an accepted body that only stand in the values of unmeasured keys. */
  ghost predicate SplicedUnmeasured(lines: seq<string>) {
    && LinesBeforeDelimiter(lines) < |lines|
    && !AnyElided(lines[..LinesBeforeDelimiter(lines)])
    && forall i | 0 <= i < |FrontmatterLines(lines)| && Elided(FrontmatterLines(lines)[i]) ::
         OpensKey(FrontmatterLines(lines)[i]) && KeyOf(FrontmatterLines(lines)[i]) !in MEASURED_FIELDS
  }

  // ----- Such a body is accepted ----------------------------------------------------------

  lemma {:induction false} SpanLines(fm: seq<string>, n: nat, i: nat)
    requires n < |Split(fm).spans| && i < |Split(fm).spans[n]|
    ensures Split(fm).spans[n][i] in fm
  {
    var p := Split(fm[1..]);
    Spans.PreambleIsPrefix(fm[1..]);
    if OpensKey(fm[0]) && n == 0 {
      assert i > 0 ==> p.preamble[i - 1] == fm[1..][i - 1];
    } else {
      SpanLines(fm[1..], if OpensKey(fm[0]) then n - 1 else n, i);
    }
  }

  lemma {:induction false} JoinElided(parts: seq<string>)
    requires Elided(Join("\n", parts))
    ensures exists i | 0 <= i < |parts| :: Elided(parts[i])
  {
    hide Elided;
    if parts == [] {
      Exactness.ElidedHasMark("");
    } else if |parts| > 1 {
      NoStraddle(parts[0], Join("\n", parts[1..]));
      if !Elided(parts[0]) {
        JoinElided(parts[1..]);
        var i :| 0 <= i < |parts[1..]| && Elided(parts[1..][i]);
        assert Elided(parts[i + 1]);
      }
    }
  }

  /** A marker in the raw text of a key stands in a line of a span of that key. */
  lemma {:induction false} RawElided(spans: seq<seq<string>>, key: string)
    requires forall n | 0 <= n < |spans| :: IsSpan(spans[n])
    requires IsElidedField(Collect(spans), key)
    ensures exists n, i :: 0 <= n < |spans| && 0 <= i < |spans[n]| && KeyOf(spans[n][0]) == key && Elided(spans[n][i])
    decreases |spans|
  {
    hide Elided, KeyOf, OpensKey, ValueOf;
    if spans != [] {
      var front, last := spans[..|spans| - 1], spans[|spans| - 1];
      var raw := Join("\n", last);
      if KeyOf(last[0]) == key && Elided(raw) {
        JoinElided(last);
        var i :| 0 <= i < |last| && Elided(last[i]);
        assert Elided(spans[|spans| - 1][i]);
      } else {
        if KeyOf(last[0]) == key {
          NoStraddle(Collect(front)[key].raw, raw);
        }
        RawElided(front, key);
        var n, i :| 0 <= n < |front| && 0 <= i < |front[n]| && KeyOf(front[n][0]) == key && Elided(front[n][i]);
        assert spans[n] == front[n];
      }
    }
  }

  lemma SplicedParses(lines: seq<string>)
    requires SplicedUnmeasured(lines)
    ensures ParseLines(lines) == Ok(Collect(Split(FrontmatterLines(lines)).spans))
  {
    hide Elided, IsDelimiter, OpensKey, KeyOf, Collect, Split;
    var start, fm := LinesBeforeDelimiter(lines), FrontmatterLines(lines);
    var p := Split(fm);
    LinesBeforeDelimiterMeaning(lines, start);
    if Elided(lines[start]) {
      ElidedIsNoDelimiter(lines[start]);
    }
    assert !AnyElided(lines[..start + 1]) by {
      assert lines[..start + 1] == lines[..start] + [lines[start]];
      forall i | 0 <= i < start ensures !Elided(lines[i]) {
        assert lines[..start][i] == lines[i];
      }
    }
    Spans.PreambleIsPrefix(fm);
    assert forall i | 0 <= i < |p.preamble| :: p.preamble[i] == fm[i] && !OpensKey(p.preamble[i]);
    assert !AnyElided(p.preamble);
  }

  /** A line with a marker is the first of its span, under an unmeasured key. */
  lemma SplicedLine(fm: seq<string>, n: nat, i: nat)
    requires n < |Split(fm).spans| && i < |Split(fm).spans[n]| && Elided(Split(fm).spans[n][i])
    requires forall k | 0 <= k < |fm| && Elided(fm[k]) :: OpensKey(fm[k]) && KeyOf(fm[k]) !in MEASURED_FIELDS
    ensures KeyOf(Split(fm).spans[n][0]) !in MEASURED_FIELDS
  {
    hide Elided, OpensKey, KeyOf, Split;
    SpanLines(fm, n, i);
    var k :| 0 <= k < |fm| && fm[k] == Split(fm).spans[n][i];
    assert IsSpan(Split(fm).spans[n]) && OpensKey(fm[k]);
    assert i == 0;
  }

  lemma SplicedIsGuarded(fm: seq<string>, key: string)
    requires forall k | 0 <= k < |fm| && Elided(fm[k]) :: OpensKey(fm[k]) && KeyOf(fm[k]) !in MEASURED_FIELDS
    requires key in MEASURED_FIELDS
    ensures !IsElidedField(Collect(Split(fm).spans), key)
  {
    hide Elided, OpensKey, KeyOf, Split, Collect, IsElidedField;
    var spans := Split(fm).spans;
    if IsElidedField(Collect(spans), key) {
      RawElided(spans, key);
      var n, i :| 0 <= n < |spans| && 0 <= i < |spans[n]| && KeyOf(spans[n][0]) == key && Elided(spans[n][i]);
      SplicedLine(fm, n, i);
    }
  }

  lemma AddSpanKeys(acc: Fields, span: seq<string>)
    requires IsSpan(span)
    ensures AddSpan(acc, span).Keys == acc.Keys + {KeyOf(span[0])}
  {
    hide KeyOf, ValueOf, OpensKey;
  }

  lemma {:induction false} CollectedKeys(spans: seq<seq<string>>, key: string)
    requires forall n | 0 <= n < |spans| :: IsSpan(spans[n])
    ensures key in Collect(spans) <==> exists n | 0 <= n < |spans| :: KeyOf(spans[n][0]) == key
    decreases |spans|
  {
    hide KeyOf, OpensKey, AddSpan;
    if spans != [] {
      var front := spans[..|spans| - 1];
      CollectedKeys(front, key);
      AddSpanKeys(Collect(front), spans[|spans| - 1]);
      if n :| 0 <= n < |front| && KeyOf(front[n][0]) == key {
        assert spans[n] == front[n];
      }
      if n :| 0 <= n < |spans| && KeyOf(spans[n][0]) == key {
        assert n < |front| ==> front[n] == spans[n];
      }
    }
  }

  lemma {:induction false} SpanKeys(fm: seq<string>, key: string)
    ensures (exists n | 0 <= n < |Split(fm).spans| :: KeyOf(Split(fm).spans[n][0]) == key) <==>
            exists i | 0 <= i < |fm| :: OpensKey(fm[i]) && KeyOf(fm[i]) == key
  {
    hide KeyOf, OpensKey;
    if fm != [] {
      var spans, rest := Split(fm).spans, Split(fm[1..]).spans;
      SpanKeys(fm[1..], key);
      assert forall i | 1 <= i < |fm| :: fm[i] == fm[1..][i - 1];
      assert forall i | 0 <= i < |fm| - 1 :: fm[1..][i] == fm[i + 1];
      if OpensKey(fm[0]) {
        assert spans[0][0] == fm[0];
        assert forall n | 1 <= n < |spans| :: spans[n] == rest[n - 1];
        assert forall n | 0 <= n < |rest| :: rest[n] == spans[n + 1];
      } else {
        assert spans == rest;
      }
    }
  }

  /** It is accepted exactly if it has a description, and refused for nothing else. */
  lemma SplicedIsAccepted(name: string, lines: seq<string>)
    requires SplicedUnmeasured(lines)
    ensures InfoOfLines(name, lines).Ok? || InfoOfLines(name, lines) == Err(NoDescription)
    ensures InfoOfLines(name, lines).Ok? <==>
              exists i | 0 <= i < |FrontmatterLines(lines)| ::
                OpensKey(FrontmatterLines(lines)[i]) && KeyOf(FrontmatterLines(lines)[i]) == "description"
  {
    hide OpensKey, KeyOf, Elided, Split, Collect, LinesBeforeDelimiter, IsDelimiter, AnyElided;
    var fm := FrontmatterLines(lines);
    SplicedParses(lines);
    hide SplicedUnmeasured, ParseLines;
    forall n | 0 <= n < |MEASURED_FIELDS| ensures !IsElidedField(Collect(Split(fm).spans), MEASURED_FIELDS[n]) {
      SplicedIsGuarded(fm, MEASURED_FIELDS[n]);
    }
    CollectedKeys(Split(fm).spans, "description");
    SpanKeys(fm, "description");
  }

  // ----- And says what every deployed body says ----------------------------------------------

  lemma SplicedIsBehindKeys(lines: seq<string>)
    requires SplicedUnmeasured(lines)
    ensures MarkersBehindKeys(lines)
  {
    hide Elided, IsDelimiter, OpensKey, KeyOf, LinesBeforeDelimiter, AnyElided;
    var start := LinesBeforeDelimiter(lines);
    forall i: nat | Between(lines, i) && Elided(lines[i]) ensures OpensKey(lines[i]) {
      assert FrontmatterLines(lines)[i - start - 1] == lines[i];
    }
  }

  /** For every template whose markers only stand in the values of unmeasured keys, and
      every fill without line breaks: the script and the deployed body agree, on the
      skill info and on the lack of a description alike. */
  lemma ResolvedPastSplices(name: string, t: seq<Sym>, fill: Fill)
    requires SplicedUnmeasured(SplitLines(Marked(t))) && OneLine(t, fill)
    ensures InfoOfBody(name, Render(t, fill)) == InfoOfBody(name, Marked(t))
  {
    hide Split, Collect, Measure, OneLine, Harmless, SplitLines, Render, Marked, SameFields, LinesBeforeDelimiter,
        OpensKey, KeyOf, Elided, AnyElided;
    var lines := SplitLines(Marked(t));
    var fm := FrontmatterLines(lines);
    SplicedParses(lines);
    SplicedIsBehindKeys(lines);
    BehindKeysIsHarmless(t, fill);
    hide ParseLines;
    FieldsSurviveFilling(t, fill);
    var marked, filled := ParseLines(lines).value, ParseLines(SplitLines(Render(t, fill))).value;
    forall n | 0 <= n < |MEASURED_FIELDS| ensures !IsElidedField(marked, MEASURED_FIELDS[n]) {
      SplicedIsGuarded(fm, MEASURED_FIELDS[n]);
    }
    MeasureSame(name, marked, filled);
  }

  // ----- An instance: a spliced name -----------------------------------------------------------

  const SKILL := Plus(Plus(Str("---\nname:"), Other(0)), Str("\ndescription:a\n---\n"))

  const BODY := Chars("---\nname:") + [Hole(0)] + Chars("\ndescription:a\n---\n")

  lemma BodyRendered(fill: Fill)
    ensures Render(BODY, fill) == "---\nname:" + fill(0) + "\ndescription:a\n---\n"
  {
    hide Chars, Render;
    RenderConcat(Chars("---\nname:") + [Hole(0)], Chars("\ndescription:a\n---\n"), fill);
    RenderConcat(Chars("---\nname:"), [Hole(0)], fill);
    CharsRender("---\nname:", fill);
    CharsRender("\ndescription:a\n---\n", fill);
    RenderOne(Hole(0), fill);
  }

  lemma LinesUnbroken()
    ensures Unbroken("---") && Unbroken("description:a") && Unbroken("name:" + ELISION)
  {
    MarkerUnbroken();
    assert Unbroken("name:");
    assert forall c | c in "name:" + ELISION :: c in "name:" || c in ELISION;
  }

  lemma TextIs(x: string)
    ensures "---\nname:" + x + "\ndescription:a\n---\n"
            == "---" + ("\n" + ("name:" + x + ("\n" + ("description:a" + ("\n" + ("---" + ("\n" + "")))))))
  {
  }

  lemma MarkedSplit()
    ensures SplitLines("---\nname:" + ELISION + "\ndescription:a\n---\n")
            == ["---", "name:" + ELISION, "description:a", "---"]
  {
    var a, b, last := "name:" + ELISION, "description:a", "---" + ("\n" + "");
    var rest := b + ("\n" + last);
    LinesUnbroken();
    TextIs(ELISION);
    hide Scan, IsBreak;
    Exactness.LineScan(START, "---", a + ("\n" + rest));
    var s1 := Scanner([] + ["" + "---"], "", false);
    Exactness.LineScan(s1, a, rest);
    var s2 := Scanner(s1.lines + ["" + a], "", false);
    Exactness.LineScan(s2, b, last);
    var s3 := Scanner(s2.lines + ["" + b], "", false);
    Exactness.LineScan(s3, "---", "");
    var s4 := Scanner(s3.lines + ["" + "---"], "", false);
    Exactness.ScanNothing(s4);
    assert "" + a == a && "" + b == b && "" + "---" == "---";
    assert s4.lines == ["---", a, b, "---"];
  }

  lemma MarkedLines()
    ensures SplitLines(Marked(BODY)) == ["---", "name:" + ELISION, "description:a", "---"]
  {
    hide Chars, SplitLines, Render;
    var marked: Fill := _ => ELISION;
    BodyRendered(marked);
    MarkedSplit();
  }

  lemma {:induction false} CharsHoldNoHole(s: string)
    ensures forall i | 0 <= i < |Chars(s)| :: Chars(s)[i].Ch?
  {
    if s != "" {
      CharsHoldNoHole(s[1..]);
    }
  }

  lemma OneHole(v: Fill)
    requires Unbroken(v(0))
    ensures OneLine(BODY, v)
  {
    hide Chars, Unbroken;
    CharsHoldNoHole("---\nname:");
    CharsHoldNoHole("\ndescription:a\n---\n");
  }

  lemma NameLine(x: string)
    ensures var line := "name:" + x; OpensKey(line) && KeyOf(line) == "name" && !IsDelimiter(line)
  {
    var line := "name:" + x;
    assert line[4] == ':' && line[..4] == "name";
    IndexOfUnique(line, ':', 4);
    Exactness.NoMarkBefore("name", "");
    assert "name" + "" == "name";
    StripKeeps(line, ':');
    assert Strip("name") == "name";
  }

  lemma BoundsOfFour(d: string, a: string, b: string)
    requires IsDelimiter(d) && !IsDelimiter(a) && !IsDelimiter(b)
    ensures var lines := [d, a, b, d];
      && LinesBeforeDelimiter(lines) == 0 && LinesBeforeDelimiter(lines[1..]) == 2
      && FrontmatterLines(lines) == [a, b]
  {
    hide IsDelimiter;
    var lines := [d, a, b, d];
    assert lines[1..] == [a, b, d] && [a, b, d][1..] == [b, d] && [b, d][1..] == [d];
    assert LinesBeforeDelimiter([d]) == 0;
    assert LinesBeforeDelimiter([b, d]) == 1;
  }

  lemma DescriptionKey()
    ensures var b := "description:a"; OpensKey(b) && KeyOf(b) == "description" && !Elided(b) && !IsDelimiter(b)
    ensures IsDelimiter("---") && "name" !in MEASURED_FIELDS
  {
    Exactness.DashesDelimit();
    hide OpensKey, KeyOf, Elided, IsDelimiter, ValueOf, Exactness.PlainWord;
    assert "description:a" == "description:" + "a";
    Exactness.LettersArePlain();
    Exactness.DescriptionLine("a");
    assert |"name"| == 4 && |"description"| == 11 && |"context"| == 7 && |"disable-model-invocation"| == 24;
  }

  /** The skill is reported past an unreadable name, and the report is that of every
      deployed body whose name is a single line. */
  lemma ResolvedPastName(name: string, v: Fill, body: string)
    requires Unbroken(v(0)) && HasValue(SKILL, map[], v, body)
    ensures InfoOf(name, SKILL, map[]).Ok? && InfoOfBody(name, body) == InfoOf(name, SKILL, map[])
  {
    hide Chars, OpensKey, KeyOf, Elided, IsDelimiter, LinesBeforeDelimiter, FrontmatterLines, SplitLines, Render,
        Marked, InfoOfLines, HasValue, OneLine;
    var lines := SplitLines(Marked(BODY));
    var a, b := "name:" + ELISION, "description:a";
    MarkedLines();
    NameLine(ELISION);
    DescriptionKey();
    BoundsOfFour("---", a, b);
    assert FrontmatterLines(lines) == [a, b] && lines[..0] == [];
    assert FrontmatterLines(lines)[1] == b;
    OneHole(v);
    assert SplicedUnmeasured(lines);
    SplicedIsAccepted(name, lines);
    ResolvedIsMarked(SKILL, map[], 0);
    ResolutionSound(SKILL, map[], v);
    ResolvedPastSplices(name, BODY, v);
  }
}
