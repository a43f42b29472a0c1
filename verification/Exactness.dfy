/** How far the tolerance admitted in the comments of
    `scripts/context_floor_skill_body.py` (lines 257-270) goes: the reported
    skill info is right whatever the unreadable parts turn out to be exactly
    when no frontmatter line has an unreadable part. */
module Exactness {
  import opened PyText
  import opened Frontmatter
  import opened Template
  import opened NonInterference

  /** A line strictly between the delimiters has a hole. */
  ghost predicate HoleInFrontmatter(t: seq<Sym>) {
    var inside := Inside(Groups(t, _ => ELISION));
    exists i | 0 <= i < |inside| :: inside[i].holed
  }

  // ----- The marked side does not depend on the fill ---------------------------

  ghost predicate SameMarked(g: Group, h: Group) {
    g.holed == h.holed && g.lit == h.lit && g.line == h.line
  }

  ghost predicate AllSameMarked(gs: seq<Group>, hs: seq<Group>) {
    |gs| == |hs| && forall i | 0 <= i < |gs| :: SameMarked(gs[i], hs[i])
  }

  ghost predicate SameWeave(v: Weave, w: Weave) {
    v.m == w.m && v.holed == w.holed && v.lit == w.lit && AllSameMarked(v.groups, w.groups)
  }

  lemma {:induction false} WeavesMatch(v: Weave, w: Weave, t: seq<Sym>, f: Fill, g: Fill)
    requires SameWeave(v, w)
    ensures SameWeave(WeaveAll(v, t, f), WeaveAll(w, t, g))
    decreases |t|
  {
    if t != [] {
      WeavesMatch(WeaveStep(v, t[0], f), WeaveStep(w, t[0], g), t[1..], f, g);
    }
  }

  lemma InsideSameMarked(gs: seq<Group>, hs: seq<Group>)
    requires AllSameMarked(gs, hs)
    ensures AllSameMarked(Inside(gs), Inside(hs))
  {
    hide IsDelimiter, LinesBeforeDelimiter;
    assert LinesOf(gs) == LinesOf(hs);
    var start := LinesBeforeDelimiter(LinesOf(gs));
    if start < |gs| {
      assert LinesOf(gs[start + 1..]) == LinesOf(hs[start + 1..]);
      forall i | 0 <= i < |Inside(gs)| ensures SameMarked(Inside(gs)[i], Inside(hs)[i]) {
        assert SameMarked(gs[start + 1 + i], hs[start + 1 + i]);
      }
    }
  }

  lemma InsideMatches(t: seq<Sym>, f: Fill, g: Fill)
    ensures AllSameMarked(Groups(t, f), Groups(t, g))
    ensures AllSameMarked(Inside(Groups(t, f)), Inside(Groups(t, g)))
  {
    hide Inside;
    WeavesMatch(LOOM, LOOM, t, f, g);
    InsideSameMarked(Groups(t, f), Groups(t, g));
  }

  /** No hole in the frontmatter: every fill agrees with the report. */
  lemma HoleFreeIsExact(name: string, t: seq<Sym>, fill: Fill)
    requires InfoOfBody(name, Marked(t)).Ok? && !HoleInFrontmatter(t)
    ensures InfoOfBody(name, Render(t, fill)) == InfoOfBody(name, Marked(t))
  {
    InsideMatches(t, fill, _ => ELISION);
    ReportSurvivesFilling(name, t, fill);
  }

  // ----- A fill that takes over the description -----------------------------------

  /** Ends the holed line, opens a second description, closes the block. */
  function Takeover(word: string): (s: string) {
    "x" + ("\n" + ("description:" + word + ("\n" + ("---" + "\n"))))
  }

  /** Any text a key line gives as its value just as it stands: one line, stripped and
      unquoted, that is no block indicator and holds no marker. */
  predicate PlainWord(word: string) {
    && Strip(word) == word && Unquoted(word) == word && word !in BLOCK_INDICATORS
    && !Elided(word) && forall c | c in word :: !IsBreak(c)
  }

  lemma LettersArePlain()
    ensures PlainWord("a") && PlainWord("b")
  {
    assert |"a"| == 1 && |"b"| == 1 && |ELISION| == 8;
    assert forall i | 0 <= i < |BLOCK_INDICATORS| :: BLOCK_INDICATORS[i][0] != 'a' && BLOCK_INDICATORS[i][0] != 'b';
  }

  function TakenLines(lit: string, word: string): (lines: seq<string>) {
    [lit + "x", "description:" + word, "---"]
  }

  /** An unbroken stretch with its line feed ends the line being read. */
  lemma LineScan(st: Scanner, line: string, rest: string)
    requires line != "" && forall c | c in line :: !IsBreak(c)
    ensures Scan(st, line + ("\n" + rest)) == Scan(Scanner(st.lines + [st.cur + line], "", false), rest)
  {
    ScanConcat(st, line, "\n" + rest);
    ScanUnbroken(st, line);
    assert ("\n" + rest)[1..] == rest;
  }

  lemma TakeoverScan(st: Scanner, word: string)
    requires PlainWord(word)
    ensures Scan(st, Takeover(word)) == Scanner(st.lines + TakenLines(st.cur, word), "", false)
  {
    var key := "description:" + word;
    var c := "---" + "\n";
    assert forall x | x in key :: !IsBreak(x);
    hide Scan, IsBreak, PlainWord;
    LineScan(st, "x", key + ("\n" + c));
    var st1 := Scanner(st.lines + [st.cur + "x"], "", false);
    LineScan(st1, key, c);
    var st2 := Scanner(st1.lines + ["" + key], "", false);
    assert "---" + ("\n" + "") == c;
    LineScan(st2, "---", "");
    ScanNothing(Scanner(st2.lines + ["" + "---"], "", false));
    assert "" + key == key && "" + "---" == "---";
    assert st2.lines + ["---"] == st.lines + TakenLines(st.cur, word);
  }

  lemma ScanNothing(st: Scanner)
    ensures Scan(st, "") == st
  {
  }

  ghost predicate Taken(g: Group, word: string) {
    g.holed ==> TakenLines(g.lit, word) <= g.out
  }

  ghost predicate TakenWeave(w: Weave, word: string) {
    && w.Good()
    && (forall i | 0 <= i < |w.groups| :: Taken(w.groups[i], word))
    && (w.holed ==> TakenLines(w.lit, word) <= w.out)
  }

  lemma TakenStep(w: Weave, sym: Sym, word: string)
    requires PlainWord(word) && TakenWeave(w, word)
    ensures TakenWeave(WeaveStep(w, sym, _ => Takeover(word)), word)
  {
    hide TakenLines, Takeover, PlainWord, Scan, Group.Good;
    WeaveStepGood(w, sym, _ => Takeover(word));
    if sym.Hole? && !w.holed {
      TakeoverScan(w.f, word);
      var r := WeaveStep(w, sym, _ => Takeover(word));
      assert r.out == TakenLines(w.lit, word);
    }
  }

  lemma {:induction false} TakenAll(w: Weave, t: seq<Sym>, word: string)
    requires PlainWord(word) && TakenWeave(w, word)
    ensures TakenWeave(WeaveAll(w, t, _ => Takeover(word)), word)
    decreases |t|
  {
    if t != [] {
      TakenStep(w, t[0], word);
      TakenAll(WeaveStep(w, t[0], _ => Takeover(word)), t[1..], word);
    }
  }

  lemma TakenGroups(t: seq<Sym>, word: string, gs: seq<Group>)
    requires PlainWord(word) && gs == Groups(t, _ => Takeover(word))
    ensures forall i | 0 <= i < |gs| :: Taken(gs[i], word)
  {
    TakenAll(LOOM, t, word);
  }

  // ----- What the taken-over text parses to -----------------------------------------

  /** More lines only extend the last span, or the preamble if there is none. */
  function Extend(p: Partition, q: Partition): (r: Partition) {
    if p.spans == [] then Partition(p.preamble + q.preamble, q.spans)
    else
      var last := |p.spans| - 1;
      Partition(p.preamble, p.spans[..last] + [p.spans[last] + q.preamble] + q.spans)
  }

  lemma PutFirstExtends(line: string, p: Partition, q: Partition)
    ensures Extend(PutFirst(line, p), q) == PutFirst(line, Extend(p, q))
  {
    if p.spans == [] {
      assert [line] + p.preamble + q.preamble == [line] + (p.preamble + q.preamble);
    } else if OpensKey(line) {
      var last := |p.spans| - 1;
      var s := [[line] + p.preamble] + p.spans;
      assert s[..last + 1] == [s[0]] + p.spans[..last];
      assert s[..last + 1] + [s[last + 1] + q.preamble] + q.spans
          == [s[0]] + (p.spans[..last] + [p.spans[last] + q.preamble] + q.spans);
    }
  }

  lemma {:induction false} SplitExtend(a: seq<string>, b: seq<string>)
    ensures Split(a + b) == Extend(Split(a), Split(b))
    decreases |a|
  {
    if a == [] {
      assert a + b == b;
      assert [] + Split(b).preamble == Split(b).preamble;
    } else {
      assert (a + b)[1..] == a[1..] + b;
      SplitExtend(a[1..], b);
      PutFirstExtends(a[0], Split(a[1..]), Split(b));
    }
  }

  lemma {:induction false} SpanlessIsPreamble(a: seq<string>)
    requires Split(a).spans == []
    ensures Split(a).preamble == a
  {
    if a != [] {
      SpanlessIsPreamble(a[1..]);
    }
  }

  /** Every field is still there, with at least the raw text it had. */
  ghost predicate RawGrows(a: Fields, b: Fields) {
    forall key | key in a :: key in b && a[key].raw <= b[key].raw
  }

  lemma {:induction false} MoreSpansGrow(spans: seq<seq<string>>, n: nat)
    requires forall i | 0 <= i < |spans| :: IsSpan(spans[i])
    requires n <= |spans|
    ensures RawGrows(Collect(spans[..n]), Collect(spans))
    decreases |spans| - n
  {
    hide AddSpan, IsSpan, RawGrows;
    if n == |spans| {
      assert spans[..n] == spans;
      OneSpanKeeps(Collect(spans));
    } else {
      MoreSpansGrow(spans, n + 1);
      assert spans[..n + 1][..n] == spans[..n];
      OneSpanGrows(Collect(spans[..n]), spans[n]);
      RawGrowsTrans(Collect(spans[..n]), Collect(spans[..n + 1]), Collect(spans));
    }
  }

  lemma OneSpanKeeps(acc: Fields)
    ensures RawGrows(acc, acc)
  {
  }

  lemma OneSpanGrows(acc: Fields, span: seq<string>)
    requires IsSpan(span)
    ensures RawGrows(acc, AddSpan(acc, span))
  {
    hide KeyOf, ValueOf, IsSpan;
  }

  lemma {:induction false} JoinExtends(sep: string, a: seq<string>, b: seq<string>)
    requires a != []
    ensures Join(sep, a) <= Join(sep, a + b)
  {
    if |a| > 1 {
      assert (a + b)[1..] == a[1..] + b;
      JoinExtends(sep, a[1..], b);
    } else if b != [] {
      assert (a + b)[1..] == b;
    } else {
      assert a + b == a;
    }
  }

  lemma LongerSpanGrows(acc: Fields, span: seq<string>, more: seq<string>)
    requires IsSpan(span) && IsSpan(span + more)
    ensures RawGrows(AddSpan(acc, span), AddSpan(acc, span + more))
  {
    JoinExtends("\n", span, more);
  }

  lemma PrefixElided(a: string, b: string)
    requires a <= b && Elided(a)
    ensures Elided(b)
  {
    ContainsIn("", a, b[|a|..], ELISION);
    assert "" + a + b[|a|..] == b;
  }

  lemma ExtendGrows(p: Partition, q: Partition)
    requires p.spans != []
    requires forall n | 0 <= n < |p.spans| :: IsSpan(p.spans[n])
    requires forall n | 0 <= n < |Extend(p, q).spans| :: IsSpan(Extend(p, q).spans[n])
    ensures RawGrows(Collect(p.spans), Collect(Extend(p, q).spans))
  {
    var last := |p.spans| - 1;
    var init := p.spans[..last];
    var longer := p.spans[last] + q.preamble;
    var r := Extend(p, q).spans;
    assert r == init + [longer] + q.spans;
    assert r[last] == longer && r[..last + 1] == init + [longer];
    assert (init + [longer])[..last] == init;
    LongerSpanGrows(Collect(init), p.spans[last], q.preamble);
    MoreSpansGrow(r, last + 1);
    assert RawGrows(Collect(p.spans), Collect(init + [longer]));
    RawGrowsTrans(Collect(p.spans), Collect(init + [longer]), Collect(r));
  }

  lemma RawGrowsTrans(a: Fields, b: Fields, c: Fields)
    requires RawGrows(a, b) && RawGrows(b, c)
    ensures RawGrows(a, c)
  {
    forall key | key in a
      ensures key in c && a[key].raw <= c[key].raw
    {
      assert key in b;
    }
  }

  lemma DescriptionLine(word: string)
    requires PlainWord(word)
    ensures var line := "description:" + word;
            && OpensKey(line) && KeyOf(line) == "description" && ValueOf(line, []) == word
            && !Elided(line) && !IsDelimiter(line)
  {
    var key, line := "description:", "description:" + word;
    assert line[11] == ':' && line[..11] == "description" && line[12..] == word;
    assert '\U{E000}' !in key;
    assert Strip("description") == "description";
    hide Strip, Elided, Unquoted;
    IndexOfUnique(line, ':', 11);
    NoMarkBefore(key, word);
    ElidedPart(line, 11);
    StripKeeps(line, ':');
    assert |"---"| == 3 && ':' !in "---";
  }

  /** A marker does not begin in a text without its first character. */
  lemma NoMarkBefore(before: string, word: string)
    requires '\U{E000}' !in before && !Elided(word)
    ensures !Elided(before + word)
  {
    var s := before + word;
    forall i | 0 <= i <= |s| - |ELISION| ensures !OccursAt(s, ELISION, i) {
      if OccursAt(s, ELISION, i) {
        assert s[i] == s[i..i + |ELISION|][0] == ELISION[0];
        assert word[i - |before|..i - |before| + |ELISION|] == s[i..i + |ELISION|];
        assert OccursAt(word, ELISION, i - |before|);
      }
    }
  }

  lemma ElidedHasMark(s: string)
    requires Elided(s)
    ensures exists i | 0 <= i < |s| :: s[i] == '\U{E000}'
  {
    var i :| 0 <= i <= |s| - |ELISION| && OccursAt(s, ELISION, i);
    assert s[i] == s[i..i + |ELISION|][0] == ELISION[0];
  }

  lemma ElidedPart(s: string, n: nat)
    requires n <= |s|
    ensures Elided(s[..n]) ==> Elided(s)
  {
    if Elided(s[..n]) {
      PrefixElided(s[..n], s);
    }
  }

  lemma DashesDelimit()
    ensures IsDelimiter("---")
  {
  }

  /** The holed line, cut short by the takeover, opens a key only if it did so
      before, and is no delimiter. */
  lemma CutLineIsDiscreet(g: Group)
    requires g.Good() && g.holed
    ensures var cut := Group(true, g.lit, g.line, [g.lit + "x"]);
            cut.Good() && Discreet(cut)
  {
    var line := g.lit + "x";
    StripKeeps(line, line[|g.lit|]);
    if OpensKey(line) {
      var i := IndexOf(line, ':');
      assert i != |g.lit|;
      assert line[..i] == g.lit[..i] == g.line[..i] && line[i] == g.line[i] && line[0] == g.line[0];
      IndexOfUnique(g.line, ':', i);
    }
  }

  /** The frontmatter lines above the taken-over one, the cut line itself. */
  lemma CutPartition(unholed: seq<Group>, g: Group)
    requires AllGood(unholed) && g.Good() && g.holed
    requires forall i | 0 <= i < |unholed| :: !unholed[i].holed
    ensures SamePartition(Split(LinesOf(unholed) + [g.line]), Split(LinesOf(unholed) + [g.lit + "x"]))
  {
    CutLineIsDiscreet(g);
    var cut := Group(true, g.lit, g.line, [g.lit + "x"]);
    AppendDiscreet(unholed, cut);
    UnholedOut(unholed);
    PartitionsAgree(unholed + [cut]);
  }

  lemma UnholedDiscreet(gs: seq<Group>)
    requires forall i | 0 <= i < |gs| :: !gs[i].holed
    ensures AllDiscreet(gs)
  {
  }

  lemma AppendDiscreet(unholed: seq<Group>, g: Group)
    requires AllGood(unholed) && g.Good() && Discreet(g)
    requires forall i | 0 <= i < |unholed| :: !unholed[i].holed
    ensures AllGood(unholed + [g]) && AllDiscreet(unholed + [g])
    ensures OutOf(unholed + [g]) == OutOf(unholed) + g.out
    ensures LinesOf(unholed + [g]) == LinesOf(unholed) + [g.line]
  {
    hide Group.Good, Discreet;
    OutAppend(unholed, g);
    UnholedDiscreet(unholed);
    var all := unholed + [g];
    forall i | 0 <= i < |all|
      ensures all[i].Good() && Discreet(all[i])
    {
      assert all[i] == if i < |unholed| then unholed[i] else g;
    }
  }

  /** A measured field that is free of markers in the longer frontmatter is
      free of markers in the shorter one. */
  lemma ShorterIsGuarded(name: string, short: Fields, long: Fields)
    requires RawGrows(short, long) && Measure(name, long).Ok?
    ensures forall n | 0 <= n < |MEASURED_FIELDS| :: !IsElidedField(short, MEASURED_FIELDS[n])
  {
    forall n | 0 <= n < |MEASURED_FIELDS|
      ensures !IsElidedField(short, MEASURED_FIELDS[n])
    {
      var key := MEASURED_FIELDS[n];
      assert !IsElidedField(long, key);
      if IsElidedField(short, key) {
        PrefixElided(short[key].raw, long[key].raw);
      }
    }
  }

  /** One more `description:` line wins, and nothing it leaves behind is
      refused. */
  lemma LastDescriptionWins(name: string, fields: Fields, word: string)
    requires PlainWord(word)
    requires forall n | 0 <= n < |MEASURED_FIELDS| :: !IsElidedField(fields, MEASURED_FIELDS[n])
    ensures IsSpan(["description:" + word])
    ensures var r := Measure(name, AddSpan(fields, ["description:" + word]));
            r.Ok? && r.value.description == word
  {
    hide IsDelimiter, Strip, Elided, OpensKey, ValueOf, KeyOf;
    var line := "description:" + word;
    DescriptionLine(word);
    assert !IsElidedField(fields, MEASURED_FIELDS[0]);
    assert !IsElidedField(fields, MEASURED_FIELDS[1]);
    assert !IsElidedField(fields, MEASURED_FIELDS[2]);
    assert [line][1..] == [];
    var r := AddSpan(fields, [line]);
    if Elided(r["description"].raw) && "description" in fields {
      NoStraddle(fields["description"].raw, line);
    }
  }

  /** The partition of the cut-short frontmatter with the new description. */
  lemma TakenPartition(above: seq<string>, p: Partition, word: string)
    requires PlainWord(word) && p == Split(above) && p.spans != []
    ensures Split(above + ["description:" + word]) == Partition(p.preamble, p.spans + [["description:" + word]])
  {
    hide IsDelimiter, Elided, KeyOf, ValueOf;
    var line := "description:" + word;
    DescriptionLine(word);
    SplitExtend(above, [line]);
    assert [line] + [] == [line] && [[line]] + [] == [[line]];
    assert Split([line]) == PutFirst(line, Split([line][1..])) == Partition([], [[line]]);
    var last := |p.spans| - 1;
    assert p.spans[last] + [] == p.spans[last];
    assert p.spans[..last] + [p.spans[last]] + [[line]] == p.spans + [[line]];
  }

  lemma SpanlessElided(a: seq<string>, b: seq<string>, i: nat)
    requires Split(a).spans == [] && i < |a| && Elided(a[i])
    ensures AnyElided(Split(a + b).preamble)
  {
    SplitExtend(a, b);
    SpanlessIsPreamble(a);
    AnyElidedAt(a + Split(b).preamble, i);
  }

  /** An accepted frontmatter up to and including its first holed line has
      the whole preamble, a key, and no raw text the rest does not have. */
  lemma ShortFrontmatter(a: seq<string>, b: seq<string>)
    requires a != [] && Elided(a[|a| - 1]) && !AnyElided(Split(a + b).preamble)
    ensures Split(a).spans != []
    ensures Split(a).preamble == Split(a + b).preamble
    ensures RawGrows(Collect(Split(a).spans), Collect(Split(a + b).spans))
  {
    if Split(a).spans == [] {
      SpanlessElided(a, b, |a| - 1);
    }
    SplitExtend(a, b);
    ExtendGrows(Split(a), Split(b));
  }

  /** From the marked frontmatter lines to what the taken-over ones measure. */
  lemma TakenFieldsMeasure(name: string, fm: seq<string>, unholed: seq<Group>, g: Group, below: seq<string>,
      word: string)
    requires PlainWord(word)
    requires AllGood(unholed) && g.Good() && g.holed && forall i | 0 <= i < |unholed| :: !unholed[i].holed
    requires LinesOf(unholed) + [g.line] + below == fm
    requires !AnyElided(Split(fm).preamble) && Measure(name, Collect(Split(fm).spans)).Ok?
    ensures var p := Split(LinesOf(unholed) + [g.lit + "x"] + ["description:" + word]);
            var r := Measure(name, Collect(p.spans));
            !AnyElided(p.preamble) && r.Ok? && r.value.description == word
  {
    var above := LinesOf(unholed);
    var marked, filled := Split(above + [g.line]), Split(above + [g.lit + "x"]);
    HoledIsElided(g);
    ShortFrontmatter(above + [g.line], below);
    ShorterIsGuarded(name, Collect(marked.spans), Collect(Split(fm).spans));
    CutPartition(unholed, g);
    FieldsAgree(marked.spans, filled.spans);
    GuardCarries(Collect(marked.spans), Collect(filled.spans));
    LastDescriptionWins(name, Collect(filled.spans), word);
    TakenPartition(above + [g.lit + "x"], filled, word);
    assert (filled.spans + [["description:" + word]])[..|filled.spans|] == filled.spans;
  }

  lemma GuardCarries(marked: Fields, filled: Fields)
    requires SameFields(marked, filled)
    requires forall n | 0 <= n < |MEASURED_FIELDS| :: !IsElidedField(marked, MEASURED_FIELDS[n])
    ensures forall n | 0 <= n < |MEASURED_FIELDS| :: !IsElidedField(filled, MEASURED_FIELDS[n])
  {
  }

  lemma CutLineIsNoDelimiter(lit: string)
    ensures !IsDelimiter(lit + "x")
  {
    var line := lit + "x";
    StripKeeps(line, line[|lit|]);
  }

  lemma TakenLinesEnd(above: seq<string>, lit: string, word: string, more: seq<string>)
    requires PlainWord(word)
    requires forall i | 0 <= i < |above| :: !IsDelimiter(above[i])
    ensures var lines := above + TakenLines(lit, word) + more;
            && LinesBeforeDelimiter(lines) == |above| + 2
            && lines[..|above| + 2] == above + [lit + "x"] + ["description:" + word]
  {
    hide IsDelimiter, LinesBeforeDelimiter, OpensKey, Elided, KeyOf, ValueOf;
    var lines := above + TakenLines(lit, word) + more;
    CutLineIsNoDelimiter(lit);
    DescriptionLine(word);
    DashesDelimit();
    assert forall i | 0 <= i < |above| :: lines[i] == above[i];
    assert lines[|above|] == lit + "x";
    assert lines[|above| + 1] == "description:" + word;
    assert lines[|above| + 2] == "---";
    LinesBeforeDelimiterMeaning(lines, |above| + 2);
  }

  lemma TakenShape(rest: seq<Group>, h: nat, word: string) returns (more: seq<string>)
    requires AllGood(rest) && h < |rest|
    requires rest[h].holed && Taken(rest[h], word) && forall i | 0 <= i < h :: !rest[i].holed
    ensures OutOf(rest) == LinesOf(rest[..h]) + TakenLines(rest[h].lit, word) + more
  {
    hide Group.Good, OutOf, LinesOf;
    LinesOfSlice(rest, h);
    UnholedOut(rest[..h]);
    OutFirst(rest, h);
    var tail := rest[h].out[3..];
    assert rest[h].out == TakenLines(rest[h].lit, word) + tail;
    more := tail + OutOf(rest[h + 1..]);
    Regroup(LinesOf(rest[..h]), TakenLines(rest[h].lit, word), tail, OutOf(rest[h + 1..]));
  }

  /** Cut at the delimiter of the takeover, the filled lines below the opening
      delimiter are the unholed ones, the cut line and the new description. */
  lemma TakenFrontmatter(rest: seq<Group>, h: nat, word: string)
    requires PlainWord(word) && AllGood(rest) && h < |rest|
    requires rest[h].holed && Taken(rest[h], word) && forall i | 0 <= i < h :: !rest[i].holed
    requires h <= LinesBeforeDelimiter(LinesOf(rest))
    ensures LinesBeforeDelimiter(OutOf(rest)) == h + 2
    ensures OutOf(rest)[..h + 2] == LinesOf(rest[..h]) + [rest[h].lit + "x"] + ["description:" + word]
  {
    hide Group.Good, IsDelimiter, LinesBeforeDelimiter, OutOf, LinesOf, TakenLines, Taken;
    var more := TakenShape(rest, h, word);
    DelimiterFreeAbove(rest, h);
    TakenLinesEnd(LinesOf(rest[..h]), rest[h].lit, word, more);
  }

  lemma DelimiterFreeAbove(rest: seq<Group>, h: nat)
    requires h <= LinesBeforeDelimiter(LinesOf(rest))
    ensures forall i | 0 <= i < h :: !IsDelimiter(LinesOf(rest[..h])[i])
  {
    hide IsDelimiter;
    LinesBeforeDelimiterMeaning(LinesOf(rest), LinesBeforeDelimiter(LinesOf(rest)));
    assert forall i | 0 <= i < h :: LinesOf(rest[..h])[i] == rest[i].line == LinesOf(rest)[i];
  }

  lemma OutFirst(gs: seq<Group>, h: nat)
    requires h < |gs|
    ensures OutOf(gs[h..]) == gs[h].out + OutOf(gs[h + 1..])
  {
    assert gs[h..][1..] == gs[h + 1..];
  }

  lemma Regroup(a: seq<string>, b: seq<string>, c: seq<string>, d: seq<string>)
    ensures a + (b + c + d) == a + b + (c + d)
  {
  }

  /** The taken-over text: same opening delimiter, and this frontmatter. */
  lemma ParsedStart(marked: seq<string>)
    requires ParseLines(marked).Ok?
    ensures LinesBeforeDelimiter(marked) < |marked| && !AnyElided(marked[..LinesBeforeDelimiter(marked)])
  {
    hide Elided, IsDelimiter, OpensKey, LinesBeforeDelimiter, Split, Collect;
    AnyElidedPrefix(marked, LinesBeforeDelimiter(marked), LinesBeforeDelimiter(marked) + 1);
  }

  lemma TakenStart(gs: seq<Group>, start: nat, marked: seq<string>, filled: seq<string>)
    requires AllGood(gs) && marked == LinesOf(gs) && filled == OutOf(gs)
    requires start == LinesBeforeDelimiter(marked) < |marked| && !AnyElided(marked[..start])
    ensures LinesBeforeDelimiter(filled) == start < |filled|
    ensures filled[..start + 1] == marked[..start + 1]
    ensures marked[start + 1..] == LinesOf(gs[start + 1..]) && filled[start + 1..] == OutOf(gs[start + 1..])
    ensures AllGood(gs[start + 1..])
  {
    hide Group.Good, AnyElided, LinesBeforeDelimiter, OutOf;
    StartStays(gs, start);
    CutAt(filled, marked[..start], marked[start], OutOf(gs[start + 1..]));
    LinesOfSlice(gs, start + 1);
  }

  lemma TakenBounds(gs: seq<Group>, h: nat, word: string, marked: seq<string>, filled: seq<string>)
    requires PlainWord(word) && AllGood(gs) && forall i | 0 <= i < |gs| :: Taken(gs[i], word)
    requires marked == LinesOf(gs) && filled == OutOf(gs) && ParseLines(marked).Ok?
    requires h < |Inside(gs)| && Inside(gs)[h].holed && forall i | 0 <= i < h :: !Inside(gs)[i].holed
    ensures LinesBeforeDelimiter(filled) == LinesBeforeDelimiter(marked) < |filled|
    ensures filled[..LinesBeforeDelimiter(marked) + 1] == marked[..LinesBeforeDelimiter(marked) + 1]
    ensures FrontmatterLines(marked) == LinesOf(Inside(gs))
    ensures FrontmatterLines(filled) ==
            LinesOf(Inside(gs)[..h]) + [Inside(gs)[h].lit + "x"] + ["description:" + word]
  {
    hide Group.Good, AllGood, Taken, LinesBeforeDelimiter, OutOf, LinesOf, PlainWord, ParseLines;
    var start := LinesBeforeDelimiter(marked);
    ParsedStart(marked);
    TakenStart(gs, start, marked, filled);
    var rest := gs[start + 1..];
    TakenInside(rest, LinesBeforeDelimiter(LinesOf(rest)), h, word);
  }

  lemma TakenInside(rest: seq<Group>, n: nat, h: nat, word: string)
    requires PlainWord(word) && AllGood(rest) && n == LinesBeforeDelimiter(LinesOf(rest))
    requires forall i | 0 <= i < |rest| :: Taken(rest[i], word)
    requires h < n && rest[..n][h].holed && forall i | 0 <= i < h :: !rest[..n][i].holed
    ensures LinesOf(rest)[..n] == LinesOf(rest[..n])
    ensures OutOf(rest)[..LinesBeforeDelimiter(OutOf(rest))] ==
            LinesOf(rest[..n][..h]) + [rest[..n][h].lit + "x"] + ["description:" + word]
  {
    hide *;
    LinesOfSlice(rest, n);
    PrefixOfPrefix(rest, n, h);
    assert Taken(rest[h], word);
    TakenFrontmatter(rest, h, word);
  }

  lemma PrefixOfPrefix(gs: seq<Group>, n: nat, h: nat)
    requires h < n <= |gs| && forall i | 0 <= i < h :: !gs[..n][i].holed
    ensures gs[..n][..h] == gs[..h] && gs[..n][h] == gs[h]
    ensures forall i | 0 <= i < h :: !gs[i].holed
  {
    assert forall i | 0 <= i < h :: gs[..n][i] == gs[i];
  }

  lemma TakeoverParses(name: string, gs: seq<Group>, h: nat, word: string)
    requires PlainWord(word) && AllGood(gs) && forall i | 0 <= i < |gs| :: Taken(gs[i], word)
    requires InfoOfLines(name, LinesOf(gs)).Ok?
    requires h < |Inside(gs)| && Inside(gs)[h].holed && forall i | 0 <= i < h :: !Inside(gs)[i].holed
    ensures InfoOfLines(name, OutOf(gs)).Ok? && InfoOfLines(name, OutOf(gs)).value.description == word
  {
    hide Group.Good, Elided, IsDelimiter, Taken, OpensKey, Measure, LinesBeforeDelimiter, OutOf, LinesOf, Split,
        Collect, PlainWord, AnyElided, FrontmatterLines, Inside;
    var marked, filled := LinesOf(gs), OutOf(gs);
    TakenBounds(gs, h, word, marked, filled);
    var inside := Inside(gs);
    InsideGood(gs);
    assert inside == inside[..h] + ([inside[h]] + inside[h + 1..]);
    SliceLines(inside, h);
    TakenFieldsMeasure(name, LinesOf(inside), inside[..h], inside[h], LinesOf(inside[h + 1..]), word);
  }

  lemma InsideGood(gs: seq<Group>)
    requires AllGood(gs)
    ensures AllGood(Inside(gs))
  {
  }

  lemma SliceLines(gs: seq<Group>, h: nat)
    requires h < |gs|
    ensures LinesOf(gs[..h]) + [gs[h].line] + LinesOf(gs[h + 1..]) == LinesOf(gs)
  {
    hide OutOf, Group.Good;
    LinesOfSlice(gs, h);
    LinesOfSlice(gs, h + 1);
  }

  ghost function FirstHoled(gs: seq<Group>): (h: nat)
    requires exists i | 0 <= i < |gs| :: gs[i].holed
    ensures h < |gs| && gs[h].holed && forall i | 0 <= i < h :: !gs[i].holed
  {
    if gs[0].holed then 0 else
      assert exists i | 0 <= i < |gs[1..]| :: gs[1..][i].holed by {
        var i :| 0 <= i < |gs| && gs[i].holed;
        assert gs[1..][i - 1].holed;
      }
      1 + FirstHoled(gs[1..])
  }

  /** With a hole in the frontmatter, there is text the hole could stand for
      that gives the skill any description a key line can give. */
  lemma HoleCanTakeOver(name: string, t: seq<Sym>, word: string) returns (fill: Fill)
    requires PlainWord(word)
    requires InfoOfBody(name, Marked(t)).Ok? && HoleInFrontmatter(t)
    ensures var r := InfoOfBody(name, Render(t, fill));
            r.Ok? && r.value.description == word
  {
    fill := _ => Takeover(word);
    var gs := Groups(t, fill);
    GroupsAreLines(t, fill);
    TakenGroups(t, word, gs);
    InsideMatches(t, fill, _ => ELISION);
    TakeoverParses(name, gs, FirstHoled(Inside(gs)), word);
  }

  /** The tolerance, exactly: an accepted body has the reported skill info
      whatever its unreadable parts turn out to be if and only if none of
      them touches a line between the delimiters. */
  lemma ReportIsCertainIffNoHoleInFrontmatter(name: string, t: seq<Sym>)
    requires InfoOfBody(name, Marked(t)).Ok?
    ensures !HoleInFrontmatter(t) <==>
            forall fill: Fill :: InfoOfBody(name, Render(t, fill)) == InfoOfBody(name, Marked(t))
  {
    if HoleInFrontmatter(t) {
      LettersArePlain();
      var a := HoleCanTakeOver(name, t, "a");
      var b := HoleCanTakeOver(name, t, "b");
      assert InfoOfBody(name, Render(t, a)) != InfoOfBody(name, Render(t, b));
    } else {
      forall fill: Fill
        ensures InfoOfBody(name, Render(t, fill)) == InfoOfBody(name, Marked(t))
      {
        HoleFreeIsExact(name, t, fill);
      }
    }
  }
}
