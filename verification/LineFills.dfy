/** Non-interference on the lines of the two texts, for fills without line breaks: no
    line then turns into two, and what a fill must not do can be said line by line. */
module LineFills {
  import opened PyText
  import opened Frontmatter
  import opened Template
  import opened NonInterference

  predicate Unbroken(s: string) {
    forall c | c in s :: !IsBreak(c)
  }

  /** Every hole of the template is filled without a line break. */
  ghost predicate OneLine(t: seq<Sym>, fill: Fill) {
    forall i | 0 <= i < |t| && t[i].Hole? :: Unbroken(fill(t[i].id))
  }

  /** And with some text. */
  ghost predicate NoGap(t: seq<Sym>, fill: Fill) {
    forall i | 0 <= i < |t| && t[i].Hole? :: fill(t[i].id) != ""
  }

  // ----- At most one filled line each -----------------------------------------------

  ghost predicate AtMostOne(gs: seq<Group>) {
    forall i | 0 <= i < |gs| :: |gs[i].out| <= 1
  }

  ghost predicate ExactlyOne(gs: seq<Group>) {
    forall i | 0 <= i < |gs| :: |gs[i].out| == 1
  }

  /** The two readings are on the same line. `full`: no fill so far was empty. */
  ghost predicate Level(w: Weave, full: bool) {
    && w.Good() && w.out == [] && AtMostOne(w.groups)
    && (full ==> ExactlyOne(w.groups) && (w.holed ==> w.f.cur != ""))
  }

  lemma LevelStep(w: Weave, sym: Sym, fill: Fill, full: bool)
    requires Level(w, full)
    requires sym.Hole? ==> Unbroken(fill(sym.id)) && (full ==> fill(sym.id) != "")
    ensures Level(WeaveStep(w, sym, fill), full)
  {
    hide Group.Good, LinesOf, OutOf, Scan;
    WeaveStepGood(w, sym, fill);
    if sym.Hole? {
      ScanUnbroken(w.f, fill(sym.id));
    }
  }

  lemma {:induction false} LevelAll(w: Weave, t: seq<Sym>, fill: Fill, full: bool)
    requires Level(w, full) && OneLine(t, fill) && (full ==> NoGap(t, fill))
    ensures Level(WeaveAll(w, t, fill), full)
    decreases |t|
  {
    hide Level, WeaveStep, Unbroken;
    if t != [] {
      LevelStep(w, t[0], fill, full);
      LevelAll(WeaveStep(w, t[0], fill), t[1..], fill, full);
    }
  }

  /** Under fills without line breaks every marked line has at most one filled line, and
      exactly one if no fill is empty. */
  lemma MarkedLinesStayLines(t: seq<Sym>, fill: Fill)
    requires OneLine(t, fill)
    ensures AtMostOne(Groups(t, fill))
    ensures NoGap(t, fill) ==> ExactlyOne(Groups(t, fill))
  {
    assert LOOM.Good();
    LevelAll(LOOM, t, fill, false);
    if NoGap(t, fill) {
      LevelAll(LOOM, t, fill, true);
    }
  }

  /** With as many filled as marked lines, they correspond one to one. */
  lemma {:induction false} LinesPair(gs: seq<Group>)
    requires AtMostOne(gs)
    ensures |OutOf(gs)| <= |gs|
    ensures |OutOf(gs)| == |gs| ==> forall i | 0 <= i < |gs| :: gs[i].out == [OutOf(gs)[i]]
    ensures ExactlyOne(gs) ==> |OutOf(gs)| == |gs|
  {
    if gs != [] {
      LinesPair(gs[1..]);
      assert forall i | 1 <= i < |gs| :: gs[i] == gs[1..][i - 1];
    }
  }

  lemma FilledLinesAsMany(t: seq<Sym>, fill: Fill)
    requires OneLine(t, fill) && NoGap(t, fill)
    ensures |SplitLines(Render(t, fill))| == |SplitLines(Marked(t))|
  {
    hide Groups, Render, Marked, SplitLines;
    MarkedLinesStayLines(t, fill);
    GroupsAreLines(t, fill);
    LinesPair(Groups(t, fill));
  }

  // ----- What a fill must not do, line by line ------------------------------------------

  /** Line `i` lies between the two delimiters. */
  predicate Between(lines: seq<string>, i: nat) {
    var start := LinesBeforeDelimiter(lines);
    start < i < |lines| && i < start + 1 + LinesBeforeDelimiter(lines[start + 1..])
  }

  /** No filled line between the delimiters forms a delimiter, or opens a key where the
      marked line does not. */
  ghost predicate Quiet(marked: seq<string>, filled: seq<string>)
    requires |marked| == |filled|
  {
    forall i: nat | Between(marked, i) :: !IsDelimiter(filled[i]) && (OpensKey(filled[i]) ==> OpensKey(marked[i]))
  }

  lemma BetweenIsInside(gs: seq<Group>, k: nat)
    requires k < |Inside(gs)|
    ensures var i := LinesBeforeDelimiter(LinesOf(gs)) + 1 + k;
            i < |gs| && Between(LinesOf(gs), i) && Inside(gs)[k] == gs[i]
  {
    hide IsDelimiter, LinesBeforeDelimiter;
    var start := LinesBeforeDelimiter(LinesOf(gs));
    LinesOfSlice(gs, start + 1);
  }

  lemma QuietIsHarmless(t: seq<Sym>, fill: Fill)
    requires OneLine(t, fill) && |SplitLines(Render(t, fill))| == |SplitLines(Marked(t))|
    requires Quiet(SplitLines(Marked(t)), SplitLines(Render(t, fill)))
    ensures Harmless(t, fill)
  {
    hide Groups, Render, Marked, SplitLines, IsDelimiter, OpensKey, Inside, Between, LinesBeforeDelimiter, LinesOf,
        OutOf;
    var gs := Groups(t, fill);
    MarkedLinesStayLines(t, fill);
    GroupsAreLines(t, fill);
    LinesPair(gs);
    forall k | 0 <= k < |Inside(gs)| ensures Discreet(Inside(gs)[k]) {
      BetweenIsInside(gs, k);
    }
  }

  /** Non-interference on lines: a report is that of the deployed body, if no unreadable
      part holds a line break and the two texts have as many lines, and between the
      delimiters no line newly strips to a delimiter or newly opens a key. */
  lemma ReportSurvivesQuietFilling(name: string, t: seq<Sym>, fill: Fill)
    requires InfoOfBody(name, Marked(t)).Ok?
    requires OneLine(t, fill) && |SplitLines(Render(t, fill))| == |SplitLines(Marked(t))|
    requires Quiet(SplitLines(Marked(t)), SplitLines(Render(t, fill)))
    ensures InfoOfBody(name, Render(t, fill)) == InfoOfBody(name, Marked(t))
  {
    hide InfoOfBody, Quiet, Harmless;
    QuietIsHarmless(t, fill);
    ReportSurvivesFilling(name, t, fill);
  }

  // ----- Holes behind a key -----------------------------------------------------------------

  /** Between the delimiters, every line with a marker opens a key: the marker is in its
      value, for a key token holds none. */
  ghost predicate MarkersBehindKeys(lines: seq<string>) {
    forall i: nat | Between(lines, i) && Elided(lines[i]) :: OpensKey(lines[i])
  }

  lemma KeyIsNoDelimiter(line: string)
    requires OpensKey(line)
    ensures !IsDelimiter(line)
  {
    StripKeeps(line, ':');
  }

  /** Then every fill without line breaks is harmless, whatever it says. */
  lemma BehindKeysIsHarmless(t: seq<Sym>, fill: Fill)
    requires OneLine(t, fill) && MarkersBehindKeys(SplitLines(Marked(t)))
    ensures Harmless(t, fill)
  {
    hide Groups, Render, Marked, SplitLines, IsDelimiter, OpensKey, Inside, Between, LinesBeforeDelimiter, LinesOf,
        OutOf, Elided, Group.Good;
    var gs := Groups(t, fill);
    MarkedLinesStayLines(t, fill);
    GroupsAreLines(t, fill);
    forall k | 0 <= k < |Inside(gs)| ensures Discreet(Inside(gs)[k]) {
      BetweenIsInside(gs, k);
      var g := Inside(gs)[k];
      if g.holed {
        HoledIsElided(g);
        KeySurvivesFilling(g);
        KeyIsNoDelimiter(g.out[0]);
      }
    }
  }
}
