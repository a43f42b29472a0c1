/** `scripts/gen_sprint_board.py`: the text of the board, the date it carries, and the
    two readings of it that ignore or recover that date. */
module BoardStamp {
  import PyText
  import opened SprintBoard
  import opened Wrappers

  // ----- Dates -----------------------------------------------------------------------

  datatype Date = Date(year: nat, month: nat, day: nat)

  predicate IsLeap(y: nat) {
    y % 4 == 0 && (y % 100 != 0 || y % 400 == 0)
  }

  function DaysIn(y: nat, m: nat): (n: nat) {
    if m == 2 then (if IsLeap(y) then 29 else 28) else if m in {4, 6, 9, 11} then 30 else 31
  }

  /** The calendar's table. */
  lemma DaysAre(y: nat, m: nat)
    requires 1 <= m <= 12
    ensures var extra := if m == 2 && y % 4 == 0 && (y % 100 == 0 ==> y % 400 == 0) then 1 else 0;
      DaysIn(y, m) == [31, 28, 31, 30, 31, 30, 31, 31, 30, 31, 30, 31][m - 1] + extra
  {
  }

  /** The dates `datetime.date` can hold. */
  predicate ValidDate(d: Date) {
    1 <= d.year <= 9999 && 1 <= d.month <= 12 && 1 <= d.day <= DaysIn(d.year, d.month)
  }

  function Digit(n: nat): (c: char) {
    '0' + (n % 10) as char
  }

  predicate IsDigit(c: char) {
    '0' <= c <= '9'
  }

  lemma DigitIff(c: char)
    ensures IsDigit(c) <==> c in "0123456789"
  {
  }

  function DigitOf(c: char): (n: nat)
    requires IsDigit(c)
  {
    c as int - '0' as int
  }

  /** `date.isoformat`. */
  function Iso(d: Date): (s: string) {
    [Digit(d.year / 1000), Digit(d.year / 100), Digit(d.year / 10), Digit(d.year), '-',
     Digit(d.month / 10), Digit(d.month), '-', Digit(d.day / 10), Digit(d.day)]
  }

  predicate IsIso(s: string) {
    && |s| == 10 && s[4] == '-' && s[7] == '-'
    && IsDigit(s[0]) && IsDigit(s[1]) && IsDigit(s[2]) && IsDigit(s[3])
    && IsDigit(s[5]) && IsDigit(s[6]) && IsDigit(s[8]) && IsDigit(s[9])
  }

  /** `date.fromisoformat`, on text of that shape. */
  function FromIso(s: string): (d: Option<Date>)
    requires IsIso(s)
  {
    var d := Date(1000 * DigitOf(s[0]) + 100 * DigitOf(s[1]) + 10 * DigitOf(s[2]) + DigitOf(s[3]),
                  10 * DigitOf(s[5]) + DigitOf(s[6]), 10 * DigitOf(s[8]) + DigitOf(s[9]));
    if ValidDate(d) then Some(d) else None
  }

  lemma DigitRoundTrip(n: nat)
    ensures IsDigit(Digit(n)) && DigitOf(Digit(n)) == n % 10
  {
  }

  lemma TwoDigits(n: nat)
    requires n < 100
    ensures 10 * (n / 10 % 10) + n % 10 == n
  {
  }

  lemma IsoRoundTrip(d: Date)
    requires ValidDate(d)
    ensures IsIso(Iso(d)) && FromIso(Iso(d)) == Some(d)
  {
    hide Digit, DigitOf, IsDigit;
    DigitRoundTrip(d.year / 1000);
    DigitRoundTrip(d.year / 100);
    DigitRoundTrip(d.year / 10);
    DigitRoundTrip(d.year);
    DigitRoundTrip(d.month / 10);
    DigitRoundTrip(d.month);
    DigitRoundTrip(d.day / 10);
    DigitRoundTrip(d.day);
    TwoDigits(d.month);
    TwoDigits(d.day);
    FourDigits(d.year);
  }

  lemma FourDigits(n: nat)
    requires n < 10000
    ensures 1000 * (n / 1000 % 10) + 100 * (n / 100 % 10) + 10 * (n / 10 % 10) + n % 10 == n
  {
    assert n / 10 / 10 == n / 100 && n / 100 / 10 == n / 1000;
    assert n == 10 * (n / 10) + n % 10;
    assert n / 10 == 10 * (n / 100) + n / 10 % 10;
    assert n / 100 == 10 * (n / 1000) + n / 100 % 10;
  }

  // ----- The text of the board --------------------------------------------------------

  const MARK := "Generated:"

  /** The header's first two lines. */
  const HEAD := "<!-- " + "GENERATED by " + "scripts/gen-sprint-board.py " + "\U{2014} do not hand-edit.\n"
                + "     Source of truth: " + "Linear (TappsCodingAgents " + "/ TappsMCP Platform)."

  /** The header before its first date. */
  const OPENING := HEAD + "\n     "

  const TITLE := "\n# TappsMCP Platform \U{2014} Sprint Board\n\n" + "**Project:** [TappsMCP Platform]("

  const TEAM := ")  \n**Team:** TappsCodingAgents (TAP)  "

  const OPEN := "**Open issues:** "

  const RULES := "\n> Regenerate with `python3 scripts/gen-sprint-board.py` after pulling a fresh Linear snapshot. "
                 + "Do not hand-edit \U{2014} see docs/TAPPS_BACKLOG_PLAN.md.\n\n---"

  /** A board's text: the header's parts around the two dates, and everything below. */
  datatype Text = Text(between: string, below: string)

  function Render(t: Text, d: Date): (s: string) {
    OPENING + MARK + " " + Iso(d) + t.between + Iso(d) + t.below
  }

  function NumeralOf(n: nat): (s: string) {
    if n < 10 then [Digit(n)] else NumeralOf(n / 10) + [Digit(n)]
  }

  /** The number a row of digits stands for. */
  function Worth(s: string): (n: nat)
    requires forall i | 0 <= i < |s| :: IsDigit(s[i])
  {
    if s == "" then 0 else 10 * Worth(s[..|s| - 1]) + DigitOf(s[|s| - 1])
  }

  /** A numeral stands for its number, without leading zeros. */
  lemma {:induction false} NumeralIs(n: nat)
    ensures var s := NumeralOf(n);
      s != "" && (forall i | 0 <= i < |s| :: IsDigit(s[i])) && Worth(s) == n && (n > 0 ==> s[0] != '0')
  {
    var s := NumeralOf(n);
    if n >= 10 {
      NumeralIs(n / 10);
      assert s[..|s| - 1] == NumeralOf(n / 10);
    }
  }

  function CountOf(issues: seq<Issue>, priority: string): (n: nat) {
    if issues == [] then 0 else (if issues[0].priority == priority then 1 else 0) + CountOf(issues[1..], priority)
  }

  function Priorities(issues: seq<Issue>): (ps: seq<string>) {
    seq(|issues|, i requires 0 <= i < |issues| => issues[i].priority)
  }

  /** The number counted for a priority. */
  lemma {:induction false} CountIs(issues: seq<Issue>, priority: string)
    ensures CountOf(issues, priority) == multiset(Priorities(issues))[priority]
    decreases |issues|
  {
    if issues != [] {
      CountIs(issues[1..], priority);
      assert Priorities(issues) == [issues[0].priority] + Priorities(issues[1..]);
    }
  }

  function CountParts(issues: seq<Issue>, i: nat): (parts: seq<string>)
    requires i <= |PRIORITY_ORDER|
    decreases |PRIORITY_ORDER| - i
  {
    if i == |PRIORITY_ORDER| then []
    else
      var n := CountOf(issues, PRIORITY_ORDER[i]);
      (if n > 0 then [NumeralOf(n) + " " + PRIORITY_ORDER[i]] else []) + CountParts(issues, i + 1)
  }

  function CountsSummary(issues: seq<Issue>): (s: string) {
    NumeralOf(|issues|) + " open (" + PyText.Join(", ", CountParts(issues, 0)) + ")"
  }

  function LineText(line: Line): (s: string) {
    match line
    case Heading(priority) => "## " + priority
    case Blank => ""
    case Item(x, nested) =>
      var front := (if nested then "  - [" else "- [") + x.id + "](" + x.url + ") \U{2014} " + x.title + " _(";
      (if nested then front + x.priority + ", " + x.status else front + x.status) + ")_"
  }

  function LineTexts(lines: seq<Line>): (r: seq<string>) {
    if lines == [] then [] else [LineText(lines[0])] + LineTexts(lines[1..])
  }

  /** The header between its two dates, and after the second. */
  function HeaderMiddle(counts: string, projectUrl: string): (s: string) {
    " \U{b7} " + counts + " -->" + ("\n" + (TITLE + projectUrl + TEAM) + "\n**")
  }

  function HeaderEnd(counts: string): (s: string)
    ensures s != "" && s[|s| - 1] == '-'
  {
    "  \n" + (OPEN + counts + "\n" + RULES)
  }

  /** `render`, cut at its dates: the header ends in a rule, so the final `rstrip` never
      reaches into it. */
  function TextOf(issues: seq<Issue>, projectUrl: string): (t: Text) {
    var counts := CountsSummary(issues);
    Text(HeaderMiddle(counts, projectUrl) + MARK + "** ",
         HeaderEnd(counts)
         + PyText.TrimRight("\n" + PyText.Join("\n", [""] + LineTexts(Board(issues))), c => PyText.IsSpace(c)) + "\n")
  }

  /** `render`, as it is written: the header, an empty line and the sections, joined,
      stripped on the right, with one line feed. */
  function RenderDirectly(issues: seq<Issue>, projectUrl: string, d: Date): (s: string) {
    var counts := CountsSummary(issues);
    var header := OPENING + MARK + " " + Iso(d) + (HeaderMiddle(counts, projectUrl) + MARK + "** ") + Iso(d)
        + HeaderEnd(counts);
    PyText.TrimRight(PyText.Join("\n", [header] + ([""] + LineTexts(Board(issues)))), c => PyText.IsSpace(c)) + "\n"
  }

  lemma {:induction false} TrimStopsAtText(a: string, b: string, drop: char -> bool)
    requires a != "" && !drop(a[|a| - 1])
    ensures PyText.TrimRight(a + b, drop) == a + PyText.TrimRight(b, drop)
    decreases |b|
  {
    if b == "" {
      assert a + b == a;
      assert a + PyText.TrimRight(b, drop) == a;
    } else {
      assert (a + b)[..|a + b| - 1] == a + b[..|b| - 1];
      if drop(b[|b| - 1]) {
        TrimStopsAtText(a, b[..|b| - 1], drop);
      }
    }
  }

  lemma JoinedAndTrimmed(header: string, rest: seq<string>)
    requires header != "" && !PyText.IsSpace(header[|header| - 1]) && rest != []
    ensures PyText.TrimRight(PyText.Join("\n", [header] + rest), c => PyText.IsSpace(c))
            == header + PyText.TrimRight("\n" + PyText.Join("\n", rest), c => PyText.IsSpace(c))
  {
    assert ([header] + rest)[1..] == rest;
    assert header + "\n" + PyText.Join("\n", rest) == header + ("\n" + PyText.Join("\n", rest));
    TrimStopsAtText(header, "\n" + PyText.Join("\n", rest), c => PyText.IsSpace(c));
  }

  lemma RenderIsCutAtDates(issues: seq<Issue>, projectUrl: string, d: Date)
    ensures RenderDirectly(issues, projectUrl, d) == Render(TextOf(issues, projectUrl), d)
  {
    hide CountsSummary, LineTexts, PyText.TrimRight, PyText.Join, Iso, HeaderMiddle, HeaderEnd;
    var counts := CountsSummary(issues);
    var front := OPENING + MARK + " " + Iso(d) + (HeaderMiddle(counts, projectUrl) + MARK + "** ") + Iso(d);
    JoinedAndTrimmed(front + HeaderEnd(counts), [""] + LineTexts(Board(issues)));
  }

  // ----- Freshness ------------------------------------------------------------------------

  predicate Dated(line: string) {
    PyText.Contains(line, MARK)
  }

  function Undated(lines: seq<string>): (r: seq<string>) {
    if lines == [] then []
    else Undated(lines[..|lines| - 1]) + if Dated(lines[|lines| - 1]) then [] else [lines[|lines| - 1]]
  }

  /** `strip_generated_date`. */
  function StripGeneratedDate(content: string): (r: string) {
    PyText.Join("\n", Undated(PyText.SplitLines(content)))
  }

  predicate IsFresh(content: string, existing: string) {
    StripGeneratedDate(existing) == StripGeneratedDate(content)
  }

  /** Two readings agree but for lines that carry the mark. */
  ghost predicate Agree(a: PyText.Scanner, b: PyText.Scanner) {
    Undated(a.lines) == Undated(b.lines) && a.cr == b.cr && (a.cur == b.cur || (Dated(a.cur) && Dated(b.cur)))
  }

  lemma UndatedSnoc(lines: seq<string>, line: string)
    ensures Undated(lines + [line]) == Undated(lines) + if Dated(line) then [] else [line]
  {
    assert (lines + [line])[..|lines|] == lines;
  }

  lemma DatedGrows(before: string, line: string, after: string)
    requires Dated(line)
    ensures Dated(before + line + after)
  {
    PyText.ContainsIn(before, line, after, MARK);
  }

  lemma {:induction false} AgreeScan(a: PyText.Scanner, b: PyText.Scanner, s: string)
    requires Agree(a, b)
    ensures Agree(PyText.Scan(a, s), PyText.Scan(b, s))
    decreases |s|
  {
    hide Dated, Undated, PyText.IsBreak;
    if s != "" {
      UndatedSnoc(a.lines, a.cur);
      UndatedSnoc(b.lines, b.cur);
      if Dated(a.cur) && Dated(b.cur) {
        DatedGrows("", a.cur, [s[0]]);
        DatedGrows("", b.cur, [s[0]]);
        assert "" + a.cur + [s[0]] == a.cur + [s[0]] && "" + b.cur + [s[0]] == b.cur + [s[0]];
      }
      AgreeScan(PyText.Step(a, s[0]), PyText.Step(b, s[0]), s[1..]);
    }
  }

  lemma AgreeFinish(a: PyText.Scanner, b: PyText.Scanner)
    requires Agree(a, b)
    ensures Undated(PyText.Finish(a)) == Undated(PyText.Finish(b))
  {
    UndatedSnoc(a.lines, a.cur);
    UndatedSnoc(b.lines, b.cur);
    EmptyIsUndated("");
  }

  lemma EmptyIsUndated(s: string)
    ensures |s| < |MARK| ==> !Dated(s)
  {
  }

  lemma IsoUnbroken(d: Date)
    ensures forall c | c in Iso(d) :: !PyText.IsBreak(c)
  {
  }

  /** Scanning the mark and then either of two dates leaves agreeing readings in agreement. */
  lemma AgreeDate(a: PyText.Scanner, b: PyText.Scanner, tail: string, d: Date, e: Date)
    requires Agree(a, b)
    requires forall c | c in tail :: !PyText.IsBreak(c)
    ensures Agree(PyText.Scan(a, MARK + tail + Iso(d)), PyText.Scan(b, MARK + tail + Iso(e)))
  {
    hide Undated, PyText.Scan, Iso;
    IsoUnbroken(d);
    IsoUnbroken(e);
    PyText.ScanUnbroken(a, MARK + tail + Iso(d));
    PyText.ScanUnbroken(b, MARK + tail + Iso(e));
    PyText.ContainsSelf(MARK);
    assert Dated(MARK);
    hide Dated;
    DatedGrows(a.cur, MARK, tail + Iso(d));
    DatedGrows(b.cur, MARK, tail + Iso(e));
    assert a.cur + MARK + (tail + Iso(d)) == a.cur + (MARK + tail + Iso(d));
    assert b.cur + MARK + (tail + Iso(e)) == b.cur + (MARK + tail + Iso(e));
  }

  /** Boards of the same issues are fresh to each other whatever their dates. */
  lemma DatesDoNotStale(t: Text, lead: string, d: Date, e: Date)
    requires t.between == lead + MARK + "** "
    ensures IsFresh(Render(t, d), Render(t, e))
  {
    hide Agree, PyText.Scan, PyText.Finish, Undated, Iso;
    var a0 := PyText.Scan(PyText.START, OPENING);
    assert Agree(a0, a0) by { AgreeSelf(a0); }
    AgreeDate(a0, a0, " ", d, e);
    var a1, b1 := PyText.Scan(a0, MARK + " " + Iso(d)), PyText.Scan(a0, MARK + " " + Iso(e));
    AgreeScan(a1, b1, lead);
    var a2, b2 := PyText.Scan(a1, lead), PyText.Scan(b1, lead);
    AgreeDate(a2, b2, "** ", d, e);
    var a3, b3 := PyText.Scan(a2, MARK + "** " + Iso(d)), PyText.Scan(b2, MARK + "** " + Iso(e));
    AgreeScan(a3, b3, t.below);
    ScanRender(t, lead, d);
    ScanRender(t, lead, e);
    AgreeFinish(PyText.Scan(a3, t.below), PyText.Scan(b3, t.below));
  }

  lemma AgreeSelf(a: PyText.Scanner)
    ensures Agree(a, a)
  {
  }

  lemma ScanRender(t: Text, lead: string, d: Date)
    requires t.between == lead + MARK + "** "
    ensures var s1 := PyText.Scan(PyText.Scan(PyText.START, OPENING), MARK + " " + Iso(d));
      PyText.Scan(PyText.START, Render(t, d))
      == PyText.Scan(PyText.Scan(PyText.Scan(s1, lead), MARK + "** " + Iso(d)), t.below)
  {
    hide PyText.Scan, Iso;
    var stamp, again := MARK + " " + Iso(d), MARK + "** " + Iso(d);
    assert Render(t, d) == OPENING + stamp + lead + again + t.below;
    PyText.ScanConcat(PyText.START, OPENING + stamp + lead + again, t.below);
    PyText.ScanConcat(PyText.START, OPENING + stamp + lead, again);
    PyText.ScanConcat(PyText.START, OPENING + stamp, lead);
    PyText.ScanConcat(PyText.START, OPENING, stamp);
  }

  lemma BoardStaysFresh(issues: seq<Issue>, projectUrl: string, d: Date, e: Date)
    ensures IsFresh(RenderDirectly(issues, projectUrl, d), RenderDirectly(issues, projectUrl, e))
  {
    hide CountsSummary, Render, StripGeneratedDate, RenderDirectly, HeaderMiddle, HeaderEnd, LineTexts;
    RenderIsCutAtDates(issues, projectUrl, d);
    RenderIsCutAtDates(issues, projectUrl, e);
    var t := TextOf(issues, projectUrl);
    var lead := HeaderMiddle(CountsSummary(issues), projectUrl);
    DatesDoNotStale(t, lead, d, e);
  }

  // ----- Reading the stamp back --------------------------------------------------------------

  function SkipSpaces(s: string, i: nat): (j: nat)
    requires i <= |s|
    ensures i <= j <= |s|
    decreases |s| - i
  {
    if i < |s| && PyText.IsSpace(s[i]) then SkipSpaces(s, i + 1) else i
  }

  /** The stamp pattern matches at `i`: the mark, any white space, a date's shape. */
  predicate StampAt(s: string, i: nat)
    requires i <= |s|
  {
    && i + |MARK| <= |s| && s[i..i + |MARK|] == MARK
    && var j := SkipSpaces(s, i + |MARK|);
       j + 10 <= |s| && IsIso(s[j..j + 10])
  }

  function ParseFrom(s: string, i: nat): (d: Option<Date>)
    requires i <= |s|
    decreases |s| - i
  {
    if StampAt(s, i) then
      var j := SkipSpaces(s, i + |MARK|);
      FromIso(s[j..j + 10])
    else if i == |s| then None
    else ParseFrom(s, i + 1)
  }

  /** `parse_generated_date`: the first stamp, or an error. */
  function ParseGeneratedDate(content: string): (d: Option<Date>) {
    ParseFrom(content, 0)
  }

  /** No mark begins in such a text, nor across its end. */
  predicate Clear(s: string) {
    forall i | 0 <= i < |s| :: s[i] == 'G' ==> i + 1 < |s| && s[i + 1] != 'e'
  }

  lemma ClearConcat(a: string, b: string)
    requires Clear(a) && Clear(b)
    ensures Clear(a + b)
  {
  }

  lemma OpeningIsClear()
    ensures Clear(OPENING)
  {
    ClearConcat("<!-- ", "GENERATED by ");
    ClearConcat("<!-- " + "GENERATED by ", "scripts/gen-sprint-board.py ");
    ClearConcat("<!-- " + "GENERATED by " + "scripts/gen-sprint-board.py ", "\U{2014} do not hand-edit.\n");
    ClearConcat("<!-- " + "GENERATED by " + "scripts/gen-sprint-board.py " + "\U{2014} do not hand-edit.\n",
                "     Source of truth: ");
    ClearConcat("<!-- " + "GENERATED by " + "scripts/gen-sprint-board.py " + "\U{2014} do not hand-edit.\n"
                + "     Source of truth: ", "Linear (TappsCodingAgents ");
    ClearConcat("<!-- " + "GENERATED by " + "scripts/gen-sprint-board.py " + "\U{2014} do not hand-edit.\n"
                + "     Source of truth: " + "Linear (TappsCodingAgents ", "/ TappsMCP Platform).");
    ClearConcat(HEAD, "\n     ");
  }

  lemma {:induction false} NoStampBefore(opening: string, rest: string, i: nat)
    requires Clear(opening) && i <= |opening|
    ensures ParseFrom(opening + rest, i) == ParseFrom(opening + rest, |opening|)
    decreases |opening| - i
  {
    hide SkipSpaces, FromIso, IsIso;
    if i < |opening| {
      var s := opening + rest;
      if i + |MARK| <= |s| {
        assert s[i..i + |MARK|][0] == opening[i] && s[i..i + |MARK|][1] == s[i + 1];
        assert MARK[0] == 'G' && MARK[1] == 'e';
      }
      NoStampBefore(opening, rest, i + 1);
    }
  }

  lemma FirstStamp(opening: string, after: string, d: Date)
    requires Clear(opening) && ValidDate(d)
    ensures ParseGeneratedDate(opening + (MARK + " " + Iso(d) + after)) == Some(d)
  {
    hide FromIso, IsIso, Clear, Iso;
    IsoRoundTrip(d);
    IsoLength(d);
    var rest := MARK + " " + Iso(d) + after;
    var s := opening + rest;
    NoStampBefore(opening, rest, 0);
    var i := |opening|;
    var j := i + |MARK|;
    assert s[i..j] == MARK;
    assert s[j] == ' ' && s[j + 1] == Iso(d)[0];
    assert SkipSpaces(s, j) == j + 1;
    assert s[j + 1..j + 11] == Iso(d);
  }

  /** The stamp of a board is the date it was rendered for. */
  lemma StampIsRenderedDate(issues: seq<Issue>, projectUrl: string, d: Date)
    requires ValidDate(d)
    ensures ParseGeneratedDate(RenderDirectly(issues, projectUrl, d)) == Some(d)
  {
    hide Iso, ParseGeneratedDate, Clear, TextOf, RenderDirectly;
    var t := TextOf(issues, projectUrl);
    RenderIsCutAtDates(issues, projectUrl, d);
    OpeningIsClear();
    var after := t.between + Iso(d) + t.below;
    assert Render(t, d) == OPENING + (MARK + " " + Iso(d) + after);
    FirstStamp(OPENING, after, d);
  }

  lemma IsoLength(d: Date)
    ensures |Iso(d)| == 10 && !PyText.IsSpace(Iso(d)[0])
  {
  }
}
