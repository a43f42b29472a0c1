/** `scripts/gen_sprint_board.py`: what the freshness check tells apart. Boards of the same
    issues are fresh to each other on any dates (`BoardStamp`); here is the converse. */
module BoardFreshness {
  import PyText
  import opened BoardStamp
  import opened SprintBoard
  import opened Wrappers

  // ----- Texts that end in a line feed -----------------------------------------------------

  /** The lines `splitlines` finds in `s` and a line feed after it. */
  function LinesOf(s: string): (lines: seq<string>) {
    PyText.Scan(PyText.START, s + "\n").lines
  }

  lemma {:induction false} ScanAppends(before: seq<string>, st: PyText.Scanner, s: string)
    ensures var r := PyText.Scan(st, s);
      PyText.Scan(st.(lines := before + st.lines), s) == r.(lines := before + r.lines)
    decreases |s|
  {
    hide PyText.IsBreak;
    if s != "" {
      assert before + (st.lines + [st.cur]) == (before + st.lines) + [st.cur];
      ScanAppends(before, PyText.Step(st, s[0]), s[1..]);
    }
  }

  /** A line feed leaves no line begun. */
  lemma FeedEnds(s: string)
    ensures PyText.Scan(PyText.START, s + "\n") == PyText.Scanner(LinesOf(s), "", false)
  {
    PyText.ScanConcat(PyText.START, s, "\n");
    PyText.ScanGrows(PyText.START, s);
    assert "\n"[1..] == "";
  }

  lemma LinesConcat(a: string, b: string)
    ensures LinesOf(a + "\n" + b) == LinesOf(a) + LinesOf(b)
  {
    assert a + "\n" + b + "\n" == (a + "\n") + (b + "\n");
    PyText.ScanConcat(PyText.START, a + "\n", b + "\n");
    FeedEnds(a);
    ScanAppends(LinesOf(a), PyText.START, b + "\n");
    assert LinesOf(a) + [] == LinesOf(a);
  }

  lemma SplitIsLines(s: string)
    ensures PyText.SplitLines(s + "\n") == LinesOf(s)
  {
    FeedEnds(s);
  }

  /** No line break at all. */
  predicate Whole(s: string) {
    forall i | 0 <= i < |s| :: !PyText.IsBreak(s[i])
  }

  lemma WholeLine(s: string)
    requires Whole(s)
    ensures LinesOf(s) == [s] && '\n' !in s
  {
    PyText.ScanUnbroken(PyText.START, s);
    PyText.ScanConcat(PyText.START, s, "\n");
    assert "" + s == s && "\n"[1..] == "" && [] + [s] == [s];
  }

  lemma {:induction false} ScanHoldsNoFeed(st: PyText.Scanner, s: string)
    requires '\n' !in st.cur && forall line | line in st.lines :: '\n' !in line
    ensures forall line | line in PyText.Scan(st, s).lines :: '\n' !in line
    decreases |s|
  {
    if s != "" {
      ScanHoldsNoFeed(PyText.Step(st, s[0]), s[1..]);
    }
  }

  lemma {:induction false} LinesOfJoin(lines: seq<string>)
    requires lines != [] && forall line | line in lines :: Whole(line)
    ensures LinesOf(PyText.Join("\n", lines)) == lines
    decreases |lines|
  {
    hide Whole, LinesOf;
    assert lines[0] in lines;
    WholeLine(lines[0]);
    if |lines| > 1 {
      LinesOfJoin(lines[1..]);
      LinesConcat(lines[0], PyText.Join("\n", lines[1..]));
      assert [lines[0]] + lines[1..] == lines;
    }
  }

  lemma SamePrefix(prefix: string, a: string, b: string)
    ensures prefix + a == prefix + b <==> a == b
  {
    if prefix + a == prefix + b {
      assert (prefix + a)[|prefix|..] == a && (prefix + b)[|prefix|..] == b;
    }
  }

  lemma FirstFeed(a: string, b: string)
    requires '\n' !in a
    ensures PyText.IndexOf(a + "\n" + b, '\n') == |a|
  {
    var s := a + "\n" + b;
    assert s[..|a|] == a;
    PyText.IndexOfUnique(s, '\n', |a|);
  }

  lemma SameUpToFeed(a: string, x: string, b: string, y: string)
    requires '\n' !in a && '\n' !in b && a + "\n" + x == b + "\n" + y
    ensures a == b && x == y
  {
    FirstFeed(a, x);
    FirstFeed(b, y);
    assert (a + "\n" + x)[..|a|] == a && (b + "\n" + y)[..|b|] == b;
    assert (a + "\n" + x)[|a| + 1..] == x && (b + "\n" + y)[|b| + 1..] == y;
  }

  lemma SeveralJoined(lines: seq<string>)
    requires |lines| > 1
    ensures '\n' in PyText.Join("\n", lines)
  {
    assert PyText.Join("\n", lines)[|lines[0]|] == '\n';
  }

  /** Lines without line feeds are recovered from their joined text. */
  lemma {:induction false} JoinIsInjective(x: seq<string>, y: seq<string>)
    requires x != [] && y != [] && (forall s | s in x :: '\n' !in s) && (forall s | s in y :: '\n' !in s)
    requires PyText.Join("\n", x) == PyText.Join("\n", y)
    ensures x == y
    decreases |x|
  {
    assert x[0] in x && y[0] in y;
    if |x| > 1 && |y| > 1 {
      SameUpToFeed(x[0], PyText.Join("\n", x[1..]), y[0], PyText.Join("\n", y[1..]));
      JoinIsInjective(x[1..], y[1..]);
      assert x == [x[0]] + x[1..] && y == [y[0]] + y[1..];
    } else if |x| > 1 {
      SeveralJoined(x);
    } else if |y| > 1 {
      SeveralJoined(y);
    }
  }

  // ----- Text without the mark ---------------------------------------------------------------

  predicate Unmarked(s: string) {
    !PyText.Contains(s, MARK)
  }

  /** Text that no character of the mark is part of. */
  predicate Separates(sep: string) {
    sep != "" && forall c | c in sep :: c !in MARK
  }

  lemma MarkedCharacters(s: string, i: nat)
    requires PyText.OccursAt(s, MARK, i)
    ensures forall k | i <= k < i + |MARK| :: s[k] == MARK[k - i]
  {
    assert forall k | i <= k < i + |MARK| :: s[k] == s[i..i + |MARK|][k - i];
  }

  /** An occurrence that reaches into the middle part shares a character with it. */
  lemma MarkedAcross(a: string, sep: string, b: string, i: nat)
    requires sep != "" && PyText.OccursAt(a + sep + b, MARK, i) && |a| < i + |MARK| && i < |a| + |sep|
    ensures exists c :: c in sep && c in MARK
  {
    var s := a + sep + b;
    var k := if i < |a| then |a| else i;
    MarkedCharacters(s, i);
    assert s[k] == sep[k - |a|];
    assert sep[k - |a|] in MARK;
  }

  lemma UnmarkedGlued(a: string, sep: string, b: string)
    requires Unmarked(a) && Unmarked(b) && Separates(sep)
    ensures Unmarked(a + sep + b)
  {
    var s := a + sep + b;
    if PyText.Contains(s, MARK) {
      var i :| 0 <= i <= |s| - |MARK| && PyText.OccursAt(s, MARK, i);
      OccursInside(a, sep, b, i);
      if |a| < i + |MARK| && i < |a| + |sep| {
        MarkedAcross(a, sep, b, i);
      }
    }
  }

  lemma OccursInside(a: string, sep: string, b: string, i: nat)
    requires PyText.OccursAt(a + sep + b, MARK, i)
    ensures i + |MARK| <= |a| ==> PyText.Contains(a, MARK)
    ensures |a| + |sep| <= i ==> PyText.Contains(b, MARK)
  {
    var s := a + sep + b;
    if i + |MARK| <= |a| {
      assert a[i..i + |MARK|] == s[i..i + |MARK|];
      assert PyText.OccursAt(a, MARK, i);
    }
    if |a| + |sep| <= i {
      var j := i - |a| - |sep|;
      assert b[j..j + |MARK|] == s[i..i + |MARK|];
      assert PyText.OccursAt(b, MARK, j);
    }
  }

  lemma {:induction false} UnmarkedStays(lines: seq<string>)
    requires forall i | 0 <= i < |lines| :: Unmarked(lines[i])
    ensures Undated(lines) == lines
    decreases |lines|
  {
    if lines != [] {
      UnmarkedStays(lines[..|lines| - 1]);
      assert lines == lines[..|lines| - 1] + [lines[|lines| - 1]];
    }
  }

  lemma {:induction false} UndatedConcat(a: seq<string>, b: seq<string>)
    ensures Undated(a + b) == Undated(a) + Undated(b)
    decreases |b|
  {
    if b == [] {
      assert a + b == a;
    } else {
      assert (a + b)[..|a + b| - 1] == a + b[..|b| - 1];
      UndatedConcat(a, b[..|b| - 1]);
    }
  }

  // ----- The parts of a board ------------------------------------------------------------------

  predicate Plain(s: string) {
    Unmarked(s) && Whole(s)
  }

  /** The issue's texts hold neither the date mark nor a line break. */
  predicate PlainIssue(x: Issue) {
    Plain(x.id) && Plain(x.url) && Plain(x.title) && Plain(x.priority) && Plain(x.status)
  }

  function StampLine(counts: string, d: Date): (s: string) {
    "     " + MARK + " " + Iso(d) + " \U{b7} " + counts + " -->"
  }

  function AgainLine(d: Date): (s: string) {
    "**" + MARK + "** " + Iso(d) + "  "
  }

  /** The sections below the header, without trailing white space. */
  function Body(issues: seq<Issue>): (s: string) {
    PyText.TrimRight("\n" + PyText.Join("\n", [""] + LineTexts(Board(issues))), c => PyText.IsSpace(c))
  }

  function Below(issues: seq<Issue>): (s: string) {
    OPEN + CountsSummary(issues) + "\n" + (RULES + Body(issues))
  }

  lemma RenderInParts(issues: seq<Issue>, projectUrl: string, d: Date)
    ensures RenderDirectly(issues, projectUrl, d) ==
              HEAD + "\n" + StampLine(CountsSummary(issues), d) + "\n" + (TITLE + projectUrl + TEAM) + "\n"
              + AgainLine(d) + "\n" + Below(issues) + "\n"
  {
    RenderIsCutAtDates(issues, projectUrl, d);
    hide CountsSummary, Board, LineTexts, PyText.TrimRight, PyText.Join, Iso, RenderDirectly;
    var counts := CountsSummary(issues);
    assert HeaderMiddle(counts, projectUrl) == " \U{b7} " + counts + " -->"
        + ("\n" + (TITLE + projectUrl + TEAM) + "\n**");
    assert HeaderEnd(counts) == "  \n" + (OPEN + counts + "\n" + RULES);
    hide *;
    Regroup(HEAD, MARK, Iso(d), counts, TITLE + projectUrl + TEAM, OPEN + counts, RULES, Body(issues));
  }

  /** The same text, put together from its parts or from its lines. */
  lemma Regroup(head: string, mark: string, date: string, counts: string, middle: string, open: string, rules: string,
      body: string)
    ensures head + "\n     " + mark + " " + date
        + (" \U{b7} " + counts + " -->" + ("\n" + middle + "\n**") + mark + "** ")
              + date + ("  \n" + (open + "\n" + rules) + body + "\n")
            == head + "\n" + ("     " + mark + " " + date + " \U{b7} " + counts + " -->") + "\n" + middle + "\n"
              + ("**" + mark + "** " + date + "  ") + "\n" + (open + "\n" + (rules + body)) + "\n"
  {
    assert "\n     " == "\n" + "     " && "\n**" == "\n" + "**" && "  \n" == "  " + "\n";
  }

  // ----- Counts ----------------------------------------------------------------------------------

  /** Neither a line break nor the first letter of the mark. */
  predicate Sober(s: string) {
    forall i | 0 <= i < |s| :: !PyText.IsBreak(s[i]) && s[i] != 'G'
  }

  lemma SoberConcat(a: string, b: string)
    requires Sober(a) && Sober(b)
    ensures Sober(a + b)
  {
    hide PyText.IsBreak;
  }

  lemma {:induction false} NumeralIsSober(n: nat)
    ensures Sober(NumeralOf(n))
  {
    if n >= 10 {
      NumeralIsSober(n / 10);
      SoberConcat(NumeralOf(n / 10), [Digit(n)]);
    }
  }

  lemma {:induction false} PartsAreSober(issues: seq<Issue>, i: nat)
    requires i <= |PRIORITY_ORDER|
    ensures forall part | part in CountParts(issues, i) :: Sober(part)
    decreases |PRIORITY_ORDER| - i
  {
    hide NumeralOf, CountOf;
    if i < |PRIORITY_ORDER| {
      PartsAreSober(issues, i + 1);
      var n := CountOf(issues, PRIORITY_ORDER[i]);
      NumeralIsSober(n);
      assert Sober(" ") && Sober(PRIORITY_ORDER[i]);
      SoberConcat(NumeralOf(n), " ");
      SoberConcat(NumeralOf(n) + " ", PRIORITY_ORDER[i]);
    }
  }

  lemma {:induction false} JoinIsSober(sep: string, parts: seq<string>)
    requires Sober(sep) && forall part | part in parts :: Sober(part)
    ensures Sober(PyText.Join(sep, parts))
    decreases |parts|
  {
    hide Sober;
    if |parts| > 1 {
      JoinIsSober(sep, parts[1..]);
      SoberConcat(parts[0], sep);
      SoberConcat(parts[0] + sep, PyText.Join(sep, parts[1..]));
    } else {
      assert Sober("") by {
        SoberNothing();
      }
    }
  }

  lemma SoberNothing()
    ensures Sober("")
  {
  }

  lemma CountsAreSober(issues: seq<Issue>)
    ensures Sober(CountsSummary(issues))
  {
    NumeralIsSober(|issues|);
    PartsAreSober(issues, 0);
    assert Sober(" open (") && Sober(", ") && Sober(")");
    hide Sober, NumeralOf, CountParts, PyText.Join;
    JoinIsSober(", ", CountParts(issues, 0));
    SoberConcat(NumeralOf(|issues|), " open (");
    SoberConcat(NumeralOf(|issues|) + " open (", PyText.Join(", ", CountParts(issues, 0)));
    SoberConcat(NumeralOf(|issues|) + " open (" + PyText.Join(", ", CountParts(issues, 0)), ")");
  }

  lemma MarkedHoldsG(s: string)
    requires PyText.Contains(s, MARK)
    ensures !Sober(s)
  {
    var i :| 0 <= i <= |s| - |MARK| && PyText.OccursAt(s, MARK, i);
    MarkedCharacters(s, i);
    assert MARK[0] == 'G' && s[i] == 'G';
  }

  /** The line of the counts stays, in one piece. */
  lemma CountsLine(issues: seq<Issue>)
    ensures Whole(OPEN + CountsSummary(issues)) && Unmarked(OPEN + CountsSummary(issues))
    ensures Whole(CountsSummary(issues))
  {
    var counts := CountsSummary(issues);
    CountsAreSober(issues);
    assert Sober(OPEN);
    hide CountsSummary;
    SoberConcat(OPEN, counts);
    if PyText.Contains(OPEN + counts, MARK) {
      MarkedHoldsG(OPEN + counts);
    }
  }

  // ----- The sections ------------------------------------------------------------------------------

  predicate PlainLine(line: Line) {
    match line
    case Heading(priority) => Plain(priority)
    case Item(x, _) => PlainIssue(x)
    case Blank => true
  }

  lemma WholeConcat(a: string, b: string)
    requires Whole(a) && Whole(b)
    ensures Whole(a + b)
  {
    hide PyText.IsBreak;
  }

  lemma PlainGlued(a: string, sep: string, b: string)
    requires Plain(a) && Plain(b) && Separates(sep) && Whole(sep)
    ensures Plain(a + sep + b)
  {
    UnmarkedGlued(a, sep, b);
    hide PyText.IsBreak, Unmarked;
  }

  lemma NothingIsPlain()
    ensures Plain("")
  {
  }

  lemma Separators()
    ensures Separates("- [") && Separates("](") && Separates(") \U{2014} ") && Separates(" _(") && Separates(", ")
    ensures Separates(")_") && Separates("## ") && Separates("  - [")
    ensures Whole("- [") && Whole("](") && Whole(") \U{2014} ") && Whole(" _(") && Whole(", ")
    ensures Whole(")_") && Whole("## ") && Whole("  - [")
  {
  }

  /** A text between two separators. */
  lemma PlainLed(sep: string, a: string)
    requires Plain(a) && Separates(sep) && Whole(sep)
    ensures Plain(sep + a) && Plain(a + sep)
  {
    NothingIsPlain();
    PlainGlued("", sep, a);
    PlainGlued(a, sep, "");
    assert "" + sep + a == sep + a && a + sep + "" == a + sep;
  }

  lemma LineIsPlain(line: Line)
    requires PlainLine(line)
    ensures Plain(LineText(line))
  {
    hide Plain, Separates, Whole;
    Separators();
    match line
    case Heading(priority) => PlainLed("## ", priority);
    case Blank => NothingIsPlain();
    case Item(x, nested) =>
      var lead := if nested then "  - [" else "- [";
      var front := lead + x.id + "](" + x.url + ") \U{2014} " + x.title;
      PlainLed(lead, x.id);
      PlainGlued(lead + x.id, "](", x.url);
      PlainGlued(lead + x.id + "](" + x.url, ") \U{2014} ", x.title);
      if nested {
        PlainGlued(front, " _(", x.priority);
        PlainGlued(front + " _(" + x.priority, ", ", x.status);
        PlainLed(")_", front + " _(" + x.priority + ", " + x.status);
      } else {
        PlainGlued(front, " _(", x.status);
        PlainLed(")_", front + " _(" + x.status);
      }
  }

  lemma {:induction false} NestedIsPlain(kids: seq<Issue>)
    requires forall x | x in kids :: PlainIssue(x)
    ensures forall line | line in Nested(kids) :: PlainLine(line)
    decreases |kids|
  {
    hide PlainIssue;
    if kids != [] {
      NestedIsPlain(kids[..|kids| - 1]);
      assert kids[|kids| - 1] in kids;
    }
  }

  lemma GroupsArePart(all: seq<Issue>, id: string)
    ensures forall x | x in Sort(TopOf(all, all)) :: x in all
    ensures forall x | x in Sort(KidsOf(all, all, id)) :: x in all
  {
    hide IsChild;
    SortSorts(TopOf(all, all));
    SortSorts(KidsOf(all, all, id));
    forall x | x in Sort(TopOf(all, all)) ensures x in all {
      assert x in multiset(Sort(TopOf(all, all)));
      CountTop(all, all, x);
      assert x in multiset(all);
    }
    forall x | x in Sort(KidsOf(all, all, id)) ensures x in all {
      assert x in multiset(Sort(KidsOf(all, all, id)));
      CountKids(all, all, id, x);
      assert x in multiset(all);
    }
  }

  lemma {:induction false} SectionsArePlain(top: seq<Issue>, all: seq<Issue>)
    requires forall x | x in all :: PlainIssue(x)
    requires forall x | x in top :: x in all
    ensures forall line | line in Sections(top, all) :: PlainLine(line)
    decreases |top|
  {
    hide Sort, KidsOf;
    if top != [] {
      var n := |top| - 1;
      var kids := Sort(KidsOf(all, all, top[n].id));
      SectionsArePlain(top[..n], all);
      GroupsArePart(all, top[n].id);
      NestedIsPlain(kids);
      assert top[n] in all && PlainIssue(top[n]);
    }
  }

  lemma {:induction false} TextsArePlain(lines: seq<Line>)
    requires forall line | line in lines :: PlainLine(line)
    ensures forall s | s in LineTexts(lines) :: Plain(s)
    decreases |lines|
  {
    hide PlainLine, LineText, Plain;
    if lines != [] {
      assert lines[0] in lines;
      LineIsPlain(lines[0]);
      TextsArePlain(lines[1..]);
    }
  }

  lemma BoardIsPlain(issues: seq<Issue>)
    requires forall x | x in issues :: PlainIssue(x)
    ensures forall s | s in LineTexts(Board(issues)) :: Plain(s)
  {
    hide PlainIssue, PlainLine, LineTexts, Sections, Sort;
    GroupsArePart(issues, "");
    SectionsArePlain(Sort(TopOf(issues, issues)), issues);
    TextsArePlain(Board(issues));
  }

  lemma {:induction false} JoinSnoc(lines: seq<string>, last: string)
    requires lines != []
    ensures PyText.Join("\n", lines + [last]) == PyText.Join("\n", lines) + "\n" + last
    decreases |lines|
  {
    assert (lines + [last])[1..] == lines[1..] + [last];
    if |lines| > 1 {
      JoinSnoc(lines[1..], last);
      assert lines[0] + "\n" + (PyText.Join("\n", lines[1..]) + "\n" + last)
             == lines[0] + "\n" + PyText.Join("\n", lines[1..]) + "\n" + last;
    } else {
      assert [last][1..] == [] && lines[1..] + [last] == [last];
    }
  }

  /** Sections end in an item's line and a blank one. */
  lemma SectionsEnd(top: seq<Issue>, all: seq<Issue>)
    requires top != []
    ensures var lines := Sections(top, all); |lines| >= 2 && lines[|lines| - 1] == Blank && lines[|lines| - 2].Item?
  {
    hide Sort, KidsOf;
    var n := |top| - 1;
    NestedItems(Sort(KidsOf(all, all, top[n].id)));
  }

  lemma {:induction false} LineTextsAt(lines: seq<Line>)
    ensures |LineTexts(lines)| == |lines|
    ensures forall i | 0 <= i < |lines| :: LineTexts(lines)[i] == LineText(lines[i])
    decreases |lines|
  {
    hide LineText;
    if lines != [] {
      LineTextsAt(lines[1..]);
    }
  }

  lemma ItemEnds(line: Line)
    requires line.Item?
    ensures LineText(line) != "" && LineText(line)[|LineText(line)| - 1] == '_'
  {
    assert ")_"[1] == '_' && |")_"| == 2;
  }

  /** Below the header the text is that of the lines, without the last, blank one. */
  lemma BodyOfLines(texts: seq<string>)
    requires |texts| >= 2 && texts[|texts| - 1] == ""
    requires var last := texts[|texts| - 2]; last != "" && !PyText.IsSpace(last[|last| - 1])
    ensures PyText.TrimRight("\n" + PyText.Join("\n", [""] + texts), c => PyText.IsSpace(c))
            == "\n" + PyText.Join("\n", [""] + texts[..|texts| - 1])
  {
    var n := |texts| - 2;
    var front, last := [""] + texts[..n], texts[n];
    assert [""] + texts == (front + [last]) + [""];
    assert [""] + texts[..n + 1] == front + [last];
    JoinSnoc(front, last);
    JoinSnoc(front + [last], "");
    var text := "\n" + PyText.Join("\n", front + [last]);
    assert "\n" + PyText.Join("\n", [""] + texts) == text + "\n";
    assert text == ("\n" + PyText.Join("\n", front) + "\n") + last;
    TrimStopsAtText(text, "\n", c => PyText.IsSpace(c));
    assert text[|text| - 1] == last[|last| - 1];
    assert "\n"[..0] == "" && text + "" == text;
  }

  lemma BodyIs(issues: seq<Issue>)
    ensures var texts := LineTexts(Board(issues));
      if Board(issues) == [] then texts == [] && Body(issues) == ""
      else |texts| >= 2 && texts[|texts| - 1] == ""
           && Body(issues) == "\n" + PyText.Join("\n", [""] + texts[..|texts| - 1])
  {
    hide LineText, Sections, PyText.Join, Sort, TopOf;
    var top, lines := Sort(TopOf(issues, issues)), Board(issues);
    LineTextsAt(lines);
    if top == [] {
      NothingBelowHeader(issues);
    } else {
      SectionsEnd(top, issues);
      ItemEnds(lines[|lines| - 2]);
      BlankIsEmpty();
      BodyOfLines(LineTexts(lines));
    }
  }

  lemma BlankIsEmpty()
    ensures LineText(Blank) == "" && !PyText.IsSpace('_')
  {
  }

  lemma NothingBelowHeader(issues: seq<Issue>)
    requires Sort(TopOf(issues, issues)) == []
    ensures Board(issues) == [] && Body(issues) == ""
  {
    hide Sort, TopOf;
    var none: seq<string> := [];
    assert [""] + none == [""] && "\n" + "" == "\n" && "\n"[..0] == "";
  }

  /** The lines below the header: an empty one and those of the sections but the last,
      blank one. */
  function BodyLines(issues: seq<Issue>): (lines: seq<string>) {
    var texts := LineTexts(Board(issues));
    if texts == [] then [] else [""] + texts[..|texts| - 1]
  }

  lemma LinesOfBody(issues: seq<Issue>, rules: string)
    requires forall x | x in issues :: PlainIssue(x)
    ensures LinesOf(rules + Body(issues)) == LinesOf(rules) + BodyLines(issues)
    ensures forall s | s in BodyLines(issues) :: Plain(s)
  {
    BoardIsPlain(issues);
    NothingIsPlain();
    BodyIs(issues);
    hide PlainIssue, Board, LineTexts, Body, PyText.Join, LinesOf;
    var lines := BodyLines(issues);
    if lines == [] {
      assert rules + "" == rules;
    } else {
      assert forall s | s in lines :: Plain(s);
      hide *;
      LinesOfJoin(lines);
      LinesConcat(rules, PyText.Join("\n", lines));
      assert rules + ("\n" + PyText.Join("\n", lines)) == rules + "\n" + PyText.Join("\n", lines);
    }
  }

  // ----- The dated lines ---------------------------------------------------------------------------

  lemma DatedLine(before: string, after: string)
    requires Whole(before) && Whole(after)
    ensures Dated(before + MARK + after) && Whole(before + MARK + after)
  {
    PyText.ContainsSelf(MARK);
    PyText.ContainsIn(before, MARK, after, MARK);
    assert Whole(MARK);
    WholeConcat(before, MARK);
    WholeConcat(before + MARK, after);
    hide PyText.IsBreak, PyText.Contains, Whole;
  }

  lemma StampIsDated(counts: string, date: string)
    requires Whole(counts) && Whole(date)
    ensures var line := "     " + MARK + " " + date + " \U{b7} " + counts + " -->";
      Dated(line) && Whole(line)
  {
    assert Whole("     ") && Whole(" ") && Whole(" \U{b7} ") && Whole(" -->");
    hide Whole, Dated;
    WholeConcat(" ", date);
    WholeConcat(" " + date, " \U{b7} ");
    WholeConcat(" " + date + " \U{b7} ", counts);
    var rest := " " + date + " \U{b7} " + counts + " -->";
    WholeConcat(" " + date + " \U{b7} " + counts, " -->");
    DatedLine("     ", rest);
    assert "     " + MARK + rest == "     " + MARK + " " + date + " \U{b7} " + counts + " -->";
  }

  lemma AgainIsDated(date: string)
    requires Whole(date)
    ensures var line := "**" + MARK + "** " + date + "  "; Dated(line) && Whole(line)
  {
    assert Whole("**") && Whole("** ") && Whole("  ");
    hide Whole, Dated;
    WholeConcat("** ", date);
    WholeConcat("** " + date, "  ");
    DatedLine("**", "** " + date + "  ");
    assert "**" + MARK + ("** " + date + "  ") == "**" + MARK + "** " + date + "  ";
  }

  lemma DatedLines(issues: seq<Issue>, d: Date)
    ensures var line := StampLine(CountsSummary(issues), d); Dated(line) && Whole(line)
    ensures Dated(AgainLine(d)) && Whole(AgainLine(d))
  {
    CountsLine(issues);
    IsoUnbroken(d);
    assert Whole(Iso(d));
    hide CountsSummary, Dated, Iso, Whole;
    StampIsDated(CountsSummary(issues), Iso(d));
    AgainIsDated(Iso(d));
  }

  lemma DatedGoes(line: string)
    requires Dated(line)
    ensures Undated([line]) == []
  {
    assert [line][..0] == [];
  }

  // ----- Freshness, exactly --------------------------------------------------------------------------

  /** What is left of the header, above and below the line of the counts. */
  function Above(projectUrl: string): (lines: seq<string>) {
    Undated(LinesOf(HEAD)) + Undated(LinesOf(TITLE + projectUrl + TEAM))
  }

  function Between(): (lines: seq<string>) {
    Undated(LinesOf(RULES))
  }

  lemma LinesOfBelow(issues: seq<Issue>)
    requires forall x | x in issues :: PlainIssue(x)
    ensures LinesOf(Below(issues)) == [OPEN + CountsSummary(issues)] + LinesOf(RULES) + BodyLines(issues)
  {
    CountsLine(issues);
    WholeLine(OPEN + CountsSummary(issues));
    LinesOfBody(issues, RULES);
    hide PlainIssue, CountsSummary, Body, BodyLines, LinesOf;
    LinesConcat(OPEN + CountsSummary(issues), RULES + Body(issues));
    Reassociated([OPEN + CountsSummary(issues)], LinesOf(RULES), BodyLines(issues));
  }

  lemma Reassociated(a: seq<string>, b: seq<string>, c: seq<string>)
    ensures a + (b + c) == a + b + c
  {
  }

  lemma LinesOfBoard(issues: seq<Issue>, projectUrl: string, d: Date)
    ensures PyText.SplitLines(RenderDirectly(issues, projectUrl, d)) ==
              LinesOf(HEAD) + [StampLine(CountsSummary(issues), d)] + LinesOf(TITLE + projectUrl + TEAM)
              + [AgainLine(d)] + LinesOf(Below(issues))
  {
    hide StampLine, AgainLine, Below, CountsSummary, RenderDirectly, PyText.SplitLines, Dated;
    RenderInParts(issues, projectUrl, d);
    DatedLines(issues, d);
    var stamp, again := StampLine(CountsSummary(issues), d), AgainLine(d);
    WholeLine(stamp);
    WholeLine(again);
    hide LinesOf, Whole;
    var title := TITLE + projectUrl + TEAM;
    SplitIsLines(HEAD + "\n" + stamp + "\n" + title + "\n" + again + "\n" + Below(issues));
    LinesConcat(HEAD + "\n" + stamp + "\n" + title + "\n" + again, Below(issues));
    LinesConcat(HEAD + "\n" + stamp + "\n" + title, again);
    LinesConcat(HEAD + "\n" + stamp, title);
    LinesConcat(HEAD, stamp);
  }

  lemma UndatedParts(a: seq<string>, b: seq<string>, c: seq<string>, d: seq<string>, e: seq<string>)
    ensures Undated(a + b + c + d + e) == Undated(a) + Undated(b) + Undated(c) + Undated(d) + Undated(e)
  {
    hide Undated;
    UndatedConcat(a + b + c + d, e);
    UndatedConcat(a + b + c, d);
    UndatedConcat(a + b, c);
    UndatedConcat(a, b);
  }

  /** The undated lines of a board. */
  lemma UndatedBoard(issues: seq<Issue>, projectUrl: string, d: Date)
    requires forall x | x in issues :: PlainIssue(x)
    ensures Undated(PyText.SplitLines(RenderDirectly(issues, projectUrl, d))) ==
              Above(projectUrl) + ([OPEN + CountsSummary(issues)] + Between() + BodyLines(issues))
  {
    LinesOfBoard(issues, projectUrl, d);
    LinesOfBelow(issues);
    DatedLines(issues, d);
    CountsLine(issues);
    LinesOfBody(issues, RULES);
    hide PlainIssue, CountsSummary, BodyLines, StampLine, AgainLine, LinesOf, RenderDirectly, PyText.SplitLines, Dated,
      Undated;
    PartsLeft(LinesOf(HEAD), StampLine(CountsSummary(issues), d), LinesOf(TITLE + projectUrl + TEAM), AgainLine(d),
        OPEN + CountsSummary(issues), LinesOf(RULES), BodyLines(issues));
  }

  lemma PartsLeft(head: seq<string>, stamp: string, title: seq<string>, again: string, counts: string,
      rules: seq<string>, body: seq<string>)
    requires Dated(stamp) && Dated(again) && Unmarked(counts) && forall s | s in body :: Unmarked(s)
    ensures Undated(head + [stamp] + title + [again] + ([counts] + rules + body)) ==
              (Undated(head) + Undated(title)) + ([counts] + Undated(rules) + body)
  {
    DatedGoes(stamp);
    DatedGoes(again);
    TailLeft(counts, rules, body);
    hide Undated, Dated, Unmarked;
    UndatedParts(head, [stamp], title, [again], [counts] + rules + body);
    NothingBetween(Undated(head), Undated(title));
  }

  lemma NothingBetween(a: seq<string>, b: seq<string>)
    ensures a + [] + b + [] == a + b
  {
  }

  lemma TailLeft(counts: string, rules: seq<string>, body: seq<string>)
    requires Unmarked(counts) && forall s | s in body :: Unmarked(s)
    ensures Undated([counts] + rules + body) == [counts] + Undated(rules) + body
  {
    UnmarkedStays([counts]);
    UnmarkedStays(body);
    hide Undated, Unmarked;
    UndatedConcat([counts] + rules, body);
    UndatedConcat([counts], rules);
  }

  lemma {:induction false} UndatedArePart(lines: seq<string>)
    ensures forall line | line in Undated(lines) :: line in lines
    decreases |lines|
  {
    hide Dated;
    if lines != [] {
      UndatedArePart(lines[..|lines| - 1]);
    }
  }

  /** No line of a board holds a line feed. */
  lemma NoFeeds(s: string)
    ensures forall line | line in Undated(PyText.SplitLines(s + "\n")) :: '\n' !in line
  {
    SplitIsLines(s);
    ScanHoldsNoFeed(PyText.START, s + "\n");
    UndatedArePart(LinesOf(s));
  }

  lemma BoardNoFeeds(issues: seq<Issue>, projectUrl: string, d: Date)
    ensures forall line | line in Undated(PyText.SplitLines(RenderDirectly(issues, projectUrl, d))) :: '\n' !in line
  {
    RenderInParts(issues, projectUrl, d);
    hide StampLine, AgainLine, Below, CountsSummary, RenderDirectly, Undated, PyText.SplitLines;
    NoFeeds(HEAD + "\n" + StampLine(CountsSummary(issues), d) + "\n" + (TITLE + projectUrl + TEAM) + "\n"
        + AgainLine(d) + "\n" + Below(issues));
  }

  lemma SameBodyIff(a: seq<Issue>, b: seq<Issue>)
    ensures BodyLines(a) == BodyLines(b) <==> LineTexts(Board(a)) == LineTexts(Board(b))
  {
    BodyIs(a);
    BodyIs(b);
    hide Board, LineTexts, Body;
    var s, t := LineTexts(Board(a)), LineTexts(Board(b));
    if BodyLines(a) == BodyLines(b) && s != [] && t != [] {
      assert s == BodyLines(a)[1..] + [""] && t == BodyLines(b)[1..] + [""];
    }
  }

  /** Parts of equal shape are equal one by one. */
  lemma SameParts(above: seq<string>, x: string, y: string, between: seq<string>, s: seq<string>, t: seq<string>)
    ensures above + ([x] + between + s) == above + ([y] + between + t) <==> x == y && s == t
  {
    var a, b := above + ([x] + between + s), above + ([y] + between + t);
    if a == b {
      assert a[|above|] == x && b[|above|] == y;
      assert a[|above| + 1 + |between|..] == s && b[|above| + 1 + |between|..] == t;
    }
  }

  /** Freshness, exactly: boards of issues whose texts hold neither the mark nor a line break
      are fresh to each other, on whatever dates, if and only if their counts and the lines of
      their sections are the same. */
  lemma FreshIff(a: seq<Issue>, b: seq<Issue>, projectUrl: string, d: Date, e: Date)
    requires (forall x | x in a :: PlainIssue(x)) && (forall x | x in b :: PlainIssue(x))
    ensures IsFresh(RenderDirectly(a, projectUrl, d), RenderDirectly(b, projectUrl, e)) <==>
              CountsSummary(a) == CountsSummary(b) && LineTexts(Board(a)) == LineTexts(Board(b))
  {
    UndatedBoard(a, projectUrl, d);
    UndatedBoard(b, projectUrl, e);
    BoardNoFeeds(a, projectUrl, d);
    BoardNoFeeds(b, projectUrl, e);
    SameBodyIff(a, b);
    hide PlainIssue, CountsSummary, BodyLines, Above, Between, RenderDirectly, LineTexts, Board, Undated, PyText.Join,
        PyText.SplitLines;
    var x := Undated(PyText.SplitLines(RenderDirectly(a, projectUrl, d)));
    var y := Undated(PyText.SplitLines(RenderDirectly(b, projectUrl, e)));
    SameParts(Above(projectUrl), OPEN + CountsSummary(a), OPEN + CountsSummary(b), Between(), BodyLines(a),
        BodyLines(b));
    SamePrefix(OPEN, CountsSummary(a), CountsSummary(b));
    if PyText.Join("\n", x) == PyText.Join("\n", y) {
      JoinIsInjective(x, y);
    }
  }
}
