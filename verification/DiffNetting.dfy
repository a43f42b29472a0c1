/** `scripts/tool_budget_lint.py`: how many tool registrations a diff adds, read off
    its lines, against how many the two versions of the source hold. */
module DiffNetting {
  import PyText

  // ----- The line patterns ---------------------------------------------------------

  const SOURCE_ROOTS := ["packages/tapps-mcp/src/tapps_mcp/", "packages/docs-mcp/src/docs_mcp/"]

  const BUDGET_DOC := "docs/architecture/tool-budget.md"

  predicate IsPackageSource(path: string) {
    exists i | 0 <= i < |SOURCE_ROOTS| :: SOURCE_ROOTS[i] <= path
  }

  lemma PackageSourceIff(path: string)
    ensures IsPackageSource(path) <==>
              "packages/tapps-mcp/src/tapps_mcp/" <= path || "packages/docs-mcp/src/docs_mcp/" <= path
  {
    assert SOURCE_ROOTS[0] == "packages/tapps-mcp/src/tapps_mcp/";
    assert SOURCE_ROOTS[1] == "packages/docs-mcp/src/docs_mcp/";
  }

  predicate IsWord(c: char) {
    'a' <= c <= 'z' || 'A' <= c <= 'Z' || '0' <= c <= '9' || c == '_'
  }

  lemma WordIff(c: char)
    ensures IsWord(c) <==>
              || c in "abcdefghijklmnopqrstuvwxyz" || c in "ABCDEFGHIJKLMNOPQRSTUVWXYZ"
              || c in "0123456789" || c == '_'
  {
  }

  /** Optional white space, then an opening parenthesis. */
  predicate Opens(s: string) {
    s != [] && (s[0] == '(' || (PyText.IsSpace(s[0]) && Opens(s[1..])))
  }

  predicate CallAt(s: string, i: nat)
    requires i <= |s|
  {
    || ("@mcp.tool" <= s[i..] && Opens(s[i + 9..]))
    || ("register_tool" <= s[i..] && (i == 0 || !IsWord(s[i - 1])) && Opens(s[i + 13..]))
  }

  /** The text registers a tool: what `_REGISTER_CALL_RE`, or a direct decorator, would
      find anywhere in it. */
  predicate IsRegistration(text: string) {
    exists i | 0 <= i <= |text| :: CallAt(text, i)
  }

  /** The diff patterns spend one character of the text before they look for a call. */
  predicate Registers(text: string) {
    exists i | 1 <= i <= |text| :: CallAt(text, i)
  }

  /** The added (`+`) and removed (`-`) patterns: the sign must not be repeated. */
  predicate Matches(line: string, sign: char) {
    |line| > 1 && line[0] == sign && line[1] != sign && Registers(line[1..])
  }

  predicate IsHeader(line: string) {
    "+++ b/" <= line && |line| > 6
  }

  /** Nothing but white space. */
  predicate Blank(s: string) {
    forall i | 0 <= i < |s| :: PyText.IsSpace(s[i])
  }

  /** A parenthesis behind nothing but white space. */
  predicate OpensAt(s: string, i: nat) {
    i < |s| && s[i] == '(' && forall k | 0 <= k < i :: PyText.IsSpace(s[k])
  }

  lemma {:induction false} OpensIff(s: string)
    ensures Opens(s) <==> exists i: nat :: OpensAt(s, i)
    decreases |s|
  {
    hide PyText.IsSpace;
    if s != "" {
      OpensIff(s[1..]);
      if i: nat :| OpensAt(s, i) {
        assert i > 0 ==> OpensAt(s[1..], i - 1);
      }
      if PyText.IsSpace(s[0]) && Opens(s[1..]) {
        var j: nat :| OpensAt(s[1..], j);
        assert forall k | 0 < k <= j :: s[k] == s[1..][k - 1];
        assert OpensAt(s, j + 1);
      }
      if s[0] == '(' {
        assert OpensAt(s, 0);
      }
    }
  }

  /** `text` is `before`, a tool's registering name, white space, a parenthesis and the
      rest; the helper's name stands on its own, or behind no word character. */
  ghost predicate CallsIn(text: string, before: string, name: string, blank: string, rest: string) {
    && text == before + name + blank + "(" + rest && Blank(blank)
    && (name == "@mcp.tool" || (name == "register_tool" && (before == "" || !IsWord(before[|before| - 1]))))
  }

  lemma OpensParts(tail: string)
    ensures Opens(tail) <==> exists blank, rest :: tail == blank + "(" + rest && Blank(blank)
  {
    hide PyText.IsSpace, Opens;
    OpensIff(tail);
    if k: nat :| OpensAt(tail, k) {
      assert tail == tail[..k] + "(" + tail[k + 1..] && Blank(tail[..k]);
    }
    if blank, rest :| tail == blank + "(" + rest && Blank(blank) {
      assert OpensAt(tail, |blank|);
    }
  }

  lemma NameAtIff(text: string, i: nat, name: string)
    requires i <= |text|
    ensures name <= text[i..] && Opens(text[i + |name|..]) <==>
              exists blank, rest :: text == text[..i] + name + blank + "(" + rest && Blank(blank)
  {
    hide Opens, Blank;
    if name <= text[i..] {
      var tail := text[i + |name|..];
      OpensParts(tail);
      assert text[i..i + |name|] == name;
      if blank, rest :| tail == blank + "(" + rest && Blank(blank) {
        assert text == text[..i] + name + blank + "(" + rest;
      }
    }
    if blank, rest :| text == text[..i] + name + blank + "(" + rest && Blank(blank) {
      assert text[i..] == name + (blank + "(" + rest) && text[i + |name|..] == blank + "(" + rest;
      OpensParts(blank + "(" + rest);
    }
  }

  lemma CallAtIff(text: string, i: nat)
    requires i <= |text|
    ensures CallAt(text, i) <==> exists name, blank, rest :: CallsIn(text, text[..i], name, blank, rest)
  {
    hide PyText.IsSpace, IsWord, Opens, Blank;
    assert |"@mcp.tool"| == 9 && |"register_tool"| == 13;
    assert i > 0 ==> text[..i][i - 1] == text[i - 1];
    NameAtIff(text, i, "@mcp.tool");
    NameAtIff(text, i, "register_tool");
    if CallAt(text, i) {
      var name := if "@mcp.tool" <= text[i..] && Opens(text[i + 9..]) then "@mcp.tool" else "register_tool";
      var blank, rest :| text == text[..i] + name + blank + "(" + rest && Blank(blank);
      assert CallsIn(text, text[..i], name, blank, rest);
    }
    if name, blank, rest :| CallsIn(text, text[..i], name, blank, rest) {
      assert text == text[..i] + name + blank + "(" + rest && Blank(blank);
    }
  }

  /** What a registration is, spelled out. */
  lemma RegistrationIff(text: string)
    ensures IsRegistration(text) <==>
              exists before, name, blank, rest :: CallsIn(text, before, name, blank, rest)
  {
    hide CallAt;
    if IsRegistration(text) {
      var i :| 0 <= i <= |text| && CallAt(text, i);
      CallAtIff(text, i);
    }
    if before, name, blank, rest :| CallsIn(text, before, name, blank, rest) {
      assert text[..|before|] == before;
      CallAtIff(text, |before|);
    }
  }

  // ----- Counting ------------------------------------------------------------------

  function Count(lines: seq<string>, sign: char, inSource: bool): (n: nat)
    decreases |lines|
  {
    if lines == [] then 0
    else if IsHeader(lines[0]) then Count(lines[1..], sign, IsPackageSource(lines[0][6..]))
    else (if inSource && Matches(lines[0], sign) then 1 else 0) + Count(lines[1..], sign, inSource)
  }

  method CountRegistrations(lines: seq<string>, sign: char) returns (count: nat)
    ensures count == Count(lines, sign, false)
  {
    count := 0;
    var inSource := false;
    for i := 0 to |lines|
      invariant Count(lines, sign, false) == count + Count(lines[i..], sign, inSource)
    {
      var line := lines[i];
      assert lines[i..][0] == line && lines[i..][1..] == lines[i + 1..];
      if IsHeader(line) {
        inSource := IsPackageSource(line[6..]);
        continue;
      }
      if inSource && Matches(line, sign) {
        count := count + 1;
      }
    }
  }

  predicate Passes(lines: seq<string>, changedFiles: seq<string>, bypass: bool) {
    bypass || Count(lines, '+', false) <= Count(lines, '-', false) || BUDGET_DOC in changedFiles
  }

  /** `count_net_new_registrations` and `check_new_registrations`; `bypass` says
      whether the commit message or the environment carries a bypass token. */
  method CheckNewRegistrations(lines: seq<string>, changedFiles: seq<string>, bypass: bool) returns (ok: bool)
    ensures ok == Passes(lines, changedFiles, bypass)
  {
    if bypass {
      return true;
    }
    var added := CountRegistrations(lines, '+');
    var removed := CountRegistrations(lines, '-');
    var net := if added > removed then added - removed else 0;
    if net == 0 {
      return true;
    }
    return BUDGET_DOC in changedFiles;
  }

  // ----- The edits a diff stands for -------------------------------------------------

  /** A line of a changed file. Not every kept line is shown in the diff. */
  datatype Edit = Keep(text: string, shown: bool) | Add(text: string) | Drop(text: string)

  /** A file section; `mark` is the hunk heading before its lines. */
  datatype Section = Section(path: string, deleted: bool, mark: string, edits: seq<Edit>)

  function RenderEdits(edits: seq<Edit>): (lines: seq<string>)
  {
    if edits == [] then []
    else
      var rest := RenderEdits(edits[1..]);
      match edits[0]
      case Keep(text, shown) => if shown then [" " + text] + rest else rest
      case Add(text) => ["+" + text] + rest
      case Drop(text) => ["-" + text] + rest
  }

  function HeaderOf(s: Section): (line: string) {
    if s.deleted then "+++ /dev/null" else "+++ b/" + s.path
  }

  function Render(script: seq<Section>): (lines: seq<string>)
  {
    if script == [] then []
    else
      var s := script[0];
      ["diff --git a/" + s.path + " b/" + s.path, "--- a/" + s.path, HeaderOf(s), "@@" + s.mark]
      + RenderEdits(s.edits) + Render(script[1..])
  }

  /** The registrations in one version of a file. */
  function Registered(edits: seq<Edit>, after: bool): (n: nat) {
    if edits == [] then 0
    else
      (if (edits[0].Keep? || (if after then edits[0].Add? else edits[0].Drop?)) && IsRegistration(edits[0].text)
          then 1 else 0)
      + Registered(edits[1..], after)
  }

  /** The registrations in the package source, before or after the edits. */
  function RegisteredIn(script: seq<Section>, after: bool): (n: nat) {
    if script == [] then 0
    else
      (if IsPackageSource(script[0].path) then Registered(script[0].edits, after) else 0)
      + RegisteredIn(script[1..], after)
  }

  predicate IsChange(e: Edit, sign: char) {
    if sign == '+' then e.Add? else e.Drop?
  }

  /** The registrations among the added or the removed lines. */
  function Changed(edits: seq<Edit>, sign: char): (n: nat) {
    if edits == [] then 0
    else (if IsChange(edits[0], sign) && IsRegistration(edits[0].text) then 1 else 0) + Changed(edits[1..], sign)
  }

  function ChangedIn(script: seq<Section>, sign: char): (n: nat) {
    if script == [] then 0
    else (if IsPackageSource(script[0].path) then Changed(script[0].edits, sign) else 0) + ChangedIn(script[1..], sign)
  }

  // ----- What the scan makes of them ---------------------------------------------------

  predicate ReadsAsHeader(e: Edit) {
    e.Add? && IsHeader("+" + e.text)
  }

  function PathRead(e: Edit): (path: string)
    requires ReadsAsHeader(e)
  {
    e.text[5..]
  }

  /** Whether the scan files the next line under the package source: an added line can
      itself read as a file header. */
  predicate Refiled(e: Edit, filed: bool) {
    if ReadsAsHeader(e) then IsPackageSource(PathRead(e)) else filed
  }

  predicate FiledAfter(edits: seq<Edit>, filed: bool) {
    if edits == [] then filed else FiledAfter(edits[1..], Refiled(edits[0], filed))
  }

  /** A section's lines are filed under its own header, if it has one of the kind looked
      for, and otherwise under whatever came before. */
  predicate FiledUnder(s: Section, filed: bool) {
    if s.deleted || s.path == [] then filed else IsPackageSource(s.path)
  }

  /** The text's only call is in its first column. */
  predicate OnlyFirstColumn(text: string) {
    CallAt(text, 0) && forall i | 1 <= i <= |text| :: !CallAt(text, i)
  }

  /** Why a registration is no match though it is filed under the source. */
  predicate Slips(text: string, sign: char) {
    (text != [] && text[0] == sign) || OnlyFirstColumn(text)
  }

  /** The changed registrations of a source file (`own`) that are filed elsewhere, begin
      with the sign or only call in the first column, less those of other files that are
      filed under the source and do neither. */
  function Missed(edits: seq<Edit>, sign: char, own: bool, filed: bool): (n: int) {
    if edits == [] then 0
    else
      var e := edits[0];
      var counted := filed && !Slips(e.text, sign);
      (if !IsChange(e, sign) || !IsRegistration(e.text) || own == counted then 0 else if own then 1 else -1)
      + Missed(edits[1..], sign, own, Refiled(e, filed))
  }

  function MissedIn(script: seq<Section>, sign: char, filed: bool): (n: int) {
    if script == [] then 0
    else
      var s := script[0];
      var under := FiledUnder(s, filed);
      Missed(s.edits, sign, IsPackageSource(s.path), under) + MissedIn(script[1..], sign, FiledAfter(s.edits, under))
  }

  // ----- Netting, exactly -----------------------------------------------------------------

  lemma {:induction false} ChangedIsDifference(edits: seq<Edit>)
    ensures Changed(edits, '+') - Changed(edits, '-') == Registered(edits, true) - Registered(edits, false)
  {
    hide IsRegistration;
    if edits != [] {
      ChangedIsDifference(edits[1..]);
    }
  }

  lemma {:induction false} ChangedInIsDifference(script: seq<Section>)
    ensures ChangedIn(script, '+') - ChangedIn(script, '-') == RegisteredIn(script, true) - RegisteredIn(script, false)
  {
    hide Changed, Registered, IsPackageSource;
    if script != [] {
      ChangedIsDifference(script[0].edits);
      ChangedInIsDifference(script[1..]);
    }
  }

  /** The line of one edit matches only the pattern of its own sign, and only as a
      registration. */
  lemma OnlyOwnSign(text: string, first: char, sign: char)
    ensures Matches([first] + text, sign) ==> first == sign && IsRegistration(text)
    ensures first != '+' ==> !IsHeader([first] + text)
    ensures IsHeader([first] + text) ==> ([first] + text)[6..] == text[5..]
  {
    var line := [first] + text;
    assert line[0] == first && line[1..] == text;
    assert "+++ b/"[0] == '+';
    if Registers(text) {
      var i :| 1 <= i <= |text| && CallAt(text, i);
    }
  }

  /** A registration escapes the pattern of its sign exactly for one of two causes. */
  lemma SlipsIff(text: string, sign: char)
    requires IsRegistration(text)
    ensures Matches([sign] + text, sign) <==> !Slips(text, sign)
  {
    var line := [sign] + text;
    assert line[0] == sign && line[1..] == text;
    if text != [] {
      assert line[1] == text[0];
    }
  }

  /** Where a line is filed: under the last added line before it that reads as a header. */
  lemma {:induction false} FiledByLastHeader(edits: seq<Edit>, filed: bool)
    ensures (forall i | 0 <= i < |edits| :: !ReadsAsHeader(edits[i])) ==> FiledAfter(edits, filed) == filed
    ensures forall i | 0 <= i < |edits| && ReadsAsHeader(edits[i])
        && (forall j | i < j < |edits| :: !ReadsAsHeader(edits[j])) ::
              FiledAfter(edits, filed) == IsPackageSource(PathRead(edits[i]))
    decreases |edits|
  {
    hide ReadsAsHeader, PathRead, IsPackageSource;
    if edits != [] {
      FiledByLastHeader(edits[1..], Refiled(edits[0], filed));
      assert forall i | 0 <= i < |edits[1..]| :: edits[1..][i] == edits[i + 1];
      forall i | 0 <= i < |edits| && ReadsAsHeader(edits[i]) && (forall j | i < j < |edits| :: !ReadsAsHeader(edits[j]))
        ensures FiledAfter(edits, filed) == IsPackageSource(PathRead(edits[i]))
      {
        if i > 0 {
          assert edits[1..][i - 1] == edits[i];
        }
      }
    }
  }

  /** A header is no match: its sign is repeated. */
  lemma HeaderIsNoMatch(line: string, sign: char)
    requires IsHeader(line) && (sign == '+' || sign == '-')
    ensures !Matches(line, sign)
  {
    assert "+++ b/"[0] == '+' && "+++ b/"[1] == '+';
    assert line[0] == "+++ b/"[0] && line[1] == "+++ b/"[1];
  }

  lemma CountOne(line: string, rest: seq<string>, sign: char, filed: bool)
    ensures Count([line] + rest, sign, filed) ==
              if IsHeader(line) then Count(rest, sign, IsPackageSource(line[6..]))
              else (if filed && Matches(line, sign) then 1 else 0) + Count(rest, sign, filed)
  {
    assert ([line] + rest)[1..] == rest;
  }

  /** What one pattern counts in a section, with what it misses, is what changed there. */
  lemma {:induction false} CountBody(edits: seq<Edit>, rest: seq<string>, sign: char, own: bool, filed: bool)
    requires sign == '+' || sign == '-'
    ensures Count(RenderEdits(edits) + rest, sign, filed) + Missed(edits, sign, own, filed)
            == (if own then Changed(edits, sign) else 0) + Count(rest, sign, FiledAfter(edits, filed))
    decreases |edits|
  {
    hide IsRegistration, IsHeader, Matches, Count, IsPackageSource, Slips;
    if edits == [] {
      assert RenderEdits(edits) + rest == rest;
    } else {
      var e, lines := edits[0], RenderEdits(edits) + rest;
      var tail := RenderEdits(edits[1..]) + rest;
      CountBody(edits[1..], rest, sign, own, Refiled(e, filed));
      if e.Keep? && !e.shown {
        assert lines == tail;
      } else {
        var first := if e.Keep? then ' ' else if e.Add? then '+' else '-';
        var line := [first] + e.text;
        assert lines == [line] + tail;
        OnlyOwnSign(e.text, first, sign);
        CountOne(line, tail, sign, filed);
        if IsRegistration(e.text) {
          SlipsIff(e.text, sign);
        }
        if IsHeader(line) {
          HeaderIsNoMatch(line, sign);
        }
      }
    }
  }

  lemma SkipLine(line: string, rest: seq<string>, sign: char, filed: bool)
    requires line != [] && !IsHeader(line) && !Matches(line, sign)
    ensures Count([line] + rest, sign, filed) == Count(rest, sign, filed)
  {
    CountOne(line, rest, sign, filed);
  }

  lemma CountHeader(s: Section, rest: seq<string>, sign: char, filed: bool)
    requires sign == '+' || sign == '-'
    ensures Count([HeaderOf(s)] + rest, sign, filed) == Count(rest, sign, FiledUnder(s, filed))
  {
    hide Registers, IsPackageSource;
    var to := HeaderOf(s);
    CountOne(to, rest, sign, filed);
    assert to[0] == '+' && to[1] == '+';
    if s.deleted {
      assert "+++ b/"[4] == 'b' && to[4] == '/';
    } else {
      assert "+++ b/" <= to && to[6..] == s.path;
    }
  }

  lemma CountSection(s: Section, rest: seq<string>, sign: char, filed: bool)
    requires sign == '+' || sign == '-'
    ensures Count(Render([s]) + rest, sign, filed) == Count(RenderEdits(s.edits) + rest, sign, FiledUnder(s, filed))
  {
    hide Registers, IsPackageSource, HeaderOf, FiledUnder;
    var git, from, to, mark := "diff --git a/" + s.path + " b/" + s.path, "--- a/" + s.path, HeaderOf(s), "@@" + s.mark;
    var body := RenderEdits(s.edits) + rest;
    assert [s][1..] == [] && Render([s]) + rest == [git] + ([from] + ([to] + ([mark] + body)));
    assert "+++ b/"[0] == '+';
    assert git[0] == 'd' && from[0] == '-' && from[1] == '-' && mark[0] == '@';
    SkipLine(git, [from] + ([to] + ([mark] + body)), sign, filed);
    SkipLine(from, [to] + ([mark] + body), sign, filed);
    CountHeader(s, [mark] + body, sign, filed);
    SkipLine(mark, body, sign, FiledUnder(s, filed));
  }

  /** For every edit script and either sign: what the scan counts, with what it misses, is
      the number of changed registrations of the package source. */
  lemma {:induction false} NettingAccounts(script: seq<Section>, sign: char, filed: bool)
    requires sign == '+' || sign == '-'
    ensures Count(Render(script), sign, filed) + MissedIn(script, sign, filed) == ChangedIn(script, sign)
    decreases |script|
  {
    hide IsPackageSource, IsHeader, Missed, Changed, FiledUnder, FiledAfter;
    if script != [] {
      var s, rest := script[0], Render(script[1..]);
      var under := FiledUnder(s, filed);
      assert [s][1..] == [] && Render(script) == Render([s]) + rest;
      CountSection(s, rest, sign, filed);
      CountBody(s.edits, rest, sign, IsPackageSource(s.path), under);
      NettingAccounts(script[1..], sign, FiledAfter(s.edits, under));
    }
  }

  /** The net count is exact precisely when as much is missed of what was added as of
      what was removed, for the causes named. */
  lemma NettingExactIff(script: seq<Section>)
    ensures var lines := Render(script);
      (Count(lines, '+', false) - Count(lines, '-', false) == RegisteredIn(script, true) - RegisteredIn(script, false))
      <==> MissedIn(script, '+', false) == MissedIn(script, '-', false)
  {
    NettingAccounts(script, '+', false);
    NettingAccounts(script, '-', false);
    ChangedInIsDifference(script);
  }

  /** The check refuses exactly when the source gained more registrations than the scan
      misses on balance, the budget document is untouched and nothing bypasses it. With
      nothing missed on balance that is: when the source grew. So no set of moves is
      refused then. */
  lemma RefusedIffSourceGrew(script: seq<Section>, changedFiles: seq<string>, bypass: bool)
    ensures var missed := MissedIn(script, '+', false) - MissedIn(script, '-', false);
      && (!Passes(Render(script), changedFiles, bypass) <==>
            RegisteredIn(script, true) - RegisteredIn(script, false) > missed && BUDGET_DOC !in changedFiles && !bypass)
      && (missed == 0 ==>
            (!Passes(Render(script), changedFiles, bypass) <==>
              RegisteredIn(script, true) > RegisteredIn(script, false) && BUDGET_DOC !in changedFiles && !bypass))
  {
    NettingAccounts(script, '+', false);
    NettingAccounts(script, '-', false);
    ChangedInIsDifference(script);
  }

  // ----- When nothing is missed ------------------------------------------------------------

  /** A line the scan cannot misread: it is no header, and if it registers a tool, it does
      so past its first character, which is not the sign. */
  predicate Plain(e: Edit) {
    && (e.Add? ==> !IsHeader("+" + e.text))
    && (IsRegistration(e.text) ==> Registers(e.text) && e.text[0] != '+' && e.text[0] != '-')
  }

  lemma {:induction false} PlainIsCounted(edits: seq<Edit>, sign: char, own: bool)
    requires (sign == '+' || sign == '-') && forall i | 0 <= i < |edits| :: Plain(edits[i])
    ensures Missed(edits, sign, own, own) == 0 && FiledAfter(edits, own) == own
    decreases |edits|
  {
    hide IsHeader, IsPackageSource;
    if edits != [] {
      PlainIsCounted(edits[1..], sign, own);
    }
  }

  /** In a diff whose sections all name their file and whose lines are plain, nothing is. */
  lemma {:induction false} PlainScriptMissesNothing(script: seq<Section>, sign: char, filed: bool)
    requires sign == '+' || sign == '-'
    requires forall i | 0 <= i < |script| :: !script[i].deleted && script[i].path != []
    requires forall i, j | 0 <= i < |script| && 0 <= j < |script[i].edits| :: Plain(script[i].edits[j])
    ensures MissedIn(script, sign, filed) == 0
    decreases |script|
  {
    hide Plain, IsPackageSource;
    if script != [] {
      var s := script[0];
      PlainIsCounted(s.edits, sign, IsPackageSource(s.path));
      assert forall i | 0 <= i < |script[1..]| :: script[1..][i] == script[i + 1];
      PlainScriptMissesNothing(script[1..], sign, FiledAfter(s.edits, FiledUnder(s, filed)));
    }
  }

  // ----- Where netting fails --------------------------------------------------------------

  lemma OneEdit(e: Edit, sign: char, own: bool, filed: bool, after: bool)
    ensures Missed([e], sign, own, filed) ==
              var counted := filed && !Slips(e.text, sign);
              if !IsChange(e, sign) || !IsRegistration(e.text) || own == counted then 0 else if own then 1 else -1
    ensures Registered([e], after) ==
              if (e.Keep? || (if after then e.Add? else e.Drop?)) && IsRegistration(e.text) then 1 else 0
    ensures FiledAfter([e], filed) == Refiled(e, filed)
  {
    hide Slips, IsRegistration, Refiled;
    assert [e][1..] == [];
  }

  lemma FirstSection(s: Section, rest: seq<Section>, sign: char, filed: bool, after: bool)
    ensures var under := FiledUnder(s, filed);
      MissedIn([s] + rest, sign, filed) ==
        Missed(s.edits, sign, IsPackageSource(s.path), under) + MissedIn(rest, sign, FiledAfter(s.edits, under))
    ensures RegisteredIn([s] + rest, after) ==
              (if IsPackageSource(s.path) then Registered(s.edits, after) else 0) + RegisteredIn(rest, after)
  {
    hide IsPackageSource, FiledUnder;
    assert ([s] + rest)[1..] == rest;
  }

  lemma SourceIsNamed(path: string)
    requires IsPackageSource(path)
    ensures path != []
  {
  }

  /** A registration at the first column is looked past: the source grows, and the check
      passes without a word. */
  lemma FirstColumnSlipsPast(text: string, path: string)
    requires IsRegistration(text) && !Registers(text) && IsPackageSource(path)
    ensures var script := [Section(path, false, "", [Add(text)])];
      RegisteredIn(script, true) > RegisteredIn(script, false) && Passes(Render(script), [], false)
  {
    SourceIsNamed(path);
    assert Slips(text, '+');
    hide IsRegistration, Registers, IsPackageSource, Matches, Slips, Missed, MissedIn, Registered, RegisteredIn, Passes;
    var s := Section(path, false, "", [Add(text)]);
    assert [s] + [] == [s];
    NoSections(FiledAfter(s.edits, true));
    forall sign, after | sign == '+' || sign == '-'
      ensures MissedIn([s], sign, false) == if sign == '+' then 1 else 0
      ensures RegisteredIn([s], after) == if after then 1 else 0
    {
      OneEdit(Add(text), sign, true, true, after);
      FirstSection(s, [], sign, false, after);
    }
    RefusedIffSourceGrew([s], [], false);
  }

  lemma NoSections(filed: bool)
    ensures forall sign :: MissedIn([], sign, filed) == 0
    ensures forall after :: RegisteredIn([], after) == 0
  {
  }

  /** Such a text is the direct decorator of a function at module level. */
  lemma DirectDecoratorIsSuch()
    ensures IsRegistration("@mcp.tool()") && !Registers("@mcp.tool()")
  {
    var text := "@mcp.tool()";
    assert text[9..] == "()" && text[..9] == "@mcp.tool" && text[0..] == text;
    assert CallAt(text, 0);
    forall i | 1 <= i <= |text| ensures !CallAt(text, i) {
      assert "@mcp.tool"[0] == '@' && "register_tool"[0] == 'r';
      assert i < |text| ==> text[i..][0] == text[i] && text[i] != '@' && text[i] != 'r';
    }
  }

  /** A deleted file has no header of the kind looked for: a registration moved out of one
      that comes first is taken for a new one. */
  lemma MoveOutOfDeletedFileIsRefused(text: string, from: string, to: string, changedFiles: seq<string>)
    requires Registers(text) && text[0] != '+' && text[0] != '-' && IsPackageSource(from) && IsPackageSource(to)
    requires BUDGET_DOC !in changedFiles
    ensures var script := [Section(from, true, "", [Drop(text)]), Section(to, false, "", [Add(text)])];
      RegisteredIn(script, true) == RegisteredIn(script, false) && !Passes(Render(script), changedFiles, false)
  {
    SourceIsNamed(to);
    OnlyOwnSign(text, '+', '+');
    assert !Slips(text, '+') && IsRegistration(text);
    hide IsRegistration, Registers, IsPackageSource, Matches, Slips, ReadsAsHeader, Missed, MissedIn, Registered,
        RegisteredIn, Passes;
    var first, second := Section(from, true, "", [Drop(text)]), Section(to, false, "", [Add(text)]);
    assert [first] + [second] == [first, second] && [second] + [] == [second];
    NoSections(FiledAfter(second.edits, true));
    forall sign, after | sign == '+' || sign == '-'
      ensures MissedIn([first, second], sign, false) == if sign == '+' then 0 else 1
      ensures RegisteredIn([first, second], after) == 1
    {
      OneEdit(Drop(text), sign, true, false, after);
      OneEdit(Add(text), sign, true, true, after);
      FirstSection(first, [second], sign, false, after);
      FirstSection(second, [], sign, false, after);
    }
    RefusedIffSourceGrew([first, second], changedFiles, false);
  }
}
