/** The Python string operations the modelled scripts rely on: `strip`,
    `partition`, `in`, `join` and `splitlines`, written out character by
    character for Python's own classes of white space and line breaks. */
module PyText {

  /** `str.isspace` for one character: what `str.strip()` removes. */
  predicate IsSpace(c: char) {
    || '\t' <= c <= '\r'
    || '\U{1c}' <= c <= ' '
    || c == '\U{85}' || c == '\U{a0}' || c == '\U{1680}'
    || '\U{2000}' <= c <= '\U{200a}'
    || c == '\U{2028}' || c == '\U{2029}' || c == '\U{202f}'
    || c == '\U{205f}' || c == '\U{3000}'
  }

  /** The characters at which `str.splitlines()` ends a line. */
  predicate IsBreak(c: char) {
    || '\n' <= c <= '\r'
    || '\U{1c}' <= c <= '\U{1e}'
    || c == '\U{85}' || c == '\U{2028}' || c == '\U{2029}'
  }

  function TrimLeft(s: string, drop: char -> bool): (r: string)
  {
    if s != [] && drop(s[0]) then TrimLeft(s[1..], drop) else s
  }

  function TrimRight(s: string, drop: char -> bool): (r: string)
  {
    if s != [] && drop(s[|s| - 1]) then TrimRight(s[..|s| - 1], drop) else s
  }

  function Trim(s: string, drop: char -> bool): (r: string) {
    TrimRight(TrimLeft(s, drop), drop)
  }

  function Strip(s: string): (r: string) {
    Trim(s, c => IsSpace(c))
  }

  /** `str.lower`, on ASCII letters. */
  function Lower(s: string): (r: string)
    ensures |r| == |s| && forall i | 0 <= i < |s| :: r[i] == if 'A' <= s[i] <= 'Z' then s[i] + 32 as char else s[i]
  {
    if s == "" then "" else [if 'A' <= s[0] <= 'Z' then s[0] + 32 as char else s[0]] + Lower(s[1..])
  }

  /** Trimming never removes a character it was not asked to drop. */
  lemma {:induction false} TrimLeftKeeps(s: string, drop: char -> bool, c: char)
    requires c in s && !drop(c)
    ensures c in TrimLeft(s, drop)
    decreases |s|
  {
    if drop(s[0]) {
      assert s == [s[0]] + s[1..];
      TrimLeftKeeps(s[1..], drop, c);
    }
  }

  lemma {:induction false} TrimRightKeeps(s: string, drop: char -> bool, c: char)
    requires c in s && !drop(c)
    ensures c in TrimRight(s, drop)
    decreases |s|
  {
    if drop(s[|s| - 1]) {
      assert s == s[..|s| - 1] + [s[|s| - 1]];
      TrimRightKeeps(s[..|s| - 1], drop, c);
    }
  }

  lemma StripKeeps(s: string, c: char)
    requires c in s && !IsSpace(c)
    ensures c in Strip(s)
  {
    var drop := (c: char) => IsSpace(c);
    TrimLeftKeeps(s, drop, c);
    TrimRightKeeps(TrimLeft(s, drop), drop, c);
  }

  /** `t` is `s` without the longest ends of characters to drop. */
  ghost predicate Trimmed(s: string, t: string, drop: char -> bool) {
    exists a, b :: s == a + t + b && IsTrim(a, t, b, drop)
  }

  ghost predicate IsTrim(a: string, t: string, b: string, drop: char -> bool) {
    && (forall i | 0 <= i < |a| :: drop(a[i]))
    && (forall i | 0 <= i < |b| :: drop(b[i]))
    && (t != "" ==> !drop(t[0]) && !drop(t[|t| - 1]))
  }

  lemma {:induction false} TrimLeftIs(a: string, s: string, drop: char -> bool)
    requires (forall i | 0 <= i < |a| :: drop(a[i])) && (s != "" ==> !drop(s[0]))
    ensures TrimLeft(a + s, drop) == s
    decreases |a|
  {
    if a == "" {
      assert a + s == s;
    } else {
      assert (a + s)[1..] == a[1..] + s;
      TrimLeftIs(a[1..], s, drop);
    }
  }

  lemma {:induction false} TrimRightIs(s: string, b: string, drop: char -> bool)
    requires (forall i | 0 <= i < |b| :: drop(b[i])) && (s != "" ==> !drop(s[|s| - 1]))
    ensures TrimRight(s + b, drop) == s
    decreases |b|
  {
    if b == "" {
      assert s + b == s;
    } else {
      assert (s + b)[..|s + b| - 1] == s + b[..|b| - 1];
      TrimRightIs(s, b[..|b| - 1], drop);
    }
  }

  lemma {:induction false} TrimLeftCuts(s: string, drop: char -> bool) returns (a: string)
    ensures s == a + TrimLeft(s, drop) && forall i | 0 <= i < |a| :: drop(a[i])
    ensures TrimLeft(s, drop) != "" ==> !drop(TrimLeft(s, drop)[0])
    decreases |s|
  {
    a := "";
    if s != "" && drop(s[0]) {
      a := TrimLeftCuts(s[1..], drop);
      a := [s[0]] + a;
    }
  }

  lemma {:induction false} TrimRightCuts(s: string, drop: char -> bool) returns (b: string)
    ensures s == TrimRight(s, drop) + b && forall i | 0 <= i < |b| :: drop(b[i])
    ensures var r := TrimRight(s, drop); r != "" ==> !drop(r[|r| - 1])
    decreases |s|
  {
    b := "";
    if s != "" && drop(s[|s| - 1]) {
      b := TrimRightCuts(s[..|s| - 1], drop);
      b := b + [s[|s| - 1]];
      assert s == s[..|s| - 1] + [s[|s| - 1]];
    }
  }

  /** Trimming removes just what it is asked to drop, at both ends. */
  lemma TrimIff(s: string, t: string, drop: char -> bool)
    ensures Trim(s, drop) == t <==> Trimmed(s, t, drop)
  {
    if Trim(s, drop) == t {
      var a := TrimLeftCuts(s, drop);
      var b := TrimRightCuts(TrimLeft(s, drop), drop);
      assert s == a + t + b;
      assert t != "" ==> t[0] == TrimLeft(s, drop)[0];
      assert IsTrim(a, t, b, drop);
    }
    if a, b :| s == a + t + b && IsTrim(a, t, b, drop) {
      if t == "" {
        assert s == (a + b) + "" && forall i | 0 <= i < |a + b| :: drop((a + b)[i]);
        TrimLeftIs(a + b, "", drop);
      } else {
        assert s == a + (t + b);
        TrimLeftIs(a, t + b, drop);
        TrimRightIs(t, b, drop);
      }
    }
  }

  /** The position of the first `c` in `s`, or `|s|`: `s.partition(c)`
      is `s[..i]`, the separator when `i < |s|`, and `s[i+1..]`. */
  function IndexOf(s: string, c: char): (i: nat)
    ensures i <= |s|
    ensures i < |s| ==> s[i] == c
    ensures c !in s[..i]
  {
    if s == [] || s[0] == c then 0 else
      var i := 1 + IndexOf(s[1..], c);
      assert s[..i] == [s[0]] + s[1..][..i - 1];
      i
  }

  lemma {:induction false} IndexOfUnique(s: string, c: char, i: nat)
    requires i < |s| && s[i] == c && c !in s[..i]
    ensures IndexOf(s, c) == i
  {
    if i > 0 {
      assert s[..i][0] == s[0];
      assert s[..i] == [s[0]] + s[1..][..i - 1];
      IndexOfUnique(s[1..], c, i - 1);
    }
  }

  /** `needle in hay`. */
  predicate Contains(hay: string, needle: string) {
    exists i | 0 <= i <= |hay| - |needle| :: OccursAt(hay, needle, i)
  }

  predicate OccursAt(hay: string, needle: string, i: int) {
    0 <= i <= |hay| - |needle| && hay[i..i + |needle|] == needle
  }

  lemma ContainsIn(before: string, hay: string, after: string, needle: string)
    requires Contains(hay, needle)
    ensures Contains(before + hay + after, needle)
  {
    var i :| 0 <= i <= |hay| - |needle| && OccursAt(hay, needle, i);
    var all := before + hay + after;
    var j := |before| + i;
    assert all[j..j + |needle|] == needle;
    assert OccursAt(all, needle, j);
  }

  lemma ContainsSelf(s: string)
    ensures Contains(s, s)
  {
    assert s[0..0 + |s|] == s;
    assert OccursAt(s, s, 0);
  }

  lemma ContainsTrans(a: string, b: string, c: string)
    requires Contains(a, b) && Contains(b, c)
    ensures Contains(a, c)
  {
    var i :| 0 <= i <= |a| - |b| && OccursAt(a, b, i);
    assert a == a[..i] + b + a[i + |b|..];
    ContainsIn(a[..i], b, a[i + |b|..], c);
  }

  /** `sep.join(parts)`. */
  function Join(sep: string, parts: seq<string>): (r: string)
  {
    if parts == [] then ""
    else if |parts| == 1 then parts[0]
    else parts[0] + sep + Join(sep, parts[1..])
  }

  lemma {:induction false} JoinContains(sep: string, parts: seq<string>, i: nat)
    requires i < |parts|
    ensures Contains(Join(sep, parts), parts[i])
    decreases |parts|
  {
    ContainsSelf(parts[i]);
    if |parts| == 1 {
    } else if i == 0 {
      ContainsIn("", parts[0], sep + Join(sep, parts[1..]), parts[0]);
      assert "" + parts[0] + (sep + Join(sep, parts[1..])) == Join(sep, parts);
    } else {
      JoinContains(sep, parts[1..], i - 1);
      ContainsIn(parts[0] + sep, Join(sep, parts[1..]), "", parts[i]);
      assert parts[0] + sep + Join(sep, parts[1..]) + "" == Join(sep, parts);
    }
  }

  // ----- splitlines --------------------------------------------------------

  /** Reading a text left to right: the lines already ended, the line being
      read, and whether the last character was a carriage return, so that a
      line feed right after it ends no further line. */
  datatype Scanner = Scanner(lines: seq<string>, cur: string, cr: bool)

  const START := Scanner([], "", false)

  function Step(st: Scanner, c: char): (r: Scanner) {
    if c == '\n' && st.cr then st.(cr := false)
    else if IsBreak(c) then Scanner(st.lines + [st.cur], "", c == '\r')
    else Scanner(st.lines, st.cur + [c], false)
  }

  function Scan(st: Scanner, s: string): (r: Scanner)
    decreases |s|
  {
    if s == [] then st else Scan(Step(st, s[0]), s[1..])
  }

  /** `splitlines` reports no empty line after the last break. */
  function Finish(st: Scanner): (r: seq<string>) {
    if st.cur == "" then st.lines else st.lines + [st.cur]
  }

  function SplitLines(s: string): (r: seq<string>) {
    Finish(Scan(START, s))
  }

  lemma {:induction false} ScanConcat(st: Scanner, a: string, b: string)
    ensures Scan(st, a + b) == Scan(Scan(st, a), b)
    decreases |a|
  {
    if a == [] {
      assert a + b == b;
    } else {
      assert (a + b)[1..] == a[1..] + b;
      ScanConcat(Step(st, a[0]), a[1..], b);
    }
  }

  /** Text without a line break only extends the line being read. */
  lemma {:induction false} ScanUnbroken(st: Scanner, s: string)
    requires forall c | c in s :: !IsBreak(c)
    ensures Scan(st, s) == Scanner(st.lines, st.cur + s, st.cr && s == [])
    decreases |s|
  {
    if s == [] {
      assert st.cur + s == st.cur;
    } else {
      assert s[0] in s;
      assert forall c | c in s[1..] :: c in s;
      ScanUnbroken(Step(st, s[0]), s[1..]);
      assert st.cur + [s[0]] + s[1..] == st.cur + s;
    }
  }

  /** Lines once ended never change, and the line being read is a prefix of
      whatever it ends up as. */
  lemma {:induction false} ScanGrows(st: Scanner, s: string)
    requires st.cr ==> st.cur == ""
    ensures var r := Scan(st, s);
            && st.lines <= r.lines
            && (r.cr ==> r.cur == "")
            && (if |r.lines| == |st.lines| then st.cur <= r.cur else st.cur <= r.lines[|st.lines|])
    decreases |s|
  {
    if s != [] {
      ScanGrows(Step(st, s[0]), s[1..]);
    }
  }

  /** What ends a line: one line break, or a carriage return and the line feed after it. */
  predicate IsEnd(e: string) {
    e == "\r\n" || (|e| == 1 && IsBreak(e[0]))
  }

  function Glued(lines: seq<string>, ends: seq<string>): (s: string)
    requires |lines| == |ends|
  {
    if lines == [] then "" else lines[0] + ends[0] + Glued(lines[1..], ends[1..])
  }

  /** `lines`, each with what ends it, make up a text: no line holds a break, every line
      is ended but perhaps a last one that is not empty, and no carriage return is parted
      from the line feed after it. */
  ghost predicate Cut(lines: seq<string>, ends: seq<string>) {
    && |lines| == |ends|
    && (forall i, c | 0 <= i < |lines| && c in lines[i] :: !IsBreak(c))
    && (forall i | 0 <= i < |lines| :: IsEnd(ends[i]) || (i == |lines| - 1 && ends[i] == "" && lines[i] != ""))
    && (forall i | 0 <= i < |lines| - 1 :: !(ends[i] == "\r" && lines[i + 1] == "" && ends[i + 1] == "\n"))
  }

  lemma CutTail(lines: seq<string>, ends: seq<string>)
    requires Cut(lines, ends) && lines != []
    ensures Cut(lines[1..], ends[1..])
  {
  }

  /** Reading one line and what ends it. */
  lemma ScanLine(st: Scanner, line: string, end: string)
    requires st.cur == "" && (forall c | c in line :: !IsBreak(c)) && IsEnd(end)
    requires st.cr ==> line != "" || end != "\n"
    ensures Scan(st, line + end) == Scanner(st.lines + [line], "", end == "\r")
  {
    ScanConcat(st, line, end);
    ScanUnbroken(st, line);
    var read := Scanner(st.lines, line, st.cr && line == "");
    assert st.cur + line == line;
    if end == "\r\n" {
      assert end[1..] == "\n" && "\n"[1..] == "";
      assert Scan(read, end) == Scan(Step(read, '\r'), "\n") == Step(Step(read, '\r'), '\n');
    } else {
      assert end[1..] == "";
      assert Scan(read, end) == Step(read, end[0]);
    }
  }

  lemma {:induction false} ScanCut(st: Scanner, lines: seq<string>, ends: seq<string>)
    requires Cut(lines, ends) && st.cur == ""
    requires st.cr && lines != [] ==> lines[0] != "" || ends[0] != "\n"
    ensures Finish(Scan(st, Glued(lines, ends))) == st.lines + lines
    decreases |lines|
  {
    if lines == [] {
    } else if ends[0] == "" {
      assert Glued(lines, ends) == lines[0] && lines == [lines[0]];
      ScanUnbroken(st, lines[0]);
      assert st.cur + lines[0] == lines[0];
    } else {
      ScanLine(st, lines[0], ends[0]);
      CutTail(lines, ends);
      var rest := Glued(lines[1..], ends[1..]);
      ScanConcat(st, lines[0] + ends[0], rest);
      ScanCut(Scan(st, lines[0] + ends[0]), lines[1..], ends[1..]);
      assert st.lines + [lines[0]] + lines[1..] == st.lines + lines;
    }
  }

  /** Every text can be cut so. */
  lemma {:induction false} CutsUp(s: string) returns (lines: seq<string>, ends: seq<string>)
    ensures Cut(lines, ends) && Glued(lines, ends) == s
    decreases |s|
  {
    if s == "" {
      return [], [];
    }
    var i := 0;
    while i < |s| && !IsBreak(s[i])
      invariant i <= |s| && forall c | c in s[..i] :: !IsBreak(c)
    {
      i := i + 1;
    }
    if i == |s| {
      assert s[..i] == s;
      return [s], [""];
    }
    var end := if s[i] == '\r' && i + 1 < |s| && s[i + 1] == '\n' then "\r\n" else [s[i]];
    lines, ends := CutsUp(s[i + |end|..]);
    assert s == s[..i] + end + s[i + |end|..];
    CutMore(s[..i], end, lines, ends);
    lines, ends := [s[..i]] + lines, [end] + ends;
  }

  lemma CutMore(line: string, end: string, lines: seq<string>, ends: seq<string>)
    requires Cut(lines, ends) && (forall c | c in line :: !IsBreak(c)) && IsEnd(end)
    requires end == "\r" ==> !("\n" <= Glued(lines, ends))
    ensures Cut([line] + lines, [end] + ends)
    ensures Glued([line] + lines, [end] + ends) == line + end + Glued(lines, ends)
  {
    var more, after := [line] + lines, [end] + ends;
    assert more[1..] == lines && after[1..] == ends;
    if lines != [] && lines[0] == "" && ends[0] == "\n" {
      assert Glued(lines, ends)[0] == '\n';
    }
  }

  /** `splitlines`, without its scanner: the lines of the one way to cut the text. */
  lemma SplitLinesIff(s: string, lines: seq<string>)
    ensures SplitLines(s) == lines <==> exists ends :: Cut(lines, ends) && Glued(lines, ends) == s
  {
    hide Glued;
    if ends :| Cut(lines, ends) && Glued(lines, ends) == s {
      ScanCut(START, lines, ends);
      assert START.lines + lines == lines;
    }
    var cut, ends := CutsUp(s);
    ScanCut(START, cut, ends);
    assert START.lines + cut == cut;
  }
}
