/** A body text with holes: what the elision markers of
    `scripts/context_floor_skill_body.py` stand for. Filling every hole with
    the marker gives the text the script reads; filling them with the text the
    program really computes gives the text that is deployed. */
module Template {
  import opened PyText
  import opened Frontmatter

  datatype Sym = Ch(c: char) | Hole(id: nat)

  type Fill = nat -> string

  function Render(t: seq<Sym>, fill: Fill): (s: string)
  {
    if t == [] then ""
    else (match t[0] case Ch(c) => [c] case Hole(id) => fill(id)) + Render(t[1..], fill)
  }

  lemma {:induction false} RenderConcat(a: seq<Sym>, b: seq<Sym>, fill: Fill)
    ensures Render(a + b, fill) == Render(a, fill) + Render(b, fill)
  {
    if a == [] {
      assert a + b == b;
    } else {
      assert (a + b)[1..] == a[1..] + b;
      RenderConcat(a[1..], b, fill);
    }
  }

  /** The text the script works on. */
  function Marked(t: seq<Sym>): (s: string) {
    Render(t, _ => ELISION)
  }

  // ----- Lines of the marked and of the filled text, side by side ------------

  /** One line of the marked text. `out` holds the lines the same stretch of
      the filled text has: just the line itself when no hole touches it, any
      number of lines otherwise. `lit` is the text before the first hole. */
  datatype Group = Group(holed: bool, lit: string, line: string, out: seq<string>) {
    ghost predicate Good() {
      if holed then lit + ELISION <= line && (lit != "" ==> out != [] && lit <= out[0])
      else out == [line]
    }
  }

  ghost predicate AllGood(gs: seq<Group>) {
    forall i | 0 <= i < |gs| :: gs[i].Good()
  }

  function LinesOf(gs: seq<Group>): (lines: seq<string>)
    ensures |lines| == |gs|
    ensures forall i | 0 <= i < |gs| :: lines[i] == gs[i].line
  {
    seq(|gs|, i requires 0 <= i < |gs| => gs[i].line)
  }

  function OutOf(gs: seq<Group>): (lines: seq<string>)
  {
    if gs == [] then [] else gs[0].out + OutOf(gs[1..])
  }

  lemma {:induction false} OutConcat(a: seq<Group>, b: seq<Group>)
    ensures OutOf(a + b) == OutOf(a) + OutOf(b)
    ensures LinesOf(a + b) == LinesOf(a) + LinesOf(b)
  {
    if a == [] {
      assert a + b == b;
    } else {
      assert (a + b)[1..] == a[1..] + b;
      OutConcat(a[1..], b);
    }
  }

  lemma OutAppend(gs: seq<Group>, g: Group)
    ensures OutOf(gs + [g]) == OutOf(gs) + g.out
    ensures LinesOf(gs + [g]) == LinesOf(gs) + [g.line]
  {
    OutConcat(gs, [g]);
    assert OutOf([g]) == g.out + [] == g.out;
    assert LinesOf([g]) == [g.line];
  }

  /** Both texts read in step, up to the same point of the template. */
  datatype Weave = Weave(groups: seq<Group>, m: Scanner, f: Scanner, holed: bool, lit: string, out: seq<string>) {
    ghost predicate Good() {
      && AllGood(groups)
      && m.lines == LinesOf(groups)
      && f.lines == OutOf(groups) + out
      && (m.cr ==> m.cur == "") && (f.cr ==> f.cur == "")
      && (if holed
          then !m.cr && lit + ELISION <= m.cur && (lit != "" ==> if out == [] then lit <= f.cur else lit <= out[0])
          else m.cur == f.cur == lit && m.cr == f.cr && out == [])
    }
  }

  const LOOM := Weave([], START, START, false, "", [])

  function WeaveStep(w: Weave, sym: Sym, fill: Fill): (r: Weave)
  {
    match sym
    case Hole(id) =>
      var f := Scan(w.f, fill(id));
      ScanGrowsFact(w.f, fill(id));
      w.(m := Scan(w.m, ELISION), f := f, holed := true, out := w.out + f.lines[|w.f.lines|..])
    case Ch(c) =>
      var m, f := Step(w.m, c), Step(w.f, c);
      var out := w.out + f.lines[|w.f.lines|..];
      if |m.lines| == |w.m.lines| then
        w.(m := m, f := f, out := out, lit := if w.holed || m.cur == w.m.cur then w.lit else w.lit + [c])
      else
        Weave(w.groups + [Group(w.holed, w.lit, w.m.cur, out)], m, f, false, "", [])
  }

  /** Used inside WeaveStep to slice off the lines a fill has ended. */
  lemma {:induction false} ScanGrowsFact(st: Scanner, s: string)
    ensures st.lines <= Scan(st, s).lines
    decreases |s|
  {
    if s != [] {
      ScanGrowsFact(Step(st, s[0]), s[1..]);
    }
  }

  function WeaveAll(w: Weave, t: seq<Sym>, fill: Fill): (r: Weave)
    decreases |t|
  {
    if t == [] then w else WeaveAll(WeaveStep(w, t[0], fill), t[1..], fill)
  }

  function Groups(t: seq<Sym>, fill: Fill): (gs: seq<Group>) {
    var w := WeaveAll(LOOM, t, fill);
    if w.m.cur == "" then w.groups
    else w.groups + [Group(w.holed, w.lit, w.m.cur, w.out + if w.f.cur == "" then [] else [w.f.cur])]
  }

  lemma RenderOne(sym: Sym, fill: Fill)
    ensures Render([sym], fill) == match sym case Ch(c) => [c] case Hole(id) => fill(id)
  {
  }

  lemma MarkerUnbroken()
    ensures |ELISION| == 8 && forall c | c in ELISION :: !IsBreak(c)
  {
  }

  /** A marker cannot straddle a line feed. */
  lemma NoStraddle(a: string, b: string)
    requires Elided(a + "\n" + b)
    ensures Elided(a) || Elided(b)
  {
    var s := a + "\n" + b;
    var i :| 0 <= i <= |s| - |ELISION| && OccursAt(s, ELISION, i);
    MarkerUnbroken();
    forall k | i <= k < i + |ELISION|
      ensures !IsBreak(s[k])
    {
      assert s[k] == s[i..i + |ELISION|][k - i] == ELISION[k - i];
    }
    assert s[|a|] == '\n';
    if i > |a| {
      var j := i - |a| - 1;
      assert b[j..j + |ELISION|] == s[i..i + |ELISION|];
      assert OccursAt(b, ELISION, j);
    } else {
      assert i + |ELISION| <= |a|;
      assert a[i..i + |ELISION|] == s[i..i + |ELISION|];
      assert OccursAt(a, ELISION, i);
    }
  }

  /** After a hole the marked line starts with `lit` and the marker, and the
      first filled line starts with `lit`. */
  lemma WeaveHoleGood(w: Weave, id: nat, fill: Fill)
    requires w.Good()
    ensures WeaveStep(w, Hole(id), fill).Good()
  {
    hide Scan, Step, IsBreak, LinesOf, OutOf;
    var r := WeaveStep(w, Hole(id), fill);
    MarkerUnbroken();
    ScanUnbroken(w.m, ELISION);
    assert r.m == Scanner(w.m.lines, w.m.cur + ELISION, false);
    assert w.lit + ELISION <= r.m.cur;
    var f := Scan(w.f, fill(id));
    ScanGrows(w.f, fill(id));
    assert r.f == f;
    var ended := f.lines[|w.f.lines|..];
    assert r.out == w.out + ended;
    assert f.lines == w.f.lines + ended;
    if w.lit != "" && w.out == [] {
      assert w.lit <= w.f.cur;
      if ended != [] {
        assert ended[0] == f.lines[|w.f.lines|];
      }
    }
  }

  lemma WeaveCharGood(w: Weave, c: char, fill: Fill)
    requires w.Good()
    requires |Step(w.m, c).lines| == |w.m.lines|
    ensures WeaveStep(w, Ch(c), fill).Good()
  {
    var r := WeaveStep(w, Ch(c), fill);
    if c == '\n' && w.m.cr {
      assert !w.holed;
      assert r.out == [];
    } else {
      assert !IsBreak(c);
      assert r.out == w.out;
    }
  }

  lemma WeaveBreakGood(w: Weave, c: char, fill: Fill)
    requires w.Good()
    requires |Step(w.m, c).lines| != |w.m.lines|
    ensures WeaveStep(w, Ch(c), fill).Good()
  {
    hide OutOf, IsBreak;
    var r := WeaveStep(w, Ch(c), fill);
    var g := r.groups[|w.groups|];
    assert r.groups == w.groups + [g];
    OutAppend(w.groups, g);
    assert r.f.lines == w.f.lines + r.f.lines[|w.f.lines|..];
    assert g.Good();
  }

  lemma WeaveStepGood(w: Weave, sym: Sym, fill: Fill)
    requires w.Good()
    ensures WeaveStep(w, sym, fill).Good()
  {
    match sym
    case Hole(id) => WeaveHoleGood(w, id, fill);
    case Ch(c) =>
      if |Step(w.m, c).lines| == |w.m.lines| {
        WeaveCharGood(w, c, fill);
      } else {
        WeaveBreakGood(w, c, fill);
      }
  }

  lemma WeaveStepReads(w: Weave, sym: Sym, fill: Fill)
    ensures WeaveStep(w, sym, fill).m == Scan(w.m, Marked([sym]))
    ensures WeaveStep(w, sym, fill).f == Scan(w.f, Render([sym], fill))
  {
    RenderOne(sym, fill);
    RenderOne(sym, _ => ELISION);
    if sym.Ch? {
      assert Scan(w.m, [sym.c]) == Step(w.m, sym.c);
      assert Scan(w.f, [sym.c]) == Step(w.f, sym.c);
    }
  }

  lemma {:induction false} WeaveGood(w: Weave, t: seq<Sym>, fill: Fill)
    requires w.Good()
    ensures var r := WeaveAll(w, t, fill);
            r.Good() && r.m == Scan(w.m, Marked(t)) && r.f == Scan(w.f, Render(t, fill))
    decreases |t|
  {
    if t != [] {
      var next := WeaveStep(w, t[0], fill);
      WeaveStepGood(w, t[0], fill);
      WeaveStepReads(w, t[0], fill);
      WeaveGood(next, t[1..], fill);
      assert t == [t[0]] + t[1..];
      RenderConcat([t[0]], t[1..], fill);
      RenderConcat([t[0]], t[1..], _ => ELISION);
      ScanConcat(w.m, Render([t[0]], _ => ELISION), Marked(t[1..]));
      ScanConcat(w.f, Render([t[0]], fill), Render(t[1..], fill));
    }
  }

  /** The groups really are the lines of the two texts, for every template
      and every fill, even one that holds line breaks, splits a line in many,
      or closes up the gap between a carriage return and a line feed. */
  lemma GroupsAreLines(t: seq<Sym>, fill: Fill)
    ensures SplitLines(Marked(t)) == LinesOf(Groups(t, fill))
    ensures SplitLines(Render(t, fill)) == OutOf(Groups(t, fill))
    ensures AllGood(Groups(t, fill))
  {
    assert LOOM.Good();
    WeaveGood(LOOM, t, fill);
    var w := WeaveAll(LOOM, t, fill);
    if w.m.cur != "" {
      LastGroupGood(w);
    } else {
      assert !w.holed;
    }
  }

  lemma LastGroupGood(w: Weave)
    requires w.Good() && w.m.cur != ""
    ensures var g := Group(w.holed, w.lit, w.m.cur, w.out + if w.f.cur == "" then [] else [w.f.cur]);
            && AllGood(w.groups + [g])
            && Finish(w.m) == LinesOf(w.groups + [g])
            && Finish(w.f) == OutOf(w.groups + [g])
  {
    var g := Group(w.holed, w.lit, w.m.cur, w.out + if w.f.cur == "" then [] else [w.f.cur]);
    assert g.Good();
    OutAppend(w.groups, g);
  }
}
