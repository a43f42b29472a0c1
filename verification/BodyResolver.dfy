/** `_resolve_body_text` of `scripts/context_floor_skill_body.py`, against the
    string the expression has when the module is really imported. */
module BodyResolver {
  import opened PyText
  import opened Frontmatter
  import opened Template
  import FrontmatterLoops
  import NonInterference
  import Exactness
  import opened Wrappers

  /** A skill-body expression. `node` identifies the AST node, so that a
      valuation can say what an unreadable node evaluates to. */
  datatype Expr =
    | Str(text: string)
    | Plus(left: Expr, right: Expr)
    | Name(id: string, node: nat)
    | JoinedStr(parts: seq<Part>)
    | Other(node: nat)

  datatype Part = Literal(text: string) | Formatted(node: nat)

  type SymbolTable = map<string, Expr>

  const MAX_DEPTH := 50

  function JoinParts(parts: seq<Part>): (s: string)
  {
    if parts == [] then ""
    else (if parts[0].Literal? then parts[0].text else ELISION) + JoinParts(parts[1..])
  }

  function ResolveBodyText(e: Expr, symtab: SymbolTable, depth: nat): (r: Result<string>)
    decreases MAX_DEPTH + 1 - depth
  {
    if depth > MAX_DEPTH then Err(TooDeep)
    else
      match e
      case Str(text) => Ok(text)
      case Plus(left, right) =>
        var l := ResolveBodyText(left, symtab, depth + 1);
        if l.Err? then l else
        var r := ResolveBodyText(right, symtab, depth + 1);
        if r.Err? then r else Ok(l.value + r.value)
      case Name(id, _) => if id in symtab then ResolveBodyText(symtab[id], symtab, depth + 1) else Ok(ELISION)
      case JoinedStr(parts) => Ok(JoinParts(parts))
      case Other(_) => Ok(ELISION)
  }

  // ----- What the markers stand for --------------------------------------------

  function Chars(s: string): (t: seq<Sym>)
  {
    if s == "" then [] else [Ch(s[0])] + Chars(s[1..])
  }

  function PartsTemplate(parts: seq<Part>): (t: seq<Sym>)
  {
    if parts == [] then []
    else (match parts[0] case Literal(text) => Chars(text) case Formatted(node) => [Hole(node)])
         + PartsTemplate(parts[1..])
  }

  /** The same walk, with each marker named after the node it stands for. */
  function TemplateOf(e: Expr, symtab: SymbolTable, depth: nat): (r: Result<seq<Sym>>)
    decreases MAX_DEPTH + 1 - depth
  {
    if depth > MAX_DEPTH then Err(TooDeep)
    else
      match e
      case Str(text) => Ok(Chars(text))
      case Plus(left, right) =>
        var l := TemplateOf(left, symtab, depth + 1);
        if l.Err? then l else
        var r := TemplateOf(right, symtab, depth + 1);
        if r.Err? then r else Ok(l.value + r.value)
      case Name(id, node) => if id in symtab then TemplateOf(symtab[id], symtab, depth + 1) else Ok([Hole(node)])
      case JoinedStr(parts) => Ok(PartsTemplate(parts))
      case Other(node) => Ok([Hole(node)])
  }

  lemma {:induction false} CharsRender(s: string, fill: Fill)
    ensures Render(Chars(s), fill) == s
  {
    if s != "" {
      CharsRender(s[1..], fill);
      assert Chars(s)[1..] == Chars(s[1..]);
    }
  }

  lemma {:induction false} PartsMarked(parts: seq<Part>)
    ensures Marked(PartsTemplate(parts)) == JoinParts(parts)
  {
    if parts != [] {
      PartsMarked(parts[1..]);
      var head := match parts[0] case Literal(text) => Chars(text) case Formatted(node) => [Hole(node)];
      RenderConcat(head, PartsTemplate(parts[1..]), _ => ELISION);
      match parts[0]
      case Literal(text) => CharsRender(text, _ => ELISION);
      case Formatted(node) => RenderOne(Hole(node), _ => ELISION);
    }
  }

  /** The text the script gets is the template with a marker in every hole. */
  lemma {:induction false} ResolvedIsMarked(e: Expr, symtab: SymbolTable, depth: nat)
    ensures var t, s := TemplateOf(e, symtab, depth), ResolveBodyText(e, symtab, depth);
            if t.Ok? then s == Ok(Marked(t.value)) else s == Err(TooDeep) && t == Err(TooDeep)
    decreases MAX_DEPTH + 1 - depth
  {
    if depth <= MAX_DEPTH {
      match e
      case Str(text) => CharsRender(text, _ => ELISION);
      case Plus(left, right) =>
        ResolvedIsMarked(left, symtab, depth + 1);
        ResolvedIsMarked(right, symtab, depth + 1);
        var l, r := TemplateOf(left, symtab, depth + 1), TemplateOf(right, symtab, depth + 1);
        if l.Ok? && r.Ok? {
          RenderConcat(l.value, r.value, _ => ELISION);
        }
      case Name(id, node) =>
        if id in symtab {
          ResolvedIsMarked(symtab[id], symtab, depth + 1);
        } else {
          RenderOne(Hole(node), _ => ELISION);
        }
      case JoinedStr(parts) => PartsMarked(parts);
      case Other(node) => RenderOne(Hole(node), _ => ELISION);
    }
  }

  // ----- The string the program computes -----------------------------------------

  function PartsValue(parts: seq<Part>, v: Fill): (s: string)
  {
    if parts == [] then ""
    else (match parts[0] case Literal(text) => text case Formatted(node) => v(node)) + PartsValue(parts[1..], v)
  }

  /** Evaluation in at most `levels` nested steps, given by `v` what every
      node the script cannot read evaluates to. */
  function Evaluate(e: Expr, symtab: SymbolTable, v: Fill, levels: nat): (r: Option<string>)
    decreases levels
  {
    if levels == 0 then None
    else
      match e
      case Str(text) => Some(text)
      case Plus(left, right) =>
        var l, r := Evaluate(left, symtab, v, levels - 1), Evaluate(right, symtab, v, levels - 1);
        if l.Some? && r.Some? then Some(l.value + r.value) else None
      case Name(id, node) => if id in symtab then Evaluate(symtab[id], symtab, v, levels - 1) else Some(v(node))
      case JoinedStr(parts) => Some(PartsValue(parts, v))
      case Other(node) => Some(v(node))
  }

  ghost predicate HasValue(e: Expr, symtab: SymbolTable, v: Fill, s: string) {
    exists levels :: Evaluate(e, symtab, v, levels) == Some(s)
  }

  lemma {:induction false} MoreLevels(e: Expr, symtab: SymbolTable, v: Fill, n: nat, m: nat)
    requires n <= m && Evaluate(e, symtab, v, n).Some?
    ensures Evaluate(e, symtab, v, m) == Evaluate(e, symtab, v, n)
    decreases n
  {
    match e
    case Plus(left, right) =>
      MoreLevels(left, symtab, v, n - 1, m - 1);
      MoreLevels(right, symtab, v, n - 1, m - 1);
    case Name(id, _) =>
      if id in symtab {
        MoreLevels(symtab[id], symtab, v, n - 1, m - 1);
      }
    case _ =>
  }

  /** An expression has one value at most. */
  lemma ValueUnique(e: Expr, symtab: SymbolTable, v: Fill, s: string, s': string)
    requires HasValue(e, symtab, v, s) && HasValue(e, symtab, v, s')
    ensures s == s'
  {
    var n: nat :| Evaluate(e, symtab, v, n) == Some(s);
    var m: nat :| Evaluate(e, symtab, v, m) == Some(s');
    MoreLevels(e, symtab, v, n, n + m);
    MoreLevels(e, symtab, v, m, n + m);
  }

  lemma {:induction false} PartsRender(parts: seq<Part>, v: Fill)
    ensures Render(PartsTemplate(parts), v) == PartsValue(parts, v)
  {
    if parts != [] {
      PartsRender(parts[1..], v);
      var head := match parts[0] case Literal(text) => Chars(text) case Formatted(node) => [Hole(node)];
      RenderConcat(head, PartsTemplate(parts[1..]), v);
      match parts[0]
      case Literal(text) => CharsRender(text, v);
      case Formatted(node) => RenderOne(Hole(node), v);
    }
  }

  /** The template filled with the true values is the true value, and the
      walk gives up exactly when evaluation nests more than 51 levels. */
  lemma {:induction false} TemplateEvaluates(e: Expr, symtab: SymbolTable, depth: nat, v: Fill)
    requires depth <= MAX_DEPTH + 1
    ensures var t := TemplateOf(e, symtab, depth);
            Evaluate(e, symtab, v, MAX_DEPTH + 1 - depth) ==
            if t.Ok? then Some(Render(t.value, v)) else None
    decreases MAX_DEPTH + 1 - depth
  {
    if depth <= MAX_DEPTH {
      match e
      case Str(text) => CharsRender(text, v);
      case Plus(left, right) =>
        TemplateEvaluates(left, symtab, depth + 1, v);
        TemplateEvaluates(right, symtab, depth + 1, v);
        var l, r := TemplateOf(left, symtab, depth + 1), TemplateOf(right, symtab, depth + 1);
        if l.Ok? && r.Ok? {
          RenderConcat(l.value, r.value, v);
        }
      case Name(id, node) =>
        if id in symtab {
          TemplateEvaluates(symtab[id], symtab, depth + 1, v);
        } else {
          RenderOne(Hole(node), v);
        }
      case JoinedStr(parts) => PartsRender(parts, v);
      case Other(node) => RenderOne(Hole(node), v);
    }
  }

  /** Soundness of the partial evaluation, for every expression, symbol table
      and valuation: a result has markers exactly where filling them with the
      true values gives the true string, and a refusal means the string is
      not to be had in 51 levels. */
  lemma ResolutionSound(e: Expr, symtab: SymbolTable, v: Fill)
    ensures var r := ResolveBodyText(e, symtab, 0);
            if r.Ok? then
              && TemplateOf(e, symtab, 0).Ok?
              && r.value == Marked(TemplateOf(e, symtab, 0).value)
              && forall s :: HasValue(e, symtab, v, s) <==> s == Render(TemplateOf(e, symtab, 0).value, v)
            else r == Err(TooDeep) && Evaluate(e, symtab, v, 51) == None
  {
    ResolvedIsMarked(e, symtab, 0);
    TemplateEvaluates(e, symtab, 0, v);
    var r := ResolveBodyText(e, symtab, 0);
    if r.Ok? {
      var deployed := Render(TemplateOf(e, symtab, 0).value, v);
      assert HasValue(e, symtab, v, deployed);
      forall s | HasValue(e, symtab, v, s)
        ensures s == deployed
      {
        ValueUnique(e, symtab, v, s, deployed);
      }
    }
  }

  ghost predicate HoleFree(t: seq<Sym>) {
    forall i | 0 <= i < |t| :: t[i].Ch?
  }

  lemma {:induction false} HoleFreeRender(t: seq<Sym>, f: Fill, g: Fill)
    requires HoleFree(t)
    ensures Render(t, f) == Render(t, g)
  {
    if t != [] {
      HoleFreeRender(t[1..], f, g);
    }
  }

  /** With nothing unreadable in it, the resolved text is exactly the value. */
  lemma FullyReadableIsExact(e: Expr, symtab: SymbolTable, v: Fill)
    requires TemplateOf(e, symtab, 0).Ok? && HoleFree(TemplateOf(e, symtab, 0).value)
    ensures ResolveBodyText(e, symtab, 0).Ok?
    ensures HasValue(e, symtab, v, ResolveBodyText(e, symtab, 0).value)
  {
    ResolutionSound(e, symtab, v);
    ResolvedIsMarked(e, symtab, 0);
    HoleFreeRender(TemplateOf(e, symtab, 0).value, v, _ => ELISION);
  }

  // ----- Cyclic constants ----------------------------------------------------------

  /** Evaluating `e` has to evaluate some name in `names`. */
  predicate Needs(e: Expr, names: set<string>)
  {
    match e
    case Plus(left, right) => Needs(left, names) || Needs(right, names)
    case Name(id, _) => id in names
    case _ => false
  }

  /** Names that each need one of them again. */
  predicate Cyclic(names: set<string>, symtab: SymbolTable) {
    forall id | id in names :: id in symtab && Needs(symtab[id], names)
  }

  /** A constant caught in a cycle is refused, at whatever depth it is met,
      and so is every expression that needs it: resolution always ends. */
  lemma {:induction false} CyclesAreRefused(e: Expr, symtab: SymbolTable, names: set<string>, depth: nat)
    requires Cyclic(names, symtab) && Needs(e, names)
    ensures ResolveBodyText(e, symtab, depth) == Err(TooDeep)
    decreases MAX_DEPTH + 1 - depth
  {
    if depth <= MAX_DEPTH {
      match e
      case Plus(left, right) =>
        ResolvedIsMarked(left, symtab, depth + 1);
        if Needs(left, names) {
          CyclesAreRefused(left, symtab, names, depth + 1);
        } else {
          CyclesAreRefused(right, symtab, names, depth + 1);
        }
      case Name(id, _) => CyclesAreRefused(symtab[id], symtab, names, depth + 1);
    }
  }

  // ----- From expression to skill info ------------------------------------------------

  /** `_skill_info_from_frontmatter`. */
  method SkillInfoFromFrontmatter(name: string, e: Expr, symtab: SymbolTable) returns (r: Result<SkillInfo>)
    ensures r == InfoOf(name, e, symtab)
  {
    var body := ResolveBodyText(e, symtab, 0);
    if body.Err? {
      return Err(body.error);
    }
    r := FrontmatterLoops.SkillInfoFromBody(name, body.value);
  }

  function InfoOf(name: string, e: Expr, symtab: SymbolTable): (r: Result<SkillInfo>) {
    var body := ResolveBodyText(e, symtab, 0);
    if body.Err? then Err(body.error) else InfoOfBody(name, body.value)
  }

  /** The whole claim of the static measurement: if the script reports a skill,
      then the body the program really deploys has that very skill info,
      provided the unreadable parts stay harmless. */
  lemma MeasurementIsReal(name: string, e: Expr, symtab: SymbolTable, v: Fill, body: string)
    requires InfoOf(name, e, symtab).Ok?
    requires HasValue(e, symtab, v, body)
    requires TemplateOf(e, symtab, 0).Ok? ==> NonInterference.Harmless(TemplateOf(e, symtab, 0).value, v)
    ensures InfoOfBody(name, body) == InfoOf(name, e, symtab)
  {
    ResolutionSound(e, symtab, v);
    NonInterference.ReportSurvivesFilling(name, TemplateOf(e, symtab, 0).value, v);
  }

  /** The tolerance at the level of expressions: the report is the deployed skill's,
      whatever the unreadable parts evaluate to, if and only if none of them lands
      between the delimiters. */
  lemma MeasurementIsCertainIff(name: string, e: Expr, symtab: SymbolTable)
    requires InfoOf(name, e, symtab).Ok?
    ensures TemplateOf(e, symtab, 0).Ok?
    ensures !Exactness.HoleInFrontmatter(TemplateOf(e, symtab, 0).value) <==>
            forall v: Fill, body | HasValue(e, symtab, v, body) :: InfoOfBody(name, body) == InfoOf(name, e, symtab)
  {
    hide Exactness.HoleInFrontmatter, InfoOfBody, HasValue, TemplateOf;
    ResolvedIsMarked(e, symtab, 0);
    var t := TemplateOf(e, symtab, 0).value;
    forall v: Fill ensures forall s :: HasValue(e, symtab, v, s) <==> s == Render(t, v) {
      ResolutionSound(e, symtab, v);
    }
    assert InfoOf(name, e, symtab) == InfoOfBody(name, Marked(t));
    Exactness.ReportIsCertainIffNoHoleInFrontmatter(name, t);
    if !Exactness.HoleInFrontmatter(t) {
      forall v: Fill, body | HasValue(e, symtab, v, body) ensures InfoOfBody(name, body) == InfoOf(name, e, symtab) {
        assert body == Render(t, v);
        assert InfoOfBody(name, Render(t, v)) == InfoOfBody(name, Marked(t));
      }
    }
    if forall v: Fill, body | HasValue(e, symtab, v, body) :: InfoOfBody(name, body) == InfoOf(name, e, symtab) {
      forall v: Fill ensures InfoOfBody(name, Render(t, v)) == InfoOfBody(name, Marked(t)) {
        assert HasValue(e, symtab, v, Render(t, v));
      }
    }
  }
}
