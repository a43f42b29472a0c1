/** The two sets of names `scripts/response_envelope_lint.py` collects: the fields a
    module declares as best effort, and the names a function's conditions mention. */
module EnvelopeNames {
  import opened EnvelopeTree
  import opened Wrappers

  // ----- Best-effort fields ------------------------------------------------------------

  predicate IsDictSubscript(n: Node) {
    n.Subscript? && (NameOf(n.value) == Some("dict") || NameOf(n.value) == Some("Dict"))
  }

  /** `dict[...] | None`, either way round, or `Optional[dict[...]]`. */
  predicate IsOptionalDict(n: Node) {
    match n
    case BitOr(_, left, right) =>
      (left.NoneLiteral? || right.NoneLiteral?) && (IsDictSubscript(left) || IsDictSubscript(right))
    case Subscript(_, value, slice) => NameOf(value) == Some("Optional") && IsDictSubscript(slice)
    case _ => false
  }

  /** The node is `name`, or something's attribute of that name. */
  predicate IsNamed(n: Node, name: string) {
    (n.Name? && n.id == name) || (n.Attribute? && n.attr == name)
  }

  /** `dict[...]` or `Dict[...]`. */
  predicate IsDictOf(n: Node) {
    n.Subscript? && (IsNamed(n.value, "Dict") || IsNamed(n.value, "dict"))
  }

  /** The annotations that count, shape by shape. */
  lemma OptionalDictIff(n: Node)
    ensures IsOptionalDict(n) <==>
              || (exists line, d, none :: n == BitOr(line, d, none) && IsDictOf(d) && none.NoneLiteral?)
              || (exists line, d, none :: n == BitOr(line, none, d) && IsDictOf(d) && none.NoneLiteral?)
              || (exists line, optional, d ::
                    n == Subscript(line, optional, d) && IsNamed(optional, "Optional") && IsDictOf(d))
  {
    match n
    case BitOr(line, left, right) =>
      assert n == BitOr(line, left, right);
    case Subscript(line, value, slice) =>
      assert n == Subscript(line, value, slice);
    case _ =>
  }

  predicate Declares(stmt: Node, field: string) {
    stmt.AnnAssign? && IsOptionalDict(stmt.annotation) && NameOf(stmt.target) == Some(field)
  }

  /** A class below the tree declares the field as an optional dict. */
  ghost predicate DeclaresBelow(tree: Node, field: string) {
    exists cls, stmt :: Below(cls, tree) && cls.Class? && stmt in cls.body && Declares(stmt, field)
  }

  function FieldOf(stmt: Node): (r: Option<string>) {
    if stmt.AnnAssign? && IsOptionalDict(stmt.annotation) then NameOf(stmt.target) else None
  }

  function BodyFields(body: seq<Node>): (r: set<string>) {
    if body == [] then {}
    else BodyFields(body[..|body| - 1]) + var f := FieldOf(body[|body| - 1]); if f.Some? then {f.value} else {}
  }

  function ClassFields(nodes: seq<Node>): (r: set<string>) {
    if nodes == [] then {}
    else
      var last := nodes[|nodes| - 1];
      ClassFields(nodes[..|nodes| - 1]) + if last.Class? then BodyFields(last.body) else {}
  }

  lemma {:induction false} BodyFieldsIff(body: seq<Node>, f: string)
    ensures f in BodyFields(body) <==> exists stmt :: stmt in body && Declares(stmt, f)
    decreases |body|
  {
    hide IsOptionalDict, NameOf;
    if body != [] {
      var front, last := body[..|body| - 1], body[|body| - 1];
      assert body == front + [last];
      BodyFieldsIff(front, f);
      assert Declares(last, f) <==> FieldOf(last) == Some(f);
    }
  }

  lemma {:induction false} ClassFieldsIff(nodes: seq<Node>, f: string)
    ensures f in ClassFields(nodes) <==>
              exists cls, stmt :: cls in nodes && cls.Class? && stmt in cls.body && Declares(stmt, f)
    decreases |nodes|
  {
    hide Declares, BodyFields;
    if nodes != [] {
      var front, last := nodes[..|nodes| - 1], nodes[|nodes| - 1];
      assert nodes == front + [last];
      ClassFieldsIff(front, f);
      if last.Class? {
        BodyFieldsIff(last.body, f);
      }
    }
  }

  lemma FieldsIff(tree: Node, f: string)
    ensures f in ClassFields(Walk([tree])) <==> DeclaresBelow(tree, f)
  {
    hide Walk, Below, Declares, ClassFields;
    ClassFieldsIff(Walk([tree]), f);
    forall node ensures node in Walk([tree]) <==> Below(node, tree) {
      WalkOneIff(tree, node);
    }
  }

  /** `collect_best_effort_fields`. */
  method CollectBestEffortFields(tree: Node) returns (fields: set<string>)
    ensures fields == ClassFields(Walk([tree]))
    ensures forall f :: f in fields <==> DeclaresBelow(tree, f)
  {
    hide Walk, FieldOf, DeclaresBelow;
    fields := {};
    var nodes := Walk([tree]);
    for i := 0 to |nodes|
      invariant fields == ClassFields(nodes[..i])
    {
      assert nodes[..i + 1][..i] == nodes[..i];
      if nodes[i].Class? {
        var body := nodes[i].body;
        ghost var before := fields;
        for j := 0 to |body|
          invariant fields == before + BodyFields(body[..j])
        {
          assert body[..j + 1][..j] == body[..j];
          var field := FieldOf(body[j]);
          if field.Some? {
            fields := fields + {field.value};
          }
        }
        assert body[..|body|] == body;
      }
    }
    assert nodes[..|nodes|] == nodes;
    forall f ensures f in fields <==> DeclaresBelow(tree, f) {
      FieldsIff(tree, f);
    }
  }

  // ----- What a function examines ---------------------------------------------------------

  function ConditionExprs(n: Node): (r: seq<Node>) {
    match n
    case Conditional(_, test, _) => [test]
    case BoolOp(_, operands) => operands
    case Comprehension(_, ifs, _) => ifs
    case _ => []
  }

  function NamesIn(nodes: seq<Node>): (r: set<string>) {
    if nodes == [] then {}
    else NamesIn(nodes[..|nodes| - 1]) + var name := NameOf(nodes[|nodes| - 1]); if name.Some? then {name.value} else {}
  }

  function ConditionsOf(nodes: seq<Node>): (r: seq<Node>) {
    if nodes == [] then [] else ConditionsOf(nodes[..|nodes| - 1]) + ConditionExprs(nodes[|nodes| - 1])
  }

  function NamesUnder(exprs: seq<Node>): (r: set<string>) {
    if exprs == [] then {} else NamesUnder(exprs[..|exprs| - 1]) + NamesIn(Walk([exprs[|exprs| - 1]]))
  }

  function Examined(func: Node): (r: set<string>) {
    NamesUnder(ConditionsOf(Walk([func])))
  }

  lemma {:induction false} NamesUnderConcat(a: seq<Node>, b: seq<Node>)
    ensures NamesUnder(a + b) == NamesUnder(a) + NamesUnder(b)
    decreases |b|
  {
    if b == [] {
      assert a + b == a;
    } else {
      assert (a + b)[..|a + b| - 1] == a + b[..|b| - 1];
      NamesUnderConcat(a, b[..|b| - 1]);
    }
  }

  /** A name or an attribute of that name lies below the expression. */
  ghost predicate Mentions(expr: Node, name: string) {
    exists sub :: Below(sub, expr) && IsNamed(sub, name)
  }

  /** The test of a branch or loop, an operand of `and` or `or`, a filter of a comprehension. */
  predicate IsCondition(node: Node, expr: Node) {
    || (node.Conditional? && expr == node.test)
    || (node.BoolOp? && expr in node.operands)
    || (node.Comprehension? && expr in node.ifs)
  }

  /** Some condition below the function mentions the name. */
  ghost predicate Examines(func: Node, name: string) {
    exists node, expr :: Below(node, func) && IsCondition(node, expr) && Mentions(expr, name)
  }

  lemma ConditionIff(node: Node, expr: Node)
    ensures expr in ConditionExprs(node) <==> IsCondition(node, expr)
  {
  }

  lemma {:induction false} NamesInIff(nodes: seq<Node>, name: string)
    ensures name in NamesIn(nodes) <==> exists sub :: sub in nodes && NameOf(sub) == Some(name)
    decreases |nodes|
  {
    hide NameOf;
    if nodes != [] {
      var front, last := nodes[..|nodes| - 1], nodes[|nodes| - 1];
      assert nodes == front + [last];
      NamesInIff(front, name);
    }
  }

  lemma {:induction false} ConditionsOfIff(nodes: seq<Node>, expr: Node)
    ensures expr in ConditionsOf(nodes) <==> exists node :: node in nodes && expr in ConditionExprs(node)
    decreases |nodes|
  {
    hide ConditionExprs;
    if nodes != [] {
      var front, last := nodes[..|nodes| - 1], nodes[|nodes| - 1];
      assert nodes == front + [last];
      ConditionsOfIff(front, expr);
    }
  }

  lemma MentionsIff(expr: Node, name: string)
    ensures name in NamesIn(Walk([expr])) <==> Mentions(expr, name)
  {
    hide Walk, Below, NamesIn;
    NamesInIff(Walk([expr]), name);
    forall sub
      ensures (NameOf(sub) == Some(name) <==> IsNamed(sub, name)) && (sub in Walk([expr]) <==> Below(sub, expr))
    {
      WalkOneIff(expr, sub);
    }
  }

  lemma {:induction false} NamesUnderIff(exprs: seq<Node>, name: string)
    ensures name in NamesUnder(exprs) <==> exists expr :: expr in exprs && Mentions(expr, name)
    decreases |exprs|
  {
    hide Walk, NamesIn, Mentions;
    if exprs != [] {
      var front, last := exprs[..|exprs| - 1], exprs[|exprs| - 1];
      assert exprs == front + [last];
      NamesUnderIff(front, name);
      MentionsIff(last, name);
    }
  }

  lemma ExaminedIff(func: Node, name: string)
    ensures name in Examined(func) <==> Examines(func, name)
  {
    hide Walk, Below, ConditionExprs, NamesUnder, ConditionsOf, Mentions;
    var nodes := Walk([func]);
    NamesUnderIff(ConditionsOf(nodes), name);
    if expr :| expr in ConditionsOf(nodes) && Mentions(expr, name) {
      ConditionsOfIff(nodes, expr);
      var node :| node in nodes && expr in ConditionExprs(node);
      ConditionIff(node, expr);
      WalkOneIff(func, node);
    }
    if node, expr :| Below(node, func) && IsCondition(node, expr) && Mentions(expr, name) {
      ConditionIff(node, expr);
      WalkOneIff(func, node);
      ConditionsOfIff(nodes, expr);
    }
  }

  /** `_tokens_in_conditions`. */
  method TokensInConditions(func: Node) returns (tokens: set<string>)
    ensures tokens == Examined(func)
    ensures forall name :: name in tokens <==> Examines(func, name)
  {
    hide Walk, NameOf, Examines;
    tokens := {};
    var nodes := Walk([func]);
    for i := 0 to |nodes|
      invariant tokens == NamesUnder(ConditionsOf(nodes[..i]))
    {
      var exprs := ConditionExprs(nodes[i]);
      ghost var before := tokens;
      for j := 0 to |exprs|
        invariant tokens == before + NamesUnder(exprs[..j])
      {
        var subs := Walk([exprs[j]]);
        ghost var outer := tokens;
        for k := 0 to |subs|
          invariant tokens == outer + NamesIn(subs[..k])
        {
          var name := NameOf(subs[k]);
          assert subs[..k + 1][..k] == subs[..k];
          if name.Some? {
            tokens := tokens + {name.value};
          }
        }
        assert subs[..|subs|] == subs;
        assert exprs[..j + 1][..j] == exprs[..j];
      }
      assert exprs[..|exprs|] == exprs;
      assert nodes[..i + 1][..i] == nodes[..i];
      NamesUnderConcat(ConditionsOf(nodes[..i]), exprs);
    }
    assert nodes[..|nodes|] == nodes;
    forall name ensures name in tokens <==> Examines(func, name) {
      ExaminedIff(func, name);
    }
  }
}
