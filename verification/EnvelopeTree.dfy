/** The syntax trees of `scripts/response_envelope_lint.py`, and the walk the script
    looks through them with. Parsed modules are the input. */
module EnvelopeTree {
  import opened Wrappers

  /** The syntax the lint looks at; everything else is `Other`. */
  datatype Node =
    | Name(line: int, id: string)
    | Attribute(line: int, value: Node, attr: string)
    | Literal(line: int, text: string)
    | NoneLiteral(line: int)
    | Subscript(line: int, value: Node, slice: Node)
    | BitOr(line: int, left: Node, right: Node)
    | Dict(line: int, keys: seq<Option<Node>>, values: seq<Node>)
    | Call(line: int, callee: Node, args: seq<Node>, keywords: seq<Keyword>)
    | AnnAssign(line: int, target: Node, annotation: Node, init: Option<Node>)
    | Assign(line: int, targets: seq<Node>, bound: Node)
    | Class(line: int, body: seq<Node>)
    | Function(line: int, name: string, body: seq<Node>)
    | Conditional(line: int, test: Node, rest: seq<Node>)
    | BoolOp(line: int, operands: seq<Node>)
    | Comprehension(line: int, ifs: seq<Node>, rest: seq<Node>)
    | Other(line: int, parts: seq<Node>)

  datatype Keyword = Keyword(arg: Option<string>, value: Node)

  // ----- Walking -------------------------------------------------------------------

  function Present(nodes: seq<Option<Node>>): (r: seq<Node>)
    ensures forall n | n in r :: Some(n) in nodes
  {
    if nodes == [] then []
    else (if nodes[0].Some? then [nodes[0].value] else []) + Present(nodes[1..])
  }

  function KeywordValues(ks: seq<Keyword>): (r: seq<Node>)
    ensures |r| == |ks| && forall i | 0 <= i < |ks| :: r[i] == ks[i].value
  {
    if ks == [] then [] else [ks[0].value] + KeywordValues(ks[1..])
  }

  function Children(n: Node): (r: seq<Node>) {
    match n
    case Name(_, _) => []
    case Attribute(_, value, _) => [value]
    case Literal(_, _) => []
    case NoneLiteral(_) => []
    case Subscript(_, value, slice) => [value, slice]
    case BitOr(_, left, right) => [left, right]
    case Dict(_, keys, values) => Present(keys) + values
    case Call(_, callee, args, keywords) => [callee] + args + KeywordValues(keywords)
    case AnnAssign(_, target, annotation, init) => [target, annotation] + if init.Some? then [init.value] else []
    case Assign(_, targets, bound) => targets + [bound]
    case Class(_, body) => body
    case Function(_, _, body) => body
    case Conditional(_, test, rest) => [test] + rest
    case BoolOp(_, operands) => operands
    case Comprehension(_, ifs, rest) => ifs + rest
    case Other(_, parts) => parts
  }

  /** What a node is directly made of. */
  predicate IsPart(n: Node, c: Node) {
    match n
    case Attribute(_, value, _) => c == value
    case Subscript(_, value, slice) => c == value || c == slice
    case BitOr(_, left, right) => c == left || c == right
    case Dict(_, keys, values) => Some(c) in keys || c in values
    case Call(_, callee, args, keywords) => c == callee || c in args || exists k | k in keywords :: k.value == c
    case AnnAssign(_, target, annotation, init) => c == target || c == annotation || init == Some(c)
    case Assign(_, targets, bound) => c in targets || c == bound
    case Class(_, body) => c in body
    case Function(_, _, body) => c in body
    case Conditional(_, test, rest) => c == test || c in rest
    case BoolOp(_, operands) => c in operands
    case Comprehension(_, ifs, rest) => c in ifs || c in rest
    case Other(_, parts) => c in parts
    case _ => false
  }

  lemma {:induction false} PresentIff(nodes: seq<Option<Node>>, c: Node)
    ensures c in Present(nodes) <==> Some(c) in nodes
    decreases |nodes|
  {
    if nodes != [] {
      PresentIff(nodes[1..], c);
    }
  }

  lemma KeywordValuesIff(ks: seq<Keyword>, c: Node)
    ensures c in KeywordValues(ks) <==> exists k | k in ks :: k.value == c
  {
    if k :| k in ks && k.value == c {
      var i :| 0 <= i < |ks| && ks[i] == k;
      assert KeywordValues(ks)[i] == c;
    }
    if c in KeywordValues(ks) {
      var i :| 0 <= i < |ks| && KeywordValues(ks)[i] == c;
      assert ks[i] in ks;
    }
  }

  lemma ChildrenIff(n: Node, c: Node)
    ensures c in Children(n) <==> IsPart(n, c)
  {
    match n
    case Dict(_, keys, values) => PresentIff(keys, c);
    case Call(_, callee, args, keywords) => KeywordValuesIff(keywords, c);
    case _ =>
  }

  lemma ChildrenAreSmaller(n: Node, c: Node)
    requires c in Children(n)
    ensures c < n
  {
    match n
    case Dict(_, keys, values) =>
      if c in Present(keys) {
        var i :| 0 <= i < |keys| && keys[i] == Some(c);
        assert c < keys[i];
      }
    case Call(_, callee, args, keywords) =>
      if c in KeywordValues(keywords) {
        var i :| 0 <= i < |keywords| && keywords[i].value == c;
        assert c < keywords[i];
      }
    case AnnAssign(_, target, annotation, init) =>
      if init.Some? && c == init.value {
        assert c < init;
      }
    case _ =>
  }

  function Size(n: Node): (s: nat)
    ensures s > 0
    decreases n, 1, 0
  {
    1 + SumSizes(n, Children(n))
  }

  function SumSizes(n: Node, cs: seq<Node>): (s: nat)
    requires forall c | c in cs :: c in Children(n)
    decreases n, 0, |cs|
  {
    if cs == [] then 0
    else
      ChildrenAreSmaller(n, cs[0]);
      Size(cs[0]) + SumSizes(n, cs[1..])
  }

  function QueueSize(q: seq<Node>): (s: nat) {
    if q == [] then 0 else Size(q[0]) + QueueSize(q[1..])
  }

  lemma {:induction false} QueueConcat(a: seq<Node>, b: seq<Node>)
    ensures QueueSize(a + b) == QueueSize(a) + QueueSize(b)
  {
    if a == [] {
      assert a + b == b;
    } else {
      assert (a + b)[1..] == a[1..] + b;
      QueueConcat(a[1..], b);
    }
  }

  lemma {:induction false} SumIsQueue(n: Node, cs: seq<Node>)
    requires forall c | c in cs :: c in Children(n)
    ensures SumSizes(n, cs) == QueueSize(cs)
    decreases |cs|
  {
    if cs != [] {
      SumIsQueue(n, cs[1..]);
    }
  }

  /** `ast.walk`: breadth first, by a queue. */
  function Walk(q: seq<Node>): (r: seq<Node>)
    decreases QueueSize(q)
  {
    if q == [] then []
    else
      QueueConcat(q[1..], Children(q[0]));
      SumIsQueue(q[0], Children(q[0]));
      [q[0]] + Walk(q[1..] + Children(q[0]))
  }

  function NameOf(n: Node): (r: Option<string>) {
    match n
    case Name(_, id) => Some(id)
    case Attribute(_, _, attr) => Some(attr)
    case _ => None
  }

  // ----- What a walk visits ------------------------------------------------------------

  /** `c` is `n`, or lies below it. */
  ghost predicate Below(c: Node, n: Node)
    decreases n
  {
    c == n || exists child :: IsPart(n, child) && (ChildrenIff(n, child); ChildrenAreSmaller(n, child); Below(c, child))
  }

  ghost predicate BelowSome(c: Node, q: seq<Node>) {
    exists n :: n in q && Below(c, n)
  }

  /** Below the first node is it itself, or below one of its children. */
  lemma BelowFirst(q: seq<Node>, c: Node)
    requires q != []
    ensures BelowSome(c, q) <==> c == q[0] || BelowSome(c, q[1..] + Children(q[0]))
  {
    var first, rest := q[0], q[1..] + Children(q[0]);
    hide Children, IsPart;
    forall child ensures child in Children(first) <==> IsPart(first, child) {
      ChildrenIff(first, child);
    }
    assert q == [first] + q[1..];
    assert Below(first, first);
    if BelowSome(c, q) && c != first {
      var n :| n in q && Below(c, n);
      if n == first {
        var child :| IsPart(first, child) && Below(c, child);
        assert child in rest;
      } else {
        assert n in rest;
      }
    }
    if BelowSome(c, rest) {
      var n :| n in rest && Below(c, n);
      if n in Children(first) {
        ChildrenAreSmaller(first, n);
        assert first in q && Below(c, first);
      } else {
        assert n in q;
      }
    }
  }

  /** A walk visits the nodes below those it starts from, and no others. */
  lemma {:induction false} WalkIff(q: seq<Node>, c: Node)
    ensures c in Walk(q) <==> BelowSome(c, q)
    decreases QueueSize(q)
  {
    hide Below, Children;
    if q != [] {
      QueueConcat(q[1..], Children(q[0]));
      SumIsQueue(q[0], Children(q[0]));
      WalkIff(q[1..] + Children(q[0]), c);
      BelowFirst(q, c);
    }
  }

  lemma WalkOneIff(n: Node, c: Node)
    ensures c in Walk([n]) <==> Below(c, n)
  {
    hide Walk, Below;
    WalkIff([n], c);
    assert n in [n];
  }

  // ----- The order it visits them in -----------------------------------------------------

  function AllChildren(q: seq<Node>): (r: seq<Node>) {
    if q == [] then [] else Children(q[0]) + AllChildren(q[1..])
  }

  /** The nodes `depth` levels below `q`, from left to right. */
  function Level(q: seq<Node>, depth: nat): (r: seq<Node>)
    decreases depth
  {
    if depth == 0 then q else Level(AllChildren(q), depth - 1)
  }

  lemma WalkStep(h: Node, rest: seq<Node>)
    ensures Walk([h] + rest) == [h] + Walk(rest + Children(h))
  {
    hide Children;
    assert ([h] + rest)[1..] == rest;
  }

  lemma AllChildrenStep(h: Node, rest: seq<Node>)
    ensures AllChildren([h] + rest) == Children(h) + AllChildren(rest)
  {
    hide Children;
    assert ([h] + rest)[1..] == rest;
  }

  lemma {:induction false} WalkPast(q: seq<Node>, x: seq<Node>)
    ensures Walk(q + x) == q + Walk(x + AllChildren(q))
    decreases |q|
  {
    hide Walk, Children, AllChildren;
    if q == [] {
      assert q + x == x && x + AllChildren(q) == x by {
        NoChildren();
      }
    } else {
      var h, rest := q[0], q[1..];
      WalkStep(h, rest + x);
      WalkPast(rest, x + Children(h));
      AllChildrenStep(h, rest);
      Regroup(h, rest, x, Children(h), AllChildren(rest));
      assert q == [h] + rest;
    }
  }

  lemma NoChildren()
    ensures AllChildren([]) == []
  {
  }

  lemma Regroup(h: Node, rest: seq<Node>, x: seq<Node>, own: seq<Node>, others: seq<Node>)
    ensures ([h] + rest) + x == [h] + (rest + x)
    ensures (rest + x) + own == rest + (x + own)
    ensures (x + own) + others == x + (own + others)
    ensures forall w: seq<Node> :: [h] + (rest + w) == ([h] + rest) + w
  {
  }

  /** Level by level. */
  lemma WalkByLevels(q: seq<Node>)
    ensures Walk(q) == q + Walk(AllChildren(q))
  {
    WalkPast(q, []);
    assert q + [] == q && [] + AllChildren(q) == AllChildren(q);
  }

  lemma {:induction false} ChildrenSize(q: seq<Node>)
    ensures QueueSize(q) == |q| + QueueSize(AllChildren(q))
    decreases |q|
  {
    if q != [] {
      ChildrenSize(q[1..]);
      SumIsQueue(q[0], Children(q[0]));
      QueueConcat(Children(q[0]), AllChildren(q[1..]));
    }
  }
}
