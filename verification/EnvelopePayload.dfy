/** Which dict literal a payload argument of `scripts/response_envelope_lint.py` stands
    for, when several assignments bind its name. */
module EnvelopePayload {
  import opened EnvelopeLint
  import opened EnvelopeNames
  import opened EnvelopeTree
  import opened Wrappers

  /** The dict literal an assignment binds. */
  function BoundBy(n: Node, name: string): (d: Node)
    requires Assigns(n, name)
  {
    if n.Assign? then n.bound else n.init.value
  }

  /** The `i`-th of `nodes` is the last to bind `name`. */
  ghost predicate LastIn(nodes: seq<Node>, name: string, i: nat) {
    i < |nodes| && Assigns(nodes[i], name) && forall j | i < j < |nodes| :: !Assigns(nodes[j], name)
  }

  /** No node from level `depth` down binds `name`. */
  ghost predicate NoneFrom(q: seq<Node>, depth: nat, name: string) {
    forall e: nat, n | depth <= e && n in Level(q, e) :: !Assigns(n, name)
  }

  /** The literal bound on the deepest level that binds the name, by the last assignment
      from left to right there. */
  ghost predicate Wins(q: seq<Node>, name: string, d: Node) {
    exists depth: nat, i: nat ::
      LastIn(Level(q, depth), name, i) && BoundBy(Level(q, depth)[i], name) == d && NoneFrom(q, depth + 1, name)
  }

  lemma {:induction false} LastAssignedIff(nodes: seq<Node>, name: string)
    ensures LastAssigned(nodes, name).None? <==> forall n | n in nodes :: !Assigns(n, name)
    ensures LastAssigned(nodes, name).Some? ==>
              exists i: nat :: LastIn(nodes, name, i) && BoundBy(nodes[i], name) == LastAssigned(nodes, name).value
    decreases |nodes|
  {
    if nodes != [] {
      var n := |nodes| - 1;
      assert nodes == nodes[..n] + [nodes[n]];
      LastAssignedIff(nodes[..n], name);
      if Assigns(nodes[n], name) {
        assert LastIn(nodes, name, n);
      } else if LastAssigned(nodes, name).Some? {
        var i: nat :| LastIn(nodes[..n], name, i)
            && BoundBy(nodes[..n][i], name) == LastAssigned(nodes[..n], name).value;
        assert forall j | i < j < n :: !Assigns(nodes[..n][j], name);
        assert LastIn(nodes, name, i);
      }
    }
  }

  lemma {:induction false} LastOfTwo(a: seq<Node>, b: seq<Node>, name: string)
    ensures LastAssigned(a + b, name) ==
              if LastAssigned(b, name).Some? then LastAssigned(b, name) else LastAssigned(a, name)
    decreases |b|
  {
    if b == [] {
      assert a + b == a;
    } else {
      var n := |b| - 1;
      assert (a + b)[..|a + b| - 1] == a + b[..n];
      LastOfTwo(a, b[..n], name);
    }
  }

  /** Of all nodes a walk visits, the deepest and rightmost to bind the name has its way. */
  lemma {:induction false} LastIsDeepest(q: seq<Node>, name: string)
    ensures LastAssigned(Walk(q), name).None? ==> NoneFrom(q, 0, name)
    ensures LastAssigned(Walk(q), name).Some? ==> Wins(q, name, LastAssigned(Walk(q), name).value)
    decreases QueueSize(q)
  {
    hide Assigns, LastAssigned, Children;
    var below := AllChildren(q);
    if q == [] {
      EmptyLevels(name);
      LastAssignedIff(Walk(q), name);
    } else {
      ChildrenSize(q);
      WalkByLevels(q);
      LastIsDeepest(below, name);
      LastOfTwo(q, Walk(below), name);
      LastAssignedIff(q, name);
      hide Walk;
      if LastAssigned(Walk(below), name).Some? {
        var depth: nat, i: nat :| LastIn(Level(below, depth), name, i)
          && BoundBy(Level(below, depth)[i], name) == LastAssigned(Walk(below), name).value
              && NoneFrom(below, depth + 1, name);
        NoneDeeper(q, depth + 1, name);
        assert Level(q, depth + 1) == Level(below, depth);
      } else {
        NoneDeeper(q, 0, name);
        assert Level(q, 0) == q;
        if LastAssigned(q, name).None? {
          NoneHere(q, name);
        }
      }
    }
  }

  lemma EmptyLevels(name: string)
    ensures NoneFrom([], 0, name)
  {
    forall e: nat ensures Level([], e) == [] {
      NoLevel(e);
    }
  }

  lemma {:induction false} NoLevel(e: nat)
    ensures Level([], e) == []
  {
    if e > 0 {
      NoLevel(e - 1);
    }
  }

  lemma NoneDeeper(q: seq<Node>, depth: nat, name: string)
    requires NoneFrom(AllChildren(q), depth, name)
    ensures NoneFrom(q, depth + 1, name)
  {
    hide Assigns, Children;
    forall e: nat, n | depth + 1 <= e && n in Level(q, e) ensures !Assigns(n, name) {
      assert n in Level(AllChildren(q), e - 1);
    }
  }

  lemma NoneHere(q: seq<Node>, name: string)
    requires NoneFrom(q, 1, name) && forall n | n in q :: !Assigns(n, name)
    ensures NoneFrom(q, 0, name)
  {
    hide Assigns, Children;
    forall e: nat, n | n in Level(q, e) ensures !Assigns(n, name) {
      if e == 0 {
        assert Level(q, e) == q;
      }
    }
  }

  /** A payload argument resolves exactly if it is a dict literal, or a name that some
      assignment below the function binds to one; and then to the one bound deepest, on
      equal level rightmost, which need not be the last in the source. */
  lemma PayloadResolvesIff(func: Node, arg: Node)
    ensures var r, name := DictLiteralFor(func, arg), NameOf(arg);
      && (r.Some? <==> arg.Dict? || (name.Some? && exists n :: Below(n, func) && Assigns(n, name.value)))
      && (r.Some? && !arg.Dict? ==> Wins([func], name.value, r.value))
      && (arg.Dict? ==> r == Some(arg))
  {
    hide Walk, Below, Assigns, LastAssigned, Wins;
    forall n ensures n in Walk([func]) <==> Below(n, func) {
      WalkOneIff(func, n);
    }
    if !arg.Dict? && NameOf(arg).Some? {
      LastAssignedIff(Walk([func]), NameOf(arg).value);
      LastIsDeepest([func], NameOf(arg).value);
    }
  }

  /** At most one literal wins. */
  lemma WinsOnce(q: seq<Node>, name: string, c: Node, d: Node)
    requires Wins(q, name, c) && Wins(q, name, d)
    ensures c == d
  {
    hide Assigns, Level;
    var m: nat, i: nat :| LastIn(Level(q, m), name, i) && BoundBy(Level(q, m)[i], name) == c
        && NoneFrom(q, m + 1, name);
    var n: nat, j: nat :| LastIn(Level(q, n), name, j) && BoundBy(Level(q, n)[j], name) == d
        && NoneFrom(q, n + 1, name);
    assert Level(q, m)[i] in Level(q, m) && Level(q, n)[j] in Level(q, n);
  }

  /** What an argument stands for below `func`. */
  ghost predicate StandsFor(func: Node, arg: Node, d: Node) {
    if arg.Dict? then d == arg else exists name :: IsNamed(arg, name) && Wins([func], name, d)
  }

  lemma StandsForIff(func: Node, arg: Node, d: Node)
    ensures DictLiteralFor(func, arg) == Some(d) <==> StandsFor(func, arg, d)
  {
    PayloadResolvesIff(func, arg);
    hide Wins, Walk, Assigns, LastAssigned;
    if !arg.Dict? {
      if name :| IsNamed(arg, name) && Wins([func], name, d) {
        WinnerIsBelow(func, name, d);
        if DictLiteralFor(func, arg).Some? {
          WinsOnce([func], name, d, DictLiteralFor(func, arg).value);
        }
      }
    }
  }

  lemma WinnerIsBelow(func: Node, name: string, d: Node)
    requires Wins([func], name, d)
    ensures exists n :: Below(n, func) && Assigns(n, name)
  {
    LastIsDeepest([func], name);
    LastAssignedIff(Walk([func]), name);
    hide Walk, Assigns, LastAssigned, Below, Level;
    var m: nat, i: nat :| LastIn(Level([func], m), name, i) && BoundBy(Level([func], m)[i], name) == d
                          && NoneFrom([func], m + 1, name);
    assert Level([func], m)[i] in Level([func], m);
    var n :| n in Walk([func]) && Assigns(n, name);
    WalkOneIff(func, n);
  }

  /** The payload literal of a call below `func`: the call is an undegraded response, and
      what it passes as payload stands for `d`. */
  ghost predicate PayloadOf(func: Node, call: Node, d: Node) {
    IsResponse(call) && exists arg :: PassesPayload(call, arg) && StandsFor(func, arg, d)
  }

  lemma PayloadOfIff(func: Node, call: Node, d: Node)
    ensures ResponsePayload(func, call) == Some(d) <==> PayloadOf(func, call, d)
  {
    PayloadIff(func, call, d);
    hide IsResponse, PassesPayload, StandsFor, DictLiteralFor, ResponsePayload;
    if arg :| PassesPayload(call, arg) && StandsFor(func, arg, d) {
      StandsForIff(func, arg, d);
    }
    if arg :| PassesPayload(call, arg) && DictLiteralFor(func, arg) == Some(d) {
      StandsForIff(func, arg, d);
    }
  }

  /** A binding below a condition, and a later one beside that condition. */
  function Nested(name: string): (n: Node) {
    Assign(2, [Name(2, name)], Dict(2, [], []))
  }

  function Later(name: string): (n: Node) {
    Assign(3, [Name(3, name)], Dict(3, [], []))
  }

  function TwiceBound(name: string): (func: Node) {
    Function(0, "f", [Conditional(1, Name(1, "c"), [Nested(name)]), Later(name)])
  }

  lemma TwoChildren(a: Node, b: Node)
    ensures AllChildren([a]) == Children(a)
    ensures AllChildren([a, b]) == Children(a) + Children(b)
  {
    hide Children;
    assert [a, b][1..] == [b] && [a][1..] == [] && [b][1..] == [];
  }

  lemma TwiceBoundLevels(name: string)
    ensures var func, leaf := TwiceBound(name), Name(3, name);
      && AllChildren([func]) == func.body
      && AllChildren(func.body) == [Name(1, "c"), Nested(name)] + [leaf, Later(name).bound]
      && AllChildren([Name(1, "c"), Nested(name)] + [leaf, Later(name).bound]) == [Name(2, name), Nested(name).bound]
      && AllChildren([Name(2, name), Nested(name).bound]) == []
  {
    var func := TwiceBound(name);
    TwoChildren(func, func);
    TwoChildren(func.body[0], func.body[1]);
    TwoChildren(Name(1, "c"), Nested(name));
    TwoChildren(Name(3, name), Later(name).bound);
    TwoChildren(Name(2, name), Nested(name).bound);
    hide AllChildren;
    ChildrenConcat([Name(1, "c"), Nested(name)], [Name(3, name), Later(name).bound]);
    assert func.body == [func.body[0], func.body[1]];
  }

  lemma NothingBelow()
    ensures Walk([]) == []
  {
  }

  /** What a deeper level binds counts; without it, what this level binds. */
  lemma DeeperCounts(q: seq<Node>, name: string)
    ensures var below := LastAssigned(Walk(AllChildren(q)), name);
      LastAssigned(Walk(q), name) == if below.Some? then below else LastAssigned(q, name)
  {
    WalkByLevels(q);
    hide Walk, AllChildren, LastAssigned;
    LastOfTwo(q, Walk(AllChildren(q)), name);
  }

  lemma {:induction false} ChildrenConcat(a: seq<Node>, b: seq<Node>)
    ensures AllChildren(a + b) == AllChildren(a) + AllChildren(b)
    decreases |a|
  {
    hide Children;
    if a == [] {
      assert a + b == b;
    } else {
      assert (a + b)[1..] == a[1..] + b;
      ChildrenConcat(a[1..], b);
    }
  }

  /** The nested binding wins. */
  lemma NestedBindingWins(name: string)
    ensures DictLiteralFor(TwiceBound(name), Name(4, name)) == Some(Nested(name).bound)
  {
    var func := TwiceBound(name);
    var level := [Name(1, "c"), Nested(name)] + [Name(3, name), Later(name).bound];
    var leaves := [Name(2, name), Nested(name).bound];
    TwiceBoundLevels(name);
    LeavesBindNothing(name);
    LevelBinds(name);
    hide Walk, AllChildren, LastAssigned, Assigns, Children;
    DeeperCounts(leaves, name);
    DeeperCounts(level, name);
    DeeperCounts(func.body, name);
    DeeperCounts([func], name);
  }

  lemma LeavesBindNothing(name: string)
    ensures LastAssigned(Walk([]), name).None? && LastAssigned([Name(2, name), Nested(name).bound], name).None?
  {
    NothingBelow();
    LastAssignedIff([], name);
    LastAssignedIff([Name(2, name), Nested(name).bound], name);
  }

  lemma LevelBinds(name: string)
    ensures var level := [Name(1, "c"), Nested(name)] + [Name(3, name), Later(name).bound];
      LastAssigned(level, name) == Some(Nested(name).bound)
  {
    LastAssignedIff([Name(3, name), Later(name).bound], name);
    LastOfTwo([Name(1, "c"), Nested(name)], [Name(3, name), Later(name).bound], name);
    assert Nested(name).targets[0] == Name(2, name) && Assigns(Nested(name), name);
  }
}
