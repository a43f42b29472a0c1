/** `scripts/context_floor_skills.py`: the static simulation of a module that
    builds its skill dictionary from a literal, `.update` calls and item
    assignments, against what running the module leaves in the dictionary. */
module SkillDict {
  import opened Wrappers

  /** An expression: a dict literal, whose keys are string constants or
      something else, or any other node. Values are the nodes of skill bodies. */
  datatype Expr = DictLiteral(entries: seq<(Option<string>, nat)>) | Node(id: nat)

  /** The argument of `.update`: a bare name, or anything else. */
  datatype Arg = NameArg(id: string) | OtherArg

  datatype Stmt =
    | Assign(target: string, value: Expr)
    | Update(dict: string, arg: Arg)
    | SetItem(dict: string, key: Option<string>, item: nat)
    | OtherStmt

  type Module = seq<Stmt>
  type Dict = map<string, nat>

  /** `_dict_literal_entries`: a later entry of the same key wins, an entry
      whose key is no string constant is skipped. */
  function LiteralEntries(entries: seq<(Option<string>, nat)>): (d: Dict)
  {
    if entries == [] then map[]
    else
      var last := |entries| - 1;
      var d := LiteralEntries(entries[..last]);
      if entries[last].0.Some? then d[entries[last].0.value := entries[last].1] else d
  }

  /** Entry `i` is the last one whose key is the constant `key`. */
  ghost predicate LastEntry(entries: seq<(Option<string>, nat)>, key: string, i: nat) {
    i < |entries| && entries[i].0 == Some(key) && forall j | i < j < |entries| :: entries[j].0 != Some(key)
  }

  /** What a literal's entries come to: every constant key, with its last value. */
  lemma {:induction false} EntriesIff(entries: seq<(Option<string>, nat)>, key: string)
    ensures key in LiteralEntries(entries) <==> exists i | 0 <= i < |entries| :: entries[i].0 == Some(key)
    ensures key in LiteralEntries(entries) ==>
              exists i: nat :: LastEntry(entries, key, i) && LiteralEntries(entries)[key] == entries[i].1
    decreases |entries|
  {
    if entries != [] {
      var last := |entries| - 1;
      var front := entries[..last];
      EntriesIff(front, key);
      if entries[last].0 == Some(key) {
        assert LastEntry(entries, key, last);
      } else {
        if key in LiteralEntries(entries) {
          var i: nat :| LastEntry(front, key, i) && LiteralEntries(front)[key] == front[i].1;
          assert forall j | i < j < last :: front[j] == entries[j];
          assert LastEntry(entries, key, i);
        }
        if i :| 0 <= i < |entries| && entries[i].0 == Some(key) {
          assert front[i].0 == Some(key);
        }
      }
    }
  }

  predicate IsLiteralOf(stmt: Stmt, name: string) {
    stmt.Assign? && stmt.target == name && stmt.value.DictLiteral?
  }

  /** The first dict literal assigned to `name` in one module. */
  function FirstLiteral(m: Module, name: string): (r: Option<Expr>)
    ensures r.Some? ==> exists i | 0 <= i < |m| ::
              IsLiteralOf(m[i], name) && m[i].value == r.value && forall j | 0 <= j < i :: !IsLiteralOf(m[j], name)
    ensures r.None? ==> forall i | 0 <= i < |m| :: !IsLiteralOf(m[i], name)
  {
    if m == [] then None
    else if IsLiteralOf(m[0], name) then Some(m[0].value)
    else
      var r := FirstLiteral(m[1..], name);
      assert forall i | 1 <= i < |m| :: m[i] == m[1..][i - 1];
      assert forall i | 0 <= i < |m| - 1 :: m[1..][i] == m[i + 1];
      r
  }

  function ResolveIn(files: seq<Module>, name: string): (r: Option<Expr>)
  {
    if files == [] then None
    else if FirstLiteral(files[0], name).Some? then FirstLiteral(files[0], name)
    else ResolveIn(files[1..], name)
  }

  /** `_resolve_dict_literal`; `files` is the set in the order it is iterated. */
  method ResolveDictLiteral(name: string, files: seq<Module>) returns (r: Option<Expr>)
    ensures r == ResolveIn(files, name)
  {
    for i := 0 to |files|
      invariant ResolveIn(files, name) == ResolveIn(files[i..], name)
    {
      assert files[i..][1..] == files[i + 1..];
      var m := files[i];
      for j := 0 to |m|
        invariant FirstLiteral(m, name) == FirstLiteral(m[j..], name)
        invariant ResolveIn(files, name) == ResolveIn(files[i..], name)
      {
        assert m[j..][1..] == m[j + 1..];
        if IsLiteralOf(m[j], name) {
          return Some(m[j].value);
        }
      }
      assert FirstLiteral(m[|m|..], name) == None;
    }
    return None;
  }

  // ----- The order the set of files is iterated in -------------------------------------

  /** All files that assign such a literal assign the same one first. */
  ghost predicate Agreed(files: seq<Module>, name: string) {
    forall a, b | a in files && b in files && FirstLiteral(a, name).Some? && FirstLiteral(b, name).Some? ::
      FirstLiteral(a, name) == FirstLiteral(b, name)
  }

  lemma {:induction false} ResolvedInSome(files: seq<Module>, name: string)
    ensures ResolveIn(files, name).None? <==> forall m | m in files :: FirstLiteral(m, name).None?
    ensures ResolveIn(files, name).Some? ==> exists m :: m in files && FirstLiteral(m, name) == ResolveIn(files, name)
    decreases |files|
  {
    hide FirstLiteral;
    if files != [] {
      ResolvedInSome(files[1..], name);
      assert forall m :: m in files <==> m == files[0] || m in files[1..];
      if FirstLiteral(files[0], name).Some? {
        FirstOfFirst(files, name);
      }
    }
  }

  /** The files in another order, `m` first. */
  lemma MovedFirst(files: seq<Module>, m: Module) returns (other: seq<Module>)
    requires m in files
    ensures other != [] && other[0] == m && multiset(other) == multiset(files)
  {
    var i :| 0 <= i < |files| && files[i] == m;
    other := [m] + files[..i] + files[i + 1..];
    assert files == files[..i] + [m] + files[i + 1..];
  }

  /** The literal found does not depend on the order of iteration if and only if all the
      files that have one have the same. */
  lemma OrderIsImmaterialIff(files: seq<Module>, name: string)
    ensures (forall other | multiset(other) == multiset(files) :: ResolveIn(other, name) == ResolveIn(files, name))
            <==> Agreed(files, name)
  {
    hide FirstLiteral, ResolveIn;
    ResolvedInSome(files, name);
    if Agreed(files, name) {
      forall other | multiset(other) == multiset(files) ensures ResolveIn(other, name) == ResolveIn(files, name) {
        ResolvedInSome(other, name);
        assert forall m :: m in other <==> m in multiset(other);
        assert forall m :: m in files <==> m in multiset(files);
      }
    } else {
      var a, b :| a in files && b in files && FirstLiteral(a, name).Some? && FirstLiteral(b, name).Some?
                  && FirstLiteral(a, name) != FirstLiteral(b, name);
      var aFirst := MovedFirst(files, a);
      var bFirst := MovedFirst(files, b);
      FirstOfFirst(aFirst, name);
      FirstOfFirst(bFirst, name);
    }
  }

  lemma FirstOfFirst(files: seq<Module>, name: string)
    requires files != [] && FirstLiteral(files[0], name).Some?
    ensures ResolveIn(files, name) == FirstLiteral(files[0], name)
  {
  }

  /** What one statement adds to the simulated dictionary. */
  function Effect(stmt: Stmt, name: string, files: seq<Module>): (d: Dict) {
    if IsLiteralOf(stmt, name) then LiteralEntries(stmt.value.entries)
    else if stmt.Update? && stmt.dict == name && stmt.arg.NameArg? then
      var other := ResolveIn(files, stmt.arg.id);
      if other.Some? && other.value.DictLiteral? then LiteralEntries(other.value.entries) else map[]
    else if stmt.SetItem? && stmt.dict == name && stmt.key.Some? then map[stmt.key.value := stmt.item]
    else map[]
  }

  function Collected(m: Module, name: string, files: seq<Module>): (d: Dict)
  {
    if m == [] then map[] else Collected(m[..|m| - 1], name, files) + Effect(m[|m| - 1], name, files)
  }

  /** `_collect_skill_dict`. */
  method CollectSkillDict(main: Module, name: string, files: seq<Module>) returns (collected: Dict)
    ensures collected == Collected(main, name, files)
  {
    collected := map[];
    for i := 0 to |main|
      invariant collected == Collected(main[..i], name, files)
    {
      var stmt := main[i];
      assert main[..i + 1][..i] == main[..i];
      if stmt.Assign? && stmt.target == name && stmt.value.DictLiteral? {
        collected := collected + LiteralEntries(stmt.value.entries);
        continue;
      }
      if stmt.Update? && stmt.dict == name && stmt.arg.NameArg? {
        var other := ResolveDictLiteral(stmt.arg.id, files);
        if other.Some? && other.value.DictLiteral? {
          collected := collected + LiteralEntries(other.value.entries);
        }
        continue;
      }
      if stmt.SetItem? && stmt.dict == name && stmt.key.Some? {
        collected := collected[stmt.key.value := stmt.item];
      }
    }
    assert main[..|main|] == main;
  }

  // ----- Running the module -------------------------------------------------------

  /** A dict display at run time: its entries are put in one after another. */
  function RunEntries(d: Dict, entries: seq<(Option<string>, nat)>): (r: Dict)
    decreases |entries|
  {
    if entries == [] then d
    else RunEntries(if entries[0].0.Some? then d[entries[0].0.value := entries[0].1] else d, entries[1..])
  }

  lemma {:induction false} RunSplits(d: Dict, entries: seq<(Option<string>, nat)>)
    requires entries != []
    ensures var n, r := |entries| - 1, RunEntries(d, entries[..|entries| - 1]);
      RunEntries(d, entries) == if entries[n].0.Some? then r[entries[n].0.value := entries[n].1] else r
    decreases |entries|
  {
    if |entries| > 1 {
      RunSplits(if entries[0].0.Some? then d[entries[0].0.value := entries[0].1] else d, entries[1..]);
      assert entries[1..][..|entries| - 2] == entries[..|entries| - 1][1..];
    }
  }

  /** The script reads a literal as running it builds it. */
  lemma {:induction false} EntriesAreRun(entries: seq<(Option<string>, nat)>)
    ensures RunEntries(map[], entries) == LiteralEntries(entries)
    decreases |entries|
  {
    if entries != [] {
      EntriesAreRun(entries[..|entries| - 1]);
      RunSplits(map[], entries);
    }
  }

  /** What the module leaves in the dictionary; `others` is what the other
      dictionaries hold when they are merged in. None: not yet assigned. */
  function Execute(m: Module, name: string, others: map<string, Dict>): (d: Option<Dict>)
  {
    if m == [] then None
    else
      var d := Execute(m[..|m| - 1], name, others);
      var stmt := m[|m| - 1];
      if IsLiteralOf(stmt, name) then Some(RunEntries(map[], stmt.value.entries))
      else if stmt.Update? && stmt.dict == name && d.Some? && stmt.arg.NameArg? && stmt.arg.id in others
        then Some(d.value + others[stmt.arg.id])
      else if stmt.SetItem? && stmt.dict == name && d.Some? && stmt.key.Some?
        then Some(d.value[stmt.key.value := stmt.item])
      else d
  }

  predicate AllConstant(e: Expr) {
    e.DictLiteral? && forall i | 0 <= i < |e.entries| :: e.entries[i].0.Some?
  }

  /** Exactly one dict literal is assigned to `name` in all the files, and the
      dictionary of that name holds its entries when it is merged in. */
  ghost predicate NamesOneLiteral(name: string, files: seq<Module>, others: map<string, Dict>) {
    && name in others
    && (exists i, j | 0 <= i < |files| && 0 <= j < |files[i]| :: IsLiteralOf(files[i][j], name))
    && forall i, j | 0 <= i < |files| && 0 <= j < |files[i]| ::
         IsLiteralOf(files[i][j], name) ==>
           AllConstant(files[i][j].value) && others[name] == RunEntries(map[], files[i][j].value.entries)
  }

  /** A statement about the dictionary that the simulation can read. */
  ghost predicate Readable(stmt: Stmt, name: string, files: seq<Module>, others: map<string, Dict>) {
    && (stmt.Assign? && stmt.target == name ==> AllConstant(stmt.value))
    && (stmt.Update? && stmt.dict == name ==> stmt.arg.NameArg? && NamesOneLiteral(stmt.arg.id, files, others))
    && (stmt.SetItem? && stmt.dict == name ==> stmt.key.Some?)
  }

  predicate Touches(stmt: Stmt, name: string) {
    || (stmt.Assign? && stmt.target == name)
    || (stmt.Update? && stmt.dict == name)
    || (stmt.SetItem? && stmt.dict == name)
  }

  /** The literal found is the one literal there is, in whatever order the
      set of files is iterated. */
  lemma {:induction false} ResolvesTheLiteral(name: string, files: seq<Module>, others: map<string, Dict>)
    requires NamesOneLiteral(name, files, others)
    ensures var r := ResolveIn(files, name);
            r.Some? && r.value.DictLiteral? && LiteralEntries(r.value.entries) == others[name]
    decreases |files|
  {
    if FirstLiteral(files[0], name).Some? {
      EntriesAreRun(FirstLiteral(files[0], name).value.entries);
    } else {
      var i, j :| 0 <= i < |files| && 0 <= j < |files[i]| && IsLiteralOf(files[i][j], name);
      assert i > 0;
      assert IsLiteralOf(files[1..][i - 1][j], name);
      assert forall k | 0 <= k < |files| - 1 :: files[1..][k] == files[k + 1];
      ResolvesTheLiteral(name, files[1..], others);
    }
  }

  /** The simulation only ever merges, so it splits at any statement. */
  lemma {:induction false} CollectedSplits(a: Module, b: Module, name: string, files: seq<Module>)
    ensures Collected(a + b, name, files) == Collected(a, name, files) + Collected(b, name, files)
    decreases |b|
  {
    hide Effect;
    if b == [] {
      assert a + b == a;
    } else {
      var last := |b| - 1;
      assert (a + b)[..|a + b| - 1] == a + b[..last];
      CollectedSplits(a, b[..last], name, files);
      var x, y, z := Collected(a, name, files), Collected(b[..last], name, files), Effect(b[last], name, files);
      assert x + y + z == x + (y + z);
    }
  }

  /** From an assignment on, readable statements are simulated step by step. */
  lemma {:induction false} SimulatesFromLiteral(before: Module, from: Module, name: string, files: seq<Module>,
      others: map<string, Dict>)
    requires from != [] && IsLiteralOf(from[0], name)
    requires forall i | 0 <= i < |from| :: Readable(from[i], name, files, others)
    requires forall i | 1 <= i < |from| :: !IsLiteralOf(from[i], name)
    ensures Execute(before + from, name, others) == Some(Collected(from, name, files))
    decreases |from|
  {
    var last := |from| - 1;
    assert (before + from)[..|before + from| - 1] == before + from[..last];
    if last == 0 {
      EntriesAreRun(from[0].value.entries);
      assert from[..0] == [];
      assert map[] + Effect(from[0], name, files) == Effect(from[0], name, files);
    } else {
      SimulatesFromLiteral(before, from[..last], name, files, others);
      var stmt := from[last];
      if stmt.Update? && stmt.dict == name {
        ResolvesTheLiteral(stmt.arg.id, files, others);
      }
      var d := Collected(from[..last], name, files);
      if stmt.SetItem? && stmt.dict == name {
        assert d + map[stmt.key.value := stmt.item] == d[stmt.key.value := stmt.item];
      }
      assert d + map[] == d;
    }
  }

  lemma {:induction false} UntouchedCollectsNothing(m: Module, name: string, files: seq<Module>)
    requires forall i | 0 <= i < |m| :: !Touches(m[i], name)
    ensures Collected(m, name, files) == map[]
    decreases |m|
  {
    if m != [] {
      UntouchedCollectsNothing(m[..|m| - 1], name, files);
    }
  }

  /** Refinement: for a module that assigns the dict literal once, before
      anything else it does to the dictionary, the simulation returns exactly
      what running the module leaves there, later writes winning. */
  lemma SimulationRefinesExecution(before: Module, from: Module, name: string, files: seq<Module>,
      others: map<string, Dict>)
    requires forall i | 0 <= i < |before| :: !Touches(before[i], name)
    requires from != [] && IsLiteralOf(from[0], name)
    requires forall i | 0 <= i < |from| :: Readable(from[i], name, files, others)
    requires forall i | 1 <= i < |from| :: !IsLiteralOf(from[i], name)
    ensures Execute(before + from, name, others) == Some(Collected(before + from, name, files))
  {
    SimulatesFromLiteral(before, from, name, files, others);
    CollectedSplits(before, from, name, files);
    UntouchedCollectsNothing(before, name, files);
    assert map[] + Collected(from, name, files) == Collected(from, name, files);
  }

  /** A module that assigns the literal again is simulated as a merge, not as a
      replacement: the result is right exactly when every key written before
      the last assignment is written again from there on. */
  lemma ReassignmentSimulatedIff(before: Module, from: Module, name: string, files: seq<Module>,
      others: map<string, Dict>)
    requires from != [] && IsLiteralOf(from[0], name)
    requires forall i | 0 <= i < |from| :: Readable(from[i], name, files, others)
    requires forall i | 1 <= i < |from| :: !IsLiteralOf(from[i], name)
    ensures Execute(before + from, name, others) == Some(Collected(before + from, name, files)) <==>
            Collected(before, name, files).Keys <= Collected(from, name, files).Keys
  {
    SimulatesFromLiteral(before, from, name, files, others);
    CollectedSplits(before, from, name, files);
    var x, y := Collected(before, name, files), Collected(from, name, files);
    if x.Keys <= y.Keys {
      assert x + y == y;
    } else {
      var key :| key in x.Keys && key !in y.Keys;
      assert key in x + y;
    }
  }
}
