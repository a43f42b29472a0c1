/** `scripts/response_envelope_lint.py`: the two-pass scan for success responses that
    carry an unexamined best-effort result. Parsed modules are the input. */
module EnvelopeLint {
  import PyText
  import opened EnvelopeNames
  import opened EnvelopeTree
  import opened Wrappers

  /** A target file; `tree` is absent when it does not parse. */
  datatype File = File(path: string, lines: seq<string>, tree: Option<Node>)

  datatype Finding = Finding(path: string, line: int, key: string, func: string)

  const ALLOW_MARKER := "envelope-ok:"

  // ----- The payload of a response call ------------------------------------------------------

  predicate Assigns(n: Node, name: string) {
    || (n.Assign? && n.bound.Dict? && exists i | 0 <= i < |n.targets| :: NameOf(n.targets[i]) == Some(name))
    || (n.AnnAssign? && n.init.Some? && n.init.value.Dict? && NameOf(n.target) == Some(name))
  }

  function LastAssigned(nodes: seq<Node>, name: string): (r: Option<Node>)
    ensures r.Some? ==> r.value.Dict?
  {
    if nodes == [] then None
    else
      var n := nodes[|nodes| - 1];
      if Assigns(n, name) then Some(if n.Assign? then n.bound else n.init.value)
      else LastAssigned(nodes[..|nodes| - 1], name)
  }

  function DictLiteralFor(func: Node, arg: Node): (r: Option<Node>)
    ensures r.Some? ==> r.value.Dict?
  {
    if arg.Dict? then Some(arg)
    else if NameOf(arg).None? then None
    else LastAssigned(Walk([func]), NameOf(arg).value)
  }

  function DataKeyword(ks: seq<Keyword>): (r: Option<Node>) {
    if ks == [] then None else if ks[0].arg == Some("data") then Some(ks[0].value) else DataKeyword(ks[1..])
  }

  predicate Degraded(ks: seq<Keyword>) {
    exists i | 0 <= i < |ks| :: ks[i].arg == Some("degraded")
  }

  /** `_response_payload`: the `data` keyword, or the third positional argument. */
  function ResponsePayload(func: Node, call: Node): (r: Option<Node>)
    ensures r.Some? ==> r.value.Dict?
  {
    if !call.Call? || NameOf(call.callee) != Some("success_response") || Degraded(call.keywords) then None
    else
      var data := DataKeyword(call.keywords);
      if data.Some? then DictLiteralFor(func, data.value)
      else if |call.args| > 2 then DictLiteralFor(func, call.args[2])
      else None
  }

  /** The call is a response that is not marked degraded. */
  ghost predicate IsResponse(call: Node) {
    && call.Call?
    && (call.callee.Name? || call.callee.Attribute?)
    && (if call.callee.Name? then call.callee.id else call.callee.attr) == "success_response"
    && forall k | k in call.keywords :: k.arg != Some("degraded")
  }

  /** Keyword `i` is the first to pass `data`. */
  ghost predicate FirstData(ks: seq<Keyword>, i: nat) {
    i < |ks| && ks[i].arg == Some("data") && forall j | 0 <= j < i :: ks[j].arg != Some("data")
  }

  /** `arg` is what the call passes as its payload: the first `data` keyword, or else the
      argument behind the tool and the elapsed time. */
  ghost predicate PassesPayload(call: Node, arg: Node) {
    && call.Call?
    && ((exists i: nat :: FirstData(call.keywords, i) && call.keywords[i].value == arg)
        || ((forall k | k in call.keywords :: k.arg != Some("data"))
            && exists tool, elapsed, rest :: call.args == [tool, elapsed, arg] + rest))
  }

  lemma {:induction false} DataKeywordIs(ks: seq<Keyword>)
    ensures DataKeyword(ks).None? <==> forall k | k in ks :: k.arg != Some("data")
    ensures DataKeyword(ks).Some? ==> exists i: nat :: FirstData(ks, i) && ks[i].value == DataKeyword(ks).value
    decreases |ks|
  {
    if ks != [] {
      assert forall k :: k in ks <==> k == ks[0] || k in ks[1..];
      DataKeywordIs(ks[1..]);
      if ks[0].arg == Some("data") {
        assert FirstData(ks, 0);
      } else if DataKeyword(ks).Some? {
        var i: nat :| FirstData(ks[1..], i) && ks[1..][i].value == DataKeyword(ks[1..]).value;
        assert forall j | 1 <= j < i + 1 :: ks[1..][j - 1] == ks[j];
        assert FirstData(ks, i + 1);
      }
    }
  }

  lemma FirstIsMember(ks: seq<Keyword>, i: nat)
    requires FirstData(ks, i)
    ensures ks[i] in ks
  {
  }

  /** A call passes one payload at most. */
  lemma PassesOne(call: Node, a: Node, b: Node)
    requires PassesPayload(call, a) && PassesPayload(call, b)
    ensures a == b
  {
    var ks := call.keywords;
    if i: nat :| FirstData(ks, i) {
      FirstIsMember(ks, i);
      var m: nat :| FirstData(ks, m) && ks[m].value == a;
      var n: nat :| FirstData(ks, n) && ks[n].value == b;
    } else {
      assert call.args[2] == a && call.args[2] == b;
    }
  }

  /** The payload examined, from the call's shape alone. */
  lemma PayloadIff(func: Node, call: Node, d: Node)
    ensures ResponsePayload(func, call) == Some(d) <==>
              IsResponse(call) && exists arg :: PassesPayload(call, arg) && DictLiteralFor(func, arg) == Some(d)
  {
    hide DictLiteralFor;
    if call.Call? {
      DataKeywordIs(call.keywords);
      ResponseIff(call);
      hide DataKeyword, Degraded, NameOf;
      if IsResponse(call) {
        var data := DataKeyword(call.keywords);
        if data.None? && |call.args| > 2 {
          assert call.args == [call.args[0], call.args[1], call.args[2]] + call.args[3..];
          assert PassesPayload(call, call.args[2]);
        }
        if arg :| PassesPayload(call, arg) && DictLiteralFor(func, arg) == Some(d) {
          if data.Some? {
            PassesOne(call, arg, data.value);
          } else {
            assert |call.args| > 2;
            PassesOne(call, arg, call.args[2]);
          }
        }
      }
    }
  }

  lemma ResponseIff(call: Node)
    requires call.Call?
    ensures IsResponse(call) <==> NameOf(call.callee) == Some("success_response") && !Degraded(call.keywords)
  {
    if k :| k in call.keywords && k.arg == Some("degraded") {
      var i :| 0 <= i < |call.keywords| && call.keywords[i] == k;
    }
    if i :| 0 <= i < |call.keywords| && call.keywords[i].arg == Some("degraded") {
      assert call.keywords[i] in call.keywords;
    }
  }

  // ----- Sites and findings ----------------------------------------------------------------------

  /** A named value entering a response payload, whatever the fields known. */
  datatype Site = Site(token: string, line: int, key: string, func: string, examined: bool)

  function KeyName(key: Option<Node>, fallback: string): (r: string) {
    if key.Some? && key.value.Literal? then key.value.text else fallback
  }

  function EntrySites(d: Node, n: nat, func: string, examined: set<string>): (r: seq<Site>)
    requires d.Dict? && n <= |d.keys| && n <= |d.values|
  {
    if n == 0 then []
    else
      var token := NameOf(d.values[n - 1]);
      EntrySites(d, n - 1, func, examined)
      + if token.None? then []
        else [Site(token.value, d.values[n - 1].line, KeyName(d.keys[n - 1], token.value), func,
            token.value in examined)]
  }

  function Paired(d: Node): (n: nat)
    requires d.Dict?
  {
    if |d.keys| < |d.values| then |d.keys| else |d.values|
  }

  function CallSites(func: Node, nodes: seq<Node>): (r: seq<Site>)
    requires func.Function?
    decreases |nodes|
  {
    if nodes == [] then []
    else
      var payload := ResponsePayload(func, nodes[|nodes| - 1]);
      CallSites(func, nodes[..|nodes| - 1])
      + if payload.None? then [] else EntrySites(payload.value, Paired(payload.value), func.name, Examined(func))
  }

  function FunctionSites(nodes: seq<Node>): (r: seq<Site>) {
    if nodes == [] then []
    else
      var func := nodes[|nodes| - 1];
      FunctionSites(nodes[..|nodes| - 1]) + if func.Function? then CallSites(func, Walk([func])) else []
  }

  function SitesOf(tree: Node): (r: seq<Site>) {
    FunctionSites(Walk([tree]))
  }

  /** The text after the first marker on a line. */
  function ReasonOn(line: string): (r: Option<string>) {
    if ALLOW_MARKER <= line then Some(PyText.Strip(line[|ALLOW_MARKER|..]))
    else if line == [] then None
    else ReasonOn(line[1..])
  }

  function Allowlisted(lines: seq<string>, line: int): (r: Option<string>) {
    if 1 <= line <= |lines| then ReasonOn(lines[line - 1]) else None
  }

  /** The line holds the mark at `i` first, and `reason` is the rest of it, stripped. */
  ghost predicate MarkedAt(line: string, i: nat, reason: string) {
    && i <= |line| && ALLOW_MARKER <= line[i..]
    && (forall j | 0 <= j < i :: !(ALLOW_MARKER <= line[j..]))
    && reason == PyText.Strip(line[i + |ALLOW_MARKER|..])
  }

  lemma {:induction false} ReasonIff(line: string, reason: string)
    ensures ReasonOn(line) == Some(reason) <==> exists i: nat :: MarkedAt(line, i, reason)
    decreases |line|
  {
    hide PyText.Strip;
    assert line[0..] == line && |ALLOW_MARKER| == 12;
    if ALLOW_MARKER <= line {
      assert line[0 + |ALLOW_MARKER|..] == line[|ALLOW_MARKER|..];
      if ReasonOn(line) == Some(reason) {
        assert MarkedAt(line, 0, reason);
      }
    } else if line != "" {
      ReasonIff(line[1..], reason);
      assert forall j | 1 <= j <= |line| :: line[1..][j - 1..] == line[j..];
      if i: nat :| MarkedAt(line, i, reason) {
        assert i > 0 && line[1..][i - 1 + |ALLOW_MARKER|..] == line[i + |ALLOW_MARKER|..];
        assert forall j | 0 <= j < i - 1 :: line[1..][j..] == line[j + 1..];
        assert MarkedAt(line[1..], i - 1, reason);
      }
      if i: nat :| MarkedAt(line[1..], i, reason) {
        assert line[1..][i..] == line[i + 1..] && line[1..][i + |ALLOW_MARKER|..] == line[i + 1 + |ALLOW_MARKER|..];
        assert forall j | 1 <= j < i + 1 :: line[1..][j - 1..] == line[j..];
        assert MarkedAt(line, i + 1, reason);
      }
    }
  }

  function Report(file: File, fields: set<string>, s: Site): (r: Option<Finding>) {
    if s.token !in fields || s.examined then None
    else
      var mark := Allowlisted(file.lines, s.line);
      if mark.Some? && mark.value != "" then None
      else
        Some(Finding(file.path, s.line, if mark.Some? then s.key + " (allowlisted with no reason)" else s.key, s.func))
  }

  function Reports(file: File, fields: set<string>, sites: seq<Site>): (r: seq<Finding>) {
    if sites == [] then []
    else
      var last := Report(file, fields, sites[|sites| - 1]);
      Reports(file, fields, sites[..|sites| - 1]) + if last.Some? then [last.value] else []
  }

  lemma {:induction false} ReportsConcat(file: File, fields: set<string>, a: seq<Site>, b: seq<Site>)
    ensures Reports(file, fields, a + b) == Reports(file, fields, a) + Reports(file, fields, b)
    decreases |b|
  {
    hide Report;
    if b == [] {
      assert a + b == a;
    } else {
      assert (a + b)[..|a + b| - 1] == a + b[..|b| - 1];
      ReportsConcat(file, fields, a, b[..|b| - 1]);
    }
  }

  lemma ReportsOneMore(file: File, fields: set<string>, sites: seq<Site>, s: Site)
    ensures Reports(file, fields, sites + [s]) ==
              Reports(file, fields, sites)
              + if Report(file, fields, s).Some? then [Report(file, fields, s).value] else []
  {
    assert (sites + [s])[..|sites|] == sites;
  }

  /** `_check_function`: its inner loop, over one payload. */
  method CheckPayload(d: Node, func: string, examined: set<string>, file: File, fields: set<string>)
    returns (findings: seq<Finding>)
    requires d.Dict?
    ensures findings == Reports(file, fields, EntrySites(d, Paired(d), func, examined))
  {
    hide Report, KeyName, NameOf, Reports;
    findings := [];
    NoSites(file, fields);
    for j := 0 to Paired(d)
      invariant findings == Reports(file, fields, EntrySites(d, j, func, examined))
    {
      var token := NameOf(d.values[j]);
      if token.None? {
        assert EntrySites(d, j + 1, func, examined) == EntrySites(d, j, func, examined);
        continue;
      }
      var site := Site(token.value, d.values[j].line, KeyName(d.keys[j], token.value), func, token.value in examined);
      assert EntrySites(d, j + 1, func, examined) == EntrySites(d, j, func, examined) + [site];
      ReportsOneMore(file, fields, EntrySites(d, j, func, examined), site);
      var found := Report(file, fields, site);
      if found.Some? {
        findings := findings + [found.value];
      }
    }
  }

  lemma NoSites(file: File, fields: set<string>)
    ensures Reports(file, fields, []) == []
  {
  }

  /** `_check_function`: its outer loop, over the calls. */
  method CheckFunction(func: Node, file: File, fields: set<string>) returns (findings: seq<Finding>)
    requires func.Function?
    ensures findings == Reports(file, fields, CallSites(func, Walk([func])))
  {
    hide Walk, Reports, Examined, ResponsePayload, EntrySites, NameOf;
    var examined := TokensInConditions(func);
    findings := [];
    NoSites(file, fields);
    var nodes := Walk([func]);
    for i := 0 to |nodes|
      invariant findings == Reports(file, fields, CallSites(func, nodes[..i]))
    {
      assert nodes[..i + 1][..i] == nodes[..i];
      var payload := ResponsePayload(func, nodes[i]);
      if payload.None? {
        assert CallSites(func, nodes[..i + 1]) == CallSites(func, nodes[..i]);
        continue;
      }
      var found := CheckPayload(payload.value, func.name, examined, file, fields);
      findings := findings + found;
      ReportsConcat(file, fields, CallSites(func, nodes[..i]),
          EntrySites(payload.value, Paired(payload.value), func.name, examined));
    }
    assert nodes[..|nodes|] == nodes;
  }

  function Findings(file: File, fields: set<string>): (r: seq<Finding>) {
    if file.tree.None? then [] else Reports(file, fields, SitesOf(file.tree.value))
  }

  lemma {:induction false} NothingKnown(file: File, sites: seq<Site>)
    ensures Reports(file, {}, sites) == []
    decreases |sites|
  {
    if sites != [] {
      NothingKnown(file, sites[..|sites| - 1]);
    }
  }

  function FieldsOf(file: File): (r: set<string>) {
    if file.tree.None? then {} else ClassFields(Walk([file.tree.value]))
  }

  /** `check_source`: fields of other modules count like the module's own. */
  method CheckSource(file: File, known: set<string>) returns (findings: seq<Finding>)
    ensures findings == Findings(file, FieldsOf(file) + known)
  {
    hide Walk, ClassFields, Reports, CallSites;
    if file.tree.None? {
      return [];
    }
    var own := CollectBestEffortFields(file.tree.value);
    var bestEffort := own + known;
    if bestEffort == {} {
      NothingKnown(file, SitesOf(file.tree.value));
      return [];
    }
    findings := [];
    NoSites(file, bestEffort);
    var nodes := Walk([file.tree.value]);
    for i := 0 to |nodes|
      invariant findings == Reports(file, bestEffort, FunctionSites(nodes[..i]))
    {
      assert nodes[..i + 1][..i] == nodes[..i];
      if nodes[i].Function? {
        var found := CheckFunction(nodes[i], file, bestEffort);
        findings := findings + found;
        ReportsConcat(file, bestEffort, FunctionSites(nodes[..i]), CallSites(nodes[i], Walk([nodes[i]])));
      } else {
        assert FunctionSites(nodes[..i + 1]) == FunctionSites(nodes[..i]);
      }
    }
    assert nodes[..|nodes|] == nodes;
  }

  // ----- The sweep ------------------------------------------------------------------------------

  function KnownFields(files: seq<File>): (r: set<string>) {
    if files == [] then {} else KnownFields(files[..|files| - 1]) + FieldsOf(files[|files| - 1])
  }

  function AllFindings(files: seq<File>, fields: set<string>): (r: seq<Finding>) {
    if files == [] then [] else AllFindings(files[..|files| - 1], fields) + Findings(files[|files| - 1], fields)
  }

  function Sweep(files: seq<File>): (r: seq<Finding>) {
    AllFindings(files, KnownFields(files))
  }

  /** A class of one of the files declares the field. */
  ghost predicate SomeFileDeclares(files: seq<File>, field: string) {
    exists file :: file in files && file.tree.Some? && DeclaresBelow(file.tree.value, field)
  }

  lemma {:induction false} KnownFieldsIff(files: seq<File>, f: string)
    ensures f in KnownFields(files) <==> SomeFileDeclares(files, f)
    decreases |files|
  {
    hide Walk, ClassFields, DeclaresBelow;
    if files != [] {
      var front, last := files[..|files| - 1], files[|files| - 1];
      assert files == front + [last];
      KnownFieldsIff(front, f);
      if last.tree.Some? {
        FieldsIff(last.tree.value, f);
      }
    }
  }

  /** `run_sweep`: every file against the fields declared in any of them. */
  method RunSweep(files: seq<File>) returns (findings: seq<Finding>)
    ensures findings == Sweep(files)
  {
    hide Walk, ClassFields, Findings;
    var known: set<string> := {};
    for i := 0 to |files|
      invariant known == KnownFields(files[..i])
    {
      assert files[..i + 1][..i] == files[..i];
      if files[i].tree.Some? {
        var own := CollectBestEffortFields(files[i].tree.value);
        known := known + own;
      }
    }
    assert files[..|files|] == files;
    findings := [];
    for i := 0 to |files|
      invariant findings == AllFindings(files[..i], known)
    {
      var found := CheckSource(files[i], known);
      OwnFieldsKnown(files, i);
      assert FieldsOf(files[i]) + known == known;
      assert files[..i + 1][..i] == files[..i];
      findings := findings + found;
    }
  }

  lemma {:induction false} OwnFieldsKnown(files: seq<File>, i: nat)
    requires i < |files|
    ensures FieldsOf(files[i]) <= KnownFields(files)
    decreases |files|
  {
    hide FieldsOf;
    if i < |files| - 1 {
      OwnFieldsKnown(files[..|files| - 1], i);
    }
  }

  // ----- What the sweep finds --------------------------------------------------------------------

  ghost predicate IsFinding(file: File, fields: set<string>, f: Finding) {
    file.tree.Some? && exists s :: s in SitesOf(file.tree.value) && Report(file, fields, s) == Some(f)
  }

  /** `s` is entry `k` of the payload of `call`, in `func`. */
  ghost predicate IsEntry(func: Node, call: Node, k: nat, s: Site) {
    && func.Function?
    && var d := ResponsePayload(func, call);
       d.Some? && k < Paired(d.value)
       && s == Site(s.token, d.value.values[k].line, KeyName(d.value.keys[k], s.token), func.name,
           s.token in Examined(func))
       && NameOf(d.value.values[k]) == Some(s.token)
  }

  lemma {:induction false} EntrySitesIff(d: Node, n: nat, func: string, examined: set<string>, s: Site)
    requires d.Dict? && n <= |d.keys| && n <= |d.values|
    ensures s in EntrySites(d, n, func, examined) <==>
              exists k: nat :: k < n && NameOf(d.values[k]) == Some(s.token)
                && s == Site(s.token, d.values[k].line, KeyName(d.keys[k], s.token), func, s.token in examined)
  {
    hide NameOf, KeyName;
    if n > 0 {
      EntrySitesIff(d, n - 1, func, examined, s);
    }
  }

  lemma {:induction false} CallSitesIff(func: Node, nodes: seq<Node>, s: Site)
    requires func.Function?
    ensures s in CallSites(func, nodes) <==> exists j, k: nat :: 0 <= j < |nodes| && IsEntry(func, nodes[j], k, s)
    decreases |nodes|
  {
    hide EntrySites, ResponsePayload, Examined, NameOf, KeyName, Walk;
    if nodes != [] {
      var n := |nodes| - 1;
      var front := nodes[..n];
      CallSitesIff(func, front, s);
      LastCallSites(func, nodes[n], s);
      if j, k: nat :| 0 <= j < |front| && IsEntry(func, front[j], k, s) {
        assert IsEntry(func, nodes[j], k, s);
      }
      if j, k: nat :| 0 <= j < |nodes| && IsEntry(func, nodes[j], k, s) {
        assert j < n ==> IsEntry(func, front[j], k, s);
      }
    }
  }

  lemma LastCallSites(func: Node, call: Node, s: Site)
    requires func.Function?
    ensures (exists k: nat :: IsEntry(func, call, k, s)) <==>
              var d := ResponsePayload(func, call);
              d.Some? && s in EntrySites(d.value, Paired(d.value), func.name, Examined(func))
  {
    hide ResponsePayload, Examined, NameOf, KeyName, EntrySites;
    var d := ResponsePayload(func, call);
    if d.Some? {
      EntrySitesIff(d.value, Paired(d.value), func.name, Examined(func), s);
      if k: nat :| k < Paired(d.value) && NameOf(d.value.values[k]) == Some(s.token)
                   && s == Site(s.token, d.value.values[k].line, KeyName(d.value.keys[k], s.token), func.name,
                       s.token in Examined(func)) {
        assert IsEntry(func, call, k, s);
      }
    }
  }

  lemma {:induction false} FunctionSitesIff(nodes: seq<Node>, s: Site)
    ensures s in FunctionSites(nodes) <==>
              exists i :: 0 <= i < |nodes| && nodes[i].Function? && s in CallSites(nodes[i], Walk([nodes[i]]))
    decreases |nodes|
  {
    hide CallSites, Walk;
    if nodes != [] {
      var n := |nodes| - 1;
      var front := nodes[..n];
      FunctionSitesIff(front, s);
      if i :| 0 <= i < |front| && front[i].Function? && s in CallSites(front[i], Walk([front[i]])) {
        assert nodes[i] == front[i];
      }
      if i :| 0 <= i < |nodes| && nodes[i].Function? && s in CallSites(nodes[i], Walk([nodes[i]])) {
        assert i < n ==> front[i] == nodes[i];
      }
    }
  }

  /** The sites of a module: for each function in it, each response call within that
      function whose payload resolves, and each named value of that payload. */
  lemma SitesIff(tree: Node, s: Site)
    ensures s in SitesOf(tree) <==>
              exists func, call, k: nat ::
                func in Walk([tree]) && func.Function? && call in Walk([func]) && IsEntry(func, call, k, s)
  {
    hide CallSites, Walk, IsEntry, FunctionSites;
    var nodes := Walk([tree]);
    FunctionSitesIff(nodes, s);
    if i :| 0 <= i < |nodes| && nodes[i].Function? && s in CallSites(nodes[i], Walk([nodes[i]])) {
      var func := nodes[i];
      CallSitesIff(func, Walk([func]), s);
      var j, k: nat :| 0 <= j < |Walk([func])| && IsEntry(func, Walk([func])[j], k, s);
      assert func in nodes && Walk([func])[j] in Walk([func]);
    }
    if func, call, k: nat :| func in nodes && func.Function? && call in Walk([func]) && IsEntry(func, call, k, s) {
      CallSitesIff(func, Walk([func]), s);
      var i :| 0 <= i < |nodes| && nodes[i] == func;
      var j :| 0 <= j < |Walk([func])| && Walk([func])[j] == call;
      assert IsEntry(func, Walk([func])[j], k, s);
    }
  }

  lemma {:induction false} ReportsMembers(file: File, fields: set<string>, sites: seq<Site>)
    ensures forall f :: f in Reports(file, fields, sites) <==>
              exists s :: s in sites && Report(file, fields, s) == Some(f)
    decreases |sites|
  {
    hide Report;
    if sites != [] {
      var front, last := sites[..|sites| - 1], sites[|sites| - 1];
      ReportsMembers(file, fields, front);
      assert sites == front + [last];
      forall f ensures f in Reports(file, fields, sites) <==>
          exists s :: s in sites && Report(file, fields, s) == Some(f) {
        if f in Reports(file, fields, sites) && f !in Reports(file, fields, front) {
          assert last in sites;
        }
      }
    }
  }

  lemma {:induction false} FoundIff(files: seq<File>, known: set<string>, f: Finding)
    ensures f in AllFindings(files, known) <==> exists i | 0 <= i < |files| :: IsFinding(files[i], known, f)
    decreases |files|
  {
    hide Report, SitesOf;
    if files != [] {
      var front, last := files[..|files| - 1], files[|files| - 1];
      FoundIff(front, known, f);
      if last.tree.Some? {
        ReportsMembers(last, known, SitesOf(last.tree.value));
      }
      assert f in Findings(last, known) <==> IsFinding(last, known, f);
      if i :| 0 <= i < |front| && IsFinding(front[i], known, f) {
        assert IsFinding(files[i], known, f);
      }
      if i :| 0 <= i < |files| && IsFinding(files[i], known, f) {
        assert i < |front| ==> IsFinding(front[i], known, f);
      }
    }
  }

  lemma {:induction false} ReportsMonotone(file: File, fewer: set<string>, more: set<string>, sites: seq<Site>)
    requires fewer <= more
    ensures multiset(Reports(file, fewer, sites)) <= multiset(Reports(file, more, sites))
    decreases |sites|
  {
    if sites != [] {
      ReportsMonotone(file, fewer, more, sites[..|sites| - 1]);
    }
  }

  lemma {:induction false} AllFindingsMonotone(files: seq<File>, fewer: set<string>, more: set<string>)
    requires fewer <= more
    ensures multiset(AllFindings(files, fewer)) <= multiset(AllFindings(files, more))
    decreases |files|
  {
    hide Reports, SitesOf;
    if files != [] {
      AllFindingsMonotone(files[..|files| - 1], fewer, more);
      var last := files[|files| - 1];
      if last.tree.Some? {
        ReportsMonotone(last, fewer, more, SitesOf(last.tree.value));
      }
    }
  }

  lemma {:induction false} AllFindingsConcat(a: seq<File>, b: seq<File>, known: set<string>)
    ensures AllFindings(a + b, known) == AllFindings(a, known) + AllFindings(b, known)
    decreases |b|
  {
    hide Findings;
    if b == [] {
      assert a + b == a;
    } else {
      assert (a + b)[..|a + b| - 1] == a + b[..|b| - 1];
      AllFindingsConcat(a, b[..|b| - 1], known);
    }
  }

  lemma {:induction false} KnownConcat(a: seq<File>, b: seq<File>)
    ensures KnownFields(a + b) == KnownFields(a) + KnownFields(b)
    decreases |b|
  {
    hide FieldsOf;
    if b == [] {
      assert a + b == a;
    } else {
      assert (a + b)[..|a + b| - 1] == a + b[..|b| - 1];
      KnownConcat(a, b[..|b| - 1]);
    }
  }

  /** Scanning more files never loses a finding: not even one of a file scanned alone. */
  lemma SweepOnlyGrows(before: seq<File>, files: seq<File>, after: seq<File>)
    ensures multiset(Sweep(files)) <= multiset(Sweep(before + files + after))
  {
    hide AllFindings, KnownFields;
    KnownConcat(before + files, after);
    KnownConcat(before, files);
    var known := KnownFields(before + files + after);
    AllFindingsMonotone(files, KnownFields(files), known);
    AllFindingsConcat(before + files, after, known);
    AllFindingsConcat(before, files, known);
  }

  /** The order of the files does not matter. */
  lemma SweepIgnoresOrder(files: seq<File>, others: seq<File>)
    requires multiset(files) == multiset(others)
    ensures multiset(Sweep(files)) == multiset(Sweep(others))
  {
    hide AllFindings, KnownFields;
    SameFieldsKnown(files, others);
    SameFieldsKnown(others, files);
    assert KnownFields(files) == KnownFields(others);
    FindingsIgnoreOrder(files, others, KnownFields(files));
  }

  lemma {:induction false} FindingsIgnoreOrder(files: seq<File>, others: seq<File>, known: set<string>)
    requires multiset(files) == multiset(others)
    ensures multiset(AllFindings(files, known)) == multiset(AllFindings(others, known))
    decreases |files|
  {
    hide Findings;
    if files == [] {
      assert |multiset(others)| == |multiset(files)|;
    } else {
      var front, last := files[..|files| - 1], files[|files| - 1];
      assert multiset(files) == multiset(front) + multiset{last} by {
        assert files == front + [last];
      }
      assert last in multiset(others);
      var i :| 0 <= i < |others| && others[i] == last;
      WithoutOne(others, i);
      var rest := others[..i] + others[i + 1..];
      assert multiset(front) == multiset(others) - multiset{last} == multiset(rest);
      FindingsIgnoreOrder(front, rest, known);
      FindingsWithoutOne(others, i, known);
    }
  }

  lemma WithoutOne(files: seq<File>, i: nat)
    requires i < |files|
    ensures multiset(files) == multiset(files[..i] + files[i + 1..]) + multiset{files[i]}
  {
    assert files == files[..i] + [files[i]] + files[i + 1..];
  }

  lemma FindingsWithoutOne(files: seq<File>, i: nat, known: set<string>)
    requires i < |files|
    ensures multiset(AllFindings(files, known)) ==
              multiset(AllFindings(files[..i] + files[i + 1..], known)) + multiset(Findings(files[i], known))
  {
    hide Findings;
    var one := [files[i]];
    assert files == files[..i] + one + files[i + 1..];
    AllFindingsConcat(files[..i] + one, files[i + 1..], known);
    AllFindingsConcat(files[..i], one, known);
    AllFindingsConcat(files[..i], files[i + 1..], known);
    assert one[..0] == [];
    assert AllFindings(one, known) == Findings(files[i], known);
  }

  lemma SameFieldsKnown(files: seq<File>, others: seq<File>)
    requires multiset(files) == multiset(others)
    ensures KnownFields(files) <= KnownFields(others)
  {
    hide DeclaresBelow, KnownFields;
    forall f | f in KnownFields(files) ensures f in KnownFields(others) {
      KnownFieldsIff(files, f);
      KnownFieldsIff(others, f);
      var file :| file in files && file.tree.Some? && DeclaresBelow(file.tree.value, f);
      assert file in multiset(files);
      assert file in multiset(others);
    }
  }
}
