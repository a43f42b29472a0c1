/** What the sweep of `EnvelopeLint` finds, in terms of the trees alone: of what lies
    below what, not of the walks and folds that look for it. */
module EnvelopeFindings {
  import opened EnvelopeLint
  import opened EnvelopeNames
  import opened EnvelopePayload
  import opened EnvelopeTree
  import opened Wrappers

  ghost predicate Marked(text: string, reason: string) {
    exists i: nat :: MarkedAt(text, i, reason)
  }

  /** Line `line` carries the mark, first of all with `reason` behind it. */
  ghost predicate MarkOn(lines: seq<string>, line: int, reason: string) {
    1 <= line <= |lines| && Marked(lines[line - 1], reason)
  }

  /** The name an entry is reported under: its key if that is a text, or else the name of
      its value. */
  ghost predicate ReportedUnder(key: Option<Node>, token: string, text: string) {
    text == if key.Some? && key.value.Literal? then key.value.text else token
  }

  /** Entry `k` of the dict literal pairs a key with a value named `token`. */
  ghost predicate Pairs(d: Node, k: nat, token: string) {
    d.Dict? && k < |d.keys| && k < |d.values| && IsNamed(d.values[k], token)
  }

  /** How a reported entry is worded: it has no mark, or one without a reason. */
  ghost predicate WordedAs(lines: seq<string>, d: Node, k: nat, token: string, f: Finding)
    requires Pairs(d, k, token)
  {
    && f.line == d.values[k].line
    && (forall reason :: MarkOn(lines, f.line, reason) ==> reason == "")
    && exists key :: ReportedUnder(d.keys[k], token, key)
                     && f.key == key + if MarkOn(lines, f.line, "") then " (allowlisted with no reason)" else ""
  }

  /** Entry `k` of the payload of `call`, below `func`, is reported as `f`: it names a
      field some file declares, no condition below the function mentions it, and its line
      has no mark, or one without a reason. */
  ghost predicate Reported(files: seq<File>, file: File, func: Node, call: Node, k: nat, f: Finding) {
    && file.tree.Some? && Below(func, file.tree.value) && func.Function? && Below(call, func)
    && f.path == file.path && f.func == func.name
    && exists d, token ::
      && PayloadOf(func, call, d) && Pairs(d, k, token)
      && SomeFileDeclares(files, token) && !Examines(func, token)
      && WordedAs(file.lines, d, k, token, f)
  }

  lemma MarkOnIff(lines: seq<string>, line: int, reason: string)
    ensures MarkOn(lines, line, reason) <==> Allowlisted(lines, line) == Some(reason)
  {
    hide MarkedAt, ReasonOn;
    if 1 <= line <= |lines| {
      ReasonIff(lines[line - 1], reason);
    }
  }

  /** The wording is what the report of the entry's site says. */
  lemma WordedIff(file: File, known: set<string>, d: Node, k: nat, token: string, s: Site, f: Finding)
    requires Pairs(d, k, token) && token in known && !s.examined
    requires s.token == token && s.line == d.values[k].line && s.key == KeyName(d.keys[k], token)
    ensures Report(file, known, s) == Some(f) <==>
              WordedAs(file.lines, d, k, token, f) && f.path == file.path && f.func == s.func
  {
    hide MarkOn, Allowlisted;
    forall reason ensures MarkOn(file.lines, s.line, reason) <==> Allowlisted(file.lines, s.line) == Some(reason) {
      MarkOnIff(file.lines, s.line, reason);
    }
    assert ReportedUnder(d.keys[k], token, s.key) && s.key + "" == s.key;
    if Report(file, known, s) == Some(f) {
      assert f.line == s.line;
    }
  }

  /** The site of entry `k`. */
  function SiteOf(func: Node, d: Node, k: nat, token: string): (s: Site)
    requires func.Function? && d.Dict? && k < |d.keys| && k < |d.values|
  {
    Site(token, d.values[k].line, KeyName(d.keys[k], token), func.name, token in Examined(func))
  }

  lemma EntryIff(func: Node, call: Node, k: nat, s: Site)
    requires func.Function?
    ensures IsEntry(func, call, k, s) <==>
              exists d, token :: PayloadOf(func, call, d) && Pairs(d, k, token) && s == SiteOf(func, d, k, token)
  {
    hide ResponsePayload, PayloadOf, Examined, KeyName;
    forall d ensures ResponsePayload(func, call) == Some(d) <==> PayloadOf(func, call, d) {
      PayloadOfIff(func, call, d);
    }
    if IsEntry(func, call, k, s) {
      var d := ResponsePayload(func, call).value;
      assert Pairs(d, k, s.token) && s == SiteOf(func, d, k, s.token);
    }
  }

  lemma EntryReportedIff(files: seq<File>, file: File, func: Node, call: Node, k: nat, f: Finding)
    requires file.tree.Some? && Below(func, file.tree.value) && Below(call, func)
    ensures Reported(files, file, func, call, k, f) <==>
              func.Function? && exists s :: IsEntry(func, call, k, s) && Report(file, KnownFields(files), s) == Some(f)
  {
    hide PayloadOf, Below, Examined, Examines, SomeFileDeclares, KnownFields, KeyName, WordedAs, IsEntry, Report;
    if func.Function? {
      forall s ensures IsEntry(func, call, k, s) <==>
              exists d, token :: PayloadOf(func, call, d) && Pairs(d, k, token) && s == SiteOf(func, d, k, token) {
        EntryIff(func, call, k, s);
      }
      forall d, token | Pairs(d, k, token)
        ensures var s := SiteOf(func, d, k, token);
          Report(file, KnownFields(files), s) == Some(f) <==>
            && SomeFileDeclares(files, token) && !Examines(func, token)
            && WordedAs(file.lines, d, k, token, f) && f.path == file.path && f.func == func.name
      {
        SiteReportedIff(files, file, func, d, k, token, f);
      }
      if s :| IsEntry(func, call, k, s) && Report(file, KnownFields(files), s) == Some(f) {
        var d, token :| PayloadOf(func, call, d) && Pairs(d, k, token) && s == SiteOf(func, d, k, token);
      }
      if Reported(files, file, func, call, k, f) {
        var d, token :| PayloadOf(func, call, d) && Pairs(d, k, token)
            && SomeFileDeclares(files, token) && !Examines(func, token) && WordedAs(file.lines, d, k, token, f);
        assert IsEntry(func, call, k, SiteOf(func, d, k, token));
      }
    }
  }

  lemma SiteReportedIff(files: seq<File>, file: File, func: Node, d: Node, k: nat, token: string, f: Finding)
    requires func.Function? && Pairs(d, k, token)
    ensures Report(file, KnownFields(files), SiteOf(func, d, k, token)) == Some(f) <==>
              && SomeFileDeclares(files, token) && !Examines(func, token)
              && WordedAs(file.lines, d, k, token, f) && f.path == file.path && f.func == func.name
  {
    hide Examined, Examines, SomeFileDeclares, KnownFields, KeyName, WordedAs;
    ExaminedIff(func, token);
    KnownFieldsIff(files, token);
    var s := SiteOf(func, d, k, token);
    if token in KnownFields(files) && !s.examined {
      WordedIff(file, KnownFields(files), d, k, token, s, f);
    }
  }

  lemma FileFindsIff(files: seq<File>, file: File, f: Finding)
    ensures IsFinding(file, KnownFields(files), f) <==>
              exists func, call, k: nat :: Reported(files, file, func, call, k, f)
  {
    hide Walk, Below, SitesOf, IsEntry, Report, KnownFields, PayloadOf, WordedAs;
    if file.tree.Some? {
      var tree := file.tree.value;
      if s :| s in SitesOf(tree) && Report(file, KnownFields(files), s) == Some(f) {
        SitesIff(tree, s);
        var func, call, k: nat :| func in Walk([tree]) && func.Function? && call in Walk([func])
            && IsEntry(func, call, k, s);
        WalkOneIff(tree, func);
        WalkOneIff(func, call);
        EntryReportedIff(files, file, func, call, k, f);
      }
      if func, call, k: nat :| Reported(files, file, func, call, k, f) {
        EntryReportedIff(files, file, func, call, k, f);
        var s :| IsEntry(func, call, k, s) && Report(file, KnownFields(files), s) == Some(f);
        WalkOneIff(tree, func);
        WalkOneIff(func, call);
        SitesIff(tree, s);
      }
    }
  }

  /** A finding is made exactly when, in some file, a named value in the resolved payload
      of an undegraded response call below a function names a field that some class of
      some file declares as an optional dict, that no condition below the function
      mentions, and whose line has no mark with a reason. */
  lemma SweepFindsIff(files: seq<File>, f: Finding)
    ensures f in Sweep(files) <==>
              exists i, func, call, k: nat :: 0 <= i < |files| && Reported(files, files[i], func, call, k, f)
  {
    hide IsFinding, Reported, KnownFields, AllFindings;
    FoundIff(files, KnownFields(files), f);
    forall i | 0 <= i < |files|
      ensures IsFinding(files[i], KnownFields(files), f) <==>
                exists func, call, k: nat :: Reported(files, files[i], func, call, k, f)
    {
      FileFindsIff(files, files[i], f);
    }
  }
}
