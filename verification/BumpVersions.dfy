/** `scripts/bump_versions.py`: what a bump writes, against what the drift
    check then looks for. File contents are sequences of the stretches of text
    the script's patterns tell apart; the patterns themselves are not modelled. */
module BumpVersions {
  import opened Wrappers

  datatype Result<+T> = Ok(value: T) | Err(error: Error)
  datatype Error = NoVersion | InvalidVersion | ReplaceFailed | NoPin | NoNpmVersion | NoPackages | Refused

  /** A version text: three numbers with what the text holds besides their plain
      digits (a suffix, leading zeros), or a text that is no version. */
  datatype Version = Version(major: nat, minor: nat, patch: nat, extra: string) | Malformed(text: string)

  datatype Part = Major | Minor | Patch

  datatype Token =
    | VersionLiteral(v: Version, lineStart: bool)  // version = "v", spelled exactly so
    | VersionLoose(v: Version)                     // read as the version, spelled otherwise
    | Pin(dep: string, v: Version)                 // "dep==v"
    | Stamp(key: string, v: Version, tidy: bool)   // <!-- key: v -->
    | JsonVersion(v: Version)
    | Text(text: string)

  type Content = seq<Token>
  type Path = string
  type Files = map<Path, Content>

  /** A workspace package: its pyproject with the internal pins that file must
      hold, and its npm manifest if it has one. */
  datatype Package = Package(pyproject: Path, npm: Option<Path>, pins: seq<string>)

  /** The tracked files, and the hook names of the manifest and the templates. */
  datatype Workspace = Workspace(
    packages: seq<Package>, main: Path, stamped: seq<(Path, string)>, manifest: set<string>, templates: set<string>)

  // ----- Versions ----------------------------------------------------------------

  /** The order of the three numbers; SemVer 2.0.0, section 11.2. */
  predicate Less(a: (nat, nat, nat), b: (nat, nat, nat)) {
    a.0 < b.0 || (a.0 == b.0 && (a.1 < b.1 || (a.1 == b.1 && a.2 < b.2)))
  }

  function Parse(v: Version): (r: Result<(nat, nat, nat)>) {
    if v.Malformed? then Err(InvalidVersion) else Ok((v.major, v.minor, v.patch))
  }

  function Release(t: (nat, nat, nat)): (v: Version) {
    Version(t.0, t.1, t.2, "")
  }

  function Bump(t: (nat, nat, nat), part: Part): (v: (nat, nat, nat)) {
    match part
    case Major => (t.0 + 1, 0, 0)
    case Minor => (t.0, t.1 + 1, 0)
    case Patch => (t.0, t.1, t.2 + 1)
  }

  // ----- Reading and rewriting one file --------------------------------------------

  function Find(c: Content, p: Token -> bool): (i: nat)
    ensures i <= |c|
    ensures i < |c| ==> p(c[i])
    ensures forall j | 0 <= j < i :: !p(c[j])
  {
    if c == [] || p(c[0]) then 0 else 1 + Find(c[1..], p)
  }

  predicate IsRead(t: Token) {
    (t.VersionLiteral? && t.lineStart) || t.VersionLoose?
  }

  predicate IsLiteral(t: Token, v: Version) {
    t.VersionLiteral? && t.v == v
  }

  predicate IsPin(t: Token, dep: string) {
    t.Pin? && t.dep == dep
  }

  predicate IsStamp(t: Token, key: string) {
    t.Stamp? && t.key == key
  }

  /** Where `read_pyproject_version` finds the version. */
  function ReadAt(c: Content): (i: nat)
    ensures i <= |c| && (i < |c| ==> IsRead(c[i])) && forall j | 0 <= j < i :: !IsRead(c[j])
  {
    Find(c, (t: Token) => IsRead(t))
  }

  function ReadVersion(c: Content): (v: Option<Version>) {
    if ReadAt(c) < |c| then Some(c[ReadAt(c)].v) else None
  }

  /** Where the replacement strikes. */
  function LiteralAt(c: Content, v: Version): (i: nat)
    ensures i <= |c| && (i < |c| ==> IsLiteral(c[i], v)) && forall j | 0 <= j < i :: !IsLiteral(c[j], v)
  {
    Find(c, (t: Token) => IsLiteral(t, v))
  }

  function PinAt(c: Content, dep: string): (i: nat)
    ensures i <= |c| && (i < |c| ==> IsPin(c[i], dep)) && forall j | 0 <= j < i :: !IsPin(c[j], dep)
  {
    Find(c, (t: Token) => IsPin(t, dep))
  }

  function StampAt(c: Content, key: string): (i: nat)
    ensures i <= |c| && (i < |c| ==> IsStamp(c[i], key)) && forall j | 0 <= j < i :: !IsStamp(c[j], key)
  {
    Find(c, (t: Token) => IsStamp(t, key))
  }

  function JsonAt(c: Content): (i: nat)
    ensures i <= |c| && (i < |c| ==> c[i].JsonVersion?) && forall j | 0 <= j < i :: !c[j].JsonVersion?
  {
    Find(c, (t: Token) => t.JsonVersion?)
  }

  /** `content.replace('version = "prev"', ..., 1)`: the first such literal. */
  function ReplaceVersion(c: Content, prev: Version, target: Version): (r: Result<Content>) {
    var i := LiteralAt(c, prev);
    if i == |c| then Err(ReplaceFailed) else Ok(c[i := VersionLiteral(target, c[i].lineStart)])
  }

  function ReplacePin(c: Content, dep: string, target: Version): (r: Result<Content>) {
    var i := PinAt(c, dep);
    if i == |c| then Err(NoPin) else Ok(c[i := Pin(dep, target)])
  }

  function ReplacePins(c: Content, deps: seq<string>, target: Version): (r: Result<Content>)
    decreases |deps|
  {
    if deps == [] then Ok(c)
    else
      var r := ReplacePin(c, deps[0], target);
      if r.Err? then r else ReplacePins(r.value, deps[1..], target)
  }

  function RewritePyproject(c: Content, deps: seq<string>, target: Version): (r: Result<Content>) {
    var prev := ReadVersion(c);
    if prev.None? then Err(NoVersion)
    else
      var c1 := if prev.value == target then Ok(c) else ReplaceVersion(c, prev.value, target);
      if c1.Err? then c1 else ReplacePins(c1.value, deps, target)
  }

  /** `rewrite_stamp`: the first stamp of that key, respelled. */
  function RewriteStamp(c: Content, key: string, target: Version): (r: Option<Content>) {
    var i := StampAt(c, key);
    if i == |c| then None else Some(c[i := Stamp(key, target, true)])
  }

  // ----- The bump -------------------------------------------------------------------

  datatype Change = Change(path: Path, content: Content)

  function Write(fs: Files, changes: seq<Change>): (r: Files)
    decreases |changes|
  {
    if changes == [] then fs else Write(fs[changes[0].path := changes[0].content], changes[1..])
  }

  /** The versions of the packages that exist; their maximum is the origin. */
  function MaxCurrent(packages: seq<Package>, fs: Files): (r: Result<Option<(nat, nat, nat)>>)
  {
    if packages == [] then Ok(None)
    else if packages[0].pyproject !in fs then MaxCurrent(packages[1..], fs)
    else
      var v := ReadVersion(fs[packages[0].pyproject]);
      if v.None? then Err(NoVersion) else
      var t := Parse(v.value);
      if t.Err? then Err(t.error) else
      var rest := MaxCurrent(packages[1..], fs);
      if rest.Err? then rest
      else if rest.value.None? || Less(rest.value.value, t.value) then Ok(Some(t.value)) else rest
  }

  function Target(w: Workspace, fs: Files, part: Option<Part>): (r: Result<Version>) {
    var origin := MaxCurrent(w.packages, fs);
    if origin.Err? then Err(origin.error)
    else if origin.value.None? then Err(NoPackages)
    else Ok(Release(if part.None? then origin.value.value else Bump(origin.value.value, part.value)))
  }

  function NpmChanges(npm: Option<Path>, fs: Files, target: Version): (r: Result<seq<Change>>) {
    if npm.None? || npm.value !in fs then Ok([])
    else
      var c := fs[npm.value];
      var i := JsonAt(c);
      if i == |c| then Err(NoNpmVersion)
      else Ok(if c[i].v == target then [] else [Change(npm.value, c[i := JsonVersion(target)])])
  }

  function PackageChanges(p: Package, fs: Files, target: Version): (r: Result<seq<Change>>) {
    if p.pyproject !in fs then Ok([])
    else
      var c := RewritePyproject(fs[p.pyproject], p.pins, target);
      if c.Err? then Err(c.error)
      else
        var own := if c.value == fs[p.pyproject] then [] else [Change(p.pyproject, c.value)];
        var npm := NpmChanges(p.npm, fs, target);
        if npm.Err? then npm else Ok(own + npm.value)
  }

  function AllPackageChanges(packages: seq<Package>, fs: Files, target: Version): (r: Result<seq<Change>>)
  {
    if packages == [] then Ok([])
    else
      var rest := AllPackageChanges(packages[..|packages| - 1], fs, target);
      if rest.Err? then rest else
      var last := PackageChanges(packages[|packages| - 1], fs, target);
      if last.Err? then last else Ok(rest.value + last.value)
  }

  function StampChanges(stamped: seq<(Path, string)>, fs: Files, target: Version): (r: seq<Change>)
  {
    if stamped == [] then []
    else
      var rest := StampChanges(stamped[..|stamped| - 1], fs, target);
      var (path, key) := stamped[|stamped| - 1];
      if path !in fs || RewriteStamp(fs[path], key, target).None? then rest
      else rest + [Change(path, RewriteStamp(fs[path], key, target).value)]
  }

  /** `collect_bump_changes`; without a part it is `--sync`. */
  function BumpChanges(w: Workspace, fs: Files, part: Option<Part>): (r: Result<seq<Change>>) {
    var target := Target(w, fs, part);
    if target.Err? then Err(target.error)
    else
      var changes := AllPackageChanges(w.packages, fs, target.value);
      if changes.Err? then changes
      else if w.main !in fs || !(exists i | 0 <= i < |w.packages| :: w.packages[i].pyproject == w.main) then changes
      else if !(w.manifest <= w.templates) then Err(Refused)
      else Ok(changes.value + StampChanges(w.stamped, fs, target.value))
  }

  // ----- The check ------------------------------------------------------------------

  datatype Finding =
    | MissingStamp(path: Path)
    | StaleStamp(path: Path)
    | StaleVersion(path: Path)
    | MissingPin(path: Path, dep: string)
    | StalePin(path: Path, dep: string)
    | PhantomHooks

  predicate StampInSync(fs: Files, path: Path, key: string, target: Version) {
    path in fs && StampAt(fs[path], key) < |fs[path]| && fs[path][StampAt(fs[path], key)].v == target
  }

  predicate NpmReads(fs: Files, npm: Option<Path>) {
    npm.Some? && npm.value in fs ==> JsonAt(fs[npm.value]) < |fs[npm.value]|
  }

  predicate NpmInSync(fs: Files, npm: Option<Path>, target: Version) {
    npm.Some? && npm.value in fs ==>
      JsonAt(fs[npm.value]) < |fs[npm.value]| && fs[npm.value][JsonAt(fs[npm.value])].v == target
  }

  predicate PinInSync(fs: Files, path: Path, dep: string, target: Version) {
    path in fs ==> PinAt(fs[path], dep) < |fs[path]| && fs[path][PinAt(fs[path], dep)].v == target
  }

  /** The versions the check reads for a package are there to be read. */
  predicate PackageReads(w: Workspace, fs: Files, p: Package) {
    p.pyproject != w.main && p.pyproject in fs ==> ReadVersion(fs[p.pyproject]).Some? && NpmReads(fs, p.npm)
  }

  /** The check of one package skips the main pyproject's own version, and its
      npm manifest with it. */
  predicate PackageInSync(w: Workspace, fs: Files, p: Package, target: Version) {
    p.pyproject != w.main && p.pyproject in fs ==>
      ReadVersion(fs[p.pyproject]) == Some(target) && NpmInSync(fs, p.npm, target)
  }

  /** What `collect_drift` has nothing to report about. */
  ghost predicate InSync(w: Workspace, fs: Files, target: Version) {
    && (forall i | 0 <= i < |w.stamped| :: StampInSync(fs, w.stamped[i].0, w.stamped[i].1, target))
    && (forall i | 0 <= i < |w.packages| :: PackageInSync(w, fs, w.packages[i], target))
    && (forall i, j | 0 <= i < |w.packages| && 0 <= j < |w.packages[i].pins| ::
          PinInSync(fs, w.packages[i].pyproject, w.packages[i].pins[j], target))
    && w.manifest <= w.templates
  }

  /** `run_check` succeeds: the main pyproject has a version, and all is in sync with it. */
  ghost predicate CheckPasses(w: Workspace, fs: Files) {
    && w.main in fs && ReadVersion(fs[w.main]).Some?
    && InSync(w, fs, ReadVersion(fs[w.main]).value)
  }

  /** `collect_drift`: no finding exactly when everything is in sync. A version
      that cannot be read raises. */
  method CollectDrift(w: Workspace, fs: Files, target: Version) returns (r: Result<seq<Finding>>)
    ensures r.Ok? <==> forall i | 0 <= i < |w.packages| :: PackageReads(w, fs, w.packages[i])
    ensures r.Ok? ==> (r.value == [] <==> InSync(w, fs, target))
  {
    var findings: seq<Finding> := [];
    for i := 0 to |w.stamped|
      invariant findings == [] <==> forall k | 0 <= k < i :: StampInSync(fs, w.stamped[k].0, w.stamped[k].1, target)
    {
      var (path, key) := w.stamped[i];
      if path !in fs || StampAt(fs[path], key) == |fs[path]| {
        findings := findings + [MissingStamp(path)];
      } else if fs[path][StampAt(fs[path], key)].v != target {
        findings := findings + [StaleStamp(path)];
      }
    }
    ghost var stampsOk := findings == [];
    for i := 0 to |w.packages|
      invariant findings == [] <==> stampsOk && forall k | 0 <= k < i :: PackageInSync(w, fs, w.packages[k], target)
      invariant forall k | 0 <= k < i :: PackageReads(w, fs, w.packages[k])
    {
      var p := w.packages[i];
      if p.pyproject == w.main || p.pyproject !in fs {
        continue;
      }
      var ver := ReadVersion(fs[p.pyproject]);
      if ver.None? {
        return Err(NoVersion);
      }
      if ver.value != target {
        findings := findings + [StaleVersion(p.pyproject)];
      }
      if !NpmReads(fs, p.npm) {
        return Err(NoNpmVersion);
      }
      if !NpmInSync(fs, p.npm, target) {
        findings := findings + [StaleVersion(p.npm.value)];
      }
    }
    ghost var packagesOk := findings == [];
    for i := 0 to |w.packages|
      invariant findings == [] <==> packagesOk && forall k, j | 0 <= k < i && 0 <= j < |w.packages[k].pins| ::
                                      PinInSync(fs, w.packages[k].pyproject, w.packages[k].pins[j], target)
    {
      var p := w.packages[i];
      ghost var earlierOk := findings == [];
      for j := 0 to |p.pins|
        invariant findings == [] <==> earlierOk && forall k | 0 <= k < j ::
            PinInSync(fs, p.pyproject, p.pins[k], target)
      {
        if p.pyproject in fs {
          var at := PinAt(fs[p.pyproject], p.pins[j]);
          if at == |fs[p.pyproject]| {
            findings := findings + [MissingPin(p.pyproject, p.pins[j])];
          } else if fs[p.pyproject][at].v != target {
            findings := findings + [StalePin(p.pyproject, p.pins[j])];
          }
        }
      }
    }
    if !(w.manifest <= w.templates) {
      findings := findings + [PhantomHooks];
    }
    return Ok(findings);
  }

  /** `run_check`: whether it succeeds; an error is an exception. */
  method RunCheck(w: Workspace, fs: Files) returns (r: Result<bool>)
    ensures r == Ok(true) <==> CheckPasses(w, fs)
  {
    if w.main !in fs {
      return Err(NoVersion);
    }
    var target := ReadVersion(fs[w.main]);
    if target.None? {
      return Err(NoVersion);
    }
    var findings := CollectDrift(w, fs, target.value);
    if findings.Err? {
      return Err(findings.error);
    }
    return Ok(findings.value == []);
  }

  // ----- The bump, as the loops that collect it ----------------------------------------

  lemma {:induction false} FirstErrorStands(packages: seq<Package>, fs: Files, target: Version, i: nat)
    requires i <= |packages| && AllPackageChanges(packages[..i], fs, target).Err?
    ensures AllPackageChanges(packages, fs, target) == AllPackageChanges(packages[..i], fs, target)
    decreases |packages| - i
  {
    if i < |packages| {
      assert packages[..i + 1][..i] == packages[..i];
      FirstErrorStands(packages, fs, target, i + 1);
    } else {
      assert packages[..i] == packages;
    }
  }

  /** The version and the pins of one pyproject; `changed` is the flag that decides
      whether the file is written. */
  method RewriteFile(c: Content, deps: seq<string>, target: Version) returns (r: Result<Content>, changed: bool)
    ensures r == RewritePyproject(c, deps, target)
    ensures r.Ok? ==> (changed <==> r.value != c)
  {
    changed := false;
    var prev := ReadVersion(c);
    if prev.None? {
      return Err(NoVersion), changed;
    }
    var content := c;
    ghost var at: nat := |c|;
    if prev.value != target {
      r := ReplaceVersion(c, prev.value, target);
      if r.Err? {
        return;
      }
      content, changed, at := r.value, true, LiteralAt(c, prev.value);
    }
    ghost var start := content;
    for j := 0 to |deps|
      invariant ReplacePins(start, deps, target) == ReplacePins(content, deps[j..], target)
      invariant |content| == |c| && (!changed ==> content == c)
      invariant changed ==> at < |c| && content[at] != c[at]
      invariant changed && content[at].Pin? ==> content[at].v == target
    {
      var i := PinAt(content, deps[j]);
      assert deps[j..][0] == deps[j] && deps[j..][1..] == deps[j + 1..];
      if i == |content| {
        return Err(NoPin), changed;
      }
      assert ReplacePin(content, deps[j], target) == Ok(content[i := Pin(deps[j], target)]);
      if content[i].v != target {
        content := content[i := Pin(deps[j], target)];
        if !changed {
          changed, at := true, i;
        }
      } else {
        assert content[i := Pin(deps[j], target)] == content;
      }
    }
    r := Ok(content);
  }

  /** The changes of one package, as the outer loop's body appends them. */
  method CollectPackage(p: Package, fs: Files, target: Version) returns (r: Result<seq<Change>>)
    ensures r == PackageChanges(p, fs, target)
  {
    if p.pyproject !in fs {
      return Ok([]);
    }
    var content, changed := RewriteFile(fs[p.pyproject], p.pins, target);
    if content.Err? {
      return Err(content.error);
    }
    var changes: seq<Change> := if changed then [Change(p.pyproject, content.value)] else [];
    var npm := NpmChanges(p.npm, fs, target);
    if npm.Err? {
      return npm;
    }
    return Ok(changes + npm.value);
  }

  /** `collect_bump_changes`. */
  method CollectBumpChanges(w: Workspace, fs: Files, part: Option<Part>) returns (r: Result<seq<Change>>)
    ensures r == BumpChanges(w, fs, part)
  {
    hide PackageChanges, Target, RewriteStamp;
    var target := Target(w, fs, part);
    if target.Err? {
      return Err(target.error);
    }
    var changes: seq<Change> := [];
    var mainSeen := false;
    for i := 0 to |w.packages|
      invariant AllPackageChanges(w.packages[..i], fs, target.value) == Ok(changes)
      invariant mainSeen <==> w.main in fs && exists k | 0 <= k < i :: w.packages[k].pyproject == w.main
    {
      var own := CollectPackage(w.packages[i], fs, target.value);
      assert w.packages[..i + 1][..i] == w.packages[..i];
      if own.Err? {
        FirstErrorStands(w.packages, fs, target.value, i + 1);
        return own;
      }
      changes := changes + own.value;
      mainSeen := mainSeen || (w.packages[i].pyproject == w.main && w.main in fs);
    }
    assert w.packages[..|w.packages|] == w.packages;
    if !mainSeen {
      return Ok(changes);
    }
    ghost var packageChanges := changes;
    for i := 0 to |w.stamped|
      invariant changes == packageChanges + StampChanges(w.stamped[..i], fs, target.value)
    {
      var (path, key) := w.stamped[i];
      assert w.stamped[..i + 1][..i] == w.stamped[..i];
      if path in fs {
        var content := RewriteStamp(fs[path], key, target.value);
        if content.Some? {
          changes := changes + [Change(path, content.value)];
        }
      }
    }
    assert w.stamped[..|w.stamped|] == w.stamped;
    if !(w.manifest <= w.templates) {
      return Err(Refused);
    }
    return Ok(changes);
  }

  // ----- The target is above every version -------------------------------------------

  lemma {:induction false} MaxIsHighest(packages: seq<Package>, fs: Files)
    ensures MaxCurrent(packages, fs) == Ok(None) ==> forall i | 0 <= i < |packages| :: packages[i].pyproject !in fs
    ensures MaxCurrent(packages, fs).Ok? && MaxCurrent(packages, fs).value.Some? ==>
              var m := MaxCurrent(packages, fs).value.value;
              && (forall i | 0 <= i < |packages| && packages[i].pyproject in fs ::
                    && ReadVersion(fs[packages[i].pyproject]).Some?
                    && Parse(ReadVersion(fs[packages[i].pyproject]).value).Ok?
                    && !Less(m, Parse(ReadVersion(fs[packages[i].pyproject]).value).value))
              && exists i | 0 <= i < |packages| && packages[i].pyproject in fs ::
                   ReadVersion(fs[packages[i].pyproject]).Some?
                       && Parse(ReadVersion(fs[packages[i].pyproject]).value) == Ok(m)
  {
    if packages != [] {
      var rest := packages[1..];
      MaxIsHighest(rest, fs);
      assert forall i | 0 <= i < |rest| :: rest[i] == packages[i + 1];
      assert forall i | 1 <= i < |packages| :: packages[i] == rest[i - 1];
      if MaxCurrent(packages, fs).Ok? && MaxCurrent(packages, fs).value.Some? {
        var m := MaxCurrent(packages, fs).value.value;
        if packages[0].pyproject in fs && Parse(ReadVersion(fs[packages[0].pyproject]).value) == Ok(m) {
        } else {
          var k :| 0 <= k < |rest| && rest[k].pyproject in fs && ReadVersion(fs[rest[k].pyproject]).Some?
                   && Parse(ReadVersion(fs[rest[k].pyproject]).value) == Ok(m);
          assert packages[k + 1].pyproject in fs;
        }
      }
    }
  }

  /** A bump's target is above every version a package had, and `--sync` takes the
      highest of them. */
  lemma TargetExceeds(w: Workspace, fs: Files, part: Option<Part>)
    requires Target(w, fs, part).Ok?
    ensures var t := Parse(Target(w, fs, part).value).value;
      && (forall i | 0 <= i < |w.packages| && w.packages[i].pyproject in fs ::
            && ReadVersion(fs[w.packages[i].pyproject]).Some?
            && Parse(ReadVersion(fs[w.packages[i].pyproject]).value).Ok?
            && var v := Parse(ReadVersion(fs[w.packages[i].pyproject]).value).value;
               if part.Some? then Less(v, t) else !Less(t, v))
      && (part.None? ==> exists i | 0 <= i < |w.packages| && w.packages[i].pyproject in fs ::
            ReadVersion(fs[w.packages[i].pyproject]).Some?
                && Parse(ReadVersion(fs[w.packages[i].pyproject]).value) == Ok(t))
  {
    MaxIsHighest(w.packages, fs);
  }

  /** What a part asks of the version after `from`. */
  predicate Answers(v: (nat, nat, nat), from: (nat, nat, nat), part: Part) {
    match part
    case Major => v.0 > from.0
    case Minor => v.0 == from.0 && v.1 > from.1
    case Patch => Less(from, v)
  }

  /** `origin` is the highest version of a package that exists. */
  ghost predicate IsHighest(w: Workspace, fs: Files, origin: (nat, nat, nat)) {
    && (exists i | 0 <= i < |w.packages| && w.packages[i].pyproject in fs ::
          ReadVersion(fs[w.packages[i].pyproject]).Some?
          && Parse(ReadVersion(fs[w.packages[i].pyproject]).value) == Ok(origin))
    && forall i | 0 <= i < |w.packages| && w.packages[i].pyproject in fs ::
         && ReadVersion(fs[w.packages[i].pyproject]).Some?
         && Parse(ReadVersion(fs[w.packages[i].pyproject]).value).Ok?
         && !Less(origin, Parse(ReadVersion(fs[w.packages[i].pyproject]).value).value)
  }

  /** The target, exactly: above the highest version, the least that the part asks for; the
      highest version itself when synchronising. It is spelled as three plain numbers. */
  lemma TargetIsLeast(w: Workspace, fs: Files, part: Option<Part>, origin: (nat, nat, nat))
    requires IsHighest(w, fs, origin)
    ensures Target(w, fs, part).Ok?
    ensures var target := Target(w, fs, part).value;
      && target.Version? && target.extra == ""
      && var t := (target.major, target.minor, target.patch);
         match part
         case None => t == origin
         case Some(p) => Answers(t, origin, p) && forall v | Answers(v, origin, p) :: !Less(v, t)
  {
    MaxIsHighest(w.packages, fs);
    MaxOkOf(w.packages, fs);
  }

  lemma {:induction false} MaxOkOf(packages: seq<Package>, fs: Files)
    requires forall i | 0 <= i < |packages| && packages[i].pyproject in fs ::
               ReadVersion(fs[packages[i].pyproject]).Some? && Parse(ReadVersion(fs[packages[i].pyproject]).value).Ok?
    ensures MaxCurrent(packages, fs).Ok?
  {
    hide ReadVersion;
    if packages != [] {
      assert forall i | 0 <= i < |packages[1..]| :: packages[1..][i] == packages[i + 1];
      MaxOkOf(packages[1..], fs);
    }
  }

  lemma {:induction false} MaxOfEqual(packages: seq<Package>, fs: Files, t: (nat, nat, nat))
    requires forall i | 0 <= i < |packages| && packages[i].pyproject in fs ::
               ReadVersion(fs[packages[i].pyproject]) == Some(Release(t))
    ensures MaxCurrent(packages, fs) ==
              if exists i | 0 <= i < |packages| :: packages[i].pyproject in fs then Ok(Some(t)) else Ok(None)
  {
    if packages != [] {
      assert forall i | 0 <= i < |packages[1..]| :: packages[1..][i] == packages[i + 1];
      MaxOfEqual(packages[1..], fs, t);
      if i :| 0 <= i < |packages| && packages[i].pyproject in fs {
        if i > 0 {
          assert packages[1..][i - 1].pyproject in fs;
        }
      }
    }
  }

  // ----- One rewritten pyproject -------------------------------------------------------

  /** What a rewrite leaves of a token: all but its version. */
  predicate Alike(t: Token, u: Token) {
    t == u || (t.VersionLiteral? && u.VersionLiteral? && t.lineStart == u.lineStart)
        || (t.Pin? && u.Pin? && t.dep == u.dep)
  }

  ghost predicate AllAlike(c: Content, d: Content) {
    |c| == |d| && forall i | 0 <= i < |c| :: Alike(c[i], d[i])
  }

  lemma AlikeReads(c: Content, d: Content)
    requires AllAlike(c, d)
    ensures ReadAt(c) == ReadAt(d)
    ensures forall dep :: PinAt(c, dep) == PinAt(d, dep)
  {
    forall dep ensures PinAt(c, dep) == PinAt(d, dep) {
      var i, j := PinAt(c, dep), PinAt(d, dep);
      assert i < |c| ==> Alike(c[i], d[i]) && IsPin(d[i], dep);
      assert j < |c| ==> Alike(c[j], d[j]) && IsPin(c[j], dep);
    }
    var i, j := ReadAt(c), ReadAt(d);
    assert i < |c| ==> Alike(c[i], d[i]) && IsRead(d[i]);
    assert j < |c| ==> Alike(c[j], d[j]) && IsRead(c[j]);
  }

  /** Every named pin is at the target; nothing but pins has moved, and only to the target. */
  lemma {:induction false} PinsReplaced(c: Content, deps: seq<string>, target: Version)
    requires ReplacePins(c, deps, target).Ok?
    ensures var d := ReplacePins(c, deps, target).value;
      && AllAlike(c, d)
      && (forall i | 0 <= i < |c| :: d[i] == c[i] || (c[i].Pin? && d[i].v == target))
      && (forall k | 0 <= k < |deps| :: PinAt(d, deps[k]) < |d| && d[PinAt(d, deps[k])].v == target)
    decreases |deps|
  {
    if deps != [] {
      var c1 := ReplacePin(c, deps[0], target).value;
      var d := ReplacePins(c, deps, target).value;
      PinsReplaced(c1, deps[1..], target);
      assert AllAlike(c, c1);
      AlikeReads(c, c1);
      AlikeReads(c1, d);
      assert c1[PinAt(c, deps[0])].v == target;
      hide ReplacePin, ReplacePins, PinAt;
      forall k | 0 <= k < |deps| ensures PinAt(d, deps[k]) < |d| && d[PinAt(d, deps[k])].v == target {
        if k > 0 {
          assert deps[k] == deps[1..][k - 1];
        }
      }
    }
  }

  lemma {:induction false} PinsInPlace(c: Content, deps: seq<string>, target: Version)
    requires forall k | 0 <= k < |deps| :: PinAt(c, deps[k]) < |c| && c[PinAt(c, deps[k])].v == target
    ensures ReplacePins(c, deps, target) == Ok(c)
    decreases |deps|
  {
    if deps != [] {
      var i := PinAt(c, deps[0]);
      assert c[i := Pin(deps[0], target)] == c;
      PinsInPlace(c, deps[1..], target);
    }
  }

  /** The replacement strikes the version that is read: what a bump relies on. */
  predicate StrikesRead(c: Content, target: Version) {
    ReadVersion(c).Some? && (ReadVersion(c).value == target || LiteralAt(c, ReadVersion(c).value) == ReadAt(c))
  }

  /** A rewritten pyproject has all its pins at the target. It reads as the target
      exactly if the replacement struck the version that is read, and otherwise it
      reads as it did. */
  lemma PyprojectRewritten(c: Content, deps: seq<string>, target: Version)
    requires RewritePyproject(c, deps, target).Ok?
    ensures var d := RewritePyproject(c, deps, target).value;
      && (forall k | 0 <= k < |deps| :: PinAt(d, deps[k]) < |d| && d[PinAt(d, deps[k])].v == target)
      && ReadVersion(d) == (if StrikesRead(c, target) then Some(target) else ReadVersion(c))
      && (!StrikesRead(c, target) ==> ReadVersion(c).Some? && ReadVersion(c).value != target)
  {
    var prev := ReadVersion(c).value;
    var c1 := if prev == target then c else ReplaceVersion(c, prev, target).value;
    assert AllAlike(c, c1);
    AlikeReads(c, c1);
    PinsReplaced(c1, deps, target);
    AlikeReads(c1, RewritePyproject(c, deps, target).value);
  }

  // ----- What the written tree holds ---------------------------------------------------

  function Touched(changes: seq<Change>): set<Path> {
    set i | 0 <= i < |changes| :: changes[i].path
  }

  lemma {:induction false} WriteConcat(fs: Files, a: seq<Change>, b: seq<Change>)
    ensures Write(fs, a + b) == Write(Write(fs, a), b)
    decreases |a|
  {
    if a == [] {
      assert a + b == b;
    } else {
      assert (a + b)[1..] == a[1..] + b;
      WriteConcat(fs[a[0].path := a[0].content], a[1..], b);
    }
  }

  lemma {:induction false} WriteKeepsOthers(fs: Files, changes: seq<Change>, p: Path)
    requires p !in Touched(changes)
    ensures p in Write(fs, changes) <==> p in fs
    ensures p in fs ==> Write(fs, changes)[p] == fs[p]
    decreases |changes|
  {
    if changes != [] {
      assert changes[0].path in Touched(changes);
      forall q | q in Touched(changes[1..]) ensures q in Touched(changes) {
        var i :| 0 <= i < |changes[1..]| && changes[1..][i].path == q;
        assert changes[i + 1].path == q;
      }
      WriteKeepsOthers(fs[changes[0].path := changes[0].content], changes[1..], p);
    }
  }

  lemma TouchedConcat(a: seq<Change>, b: seq<Change>)
    ensures Touched(a + b) == Touched(a) + Touched(b)
  {
    assert forall i | 0 <= i < |a| :: (a + b)[i] == a[i];
    assert forall i | 0 <= i < |b| :: (a + b)[|a| + i] == b[i];
  }

  function PathsOf(p: Package): set<Path> {
    {p.pyproject} + if p.npm.Some? then {p.npm.value} else {}
  }

  /** No path plays two parts; so it is with the script's own three packages and
      two stamped files. */
  ghost predicate Apart(w: Workspace) {
    && (forall i | 0 <= i < |w.packages| :: w.packages[i].npm != Some(w.packages[i].pyproject))
    && (forall i, j | 0 <= i < j < |w.packages| :: PathsOf(w.packages[i]) !! PathsOf(w.packages[j]))
    && (forall i, j | 0 <= i < j < |w.stamped| :: w.stamped[i].0 != w.stamped[j].0)
    && (forall i, j | 0 <= i < |w.packages| && 0 <= j < |w.stamped| :: w.stamped[j].0 !in PathsOf(w.packages[i]))
  }

  /** Package `p`'s files after a bump of `before`. */
  ghost predicate Rewritten(p: Package, before: Files, after: Files, target: Version) {
    && (p.pyproject in after <==> p.pyproject in before)
    && (p.pyproject in before ==>
          && RewritePyproject(before[p.pyproject], p.pins, target) == Ok(after[p.pyproject])
          && (p.npm.Some? ==> (p.npm.value in after <==> p.npm.value in before))
          && (p.npm.Some? && p.npm.value in before ==>
                var i := JsonAt(before[p.npm.value]);
                i < |before[p.npm.value]| && after[p.npm.value] == before[p.npm.value][i := JsonVersion(target)]))
  }

  ghost predicate SameAt(fs: Files, gs: Files, paths: set<Path>) {
    forall q | q in paths :: (q in fs <==> q in gs) && (q in fs ==> fs[q] == gs[q])
  }

  lemma PackageWritten(p: Package, fs: Files, base: Files, target: Version)
    requires PackageChanges(p, fs, target).Ok? && p.npm != Some(p.pyproject)
    requires SameAt(fs, base, PathsOf(p))
    ensures Rewritten(p, fs, Write(base, PackageChanges(p, fs, target).value), target)
    ensures Touched(PackageChanges(p, fs, target).value) <= PathsOf(p)
  {
    if p.pyproject in fs {
      var c := RewritePyproject(fs[p.pyproject], p.pins, target).value;
      var own := if c == fs[p.pyproject] then [] else [Change(p.pyproject, c)];
      var npm := NpmChanges(p.npm, fs, target).value;
      WriteConcat(base, own, npm);
      var mid := Write(base, own);
      assert mid == if own == [] then base else base[p.pyproject := c] by {
        if own != [] {
          assert own[1..] == [];
        }
      }
      if npm != [] {
        assert npm[1..] == [];
      }
      if p.npm.Some? && p.npm.value in fs {
        var d := fs[p.npm.value];
        assert d[JsonAt(d)].v == target ==> d[JsonAt(d) := JsonVersion(target)] == d;
      }
    }
  }

  lemma {:induction false} PackagesWritten(packages: seq<Package>, fs: Files, target: Version)
    requires AllPackageChanges(packages, fs, target).Ok?
    requires forall i | 0 <= i < |packages| :: packages[i].npm != Some(packages[i].pyproject)
    requires forall i, j | 0 <= i < j < |packages| :: PathsOf(packages[i]) !! PathsOf(packages[j])
    ensures var changes := AllPackageChanges(packages, fs, target).value;
      && (forall i | 0 <= i < |packages| :: Rewritten(packages[i], fs, Write(fs, changes), target))
      && (forall q | q in Touched(changes) :: exists i | 0 <= i < |packages| :: q in PathsOf(packages[i]))
    decreases |packages|
  {
    if packages != [] {
      var n := |packages| - 1;
      var front, p := packages[..n], packages[n];
      var a, b := AllPackageChanges(front, fs, target).value, PackageChanges(p, fs, target).value;
      PackagesWritten(front, fs, target);
      var mid := Write(fs, a);
      forall q | q in PathsOf(p) ensures (q in fs <==> q in mid) && (q in fs ==> fs[q] == mid[q]) {
        WriteKeepsOthers(fs, a, q);
      }
      PackageWritten(p, fs, mid, target);
      WriteConcat(fs, a, b);
      forall i | 0 <= i < n ensures Rewritten(packages[i], fs, Write(mid, b), target) {
        assert Rewritten(front[i], fs, mid, target);
        forall q | q in PathsOf(packages[i])
          ensures (q in mid <==> q in Write(mid, b)) && (q in mid ==> mid[q] == Write(mid, b)[q])
        {
          WriteKeepsOthers(mid, b, q);
        }
      }
      forall q | q in Touched(a + b) ensures exists i | 0 <= i < |packages| :: q in PathsOf(packages[i]) {
        var k :| 0 <= k < |a + b| && (a + b)[k].path == q;
        if k < |a| {
          assert a[k].path in Touched(a);
          var i :| 0 <= i < |front| && q in PathsOf(front[i]);
          assert q in PathsOf(packages[i]);
        } else {
          assert b[k - |a|].path in Touched(b);
          assert q in PathsOf(packages[n]);
        }
      }
    }
  }

  /** A stamped file after a bump of `before`. */
  ghost predicate Stamped(path: Path, key: string, before: Files, after: Files, target: Version) {
    && (path in after <==> path in before)
    && (path in before ==>
          after[path] == (if RewriteStamp(before[path], key, target).Some?
                          then RewriteStamp(before[path], key, target).value
                          else before[path]))
  }

  function StampedPaths(stamped: seq<(Path, string)>): set<Path> {
    set i | 0 <= i < |stamped| :: stamped[i].0
  }

  lemma StampedPathsSplit(front: seq<(Path, string)>, last: (Path, string))
    ensures StampedPaths(front + [last]) == StampedPaths(front) + {last.0}
  {
    var all := front + [last];
    assert all[|front|] == last;
    assert forall i | 0 <= i < |front| :: all[i] == front[i];
  }

  lemma StampChangesSplit(front: seq<(Path, string)>, last: (Path, string), fs: Files, target: Version)
    ensures StampChanges(front + [last], fs, target) == StampChanges(front, fs, target)
        + StampChanges([last], fs, target)
  {
    assert (front + [last])[..|front|] == front && [last][..0] == [];
    assert StampChanges([last][..0], fs, target) == [];
  }

  lemma StampWritten(path: Path, key: string, fs: Files, base: Files, target: Version)
    requires SameAt(fs, base, {path})
    ensures var changes := StampChanges([(path, key)], fs, target);
      Stamped(path, key, fs, Write(base, changes), target) && Touched(changes) <= {path}
  {
    OneStamp(path, key, fs, target);
    var changes := StampChanges([(path, key)], fs, target);
    hide StampChanges;
    if changes != [] {
      OneWritten(base, changes[0]);
    }
  }

  lemma OneStamp(path: Path, key: string, fs: Files, target: Version)
    ensures StampChanges([(path, key)], fs, target) ==
              if path !in fs || RewriteStamp(fs[path], key, target).None? then []
              else [Change(path, RewriteStamp(fs[path], key, target).value)]
  {
    hide RewriteStamp;
    assert [(path, key)][..0] == [];
    assert StampChanges([], fs, target) == [];
  }

  lemma OneWritten(base: Files, change: Change)
    ensures Write(base, [change]) == base[change.path := change.content]
  {
    assert [change][1..] == [];
  }

  lemma {:induction false} StampsWritten(stamped: seq<(Path, string)>, fs: Files, base: Files, target: Version)
    requires forall i, j | 0 <= i < j < |stamped| :: stamped[i].0 != stamped[j].0
    requires SameAt(fs, base, StampedPaths(stamped))
    ensures var changes := StampChanges(stamped, fs, target);
      && (forall i | 0 <= i < |stamped| :: Stamped(stamped[i].0, stamped[i].1, fs, Write(base, changes), target))
      && Touched(changes) <= StampedPaths(stamped)
    decreases |stamped|
  {
    hide RewriteStamp;
    if stamped != [] {
      var n := |stamped| - 1;
      var front := stamped[..n];
      var (path, key) := stamped[n];
      var a, b := StampChanges(front, fs, target), StampChanges([(path, key)], fs, target);
      StampChangesSplit(front, stamped[n], fs, target);
      assert stamped == front + [stamped[n]];
      StampedPathsSplit(front, stamped[n]);
      StampsWritten(front, fs, base, target);
      assert path !in StampedPaths(front);
      WriteKeepsOthers(base, a, path);
      var mid := Write(base, a);
      StampWritten(path, key, fs, mid, target);
      WriteConcat(base, a, b);
      forall i | 0 <= i < n ensures Stamped(stamped[i].0, stamped[i].1, fs, Write(mid, b), target) {
        assert Stamped(front[i].0, front[i].1, fs, mid, target);
        WriteKeepsOthers(mid, b, stamped[i].0);
      }
      TouchedConcat(a, b);
    }
  }
}
