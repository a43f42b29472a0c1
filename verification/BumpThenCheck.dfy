/** What `scripts/bump_versions.py` promises as a whole: exactly when a bump goes through,
    exactly when the drift check then passes, and that a sync after it is idle. */
module BumpThenCheck {
  import opened BumpVersions
  import opened Wrappers

  /** The files after a bump. */
  ghost predicate Bumped(w: Workspace, before: Files, after: Files, target: Version) {
    && (forall i | 0 <= i < |w.packages| :: Rewritten(w.packages[i], before, after, target))
    && (w.main in before ==>
          && w.manifest <= w.templates
          && forall i | 0 <= i < |w.stamped| :: Stamped(w.stamped[i].0, w.stamped[i].1, before, after, target))
  }

  /** The script tracks the main pyproject, and at least one stamp. */
  predicate Tracks(w: Workspace) {
    w.stamped != [] && exists i | 0 <= i < |w.packages| :: w.packages[i].pyproject == w.main
  }

  lemma BumpWrites(w: Workspace, fs: Files, part: Option<Part>)
    requires Apart(w) && Tracks(w) && BumpChanges(w, fs, part).Ok?
    ensures Bumped(w, fs, Write(fs, BumpChanges(w, fs, part).value), Target(w, fs, part).value)
  {
    hide Rewritten, Stamped, StampChanges, AllPackageChanges, Target;
    var target := Target(w, fs, part).value;
    var a := AllPackageChanges(w.packages, fs, target).value;
    PackagesWritten(w.packages, fs, target);
    if w.main in fs {
      var mid, b := Write(fs, a), StampChanges(w.stamped, fs, target);
      forall q | q in StampedPaths(w.stamped) ensures (q in fs <==> q in mid) && (q in fs ==> fs[q] == mid[q]) {
        WriteKeepsOthers(fs, a, q);
      }
      StampsWritten(w.stamped, fs, mid, target);
      WriteConcat(fs, a, b);
      forall i | 0 <= i < |w.packages| ensures Rewritten(w.packages[i], fs, Write(mid, b), target) {
        forall q | q in PathsOf(w.packages[i])
          ensures (q in mid <==> q in Write(mid, b)) && (q in mid ==> mid[q] == Write(mid, b)[q])
        {
          WriteKeepsOthers(mid, b, q);
        }
        RewrittenMoves(w.packages[i], fs, mid, Write(mid, b), target);
      }
    }
  }

  lemma RewrittenMoves(p: Package, before: Files, mid: Files, after: Files, target: Version)
    requires Rewritten(p, before, mid, target) && SameAt(mid, after, PathsOf(p))
    ensures Rewritten(p, before, after, target)
  {
    assert p.pyproject in PathsOf(p);
    assert p.npm.Some? ==> p.npm.value in PathsOf(p);
  }

  /** What each bumped package then reads as. */
  lemma PackageReadsBumped(p: Package, before: Files, after: Files, target: Version)
    requires Rewritten(p, before, after, target) && p.pyproject in before
    ensures ReadVersion(after[p.pyproject]).Some?
    ensures ReadVersion(after[p.pyproject]) == Some(target) <==> StrikesRead(before[p.pyproject], target)
    ensures forall k | 0 <= k < |p.pins| :: PinInSync(after, p.pyproject, p.pins[k], target)
    ensures NpmInSync(after, p.npm, target)
  {
    PyprojectRewritten(before[p.pyproject], p.pins, target);
    if p.npm.Some? && p.npm.value in before {
      var c, d := before[p.npm.value], after[p.npm.value];
      var i, j := JsonAt(c), JsonAt(d);
      assert d[i].JsonVersion? && d[..i] == c[..i];
    }
  }

  lemma StampReadsBumped(path: Path, key: string, before: Files, after: Files, target: Version)
    requires Stamped(path, key, before, after, target)
    ensures path in before && StampAt(before[path], key) < |before[path]| ==>
              StampInSync(after, path, key, target) && RewriteStamp(after[path], key, target) == Some(after[path])
    ensures forall t :: StampInSync(after, path, key, t) ==>
              path in before && StampAt(before[path], key) < |before[path]| && t == target
  {
    if path in before && StampAt(before[path], key) < |before[path]| {
      var c, d := before[path], after[path];
      var i, j := StampAt(c, key), StampAt(d, key);
      assert IsStamp(d[i], key) && d[..i] == c[..i];
      assert d[i := Stamp(key, target, true)] == d;
    }
  }

  /** What a caller can look at before a bump: every stamped file has its stamp, and
      in every pyproject the replacement strikes the version that is read. */
  ghost predicate Bumpable(w: Workspace, fs: Files, target: Version) {
    && w.main in fs
    && (forall i | 0 <= i < |w.stamped| ::
          w.stamped[i].0 in fs && StampAt(fs[w.stamped[i].0], w.stamped[i].1) < |fs[w.stamped[i].0]|)
    && (forall i | 0 <= i < |w.packages| && w.packages[i].pyproject in fs ::
          StrikesRead(fs[w.packages[i].pyproject], target))
  }

  lemma BumpableIsInSync(w: Workspace, fs: Files, after: Files, target: Version)
    requires Tracks(w) && Bumped(w, fs, after, target) && Bumpable(w, fs, target)
    ensures CheckPasses(w, after)
  {
    hide Rewritten, Stamped, StrikesRead, NpmInSync, PinInSync, StampInSync, ReadVersion;
    forall i | 0 <= i < |w.stamped| ensures StampInSync(after, w.stamped[i].0, w.stamped[i].1, target) {
      StampReadsBumped(w.stamped[i].0, w.stamped[i].1, fs, after, target);
    }
    forall i | 0 <= i < |w.packages|
      ensures PackageInSync(w, after, w.packages[i], target)
      ensures forall j | 0 <= j < |w.packages[i].pins| ::
          PinInSync(after, w.packages[i].pyproject, w.packages[i].pins[j], target)
    {
      OnePackageInSync(w, w.packages[i], fs, after, target);
    }
    var m :| 0 <= m < |w.packages| && w.packages[m].pyproject == w.main;
    OnePackageInSync(w, w.packages[m], fs, after, target);
  }

  lemma OnePackageInSync(w: Workspace, p: Package, fs: Files, after: Files, target: Version)
    requires Rewritten(p, fs, after, target)
    requires p.pyproject in fs ==> StrikesRead(fs[p.pyproject], target)
    ensures p.pyproject in fs ==> p.pyproject in after && ReadVersion(after[p.pyproject]) == Some(target)
    ensures PackageInSync(w, after, p, target)
    ensures forall j | 0 <= j < |p.pins| :: PinInSync(after, p.pyproject, p.pins[j], target)
  {
    hide RewritePyproject, StrikesRead, ReadVersion, NpmInSync;
    if p.pyproject in fs {
      PackageReadsBumped(p, fs, after, target);
    }
  }

  lemma PassingWasBumpable(w: Workspace, fs: Files, after: Files, target: Version)
    requires Tracks(w) && Bumped(w, fs, after, target) && CheckPasses(w, after)
    ensures Bumpable(w, fs, target)
  {
    hide Stamped, StrikesRead, NpmInSync, PinInSync, StampInSync, ReadVersion, RewritePyproject;
    var m :| 0 <= m < |w.packages| && w.packages[m].pyproject == w.main;
    assert Rewritten(w.packages[m], fs, after, target);
    var t := ReadVersion(after[w.main]).value;
    forall i | 0 <= i < |w.stamped|
      ensures w.stamped[i].0 in fs && StampAt(fs[w.stamped[i].0], w.stamped[i].1) < |fs[w.stamped[i].0]| && t == target
    {
      StampReadsBumped(w.stamped[i].0, w.stamped[i].1, fs, after, target);
      assert StampInSync(after, w.stamped[i].0, w.stamped[i].1, t);
    }
    assert t == target by { assert w.stamped[0] == w.stamped[0]; }
    forall i | 0 <= i < |w.packages| && w.packages[i].pyproject in fs
      ensures StrikesRead(fs[w.packages[i].pyproject], target)
    {
      PackageReadsBumped(w.packages[i], fs, after, target);
      assert PackageInSync(w, after, w.packages[i], t);
    }
  }

  // ----- When a bump goes through --------------------------------------------------------

  /** Some package exists, and all that do have a version with three numbers. */
  ghost predicate VersionsReadable(w: Workspace, fs: Files) {
    && (exists i | 0 <= i < |w.packages| :: w.packages[i].pyproject in fs)
    && forall i | 0 <= i < |w.packages| && w.packages[i].pyproject in fs :: HasVersion(fs[w.packages[i].pyproject])
  }

  predicate HasVersion(c: Content) {
    ReadVersion(c).Some? && ReadVersion(c).value.Version?
  }

  lemma {:induction false} MaxOkIff(packages: seq<Package>, fs: Files)
    ensures MaxCurrent(packages, fs).Ok? <==>
              forall i | 0 <= i < |packages| && packages[i].pyproject in fs :: HasVersion(fs[packages[i].pyproject])
    ensures MaxCurrent(packages, fs).Ok? ==>
              (MaxCurrent(packages, fs).value.Some? <==> exists i | 0 <= i < |packages| :: packages[i].pyproject in fs)
  {
    hide ReadVersion;
    if packages != [] {
      MaxOkIff(packages[1..], fs);
      assert forall i | 0 <= i < |packages[1..]| :: packages[1..][i] == packages[i + 1];
      assert forall i | 1 <= i < |packages| :: packages[i] == packages[1..][i - 1];
    }
  }

  lemma TargetIff(w: Workspace, fs: Files, part: Option<Part>)
    ensures Target(w, fs, part).Ok? <==> VersionsReadable(w, fs)
  {
    hide HasVersion, MaxCurrent;
    MaxOkIff(w.packages, fs);
  }

  lemma {:induction false} PinsOkIff(c: Content, deps: seq<string>, target: Version)
    ensures ReplacePins(c, deps, target).Ok? <==> forall k | 0 <= k < |deps| :: PinAt(c, deps[k]) < |c|
    decreases |deps|
  {
    if deps != [] && PinAt(c, deps[0]) < |c| {
      var c1 := ReplacePin(c, deps[0], target).value;
      assert AllAlike(c, c1);
      AlikeReads(c, c1);
      PinsOkIff(c1, deps[1..], target);
      assert forall k | 0 <= k < |deps[1..]| :: deps[1..][k] == deps[k + 1];
      assert forall k | 1 <= k < |deps| :: deps[k] == deps[1..][k - 1];
    }
  }

  /** There is a version to read, a literal to strike unless it is at the target
      already, and every pin. */
  predicate Rewritable(c: Content, deps: seq<string>, target: Version) {
    && ReadVersion(c).Some?
    && (ReadVersion(c).value == target || LiteralAt(c, ReadVersion(c).value) < |c|)
    && forall k | 0 <= k < |deps| :: PinAt(c, deps[k]) < |c|
  }

  lemma RewritableIff(c: Content, deps: seq<string>, target: Version)
    ensures RewritePyproject(c, deps, target).Ok? <==> Rewritable(c, deps, target)
  {
    if ReadVersion(c).Some? {
      var prev := ReadVersion(c).value;
      var c1 := if prev == target then Ok(c) else ReplaceVersion(c, prev, target);
      if c1.Ok? {
        assert AllAlike(c, c1.value);
        AlikeReads(c, c1.value);
        PinsOkIff(c1.value, deps, target);
      }
    }
  }

  predicate PackageGoes(p: Package, fs: Files, target: Version) {
    p.pyproject in fs ==> Rewritable(fs[p.pyproject], p.pins, target) && NpmReads(fs, p.npm)
  }

  lemma {:induction false} PackagesGoIff(packages: seq<Package>, fs: Files, target: Version)
    ensures AllPackageChanges(packages, fs, target).Ok? <==>
              forall i | 0 <= i < |packages| :: PackageGoes(packages[i], fs, target)
    decreases |packages|
  {
    if packages != [] {
      var n := |packages| - 1;
      PackagesGoIff(packages[..n], fs, target);
      assert forall i | 0 <= i < n :: packages[..n][i] == packages[i];
      assert PackageChanges(packages[n], fs, target).Ok? <==> PackageGoes(packages[n], fs, target) by {
        hide RewritePyproject, Rewritable;
        if packages[n].pyproject in fs {
          RewritableIff(fs[packages[n].pyproject], packages[n].pins, target);
        }
      }
      hide PackageChanges, PackageGoes;
    }
  }

  /** A bump goes through if and only if all versions can be read, every existing package
      has its literal, its pins and its npm version, and the manifest is clean if the main
      pyproject is there. */
  lemma BumpGoesThroughIff(w: Workspace, fs: Files, part: Option<Part>)
    requires Tracks(w)
    ensures BumpChanges(w, fs, part).Ok? <==>
              && VersionsReadable(w, fs)
              && (forall i | 0 <= i < |w.packages| ::
                    TargetIff(w, fs, part); PackageGoes(w.packages[i], fs, Target(w, fs, part).value))
              && (w.main in fs ==> w.manifest <= w.templates)
  {
    TargetIff(w, fs, part);
    hide Target, AllPackageChanges, PackageGoes, VersionsReadable, StampChanges;
    if Target(w, fs, part).Ok? {
      PackagesGoIff(w.packages, fs, Target(w, fs, part).value);
    }
  }

  /** All that a bump and the check after it ask of a tree. */
  ghost predicate Ready(w: Workspace, fs: Files, part: Option<Part>) {
    && VersionsReadable(w, fs)
    && w.manifest <= w.templates
    && (forall i | 0 <= i < |w.packages| && w.packages[i].pyproject in fs ::
          && (forall k | 0 <= k < |w.packages[i].pins| ::
                PinAt(fs[w.packages[i].pyproject], w.packages[i].pins[k]) < |fs[w.packages[i].pyproject]|)
          && NpmReads(fs, w.packages[i].npm))
    && (TargetIff(w, fs, part);
        Bumpable(w, fs, Target(w, fs, part).value))
  }

  lemma ReadyIff(w: Workspace, fs: Files, part: Option<Part>)
    requires Tracks(w)
    ensures Ready(w, fs, part) <==>
              BumpChanges(w, fs, part).Ok? && Bumpable(w, fs, Target(w, fs, part).value)
  {
    TargetIff(w, fs, part);
    BumpGoesThroughIff(w, fs, part);
    hide Target, BumpChanges, VersionsReadable, PinAt, NpmReads, ReadVersion, LiteralAt;
  }

  /** A bump goes through and the check then passes if and only if the tree was ready:
      the main pyproject and every stamp exist, the manifest is clean, every existing
      package has a version of three numbers, its pins and its npm version, and the first
      literal spelling of each version read is the one that is read. */
  lemma BumpEstablishesCheckIff(w: Workspace, fs: Files, part: Option<Part>)
    requires Apart(w) && Tracks(w)
    ensures BumpChanges(w, fs, part).Ok? && CheckPasses(w, Write(fs, BumpChanges(w, fs, part).value)) <==>
              Ready(w, fs, part)
  {
    ReadyIff(w, fs, part);
    if BumpChanges(w, fs, part).Ok? {
      var after, target := Write(fs, BumpChanges(w, fs, part).value), Target(w, fs, part).value;
      hide *;
      BumpWrites(w, fs, part);
      if Bumpable(w, fs, target) {
        BumpableIsInSync(w, fs, after, target);
      }
      if CheckPasses(w, after) {
        PassingWasBumpable(w, fs, after, target);
      }
    }
  }

  // ----- A sync after a bump ---------------------------------------------------------------

  ghost predicate Idle(fs: Files, changes: seq<Change>) {
    forall k | 0 <= k < |changes| :: changes[k].path in fs && changes[k].content == fs[changes[k].path]
  }

  lemma {:induction false} WriteSame(fs: Files, changes: seq<Change>)
    requires Idle(fs, changes)
    ensures Write(fs, changes) == fs
    decreases |changes|
  {
    if changes != [] {
      assert fs[changes[0].path := changes[0].content] == fs;
      WriteSame(fs, changes[1..]);
    }
  }

  lemma SettledPackage(p: Package, before: Files, after: Files, target: Version)
    requires Rewritten(p, before, after, target)
    requires p.pyproject in before ==> StrikesRead(before[p.pyproject], target)
    ensures PackageChanges(p, after, target) == Ok([])
  {
    hide ReplacePins, StrikesRead;
    if p.pyproject in before {
      PackageReadsBumped(p, before, after, target);
      PinsInPlace(after[p.pyproject], p.pins, target);
      var none: seq<Change> := [];
      assert none + none == none;
    }
  }

  lemma {:induction false} SettledPackages(packages: seq<Package>, before: Files, after: Files, target: Version)
    requires forall i | 0 <= i < |packages| :: Rewritten(packages[i], before, after, target)
    requires forall i | 0 <= i < |packages| && packages[i].pyproject in before ::
               StrikesRead(before[packages[i].pyproject], target)
    ensures AllPackageChanges(packages, after, target) == Ok([])
    decreases |packages|
  {
    hide Rewritten, StrikesRead, PackageChanges;
    if packages != [] {
      SettledPackages(packages[..|packages| - 1], before, after, target);
      SettledPackage(packages[|packages| - 1], before, after, target);
      var none: seq<Change> := [];
      assert none + none == none;
    }
  }

  lemma {:induction false} SettledStamps(stamped: seq<(Path, string)>, fs: Files, target: Version)
    requires forall i | 0 <= i < |stamped| ::
               stamped[i].0 in fs && RewriteStamp(fs[stamped[i].0], stamped[i].1, target) == Some(fs[stamped[i].0])
    ensures Idle(fs, StampChanges(stamped, fs, target))
    decreases |stamped|
  {
    hide RewriteStamp;
    if stamped != [] {
      var n := |stamped| - 1;
      SettledStamps(stamped[..n], fs, target);
      var rest := StampChanges(stamped[..n], fs, target);
      assert StampChanges(stamped, fs, target) == rest + [Change(stamped[n].0, fs[stamped[n].0])];
    }
  }

  /** `--sync` on a bumped tree goes through and changes no content. */
  lemma SyncAfterBumpIsIdle(w: Workspace, fs: Files, part: Option<Part>)
    requires Apart(w) && Tracks(w) && Ready(w, fs, part)
    ensures BumpChanges(w, fs, part).Ok?
    ensures var after := Write(fs, BumpChanges(w, fs, part).value);
      BumpChanges(w, after, None).Ok? && Write(after, BumpChanges(w, after, None).value) == after
  {
    ReadyIff(w, fs, part);
    hide Rewritten, Stamped, StrikesRead, RewriteStamp, StampChanges, AllPackageChanges, MaxCurrent, ReadVersion, Write,
      Apart, Ready;
    var after, target := Write(fs, BumpChanges(w, fs, part).value), Target(w, fs, part).value;
    BumpWrites(w, fs, part);
    SettledPackages(w.packages, fs, after, target);
    forall i | 0 <= i < |w.packages| && w.packages[i].pyproject in after
      ensures ReadVersion(after[w.packages[i].pyproject]) == Some(target)
    {
      InBoth(w.packages[i], fs, after, target);
      OnePackageInSync(w, w.packages[i], fs, after, target);
    }
    var t := (target.major, target.minor, target.patch);
    MaxOfEqual(w.packages, after, t);
    var m :| 0 <= m < |w.packages| && w.packages[m].pyproject == w.main;
    InBoth(w.packages[m], fs, after, target);
    assert Target(w, after, None) == Ok(target);
    forall i | 0 <= i < |w.stamped|
      ensures w.stamped[i].0 in after
      ensures RewriteStamp(after[w.stamped[i].0], w.stamped[i].1, target) == Some(after[w.stamped[i].0])
    {
      StampReadsBumped(w.stamped[i].0, w.stamped[i].1, fs, after, target);
    }
    SettledStamps(w.stamped, after, target);
    var again := StampChanges(w.stamped, after, target);
    WriteSame(after, again);
    assert [] + again == again;
    assert BumpChanges(w, after, None) == Ok(again);
  }

  lemma InBoth(p: Package, before: Files, after: Files, target: Version)
    requires Rewritten(p, before, after, target)
    ensures p.pyproject in before <==> p.pyproject in after
  {
  }

  // ----- The script's own tables, and a tree that is not bumpable ---------------------------

  function OwnWorkspace(manifest: set<string>, templates: set<string>): (w: Workspace) {
    Workspace(
      [Package("packages/tapps-core/pyproject.toml", None, []),
       Package("packages/tapps-mcp/pyproject.toml", Some("npm/package.json"), ["tapps-core", "docs-mcp"]),
       Package("packages/docs-mcp/pyproject.toml", Some("npm-docs-mcp/package.json"), ["tapps-core"])],
      "packages/tapps-mcp/pyproject.toml",
      [("AGENTS.md", "tapps-agents-version"), ("CLAUDE.md", "tapps-claude-version")],
      manifest, templates)
  }

  lemma OwnWorkspaceIsApart(manifest: set<string>, templates: set<string>)
    ensures Apart(OwnWorkspace(manifest, templates)) && Tracks(OwnWorkspace(manifest, templates))
  {
    var w := OwnWorkspace(manifest, templates);
    assert w.packages[1].pyproject == w.main;
    assert "AGENTS.md"[0] != "CLAUDE.md"[0];
    assert |w.packages[0].pyproject| == 34 && |w.packages[1].pyproject| == 33 && |w.packages[2].pyproject| == 32;
    assert |w.packages[1].npm.value| == 16 && |w.packages[2].npm.value| == 25;
  }

  /** An earlier literal of the same version, under another key, is struck instead:
      the bump goes through and the version stays. */
  lemma EarlierLiteralIsStruck(v: Version, target: Version)
    requires v != target
    ensures var c := [VersionLiteral(v, false), VersionLiteral(v, true)];
      && RewritePyproject(c, [], target) == Ok([VersionLiteral(target, false), VersionLiteral(v, true)])
      && ReadVersion(RewritePyproject(c, [], target).value) == Some(v)
      && !StrikesRead(c, target)
  {
    var c := [VersionLiteral(v, false), VersionLiteral(v, true)];
    assert IsLiteral(c[0], v) && !IsRead(c[0]) && IsRead(c[1]);
    assert LiteralAt(c, v) == 0 && ReadAt(c) == 1;
    var d := [VersionLiteral(target, false), VersionLiteral(v, true)];
    assert c[0 := VersionLiteral(target, false)] == d;
    assert !IsRead(d[0]) && IsRead(d[1]) && ReadAt(d) == 1;
  }
}
