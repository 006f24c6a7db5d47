/**
 * Delivery of an agent's edits from an isolated copy into the original project
 * (app/security/isolated_workspace.py).
 */
module IsolatedWorkspace {
  import opened Prelude
  import opened FileTrees

  /** SHA-256 taken as injective: a digest is known by the content it came from. */
  datatype Digest = Sha256(content: Bytes)

  datatype RawPath = RawPath(absolute: bool, parts: Path)

  datatype Conflict = Conflict(path: Path, expected: Option<Digest>, current: Option<Digest>)

  datatype Entry = Entry(path: Path, existed: bool)

  datatype Receipt = Receipt(written: seq<Path>, deleted: seq<Path>, changed: seq<Path>, manifest: seq<Entry>)

  datatype ApplyError =
    | UnsafePath
    | IgnoredPaths(blocked: set<Path>)
    | Conflicting(conflicts: seq<Conflict>)
    | BackupUnavailable
    | StepRaised(rolledBack: bool)

  predicate Safe(raw: RawPath) {
    !raw.absolute && ".." !in raw.parts
  }

  predicate Ignored(p: Path, ignored: set<string>) {
    exists i :: 0 <= i < |p| && p[i] in ignored
  }

  function FileDigest(files: map<Path, Bytes>, p: Path): Option<Digest> {
    if p in files then Some(Sha256(files[p])) else None
  }

  /** The baseline: a digest for every file with no ignored directory or name on its path. */
  function SnapshotHashes(files: map<Path, Bytes>, ignored: set<string>): (hashes: map<Path, Digest>)
    ensures forall p :: p in hashes <==> p in files && forall i :: 0 <= i < |p| ==> p[i] !in ignored
  {
    map p | p in files && !Ignored(p, ignored) :: Sha256(files[p])
  }

  // ---------------------------------------------------------------- difference and conflicts

  /** The visible paths on which the two trees differ. */
  function ChangedPaths(original: map<Path, Bytes>, isolated: map<Path, Bytes>, ignored: set<string>): set<Path> {
    set p | p in original.Keys + isolated.Keys && !Ignored(p, ignored) && Lookup(original, p) != Lookup(isolated, p)
  }

  predicate Conflicts(files: map<Path, Bytes>, baseline: map<Path, Digest>, p: Path) {
    FileDigest(files, p) != Lookup(baseline, p)
  }

  method ChangedProjectFiles(original: map<Path, Bytes>, isolated: map<Path, Bytes>, ignored: set<string>)
    returns (changed: seq<Path>)
    ensures Distinct(changed) && ToSet(changed) == ChangedPaths(original, isolated, ignored)
    ensures forall p :: p in changed <==>
              Lookup(original, p) != Lookup(isolated, p) && forall i :: 0 <= i < |p| ==> p[i] !in ignored
  {
    var paths := Enumerate(set p | p in original.Keys + isolated.Keys && !Ignored(p, ignored));
    assert forall k :: 0 <= k < |paths| ==> paths[k] in ToSet(paths);
    changed := [];
    for i := 0 to |paths|
      invariant Distinct(changed)
      invariant forall p :: p in changed <==> p in paths[..i] && Lookup(original, p) != Lookup(isolated, p)
    {
      var rel := paths[i];
      assert rel !in paths[..i];
      if rel !in original || rel !in isolated || original[rel] != isolated[rel] {
        changed := changed + [rel];
      }
    }
    assert paths[..|paths|] == paths;
    assert forall p :: p in ToSet(paths) <==> p in paths;
    assert forall p :: p in ToSet(changed) <==> p in ChangedPaths(original, isolated, ignored);
    DifferWithoutIgnored(original, isolated, ignored);
  }

  /** The differences, by the segments of their paths. */
  lemma DifferWithoutIgnored(original: map<Path, Bytes>, isolated: map<Path, Bytes>, ignored: set<string>)
    ensures forall p :: p in ChangedPaths(original, isolated, ignored) <==>
              Lookup(original, p) != Lookup(isolated, p) && forall i :: 0 <= i < |p| ==> p[i] !in ignored
  {
  }

  method DetectOriginalConflicts(files: map<Path, Bytes>, selected: seq<Path>, baseline: map<Path, Digest>)
    returns (conflicts: seq<Conflict>)
    ensures forall p :: p in selected && Conflicts(files, baseline, p)
                   <==> Conflict(p, Lookup(baseline, p), FileDigest(files, p)) in conflicts
    ensures conflicts == [] <==> forall p :: p in selected ==> !Conflicts(files, baseline, p)
  {
    conflicts := [];
    for i := 0 to |selected|
      invariant forall p :: p in selected[..i] && Conflicts(files, baseline, p)
                       <==> Conflict(p, Lookup(baseline, p), FileDigest(files, p)) in conflicts
      invariant forall c :: c in conflicts ==>
                  c.path in selected[..i] && Conflicts(files, baseline, c.path)
                  && c == Conflict(c.path, Lookup(baseline, c.path), FileDigest(files, c.path))
    {
      var rel := selected[i];
      var expected, current := Lookup(baseline, rel), FileDigest(files, rel);
      if current != expected {
        conflicts := conflicts + [Conflict(rel, expected, current)];
      }
    }
    if conflicts != [] {
      assert conflicts[0] in conflicts;
    }
  }

  // ---------------------------------------------------------------- what a delivery means

  /** Every selected path may hold a regular file: it is no directory, and nothing selected lies below it. */
  ghost predicate Clear(t: Image, selected: set<Path>) {
    forall p :: p in selected ==> p !in t.dirs && forall q :: q in selected ==> p !in Ancestors(q)
  }

  /** Now is a good time for this path: it is no directory, and a file to be written can have its parents. */
  ghost predicate Open(t: Image, isolated: map<Path, Bytes>, p: Path) {
    p !in t.dirs && (p in isolated ==> Ancestors(p) !! t.files.Keys)
  }

  /** Whatever file lies above a written path is itself taken away. */
  ghost predicate ParentsClear(t: Image, isolated: map<Path, Bytes>, selected: set<Path>) {
    forall p, d :: p in selected && p in isolated && d in Ancestors(p) ==>
      && (d in t.files ==> d in selected)
      && (d in selected ==> d !in isolated)
  }

  /** And no selected path is a directory. */
  ghost predicate Feasible(t: Image, isolated: map<Path, Bytes>, selected: set<Path>) {
    selected !! t.dirs && ParentsClear(t, isolated, selected)
  }

  /** The manifest and the backups describe the original files at the manifest's paths. */
  ghost predicate Records(manifest: seq<Entry>, saved: map<Path, Bytes>, original: map<Path, Bytes>) {
    && (forall i, j :: 0 <= i < j < |manifest| ==> manifest[i].path != manifest[j].path)
    && (forall e :: e in manifest ==> e.existed == (e.path in original))
    && (forall e :: e in manifest && e.existed ==> e.path in saved && saved[e.path] == original[e.path])
  }

  ghost function PathsOf(manifest: seq<Entry>): set<Path> {
    set e | e in manifest :: e.path
  }

  // ---------------------------------------------------------------- rollback

  datatype Undone = Undone(image: Image, ok: bool)

  /**
   * One rollback entry.  `shutil.copy2` onto a directory copies INTO it, under the
   * backup's own name, and unlinking a directory raises.
   */
  function UndoOne(t: Image, e: Entry, saved: map<Path, Bytes>): Undone {
    if e.existed && e.path in saved && e.path != [] then
      if !(Ancestors(e.path) !! t.files.Keys) then Undone(t, false)
      else
        var opened_ := Image(t.files, t.dirs + Ancestors(e.path));
        if e.path !in t.dirs then Undone(opened_.(files := t.files[e.path := saved[e.path]]), true)
        else
          var inner := e.path + [e.path[|e.path| - 1]];
          if inner in t.dirs then Undone(opened_, false)
          else Undone(opened_.(files := t.files[inner := saved[e.path]]), true)
    else if e.path in t.files then Undone(t.(files := t.files - {e.path}), true)
    else Undone(t, e.path !in t.dirs)
  }

  /** The whole rollback: newest entry first, stopping at the first exception. */
  function Undo(t: Image, manifest: seq<Entry>, saved: map<Path, Bytes>): Undone
    decreases |manifest|
  {
    if manifest == [] then Undone(t, true)
    else
      var u := UndoOne(t, manifest[|manifest| - 1], saved);
      if u.ok then Undo(u.image, manifest[..|manifest| - 1], saved) else u
  }

  class BackupDir {
    var saved: map<Path, Bytes>

    constructor ()
      ensures saved == map[]
    {
      saved := map[];
    }
  }

  method RollbackAtomicApply(tree: ProjectTree, manifest: seq<Entry>, backup: BackupDir) returns (ok: bool)
    modifies tree`files, tree`dirs
    ensures Undone(tree.View(), ok) == Undo(old(tree.View()), manifest, backup.saved)
  {
    ok := true;
    var i := |manifest|;
    assert manifest[..|manifest|] == manifest;
    while i > 0 && ok
      invariant 0 <= i <= |manifest|
      invariant if ok then Undo(tree.View(), manifest[..i], backup.saved)
                  == Undo(old(tree.View()), manifest, backup.saved)
                else Undone(tree.View(), false) == Undo(old(tree.View()), manifest, backup.saved)
    {
      i := i - 1;
      assert manifest[..i + 1][..i] == manifest[..i];
      var target := manifest[i].path;
      if manifest[i].existed && target in backup.saved && target != [] {
        ok := Ancestors(target) !! tree.files.Keys;
        if ok {
          var destination := if target in tree.dirs then target + [target[|target| - 1]] else target;
          ok := destination !in tree.dirs;
          tree.dirs := tree.dirs + Ancestors(target);
          if ok {
            tree.files := tree.files[destination := backup.saved[target]];
          }
        }
      } else if target in tree.files {
        tree.files := tree.files - {target};
      } else {
        ok := target !in tree.dirs;
      }
    }
  }

  /** A rollback never gives up a directory and keeps the tree sound. */
  lemma {:induction false} UndoSound(t: Image, manifest: seq<Entry>, saved: map<Path, Bytes>)
    requires Sound(t)
    ensures var u := Undo(t, manifest, saved); Sound(u.image) && t.dirs <= u.image.dirs
    decreases |manifest|
  {
    if manifest != [] {
      var e := manifest[|manifest| - 1];
      var u := UndoOne(t, e, saved);
      if e.path != [] {
        AncestorsOfChild(e.path, e.path[|e.path| - 1]);
      }
      assert Sound(u.image);
      if u.ok {
        UndoSound(u.image, manifest[..|manifest| - 1], saved);
      }
    }
  }

  lemma {:induction false} UndoKeepsDirs(original: Image, t: Image, manifest: seq<Entry>, saved: map<Path, Bytes>)
    requires Sound(original) && original.dirs <= t.dirs
    requires forall e :: e in manifest && e.existed ==> e.path in original.files
    ensures Undo(t, manifest, saved).image.dirs == t.dirs
    decreases |manifest|
  {
    if manifest != [] {
      var u := UndoOne(t, manifest[|manifest| - 1], saved);
      assert u.image.dirs == t.dirs;
      if u.ok {
        UndoKeepsDirs(original, u.image, manifest[..|manifest| - 1], saved);
      }
    }
  }

  /** The rollback is exact if and only if no path of the manifest is a directory, and then touches nothing else. */
  ghost predicate Exact(original: Image, t: Image, manifest: seq<Entry>, saved: map<Path, Bytes>, litter: set<Path>) {
    var u := Undo(t, manifest, saved);
    && ((u.ok && AgreeOutside(u.image.files, original.files, litter)) <==> PathsOf(manifest) !! t.dirs)
    && (PathsOf(manifest) !! t.dirs ==> AgreeOutside(u.image.files, t.files, PathsOf(manifest)))
  }

  lemma ExactOneMore(original: Image, t: Image, u: Image, rest: seq<Entry>, e: Entry, saved: map<Path, Bytes>,
                     litter: set<Path>)
    requires UndoOne(t, e, saved) == Undone(u, true) && u.dirs == t.dirs && e.path !in t.dirs
    requires AgreeOutside(u.files, t.files, {e.path})
    requires Exact(original, u, rest, saved, litter)
    ensures Exact(original, t, rest + [e], saved, litter)
  {
    assert (rest + [e])[..|rest|] == rest;
    NotedOne(rest, e);
    assert Undo(t, rest + [e], saved) == Undo(u, rest, saved);
    if PathsOf(rest) !! t.dirs {
      var end := Undo(u, rest, saved).image;
      forall p | p !in PathsOf(rest + [e])
        ensures Lookup(end.files, p) == Lookup(t.files, p)
      {
        assert Lookup(end.files, p) == Lookup(u.files, p);
      }
    }
  }

  /**
   * Rollback is the inverse of whatever was done to the manifest's paths, exactly when none of those paths
   * has become a directory; what else was left behind, it leaves behind.
   */
  lemma {:induction false} RollbackIsExact(original: Image, t: Image, manifest: seq<Entry>, saved: map<Path, Bytes>,
                                           litter: set<Path>)
    requires Sound(original) && Sound(t) && original.dirs <= t.dirs
    requires Records(manifest, saved, original.files)
    requires AgreeOutside(t.files, original.files, PathsOf(manifest) + litter) && litter !! original.files.Keys
    ensures Exact(original, t, manifest, saved, litter)
    ensures Undo(t, manifest, saved).image.dirs == t.dirs
    decreases |manifest|
  {
    UndoKeepsDirs(original, t, manifest, saved);
    if manifest == [] {
      NothingToUndo(original, t, saved, litter);
    } else {
      var rest, e := manifest[..|manifest| - 1], manifest[|manifest| - 1];
      assert manifest == rest + [e];
      NotedOne(rest, e);
      if e.path in t.dirs {
        StuckAtDirectory(original, t, rest, e, saved, litter);
      } else {
        UndoneOne(original, t, rest, e, saved, litter);
        var u := UndoOne(t, e, saved).image;
        RollbackIsExact(original, u, rest, saved, litter);
        ExactOneMore(original, t, u, rest, e, saved, litter);
      }
    }
  }

  lemma NothingToUndo(original: Image, t: Image, saved: map<Path, Bytes>, litter: set<Path>)
    requires AgreeOutside(t.files, original.files, litter)
    ensures Exact(original, t, [], saved, litter)
  {
  }

  lemma StuckAtDirectory(original: Image, t: Image, rest: seq<Entry>, e: Entry, saved: map<Path, Bytes>,
                         litter: set<Path>)
    requires Sound(t) && Records(rest + [e], saved, original.files) && e.path in t.dirs
    requires litter !! original.files.Keys
    ensures Exact(original, t, rest + [e], saved, litter)
  {
    assert e in rest + [e] && (rest + [e])[..|rest|] == rest;
    NotedOne(rest, e);
    UndoSound(t, rest + [e], saved);
    var u := Undo(t, rest + [e], saved);
    if e.existed {
      assert Lookup(u.image.files, e.path) != Lookup(original.files, e.path);
    }
  }

  /** One entry back, with its path no directory. */
  lemma UndoneOne(original: Image, t: Image, rest: seq<Entry>, e: Entry, saved: map<Path, Bytes>, litter: set<Path>)
    requires Sound(original) && Sound(t) && original.dirs <= t.dirs && e.path !in t.dirs
    requires Records(rest + [e], saved, original.files)
    requires AgreeOutside(t.files, original.files, PathsOf(rest) + {e.path} + litter)
    ensures var u := UndoOne(t, e, saved);
            && u.ok && Sound(u.image) && u.image.dirs == t.dirs
            && AgreeOutside(u.image.files, t.files, {e.path})
            && AgreeOutside(u.image.files, original.files, PathsOf(rest) + litter)
  {
    assert e in rest + [e];
    var u := UndoOne(t, e, saved);
    assert u.ok && u.image.dirs == t.dirs && Lookup(u.image.files, e.path) == Lookup(original.files, e.path);
    forall p | p !in PathsOf(rest) + litter
      ensures Lookup(u.image.files, p) == Lookup(original.files, p)
    {
      if p != e.path {
        assert p !in PathsOf(rest) + {e.path} + litter;
      }
    }
  }

  // ---------------------------------------------------------------- applying

  /** What one step may do to the tree, the backups and the manifest. */
  ghost predicate Stepped(before: Image, after: Image, saved: map<Path, Bytes>, saved': map<Path, Bytes>, rel: Path,
                          noted: bool, left: set<Path>) {
    && Sound(after) && before.dirs <= after.dirs <= before.dirs + Ancestors(rel)
    && AgreeOutside(after.files, before.files, {rel} + left)
    && (!noted ==> after == before && left == {})
    && left <= after.files.Keys && left !! before.files.Keys && rel !in left
    && (forall p :: p != rel && p in saved ==> p in saved' && saved'[p] == saved[p])
    && (noted && rel in before.files ==> rel in saved' && saved'[rel] == before.files[rel])
  }

  /**
   * One selected path: back it up, note it in the manifest, then replace or unlink it.
   * `noted` tells whether the manifest entry was reached, `litter` what a raising step may leave beside it.
   */
  method ApplyOne(tree: ProjectTree, isolated: map<Path, Bytes>, rel: Path, backup: BackupDir)
    returns (ok: bool, noted: bool, ghost litter: set<Path>)
    requires Sound(tree.View())
    modifies tree`files, tree`dirs, tree`clock, backup
    ensures Stepped(old(tree.View()), tree.View(), old(backup.saved), backup.saved, rel, noted, litter)
    ensures ok ==> noted && litter == {} && rel !in tree.dirs && tree.files == Overlay(old(tree.files), isolated, {rel})
    ensures tree.Reliable() ==> noted && (Open(old(tree.View()), isolated, rel) ==> ok)
  {
    litter := {};
    noted := BackUp(tree, rel, backup);
    if !noted {
      return false, noted, litter;
    }
    if rel in isolated {
      ok, litter := WriteOne(tree, rel, isolated[rel]);
      assert ok ==> tree.files == Overlay(old(tree.files), isolated, {rel});
    } else {
      ok := RemoveOne(tree, rel);
      assert ok ==> tree.files == Overlay(old(tree.files), isolated, {rel});
    }
  }

  /** `copy2` into the backup directory, if there is a file to keep. */
  method BackUp(tree: ProjectTree, rel: Path, backup: BackupDir) returns (ok: bool)
    modifies tree`clock, backup
    ensures forall p :: p != rel && p in old(backup.saved) ==>
              p in backup.saved && backup.saved[p] == old(backup.saved)[p]
    ensures ok && rel in tree.files ==> rel in backup.saved && backup.saved[rel] == tree.files[rel]
    ensures ok <==> rel !in tree.files || !tree.faults(old(tree.clock))
  {
    ok := true;
    if rel in tree.files {
      ok := tree.Step();
      var partial: Bytes := *;
      backup.saved := backup.saved[rel := if ok then tree.files[rel] else partial];
    }
  }

  /** `target.unlink()`, if the target exists. */
  method RemoveOne(tree: ProjectTree, rel: Path) returns (ok: bool)
    modifies tree`files, tree`clock
    ensures tree.files == if ok then old(tree.files) - {rel} else old(tree.files)
    ensures ok <==> if rel in old(tree.files) then !tree.faults(old(tree.clock)) else rel !in tree.dirs
  {
    ok := true;
    if rel in tree.files || rel in tree.dirs {
      ok := tree.Unlink(rel);
    }
  }

  /** The parents, then the file. */
  method WriteOne(tree: ProjectTree, rel: Path, content: Bytes) returns (ok: bool, ghost litter: set<Path>)
    requires Sound(tree.View())
    modifies tree`files, tree`dirs, tree`clock
    ensures Sound(tree.View())
    ensures old(tree.dirs) <= tree.dirs <= old(tree.dirs) + Ancestors(rel)
    ensures ok ==> litter == {} && rel !in tree.dirs && tree.files == old(tree.files)[rel := content]
    ensures AgreeOutside(tree.files, old(tree.files), {rel} + litter)
    ensures litter <= tree.files.Keys && litter !! old(tree.files).Keys && rel !in litter
    ensures tree.Reliable() && rel !in old(tree.dirs) && Ancestors(rel) !! old(tree.files).Keys ==> ok
  {
    ghost var before := tree.files;
    litter := {};
    ok := tree.MakeParents(rel);
    assert Sound(tree.View());
    if ok {
      var temporary := FreshSibling(tree.View(), rel);
      ok, litter := tree.InstallAtomically(rel, content, temporary);
      assert forall p :: p in litter ==> p == temporary;
      assert forall p :: p != rel && p !in litter ==> Lookup(tree.files, p) == Lookup(tree.files - litter, p);
    }
  }

  /** `tempfile.mkstemp` in the target's directory: a name nobody uses yet. */
  method FreshSibling(t: Image, p: Path) returns (q: Path)
    ensures q !in t.files && q !in t.dirs && q != p
    ensures Ancestors(q) <= Ancestors(p) + {[]}
  {
    var used := t.files.Keys + t.dirs + {p};
    var names := set u | u in used && u != [] :: u[|u| - 1];
    var name := FreshName(names, ".aiwf.tmp");
    var parent := if p == [] then [] else p[..|p| - 1];
    q := parent + [name];
    assert q[|q| - 1] == name;
    AncestorsOfChild(parent, name);
    if p != [] {
      AncestorsOfChild(parent, p[|p| - 1]);
      assert p == parent + [p[|p| - 1]];
    }
  }

  function RequestedPaths(requested: seq<RawPath>): set<Path> {
    set raw | raw in requested :: raw.parts
  }

  /** Every check before the first change passes. */
  ghost predicate Admissible(files: map<Path, Bytes>, requested: seq<RawPath>, ignored: set<string>,
                             baseline: Option<map<Path, Digest>>) {
    && (forall raw :: raw in requested ==> Safe(raw) && !Ignored(raw.parts, ignored))
    && (baseline.Some? ==> forall p :: p in RequestedPaths(requested) ==> !Conflicts(files, baseline.value, p))
  }

  ghost predicate Receipts(r: Receipt, original: map<Path, Bytes>, isolated: map<Path, Bytes>, selected: set<Path>) {
    && (forall p :: p in r.written <==> p in selected && p in isolated)
    && (forall p :: p in r.deleted <==> p in selected && p !in isolated && p in original)
    && ToSet(r.changed) == selected == PathsOf(r.manifest)
  }

  /** The checks made before anything is touched, in the order they are made. */
  method Preflight(files: map<Path, Bytes>, requested: seq<RawPath>, ignored: set<string>,
                   baseline: Option<map<Path, Digest>>)
    returns (r: Result<seq<Path>, ApplyError>)
    ensures r.Ok? <==> Admissible(files, requested, ignored, baseline)
    ensures r.Ok? ==> Distinct(r.value) && AncestorsPrecede(r.value) && ToSet(r.value) == RequestedPaths(requested)
    ensures r.Ok? || r.error.Conflicting? ==> forall raw, i :: raw in requested && 0 <= i < |raw.parts| ==>
              !raw.absolute && raw.parts[i] != ".." && raw.parts[i] !in ignored
    ensures r.Err? && r.error.UnsafePath? ==>
              exists raw :: raw in requested
                            && (raw.absolute || exists i :: 0 <= i < |raw.parts| && raw.parts[i] == "..")
    ensures r.Err? ==> match r.error
                       case UnsafePath => exists raw :: raw in requested && !Safe(raw)
                       case IgnoredPaths(blocked) =>
                         blocked == (set p | p in RequestedPaths(requested) && Ignored(p, ignored))
                       case Conflicting(conflicts) => baseline.Some? && (
                         forall p :: p in RequestedPaths(requested) && Conflicts(files, baseline.value, p)
                           <==> Conflict(p, Lookup(baseline.value, p), FileDigest(files, p)) in conflicts)
                       case _ => false
  {
    if exists raw :: raw in requested && !Safe(raw) {
      return Err(UnsafePath);
    }
    var target := RequestedPaths(requested);
    var selected := AncestorsFirst(target);
    assert forall p :: p in ToSet(selected) <==> p in selected;
    var blocked := set p | p in target && Ignored(p, ignored);
    if blocked != {} {
      var p :| p in blocked;
      assert exists raw :: raw in requested && raw.parts == p;
      return Err(IgnoredPaths(blocked));
    }
    assert forall raw :: raw in requested ==> raw.parts in target && raw.parts !in blocked;
    if baseline.Some? {
      var conflicts := DetectOriginalConflicts(files, selected, baseline.value);
      if conflicts != [] {
        return Err(Conflicting(conflicts));
      }
    }
    r := Ok(selected);
  }

  /**
   * What holds after every step of the loop, whether or not it raised.  `litter` are temporary files that
   * could not be unlinked.
   */
  ghost predicate Tracks(original: Image, t: Image, target: set<Path>, manifest: seq<Entry>, saved: map<Path, Bytes>,
                         litter: set<Path>) {
    && Sound(t) && original.dirs <= t.dirs
    && (forall d :: d in t.dirs ==> d in original.dirs || exists p :: p in PathsOf(manifest) && d in Ancestors(p))
    && Records(manifest, saved, original.files)
    && PathsOf(manifest) <= target
    && AgreeOutside(t.files, original.files, PathsOf(manifest) + litter)
    && litter <= t.files.Keys && litter !! original.files.Keys && litter !! PathsOf(manifest)
  }

  /** What holds in addition as long as no step raised. */
  ghost predicate Advanced(original: Image, t: Image, isolated: map<Path, Bytes>, done: seq<Path>, r: Receipt) {
    && PathsOf(r.manifest) == ToSet(done)
    && ToSet(done) !! original.dirs
    && t.files == Overlay(original.files, isolated, ToSet(done))
    && Listed(r, original.files, isolated, done)
  }

  ghost predicate Listed(r: Receipt, original: map<Path, Bytes>, isolated: map<Path, Bytes>, done: seq<Path>) {
    && (forall p :: p in r.written <==> p in done && p in isolated)
    && (forall p :: p in r.deleted <==> p in done && p !in isolated && p in original)
  }

  lemma NotedOne(manifest: seq<Entry>, e: Entry)
    ensures PathsOf(manifest + [e]) == PathsOf(manifest) + {e.path}
  {
    assert forall x :: x in manifest + [e] <==> x in manifest || x == e;
  }

  lemma TracksStep(original: Image, before: Image, after: Image, target: set<Path>, manifest: seq<Entry>,
                   saved: map<Path, Bytes>, saved': map<Path, Bytes>, rel: Path, noted: bool, left: set<Path>)
    requires Tracks(original, before, target, manifest, saved, {})
    requires rel in target && rel !in PathsOf(manifest)
    requires Stepped(before, after, saved, saved', rel, noted, left)
    ensures Tracks(original, after, target, if noted then manifest + [Entry(rel, rel in before.files)] else manifest,
                   saved', left - PathsOf(manifest))
  {
    var e := Entry(rel, rel in before.files);
    assert PathsOf(manifest) + {} == PathsOf(manifest);
    assert forall x :: x in manifest ==> x.path in PathsOf(manifest);
    assert Lookup(before.files, rel) == Lookup(original.files, rel);
    if noted {
      NotedOne(manifest, e);
      RecordsOne(manifest, saved, saved', original.files, e);
      forall p | p in left - PathsOf(manifest)
        ensures p !in original.files
      {
        assert Lookup(before.files, p) == Lookup(original.files, p);
      }
    } else {
      RecordsKept(manifest, saved, saved', original.files, rel);
    }
  }

  lemma RecordsKept(manifest: seq<Entry>, saved: map<Path, Bytes>, saved': map<Path, Bytes>, original: map<Path, Bytes>,
                    rel: Path)
    requires Records(manifest, saved, original) && rel !in PathsOf(manifest)
    requires forall p :: p != rel && p in saved ==> p in saved' && saved'[p] == saved[p]
    ensures Records(manifest, saved', original)
  {
    assert forall x :: x in manifest ==> x.path in PathsOf(manifest);
  }

  lemma RecordsOne(manifest: seq<Entry>, saved: map<Path, Bytes>, saved': map<Path, Bytes>, original: map<Path, Bytes>,
                   e: Entry)
    requires Records(manifest, saved, original) && e.path !in PathsOf(manifest)
    requires forall p :: p != e.path && p in saved ==> p in saved' && saved'[p] == saved[p]
    requires e.existed == (e.path in original)
    requires e.existed ==> e.path in saved' && saved'[e.path] == original[e.path]
    ensures Records(manifest + [e], saved', original)
  {
    RecordsKept(manifest, saved, saved', original, e.path);
    assert forall x :: x in manifest ==> x.path in PathsOf(manifest);
    assert forall x :: x in manifest + [e] <==> x in manifest || x == e;
  }

  lemma OverlayOneMore(original: map<Path, Bytes>, source: map<Path, Bytes>, done: set<Path>, rel: Path)
    ensures Overlay(Overlay(original, source, done), source, {rel}) == Overlay(original, source, done + {rel})
  {
  }

  lemma AdvancedStep(original: Image, before: Image, after: Image, isolated: map<Path, Bytes>, done: seq<Path>,
                     r: Receipt, rel: Path, r': Receipt)
    requires Advanced(original, before, isolated, done, r) && rel !in original.dirs
    requires after.files == Overlay(before.files, isolated, {rel})
    requires rel in before.files <==> rel in original.files
    requires r'.manifest == r.manifest + [Entry(rel, rel in before.files)]
    requires r'.written == if rel in isolated then r.written + [rel] else r.written
    requires r'.deleted == if rel !in isolated && rel in before.files then r.deleted + [rel] else r.deleted
    ensures Advanced(original, after, isolated, done + [rel], r')
  {
    ToSetSnoc(done, rel);
    NotedOne(r.manifest, Entry(rel, rel in before.files));
    OverlayOneMore(original.files, isolated, ToSet(done), rel);
  }

  /** Where parents are clear and ancestors come first, every path but a directory finds its way open. */
  lemma WayIsOpen(original: Image, now: Image, isolated: map<Path, Bytes>, selected: seq<Path>, i: nat)
    requires i < |selected| && AncestorsPrecede(selected) && ParentsClear(original, isolated, ToSet(selected))
    requires now.files == Overlay(original.files, isolated, ToSet(selected[..i]))
    requires forall d :: d in now.dirs ==> d in original.dirs || exists p :: p in selected[..i] && d in Ancestors(p)
    ensures selected[i] !in original.dirs ==> Open(now, isolated, selected[i])
  {
    var rel := selected[i];
    assert rel in ToSet(selected);
    if rel in isolated {
      forall d | d in Ancestors(rel)
        ensures d !in now.files
      {
        if d in selected {
          var j :| 0 <= j < |selected| && selected[j] == d;
          assert j != i && j < i;
          assert selected[..i][j] == d;
        } else {
          assert d !in selected[..i];
        }
      }
    }
  }

  /** A delivery that went through was feasible. */
  lemma DeliveredWasFeasible(original: Image, t: Image, isolated: map<Path, Bytes>, selected: set<Path>)
    requires Sound(t) && original.dirs <= t.dirs && selected !! original.dirs
    requires t.files == Overlay(original.files, isolated, selected)
    ensures Feasible(original, isolated, selected)
  {
    forall p, d | p in selected && p in isolated && d in Ancestors(p)
      ensures (d in original.files ==> d in selected) && (d in selected ==> d !in isolated)
    {
      assert p in t.files && d in t.dirs && d !in t.files;
    }
  }

  /** What the loop keeps: `i` paths are delivered, and one more was perhaps begun when a step raised. */
  ghost predicate Going(original: Image, t: Image, isolated: map<Path, Bytes>, selected: seq<Path>, i: nat, ok: bool,
                        r: Receipt, saved: map<Path, Bytes>, litter: set<Path>) {
    && i <= |selected|
    && Tracks(original, t, ToSet(selected), r.manifest, saved, litter)
    && (ok ==> litter == {} && Advanced(original, t, isolated, selected[..i], r))
  }

  lemma GoesOn(original: Image, before: Image, after: Image, isolated: map<Path, Bytes>, selected: seq<Path>, i: nat,
               ok: bool, noted: bool, left: set<Path>, r: Receipt, r': Receipt,
               saved: map<Path, Bytes>, saved': map<Path, Bytes>)
    requires Distinct(selected) && i < |selected| && Going(original, before, isolated, selected, i, true, r, saved, {})
    requires Stepped(before, after, saved, saved', selected[i], noted, left)
    requires ok ==> noted && left == {} && selected[i] !in after.dirs
                    && after.files == Overlay(before.files, isolated, {selected[i]})
    requires var e := Entry(selected[i], selected[i] in before.files);
             && r'.manifest == (if noted then r.manifest + [e] else r.manifest)
             && (ok ==> r'.written == if e.path in isolated then r.written + [e.path] else r.written)
             && (ok ==> r'.deleted == if e.path !in isolated && e.existed then r.deleted + [e.path] else r.deleted)
    ensures Going(original, after, isolated, selected, if ok then i + 1 else i, ok, r', saved',
                  left - PathsOf(r.manifest))
  {
    var rel := selected[i];
    assert rel !in selected[..i] && selected[..i + 1] == selected[..i] + [rel];
    TracksStep(original, before, after, ToSet(selected), r.manifest, saved, saved', rel, noted, left);
    if ok {
      assert Lookup(before.files, rel) == Lookup(original.files, rel);
      AdvancedStep(original, before, after, isolated, selected[..i], r, rel, r');
    }
  }

  /** The loop of the apply: up to the first step that raises. */
  method Synchronize(tree: ProjectTree, isolated: map<Path, Bytes>, selected: seq<Path>, backup: BackupDir)
    returns (ok: bool, written: seq<Path>, deleted: seq<Path>, manifest: seq<Entry>, ghost litter: set<Path>)
    requires Sound(tree.View()) && Distinct(selected) && AncestorsPrecede(selected)
    modifies tree`files, tree`dirs, tree`clock, backup
    ensures Tracks(old(tree.View()), tree.View(), ToSet(selected), manifest, backup.saved, litter)
    ensures ok ==> litter == {}
                   && Advanced(old(tree.View()), tree.View(), isolated, selected,
                               Receipt(written, deleted, selected, manifest))
    ensures tree.Reliable() && ParentsClear(old(tree.View()), isolated, ToSet(selected)) && !ok ==>
              PathsOf(manifest) * old(tree.dirs) != {}
  {
    ghost var original := tree.View();
    manifest, written, deleted, ok, litter := [], [], [], true, {};
    ghost var smooth := tree.Reliable() && ParentsClear(original, isolated, ToSet(selected));
    var i := 0;
    while i < |selected| && ok
      invariant Going(original, tree.View(), isolated, selected, i, ok, Receipt(written, deleted, selected, manifest),
                      backup.saved, litter)
      invariant smooth && !ok ==> PathsOf(manifest) * original.dirs != {}
      decreases |selected| - i, ok
    {
      var rel := selected[i];
      var existed := rel in tree.files;
      ghost var before, saved, r := tree.View(), backup.saved, Receipt(written, deleted, selected, manifest);
      if smooth {
        WayIsOpen(original, before, isolated, selected, i);
      }
      var noted;
      ok, noted, litter := ApplyOne(tree, isolated, rel, backup);
      if noted {
        manifest := manifest + [Entry(rel, existed)];
        NotedOne(r.manifest, Entry(rel, existed));
      }
      assert smooth && !ok ==> rel in PathsOf(manifest) * original.dirs;
      if ok {
        if rel in isolated {
          written := written + [rel];
        } else if existed {
          deleted := deleted + [rel];
        }
      }
      GoesOn(original, before, tree.View(), isolated, selected, i, ok, noted, litter, r,
             Receipt(written, deleted, selected, manifest), saved, backup.saved);
      litter := litter - PathsOf(r.manifest);
      i := if ok then i + 1 else i;
    }
    assert selected[..|selected|] == selected;
  }

  /** Delivered, or refused or undone with the files as they were. */
  predicate AllOrNothing(r: Result<Receipt, ApplyError>, was: map<Path, Bytes>, now: map<Path, Bytes>) {
    r.Ok? || (now == was && (r.error.StepRaised? ==> r.error.rolledBack))
  }

  /**
   * `apply_isolated_changes_atomic`.  `attempted` are the paths that reached the manifest, `litter` the
   * temporary files that could not be unlinked.  The outcome is the full delivery or the original files; a
   * failed delivery is undone exactly when no attempted path has turned into a directory and no temporary
   * file stayed behind.  A delivery that meets no fault goes through exactly when it is admissible and feasible;
   * and where the parents are clear, it is all or nothing exactly if, being admissible, it has no directory of the
   * original among its paths.
   */
  method ApplyIsolatedChangesAtomic(tree: ProjectTree, isolated: map<Path, Bytes>, requested: seq<RawPath>,
                                    ignored: set<string>, baseline: Option<map<Path, Digest>>, backup: BackupDir)
    returns (r: Result<Receipt, ApplyError>, ghost attempted: set<Path>, ghost litter: set<Path>)
    requires Sound(tree.View())
    modifies tree`files, tree`dirs, tree`clock, backup
    ensures Sound(tree.View())
    ensures r.Ok? ==>
              && Admissible(old(tree.files), requested, ignored, baseline)
              && tree.files == Overlay(old(tree.files), isolated, RequestedPaths(requested))
              && Receipts(r.value, old(tree.files), isolated, RequestedPaths(requested))
              && Records(r.value.manifest, backup.saved, old(tree.files))
    ensures r.Err? && !r.error.StepRaised? ==> tree.View() == old(tree.View())
    ensures !Admissible(old(tree.files), requested, ignored, baseline) <==>
            r.Err? && (r.error.UnsafePath? || r.error.IgnoredPaths? || r.error.Conflicting?)
    ensures forall raw, i :: raw in requested && 0 <= i < |raw.parts| && raw.parts[i] in ignored ==>
              r.Err? && (r.error.UnsafePath? || r.error.IgnoredPaths?)
    ensures r.Ok? ==> forall p, i :: 0 <= i < |p| && p[i] in ignored ==>
              Lookup(tree.files, p) == Lookup(old(tree.files), p)
    ensures attempted <= RequestedPaths(requested) && litter !! old(tree.files).Keys && litter !! attempted
    ensures r.Err? && r.error.StepRaised? ==>
              && ((r.error.rolledBack && tree.files == old(tree.files)) <==> attempted !! tree.dirs && litter == {})
              && ((r.error.rolledBack && AgreeOutside(tree.files, old(tree.files), litter)) <==> attempted !! tree.dirs)
    ensures r.Err? && r.error.StepRaised? && Clear(old(tree.View()), RequestedPaths(requested)) ==>
              r.error.rolledBack && AgreeOutside(tree.files, old(tree.files), litter)
    ensures r.Ok? ==> Feasible(old(tree.View()), isolated, RequestedPaths(requested))
    ensures tree.Reliable() ==>
              (r.Ok? <==> Admissible(old(tree.files), requested, ignored, baseline)
                          && Feasible(old(tree.View()), isolated, RequestedPaths(requested)))
    ensures tree.Reliable() && ParentsClear(old(tree.View()), isolated, RequestedPaths(requested)) ==>
              (AllOrNothing(r, old(tree.files), tree.files)
               <==> (Admissible(old(tree.files), requested, ignored, baseline) ==>
                       RequestedPaths(requested) !! old(tree.dirs)))
  {
    attempted, litter := {}, {};
    ghost var original := tree.View();
    var checked := Preflight(tree.files, requested, ignored, baseline);
    if checked.Err? {
      return Err(checked.error), attempted, litter;
    }
    var ok := tree.Step();
    if !ok {
      return Err(BackupUnavailable), attempted, litter;
    }
    var selected := checked.value;
    var written, deleted, manifest;
    ok, written, deleted, manifest, litter := Synchronize(tree, isolated, selected, backup);
    attempted := PathsOf(manifest);
    if ok {
      DeliveredWasFeasible(original, tree.View(), isolated, ToSet(selected));
      r := Ok(Receipt(written, deleted, selected, manifest));
    } else {
      RollbackRestores(original, tree.View(), ToSet(selected), manifest, backup.saved, litter);
      var rolledBack := RollbackAtomicApply(tree, manifest, backup);
      r := Err(StepRaised(rolledBack));
    }
  }

  /** What the rollback of a broken-off delivery comes to. */
  lemma RollbackRestores(original: Image, t: Image, target: set<Path>, manifest: seq<Entry>, saved: map<Path, Bytes>,
                         litter: set<Path>)
    requires Sound(original) && Tracks(original, t, target, manifest, saved, litter)
    ensures var u := Undo(t, manifest, saved);
            && Sound(u.image) && u.image.dirs == t.dirs
            && ((u.ok && AgreeOutside(u.image.files, original.files, litter)) <==> PathsOf(manifest) !! t.dirs)
            && ((u.ok && u.image.files == original.files) <==> PathsOf(manifest) !! t.dirs && litter == {})
            && (Clear(original, target) ==> PathsOf(manifest) !! t.dirs)
  {
    RollbackIsExact(original, t, manifest, saved, litter);
    UndoSound(t, manifest, saved);
    var u := Undo(t, manifest, saved);
    if PathsOf(manifest) !! t.dirs {
      if litter == {} {
        AgreeEverywhere(u.image.files, original.files);
      } else {
        var q :| q in litter;
        assert Lookup(u.image.files, q) == Lookup(t.files, q);
      }
    }
  }

  // ---------------------------------------------------------------- theorems

  /** Each visible path holds its isolated or its baseline content: nobody else's edit is in danger. */
  ghost predicate Unedited(original: map<Path, Bytes>, isolated: map<Path, Bytes>, base: map<Path, Bytes>,
                           ignored: set<string>) {
    forall p :: !Ignored(p, ignored) ==>
      Lookup(original, p) == Lookup(isolated, p) || Lookup(original, p) == Lookup(base, p)
  }

  /** The visible files are those of the copy, the ignored ones as they were, and there is no difference left. */
  ghost predicate Delivered(was: map<Path, Bytes>, now: map<Path, Bytes>, isolated: map<Path, Bytes>,
                            ignored: set<string>) {
    && (forall p :: Lookup(now, p) == if Ignored(p, ignored) then Lookup(was, p) else Lookup(isolated, p))
    && ChangedPaths(now, isolated, ignored) == {}
  }

  /**
   * Three-way delivery of everything that differs: it is admitted exactly when each visible
   * path of the current original holds its isolated or its baseline content, so no
   * concurrent edit is overwritten; what is delivered is the isolated copy on the visible
   * paths and the original on the ignored ones, and a second difference is empty.
   */
  lemma ThreeWayDelivery(original: map<Path, Bytes>, isolated: map<Path, Bytes>, base: map<Path, Bytes>,
                         ignored: set<string>, requested: seq<RawPath>)
    requires RequestedPaths(requested) == ChangedPaths(original, isolated, ignored)
    requires forall raw :: raw in requested ==> Safe(raw)
    ensures Admissible(original, requested, ignored, Some(SnapshotHashes(base, ignored)))
            <==> Unedited(original, isolated, base, ignored)
    ensures Delivered(original, Overlay(original, isolated, RequestedPaths(requested)), isolated, ignored)
  {
    var changed, hashes := ChangedPaths(original, isolated, ignored), SnapshotHashes(base, ignored);
    forall p | !Ignored(p, ignored)
      ensures Conflicts(original, hashes, p) <==> Lookup(original, p) != Lookup(base, p)
      ensures p in changed <==> Lookup(original, p) != Lookup(isolated, p)
    {
    }
    assert forall raw :: raw in requested ==> raw.parts in changed;
    var d := Overlay(original, isolated, changed);
    forall p
      ensures Lookup(d, p) == if Ignored(p, ignored) then Lookup(original, p) else Lookup(isolated, p)
    {
    }
  }

  /** All differences from a copy in which no file is above another are feasible unless one is a directory. */
  lemma DifferencesAreFeasible(original: Image, isolated: map<Path, Bytes>, ignored: set<string>)
    requires PrefixFree(isolated.Keys)
    ensures ParentsClear(original, isolated, ChangedPaths(original.files, isolated, ignored))
    ensures Feasible(original, isolated, ChangedPaths(original.files, isolated, ignored))
            <==> ChangedPaths(original.files, isolated, ignored) !! original.dirs
  {
    var changed := ChangedPaths(original.files, isolated, ignored);
    forall p, d | p in changed && p in isolated && d in Ancestors(p)
      ensures d !in isolated && (d in original.files ==> d in changed)
    {
      var n :| 0 <= n < |p| && d == p[..n];
      assert forall k :: 0 <= k < |d| ==> d[k] == p[k];
      assert d !in isolated;
    }
  }

  /**
   * The whole delivery of all differences, as it is made with the baseline: without a fault it succeeds if and
   * only if each visible path of the original holds its isolated or its baseline content and no changed path is a
   * directory; then the visible files are those of the copy and the ignored ones are untouched.  If no changed
   * path is a directory, it leaves the files alone otherwise.
   */
  method DeliverDifferences(tree: ProjectTree, isolated: map<Path, Bytes>, base: map<Path, Bytes>,
                            ignored: set<string>, backup: BackupDir)
    returns (r: Result<Receipt, ApplyError>)
    requires Sound(tree.View()) && PrefixFree(isolated.Keys)
    requires forall p :: p in tree.files || p in isolated ==> ".." !in p
    modifies tree`files, tree`dirs, tree`clock, backup
    ensures tree.Reliable() ==>
              (r.Ok? <==> Unedited(old(tree.files), isolated, base, ignored)
                          && ChangedPaths(old(tree.files), isolated, ignored) !! old(tree.dirs))
    ensures r.Ok? ==> Delivered(old(tree.files), tree.files, isolated, ignored)
    ensures r.Ok? ==> forall p, i :: 0 <= i < |p| && p[i] in ignored ==>
              Lookup(tree.files, p) == Lookup(old(tree.files), p)
    ensures r.Ok? ==> forall p :: (forall i :: 0 <= i < |p| ==> p[i] !in ignored) ==>
              Lookup(tree.files, p) == Lookup(isolated, p)
    ensures tree.Reliable() ==>
              (AllOrNothing(r, old(tree.files), tree.files)
               <==> (Unedited(old(tree.files), isolated, base, ignored) ==>
                       ChangedPaths(old(tree.files), isolated, ignored) !! old(tree.dirs)))
  {
    ghost var original := tree.View();
    var changed := ChangedProjectFiles(tree.files, isolated, ignored);
    assert forall p :: p in changed <==> p in ToSet(changed);
    var requested := seq(|changed|, i requires 0 <= i < |changed| => RawPath(false, changed[i]));
    RequestedAre(requested, changed);
    ThreeWayDelivery(tree.files, isolated, base, ignored, requested);
    DifferencesAreFeasible(original, isolated, ignored);
    ghost var attempted, litter;
    r, attempted, litter := ApplyIsolatedChangesAtomic(tree, isolated, requested, ignored,
                                                       Some(SnapshotHashes(base, ignored)), backup);
  }

  lemma RequestedAre(requested: seq<RawPath>, changed: seq<Path>)
    requires |requested| == |changed|
    requires forall i :: 0 <= i < |changed| ==> requested[i] == RawPath(false, changed[i])
    ensures RequestedPaths(requested) == ToSet(changed)
    ensures (forall p :: p in changed ==> ".." !in p) ==> forall raw :: raw in requested ==> Safe(raw)
  {
    forall p | p in changed
      ensures p in RequestedPaths(requested)
    {
      var i :| 0 <= i < |changed| && changed[i] == p;
      assert requested[i] in requested;
    }
  }

  /** A file changed and a directory to be replaced by a file, with nobody having touched the project since. */
  ghost predicate DirectoryInTheWay(a: string, d: string, x: Bytes, y: Bytes, z: Bytes, original: Image,
                                    isolated: map<Path, Bytes>, stopped: Image, manifest: seq<Entry>,
                                    saved: map<Path, Bytes>) {
    && a != d && x != y
    && original == Image(map[[a] := x], {[], [d]}) && isolated == map[[a] := y, [d] := z]
    && stopped == Image(map[[a] := y], {[], [d]})
    && manifest == [Entry([a], true), Entry([d], false)] && saved == map[[a] := x]
  }

  /** Its two trees are proper ones, and differ in the file and in the directory. */
  lemma DirectoryDiffers(a: string, d: string, x: Bytes, y: Bytes, z: Bytes, original: Image,
                         isolated: map<Path, Bytes>, stopped: Image, manifest: seq<Entry>, saved: map<Path, Bytes>)
    requires DirectoryInTheWay(a, d, x, y, z, original, isolated, stopped, manifest, saved)
    ensures Sound(original) && PrefixFree(isolated.Keys)
    ensures ChangedPaths(original.files, isolated, {}) == {[a], [d]}
  {
    ShortAncestors(a, d);
    ShortAncestors(d, a);
    assert [a] != [d];
    forall p
      ensures p in ChangedPaths(original.files, isolated, {}) <==> p in {[a], [d]}
    {
      assert !Ignored(p, {});
    }
  }

  /** It passes every check, as the digest of a directory is that of nothing ... */
  lemma DirectoryPassesChecks(a: string, d: string, x: Bytes, y: Bytes, z: Bytes, original: Image,
                              isolated: map<Path, Bytes>, stopped: Image, manifest: seq<Entry>, saved: map<Path, Bytes>,
                              requested: seq<RawPath>)
    requires DirectoryInTheWay(a, d, x, y, z, original, isolated, stopped, manifest, saved)
    requires a != ".." && d != ".." && requested == [RawPath(false, [a]), RawPath(false, [d])]
    ensures RequestedPaths(requested) == ChangedPaths(original.files, isolated, {})
    ensures Admissible(original.files, requested, {}, Some(SnapshotHashes(original.files, {})))
  {
    var changed := [[a], [d]];
    DirectoryDiffers(a, d, x, y, z, original, isolated, stopped, manifest, saved);
    RequestedAre(requested, changed);
    assert ToSet(changed) == {changed[0], changed[1]};
  }

  /** ... breaks off at the directory, with the file already replaced ... */
  lemma DirectoryStopsDelivery(a: string, d: string, x: Bytes, y: Bytes, z: Bytes, original: Image,
                               isolated: map<Path, Bytes>, stopped: Image, manifest: seq<Entry>,
                               saved: map<Path, Bytes>)
    requires DirectoryInTheWay(a, d, x, y, z, original, isolated, stopped, manifest, saved)
    ensures Tracks(original, stopped, {[a], [d]}, manifest, saved, {})
    ensures stopped.files == Overlay(original.files, isolated, {[a]}) && !Open(stopped, isolated, [d])
  {
    ShortAncestors(a, d);
    ShortAncestors(d, a);
    assert [a] != [d];
    assert forall e :: e in manifest <==> e == Entry([a], true) || e == Entry([d], false);
    assert PathsOf(manifest) == {[a], [d]};
  }

  /** ... and is not undone: the rollback raises at the directory before it comes to the file. */
  lemma DirectoryStopsRollback(a: string, d: string, x: Bytes, y: Bytes, z: Bytes, original: Image,
                               isolated: map<Path, Bytes>, stopped: Image, manifest: seq<Entry>,
                               saved: map<Path, Bytes>)
    requires DirectoryInTheWay(a, d, x, y, z, original, isolated, stopped, manifest, saved)
    ensures Undo(stopped, manifest, saved) == Undone(stopped, false)
    ensures stopped.files != original.files && stopped.files != Overlay(original.files, isolated, {[a], [d]})
  {
    assert [a] != [d];
    assert original.files[[a]] == x && stopped.files[[a]] == y;
    assert [d] in Overlay(original.files, isolated, {[a], [d]}) && [d] !in stopped.files;
  }

  /** The rollback of a completed delivery is its inverse, exactly when no delivered path has become a directory. */
  lemma DeliveryIsReversible(original: Image, delivered: Image, isolated: map<Path, Bytes>, selected: set<Path>,
                             receipt: Receipt, saved: map<Path, Bytes>)
    requires Sound(original) && Sound(delivered) && original.dirs <= delivered.dirs
    requires delivered.files == Overlay(original.files, isolated, selected)
    requires Receipts(receipt, original.files, isolated, selected) && Records(receipt.manifest, saved, original.files)
    ensures var u := Undo(delivered, receipt.manifest, saved);
            (u.ok && u.image.files == original.files) <==> selected !! delivered.dirs
  {
    RollbackIsExact(original, delivered, receipt.manifest, saved, {});
    var u := Undo(delivered, receipt.manifest, saved);
    if AgreeOutside(u.image.files, original.files, {}) {
      AgreeEverywhere(u.image.files, original.files);
    }
  }

  /** An edit that turns the file `a` into a directory with the file `b` in it. */
  ghost predicate FileBecomesDirectory(a: string, b: string, x: Bytes, y: Bytes, original: Image,
                                       isolated: map<Path, Bytes>, selected: set<Path>, delivered: Image,
                                       receipt: Receipt, saved: map<Path, Bytes>) {
    && original == Image(map[[a] := x], {[]}) && isolated == map[[a, b] := y]
    && selected == {[a], [a, b]} == ChangedPaths(original.files, isolated, {})
    && delivered == Image(map[[a, b] := y], {[], [a]})
    && receipt == Receipt([[a, b]], [[a]], [[a], [a, b]], [Entry([a], true), Entry([a, b], false)])
    && saved == map[[a] := x]
  }

  lemma ShortAncestors(a: string, b: string)
    ensures Ancestors([a]) == {[]} && Ancestors([a, b]) == {[], [a]} && Ancestors([a, a]) == {[], [a]}
  {
    AncestorsOfChild([], a);
    AncestorsOfChild([a], b);
    AncestorsOfChild([a], a);
    assert Ancestors([]) == {} && [] + [a] == [a] && [a] + [b] == [a, b] && [a] + [a] == [a, a];
  }

  /** It can be delivered ... */
  lemma FileBecomesDirectoryDelivers(a: string, b: string, x: Bytes, y: Bytes, original: Image,
                                     isolated: map<Path, Bytes>, selected: set<Path>, delivered: Image,
                                     receipt: Receipt, saved: map<Path, Bytes>)
    requires FileBecomesDirectory(a, b, x, y, original, isolated, selected, delivered, receipt, saved)
    ensures Sound(original) && Sound(delivered) && Feasible(original, isolated, selected)
    ensures delivered.files == Overlay(original.files, isolated, selected)
  {
    ShortAncestors(a, b);
    assert [a] != [a, b];
  }

  /** ... with a proper receipt and proper backups ... */
  lemma FileBecomesDirectoryIsRecorded(a: string, b: string, x: Bytes, y: Bytes, original: Image,
                                       isolated: map<Path, Bytes>, selected: set<Path>, delivered: Image,
                                       receipt: Receipt, saved: map<Path, Bytes>)
    requires FileBecomesDirectory(a, b, x, y, original, isolated, selected, delivered, receipt, saved)
    ensures Receipts(receipt, original.files, isolated, selected) && Records(receipt.manifest, saved, original.files)
  {
    assert [a] != [a, b];
    assert forall e :: e in receipt.manifest <==> e == Entry([a], true) || e == Entry([a, b], false);
  }

  /** ... but its rollback, without any fault, puts the old file into the directory that took its place. */
  lemma FileBecomesDirectoryStays(a: string, b: string, x: Bytes, y: Bytes, original: Image, isolated: map<Path, Bytes>,
                                  selected: set<Path>, delivered: Image, receipt: Receipt, saved: map<Path, Bytes>)
    requires FileBecomesDirectory(a, b, x, y, original, isolated, selected, delivered, receipt, saved)
    ensures Undo(delivered, receipt.manifest, saved) == Undone(Image(map[[a, a] := x], delivered.dirs), true)
  {
    ShortAncestors(a, b);
    var first, second := Entry([a], true), Entry([a, b], false);
    assert [first, second][..1] == [first] && [first][..0] == [];
    var emptied := Image(map[], {[], [a]});
    assert delivered.files - {[a, b]} == map[];
    assert UndoOne(delivered, second, saved) == Undone(emptied, true);
    assert emptied.dirs + {[]} == emptied.dirs && [a] + [a] == [a, a];
    assert UndoOne(emptied, first, saved) == Undone(Image(map[[a, a] := x], emptied.dirs), true);
    assert Undo(emptied, [first], saved) == Undone(Image(map[[a, a] := x], emptied.dirs), true);
  }

  /**
   * And a fault after the parents of the new file were made breaks the delivery off with nothing selected having
   * been a directory; the rollback then reports success, and the old file is in the directory that stayed.
   */
  lemma FileBecomesDirectoryBreaksOff(a: string, b: string, x: Bytes, y: Bytes, original: Image,
                                      isolated: map<Path, Bytes>, selected: set<Path>, delivered: Image,
                                      receipt: Receipt, saved: map<Path, Bytes>)
    requires FileBecomesDirectory(a, b, x, y, original, isolated, selected, delivered, receipt, saved)
    ensures Feasible(original, isolated, selected) && !Clear(original, selected)
    ensures Tracks(original, Image(map[], delivered.dirs), selected, receipt.manifest, saved, {})
    ensures Undo(Image(map[], delivered.dirs), receipt.manifest, saved)
            == Undone(Image(map[[a, a] := x], delivered.dirs), true)
  {
    ShortAncestors(a, b);
    var first, second := Entry([a], true), Entry([a, b], false);
    FileBecomesDirectoryDelivers(a, b, x, y, original, isolated, selected, delivered, receipt, saved);
    FileBecomesDirectoryIsRecorded(a, b, x, y, original, isolated, selected, delivered, receipt, saved);
    FileBecomesDirectoryStays(a, b, x, y, original, isolated, selected, delivered, receipt, saved);
    var stopped := Image(map[], delivered.dirs);
    assert [first, second][..1] == [first];
    assert UndoOne(stopped, second, saved) == Undone(stopped, true);
    assert delivered.files - {[a, b]} == map[];
    assert UndoOne(delivered, second, saved) == Undone(stopped, true);
  }
}
