/**
 * Snapshots of a project and the two ways of going back to one after a failed attempt
 * (app/runtime_modules/files.py).
 */
module SnapshotRestore {
  import opened Prelude
  import opened FileTrees
  import opened PathTexts

  const IGNORED_DIRS: set<string> :=
    {".git", ".vs", ".qwen", ".qwen-workflow", ".ai-workflow", "__pycache__", ".pytest_cache", ".mypy_cache",
     "node_modules", ".venv", "venv", "workspaces", "dist", "build", ".next", "coverage"}

  const IGNORED_FILES: set<string> := {"opencode.json"}

  datatype Stat = Stat(size: nat, modified: nat)

  predicate Visible(p: Path) {
    && (forall i :: 0 <= i < |p| ==> p[i] !in IGNORED_DIRS)
    && (p != [] ==> p[|p| - 1] !in IGNORED_FILES)
  }

  function ContentSnapshot(files: map<Path, Bytes>): map<Path, Bytes> {
    map p | p in files && Visible(p) :: files[p]
  }

  /** The directories of tools, of the workflow itself, of installed packages and of what is built. */
  predicate NotOfTheProject(name: string) {
    || name == ".git" || name == ".vs" || name == ".qwen" || name == ".qwen-workflow" || name == ".ai-workflow"
    || name == "__pycache__" || name == ".pytest_cache" || name == ".mypy_cache"
    || name == "node_modules" || name == ".venv" || name == "venv"
    || name == "workspaces" || name == "dist" || name == "build" || name == ".next" || name == "coverage"
  }

  /**
   * A snapshot has a file as it is, unless the file is in such a directory at whatever depth or has the one name that
   * is passed over.
   */
  lemma SnapshotHas(files: map<Path, Bytes>, p: Path)
    requires p != []
    ensures Lookup(ContentSnapshot(files), p) ==
            if (exists name :: name in p && NotOfTheProject(name)) || p[|p| - 1] == "opencode.json" then None
            else Lookup(files, p)
  {
    if exists name :: name in p && NotOfTheProject(name) {
      var name :| name in p && NotOfTheProject(name);
      assert name in IGNORED_DIRS;
    } else {
      forall i | 0 <= i < |p|
        ensures p[i] !in IGNORED_DIRS
      {
        assert p[i] in p && !NotOfTheProject(p[i]);
      }
    }
  }

  function ChangedSnapshotPaths(before: map<Path, Stat>, after: map<Path, Stat>): set<Path> {
    set p | p in before.Keys + after.Keys && Lookup(before, p) != Lookup(after, p)
  }

  /** A snapshot is taken from the visible files of a sound tree. */
  ghost predicate Snapshot(snapshot: map<Path, Bytes>) {
    (forall p :: p in snapshot ==> Visible(p)) && PrefixFree(snapshot.Keys)
  }

  lemma SnapshotsAreSnapshots(t: Image)
    requires Sound(t)
    ensures Snapshot(ContentSnapshot(t.files))
  {
  }

  /** Nothing that stays in the way of the listed snapshot paths. */
  ghost predicate Reachable(t: Image, snapshot: map<Path, Bytes>, listed: set<Path>) {
    forall p :: p in listed && p in snapshot ==>
      p !in t.dirs && forall d :: d in Ancestors(p) && d in t.files ==> d in listed
  }

  /** How far a restore that meets no obstacle has come: the paths in `done` are back. */
  ghost predicate Progress(original: Image, t: Image, snapshot: map<Path, Bytes>, done: set<Path>) {
    && t.files == Overlay(original.files, snapshot, done)
    && forall d :: d in t.dirs ==> d in original.dirs || exists p :: p in snapshot && d in Ancestors(p)
  }

  lemma NothingInTheWay(original: Image, t: Image, snapshot: map<Path, Bytes>, listed: set<Path>, done: set<Path>,
                        p: Path)
    requires Snapshot(snapshot) && Reachable(original, snapshot, listed) && Progress(original, t, snapshot, done)
    requires p in snapshot && p in listed
    requires forall d :: d in Ancestors(p) && d in listed && d !in snapshot ==> d in done
    ensures Ancestors(p) !! t.files.Keys && p !in t.dirs
  {
  }

  /** Make the parents, then write the bytes back; only the first of the two can raise. */
  method RewriteFile(tree: ProjectTree, p: Path, content: Bytes) returns (ok: bool)
    requires Sound(tree.View())
    modifies tree`files, tree`dirs, tree`clock
    ensures Sound(tree.View()) && old(tree.dirs) <= tree.dirs
    ensures AgreeOutside(tree.files, old(tree.files), {p})
    ensures tree.Reliable() ==> (ok <==> Ancestors(p) !! old(tree.files).Keys)
    ensures tree.Reliable() && ok ==>
              && tree.dirs == old(tree.dirs) + Ancestors(p)
              && tree.files == if p in old(tree.dirs) then old(tree.files) else old(tree.files)[p := content]
  {
    ghost var before := tree.View();
    ok := tree.MakeParents(p);
    assert p in tree.dirs <==> p in before.dirs;
    if ok {
      var _ := tree.WriteBytes(p, content);
      assert forall q :: q in tree.files && q != p ==> Lookup(tree.files, q) == Lookup(before.files, q);
      assert p in tree.files && p in tree.dirs ==> Lookup(tree.files, p) == Lookup(before.files, p);
      if p in before.dirs {
        AgreeEverywhere(tree.files, before.files);
      }
    }
  }

  method RemoveIfFile(tree: ProjectTree, p: Path)
    requires Sound(tree.View())
    modifies tree`files, tree`clock
    ensures Sound(tree.View())
    ensures AgreeOutside(tree.files, old(tree.files), {p})
    ensures tree.Reliable() ==> tree.files == old(tree.files) - {p}
  {
    if p in tree.files {
      var _ := tree.Unlink(p);
    }
  }

  /** One path put back. */
  ghost predicate PutBack(before: Image, after: Image, snapshot: map<Path, Bytes>, p: Path) {
    && after.files == (if p in snapshot then before.files[p := snapshot[p]] else before.files - {p})
    && after.dirs == (if p in snapshot then before.dirs + Ancestors(p) else before.dirs)
  }

  lemma ProgressStep(original: Image, before: Image, after: Image, snapshot: map<Path, Bytes>, done: set<Path>, p: Path)
    requires Progress(original, before, snapshot, done)
    requires PutBack(before, after, snapshot, p)
    ensures Progress(original, after, snapshot, done + {p})
  {
  }

  /** What the restore loops keep. */
  ghost predicate Midway(original: Image, t: Image, snapshot: map<Path, Bytes>, listed: set<Path>,
                         done: set<Path>, clean: bool) {
    && Sound(t) && original.dirs <= t.dirs
    && AgreeOutside(t.files, original.files, listed)
    && (clean ==> Progress(original, t, snapshot, done))
  }

  lemma MidwayStep(original: Image, before: Image, after: Image, snapshot: map<Path, Bytes>, listed: set<Path>,
                   done: set<Path>, p: Path, clean: bool)
    requires Midway(original, before, snapshot, listed, done, clean) && p in listed
    requires Sound(after) && before.dirs <= after.dirs && AgreeOutside(after.files, before.files, {p})
    requires clean ==> PutBack(before, after, snapshot, p)
    ensures Midway(original, after, snapshot, listed, done + {p}, clean)
  {
    if clean {
      ProgressStep(original, before, after, snapshot, done, p);
    }
  }

  // ---------------------------------------------------------------- the selected restore

  /** The keys of a snapshot are the texts of its paths, as the system writes them. */
  ghost predicate Keyed(snapshot: map<Path, Bytes>, sep: char, saved: map<string, Bytes>) {
    && (sep == '/' || sep == '\\')
    && Snapshot(snapshot)
    && (forall p :: p in snapshot ==> Plain(p, sep) && Text(p, sep) in saved && saved[Text(p, sep)] == snapshot[p])
    && (forall t :: t in saved ==> Parts(t, sep) in snapshot && Text(Parts(t, sep), sep) == t)
  }

  /** The paths that the texts of a list denote. */
  function Places(root: Path, texts: set<string>): set<Path> {
    set t | t in Normals(texts) && Place(root, t).Some? :: Place(root, t).value
  }

  /** What the list makes of a path: what the last text that denotes it is the key of, or what was there before. */
  function Told(files: map<Path, Bytes>, saved: map<string, Bytes>, root: Path, order: seq<string>, p: Path)
    : Option<Bytes>
  {
    match LastFor(root, order, p)
    case None => Lookup(files, p)
    case Some(t) => Lookup(saved, t)
  }

  ghost predicate AsTold(now: map<Path, Bytes>, files: map<Path, Bytes>, saved: map<string, Bytes>, root: Path,
                         order: seq<string>) {
    forall p :: Lookup(now, p) == Told(files, saved, root, order, p)
  }

  /** Every file above a path that is written has been named earlier. */
  ghost predicate WaysOpen(original: Image, saved: map<string, Bytes>, root: Path, order: seq<string>) {
    forall i, d :: 0 <= i < |order| && order[i] in saved && Place(root, order[i]).Some?
                   && d in Ancestors(Place(root, order[i]).value) && d in original.files ==>
      LastFor(root, order[..i], d).Some?
  }

  /** And no file is to be where there is a directory. */
  ghost predicate Unobstructed(original: Image, saved: map<string, Bytes>, root: Path, order: seq<string>) {
    && WaysOpen(original, saved, root, order)
    && forall p :: p in original.dirs ==> Told(original.files, saved, root, order, p).None?
  }

  /** Directories stay, and everything else is as told. */
  ghost predicate ButDirectories(original: Image, now: map<Path, Bytes>, saved: map<string, Bytes>, root: Path,
                                 order: seq<string>) {
    forall p :: Lookup(now, p) == if p in original.dirs then None else Told(original.files, saved, root, order, p)
  }

  /** How far a selected restore has come without a fault. */
  ghost predicate Following(original: Image, t: Image, snapshot: map<Path, Bytes>,
                            saved: map<string, Bytes>, root: Path, order: seq<string>) {
    && (forall d :: d in t.dirs ==> d in original.dirs || exists p :: p in snapshot && d in Ancestors(p))
    && ButDirectories(original, t.files, saved, root, order)
  }

  /** What a selected restore without a fault comes to. */
  ghost predicate Followed(original: Image, now: map<Path, Bytes>, ok: bool, saved: map<string, Bytes>, root: Path,
                           order: seq<string>) {
    && (ok <==> WaysOpen(original, saved, root, order))
    && (ok ==> ButDirectories(original, now, saved, root, order))
  }

  /** What the loop of the selected restore keeps whatever raises. */
  ghost predicate Within(original: Image, t: Image, places: set<Path>) {
    Sound(t) && original.dirs <= t.dirs && AgreeOutside(t.files, original.files, places)
  }

  /** A key in normal form denotes its own path. */
  lemma KeyDenotes(snapshot: map<Path, Bytes>, sep: char, saved: map<string, Bytes>, root: Path, t: string)
    requires Keyed(snapshot, sep, saved) && t in saved && '\\' !in t
    ensures var p := Parts(t, sep); p in snapshot && saved[t] == snapshot[p] && Place(root, t) == Some(p)
  {
    NormalTextDenotes(root, Parts(t, sep), sep);
  }

  /** Above the path of a key there is a file exactly where an original one has not been named. */
  lemma WayIsOpen(original: Image, t: Image, snapshot: map<Path, Bytes>, sep: char, saved: map<string, Bytes>,
                  root: Path, order: seq<string>, p: Path)
    requires Sound(original) && Keyed(snapshot, sep, saved) && p in snapshot
    requires forall s :: s in order ==> '\\' !in s
    requires Following(original, t, snapshot, saved, root, order)
    ensures Ancestors(p) !! t.files.Keys
            <==> forall d :: d in Ancestors(p) && d in original.files ==> LastFor(root, order, d).Some?
  {
    forall d | d in Ancestors(p)
      ensures d in t.files <==> d in original.files && LastFor(root, order, d).None?
    {
      LastForIs(root, order, d);
      assert Lookup(t.files, d) == if d in original.dirs then None else Told(original.files, saved, root, order, d);
      if LastFor(root, order, d).Some? && LastFor(root, order, d).value in saved {
        KeyDenotes(snapshot, sep, saved, root, LastFor(root, order, d).value);
      }
    }
  }

  /** One text further. */
  lemma FollowingStep(original: Image, before: Image, after: Image, snapshot: map<Path, Bytes>, sep: char,
                      saved: map<string, Bytes>, root: Path, order: seq<string>, t: string)
    requires Keyed(snapshot, sep, saved) && '\\' !in t
    requires original.dirs <= before.dirs && Following(original, before, snapshot, saved, root, order)
    requires TextRead(before, after, saved, root, t, true)
    ensures Following(original, after, snapshot, saved, root, order + [t])
  {
    if t in saved {
      KeyDenotes(snapshot, sep, saved, root, t);
    }
    ToldOneMore(original, before, after, saved, root, order, t);
  }

  lemma ToldOneMore(original: Image, before: Image, after: Image, saved: map<string, Bytes>, root: Path,
                    order: seq<string>, t: string)
    requires ButDirectories(original, before.files, saved, root, order) && TextRead(before, after, saved, root, t, true)
    requires t in saved && Place(root, t).Some? ==>
               (Place(root, t).value in before.dirs <==> Place(root, t).value in original.dirs)
    ensures ButDirectories(original, after.files, saved, root, order + [t])
  {
    assert (order + [t])[..|order|] == order;
    forall p
      ensures Lookup(after.files, p) ==
                if p in original.dirs then None else Told(original.files, saved, root, order + [t], p)
    {
      assert Lookup(before.files, p) == if p in original.dirs then None
        else Told(original.files, saved, root, order, p);
    }
  }

  /** One text read without a fault. */
  ghost predicate TextRead(before: Image, after: Image, saved: map<string, Bytes>, root: Path, t: string, ok: bool) {
    match Place(root, t)
    case None => ok && after == before
    case Some(p) =>
      && (ok <==> t in saved ==> Ancestors(p) !! before.files.Keys)
      && (ok && t in saved ==>
            && after.dirs == before.dirs + Ancestors(p)
            && after.files == if p in before.dirs then before.files else before.files[p := saved[t]])
      && (ok && t !in saved ==> after.dirs == before.dirs && after.files == before.files - {p})
  }

  /** The loop body of the selected restore. */
  method RestoreOne(tree: ProjectTree, saved: map<string, Bytes>, root: Path, t: string) returns (ok: bool)
    requires Sound(tree.View())
    modifies tree`files, tree`dirs, tree`clock
    ensures Sound(tree.View()) && old(tree.dirs) <= tree.dirs
    ensures Place(root, t).None? ==> tree.files == old(tree.files)
    ensures Place(root, t).Some? ==> AgreeOutside(tree.files, old(tree.files), {Place(root, t).value})
    ensures tree.Reliable() ==> TextRead(old(tree.View()), tree.View(), saved, root, t, ok)
  {
    ok := true;
    var place := Place(root, t);
    if place.Some? {
      if t in saved {
        ok := RewriteFile(tree, place.value, saved[t]);
      } else {
        RemoveIfFile(tree, place.value);
      }
    }
  }

  /**
   * `restore_selected_project_paths`.  Whatever raises, only files that a text of the list denotes are touched.
   * When nothing fails by itself, every path holds what the last text that denotes it is the key of, and nothing
   * if that text is no key, exactly where nothing stands in the way: a directory in a file's place is passed over
   * in silence, a file in a directory's place raises.
   */
  method RestoreSelectedProjectPaths(tree: ProjectTree, saved: map<string, Bytes>, root: Path, texts: set<string>,
                                     ghost snapshot: map<Path, Bytes>, ghost sep: char)
    returns (ok: bool, order: seq<string>)
    requires Sound(tree.View()) && Keyed(snapshot, sep, saved)
    modifies tree`files, tree`dirs, tree`clock
    ensures Sorted(order) && ToSet(order) == Normals(texts)
    ensures Within(old(tree.View()), tree.View(), Places(root, texts))
    ensures tree.Reliable() ==> Followed(old(tree.View()), tree.files, ok, saved, root, order)
    ensures tree.Reliable() ==>
              ((ok && AsTold(tree.files, old(tree.files), saved, root, order))
               <==> Unobstructed(old(tree.View()), saved, root, order))
  {
    order := SortedTexts(Normals(texts));
    ghost var original := tree.View();
    ok := true;
    var i := 0;
    while i < |order| && ok
      invariant i <= |order|
      invariant Halfway(original, tree.View(), snapshot, saved, root, texts, order, i, ok, tree.Reliable())
    {
      ghost var before := tree.View();
      ok := RestoreOne(tree, saved, root, order[i]);
      OneTextMore(original, before, tree.View(), snapshot, sep, saved, root, texts, order, i, ok, tree.Reliable());
      i := i + 1;
    }
    AtTheEnd(original, tree.View(), snapshot, saved, root, texts, order, i, ok, tree.Reliable());
  }

  /** What the loop keeps without a fault. */
  ghost predicate Underway(original: Image, t: Image, snapshot: map<Path, Bytes>, saved: map<string, Bytes>, root: Path,
                           order: seq<string>, ok: bool) {
    && (ok <==> WaysOpen(original, saved, root, order))
    && (ok ==> Following(original, t, snapshot, saved, root, order))
  }

  /** What the loop keeps. */
  ghost predicate Halfway(original: Image, t: Image, snapshot: map<Path, Bytes>, saved: map<string, Bytes>, root: Path,
                          texts: set<string>, order: seq<string>, i: nat, ok: bool, reliable: bool) {
    && Within(original, t, Places(root, texts))
    && (reliable ==> i <= |order| && Underway(original, t, snapshot, saved, root, order[..i], ok))
  }

  lemma OneTextMore(original: Image, before: Image, after: Image, snapshot: map<Path, Bytes>, sep: char,
                    saved: map<string, Bytes>, root: Path, texts: set<string>, order: seq<string>, i: nat, ok: bool,
                    reliable: bool)
    requires Sound(original) && Keyed(snapshot, sep, saved) && ToSet(order) == Normals(texts) && i < |order|
    requires Halfway(original, before, snapshot, saved, root, texts, order, i, true, reliable)
    requires Sound(after) && before.dirs <= after.dirs
    requires Place(root, order[i]).None? ==> after.files == before.files
    requires Place(root, order[i]).Some? ==> AgreeOutside(after.files, before.files, {Place(root, order[i]).value})
    requires reliable ==> TextRead(before, after, saved, root, order[i], ok)
    ensures Halfway(original, after, snapshot, saved, root, texts, order, i + 1, ok, reliable)
  {
    assert forall t :: t in order ==> t in ToSet(order);
    StaysWithin(original, before, after, root, texts, order[i]);
    if reliable {
      RestoredOne(original, before, after, snapshot, sep, saved, root, order, i, ok);
    }
  }

  lemma StaysWithin(original: Image, before: Image, after: Image, root: Path, texts: set<string>, t: string)
    requires Within(original, before, Places(root, texts)) && t in Normals(texts)
    requires Sound(after) && before.dirs <= after.dirs
    requires Place(root, t).None? ==> after.files == before.files
    requires Place(root, t).Some? ==> AgreeOutside(after.files, before.files, {Place(root, t).value})
    ensures Within(original, after, Places(root, texts))
  {
    forall p | p !in Places(root, texts)
      ensures Lookup(after.files, p) == Lookup(original.files, p)
    {
      assert Lookup(before.files, p) == Lookup(original.files, p);
    }
  }

  /** What one text contributes to the loop's invariants. */
  lemma RestoredOne(original: Image, before: Image, after: Image, snapshot: map<Path, Bytes>, sep: char,
                    saved: map<string, Bytes>, root: Path, order: seq<string>, i: nat, ok: bool)
    requires Sound(original) && Keyed(snapshot, sep, saved) && i < |order| && forall s :: s in order ==> '\\' !in s
    requires original.dirs <= before.dirs && Underway(original, before, snapshot, saved, root, order[..i], true)
    requires TextRead(before, after, saved, root, order[i], ok)
    ensures Underway(original, after, snapshot, saved, root, order[..i + 1], ok)
  {
    var t := order[i];
    assert order[..i + 1] == order[..i] + [t];
    if ok {
      FollowingStep(original, before, after, snapshot, sep, saved, root, order[..i], t);
    }
    if t in saved {
      KeyDenotes(snapshot, sep, saved, root, t);
      WayIsOpen(original, before, snapshot, sep, saved, root, order[..i], Parts(t, sep));
    }
    OpenOneMore(original, saved, root, order, i);
  }

  lemma OpenOneMore(original: Image, saved: map<string, Bytes>, root: Path, order: seq<string>, i: nat)
    requires i < |order| && WaysOpen(original, saved, root, order[..i])
    ensures WaysOpen(original, saved, root, order[..i + 1])
            <==> (order[i] in saved && Place(root, order[i]).Some? ==>
                    forall d :: d in Ancestors(Place(root, order[i]).value) && d in original.files ==>
                      LastFor(root, order[..i], d).Some?)
  {
    var more := order[..i + 1];
    assert forall k :: 0 <= k <= i ==> more[..k] == order[..k];
    assert forall k :: 0 <= k < i ==> order[..i][k] == order[k] && order[..i][..k] == order[..k];
    assert more[i] == order[i];
  }

  /** The list is done, or broken off where the way was not open. */
  lemma AtTheEnd(original: Image, t: Image, snapshot: map<Path, Bytes>, saved: map<string, Bytes>, root: Path,
                 texts: set<string>, order: seq<string>, i: nat, ok: bool, reliable: bool)
    requires Sound(original) && i <= |order| && (ok ==> i == |order|)
    requires Halfway(original, t, snapshot, saved, root, texts, order, i, ok, reliable)
    ensures Within(original, t, Places(root, texts))
    ensures reliable ==> Followed(original, t.files, ok, saved, root, order)
    ensures reliable ==>
              ((ok && AsTold(t.files, original.files, saved, root, order))
               <==> Unobstructed(original, saved, root, order))
  {
    assert order[..|order|] == order;
    if WaysOpen(original, saved, root, order) {
      assert forall k :: 0 <= k < i ==> order[..i][k] == order[k] && order[..i][..k] == order[..k];
    }
    if reliable && ok {
      assert forall p :: Lookup(t.files, p) ==
                           if p in original.dirs then None else Told(original.files, saved, root, order, p);
    }
  }

  // ---------------------------------------------------------------- the full restore

  /**
   * `restore_project_content_snapshot`: remove the visible files the snapshot lacks, then
   * rewrite every file of the snapshot.
   */
  method RestoreProjectContentSnapshot(tree: ProjectTree, snapshot: map<Path, Bytes>) returns (ok: bool)
    requires Sound(tree.View()) && Snapshot(snapshot)
    modifies tree`files, tree`dirs, tree`clock
    ensures Sound(tree.View())
    ensures forall p :: !Visible(p) ==> Lookup(tree.files, p) == Lookup(old(tree.files), p)
    ensures forall p, i :: 0 <= i < |p| && p[i] in IGNORED_DIRS ==> Lookup(tree.files, p) == Lookup(old(tree.files), p)
    ensures tree.Reliable() ==>
              ((ok && ContentSnapshot(tree.files) == snapshot)
               <==> Reachable(old(tree.View()), snapshot, ContentSnapshot(old(tree.files)).Keys + snapshot.Keys))
    ensures old(tree.dirs) <= tree.dirs
    ensures tree.Reliable() ==> ContentSnapshot(tree.files).Keys <= snapshot.Keys
  {
    var current := ContentSnapshot(tree.files).Keys;
    ghost var original := tree.View();
    RemoveCreated(tree, current - snapshot.Keys);
    ghost var cleared := tree.View();
    Cleared(original, cleared, snapshot, tree.Reliable());
    ok := RewriteAll(tree, snapshot, original, current + snapshot.Keys);
    FullRestoreExact(original, tree.View(), snapshot, current + snapshot.Keys, ok, tree.Reliable());
    if tree.Reliable() {
      CreatedAreGone(original, cleared, tree.View(), snapshot);
    }
  }

  /** What the first loop comes to. */
  lemma Cleared(original: Image, t: Image, snapshot: map<Path, Bytes>, reliable: bool)
    requires Sound(t) && t.dirs == original.dirs
    requires AgreeOutside(t.files, original.files, ContentSnapshot(original.files).Keys - snapshot.Keys)
    requires reliable ==> t.files == original.files - (ContentSnapshot(original.files).Keys - snapshot.Keys)
    ensures var listed := ContentSnapshot(original.files).Keys + snapshot.Keys;
            Midway(original, t, snapshot, listed, listed - snapshot.Keys, reliable)
  {
    var created := ContentSnapshot(original.files).Keys - snapshot.Keys;
    assert original.files - created == Overlay(original.files, snapshot, created);
    assert ContentSnapshot(original.files).Keys + snapshot.Keys - snapshot.Keys == created;
  }

  /** The second loop brings back none of the files that the first removed. */
  lemma CreatedAreGone(original: Image, cleared: Image, t: Image, snapshot: map<Path, Bytes>)
    requires cleared.files == original.files - (ContentSnapshot(original.files).Keys - snapshot.Keys)
    requires AgreeOutside(t.files, cleared.files, snapshot.Keys)
    ensures ContentSnapshot(t.files).Keys <= snapshot.Keys
  {
    forall p | p in ContentSnapshot(t.files)
      ensures p in snapshot
    {
      assert p !in snapshot ==> Lookup(t.files, p) == Lookup(cleared.files, p);
    }
  }

  /** What the two loops come to. */
  lemma FullRestoreExact(original: Image, t: Image, snapshot: map<Path, Bytes>, listed: set<Path>, ok: bool,
                         reliable: bool)
    requires Snapshot(snapshot) && listed == ContentSnapshot(original.files).Keys + snapshot.Keys
    requires var clean := reliable && Reachable(original, snapshot, listed);
             (clean ==> ok) && Midway(original, t, snapshot, listed, listed, clean)
    ensures forall p :: !Visible(p) ==> Lookup(t.files, p) == Lookup(original.files, p)
    ensures reliable ==> ((ok && ContentSnapshot(t.files) == snapshot) <==> Reachable(original, snapshot, listed))
  {
    OverlayIsSnapshot(original.files, snapshot);
    if reliable && ok && ContentSnapshot(t.files) == snapshot {
      HeldMeansReachable(original, t, snapshot, listed);
    }
  }

  /** The first loop of the full restore. */
  method RemoveCreated(tree: ProjectTree, created: set<Path>)
    requires Sound(tree.View())
    modifies tree`files, tree`clock
    ensures Sound(tree.View())
    ensures AgreeOutside(tree.files, old(tree.files), created)
    ensures tree.Reliable() ==> tree.files == old(tree.files) - created
  {
    ghost var original := tree.files;
    var gone := created;
    while gone != {}
      invariant gone <= created
      invariant Sound(tree.View())
      invariant AgreeOutside(tree.files, original, created)
      invariant tree.Reliable() ==> tree.files == original - (created - gone)
      decreases |gone|
    {
      var rel :| rel in gone;
      RemoveIfFile(tree, rel);
      assert original - (created - gone) - {rel} == original - (created - (gone - {rel}));
      gone := gone - {rel};
    }
  }

  /** The second loop of the full restore. */
  method RewriteAll(tree: ProjectTree, snapshot: map<Path, Bytes>, ghost original: Image, ghost listed: set<Path>)
    returns (ok: bool)
    requires Snapshot(snapshot) && snapshot.Keys <= listed
    requires Midway(original, tree.View(), snapshot, listed, listed - snapshot.Keys, tree.Reliable())
    modifies tree`files, tree`dirs, tree`clock
    ensures var clean := tree.Reliable() && Reachable(original, snapshot, listed);
            (clean ==> ok) && Midway(original, tree.View(), snapshot, listed, listed, clean)
    ensures AgreeOutside(tree.files, old(tree.files), snapshot.Keys)
  {
    ghost var clean := tree.Reliable() && Reachable(original, snapshot, listed);
    ghost var cleared := tree.files;
    var rest := snapshot.Keys;
    ok := true;
    while rest != {} && ok
      invariant rest <= snapshot.Keys && (clean ==> ok)
      invariant Midway(original, tree.View(), snapshot, listed, listed - rest, clean)
      invariant AgreeOutside(tree.files, cleared, snapshot.Keys)
      decreases |rest|
    {
      var rel :| rel in rest;
      ghost var before := tree.View();
      if clean {
        NothingInTheWay(original, before, snapshot, listed, listed - rest, rel);
      }
      ok := RewriteFile(tree, rel, snapshot[rel]);
      MidwayStep(original, before, tree.View(), snapshot, listed, listed - rest, rel, clean);
      assert listed - (rest - {rel}) == listed - rest + {rel};
      rest := rest - {rel};
    }
    assert clean ==> listed - rest == listed;
  }

  /**
   * Where a directory has taken the place of a file of the snapshot, a restore without any fault leaves neither
   * version: the visible files in the directory go, and the file does not come back.
   */
  lemma NeitherVersionIsLeft(now: Image, end: Image, snapshot: map<Path, Bytes>, p: Path)
    requires Sound(now) && Snapshot(snapshot) && p in snapshot && p in now.dirs
    requires Sound(end) && now.dirs <= end.dirs && ContentSnapshot(end.files).Keys <= snapshot.Keys
    ensures p !in end.files
    ensures forall q :: Visible(q) && p in Ancestors(q) ==> q !in end.files
  {
    forall q | Visible(q) && p in Ancestors(q)
      ensures q !in end.files
    {
      assert q !in ContentSnapshot(end.files);
    }
  }

  /** For example after the file `a` was replaced by a directory with the file `b` in it. */
  lemma FileBecameDirectory(a: string, b: string, x: Bytes, y: Bytes, now: Image, end: Image,
                            snapshot: map<Path, Bytes>)
    requires Visible([a]) && Visible([a, b])
    requires snapshot == map[[a] := x] && now == Image(map[[a, b] := y], {[], [a]})
    requires Sound(end) && now.dirs <= end.dirs && ContentSnapshot(end.files).Keys <= snapshot.Keys
    ensures Sound(now) && Snapshot(snapshot)
    ensures ContentSnapshot(end.files) == map[]
  {
    AncestorsOfChild([], a);
    AncestorsOfChild([a], b);
    assert [] + [a] == [a] && [a] + [b] == [a, b] && Ancestors([]) == {};
    NeitherVersionIsLeft(now, end, snapshot, [a]);
  }

  lemma OverlayIsSnapshot(files: map<Path, Bytes>, snapshot: map<Path, Bytes>)
    requires Snapshot(snapshot)
    ensures ContentSnapshot(Overlay(files, snapshot, ContentSnapshot(files).Keys + snapshot.Keys)) == snapshot
  {
  }

  /**
   * A file that could not be read is missing from the snapshot, so the restore removes it: going back at once
   * to a snapshot that was just taken leaves the visible files alone exactly if all of them were read.
   */
  lemma UnreadableIsRemoved(t: Image, unreadable: set<Path>)
    requires Sound(t)
    ensures var visible := ContentSnapshot(t.files);
            var snapshot := visible - unreadable;
            && Snapshot(snapshot)
            && (ContentSnapshot(Overlay(t.files, snapshot, visible.Keys + snapshot.Keys)) == visible
                <==> unreadable !! visible.Keys)
  {
    var visible := ContentSnapshot(t.files);
    var snapshot := visible - unreadable;
    SnapshotsAreSnapshots(t);
    OverlayIsSnapshot(t.files, snapshot);
    if snapshot == visible {
      forall p | p in unreadable
        ensures p !in visible
      {
        assert p !in snapshot;
      }
    } else {
      assert exists p :: p in visible && p in unreadable;
    }
  }

  /** A sound tree that holds the listed part of the snapshot had nothing in the way. */
  lemma HeldMeansReachable(original: Image, t: Image, snapshot: map<Path, Bytes>, listed: set<Path>)
    requires Sound(t) && original.dirs <= t.dirs
    requires AgreeOutside(t.files, original.files, listed)
    requires forall p :: p in snapshot && p in listed ==> p in t.files
    ensures Reachable(original, snapshot, listed)
  {
  }

  /** A file's stat changes whenever its content does. */
  ghost predicate StatsDetectChanges(before: map<Path, Stat>, after: map<Path, Stat>,
                                     old_: map<Path, Bytes>, new_: map<Path, Bytes>) {
    && before.Keys == ContentSnapshot(old_).Keys && after.Keys == ContentSnapshot(new_).Keys
    && forall p :: p in before && p in after && before[p] == after[p] ==> old_[p] == new_[p]
  }

  /**
   * Restoring a list of paths brings the visible contents back if and only if the list has every visible path
   * on which the project differs from the snapshot.
   */
  lemma SelectedRestoreExactly(files: map<Path, Bytes>, snapshot: map<Path, Bytes>, listed: set<Path>)
    requires Snapshot(snapshot)
    ensures ContentSnapshot(Overlay(files, snapshot, listed)) == snapshot
            <==> forall p :: Visible(p) && Lookup(files, p) != Lookup(snapshot, p) ==> p in listed
  {
    var end := ContentSnapshot(Overlay(files, snapshot, listed));
    forall p
      ensures Lookup(end, p) ==
                if !Visible(p) then None else if p in listed then Lookup(snapshot, p) else Lookup(files, p)
    {
    }
    if forall p :: Visible(p) && Lookup(files, p) != Lookup(snapshot, p) ==> p in listed {
      AgreeEverywhere(end, snapshot);
    }
  }

  /**
   * Restoring only the paths whose stat changed brings back the same visible contents as the full restore.
   */
  lemma SelectedRestoreSuffices(was: Image, now: Image, before: map<Path, Stat>, after: map<Path, Stat>)
    requires StatsDetectChanges(before, after, was.files, now.files)
    ensures var snapshot := ContentSnapshot(was.files);
            ContentSnapshot(Overlay(now.files, snapshot, ChangedSnapshotPaths(before, after))) == snapshot
  {
    var snapshot, listed := ContentSnapshot(was.files), ChangedSnapshotPaths(before, after);
    forall p | Visible(p) && p !in listed
      ensures Lookup(now.files, p) == Lookup(snapshot, p)
    {
    }
    AgreeEverywhere(ContentSnapshot(Overlay(now.files, snapshot, listed)), snapshot) by {
      forall p
        ensures Lookup(ContentSnapshot(Overlay(now.files, snapshot, listed)), p) == Lookup(snapshot, p)
      {
      }
    }
  }

  /**
   * Whatever texts are listed: the visible contents are back if and only if each visible path that no text denotes
   * is unchanged, and each path of the snapshot that some text denotes has its own key as the last such text.
   */
  lemma BackExactly(now: map<Path, Bytes>, files: map<Path, Bytes>, snapshot: map<Path, Bytes>, sep: char,
                    saved: map<string, Bytes>, root: Path, order: seq<string>)
    requires Keyed(snapshot, sep, saved) && AsTold(now, files, saved, root, order)
    requires forall t :: t in order ==> '\\' !in t
    ensures ContentSnapshot(now) == snapshot
            <==> forall p :: Visible(p) ==>
                   match LastFor(root, order, p)
                   case None => Lookup(files, p) == Lookup(snapshot, p)
                   case Some(t) => p in snapshot ==> t == Text(p, sep)
  {
    forall p | Visible(p)
      ensures Lookup(now, p) == Lookup(snapshot, p) <==>
                match LastFor(root, order, p)
                case None => Lookup(files, p) == Lookup(snapshot, p)
                case Some(t) => p in snapshot ==> t == Text(p, sep)
    {
      LastForIs(root, order, p);
      assert Lookup(now, p) == Told(files, saved, root, order, p);
      var last := LastFor(root, order, p);
      if last.Some? && last.value in saved {
        KeyDenotes(snapshot, sep, saved, root, last.value);
      }
    }
    SameVisible(now, snapshot);
  }

  lemma SameVisible(now: map<Path, Bytes>, snapshot: map<Path, Bytes>)
    requires Snapshot(snapshot)
    ensures ContentSnapshot(now) == snapshot <==> forall p :: Visible(p) ==> Lookup(now, p) == Lookup(snapshot, p)
  {
    var visible := ContentSnapshot(now);
    assert forall p :: Lookup(visible, p) == if Visible(p) then Lookup(now, p) else None;
    if forall p :: Visible(p) ==> Lookup(now, p) == Lookup(snapshot, p) {
      AgreeEverywhere(visible, snapshot);
    }
  }

  /** The path's key is read as it is written. */
  predicate OwnForm(p: Path, sep: char) {
    Normal(Text(p, sep)) == Text(p, sep)
  }

  function OwnFormed(snapshot: map<Path, Bytes>, sep: char): map<Path, Bytes> {
    map p | p in snapshot && OwnForm(p, sep) :: snapshot[p]
  }

  /** The keys of paths, as they are listed after an attempt. */
  ghost predicate ListedKeys(order: seq<string>, listed: set<Path>, sep: char) {
    && Sorted(order) && ToSet(order) == Normals(set p | p in listed :: Text(p, sep))
    && forall p :: p in listed ==> Kept(p, sep)
  }

  lemma ListedKeysList(order: seq<string>, listed: set<Path>, sep: char)
    requires ListedKeys(order, listed, sep)
    ensures Lists(order, listed)
    ensures forall t :: t in order ==> '\\' !in t
  {
    var texts := set p | p in listed :: Text(p, sep);
    assert forall t :: t in order <==> t in ToSet(order);
    forall p | p in listed
      ensures Plain(p, '/') && Text(p, '/') in order
    {
      assert Text(p, sep) in texts && p[0] in p;
      assert Trimmed(Text(p, sep), White) != "";
    }
  }

  /** With slashes every such key is its own normal form, with backslashes those of the top directory are. */
  lemma OwnFormIs(p: Path, sep: char)
    requires Kept(p, sep) && (sep == '/' || sep == '\\')
    ensures OwnForm(p, sep) <==> sep == '/' || |p| == 1
  {
    if sep == '\\' && |p| >= 2 {
      NestedHasSeparator(p, sep);
    }
  }

  /** What a listed path's text finds in the snapshot. */
  lemma ListedKey(snapshot: map<Path, Bytes>, sep: char, saved: map<string, Bytes>, p: Path)
    requires Keyed(snapshot, sep, saved) && Kept(p, sep)
    ensures Lookup(saved, Text(p, '/')) == Lookup(OwnFormed(snapshot, sep), p)
  {
    var t := Text(p, '/');
    if t in saved {
      KeyDenotes(snapshot, sep, saved, [], t);
      PlaceOfText([], p);
    }
  }

  /**
   * A list of keys, none of which loses more than its backslashes when it is read: the listed files are as in the
   * snapshot where their keys are in normal form and gone where they are not; and that is possible exactly if
   * nothing stands in the way of the former.
   */
  lemma ListedAreTold(original: Image, now: map<Path, Bytes>, snapshot: map<Path, Bytes>, sep: char,
                      saved: map<string, Bytes>, root: Path, order: seq<string>, listed: set<Path>)
    requires Sound(original) && Keyed(snapshot, sep, saved) && ListedKeys(order, listed, sep)
    ensures AsTold(now, original.files, saved, root, order)
            <==> now == Overlay(original.files, OwnFormed(snapshot, sep), listed)
    ensures Unobstructed(original, saved, root, order) <==> Reachable(original, OwnFormed(snapshot, sep), listed)
  {
    var own := OwnFormed(snapshot, sep);
    var overlay := Overlay(original.files, own, listed);
    ListedTold(original.files, snapshot, sep, saved, root, order, listed);
    if AsTold(now, original.files, saved, root, order) {
      forall p
        ensures Lookup(now, p) == Lookup(overlay, p)
      {
        assert Lookup(now, p) == Told(original.files, saved, root, order, p);
      }
      AgreeEverywhere(now, overlay);
    }
    ListedWays(original, snapshot, sep, saved, root, order, listed);
    forall p | p in original.dirs
      ensures Told(original.files, saved, root, order, p).None? <==> !(p in listed && p in own)
    {
      assert Lookup(overlay, p).None? <==> !(p in listed && p in own);
    }
  }

  lemma ListedTold(files: map<Path, Bytes>, snapshot: map<Path, Bytes>, sep: char, saved: map<string, Bytes>,
                   root: Path, order: seq<string>, listed: set<Path>)
    requires Keyed(snapshot, sep, saved) && ListedKeys(order, listed, sep)
    ensures AsTold(Overlay(files, OwnFormed(snapshot, sep), listed), files, saved, root, order)
  {
    ListedKeysList(order, listed, sep);
    forall p
      ensures Told(files, saved, root, order, p) == Lookup(Overlay(files, OwnFormed(snapshot, sep), listed), p)
    {
      LastForListed(root, order, listed, p);
      if p in listed {
        ListedKey(snapshot, sep, saved, p);
      }
    }
  }

  /** The path whose text this is. */
  lemma ListedText(snapshot: map<Path, Bytes>, sep: char, saved: map<string, Bytes>, root: Path, order: seq<string>,
                   listed: set<Path>, t: string)
    returns (p: Path)
    requires Keyed(snapshot, sep, saved) && ListedKeys(order, listed, sep) && t in order
    ensures p in listed && Text(p, '/') == t && Place(root, t) == Some(p)
    ensures t in saved <==> p in OwnFormed(snapshot, sep)
  {
    ListedKeysList(order, listed, sep);
    p :| p in listed && Text(p, '/') == t;
    PlaceOfText(root, p);
    ListedKey(snapshot, sep, saved, p);
  }

  /** A list of keys names a file above another path before that path. */
  lemma ListedWays(original: Image, snapshot: map<Path, Bytes>, sep: char, saved: map<string, Bytes>, root: Path,
                   order: seq<string>, listed: set<Path>)
    requires Sound(original) && Keyed(snapshot, sep, saved) && ListedKeys(order, listed, sep)
    ensures WaysOpen(original, saved, root, order) <==> FilesAboveListed(original, OwnFormed(snapshot, sep), listed)
  {
    ListedKeysList(order, listed, sep);
    if WaysOpen(original, saved, root, order) {
      forall p, d | p in listed && p in OwnFormed(snapshot, sep) && d in Ancestors(p) && d in original.files
        ensures d in listed
      {
        var i :| 0 <= i < |order| && order[i] == Text(p, '/');
        PlaceOfText(root, p);
        ListedKey(snapshot, sep, saved, p);
        NamedAbove(original, root, order, listed, i, p, d);
      }
    }
    if FilesAboveListed(original, OwnFormed(snapshot, sep), listed) {
      forall i, d | 0 <= i < |order| && order[i] in saved && Place(root, order[i]).Some?
                    && d in Ancestors(Place(root, order[i]).value) && d in original.files
        ensures LastFor(root, order[..i], d).Some?
      {
        var p := ListedText(snapshot, sep, saved, root, order, listed, order[i]);
        NamedAbove(original, root, order, listed, i, p, d);
      }
    }
  }

  /** Every file above a path to be written is listed, too. */
  ghost predicate FilesAboveListed(t: Image, snapshot: map<Path, Bytes>, listed: set<Path>) {
    forall p, d :: p in listed && p in snapshot && d in Ancestors(p) && d in t.files ==> d in listed
  }

  lemma NamedAbove(original: Image, root: Path, order: seq<string>, listed: set<Path>, i: nat, p: Path, d: Path)
    requires Sound(original) && Sorted(order) && Lists(order, listed)
    requires i < |order| && order[i] == Text(p, '/') && d in Ancestors(p) && d in original.files
    ensures LastFor(root, order[..i], d).Some? <==> d in listed
  {
    LastForIs(root, order[..i], d);
    LastForIs(root, order, d);
    LastForListed(root, order, listed, d);
    if d in listed {
      AncestorsComeFirst(order, d, i, p);
      PlaceOfText(root, d);
    }
  }

  /**
   * For a list of such keys the visible contents are back if and only if the list has every visible difference and
   * each listed path of the snapshot is its own normal form.
   */
  lemma ListedAreBackExactly(original: Image, now: map<Path, Bytes>, snapshot: map<Path, Bytes>, sep: char,
                             saved: map<string, Bytes>, root: Path, order: seq<string>, listed: set<Path>)
    requires Sound(original) && Keyed(snapshot, sep, saved) && ListedKeys(order, listed, sep)
    requires AsTold(now, original.files, saved, root, order)
    ensures ContentSnapshot(now) == snapshot
            <==> && (forall p :: Visible(p) && Lookup(original.files, p) != Lookup(snapshot, p) ==> p in listed)
                 && (forall p :: p in listed && p in snapshot ==> OwnForm(p, sep))
  {
    ListedKeysList(order, listed, sep);
    BackExactly(now, original.files, snapshot, sep, saved, root, order);
    forall p
      ensures LastFor(root, order, p) == if p in listed then Some(Text(p, '/')) else None
      ensures p in listed ==> (OwnForm(p, sep) <==> Text(p, '/') == Text(p, sep))
    {
      LastForListed(root, order, listed, p);
    }
  }

  /**
   * What becomes of a selected restore that meets no fault, for a list of such keys: it ends with the visible
   * contents of the snapshot if and only if the list has every visible difference, each listed path of the snapshot
   * is its own normal form, and nothing stands in the way of one.
   */
  lemma SelectedRestoreComesBack(original: Image, now: map<Path, Bytes>, ok: bool, snapshot: map<Path, Bytes>,
                                 sep: char, saved: map<string, Bytes>, root: Path, order: seq<string>,
                                 listed: set<Path>)
    requires Sound(original) && Keyed(snapshot, sep, saved) && ListedKeys(order, listed, sep)
    requires Followed(original, now, ok, saved, root, order)
    ensures (ok && ContentSnapshot(now) == snapshot)
            <==> && (forall p :: Visible(p) && Lookup(original.files, p) != Lookup(snapshot, p) ==> p in listed)
                 && (forall p :: p in listed && p in snapshot ==> OwnForm(p, sep))
                 && Reachable(original, snapshot, listed)
  {
    ListedAreTold(original, now, snapshot, sep, saved, root, order, listed);
    if ok && ContentSnapshot(now) == snapshot {
      BackWasReachable(original, now, snapshot, sep, saved, root, order, listed);
    }
    if forall p :: p in listed && p in snapshot ==> OwnForm(p, sep) {
      AllInOwnForm(original, snapshot, sep, listed);
      if Unobstructed(original, saved, root, order) {
        ListedAreBackExactly(original, now, snapshot, sep, saved, root, order, listed);
      }
    }
  }

  lemma AllInOwnForm(original: Image, snapshot: map<Path, Bytes>, sep: char, listed: set<Path>)
    requires forall p :: p in listed && p in snapshot ==> OwnForm(p, sep)
    ensures Overlay(original.files, OwnFormed(snapshot, sep), listed) == Overlay(original.files, snapshot, listed)
    ensures Reachable(original, OwnFormed(snapshot, sep), listed) <==> Reachable(original, snapshot, listed)
  {
    assert forall p :: p in listed ==> (p in OwnFormed(snapshot, sep) <==> p in snapshot);
  }

  lemma BackWasReachable(original: Image, now: map<Path, Bytes>, snapshot: map<Path, Bytes>, sep: char,
                         saved: map<string, Bytes>, root: Path, order: seq<string>, listed: set<Path>)
    requires Sound(original) && Keyed(snapshot, sep, saved) && ListedKeys(order, listed, sep)
    requires WaysOpen(original, saved, root, order) && ButDirectories(original, now, saved, root, order)
    requires ContentSnapshot(now) == snapshot
    ensures (forall p :: p in listed && p in snapshot ==> OwnForm(p, sep)) && Reachable(original, snapshot, listed)
  {
    forall p | p in listed && p in snapshot
      ensures p in OwnFormed(snapshot, sep) && p !in original.dirs
    {
      BackIsOwn(original, now, snapshot, sep, saved, root, order, listed, p);
    }
    ListedWays(original, snapshot, sep, saved, root, order, listed);
  }

  /** A listed file of the snapshot that is there afterwards is its own normal form and was no directory. */
  lemma BackIsOwn(original: Image, now: map<Path, Bytes>, snapshot: map<Path, Bytes>, sep: char,
                  saved: map<string, Bytes>, root: Path, order: seq<string>, listed: set<Path>, p: Path)
    requires Keyed(snapshot, sep, saved) && ListedKeys(order, listed, sep)
    requires ButDirectories(original, now, saved, root, order)
    requires p in listed && p in snapshot && p in ContentSnapshot(now)
    ensures p in OwnFormed(snapshot, sep) && p !in original.dirs
  {
    ListedTold(original.files, snapshot, sep, saved, root, order, listed);
    assert Lookup(now, p) == if p in original.dirs then None else Told(original.files, saved, root, order, p);
    assert Lookup(Overlay(original.files, OwnFormed(snapshot, sep), listed), p)
           == Told(original.files, saved, root, order, p);
  }

  /** For keys in normal form, this is the restore of the listed paths. */
  lemma NormalKeysRestorePaths(original: Image, now: map<Path, Bytes>, snapshot: map<Path, Bytes>, sep: char,
                               saved: map<string, Bytes>, root: Path, order: seq<string>, listed: set<Path>)
    requires Sound(original) && Keyed(snapshot, sep, saved) && ListedKeys(order, listed, sep)
    requires forall p :: p in listed && p in snapshot ==> OwnForm(p, sep)
    ensures AsTold(now, original.files, saved, root, order) <==> now == Overlay(original.files, snapshot, listed)
    ensures Unobstructed(original, saved, root, order) <==> Reachable(original, snapshot, listed)
  {
    ListedAreTold(original, now, snapshot, sep, saved, root, order, listed);
    AllInOwnForm(original, snapshot, sep, listed);
  }

  /** With backslashes between names, a listed file in a directory is removed, though the snapshot has it. */
  lemma NestedKeyIsRemoved(original: Image, now: map<Path, Bytes>, snapshot: map<Path, Bytes>,
                           saved: map<string, Bytes>, root: Path, order: seq<string>, listed: set<Path>, p: Path)
    requires Sound(original) && Keyed(snapshot, '\\', saved) && ListedKeys(order, listed, '\\')
    requires AsTold(now, original.files, saved, root, order)
    requires p in listed && p in snapshot && |p| >= 2
    ensures p !in now && ContentSnapshot(now) != snapshot
  {
    OwnFormIs(p, '\\');
    ListedAreTold(original, now, snapshot, '\\', saved, root, order, listed);
  }

  /** The selected restore is possible in exactly the situations in which the full one is. */
  lemma SelectedRestoreAsPossible(was: Image, now: Image, before: map<Path, Stat>, after: map<Path, Stat>)
    requires Sound(was) && Sound(now) && StatsDetectChanges(before, after, was.files, now.files)
    ensures var snapshot := ContentSnapshot(was.files);
            Reachable(now, snapshot, ChangedSnapshotPaths(before, after))
            <==> Reachable(now, snapshot, ContentSnapshot(now.files).Keys + snapshot.Keys)
  {
  }

  /** The list has every visible difference when it has every path whose stat changed. */
  lemma ChangedPathsComeBack(was: Image, now: Image, end: map<Path, Bytes>, ok: bool, before: map<Path, Stat>,
                             after: map<Path, Stat>, saved: map<string, Bytes>, root: Path, order: seq<string>)
    requires Sound(was) && Sound(now) && StatsDetectChanges(before, after, was.files, now.files)
    requires Keyed(ContentSnapshot(was.files), '/', saved)
    requires ListedKeys(order, ChangedSnapshotPaths(before, after), '/')
    requires Followed(now, end, ok, saved, root, order)
    ensures var snapshot := ContentSnapshot(was.files);
            (ok && ContentSnapshot(end) == snapshot)
            <==> Reachable(now, snapshot, ContentSnapshot(now.files).Keys + snapshot.Keys)
  {
    var snapshot, listed := ContentSnapshot(was.files), ChangedSnapshotPaths(before, after);
    SelectedRestoreComesBack(now, end, ok, snapshot, '/', saved, root, order, listed);
    SelectedRestoreAsPossible(was, now, before, after);
    SelectedRestoreSuffices(was, now, before, after);
    SelectedRestoreExactly(now.files, snapshot, listed);
    forall p | p in listed
      ensures OwnForm(p, '/')
    {
      OwnFormIs(p, '/');
    }
  }

  /**
   * The whole way, with slashes and for keys that are read as they are written: whatever became of the project
   * between two snapshots of its stats, listing what changed and restoring the list without a fault brings back the
   * visible contents if and only if a full restore could.
   */
  method RestoreChangedPaths(tree: ProjectTree, saved: map<string, Bytes>, root: Path, before: map<Path, Stat>,
                             after: map<Path, Stat>, ghost was: Image)
    returns (ok: bool)
    requires Sound(was) && Sound(tree.View()) && StatsDetectChanges(before, after, was.files, tree.files)
    requires Keyed(ContentSnapshot(was.files), '/', saved)
    requires forall p :: p in ChangedSnapshotPaths(before, after) ==> Kept(p, '/')
    modifies tree`files, tree`dirs, tree`clock
    ensures Sound(tree.View())
    ensures tree.Reliable() ==>
              var snapshot := ContentSnapshot(was.files);
              (ok && ContentSnapshot(tree.files) == snapshot)
              <==> Reachable(old(tree.View()), snapshot, ContentSnapshot(old(tree.files)).Keys + snapshot.Keys)
  {
    ghost var now := tree.View();
    var texts := set p | p in ChangedSnapshotPaths(before, after) :: Text(p, '/');
    var order;
    ok, order := RestoreSelectedProjectPaths(tree, saved, root, texts, ContentSnapshot(was.files), '/');
    if tree.Reliable() {
      ChangedPathsComeBack(was, now, tree.files, ok, before, after, saved, root, order);
    }
  }
}
