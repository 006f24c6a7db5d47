/**
 * A project directory as the controller sees it: regular files with their bytes, and
 * directories.  Every primitive that may raise asks `faults` at the current step, so a
 * theorem that holds for all `faults` covers an exception at every point of a run.
 */
module FileTrees {
  import opened Prelude

  newtype Byte = x: int | 0 <= x < 256

  type Bytes = seq<Byte>

  /** The parts of a normalized relative path; `[]` is the project root. */
  type Path = seq<string>

  datatype Image = Image(files: map<Path, Bytes>, dirs: set<Path>)

  /** `Path.parents`, as relative paths. */
  function Ancestors(p: Path): set<Path> {
    set n | 0 <= n < |p| :: p[..n]
  }

  /** No path is both a file and a directory, and every file sits in directories. */
  ghost predicate Sound(t: Image) {
    && [] in t.dirs
    && forall p :: p in t.files ==> p !in t.dirs && Ancestors(p) <= t.dirs
  }

  /** No file path is a directory prefix of another. */
  ghost predicate PrefixFree(paths: set<Path>) {
    forall p, q :: p in paths && q in paths ==> p !in Ancestors(q)
  }

  /** `files` with exactly the given paths taken from `source`, present or absent. */
  function Overlay(files: map<Path, Bytes>, source: map<Path, Bytes>, paths: set<Path>): map<Path, Bytes> {
    map p | p in (files.Keys - paths) + (source.Keys * paths) :: if p in paths then source[p] else files[p]
  }

  ghost predicate AgreeOutside(a: map<Path, Bytes>, b: map<Path, Bytes>, paths: set<Path>) {
    forall p :: p !in paths ==> Lookup(a, p) == Lookup(b, p)
  }

  lemma AgreeEverywhere(a: map<Path, Bytes>, b: map<Path, Bytes>)
    requires AgreeOutside(a, b, {})
    ensures a == b
  {
    forall p
      ensures p in a <==> p in b
      ensures p in a ==> a[p] == b[p]
    {
      assert Lookup(a, p) == Lookup(b, p);
    }
  }

  /** A path of the set with no other above it: sorting, too, takes ancestors first. */
  method Topmost(s: set<Path>) returns (p: Path)
    requires s != {}
    ensures p in s && forall d :: d in Ancestors(p) ==> d !in s
  {
    p :| p in s;
    var rest := s - {p};
    while rest != {}
      invariant p in s && rest <= s
      invariant forall q :: q in s && q !in rest ==> |p| <= |q|
      decreases |rest|
    {
      var q :| q in rest;
      if |q| < |p| {
        p := q;
      }
      rest := rest - {q};
    }
  }

  /** No path comes before one above it. */
  ghost predicate AncestorsPrecede(q: seq<Path>) {
    forall i, j :: 0 <= i < j < |q| ==> q[j] !in Ancestors(q[i])
  }

  /** Lists the paths with ancestors first, as sorting does: what is proved with it holds for all such orders. */
  method AncestorsFirst(s: set<Path>) returns (q: seq<Path>)
    ensures Distinct(q) && ToSet(q) == s && AncestorsPrecede(q)
  {
    q := [];
    var rest := s;
    while rest != {}
      invariant Distinct(q) && AncestorsPrecede(q) && rest <= s
      invariant forall p :: p in q <==> p in s && p !in rest
      invariant forall p, i :: p in rest && 0 <= i < |q| ==> p !in Ancestors(q[i])
      decreases |rest|
    {
      var p := Topmost(rest);
      q, rest := q + [p], rest - {p};
    }
  }

  lemma AncestorsOfChild(p: Path, name: string)
    ensures Ancestors(p + [name]) == Ancestors(p) + {p}
  {
    var c := p + [name];
    assert forall n :: 0 <= n < |p| ==> c[..n] == p[..n];
    assert c[..|p|] == p;
  }

  class ProjectTree {
    var files: map<Path, Bytes>
    var dirs: set<Path>
    var clock: nat
    const faults: nat -> bool

    constructor (image: Image, faults: nat -> bool)
      ensures View() == image && this.faults == faults && clock == 0
    {
      files, dirs, clock, this.faults := image.files, image.dirs, 0, faults;
    }

    function View(): Image
      reads this
    {
      Image(files, dirs)
    }

    /** No step ever raises on its own account. */
    ghost predicate Reliable() {
      forall k :: !faults(k)
    }

    method Step() returns (ok: bool)
      modifies this`clock
      ensures clock == old(clock) + 1
      ensures ok == !faults(old(clock))
    {
      ok := !faults(clock);
      clock := clock + 1;
    }

    /** `target.parent.mkdir(parents=True, exist_ok=True)`; a raising call may leave some of them behind. */
    method MakeParents(p: Path) returns (ok: bool)
      modifies this`dirs, this`clock
      ensures ok ==> Ancestors(p) !! files.Keys && dirs == old(dirs) + Ancestors(p)
      ensures !ok ==> old(dirs) <= dirs <= old(dirs) + (Ancestors(p) - files.Keys)
      ensures ok <==> !faults(old(clock)) && Ancestors(p) !! files.Keys
    {
      ok := Step();
      var blocked := Ancestors(p) * files.Keys;
      if !ok {
        var made :| made <= Ancestors(p) - files.Keys;
        dirs := dirs + made;
      } else if blocked != {} {
        ok := false;
      } else {
        assert forall d :: d in Ancestors(p) && d in files.Keys ==> d in blocked;
        dirs := dirs + Ancestors(p);
      }
    }

    /** `target.unlink()`: raises on a directory and on nothing at all. */
    method Unlink(p: Path) returns (ok: bool)
      modifies this`files, this`clock
      ensures ok ==> p in old(files) && files == old(files) - {p}
      ensures !ok ==> files == old(files)
      ensures ok <==> !faults(old(clock)) && p in old(files)
    {
      ok := Step();
      if p !in files {
        ok := false;
      } else if ok {
        files := files - {p};
      }
    }

    /**
     * `mkstemp` beside the target, `os.close`, `copy2` into the file, `os.replace`, and the `finally` that
     * unlinks the temporary file.  Replacing a directory raises.  `litter` is the temporary file where it
     * stays behind: when closing it raises, or when the unlink does after the file was not moved.
     */
    method InstallAtomically(p: Path, content: Bytes, fresh_: Path) returns (ok: bool, ghost litter: set<Path>)
      requires fresh_ !in files && fresh_ !in dirs && fresh_ != p
      modifies this`files, this`clock
      ensures ok ==> p !in dirs && files == old(files)[p := content] && litter == {}
      ensures !ok ==> files - litter == old(files) || (p !in dirs && litter == {} && files == old(files)[p := content])
      ensures litter == {} || (litter == {fresh_} && fresh_ in files && clock > 0 && faults(clock - 1))
      ensures var c := old(clock);
              ok <==> p !in dirs && !faults(c) && !faults(c + 1) && !faults(c + 2) && !faults(c + 3) && !faults(c + 4)
    {
      litter := {};
      ok := Step();
      if !ok {
        return;
      }
      ghost var before := files;
      files := files[fresh_ := []];
      ok := Step();
      if !ok {
        litter := {fresh_};
        AddThenDrop(before, fresh_, []);
        return;
      }
      ok, litter := FillAndFinish(p, content, fresh_, before);
    }

    /** The `try` with its `finally`, which unlinks the temporary file whether it was moved or not. */
    method FillAndFinish(p: Path, content: Bytes, fresh_: Path, ghost before: map<Path, Bytes>)
      returns (ok: bool, ghost litter: set<Path>)
      requires fresh_ !in before && fresh_ != p && files == before[fresh_ := []]
      modifies this`files, this`clock
      ensures ok ==> p !in dirs && files == before[p := content] && litter == {}
      ensures !ok ==> files - litter == before || (p !in dirs && litter == {} && files == before[p := content])
      ensures litter == {} || (litter == {fresh_} && fresh_ in files && clock > 0 && faults(clock - 1))
      ensures var c := old(clock); ok <==> p !in dirs && !faults(c) && !faults(c + 1) && !faults(c + 2)
    {
      litter := {};
      ok := FillAndReplace(p, content, fresh_, before);
      var unlinked := Step();
      if unlinked {
        files := files - {fresh_};
      } else if fresh_ in files {
        litter := {fresh_};
      }
      ok := ok && unlinked;
    }

    /** The body of the `try`: the temporary file is filled and moved, or filled as far as it goes. */
    method FillAndReplace(p: Path, content: Bytes, fresh_: Path, ghost before: map<Path, Bytes>) returns (moved: bool)
      requires fresh_ !in before && fresh_ != p && files == before[fresh_ := []]
      modifies this`files, this`clock
      ensures moved ==> p !in dirs && files == before[p := content]
      ensures !moved ==> fresh_ in files && files - {fresh_} == before
      ensures moved <==> p !in dirs && !faults(old(clock)) && !faults(old(clock) + 1)
      ensures old(clock) < clock && (!faults(old(clock)) ==> clock == old(clock) + 2)
    {
      moved := Step();
      var partial: Bytes := *;
      var temporary := if moved then content else partial;
      AddThenDrop(before, fresh_, temporary);
      files := files[fresh_ := temporary];
      assert files == before[fresh_ := temporary];
      if moved {
        moved := Step();
        if p in dirs {
          moved := false;
        } else if moved {
          files := (files - {fresh_})[p := files[fresh_]];
        }
      }
    }

    /** `target.write_bytes(content)` once the parents exist: not atomic, and no way to write a directory. */
    method WriteBytes(p: Path, content: Bytes) returns (ok: bool)
      requires Ancestors(p) <= dirs
      modifies this`files, this`clock
      ensures ok ==> p !in dirs && files == old(files)[p := content]
      ensures !ok ==> forall q :: q != p || p in dirs ==> Lookup(files, q) == Lookup(old(files), q)
      ensures ok <==> !faults(old(clock)) && p !in dirs
    {
      ok := Step();
      if p in dirs {
        ok := false;
      } else {
        var partial: Bytes := *;
        files := files[p := if ok then content else partial];
      }
    }
  }
}
