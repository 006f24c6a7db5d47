/**
 * How the texts of a list of project paths are read (app/runtime_modules/files.py): stripped, with slashes for
 * backslashes, in sorted order, each resolved against the project directory.
 */
module PathTexts {
  import opened Prelude
  import opened FileTrees

  // ---------------------------------------------------------------- writing and reading a path

  /** `str(path)`: the parts, with the system's separator between them. */
  function Text(p: Path, sep: char): string {
    if p == [] then ""
    else if |p| == 1 then p[0]
    else p[0] + [sep] + Text(p[1..], sep)
  }

  /** The relative path of a file, with names as a file system with this separator has them. */
  predicate Plain(p: Path, sep: char) {
    p != [] && forall n :: n in p ==> n !in {"", ".", ".."} && '/' !in n && sep !in n
  }

  lemma {:induction false} SplitName(name: string, sep: char)
    requires sep !in name
    ensures Parts(name, sep) == [name]
  {
    if name != "" {
      assert name == [name[0]] + name[1..];
      SplitName(name[1..], sep);
    }
  }

  lemma {:induction false} SplitFirst(name: string, rest: string, sep: char)
    requires sep !in name
    ensures Parts(name + [sep] + rest, sep) == [name] + Parts(rest, sep)
  {
    var t := name + [sep] + rest;
    if name == "" {
      assert t[1..] == rest;
    } else {
      assert name == [name[0]] + name[1..] && t[1..] == name[1..] + [sep] + rest;
      SplitFirst(name[1..], rest, sep);
    }
  }

  /** What is written can be read back. */
  lemma {:induction false} SplitText(p: Path, sep: char)
    requires Plain(p, sep)
    ensures Parts(Text(p, sep), sep) == p
  {
    assert p[0] in p;
    if |p| == 1 {
      SplitName(p[0], sep);
    } else {
      assert p == [p[0]] + p[1..];
      assert forall n :: n in p[1..] ==> n in p;
      SplitText(p[1..], sep);
      SplitFirst(p[0], Text(p[1..], sep), sep);
    }
  }

  // ---------------------------------------------------------------- resolving

  function Moved(at: Path, name: string): Path {
    if name == "" || name == "." then at
    else if name != ".." then at + [name]
    else if at == [] then at else at[..|at| - 1]
  }

  function Resolved(at: Path, names: seq<string>): Path
    decreases |names|
  {
    if names == [] then at else Resolved(Moved(at, names[0]), names[1..])
  }

  /** The place of a text in the project at `root`: `(root / t).resolve().relative_to(root)`, if there is one. */
  function Place(root: Path, t: string): Option<Path> {
    var place := Resolved(if t != "" && t[0] == '/' then [] else root, Parts(t, '/'));
    if root <= place then Some(place[|root|..]) else None
  }

  lemma {:induction false} ResolvedPlain(at: Path, names: Path)
    requires forall n :: n in names ==> n !in {"", ".", ".."}
    ensures Resolved(at, names) == at + names
    decreases |names|
  {
    if names != [] {
      assert names[0] in names && Moved(at, names[0]) == at + [names[0]];
      assert forall n :: n in names[1..] ==> n in names;
      ResolvedPlain(at + [names[0]], names[1..]);
      assert at + names == at + [names[0]] + names[1..];
    }
  }

  lemma PlaceOfText(root: Path, p: Path)
    requires Plain(p, '/')
    ensures Place(root, Text(p, '/')) == Some(p)
  {
    var t := Text(p, '/');
    SplitText(p, '/');
    assert p[0] in p && t[0] == p[0][0];
    ResolvedPlain(root, p);
    assert (root + p)[|root|..] == p;
  }

  lemma {:induction false} ResolvedSplits(at: Path, a: seq<string>, b: seq<string>)
    ensures Resolved(at, a + b) == Resolved(Resolved(at, a), b)
    decreases |a|
  {
    if a == [] {
      assert a + b == b;
    } else {
      assert (a + b)[0] == a[0] && (a + b)[1..] == a[1..] + b;
      ResolvedSplits(Moved(at, a[0]), a[1..], b);
    }
  }

  lemma StaysPut(at: Path, front: seq<string>, names: seq<string>, rest: seq<string>)
    requires Resolved(Resolved(at, front), names) == Resolved(at, front)
    ensures Resolved(at, front + names + rest) == Resolved(at, front + rest)
  {
    ResolvedSplits(at, front + names, rest);
    ResolvedSplits(at, front, names);
    ResolvedSplits(at, front, rest);
  }

  /** A name and the step up behind it cancel, as do the empty name and the dot. */
  lemma UpCancels(at: Path, front: seq<string>, name: string, rest: seq<string>)
    requires name !in {"", ".", ".."}
    ensures Resolved(at, front + [name, ".."] + rest) == Resolved(at, front + rest)
    ensures Resolved(at, front + [""] + rest) == Resolved(at, front + ["."] + rest) == Resolved(at, front + rest)
  {
    var here := Resolved(at, front);
    assert [name, ".."][1..] == [".."] && (here + [name])[..|here|] == here;
    assert Resolved(here, [name, ".."]) == Resolved(here + [name], [".."]) == here;
    StaysPut(at, front, [name, ".."], rest);
    StaysPut(at, front, [""], rest);
    StaysPut(at, front, ["."], rest);
  }

  /** A text that starts with a slash has a place only if it names the project's own path first. */
  lemma PlaceOfAbsolute(root: Path, p: Path)
    requires Plain(p, '/')
    ensures Place(root, "/" + Text(p, '/')) == if root <= p then Some(p[|root|..]) else None
  {
    var t := "/" + Text(p, '/');
    SplitText(p, '/');
    assert t[1..] == Text(p, '/') && Parts(t, '/') == [""] + p;
    assert ([""] + p)[1..] == p;
    ResolvedPlain([], p);
    assert [] + p == p;
  }

  // ---------------------------------------------------------------- normal form

  function Trimmed(s: string, drop: char -> bool): string {
    if s == "" then s
    else if drop(s[0]) then Trimmed(s[1..], drop)
    else if drop(s[|s| - 1]) then Trimmed(s[..|s| - 1], drop)
    else s
  }

  /** `str.strip`: what is dropped stands at the ends, and nothing that could be dropped stands there afterwards. */
  lemma {:induction false} TrimmedIs(s: string, drop: char -> bool) returns (i: nat, j: nat)
    ensures i <= j <= |s| && Trimmed(s, drop) == s[i..j]
    ensures forall k :: 0 <= k < i || j <= k < |s| ==> drop(s[k])
    ensures i < j ==> !drop(s[i]) && !drop(s[j - 1])
    decreases |s|
  {
    i, j := 0, |s|;
    if s != "" && drop(s[0]) {
      i, j := TrimmedIs(s[1..], drop);
      i, j := i + 1, j + 1;
    } else if s != "" && drop(s[|s| - 1]) {
      i, j := TrimmedIs(s[..|s| - 1], drop);
    }
  }

  predicate Tick(c: char) {
    c == '`'
  }

  /** `normalized_rel_path` */
  function Normal(s: string): (r: string)
    ensures '\\' !in r
  {
    Slashed(Trimmed(Trimmed(s, White), Tick))
  }

  /** What is dropped at the ends of a text is known by where the dropping stops. */
  lemma TrimmedTo(s: string, drop: char -> bool, i: nat, j: nat)
    requires i < j <= |s| && !drop(s[i]) && !drop(s[j - 1])
    requires forall k :: 0 <= k < i || j <= k < |s| ==> drop(s[k])
    ensures Trimmed(s, drop) == s[i..j]
  {
    var a, b := TrimmedIs(s, drop);
    assert a <= i < b && a <= j - 1 < b;
  }

  lemma SliceOfSlice(s: string, i: nat, j: nat, a: nat, b: nat)
    requires i <= j <= |s| && a <= b <= j - i
    ensures s[i..j][a..b] == s[i + a..i + b]
  {
    var x, y := s[i..j][a..b], s[i + a..i + b];
    assert |x| == |y|;
    assert forall n :: 0 <= n < |x| ==> x[n] == s[i..j][a + n] == s[i + a + n] == y[n];
  }

  /** Blanks at the ends go first, and then backticks. */
  lemma NormalOf(s: string, i: nat, j: nat, k: nat, l: nat)
    requires i <= k < l <= j <= |s|
    requires !White(s[i]) && !White(s[j - 1]) && forall n :: 0 <= n < i || j <= n < |s| ==> White(s[n])
    requires s[k] != '`' && s[l - 1] != '`' && forall n :: i <= n < k || l <= n < j ==> s[n] == '`'
    ensures Normal(s) == Slashed(s[k..l])
  {
    TrimmedTo(s, White, i, j);
    var inner := s[i..j];
    TrimmedTo(inner, Tick, k - i, l - i);
    SliceOfSlice(s, i, j, k - i, l - i);
  }

  /** The normal forms of the texts that are not blank. */
  function Normals(texts: set<string>): set<string> {
    set s | s in texts && Trimmed(s, White) != "" :: Normal(s)
  }

  lemma {:induction false} NestedHasSeparator(p: Path, sep: char)
    requires |p| >= 2
    ensures sep in Text(p, sep)
  {
    var t := Text(p, sep);
    assert t[|p[0]|] == sep;
  }

  /** A path's text in normal form denotes that path. */
  lemma NormalTextDenotes(root: Path, p: Path, sep: char)
    requires Plain(p, sep) && (sep == '/' || sep == '\\')
    requires '\\' !in Text(p, sep)
    ensures Text(p, sep) == Text(p, '/') && Place(root, Text(p, sep)) == Some(p)
  {
    if sep == '\\' && |p| >= 2 {
      NestedHasSeparator(p, sep);
    }
    PlaceOfText(root, p);
  }

  // ---------------------------------------------------------------- a list of texts

  /** The last text in the list that denotes the path. */
  function LastFor(root: Path, order: seq<string>, p: Path): Option<string> {
    if order == [] then None
    else
      var t := order[|order| - 1];
      if Place(root, t) == Some(p) then Some(t) else LastFor(root, order[..|order| - 1], p)
  }

  lemma {:induction false} LastForIs(root: Path, order: seq<string>, p: Path)
    ensures match LastFor(root, order, p)
            case None => forall t :: t in order ==> Place(root, t) != Some(p)
            case Some(t) => t in order && Place(root, t) == Some(p)
    decreases |order|
  {
    if order != [] {
      var rest := order[..|order| - 1];
      assert order == rest + [order[|order| - 1]];
      LastForIs(root, rest, p);
    }
  }

  /** No text behind it denotes the path. */
  lemma {:induction false} LastForAt(root: Path, order: seq<string>, p: Path, i: nat)
    requires i < |order| && Place(root, order[i]) == Some(p)
    requires forall j :: i < j < |order| ==> Place(root, order[j]) != Some(p)
    ensures LastFor(root, order, p) == Some(order[i])
    decreases |order|
  {
    var n := |order| - 1;
    if i < n {
      assert Place(root, order[n]) != Some(p);
      LastForAt(root, order[..n], p, i);
    }
  }

  /** The list of the paths' texts, each read with slashes. */
  ghost predicate Lists(order: seq<string>, listed: set<Path>) {
    && (forall p :: p in listed ==> Plain(p, '/') && Text(p, '/') in order)
    && (forall t :: t in order ==> exists p :: p in listed && Text(p, '/') == t)
  }

  /** Nothing is done to such a path's text but that its separators become slashes. */
  predicate Kept(p: Path, sep: char) {
    Plain(p, sep) && Normal(Text(p, sep)) == Text(p, '/')
  }

  /** Each path of the list is denoted by its own text, and no other path is. */
  lemma LastForListed(root: Path, order: seq<string>, listed: set<Path>, p: Path)
    requires Lists(order, listed)
    ensures LastFor(root, order, p) == if p in listed then Some(Text(p, '/')) else None
  {
    LastForIs(root, order, p);
    forall q | q in listed
      ensures Place(root, Text(q, '/')) == Some(q)
    {
      PlaceOfText(root, q);
    }
  }

  lemma {:induction false} AncestorText(d: Path, p: Path)
    requires d != [] && d in Ancestors(p)
    ensures Text(d, '/') < Text(p, '/')
  {
    var n :| 0 <= n < |p| && d == p[..n];
    if n == 1 {
      assert Text(p, '/') == p[0] + ['/'] + Text(p[1..], '/');
    } else {
      assert d[1..] == p[1..][..n - 1];
      AncestorText(d[1..], p[1..]);
      assert Text(d, '/') == p[0] + ['/'] + Text(d[1..], '/');
    }
  }

  /** A directory's text comes before those of the files in it. */
  lemma AncestorsComeFirst(order: seq<string>, d: Path, i: nat, p: Path)
    requires Sorted(order) && d != [] && d in Ancestors(p) && i < |order| && order[i] == Text(p, '/')
    requires Text(d, '/') in order
    ensures Text(d, '/') in order[..i]
  {
    var j :| 0 <= j < |order| && order[j] == Text(d, '/');
    AncestorText(d, p);
    BeginningIsLess(order[j], order[i]);
    LessTotal(order[j], order[i]);
    assert j < i;
    assert order[..i][j] == order[j];
  }
}
