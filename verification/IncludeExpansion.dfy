/**
 * Recursive expansion of workflow files (app/services/workflow_asset_service.py,
 * `_expand_workflow_refs`), over an include graph.
 */
module IncludeExpansion {
  import opened Prelude

  type File = string

  type Ref = string

  datatype Line = RefLine(ref: Ref) | IncludeLine(id: string)

  datatype Step = StepRef(ref: Ref) | NotAStep

  datatype Document =
    | Structured(includes: seq<string>, steps: seq<Step>)
    | Lines(lines: seq<Line>)

  /** The workflow files, and where `_workflow_path_by_id` finds an id. */
  datatype World = World(documents: map<File, Document>, pathById: map<string, File>)

  datatype Item = Leaf(ref: Ref) | Include(id: string) | BadStep

  datatype Error = Cycle(file: File) | NotFound(id: string) | InvalidStep

  function LineItem(line: Line): Item {
    match line case RefLine(ref) => Leaf(ref) case IncludeLine(id) => Include(id)
  }

  function StepItem(step: Step): Item {
    match step case StepRef(ref) => Leaf(ref) case NotAStep => BadStep
  }

  /** What a file asks for, in order: a structured file its includes first, then its steps. */
  function Items(w: World, f: File): seq<Item> {
    if f !in w.documents then []
    else
      match w.documents[f]
      case Structured(includes, steps) =>
        seq(|includes|, i requires 0 <= i < |includes| => Include(includes[i]))
        + seq(|steps|, i requires 0 <= i < |steps| => StepItem(steps[i]))
      case Lines(lines) => seq(|lines|, i requires 0 <= i < |lines| => LineItem(lines[i]))
  }

  // ---------------------------------------------------------------- the expansion

  function Unseen(w: World, seen: set<File>): nat {
    |w.documents.Keys - seen|
  }

  lemma SeeingShrinks(w: World, seen: set<File>, f: File)
    requires f in w.documents && f !in seen
    ensures Unseen(w, seen + {f}) < Unseen(w, seen)
  {
    assert w.documents.Keys - seen == (w.documents.Keys - (seen + {f})) + {f};
  }

  function Expand(w: World, f: File, seen: set<File>): Result<seq<Ref>, Error>
    decreases Unseen(w, seen), 0
  {
    if f in seen then Err(Cycle(f))
    else if f !in w.documents then Ok([])
    else
      SeeingShrinks(w, seen, f);
      ExpandItems(w, Items(w, f), seen + {f})
  }

  function ExpandItem(w: World, item: Item, seen: set<File>): Result<seq<Ref>, Error>
    decreases Unseen(w, seen), 1
  {
    match item
    case Leaf(ref) => Ok([ref])
    case BadStep => Err(InvalidStep)
    case Include(id) => if id in w.pathById then Expand(w, w.pathById[id], seen) else Err(NotFound(id))
  }

  function ExpandItems(w: World, items: seq<Item>, seen: set<File>): Result<seq<Ref>, Error>
    decreases Unseen(w, seen), 2, |items|
  {
    if items == [] then Ok([])
    else
      match ExpandItem(w, items[0], seen)
      case Err(e) => Err(e)
      case Ok(first) => Prepend(first, ExpandItems(w, items[1..], seen))
  }

  /** `refs.extend`, unless the extension failed. */
  function Prepend(refs: seq<Ref>, r: Result<seq<Ref>, Error>): Result<seq<Ref>, Error> {
    match r case Ok(rest) => Ok(refs + rest) case Err(e) => Err(e)
  }

  lemma PrependTwice(a: seq<Ref>, b: seq<Ref>, r: Result<seq<Ref>, Error>)
    ensures Prepend(a, Prepend(b, r)) == Prepend(a + b, r) && Prepend([], r) == r
  {
    if r.Ok? {
      assert a + (b + r.value) == (a + b) + r.value;
      assert [] + r.value == r.value;
    }
  }

  /** The `seen` set that one call of the expansion shares with the calls it makes. */
  class SeenFiles {
    var files: set<File>

    constructor ()
      ensures files == {}
    {
      files := {};
    }
  }

  /**
   * `_expand_workflow_refs`: what it returns, and that a normal return leaves `seen` as it
   * found it, so that a file may be included twice side by side.
   */
  method ExpandWorkflowRefs(w: World, path: File, seen: SeenFiles) returns (r: Result<seq<Ref>, Error>)
    modifies seen
    ensures r == Expand(w, path, old(seen.files))
    ensures r.Ok? ==> seen.files == old(seen.files)
    decreases Unseen(w, seen.files)
  {
    if path in seen.files {
      return Err(Cycle(path));
    }
    ghost var before := seen.files;
    seen.files := seen.files + {path};
    var refs: seq<Ref> := [];
    var items := Items(w, path);
    var i := 0;
    assert items[0..] == items;
    PrependTwice([], [], ExpandItems(w, items, before + {path}));
    while i < |items|
      invariant 0 <= i <= |items|
      invariant seen.files == before + {path}
      invariant ExpandItems(w, items, before + {path}) == Prepend(refs, ExpandItems(w, items[i..], before + {path}))
    {
      SeeingShrinks(w, before, path);
      var part: seq<Ref>;
      match items[i] {
        case Leaf(ref) => part := [ref];
        case BadStep => return Err(InvalidStep);
        case Include(id) =>
          if id !in w.pathById {
            return Err(NotFound(id));
          }
          var inner := ExpandWorkflowRefs(w, w.pathById[id], seen);
          if inner.Err? {
            return inner;
          }
          part := inner.value;
      }
      assert items[i..][1..] == items[i + 1..];
      PrependTwice(refs, part, ExpandItems(w, items[i + 1..], before + {path}));
      refs, i := refs + part, i + 1;
    }
    assert refs + [] == refs;
    seen.files := seen.files - {path};
    r := Ok(refs);
  }

  // ---------------------------------------------------------------- the include graph

  /** The file has a directive that includes the id. */
  predicate AsksFor(w: World, f: File, id: string) {
    f in w.documents
    && match w.documents[f]
       case Structured(includes, _) => id in includes
       case Lines(lines) => IncludeLine(id) in lines
  }

  predicate Includes(w: World, f: File, g: File) {
    exists id :: id in w.pathById && AsksFor(w, f, id) && w.pathById[id] == g
  }

  /** A non-empty chain of includes that starts at `f`. */
  ghost predicate IncludePath(w: World, f: File, p: seq<File>) {
    && p != [] && p[0] == f
    && forall i :: 0 <= i < |p| - 1 ==> Includes(w, p[i], p[i + 1])
  }

  predicate HasBadStep(w: World, f: File) {
    f in w.documents && w.documents[f].Structured? && NotAStep in w.documents[f].steps
  }

  /** Every id the file includes is found, and every step it lists is one. */
  ghost predicate Resolvable(w: World, f: File) {
    !HasBadStep(w, f) && forall id :: AsksFor(w, f, id) ==> id in w.pathById
  }

  predicate Avoids(p: seq<File>, seen: set<File>) {
    forall i :: 0 <= i < |p| ==> p[i] !in seen
  }

  /** Along every include chain from `f`: no repetition, nothing in `seen`, nothing unresolvable. */
  ghost predicate Unfoldable(w: World, f: File, seen: set<File>) {
    forall p :: IncludePath(w, f, p) ==>
      Distinct(p) && Avoids(p, seen) && Resolvable(w, p[|p| - 1])
  }

  lemma {:induction false} AllItemsExpand(w: World, items: seq<Item>, seen: set<File>)
    ensures ExpandItems(w, items, seen).Ok? <==> forall i :: 0 <= i < |items| ==> ExpandItem(w, items[i], seen).Ok?
    decreases |items|
  {
    if items != [] {
      AllItemsExpand(w, items[1..], seen);
      assert forall i :: 1 <= i < |items| ==> items[i] == items[1..][i - 1];
    }
  }

  lemma ItemsAsk(w: World, f: File, id: string)
    ensures AsksFor(w, f, id) <==> Include(id) in Items(w, f)
    ensures HasBadStep(w, f) <==> BadStep in Items(w, f)
  {
    if f in w.documents {
      var items := Items(w, f);
      match w.documents[f]
      case Structured(includes, steps) =>
        forall i | 0 <= i < |includes|
          ensures items[i] == Include(includes[i])
        {
        }
        forall i | 0 <= i < |steps|
          ensures items[|includes| + i] == StepItem(steps[i])
        {
        }
      case Lines(lines) =>
        forall i | 0 <= i < |lines|
          ensures items[i] == LineItem(lines[i])
        {
        }
    }
  }

  predicate IncludeExpands(w: World, id: string, seen: set<File>) {
    id in w.pathById && Expand(w, w.pathById[id], seen).Ok?
  }

  lemma AskedExpand(w: World, f: File, seen: set<File>)
    ensures ExpandItems(w, Items(w, f), seen).Ok?
            <==> !HasBadStep(w, f) && forall id :: AsksFor(w, f, id) ==> IncludeExpands(w, id, seen)
  {
    var items := Items(w, f);
    AllItemsExpand(w, items, seen);
    if ExpandItems(w, items, seen).Ok? {
      forall item | item in items
        ensures ExpandItem(w, item, seen).Ok?
      {
      }
      ItemsAsk(w, f, "");
      forall id | AsksFor(w, f, id)
        ensures IncludeExpands(w, id, seen)
      {
        ItemsAsk(w, f, id);
        assert ExpandItem(w, Include(id), seen).Ok?;
      }
    } else {
      var i :| 0 <= i < |items| && ExpandItem(w, items[i], seen).Err?;
      if items[i].BadStep? {
        ItemsAsk(w, f, "");
      } else {
        ItemsAsk(w, f, items[i].id);
      }
    }
  }

  lemma WithoutFirst(q: seq<File>, p: seq<File>, f: File, seen: set<File>)
    requires q == [f] + p && Distinct(q) && Avoids(q, seen)
    ensures Distinct(p) && Avoids(p, seen + {f})
  {
    assert q[0] == f;
    assert forall i :: 0 <= i < |p| ==> p[i] == q[i + 1];
  }

  lemma UnfoldableBelow(w: World, f: File, g: File, seen: set<File>)
    requires Unfoldable(w, f, seen) && Includes(w, f, g)
    ensures Unfoldable(w, g, seen + {f})
  {
    forall p | IncludePath(w, g, p)
      ensures Distinct(p) && Avoids(p, seen + {f}) && Resolvable(w, p[|p| - 1])
    {
      var q := [f] + p;
      assert q[|q| - 1] == p[|p| - 1];
      WithoutFirst(q, p, f, seen);
    }
  }

  lemma UnfoldableAbove(w: World, f: File, seen: set<File>)
    requires f !in seen && Resolvable(w, f)
    requires forall g :: Includes(w, f, g) ==> Unfoldable(w, g, seen + {f})
    ensures Unfoldable(w, f, seen)
  {
    forall p | IncludePath(w, f, p)
      ensures Distinct(p) && Avoids(p, seen) && Resolvable(w, p[|p| - 1])
    {
      if |p| > 1 {
        var q := p[1..];
        assert Includes(w, f, p[0 + 1]);
        assert IncludePath(w, p[1], q) by {
          forall i | 0 <= i < |q| - 1
            ensures Includes(w, q[i], q[i + 1])
          {
            var j := i + 1;
            assert Includes(w, p[j], p[j + 1]);
          }
        }
        assert forall i :: 1 <= i < |p| ==> p[i] == q[i - 1];
      }
    }
  }

  /**
   * Cycle detection on the shared set is exact: the expansion succeeds if and only if no
   * include chain from the file repeats a file, and every file on such a chain can be
   * resolved.  Including the same file twice side by side is no obstacle.
   */
  lemma {:induction false} ExpandsExactly(w: World, f: File, seen: set<File>)
    ensures Expand(w, f, seen).Ok? <==> Unfoldable(w, f, seen)
    decreases Unseen(w, seen)
  {
    assert IncludePath(w, f, [f]) && [f][|[f]| - 1] == f;
    if f in seen {
      assert [f][0] in seen;
    } else if f !in w.documents {
      UnfoldableAbove(w, f, seen);
    } else {
      SeeingShrinks(w, seen, f);
      AskedExpand(w, f, seen + {f});
      forall id | AsksFor(w, f, id) && id in w.pathById
        ensures IncludeExpands(w, id, seen + {f}) <==> Unfoldable(w, w.pathById[id], seen + {f})
      {
        ExpandsExactly(w, w.pathById[id], seen + {f});
      }
      if Unfoldable(w, f, seen) {
        assert Resolvable(w, f);
        forall id | AsksFor(w, f, id)
          ensures IncludeExpands(w, id, seen + {f})
        {
          UnfoldableBelow(w, f, w.pathById[id], seen);
        }
      } else if Expand(w, f, seen).Ok? {
        UnfoldableAbove(w, f, seen);
      }
    }
  }

  // ---------------------------------------------------------------- what a file expands to

  function Concat(parts: seq<seq<Ref>>): seq<Ref> {
    if parts == [] then [] else parts[0] + Concat(parts[1..])
  }

  lemma {:induction false} ConcatSplits(a: seq<seq<Ref>>, b: seq<seq<Ref>>)
    ensures Concat(a + b) == Concat(a) + Concat(b)
    decreases |a|
  {
    if a == [] {
      assert a + b == b;
    } else {
      ConcatSplits(a[1..], b);
      assert (a + b)[1..] == a[1..] + b;
    }
  }

  lemma {:induction false} OnesConcat(refs: seq<Ref>, ones: seq<seq<Ref>>)
    requires |ones| == |refs| && forall i :: 0 <= i < |refs| ==> ones[i] == [refs[i]]
    ensures Concat(ones) == refs
    decreases |refs|
  {
    if refs != [] {
      OnesConcat(refs[1..], ones[1..]);
      assert refs == [refs[0]] + refs[1..];
    }
  }

  /** The expansions of the items, one by one. */
  lemma {:induction false} ItemsConcat(w: World, items: seq<Item>, seen: set<File>) returns (parts: seq<seq<Ref>>)
    requires ExpandItems(w, items, seen).Ok?
    ensures |parts| == |items| && ExpandItems(w, items, seen) == Ok(Concat(parts))
    ensures forall i :: 0 <= i < |items| ==> ExpandItem(w, items[i], seen) == Ok(parts[i])
    decreases |items|
  {
    parts := [];
    if items != [] {
      var rest := ItemsConcat(w, items[1..], seen);
      parts := [ExpandItem(w, items[0], seen).value] + rest;
      assert parts[1..] == rest;
      assert forall i :: 1 <= i < |items| ==> items[i] == items[1..][i - 1];
    }
  }

  /** The included file, expanded. */
  predicate IncludedIs(w: World, id: string, seen: set<File>, part: seq<Ref>) {
    id in w.pathById && Expand(w, w.pathById[id], seen) == Ok(part)
  }

  /** The parts are what the includes of a structured file expand to, one by one. */
  predicate IncludesExpand(w: World, includes: seq<string>, seen: set<File>, parts: seq<seq<Ref>>) {
    |parts| == |includes| && forall i :: 0 <= i < |includes| ==> IncludedIs(w, includes[i], seen, parts[i])
  }

  predicate StepsAre(steps: seq<Step>, refs: seq<Ref>) {
    |refs| == |steps| && forall i :: 0 <= i < |steps| ==> steps[i] == StepRef(refs[i])
  }

  lemma IncludesFirst(w: World, f: File, seen: set<File>, all: seq<seq<Ref>>)
    requires f in w.documents && w.documents[f].Structured? && |all| == |Items(w, f)|
    requires forall i :: 0 <= i < |all| ==> ExpandItem(w, Items(w, f)[i], seen) == Ok(all[i])
    ensures var includes := w.documents[f].includes; IncludesExpand(w, includes, seen, all[..|includes|])
  {
    var includes := w.documents[f].includes;
    forall i | 0 <= i < |includes|
      ensures IncludedIs(w, includes[i], seen, all[i])
    {
      assert Items(w, f)[i] == Include(includes[i]);
    }
  }

  lemma StepAt(w: World, f: File, seen: set<File>, i: nat, part: seq<Ref>)
    requires f in w.documents && w.documents[f].Structured? && i < |w.documents[f].steps|
    requires ExpandItem(w, Items(w, f)[|w.documents[f].includes| + i], seen) == Ok(part)
    ensures w.documents[f].steps[i].StepRef? && part == [w.documents[f].steps[i].ref]
  {
    assert Items(w, f)[|w.documents[f].includes| + i] == StepItem(w.documents[f].steps[i]);
  }

  lemma StepsLast(w: World, f: File, seen: set<File>, all: seq<seq<Ref>>) returns (refs: seq<Ref>)
    requires f in w.documents && w.documents[f].Structured? && |all| == |Items(w, f)|
    requires forall i :: 0 <= i < |all| ==> ExpandItem(w, Items(w, f)[i], seen) == Ok(all[i])
    ensures StepsAre(w.documents[f].steps, refs) && Concat(all[|w.documents[f].includes|..]) == refs
  {
    var n, steps := |w.documents[f].includes|, w.documents[f].steps;
    var ones := all[n..];
    forall i | 0 <= i < |steps|
      ensures steps[i].StepRef? && ones[i] == [steps[i].ref]
    {
      StepAt(w, f, seen, i, all[n + i]);
    }
    refs := seq(|steps|, i requires 0 <= i < |steps| && steps[i].StepRef? => steps[i].ref);
    OnesConcat(refs, ones);
  }

  /** A structured file stands for what it includes, in order, and then for its steps, in order. */
  lemma StructuredExpansion(w: World, f: File, seen: set<File>) returns (parts: seq<seq<Ref>>, refs: seq<Ref>)
    requires f in w.documents && w.documents[f].Structured? && Expand(w, f, seen).Ok?
    ensures IncludesExpand(w, w.documents[f].includes, seen + {f}, parts) && StepsAre(w.documents[f].steps, refs)
    ensures Expand(w, f, seen) == Ok(Concat(parts) + refs)
  {
    var n := |w.documents[f].includes|;
    SeeingShrinks(w, seen, f);
    var all := ItemsConcat(w, Items(w, f), seen + {f});
    parts := all[..n];
    IncludesFirst(w, f, seen + {f}, all);
    refs := StepsLast(w, f, seen + {f}, all);
    ConcatSplits(parts, all[n..]);
    assert parts + all[n..] == all;
  }

  /** Any other file stands for its lines, in order: a reference for itself, an include for what it includes. */
  lemma LinesExpansion(w: World, f: File, seen: set<File>) returns (parts: seq<seq<Ref>>)
    requires f in w.documents && w.documents[f].Lines? && Expand(w, f, seen).Ok?
    ensures var Lines(lines) := w.documents[f];
            && |parts| == |lines|
            && forall i :: 0 <= i < |lines| ==>
                 match lines[i]
                 case RefLine(ref) => parts[i] == [ref]
                 case IncludeLine(id) => IncludedIs(w, id, seen + {f}, parts[i])
    ensures Expand(w, f, seen) == Ok(Concat(parts))
  {
    var items := Items(w, f);
    SeeingShrinks(w, seen, f);
    parts := ItemsConcat(w, items, seen + {f});
    forall i | 0 <= i < |w.documents[f].lines|
      ensures items[i] == LineItem(w.documents[f].lines[i])
    {
    }
  }

  // ---------------------------------------------------------------- what goes wrong

  /** The end of an include chain from the file gives the reason for the error. */
  ghost predicate Explains(w: World, f: File, seen: set<File>, p: seq<File>, e: Error) {
    IncludePath(w, f, p)
    && match e
       case Cycle(g) => p[|p| - 1] == g && (g in seen || g in p[..|p| - 1])
       case NotFound(id) => AsksFor(w, p[|p| - 1], id) && id !in w.pathById
       case InvalidStep => HasBadStep(w, p[|p| - 1])
  }

  lemma {:induction false} FirstFailure(w: World, items: seq<Item>, seen: set<File>) returns (item: Item)
    requires ExpandItems(w, items, seen).Err?
    ensures item in items && ExpandItem(w, item, seen) == Err(ExpandItems(w, items, seen).error)
    decreases |items|
  {
    item := items[0];
    if ExpandItem(w, item, seen).Ok? {
      item := FirstFailure(w, items[1..], seen);
    }
  }

  /** Each error is about a file, an id or a step that an include chain from the file does lead to. */
  lemma {:induction false} ErrorsAreReal(w: World, f: File, seen: set<File>) returns (p: seq<File>)
    requires Expand(w, f, seen).Err?
    ensures Explains(w, f, seen, p, Expand(w, f, seen).error)
    decreases Unseen(w, seen)
  {
    p := [f];
    if f !in seen {
      SeeingShrinks(w, seen, f);
      var item := FirstFailure(w, Items(w, f), seen + {f});
      match item
      case BadStep => ItemsAsk(w, f, "");
      case Include(id) =>
        ItemsAsk(w, f, id);
        if id in w.pathById {
          var q := ErrorsAreReal(w, w.pathById[id], seen + {f});
          p := [f] + q;
          ExplainedAbove(w, f, seen, q, Expand(w, w.pathById[id], seen + {f}).error);
        }
    }
  }

  lemma ExplainedAbove(w: World, f: File, seen: set<File>, q: seq<File>, e: Error)
    requires q != [] && Includes(w, f, q[0]) && Explains(w, q[0], seen + {f}, q, e)
    ensures Explains(w, f, seen, [f] + q, e)
  {
    var p := [f] + q;
    forall i | 0 <= i < |p| - 1
      ensures Includes(w, p[i], p[i + 1])
    {
      if i > 0 {
        var j := i - 1;
        assert Includes(w, q[j], q[j + 1]);
      }
    }
    assert p[|p| - 1] == q[|q| - 1];
    assert p[..|p| - 1] == [f] + q[..|q| - 1];
  }

  // ---------------------------------------------------------------- the unfolding

  /** A complete unfolding of a file: one subtree per include, in order. */
  datatype Tree = Node(file: File, kids: seq<Tree>)

  ghost predicate Unfolds(w: World, f: File, t: Tree)
    decreases t
  {
    t.file == f && UnfoldsItems(w, Items(w, f), t.kids)
  }

  ghost predicate UnfoldsItems(w: World, items: seq<Item>, kids: seq<Tree>)
    decreases kids, |items|
  {
    if items == [] then kids == []
    else
      match items[0]
      case Leaf(_) => UnfoldsItems(w, items[1..], kids)
      case BadStep => false
      case Include(id) =>
        id in w.pathById && kids != [] && Unfolds(w, w.pathById[id], kids[0]) && UnfoldsItems(w, items[1..], kids[1..])
  }

  /** The leaf references of an unfolding, read in order. */
  ghost function Leaves(w: World, f: File, t: Tree): seq<Ref>
    requires Unfolds(w, f, t)
    decreases t
  {
    LeavesOf(w, Items(w, f), t.kids)
  }

  ghost function LeavesOf(w: World, items: seq<Item>, kids: seq<Tree>): seq<Ref>
    requires UnfoldsItems(w, items, kids)
    decreases kids, |items|
  {
    if items == [] then []
    else
      match items[0]
      case Leaf(ref) => [ref] + LeavesOf(w, items[1..], kids)
      case Include(_) => Leaves(w, w.pathById[items[0].id], kids[0]) + LeavesOf(w, items[1..], kids[1..])
  }

  /** What a successful expansion returns: the leaves of the file's unfolding, in order. */
  lemma {:induction false} ExpansionIsUnfolding(w: World, f: File, seen: set<File>) returns (t: Tree)
    requires Expand(w, f, seen).Ok?
    ensures Unfolds(w, f, t) && Expand(w, f, seen) == Ok(Leaves(w, f, t))
    decreases Unseen(w, seen), 0
  {
    if f !in w.documents {
      t := Node(f, []);
    } else {
      SeeingShrinks(w, seen, f);
      var kids := ItemsUnfold(w, Items(w, f), seen + {f});
      t := Node(f, kids);
    }
  }

  lemma {:induction false} ItemsUnfold(w: World, items: seq<Item>, seen: set<File>) returns (kids: seq<Tree>)
    requires ExpandItems(w, items, seen).Ok?
    ensures UnfoldsItems(w, items, kids) && ExpandItems(w, items, seen) == Ok(LeavesOf(w, items, kids))
    decreases Unseen(w, seen), 1, |items|
  {
    kids := [];
    if items != [] {
      var rest := ItemsUnfold(w, items[1..], seen);
      match items[0]
      case Leaf(_) => kids := rest;
      case Include(id) =>
        var kid := ExpansionIsUnfolding(w, w.pathById[id], seen);
        kids := [kid] + rest;
        assert kids[1..] == rest;
    }
  }

  /** There is no second way to unfold a file. */
  lemma {:induction false} UnfoldingUnique(w: World, f: File, t: Tree, u: Tree)
    requires Unfolds(w, f, t) && Unfolds(w, f, u)
    ensures t == u
    decreases t, 0
  {
    ItemsUnique(w, Items(w, f), t.kids, u.kids);
  }

  lemma {:induction false} ItemsUnique(w: World, items: seq<Item>, ts: seq<Tree>, us: seq<Tree>)
    requires UnfoldsItems(w, items, ts) && UnfoldsItems(w, items, us)
    ensures ts == us
    decreases ts, |items|
  {
    if items != [] {
      match items[0]
      case Leaf(_) => ItemsUnique(w, items[1..], ts, us);
      case Include(id) =>
        UnfoldingUnique(w, w.pathById[id], ts[0], us[0]);
        ItemsUnique(w, items[1..], ts[1..], us[1..]);
        assert ts == [ts[0]] + ts[1..];
        assert us == [us[0]] + us[1..];
    }
  }
}
