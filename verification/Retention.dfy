/**
 * Which runs a cleanup removes from the store (app/services/maintenance_service.py).
 */
module Retention {
  import opened Prelude

  datatype Status = Queued | Running | WaitingInput | Cancelling | Finished(name: string)

  /** A run: `key` orders runs as their creation stamps do, `time` is its parsed end, if it parses. */
  datatype Run = Run(id: string, project: string, status: Status, key: int, time: Option<int>) {
    /** The status is one of `ACTIVE_RUN_STATUSES`. */
    predicate Active() {
      status.Queued? || status.Running? || status.WaitingInput? || status.Cancelling?
    }
  }

  function Budget(keepPerProject: int): (n: nat)
    ensures 1 <= keepPerProject <= 500 ==> n == keepPerProject
    ensures keepPerProject == 0 ==> n == 20
    ensures keepPerProject < 0 ==> n == 1
    ensures keepPerProject > 500 ==> n == 500
  {
    var keep := if keepPerProject == 0 then 20 else keepPerProject;
    if keep < 1 then 1 else if keep > 500 then 500 else keep
  }

  // ---------------------------------------------------------------- sequences of runs

  predicate Lacks(s: seq<Run>, id: string) {
    forall x :: x in s ==> x.id != id
  }

  predicate DistinctIds(s: seq<Run>) {
    s == [] || (Lacks(s[1..], s[0].id) && DistinctIds(s[1..]))
  }

  predicate AtMost(s: seq<Run>, key: int) {
    forall x :: x in s ==> x.key <= key
  }

  predicate Descending(s: seq<Run>) {
    s == [] || (AtMost(s[1..], s[0].key) && Descending(s[1..]))
  }

  /** Ahead of everything that is no newer. */
  function Place(s: seq<Run>, r: Run): seq<Run> {
    if s != [] && s[0].key > r.key then [s[0]] + Place(s[1..], r) else [r] + s
  }

  /** `sorted(..., reverse=True)`: newest first, equal keys in their old order. */
  function SortDescending(s: seq<Run>): seq<Run> {
    if s == [] then [] else Place(SortDescending(s[1..]), s[0])
  }

  function Group(s: seq<Run>, project: string): seq<Run> {
    if s == [] then []
    else if s[0].project == project then [s[0]] + Group(s[1..], project)
    else Group(s[1..], project)
  }

  function Without(s: seq<Run>, ids: set<string>): seq<Run> {
    if s == [] then []
    else if s[0].id in ids then Without(s[1..], ids)
    else [s[0]] + Without(s[1..], ids)
  }

  function InactiveCount(s: seq<Run>): nat {
    if s == [] then 0 else (if s[0].status.Finished? then 1 else 0) + InactiveCount(s[1..])
  }

  lemma Split(s: seq<Run>)
    requires s != []
    ensures forall x :: x in s <==> x == s[0] || x in s[1..]
  {
  }

  lemma {:induction false} PlaceMembers(s: seq<Run>, r: Run)
    ensures forall x :: x in Place(s, r) <==> x in s || x == r
    ensures InactiveCount(Place(s, r)) == InactiveCount(s) + if r.status.Finished? then 1 else 0
    decreases |s|
  {
    if s != [] && s[0].key > r.key {
      PlaceMembers(s[1..], r);
      Split(s);
      assert Place(s, r)[1..] == Place(s[1..], r);
    } else {
      assert ([r] + s)[1..] == s;
    }
  }

  lemma {:induction false} PlaceDescending(s: seq<Run>, r: Run)
    requires Descending(s)
    ensures Descending(Place(s, r))
    decreases |s|
  {
    if s != [] && s[0].key > r.key {
      PlaceDescending(s[1..], r);
      PlaceMembers(s[1..], r);
      assert Place(s, r)[1..] == Place(s[1..], r);
    } else {
      assert ([r] + s)[1..] == s;
      if s != [] {
        Split(s);
      }
    }
  }

  lemma {:induction false} PlaceDistinct(s: seq<Run>, r: Run)
    requires DistinctIds(s) && Lacks(s, r.id)
    ensures DistinctIds(Place(s, r))
    decreases |s|
  {
    if s != [] && s[0].key > r.key {
      Split(s);
      PlaceDistinct(s[1..], r);
      PlaceMembers(s[1..], r);
      assert Place(s, r)[1..] == Place(s[1..], r);
    } else {
      assert ([r] + s)[1..] == s;
    }
  }

  /** The order is that of the keys, and nothing is lost, gained or doubled. */
  lemma {:induction false} SortedDescending(s: seq<Run>)
    ensures Descending(SortDescending(s))
    ensures forall x :: x in SortDescending(s) <==> x in s
    ensures InactiveCount(SortDescending(s)) == InactiveCount(s)
    ensures DistinctIds(s) ==> DistinctIds(SortDescending(s))
    decreases |s|
  {
    if s != [] {
      Split(s);
      var sorted := SortDescending(s[1..]);
      SortedDescending(s[1..]);
      PlaceMembers(sorted, s[0]);
      PlaceDescending(sorted, s[0]);
      if DistinctIds(s) {
        PlaceDistinct(sorted, s[0]);
      }
    }
  }

  lemma {:induction false} GroupOf(s: seq<Run>, project: string)
    ensures forall x :: x in Group(s, project) <==> x in s && x.project == project
    ensures DistinctIds(s) ==> DistinctIds(Group(s, project))
    decreases |s|
  {
    if s != [] {
      Split(s);
      GroupOf(s[1..], project);
      assert ([s[0]] + Group(s[1..], project))[1..] == Group(s[1..], project);
    }
  }

  lemma {:induction false} GroupSnoc(s: seq<Run>, r: Run, project: string)
    ensures Group(s + [r], project) == Group(s, project) + if r.project == project then [r] else []
    decreases |s|
  {
    if s == [] {
      assert [] + [r] == [r];
    } else {
      assert (s + [r])[1..] == s[1..] + [r];
      GroupSnoc(s[1..], r, project);
    }
  }

  lemma {:induction false} WithoutOf(s: seq<Run>, ids: set<string>)
    ensures forall x :: x in Without(s, ids) <==> x in s && x.id !in ids
    ensures DistinctIds(s) ==> DistinctIds(Without(s, ids))
    decreases |s|
  {
    if s != [] {
      Split(s);
      WithoutOf(s[1..], ids);
      assert ([s[0]] + Without(s[1..], ids))[1..] == Without(s[1..], ids);
    }
  }

  lemma {:induction false} GroupWithout(s: seq<Run>, ids: set<string>, project: string)
    ensures Group(Without(s, ids), project) == Without(Group(s, project), ids)
    decreases |s|
  {
    if s != [] {
      GroupWithout(s[1..], ids, project);
      assert ([s[0]] + Without(s[1..], ids))[1..] == Without(s[1..], ids);
      assert ([s[0]] + Group(s[1..], project))[1..] == Group(s[1..], project);
    }
  }

  lemma {:induction false} PlaceWithout(s: seq<Run>, r: Run, ids: set<string>)
    requires Descending(s)
    ensures Without(Place(s, r), ids) == if r.id in ids then Without(s, ids) else Place(Without(s, ids), r)
    decreases |s|
  {
    if s != [] && s[0].key > r.key {
      PlaceWithout(s[1..], r, ids);
      assert Place(s, r)[1..] == Place(s[1..], r);
      assert ([s[0]] + Without(s[1..], ids))[1..] == Without(s[1..], ids);
    } else {
      assert ([r] + s)[1..] == s;
      WithoutOf(s, ids);
      if s != [] {
        Split(s);
      }
    }
  }

  /** Sorting is stable: removing runs before or after it is the same. */
  lemma {:induction false} SortWithout(s: seq<Run>, ids: set<string>)
    ensures SortDescending(Without(s, ids)) == Without(SortDescending(s), ids)
    decreases |s|
  {
    if s != [] {
      var rest := s[1..];
      SortWithout(rest, ids);
      SortedDescending(rest);
      PlaceWithout(SortDescending(rest), s[0], ids);
      assert ([s[0]] + Without(rest, ids))[1..] == Without(rest, ids);
    }
  }

  lemma {:induction false} SameId(s: seq<Run>, a: Run, b: Run)
    requires DistinctIds(s) && a in s && b in s && a.id == b.id
    ensures a == b
    decreases |s|
  {
    Split(s);
    if a in s[1..] && b in s[1..] {
      SameId(s[1..], a, b);
    }
  }

  // ---------------------------------------------------------------- who is ahead of whom

  ghost predicate Precedes(s: seq<Run>, x: Run, y: Run) {
    exists i, j :: 0 <= i < j < |s| && s[i] == x && s[j] == y
  }

  lemma PrecedesFirst(s: seq<Run>, x: Run, y: Run)
    requires s != []
    ensures Precedes(s, x, y) <==> (x == s[0] && y in s[1..]) || Precedes(s[1..], x, y)
  {
    var rest := s[1..];
    if Precedes(s, x, y) {
      var i, j :| 0 <= i < j < |s| && s[i] == x && s[j] == y;
      assert rest[j - 1] == y;
      if i > 0 {
        assert rest[i - 1] == x;
      }
    }
    if x == s[0] && y in rest {
      var j :| 0 <= j < |rest| && rest[j] == y;
      assert s[j + 1] == y;
    }
    if Precedes(rest, x, y) {
      var i, j :| 0 <= i < j < |rest| && rest[i] == x && rest[j] == y;
      assert s[i + 1] == x && s[j + 1] == y;
    }
  }

  lemma {:induction false} GroupOrder(s: seq<Run>, project: string, x: Run, y: Run)
    requires x.project == y.project == project
    ensures Precedes(Group(s, project), x, y) <==> Precedes(s, x, y)
    decreases |s|
  {
    if s != [] {
      var rest := Group(s[1..], project);
      GroupOrder(s[1..], project, x, y);
      GroupOf(s[1..], project);
      PrecedesFirst(s, x, y);
      if s[0].project == project {
        PrecedesFirst([s[0]] + rest, x, y);
        assert ([s[0]] + rest)[1..] == rest;
      }
    }
  }

  /** What a cleanup leaves of the store stays in its order. */
  lemma {:induction false} WithoutOrder(s: seq<Run>, ids: set<string>, x: Run, y: Run)
    ensures Precedes(Without(s, ids), x, y) <==> Precedes(s, x, y) && x.id !in ids && y.id !in ids
    decreases |s|
  {
    if s != [] {
      var rest := Without(s[1..], ids);
      WithoutOrder(s[1..], ids, x, y);
      WithoutOf(s[1..], ids);
      PrecedesFirst(s, x, y);
      if s[0].id !in ids {
        PrecedesFirst([s[0]] + rest, x, y);
        assert ([s[0]] + rest)[1..] == rest;
      }
    }
  }

  lemma {:induction false} PlaceOrder(s: seq<Run>, r: Run, x: Run, y: Run)
    requires Descending(s) && Lacks(s, r.id)
    ensures Precedes(Place(s, r), x, y)
            <==> Precedes(s, x, y) || (x == r && y in s && y.key <= r.key) || (y == r && x in s && x.key > r.key)
    decreases |s|
  {
    if s != [] && s[0].key > r.key {
      Split(s);
      PlaceOrder(s[1..], r, x, y);
      PlaceMembers(s[1..], r);
      assert Place(s, r)[1..] == Place(s[1..], r);
      PrecedesFirst(s, x, y);
      PrecedesFirst(Place(s, r), x, y);
    } else {
      assert ([r] + s)[1..] == s;
      PrecedesFirst([r] + s, x, y);
      if s != [] {
        Split(s);
      }
    }
  }

  /** A later key is ahead, and among equal keys the order stays as it was. */
  lemma {:induction false} SortOrder(s: seq<Run>, x: Run, y: Run)
    requires DistinctIds(s) && x in s && y in s
    ensures Precedes(SortDescending(s), x, y) <==> x.key > y.key || (x.key == y.key && Precedes(s, x, y))
    decreases |s|
  {
    var sorted := SortDescending(s[1..]);
    Split(s);
    SortedDescending(s[1..]);
    PlaceOrder(sorted, s[0], x, y);
    PrecedesFirst(s, x, y);
    if x in s[1..] && y in s[1..] {
      SortOrder(s[1..], x, y);
    } else {
      NeverBefore(sorted, x, y);
      NeverBefore(s[1..], x, y);
    }
  }

  lemma NeverBefore(s: seq<Run>, x: Run, y: Run)
    requires x !in s || y !in s
    ensures !Precedes(s, x, y)
  {
  }

  // ---------------------------------------------------------------- the sweep

  predicate Recent(r: Run, cutoff: Option<int>) {
    cutoff.Some? && r.time.Some? && r.time.value > cutoff.value
  }

  /** The ids that go, when `kept` inactive runs were counted before. */
  function Swept(ordered: seq<Run>, kept: nat, budget: nat, cutoff: Option<int>): set<string> {
    if ordered == [] then {}
    else if ordered[0].Active() then Swept(ordered[1..], kept, budget, cutoff)
    else if kept + 1 <= budget || Recent(ordered[0], cutoff) then Swept(ordered[1..], kept + 1, budget, cutoff)
    else {ordered[0].id} + Swept(ordered[1..], kept + 1, budget, cutoff)
  }

  function Ordered(runs: seq<Run>, project: string): seq<Run> {
    SortDescending(Group(runs, project))
  }

  lemma OrderedOf(runs: seq<Run>, project: string)
    ensures forall x :: x in Ordered(runs, project) <==> x in runs && x.project == project
    ensures Descending(Ordered(runs, project))
    ensures DistinctIds(runs) ==> DistinctIds(Ordered(runs, project))
  {
    GroupOf(runs, project);
    SortedDescending(Group(runs, project));
  }

  /** All ids that a cleanup removes. */
  function RemovedIds(runs: seq<Run>, budget: nat, cutoff: Option<int>): set<string> {
    set r | r in runs && r.id in Swept(Ordered(runs, r.project), 0, budget, cutoff) :: r.id
  }

  /** The projects that have runs, and the runs of each. */
  ghost predicate Grouped(runs: seq<Run>, projects: seq<string>, grouped: map<string, seq<Run>>) {
    && (forall p :: p in projects <==> Group(runs, p) != [])
    && (forall p :: Lookup(grouped, p) == if Group(runs, p) == [] then None else Some(Group(runs, p)))
  }

  lemma GroupedOneMore(before: seq<Run>, run: Run, projects: seq<string>, grouped: map<string, seq<Run>>,
                       projects': seq<string>, grouped': map<string, seq<Run>>)
    requires Grouped(before, projects, grouped)
    requires projects' == if run.project in grouped then projects else projects + [run.project]
    requires grouped' == grouped[run.project := (if run.project in grouped then grouped[run.project] else []) + [run]]
    ensures Grouped(before + [run], projects', grouped')
  {
    forall p
      ensures p in projects' <==> Group(before + [run], p) != []
      ensures Lookup(grouped', p) == if Group(before + [run], p) == [] then None else Some(Group(before + [run], p))
    {
      GroupSnoc(before, run, p);
      assert Group(before, p) + [] == Group(before, p);
      assert Lookup(grouped, p) == if Group(before, p) == [] then None else Some(Group(before, p));
    }
  }

  /** The grouping loop: the projects in order of appearance, and each one's runs. */
  method GroupRuns(runs: seq<Run>) returns (projects: seq<string>, grouped: map<string, seq<Run>>)
    ensures forall p :: p in projects <==> exists r :: r in runs && r.project == p
    ensures forall p :: p in projects ==> p in grouped && grouped[p] == Group(runs, p)
  {
    projects, grouped := [], map[];
    for i := 0 to |runs|
      invariant Grouped(runs[..i], projects, grouped)
    {
      var run := runs[i];
      ghost var projects0, grouped0 := projects, grouped;
      assert runs[..i + 1] == runs[..i] + [run];
      if run.project !in grouped {
        projects, grouped := projects + [run.project], grouped[run.project := []];
      }
      grouped := grouped[run.project := grouped[run.project] + [run]];
      GroupedOneMore(runs[..i], run, projects0, grouped0, projects, grouped);
    }
    assert runs[..|runs|] == runs;
    GroupedAre(runs, projects, grouped);
  }

  lemma GroupedAre(runs: seq<Run>, projects: seq<string>, grouped: map<string, seq<Run>>)
    requires Grouped(runs, projects, grouped)
    ensures forall p :: p in projects <==> exists r :: r in runs && r.project == p
    ensures forall p :: p in projects ==> p in grouped && grouped[p] == Group(runs, p)
  {
    forall p
      ensures p in projects <==> exists r :: r in runs && r.project == p
      ensures p in projects ==> p in grouped && grouped[p] == Group(runs, p)
    {
      GroupOf(runs, p);
      var group := Group(runs, p);
      assert group != [] ==> group[0] in group;
      assert Lookup(grouped, p) == if group == [] then None else Some(group);
    }
  }

  method SweepProject(ordered: seq<Run>, budget: nat, cutoff: Option<int>) returns (gone: set<string>)
    ensures gone == Swept(ordered, 0, budget, cutoff)
  {
    gone := {};
    var kept := 0;
    var i := 0;
    assert ordered[0..] == ordered;
    while i < |ordered|
      invariant 0 <= i <= |ordered|
      invariant gone + Swept(ordered[i..], kept, budget, cutoff) == Swept(ordered, 0, budget, cutoff)
    {
      assert ordered[i..][1..] == ordered[i + 1..];
      var run := ordered[i];
      i := i + 1;
      if run.Active() {
        continue;
      }
      kept := kept + 1;
      if kept <= budget {
        continue;
      }
      if Recent(run, cutoff) {
        continue;
      }
      gone := gone + {run.id};
    }
  }

  /**
   * `cleanup_runs`, as far as the store is concerned: the candidates are chosen from the runs that
   * were read, and dropped from the runs the store holds when it is mutated.
   */
  method CleanupRuns(runs: seq<Run>, stored: seq<Run>, keepPerProject: int, cutoff: Option<int>, dryRun: bool)
    returns (remaining: seq<Run>, candidates: set<string>)
    ensures candidates == RemovedIds(runs, Budget(keepPerProject), cutoff)
    ensures remaining == if dryRun then stored else Without(stored, candidates)
    ensures forall x :: x in remaining <==> x in stored && (dryRun || x.id !in candidates)
  {
    var budget := Budget(keepPerProject);
    var projects, grouped := GroupRuns(runs);
    candidates := {};
    for i := 0 to |projects|
      invariant forall id :: id in candidates <==>
                  exists p :: p in projects[..i] && id in Swept(Ordered(runs, p), 0, budget, cutoff)
    {
      assert forall p :: p in projects[..i + 1] <==> p in projects[..i] || p == projects[i];
      assert grouped[projects[i]] == Group(runs, projects[i]);
      var gone := SweepProject(SortDescending(grouped[projects[i]]), budget, cutoff);
      assert gone == Swept(Ordered(runs, projects[i]), 0, budget, cutoff);
      candidates := candidates + gone;
    }
    RemovedFromProjects(runs, projects, candidates, budget, cutoff);
    remaining := if dryRun then stored else Without(stored, candidates);
    WithoutOf(stored, candidates);
  }

  lemma RemovedFromProjects(runs: seq<Run>, projects: seq<string>, ids: set<string>, budget: nat, cutoff: Option<int>)
    requires forall p :: p in projects <==> exists r :: r in runs && r.project == p
    requires forall id :: id in ids <==>
               exists p :: p in projects[..|projects|] && id in Swept(Ordered(runs, p), 0, budget, cutoff)
    ensures ids == RemovedIds(runs, budget, cutoff)
  {
    assert projects[..|projects|] == projects;
    forall id
      ensures id in ids <==> id in RemovedIds(runs, budget, cutoff)
    {
      if id in ids {
        var p :| p in projects && id in Swept(Ordered(runs, p), 0, budget, cutoff);
        var r := SweptIsRun(Ordered(runs, p), id, 0, budget, cutoff);
        OrderedOf(runs, p);
        assert r in runs && r.project == p;
      }
    }
  }

  /** Whatever is swept is the id of an inactive run that is not recent. */
  lemma {:induction false} SweptIsRun(ordered: seq<Run>, id: string, kept: nat, budget: nat, cutoff: Option<int>)
    returns (r: Run)
    requires id in Swept(ordered, kept, budget, cutoff)
    ensures r in ordered && r.id == id && !r.Active() && !Recent(r, cutoff)
    decreases |ordered|
  {
    r := ordered[0];
    var counted := if r.Active() then kept else kept + 1;
    if id in Swept(ordered[1..], counted, budget, cutoff) {
      r := SweptIsRun(ordered[1..], id, counted, budget, cutoff);
    }
  }

  // ---------------------------------------------------------------- what is spared

  /** The ids agree with what is swept, as far as these runs are concerned. */
  predicate Agrees(ids: set<string>, ordered: seq<Run>, kept: nat, budget: nat, cutoff: Option<int>) {
    forall r :: r in ordered ==> (r.id in ids <==> r.id in Swept(ordered, kept, budget, cutoff))
  }

  /** Whether the first run goes, and that the rest agrees again. */
  lemma AgreesSplit(ids: set<string>, ordered: seq<Run>, kept: nat, budget: nat, cutoff: Option<int>)
    requires ordered != [] && DistinctIds(ordered) && Agrees(ids, ordered, kept, budget, cutoff)
    ensures ordered[0].id in ids <==>
              !ordered[0].Active() && kept + 1 > budget && !Recent(ordered[0], cutoff)
    ensures Agrees(ids, ordered[1..], if ordered[0].Active() then kept else kept + 1, budget, cutoff)
  {
    var counted := if ordered[0].Active() then kept else kept + 1;
    if ordered[0].id in Swept(ordered[1..], counted, budget, cutoff) {
      var r := SweptIsRun(ordered[1..], ordered[0].id, counted, budget, cutoff);
      assert false;
    }
    Split(ordered);
  }

  /** What a cleanup removes from a project is what is swept there: ids of other projects do not interfere. */
  lemma RemovedAgrees(runs: seq<Run>, project: string, budget: nat, cutoff: Option<int>)
    requires DistinctIds(runs)
    ensures DistinctIds(Ordered(runs, project)) && Descending(Ordered(runs, project))
    ensures Agrees(RemovedIds(runs, budget, cutoff), Ordered(runs, project), 0, budget, cutoff)
  {
    OrderedOf(runs, project);
    forall r | r in Ordered(runs, project)
      ensures r.id in RemovedIds(runs, budget, cutoff) <==> r.id in Swept(Ordered(runs, project), 0, budget, cutoff)
    {
      if r.id in RemovedIds(runs, budget, cutoff) {
        var other :| other in runs && other.id == r.id
                     && r.id in Swept(Ordered(runs, other.project), 0, budget, cutoff);
        SameId(runs, other, r);
      }
    }
  }

  /** The first inactive runs, at most `n` of them. */
  function FirstInactive(ordered: seq<Run>, n: nat): seq<Run> {
    if ordered == [] || n == 0 then []
    else if ordered[0].Active() then FirstInactive(ordered[1..], n)
    else [ordered[0]] + FirstInactive(ordered[1..], n - 1)
  }

  lemma {:induction false} FirstInactiveAre(ordered: seq<Run>, n: nat)
    ensures forall w :: w in FirstInactive(ordered, n) ==> w in ordered && !w.Active()
    ensures DistinctIds(ordered) ==> DistinctIds(FirstInactive(ordered, n))
    decreases |ordered|
  {
    if ordered != [] && n > 0 {
      var rest := ordered[1..];
      Split(ordered);
      var m := if ordered[0].Active() then n else n - 1;
      FirstInactiveAre(rest, m);
      assert ([ordered[0]] + FirstInactive(rest, m))[1..] == FirstInactive(rest, m);
    }
  }

  lemma {:induction false} SweepRuleInOrder(ids: set<string>, ordered: seq<Run>, kept: nat, budget: nat,
                                            cutoff: Option<int>, r: Run)
    requires DistinctIds(ordered) && Agrees(ids, ordered, kept, budget, cutoff) && r in ordered
    ensures var n := if kept < budget then budget - kept else 0;
            r.id in ids <==> !r.Active() && !Recent(r, cutoff) && r !in FirstInactive(ordered, n)
    decreases |ordered|
  {
    var rest, first := ordered[1..], ordered[0];
    var counted := if first.Active() then kept else kept + 1;
    AgreesSplit(ids, ordered, kept, budget, cutoff);
    Split(ordered);
    if r in rest {
      SweepRuleInOrder(ids, rest, counted, budget, cutoff, r);
      assert r.id != first.id;
    } else {
      FirstInactiveAre(rest, if kept < budget then budget - kept else 0);
    }
  }

  /** The inactive runs of the sequence before the run. */
  ghost function Before(ordered: seq<Run>, r: Run): set<Run> {
    set x | x in ordered && x.status.Finished? && Precedes(ordered, x, r)
  }

  lemma NobodyBefore(ordered: seq<Run>)
    requires DistinctIds(ordered) && ordered != []
    ensures Before(ordered, ordered[0]) == {}
  {
    var rest, r := ordered[1..], ordered[0];
    forall x
      ensures !Precedes(ordered, x, r)
    {
      PrecedesFirst(ordered, x, r);
      NeverBefore(rest, x, r);
    }
  }

  lemma {:induction false} FirstInactiveRank(ordered: seq<Run>, n: nat, r: Run)
    requires DistinctIds(ordered) && r in ordered && r.status.Finished?
    ensures r in FirstInactive(ordered, n) <==> |Before(ordered, r)| < n
    decreases |ordered|
  {
    if n > 0 {
      if r == ordered[0] {
        NobodyBefore(ordered);
      } else {
        Split(ordered);
        FirstInactiveRank(ordered[1..], if ordered[0].Active() then n else n - 1, r);
        BeforeFirst(ordered, r);
      }
    }
  }

  lemma BeforeFirst(ordered: seq<Run>, r: Run)
    requires DistinctIds(ordered) && ordered != [] && r in ordered[1..]
    ensures ordered[0] !in Before(ordered[1..], r)
    ensures Before(ordered, r) == Before(ordered[1..], r) + if ordered[0].status.Finished? then {ordered[0]} else {}
  {
    Split(ordered);
    forall x
      ensures Precedes(ordered, x, r) <==> x == ordered[0] || Precedes(ordered[1..], x, r)
    {
      PrecedesFirst(ordered, x, r);
    }
  }

  /** The inactive runs of the same project with a later key, or with the same key and read earlier. */
  ghost function Ahead(runs: seq<Run>, r: Run): set<Run> {
    set x | x in runs && x.project == r.project && x.status.Finished?
            && (x.key > r.key || (x.key == r.key && Precedes(runs, x, r)))
  }

  lemma OrderedOrder(runs: seq<Run>, x: Run, r: Run)
    requires DistinctIds(runs) && r in runs && x in runs && x.project == r.project
    ensures Precedes(Ordered(runs, r.project), x, r) <==> x.key > r.key || (x.key == r.key && Precedes(runs, x, r))
  {
    GroupOf(runs, r.project);
    SortOrder(Group(runs, r.project), x, r);
    GroupOrder(runs, r.project, x, r);
  }

  lemma AheadIsBefore(runs: seq<Run>, r: Run)
    requires DistinctIds(runs) && r in runs
    ensures Before(Ordered(runs, r.project), r) == Ahead(runs, r)
  {
    OrderedOf(runs, r.project);
    forall x
      ensures x in Before(Ordered(runs, r.project), r) <==> x in Ahead(runs, r)
    {
      if x in runs && x.project == r.project {
        OrderedOrder(runs, x, r);
      }
    }
  }

  lemma FrontIs(runs: seq<Run>, n: nat, r: Run)
    requires DistinctIds(runs) && r in runs && r.status.Finished?
    ensures r in FirstInactive(Ordered(runs, r.project), n) <==> |Ahead(runs, r)| < n
  {
    OrderedOf(runs, r.project);
    FirstInactiveRank(Ordered(runs, r.project), n, r);
    AheadIsBefore(runs, r);
  }

  /** Whom the cleanup leaves alone: active runs, those that ended after the cutoff, and the newest of the others. */
  ghost predicate Spared(runs: seq<Run>, budget: nat, cutoff: Option<int>, r: Run) {
    || !r.status.Finished?
    || (cutoff.Some? && r.time.Some? && r.time.value > cutoff.value)
    || |Ahead(runs, r)| < budget
  }

  lemma SweptAre(runs: seq<Run>, budget: nat, cutoff: Option<int>, r: Run)
    requires DistinctIds(runs) && r in runs
    ensures r.id in RemovedIds(runs, budget, cutoff)
            <==> !r.Active() && !Recent(r, cutoff) && r !in FirstInactive(Ordered(runs, r.project), budget)
  {
    OrderedOf(runs, r.project);
    RemovedAgrees(runs, r.project, budget, cutoff);
    SweepRuleInOrder(RemovedIds(runs, budget, cutoff), Ordered(runs, r.project), 0, budget, cutoff, r);
  }

  /** The rule of the sweep, exactly: everybody else goes. */
  lemma SweepRule(runs: seq<Run>, budget: nat, cutoff: Option<int>, r: Run)
    requires DistinctIds(runs) && r in runs
    ensures r.id in RemovedIds(runs, budget, cutoff) <==> !Spared(runs, budget, cutoff, r)
  {
    SweptAre(runs, budget, cutoff, r);
    if r.status.Finished? {
      FrontIs(runs, budget, r);
    }
  }

  /** The first inactive runs are spared, and whatever goes comes behind a full budget of them. */
  lemma {:induction false} FirstInactiveSpared(ids: set<string>, ordered: seq<Run>, kept: nat, budget: nat,
                                               cutoff: Option<int>, r: Run)
    requires DistinctIds(ordered) && Descending(ordered) && kept <= budget
    requires Agrees(ids, ordered, kept, budget, cutoff)
    requires r in ordered && r.id in ids
    ensures |FirstInactive(ordered, budget - kept)| == budget - kept
    ensures forall w :: w in FirstInactive(ordered, budget - kept) ==> w.id !in ids && w.key >= r.key
    decreases |ordered|
  {
    if kept < budget {
      AgreesSplit(ids, ordered, kept, budget, cutoff);
      Split(ordered);
      FirstInactiveSpared(ids, ordered[1..], if ordered[0].Active() then kept else kept + 1, budget, cutoff, r);
    }
  }

  /** A full budget of inactive runs of the same project, all kept and none older. */
  predicate Outlived(r: Run, keepers: seq<Run>, remaining: seq<Run>, budget: nat) {
    && |keepers| == budget
    && DistinctIds(keepers)
    && forall w :: w in keepers ==>
         w in remaining && w.status.Finished? && w.project == r.project && w.key >= r.key
  }

  /** Only inactive runs past the cutoff go. */
  lemma RemovedAreOld(runs: seq<Run>, budget: nat, cutoff: Option<int>, r: Run)
    requires DistinctIds(runs)
    requires r in runs && r.id in RemovedIds(runs, budget, cutoff)
    ensures r.status.Finished? && (cutoff.Some? && r.time.Some? ==> r.time.value <= cutoff.value)
  {
    var ordered := Ordered(runs, r.project);
    OrderedOf(runs, r.project);
    RemovedAgrees(runs, r.project, budget, cutoff);
    var swept := SweptIsRun(ordered, r.id, 0, budget, cutoff);
    SameId(ordered, swept, r);
  }

  lemma OutlivedInOrder(ids: set<string>, runs: seq<Run>, ordered: seq<Run>, budget: nat, cutoff: Option<int>, r: Run)
    requires DistinctIds(ordered) && Descending(ordered) && Agrees(ids, ordered, 0, budget, cutoff)
    requires forall x :: x in ordered <==> x in runs && x.project == r.project
    requires r in ordered && r.id in ids
    ensures Outlived(r, FirstInactive(ordered, budget), Without(runs, ids), budget)
  {
    FirstInactiveSpared(ids, ordered, 0, budget, cutoff, r);
    FirstInactiveAre(ordered, budget);
    WithoutOf(runs, ids);
  }

  /** Each removed run is behind a full budget of kept ones of its project. */
  lemma RemovedAreOutlived(runs: seq<Run>, budget: nat, cutoff: Option<int>, r: Run)
    requires DistinctIds(runs)
    requires r in runs && r.id in RemovedIds(runs, budget, cutoff)
    ensures exists keepers :: Outlived(r, keepers, Without(runs, RemovedIds(runs, budget, cutoff)), budget)
  {
    var ids := RemovedIds(runs, budget, cutoff);
    OrderedOf(runs, r.project);
    RemovedAgrees(runs, r.project, budget, cutoff);
    OutlivedInOrder(ids, runs, Ordered(runs, r.project), budget, cutoff, r);
  }

  lemma {:induction false} KeptInOrder(ids: set<string>, ordered: seq<Run>, kept: nat, budget: nat, cutoff: Option<int>)
    requires DistinctIds(ordered) && Agrees(ids, ordered, kept, budget, cutoff)
    ensures InactiveCount(Without(ordered, ids)) >= InactiveCount(ordered)
              || InactiveCount(Without(ordered, ids)) >= budget - kept
    decreases |ordered|
  {
    if ordered != [] {
      AgreesSplit(ids, ordered, kept, budget, cutoff);
      KeptInOrder(ids, ordered[1..], if ordered[0].Active() then kept else kept + 1, budget, cutoff);
      assert ([ordered[0]] + Without(ordered[1..], ids))[1..] == Without(ordered[1..], ids);
    }
  }

  /** Every project keeps its newest inactive runs: as many as the budget, or all it had. */
  lemma EveryProjectKeeps(runs: seq<Run>, project: string, budget: nat, cutoff: Option<int>)
    requires DistinctIds(runs)
    ensures var had := InactiveCount(Group(runs, project));
            var has := InactiveCount(Group(Without(runs, RemovedIds(runs, budget, cutoff)), project));
            has >= if had < budget then had else budget
  {
    var ids := RemovedIds(runs, budget, cutoff);
    RemovedAgrees(runs, project, budget, cutoff);
    KeptInOrder(ids, Ordered(runs, project), 0, budget, cutoff);
    GroupWithout(runs, ids, project);
    SortWithout(Group(runs, project), ids);
    SortedDescending(Group(runs, project));
    SortedDescending(Without(Group(runs, project), ids));
  }

  lemma {:induction false} SweepAgain(ids: set<string>, ordered: seq<Run>, kept: nat, recount: nat, budget: nat,
                                      cutoff: Option<int>)
    requires DistinctIds(ordered) && Agrees(ids, ordered, kept, budget, cutoff) && recount <= kept
    ensures Swept(Without(ordered, ids), recount, budget, cutoff) == {}
    decreases |ordered|
  {
    if ordered != [] {
      AgreesSplit(ids, ordered, kept, budget, cutoff);
      var gone := ordered[0].Active() || ordered[0].id in ids;
      SweepAgain(ids, ordered[1..], if ordered[0].Active() then kept else kept + 1,
                 if gone then recount else recount + 1, budget, cutoff);
      assert ([ordered[0]] + Without(ordered[1..], ids))[1..] == Without(ordered[1..], ids);
    }
  }

  /** A second cleanup with the same cutoff finds nothing to remove. */
  lemma SecondPassRemovesNothing(runs: seq<Run>, budget: nat, cutoff: Option<int>)
    requires DistinctIds(runs)
    ensures RemovedIds(Without(runs, RemovedIds(runs, budget, cutoff)), budget, cutoff) == {}
  {
    var ids := RemovedIds(runs, budget, cutoff);
    var remaining := Without(runs, ids);
    forall r | r in remaining
      ensures Swept(Ordered(remaining, r.project), 0, budget, cutoff) == {}
    {
      RemovedAgrees(runs, r.project, budget, cutoff);
      SweepAgain(ids, Ordered(runs, r.project), 0, 0, budget, cutoff);
      GroupWithout(runs, ids, r.project);
      SortWithout(Group(runs, r.project), ids);
    }
  }

  // ---------------------------------------------------------------- between the read and the mutation

  /** Every active run of the store, as far as it was read, was spared by the sweep. */
  ghost predicate ActiveWereSpared(runs: seq<Run>, stored: seq<Run>, budget: nat, cutoff: Option<int>) {
    forall r, now :: r in runs && now in stored && r.id == now.id && !now.status.Finished? ==>
      Spared(runs, budget, cutoff, r)
  }

  /**
   * "Active runs are never removed", exactly: all active runs of the store survive if and only if each run that
   * was resumed between the read and the mutation was recent or within the budget when it was read.
   */
  lemma ActiveRunsStay(runs: seq<Run>, stored: seq<Run>, budget: nat, cutoff: Option<int>)
    requires DistinctIds(runs)
    ensures var ids := RemovedIds(runs, budget, cutoff);
            (forall now :: now in stored && !now.status.Finished? ==> now in Without(stored, ids))
            <==> ActiveWereSpared(runs, stored, budget, cutoff)
  {
    var ids := RemovedIds(runs, budget, cutoff);
    WithoutOf(stored, ids);
    forall r | r in runs
      ensures r.id in ids <==> !Spared(runs, budget, cutoff, r)
    {
      SweepRule(runs, budget, cutoff, r);
    }
  }

  /** Any run that the sweep does not spare is removed if it is resumed in between, whatever else the store holds. */
  lemma WokenRunIsRemoved(runs: seq<Run>, stored: seq<Run>, budget: nat, cutoff: Option<int>, r: Run)
    requires DistinctIds(runs) && r in runs && !Spared(runs, budget, cutoff, r)
    requires r.(status := Running) in stored
    ensures var now := r.(status := Running);
            now !in Without(stored, RemovedIds(runs, budget, cutoff))
  {
    SweepRule(runs, budget, cutoff, r);
    WithoutOf(stored, RemovedIds(runs, budget, cutoff));
  }

  /** And there are such runs under every budget: the oldest of a project that has more inactive runs than that. */
  lemma SomebodyIsNotSpared(runs: seq<Run>, project: string, budget: nat) returns (r: Run)
    requires DistinctIds(runs) && InactiveCount(Group(runs, project)) > budget
    ensures r in runs && r.project == project && !Spared(runs, budget, None, r)
  {
    OrderedOf(runs, project);
    SortedDescending(Group(runs, project));
    r := BeyondBudget(Ordered(runs, project), budget);
    FrontIs(runs, budget, r);
  }

  lemma {:induction false} BeyondBudget(ordered: seq<Run>, n: nat) returns (r: Run)
    requires DistinctIds(ordered) && InactiveCount(ordered) > n
    ensures r in ordered && !r.Active() && r !in FirstInactive(ordered, n)
    decreases |ordered|
  {
    var first, rest := ordered[0], ordered[1..];
    Split(ordered);
    if n == 0 && !first.Active() {
      r := first;
    } else {
      r := BeyondBudget(rest, if first.Active() then n else n - 1);
      assert r.id != first.id;
    }
  }
}
