/**
 * The incremental refresh agrees with the full rebuild (app/persistence/sqlite_store.py).
 */
module ProjectionAgreement {
  import opened Prelude
  import opened ProjectionStore

  // ---------------------------------------------------------------- runs and child rows

  /** No two INSERTs of the run collide where they must not. */
  predicate Projectable(r: Run) {
    r.id == "" || InsertAll(map[], Inserts(r)).Some?
  }

  /** The child rows of one run, on their own. */
  function ChildRows(r: Run): map<ChildKey, ChildRow> {
    match InsertAll(map[], Inserts(r)) case Some(m) => m case None => map[]
  }

  lemma {:induction false} InsertAllLocal(m: map<ChildKey, ChildRow>, s: seq<Insert>, id: string)
    requires forall k :: k in m ==> k.runId != id
    requires forall i :: 0 <= i < |s| ==> s[i].key.runId == id
    ensures InsertAll(m, s).Some? <==> InsertAll(map[], s).Some?
    ensures InsertAll(m, s).Some? ==>
              InsertAll(m, s).value == m + InsertAll(map[], s).value
              && forall k :: k in InsertAll(map[], s).value ==> k.runId == id
    decreases |s|
  {
    if s != [] {
      InsertAllLocal(m, s[..|s| - 1], id);
    }
  }

  // ---------------------------------------------------------------- which runs can be projected

  predicate NoClash(s: seq<Insert>) {
    forall i, j :: 0 <= j < i < |s| && s[i].key == s[j].key ==> s[i].orReplace
  }

  lemma {:induction false} InsertAllSucceeds(s: seq<Insert>)
    ensures InsertAll(map[], s).Some? <==> NoClash(s)
    ensures InsertAll(map[], s).Some? ==>
              forall k :: k in InsertAll(map[], s).value <==> exists i :: 0 <= i < |s| && s[i].key == k
    decreases |s|
  {
    if s != [] {
      var rest, last := s[..|s| - 1], s[|s| - 1];
      assert s == rest + [last];
      InsertAllSucceeds(rest);
      assert forall i :: 0 <= i < |rest| ==> s[i] == rest[i];
    }
  }

  lemma NoClashConcat(a: seq<Insert>, b: seq<Insert>)
    requires forall i, j :: 0 <= i < |a| && 0 <= j < |b| ==> a[i].key != b[j].key
    ensures NoClash(a + b) <==> NoClash(a) && NoClash(b)
  {
    var all := a + b;
    if NoClash(all) {
      forall i, j | 0 <= j < i < |b| && b[i].key == b[j].key
        ensures b[i].orReplace
      {
        assert all[|a| + i] == b[i] && all[|a| + j] == b[j];
      }
      forall i, j | 0 <= j < i < |a| && a[i].key == a[j].key
        ensures a[i].orReplace
      {
        assert all[i] == a[i] && all[j] == a[j];
      }
    }
  }

  predicate OfTables(s: seq<Insert>, tables: set<ChildTable>) {
    forall i :: 0 <= i < |s| ==> s[i].key.table in tables
  }

  /** One table more. */
  lemma NextTable(a: seq<Insert>, b: seq<Insert>, tables: set<ChildTable>, table: ChildTable)
    requires OfTables(a, tables) && OfTables(b, {table}) && table !in tables
    ensures OfTables(a + b, tables + {table})
    ensures NoClash(a + b) <==> NoClash(a) && NoClash(b)
  {
    NoClashConcat(a, b);
  }

  lemma TableByTable(steps: seq<Insert>, tasks: seq<Insert>, sessions: seq<Insert>, artifacts: seq<Insert>,
                     results: seq<Insert>, changes: seq<Insert>, checkpoints: seq<Insert>)
    requires OfTables(steps, {RunSteps}) && OfTables(tasks, {Tasks}) && OfTables(sessions, {AgentSessions})
    requires OfTables(artifacts, {Artifacts}) && OfTables(results, {ValidationResults})
    requires OfTables(changes, {FileChanges}) && OfTables(checkpoints, {Checkpoints})
    ensures NoClash(steps + tasks + sessions + artifacts + results + changes + checkpoints) <==>
              NoClash(steps) && NoClash(tasks) && NoClash(sessions) && NoClash(artifacts) && NoClash(results)
              && NoClash(changes) && NoClash(checkpoints)
  {
    NextTable(steps, tasks, {RunSteps}, Tasks);
    NextTable(steps + tasks, sessions, {RunSteps, Tasks}, AgentSessions);
    var three := steps + tasks + sessions;
    NextTable(three, artifacts, {RunSteps, Tasks, AgentSessions}, Artifacts);
    NextTable(three + artifacts, results, {RunSteps, Tasks, AgentSessions, Artifacts}, ValidationResults);
    var five := three + artifacts + results;
    NextTable(five, changes, {RunSteps, Tasks, AgentSessions, Artifacts, ValidationResults}, FileChanges);
    NextTable(five + changes, checkpoints,
              {RunSteps, Tasks, AgentSessions, Artifacts, ValidationResults, FileChanges}, Checkpoints);
  }

  /** A run can be projected exactly when its steps, tasks, sessions, artifacts and checkpoints have distinct keys. */
  lemma ProjectableByTable(r: Run)
    ensures NoClash(Inserts(r)) <==>
              && NoClash(StepInserts(r.id, r.steps))
              && NoClash(ItemInserts(r.id, Tasks, "task-", false, Or(r.tasks, [])))
              && NoClash(SessionInserts(r.id, Or(r.roleSessions, Or(r.agentSessions, []))))
              && NoClash(ItemInserts(r.id, Artifacts, "artifact-", false, Or(r.artifacts, [])))
              && NoClash(ItemInserts(r.id, Checkpoints, "checkpoint-", false, Or(r.checkpoints, [])))
  {
    var results := Or(r.validations, []) + StepEvidence(r.steps);
    TableByTable(StepInserts(r.id, r.steps),
                 ItemInserts(r.id, Tasks, "task-", false, Or(r.tasks, [])),
                 SessionInserts(r.id, Or(r.roleSessions, Or(r.agentSessions, []))),
                 ItemInserts(r.id, Artifacts, "artifact-", false, Or(r.artifacts, [])),
                 ItemInserts(r.id, ValidationResults, "validation-", true, results),
                 ItemInserts(r.id, FileChanges, "change-", true, Or(r.fileChanges, [])),
                 ItemInserts(r.id, Checkpoints, "checkpoint-", false, Or(r.checkpoints, [])));
  }

  /** The default steps have distinct keys. */
  predicate ProperDefaults(defaults: seq<Step>) {
    forall i, j :: 0 <= i < j < |defaults| ==> StepKey(defaults[i], i) != StepKey(defaults[j], j)
  }

  lemma NormalStepsKeepKeys(id: string, steps: seq<Step>)
    ensures NoClash(StepInserts(id, NormalSteps(steps))) <==> NoClash(StepInserts(id, steps))
  {
    var a, b := StepInserts(id, steps), StepInserts(id, NormalSteps(steps));
    assert forall i :: 0 <= i < |steps| ==> a[i].key == b[i].key && a[i].orReplace == b[i].orReplace;
  }

  lemma DefaultSessionsAreTwo(r: Run)
    ensures NoClash(SessionInserts(r.id, DefaultSessions(r)))
  {
    var s := SessionInserts(r.id, DefaultSessions(r));
    assert s[0].key.key.agent == "qwen" && s[1].key.key.agent == "opencode";
    assert "qwen"[0] != "opencode"[0];
  }

  /** Normalizing changes nothing about whether a run can be projected. */
  lemma NormalIsProjectable(defaults: seq<Step>, r: Run)
    requires ProperDefaults(defaults)
    ensures Projectable(NormalRun(defaults, r)) <==> Projectable(r)
  {
    var n := NormalRun(defaults, r);
    InsertAllSucceeds(Inserts(r));
    InsertAllSucceeds(Inserts(n));
    ProjectableByTable(r);
    ProjectableByTable(n);
    NormalStepsKeepKeys(r.id, if r.steps == [] then defaults else r.steps);
    DefaultSessionsAreTwo(r);
  }

  /** The runs of the dictionary have their own rows in `t'`, and the other rows are those of `t`. */
  ghost predicate Projects(t: Tables, t': Tables, d: map<string, Run>) {
    && (forall id :: Lookup(t'.runs, id) == if id in d then Some(RowOf(d[id])) else Lookup(t.runs, id))
    && (forall k :: Lookup(t'.children, k) ==
                    if k.runId in d then Lookup(ChildRows(d[k.runId]), k) else Lookup(t.children, k))
  }

  lemma SyncRunSucceeds(t: Tables, r: Run)
    requires r.id != ""
    ensures SyncRun(t, r).Some? <==> Projectable(r)
  {
    InsertAllLocal(WithoutRun(t.children, r.id), Inserts(r), r.id);
  }

  lemma SyncRunEffect(t: Tables, r: Run, t': Tables)
    requires r.id != "" && SyncRun(t, r) == Some(t')
    ensures t'.runs == t.runs[r.id := RowOf(r)]
    ensures t'.children == WithoutRun(t.children, r.id) + ChildRows(r)
    ensures forall k :: k in ChildRows(r) ==> k.runId == r.id
  {
    InsertAllLocal(WithoutRun(t.children, r.id), Inserts(r), r.id);
  }

  lemma SyncRunProjects(t: Tables, r: Run, t': Tables)
    requires r.id != "" && SyncRun(t, r) == Some(t')
    ensures Projects(t, t', map[r.id := r])
  {
    SyncRunEffect(t, r, t');
    EffectProjects(t.runs, t.children, r, ChildRows(r), t');
    assert forall k: ChildKey :: k.runId == r.id ==>
             Lookup(ChildRows(r), k) == Lookup(ChildRows(map[r.id := r][k.runId]), k);
  }

  lemma EffectProjects(runs: map<string, RunRow>, children: map<ChildKey, ChildRow>, r: Run,
                       own: map<ChildKey, ChildRow>, t': Tables)
    requires t'.runs == runs[r.id := RowOf(r)] && t'.children == WithoutRun(children, r.id) + own
    requires forall k :: k in own ==> k.runId == r.id
    ensures forall id :: Lookup(t'.runs, id) == if id == r.id then Some(RowOf(r)) else Lookup(runs, id)
    ensures forall k :: Lookup(t'.children, k) == if k.runId == r.id then Lookup(own, k) else Lookup(children, k)
  {
  }

  lemma SyncAllSnoc(t: Tables, runs: seq<Run>)
    requires runs != []
    ensures var rest, r := SyncAll(t, runs[..|runs| - 1]), runs[|runs| - 1];
            SyncAll(t, runs) == if rest.None? then None else if r.id == "" then rest else SyncRun(rest.value, r)
  {
  }

  predicate AllProjectable(runs: seq<Run>) {
    runs == [] || (AllProjectable(runs[..|runs| - 1]) && Projectable(runs[|runs| - 1]))
  }

  lemma {:induction false} AllProjectableMeans(runs: seq<Run>)
    ensures AllProjectable(runs) <==> forall r :: r in runs ==> Projectable(r)
    decreases |runs|
  {
    if runs != [] {
      var rest, last := runs[..|runs| - 1], runs[|runs| - 1];
      AllProjectableMeans(rest);
      assert runs == rest + [last];
      assert forall r :: r in runs <==> r in rest || r == last;
    }
  }

  lemma {:induction false} SyncAllSucceeds(t: Tables, runs: seq<Run>)
    ensures SyncAll(t, runs).Some? <==> AllProjectable(runs)
    decreases |runs|
  {
    if runs != [] {
      var rest, r := runs[..|runs| - 1], runs[|runs| - 1];
      SyncAllSucceeds(t, rest);
      SyncAllSnoc(t, runs);
      if SyncAll(t, rest).Some? && r.id != "" {
        SyncRunSucceeds(SyncAll(t, rest).value, r);
      }
    }
  }

  /** After projecting runs one after the other, the last run of each id has its rows, and no other id changed. */
  lemma {:induction false} SyncAllProjects(t: Tables, runs: seq<Run>)
    requires SyncAll(t, runs).Some?
    ensures Projects(t, SyncAll(t, runs).value, ById(runs))
    decreases |runs|
  {
    if runs != [] {
      var n := |runs| - 1;
      SyncAllSnoc(t, runs);
      SyncAllProjects(t, runs[..n]);
      if runs[n].id != "" {
        var mid := SyncAll(t, runs[..n]).value;
        SyncRunProjects(mid, runs[n], SyncAll(t, runs).value);
      }
    }
  }

  lemma {:induction false} DictionaryIds(runs: seq<Run>)
    ensures forall id :: id in ById(runs) ==> id != "" && ById(runs)[id].id == id && ById(runs)[id] in runs
    ensures forall id :: id in IdOrder(runs) <==> id in ById(runs)
    ensures Distinct(IdOrder(runs))
    ensures forall i :: 0 <= i < |runs| && runs[i].id != "" ==> runs[i].id in ById(runs)
    decreases |runs|
  {
    if runs != [] {
      DictionaryIds(runs[..|runs| - 1]);
      assert forall i :: 0 <= i < |runs| - 1 ==> runs[i] == runs[..|runs| - 1][i];
    }
  }

  /** The changed runs of a document. */
  function ChangedOf(b: map<string, Run>, runs: seq<Run>): seq<Run> {
    if runs == [] then []
    else
      var rest, r := ChangedOf(b, runs[..|runs| - 1]), runs[|runs| - 1];
      if r.id != "" && Changed(b, r) then rest + [r] else rest
  }

  predicate UniqueIds(runs: seq<Run>) {
    forall i, j :: 0 <= i < j < |runs| && runs[i].id != "" ==> runs[i].id != runs[j].id
  }

  lemma ByIdSnoc(runs: seq<Run>, r: Run)
    ensures ById(runs + [r]) == if r.id == "" then ById(runs) else ById(runs)[r.id := r]
  {
    assert (runs + [r])[..|runs|] == runs;
  }

  lemma LastIsNew(rest: seq<Run>, last: Run)
    requires UniqueIds(rest + [last])
    ensures UniqueIds(rest) && (last.id != "" ==> last.id !in ById(rest))
  {
    var runs := rest + [last];
    assert forall i :: 0 <= i < |rest| ==> runs[i] == rest[i];
    assert runs[|rest|] == last;
    DictionaryIds(rest);
    forall id | id in ById(rest) && last.id != ""
      ensures id != last.id
    {
      var k :| 0 <= k < |rest| && rest[k] == ById(rest)[id];
      assert runs[k].id == id;
    }
  }

  lemma {:induction false} UniqueDictionary(runs: seq<Run>)
    requires UniqueIds(runs)
    ensures forall i :: 0 <= i < |runs| && runs[i].id != "" ==>
              runs[i].id in ById(runs) && ById(runs)[runs[i].id] == runs[i]
    ensures forall id :: id in ById(runs) ==> id != "" && ById(runs)[id].id == id && ById(runs)[id] in runs
    decreases |runs|
  {
    DictionaryIds(runs);
    if runs != [] {
      var rest, last := runs[..|runs| - 1], runs[|runs| - 1];
      assert runs == rest + [last];
      LastIsNew(rest, last);
      UniqueDictionary(rest);
      ByIdSnoc(rest, last);
      forall i | 0 <= i < |runs| && runs[i].id != ""
        ensures runs[i].id in ById(runs) && ById(runs)[runs[i].id] == runs[i]
      {
        if i < |rest| {
          assert runs[i] == rest[i] && rest[i].id in ById(rest);
        }
      }
    }
  }

  /** The runs to refresh are the changed runs of the document, in its order. */
  lemma {:induction false} RefreshesChanged(b: map<string, Run>, a: map<string, Run>, runs: seq<Run>)
    requires UniqueIds(runs)
    requires forall i :: 0 <= i < |runs| && runs[i].id != "" ==> runs[i].id in a && a[runs[i].id] == runs[i]
    ensures ChangedRuns(b, a, IdOrder(runs)) == ChangedOf(b, runs)
    decreases |runs|
  {
    if runs != [] {
      var n := |runs| - 1;
      var rest, id := IdOrder(runs[..n]), runs[n].id;
      assert forall i :: 0 <= i < n ==> runs[i] == runs[..n][i];
      RefreshesChanged(b, a, runs[..n]);
      DictionaryIds(runs[..n]);
      if id != "" {
        assert id !in ById(runs[..n]);
        assert (rest + [id])[..|rest|] == rest;
      }
    }
  }

  lemma {:induction false} ChangedOfKeeps(b: map<string, Run>, runs: seq<Run>)
    requires UniqueIds(runs)
    ensures UniqueIds(ChangedOf(b, runs))
    ensures forall r :: r in ChangedOf(b, runs) <==> r in runs && r.id != "" && Changed(b, r)
    decreases |runs|
  {
    if runs != [] {
      var n := |runs| - 1;
      assert runs == runs[..n] + [runs[n]];
      ChangedOfKeeps(b, runs[..n]);
      var rest, all := ChangedOf(b, runs[..n]), ChangedOf(b, runs);
      forall i, j | 0 <= i < j < |all| && all[i].id != ""
        ensures all[i].id != all[j].id
      {
        assert all[i] == rest[i] && rest[i] in rest;
        if j == |rest| {
          var k :| 0 <= k < n && runs[k] == rest[i];
        }
      }
    }
  }

  // ---------------------------------------------------------------- run and child rows refine the rebuild

  lemma {:induction false} ChangedAt(b: map<string, Run>, runs: seq<Run>, id: string)
    requires UniqueIds(runs)
    ensures Lookup(ById(ChangedOf(b, runs)), id) ==
              if id in ById(runs) && Changed(b, ById(runs)[id]) then Some(ById(runs)[id]) else None
    decreases |runs|
  {
    if runs != [] {
      var rest, last := runs[..|runs| - 1], runs[|runs| - 1];
      assert runs == rest + [last];
      LastIsNew(rest, last);
      ChangedAt(b, rest, id);
      ByIdSnoc(rest, last);
      var changed := ChangedOf(b, rest);
      if last.id != "" && Changed(b, last) {
        ByIdSnoc(changed, last);
        assert ChangedOf(b, runs) == changed + [last];
        assert Lookup(ById(changed + [last]), id) == if id == last.id then Some(last) else Lookup(ById(changed), id);
        assert id == last.id ==> ById(runs)[id] == last;
      } else {
        assert ChangedOf(b, runs) == changed;
        assert last.id != "" && id == last.id ==> id !in ById(rest);
      }
    }
  }

  lemma ChangedDictionary(b: map<string, Run>, runs: seq<Run>)
    requires UniqueIds(runs)
    ensures forall id :: id in ById(ChangedOf(b, runs)) <==> id in ById(runs) && Changed(b, ById(runs)[id])
    ensures forall id :: id in ById(ChangedOf(b, runs)) ==> ById(ChangedOf(b, runs))[id] == ById(runs)[id]
  {
    forall id
      ensures id in ById(ChangedOf(b, runs)) <==> id in ById(runs) && Changed(b, ById(runs)[id])
      ensures id in ById(ChangedOf(b, runs)) ==> ById(ChangedOf(b, runs))[id] == ById(runs)[id]
    {
      ChangedAt(b, runs, id);
    }
  }

  /** What the incremental refresh does, under unique ids. */
  lemma RefreshIs(t: Tables, before: Doc, after: Doc)
    requires UniqueIds(after.runs)
    ensures var b := ById(before.runs);
            SyncChanged(t, before, after) ==
            SyncAll(RemoveRuns(t, b.Keys - ById(after.runs).Keys), ChangedOf(b, after.runs))
  {
    UniqueDictionary(after.runs);
    RefreshesChanged(ById(before.runs), ById(after.runs), after.runs);
  }

  ghost predicate SameRunsAndChildren(t: Tables, u: Tables) {
    t.runs == u.runs && t.children == u.children
  }

  lemma SameLookups<K, V>(m: map<K, V>, n: map<K, V>)
    requires forall k :: Lookup(m, k) == Lookup(n, k)
    ensures m == n
  {
    forall k
      ensures k in m <==> k in n
      ensures k in m ==> m[k] == n[k]
    {
      assert Lookup(m, k) == Lookup(n, k);
    }
  }

  /** A refresh fails exactly when a rebuild of the new document would. */
  lemma RefreshFailsLikeRebuild(t: Tables, before: Doc, after: Doc)
    requires Rebuild(before).Some? && UniqueIds(after.runs)
    ensures SyncChanged(t, before, after).Some? <==> Rebuild(after).Some?
  {
    var b := ById(before.runs);
    RefreshIs(t, before, after);
    SyncAllSucceeds(RemoveRuns(t, b.Keys - ById(after.runs).Keys), ChangedOf(b, after.runs));
    SyncAllSucceeds(EMPTY_TABLES, before.runs);
    SyncAllSucceeds(EMPTY_TABLES, after.runs);
    AllProjectableMeans(before.runs);
    AllProjectableMeans(after.runs);
    AllProjectableMeans(ChangedOf(b, after.runs));
    ChangedOfKeeps(b, after.runs);
    DictionaryIds(before.runs);
  }

  /** `c` holds what is new or different in `a`. */
  ghost predicate Difference(b: map<string, Run>, a: map<string, Run>, c: map<string, Run>) {
    forall id :: (id in c <==> id in a && (id !in b || b[id] != a[id])) && (id in c ==> c[id] == a[id])
  }

  /** What a run leaves unchanged is stored in the form in which it was compared. */
  ghost predicate UnchangedAsStored(o: map<string, Run>, b: map<string, Run>, a: map<string, Run>) {
    forall id :: id in a && id in b && b[id] == a[id] ==> id in o && o[id] == a[id]
  }

  lemma RefreshedRun(t: Tables, t': Tables, o: map<string, Run>, b: map<string, Run>, a: map<string, Run>,
                     c: map<string, Run>, id: string)
    requires o.Keys == b.Keys && Difference(b, a, c) && Projects(RemoveRuns(t, b.Keys - a.Keys), t', c)
    requires Lookup(t.runs, id) == if id in o then Some(RowOf(o[id])) else None
    ensures Lookup(t'.runs, id) ==
              if id !in a then None else if id in b && b[id] == a[id] then Some(RowOf(o[id])) else Some(RowOf(a[id]))
  {
  }

  lemma RefreshedChild(t: Tables, t': Tables, o: map<string, Run>, b: map<string, Run>, a: map<string, Run>,
                       c: map<string, Run>, k: ChildKey)
    requires o.Keys == b.Keys && Difference(b, a, c) && Projects(RemoveRuns(t, b.Keys - a.Keys), t', c)
    requires UnchangedAsStored(o, b, a)
    requires Lookup(t.children, k) == if k.runId in o then Lookup(ChildRows(o[k.runId]), k) else None
    ensures Lookup(t'.children, k) == if k.runId in a then Lookup(ChildRows(a[k.runId]), k) else None
  {
  }

  /** `t` projects the stored runs `o`; the refresh compares them as `b`, their normal forms, with `a`. */
  lemma RefreshedRows(t: Tables, t': Tables, full0: Tables, full1: Tables,
                      o: map<string, Run>, b: map<string, Run>, a: map<string, Run>, c: map<string, Run>)
    requires o.Keys == b.Keys && Difference(b, a, c) && Projects(RemoveRuns(t, b.Keys - a.Keys), t', c)
    requires Projects(EMPTY_TABLES, full0, o) && Projects(EMPTY_TABLES, full1, a) && SameRunsAndChildren(t, full0)
    ensures SameRunsAndChildren(t', full1) <==> UnchangedAsStored(o, b, a)
  {
    forall id
      ensures Lookup(t'.runs, id) == Lookup(full1.runs, id)
              <==> (id in a && id in b && b[id] == a[id] ==> id in o && o[id] == a[id])
    {
      assert Lookup(t.runs, id) == Lookup(full0.runs, id);
      RefreshedRun(t, t', o, b, a, c, id);
      if id in a && id in b && b[id] == a[id] {
        assert RowOf(o[id]).payload == o[id] && RowOf(a[id]).payload == a[id];
      }
    }
    if UnchangedAsStored(o, b, a) {
      SameLookups(t'.runs, full1.runs);
      forall k
        ensures Lookup(t'.children, k) == Lookup(full1.children, k)
      {
        assert Lookup(t.children, k) == Lookup(full0.children, k);
        RefreshedChild(t, t', o, b, a, c, k);
      }
      SameLookups(t'.children, full1.children);
    }
  }

  lemma {:induction false} NormalDictionary(defaults: seq<Step>, runs: seq<Run>, normal: seq<Run>)
    requires |normal| == |runs| && forall i :: 0 <= i < |runs| ==> normal[i] == NormalRun(defaults, runs[i])
    ensures ById(normal).Keys == ById(runs).Keys
    ensures forall id :: id in ById(runs) ==> ById(normal)[id] == NormalRun(defaults, ById(runs)[id])
    decreases |runs|
  {
    if runs != [] {
      NormalDictionary(defaults, runs[..|runs| - 1], normal[..|runs| - 1]);
    }
  }

  /** The tables' run and child rows are those of a full rebuild of the document. */
  ghost predicate RowsAgree(t: Tables, d: Doc) {
    Rebuild(d).Some? && SameRunsAndChildren(t, Rebuild(d).value)
  }

  lemma NormalRebuilds(defaults: seq<Step>, d: Doc)
    requires ProperDefaults(defaults)
    ensures Rebuild(Normalize(defaults, d)).Some? <==> Rebuild(d).Some?
  {
    var n := Normalize(defaults, d);
    SyncAllSucceeds(EMPTY_TABLES, d.runs);
    SyncAllSucceeds(EMPTY_TABLES, n.runs);
    AllProjectableMeans(d.runs);
    AllProjectableMeans(n.runs);
    forall i | 0 <= i < |d.runs|
      ensures Projectable(n.runs[i]) <==> Projectable(d.runs[i])
    {
      assert n.runs[i] == NormalRun(defaults, d.runs[i]);
      NormalIsProjectable(defaults, d.runs[i]);
    }
  }

  /** The refresh of a mutation fails exactly when a rebuild of the new document would. */
  lemma MutationFailsLikeRebuild(defaults: seq<Step>, t: Tables, stored: Doc, after: Doc)
    requires ProperDefaults(defaults) && Rebuild(stored).Some? && UniqueIds(after.runs)
    ensures SyncChanged(t, Normalize(defaults, stored), after).Some? <==> Rebuild(after).Some?
  {
    NormalRebuilds(defaults, stored);
    RefreshFailsLikeRebuild(t, Normalize(defaults, stored), after);
  }

  lemma RefreshSucceeds(t: Tables, before: Doc, after: Doc)
    requires UniqueIds(after.runs) && Rebuild(after).Some?
    ensures SyncChanged(t, before, after).Some?
  {
    var b := ById(before.runs);
    RefreshIs(t, before, after);
    SyncAllSucceeds(RemoveRuns(t, b.Keys - ById(after.runs).Keys), ChangedOf(b, after.runs));
    SyncAllSucceeds(EMPTY_TABLES, after.runs);
    AllProjectableMeans(after.runs);
    AllProjectableMeans(ChangedOf(b, after.runs));
    ChangedOfKeeps(b, after.runs);
  }

  /**
   * A mutation refreshes the tables by comparison with the normal form of the stored document.  Afterwards run
   * and child rows are those of a full rebuild of the new document if and only if each run that the mutation
   * left unchanged had been stored in normal form.
   */
  lemma RowsRefineExactly(defaults: seq<Step>, t: Tables, stored: Doc, after: Doc)
    requires RowsAgree(t, stored) && UniqueIds(after.runs)
    requires SyncChanged(t, Normalize(defaults, stored), after).Some?
    ensures var before := Normalize(defaults, stored);
            RowsAgree(SyncChanged(t, before, after).value, after)
            <==> UnchangedAsStored(ById(stored.runs), ById(before.runs), ById(after.runs))
  {
    var before := Normalize(defaults, stored);
    if UnchangedAsStored(ById(stored.runs), ById(before.runs), ById(after.runs)) {
      UnchangedRebuilds(t, stored, before, after);
    }
    if Rebuild(after).Some? {
      RowsRefineWhereRebuilt(defaults, t, stored, after);
    }
  }

  /** Where unchanged runs are as they were stored, a refresh that succeeds can be rebuilt. */
  lemma UnchangedRebuilds(t: Tables, stored: Doc, before: Doc, after: Doc)
    requires Rebuild(stored).Some? && UniqueIds(after.runs) && SyncChanged(t, before, after).Some?
    requires UnchangedAsStored(ById(stored.runs), ById(before.runs), ById(after.runs))
    ensures Rebuild(after).Some?
  {
    var b, a := ById(before.runs), ById(after.runs);
    RefreshIs(t, before, after);
    SyncAllSucceeds(RemoveRuns(t, b.Keys - a.Keys), ChangedOf(b, after.runs));
    SyncAllSucceeds(EMPTY_TABLES, stored.runs);
    SyncAllSucceeds(EMPTY_TABLES, after.runs);
    AllProjectableMeans(stored.runs);
    AllProjectableMeans(after.runs);
    AllProjectableMeans(ChangedOf(b, after.runs));
    ChangedOfKeeps(b, after.runs);
    UniqueDictionary(after.runs);
    DictionaryIds(stored.runs);
    forall r | r in after.runs
      ensures Projectable(r)
    {
      if r.id != "" && !Changed(b, r) {
        assert r.id in a && a[r.id] == r;
        assert ById(stored.runs)[r.id] == r;
      }
    }
  }

  lemma RowsRefineWhereRebuilt(defaults: seq<Step>, t: Tables, stored: Doc, after: Doc)
    requires RowsAgree(t, stored) && UniqueIds(after.runs) && Rebuild(after).Some?
    requires SyncChanged(t, Normalize(defaults, stored), after).Some?
    ensures var before := Normalize(defaults, stored);
            RowsAgree(SyncChanged(t, before, after).value, after)
            <==> UnchangedAsStored(ById(stored.runs), ById(before.runs), ById(after.runs))
  {
    var before := Normalize(defaults, stored);
    var b, a := ById(before.runs), ById(after.runs);
    NormalDictionary(defaults, stored.runs, before.runs);
    RefreshIs(t, before, after);
    SyncAllProjects(EMPTY_TABLES, stored.runs);
    SyncAllProjects(EMPTY_TABLES, after.runs);
    SyncAllProjects(RemoveRuns(t, b.Keys - a.Keys), ChangedOf(b, after.runs));
    ChangedDictionary(b, after.runs);
    UniqueDictionary(after.runs);
    RefreshedRows(t, SyncChanged(t, before, after).value, Rebuild(stored).value, Rebuild(after).value,
                  ById(stored.runs), b, a, ById(ChangedOf(b, after.runs)));
  }

  /**
   * If the run and child rows were those of a full rebuild before, the incremental refresh
   * leaves those of a full rebuild of the new document.
   */
  lemma RowsRefineRebuild(t: Tables, before: Doc, after: Doc)
    requires Rebuild(before).Some? && SameRunsAndChildren(t, Rebuild(before).value)
    requires UniqueIds(after.runs) && Rebuild(after).Some?
    ensures SyncChanged(t, before, after).Some?
    ensures SameRunsAndChildren(SyncChanged(t, before, after).value, Rebuild(after).value)
  {
    var b := ById(before.runs);
    RefreshFailsLikeRebuild(t, before, after);
    RefreshIs(t, before, after);
    SyncAllProjects(EMPTY_TABLES, before.runs);
    SyncAllProjects(EMPTY_TABLES, after.runs);
    SyncAllProjects(RemoveRuns(t, b.Keys - ById(after.runs).Keys), ChangedOf(b, after.runs));
    ChangedDictionary(b, after.runs);
    UniqueDictionary(after.runs);
    RefreshedRows(t, SyncChanged(t, before, after).value, Rebuild(before).value, Rebuild(after).value,
                  b, b, ById(after.runs), ById(ChangedOf(b, after.runs)));
  }
}
