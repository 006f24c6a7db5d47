/**
 * The SQLite store: a JSON document and the tables projected from it, refreshed for the
 * changed runs only (app/persistence/sqlite_store.py).
 */
module ProjectionStore {
  import opened Prelude

  // ---------------------------------------------------------------- the document

  /** An event, known by its canonical JSON; the key hash is injective. */
  datatype Event = Event(stepKey: Option<string>, json: string)

  /** An entry of one of the lists of a run: the key its fields give, if any, and its JSON. */
  datatype Item = Item(key: Option<string>, json: string)

  datatype Step = Step(
    key: Option<string>,
    status: Option<string>,
    phase: Option<string>,
    retryCount: Option<nat>,
    events: Option<seq<Event>>,
    missing: set<string>,
    isValidation: bool,
    json: string)

  datatype Lock = Lock(mode: Option<string>, acquiredAt: Option<string>, json: string)

  datatype SessionRef = SessionRef(role: string, agent: string, session: Option<string>)

  /**
   * A run; a field that may be absent, or of the wrong type, is an option, and `missing` names the absent ones
   * among those that are only filled with a constant.  `roleSessions` are the entries of a dictionary of
   * sessions by role unless that is empty.
   */
  datatype Run = Run(
    id: string,
    status: Option<string>,
    phase: Option<string>,
    header: string,
    steps: seq<Step>,
    tasks: Option<seq<Item>>,
    missing: set<string>,
    session: Option<string>,
    qwenSession: Option<Option<string>>,
    agentSessions: Option<seq<SessionRef>>,
    roleSessions: Option<seq<SessionRef>>,
    timeline: Option<seq<Event>>,
    events: seq<Event>,
    artifacts: Option<seq<Item>>,
    validations: Option<seq<Item>>,
    fileChanges: Option<seq<Item>>,
    checkpoints: Option<seq<Item>>,
    lock: Option<Lock>,
    originalPath: Option<string>,
    projectPath: Option<string>)

  datatype Doc = Doc(stateVersion: int, runs: seq<Run>, rest: string)

  const EMPTY_DOC := Doc(0, [], "")

  // ---------------------------------------------------------------- normalization

  function Or<T>(o: Option<T>, default: T): T {
    match o case Some(x) => x case None => default
  }

  function Filled<T>(o: Option<T>, default: T): Option<T> {
    Some(Or(o, default))
  }

  function NormalStep(s: Step): Step {
    s.(status := Filled(s.status, "pending"), retryCount := Filled(s.retryCount, 0), events := Filled(s.events, []),
       missing := {})
  }

  function NormalSteps(steps: seq<Step>): (r: seq<Step>)
    ensures |r| == |steps| && forall i :: 0 <= i < |steps| ==> r[i] == NormalStep(steps[i])
  {
    seq(|steps|, i requires 0 <= i < |steps| => NormalStep(steps[i]))
  }

  /** The sessions of a run that has no dictionary of them. */
  function DefaultSessions(r: Run): seq<SessionRef> {
    var qwen := Or(r.qwenSession, r.session);
    [SessionRef("shared", "qwen", if qwen.Some? then qwen else r.session), SessionRef("shared", "opencode", r.session)]
  }

  function NormalRun(defaults: seq<Step>, r: Run): Run {
    r.(missing := {}, qwenSession := Filled(r.qwenSession, r.session),
       agentSessions := Filled(r.agentSessions, DefaultSessions(r)),
       status := Filled(r.status, "queued"), tasks := Filled(r.tasks, []), timeline := Filled(r.timeline, []),
       artifacts := Filled(r.artifacts, []), validations := Filled(r.validations, []),
       fileChanges := Filled(r.fileChanges, []), checkpoints := Filled(r.checkpoints, []),
       steps := NormalSteps(if r.steps == [] then defaults else r.steps))
  }

  /** `_normalize`. */
  function Normalize(defaults: seq<Step>, d: Doc): (r: Doc)
    ensures |r.runs| == |d.runs| && forall i :: 0 <= i < |d.runs| ==> r.runs[i] == NormalRun(defaults, d.runs[i])
  {
    d.(runs := seq(|d.runs|, i requires 0 <= i < |d.runs| => NormalRun(defaults, d.runs[i])))
  }

  /** Normalizing twice is normalizing once. */
  lemma NormalizeIdempotent(defaults: seq<Step>, d: Doc)
    ensures Normalize(defaults, Normalize(defaults, d)) == Normalize(defaults, d)
  {
    forall i | 0 <= i < |d.runs|
      ensures NormalRun(defaults, NormalRun(defaults, d.runs[i])) == NormalRun(defaults, d.runs[i])
    {
    }
    assert Normalize(defaults, Normalize(defaults, d)).runs == Normalize(defaults, d).runs;
  }

  // ---------------------------------------------------------------- the tables

  datatype ChildTable = RunSteps | Tasks | AgentSessions | Artifacts | ValidationResults | FileChanges | Checkpoints

  datatype RowKey = Named(name: string) | SessionKey(role: string, agent: string)

  datatype ChildKey = ChildKey(table: ChildTable, runId: string, key: RowKey)

  datatype ChildRow =
    | StepRow(position: nat, step: Step)
    | ItemRow(position: nat, item: Item)
    | SessionRow(session: SessionRef)

  datatype RunRow = RunRow(status: string, phase: Option<string>, projectPath: Option<string>, payload: Run)

  datatype LockRow = LockRow(runId: string, mode: string, acquiredAt: Option<string>, json: string)

  datatype EventRow = EventRow(runId: string, stepKey: Option<string>, event: Event)

  datatype Tables = Tables(
    runs: map<string, RunRow>,
    children: map<ChildKey, ChildRow>,
    locks: map<string, LockRow>,
    events: seq<EventRow>)

  const EMPTY_TABLES := Tables(map[], map[], map[], [])

  /** An INSERT; `orReplace` tells INSERT OR REPLACE from one that raises on a duplicate key. */
  datatype Insert = Insert(key: ChildKey, row: ChildRow, orReplace: bool)

  function Digits(n: nat): string {
    if n < 10 then [('0' as int + n) as char] else Digits(n / 10) + [('0' as int + n % 10) as char]
  }

  function StepKey(s: Step, position: nat): string {
    Or(s.key, "step-" + Digits(position))
  }

  /** The name of a list entry at a position. */
  function ItemName(item: Item, prefix: string, position: nat): string {
    Or(item.key, prefix + Digits(position))
  }

  function ItemInserts(id: string, table: ChildTable, prefix: string, orReplace: bool, items: seq<Item>)
    : (r: seq<Insert>)
    ensures forall i :: 0 <= i < |r| ==> r[i].key.runId == id
  {
    seq(|items|, i requires 0 <= i < |items| =>
      Insert(ChildKey(table, id, Named(ItemName(items[i], prefix, i))), ItemRow(i, items[i]), orReplace))
  }

  function StepInserts(id: string, steps: seq<Step>): (r: seq<Insert>)
    ensures |r| == |steps|
    ensures forall i :: 0 <= i < |r| ==>
              r[i].key == ChildKey(RunSteps, id, Named(StepKey(steps[i], i))) && !r[i].orReplace
  {
    seq(|steps|, i requires 0 <= i < |steps| =>
      Insert(ChildKey(RunSteps, id, Named(StepKey(steps[i], i))), StepRow(i, steps[i]), false))
  }

  function SessionInserts(id: string, sessions: seq<SessionRef>): (r: seq<Insert>)
    ensures |r| == |sessions|
    ensures forall i :: 0 <= i < |r| ==>
              r[i].key == ChildKey(AgentSessions, id, SessionKey(sessions[i].role, sessions[i].agent))
              && !r[i].orReplace
  {
    seq(|sessions|, i requires 0 <= i < |sessions| =>
      Insert(ChildKey(AgentSessions, id, SessionKey(sessions[i].role, sessions[i].agent)),
             SessionRow(sessions[i]), false))
  }

  /** The validation evidence that steps contribute after the recorded results. */
  function StepEvidence(steps: seq<Step>): seq<Item> {
    if steps == [] then []
    else (if steps[0].isValidation then [Item(steps[0].key, steps[0].json)] else []) + StepEvidence(steps[1..])
  }

  /** The child rows of a run, in the order in which they are inserted. */
  function Inserts(r: Run): (s: seq<Insert>)
    ensures forall i :: 0 <= i < |s| ==> s[i].key.runId == r.id
  {
    StepInserts(r.id, r.steps)
    + ItemInserts(r.id, Tasks, "task-", false, Or(r.tasks, []))
    + SessionInserts(r.id, Or(r.roleSessions, Or(r.agentSessions, [])))
    + ItemInserts(r.id, Artifacts, "artifact-", false, Or(r.artifacts, []))
    + ItemInserts(r.id, ValidationResults, "validation-", true, Or(r.validations, []) + StepEvidence(r.steps))
    + ItemInserts(r.id, FileChanges, "change-", true, Or(r.fileChanges, []))
    + ItemInserts(r.id, Checkpoints, "checkpoint-", false, Or(r.checkpoints, []))
  }

  function InsertRow(m: map<ChildKey, ChildRow>, i: Insert): Option<map<ChildKey, ChildRow>> {
    if i.key in m && !i.orReplace then None else Some(m[i.key := i.row])
  }

  function InsertAll(m: map<ChildKey, ChildRow>, s: seq<Insert>): Option<map<ChildKey, ChildRow>> {
    if s == [] then Some(m)
    else
      match InsertAll(m, s[..|s| - 1])
      case None => None
      case Some(next) => InsertRow(next, s[|s| - 1])
  }

  /** The events of a run, each with the step key it is recorded under: steps first, then timeline and events. */
  function StepEvents(id: string, steps: seq<Step>, position: nat): seq<EventRow> {
    if steps == [] then []
    else
      seq(|Or(steps[0].events, [])|, i requires 0 <= i < |Or(steps[0].events, [])| =>
        EventRow(id, Some(StepKey(steps[0], position)), Or(steps[0].events, [])[i]))
      + StepEvents(id, steps[1..], position + 1)
  }

  function EventRows(r: Run): seq<EventRow> {
    StepEvents(r.id, r.steps, 0)
    + var own := Or(r.timeline, []) + r.events;
      seq(|own|, i requires 0 <= i < |own| => EventRow(r.id, own[i].stepKey, own[i]))
  }

  /** The unique index on (run id, event key). */
  predicate SameEvent(a: EventRow, b: EventRow) {
    a.runId == b.runId && a.event == b.event
  }

  /** INSERT OR IGNORE. */
  function AddEvent(rows: seq<EventRow>, e: EventRow): seq<EventRow> {
    if exists i :: 0 <= i < |rows| && SameEvent(rows[i], e) then rows else rows + [e]
  }

  function AddEvents(rows: seq<EventRow>, s: seq<EventRow>): seq<EventRow> {
    if s == [] then rows else AddEvent(AddEvents(rows, s[..|s| - 1]), s[|s| - 1])
  }

  function LockPath(r: Run): Option<string> {
    if r.originalPath.Some? then r.originalPath else r.projectPath
  }

  predicate Holds(r: Run, path: string) {
    r.id != "" && r.lock.Some? && LockPath(r) == Some(path)
  }

  function LockRowOf(r: Run): LockRow
    requires r.lock.Some?
  {
    LockRow(r.id, Or(r.lock.value.mode, "write"), r.lock.value.acquiredAt, r.lock.value.json)
  }

  function CurrentPhase(steps: seq<Step>): Option<string> {
    if steps == [] then None
    else if steps[0].status == Some("running") || steps[0].status == Some("waiting_input") then steps[0].phase
    else CurrentPhase(steps[1..])
  }

  function RowOf(r: Run): RunRow {
    var phase := if r.phase.Some? then r.phase
                 else if CurrentPhase(r.steps).Some? then CurrentPhase(r.steps) else r.status;
    RunRow(Or(r.status, "queued"), phase, LockPath(r), r)
  }

  // ---------------------------------------------------------------- synchronizing

  function WithoutRun(m: map<ChildKey, ChildRow>, id: string): map<ChildKey, ChildRow> {
    map k | k in m && k.runId != id :: m[k]
  }

  function WithoutLocksOf(m: map<string, LockRow>, id: string): map<string, LockRow> {
    map p | p in m && m[p].runId != id :: m[p]
  }

  function SyncLock(m: map<string, LockRow>, r: Run): map<string, LockRow> {
    var rest := WithoutLocksOf(m, r.id);
    if r.lock.Some? && LockPath(r).Some? then rest[LockPath(r).value := LockRowOf(r)] else rest
  }

  /** `_sync_run_projection`: None when an INSERT violates a primary key. */
  function SyncRun(t: Tables, r: Run): Option<Tables> {
    if r.id == "" then Some(t)
    else
      match InsertAll(WithoutRun(t.children, r.id), Inserts(r))
      case None => None
      case Some(children) =>
        Some(Tables(t.runs[r.id := RowOf(r)], children, SyncLock(t.locks, r), AddEvents(t.events, EventRows(r))))
  }

  function SyncAll(t: Tables, runs: seq<Run>): Option<Tables> {
    if runs == [] then Some(t)
    else
      match SyncAll(t, runs[..|runs| - 1])
      case None => None
      case Some(next) => SyncRun(next, runs[|runs| - 1])
  }

  /** `_sync_projections`: everything anew. */
  function Rebuild(d: Doc): Option<Tables> {
    SyncAll(EMPTY_TABLES, d.runs)
  }

  /** `{str(item["id"]): item ...}`: the last run of an id. */
  function ById(runs: seq<Run>): map<string, Run> {
    if runs == [] then map[]
    else
      var rest, last := ById(runs[..|runs| - 1]), runs[|runs| - 1];
      if last.id == "" then rest else rest[last.id := last]
  }

  /** The ids of that dictionary, in its order: that of their first occurrence. */
  function IdOrder(runs: seq<Run>): seq<string> {
    if runs == [] then []
    else
      var rest, id := IdOrder(runs[..|runs| - 1]), runs[|runs| - 1].id;
      if id == "" || id in rest then rest else rest + [id]
  }

  /** DELETE FROM runs, with its cascade, and the lock rows of the removed runs. */
  function RemoveRuns(t: Tables, ids: set<string>): Tables {
    Tables(t.runs - ids,
           map k | k in t.children && k.runId !in ids :: t.children[k],
           map p | p in t.locks && t.locks[p].runId !in ids :: t.locks[p],
           KeepEvents(t.events, ids))
  }

  function KeepEvents(rows: seq<EventRow>, ids: set<string>): seq<EventRow> {
    if rows == [] then []
    else KeepEvents(rows[..|rows| - 1], ids) + if rows[|rows| - 1].runId in ids then [] else [rows[|rows| - 1]]
  }

  predicate Changed(before: map<string, Run>, r: Run) {
    r.id !in before || before[r.id] != r
  }

  /** The runs to synchronize, in dictionary order. */
  function ChangedRuns(before: map<string, Run>, after: map<string, Run>, order: seq<string>): seq<Run> {
    if order == [] then []
    else
      var rest, id := ChangedRuns(before, after, order[..|order| - 1]), order[|order| - 1];
      if id in after && Changed(before, after[id]) then rest + [after[id]] else rest
  }

  /** `_sync_changed_projections`. */
  function SyncChanged(t: Tables, before: Doc, after: Doc): Option<Tables> {
    var b, a := ById(before.runs), ById(after.runs);
    SyncAll(RemoveRuns(t, b.Keys - a.Keys), ChangedRuns(b, a, IdOrder(after.runs)))
  }

  type Mutator = Doc -> Option<Doc>

  class SQLiteStore {
    var document: Doc
    var tables: Tables
    const defaults: seq<Step>

    constructor (defaults: seq<Step>)
      ensures document == EMPTY_DOC && tables == EMPTY_TABLES && this.defaults == defaults
    {
      document, tables, this.defaults := EMPTY_DOC, EMPTY_TABLES, defaults;
    }

    method InsertChildren(rows: seq<Insert>) returns (ok: bool)
      modifies this`tables
      ensures ok ==> InsertAll(old(tables).children, rows) == Some(tables.children)
                     && tables == old(tables).(children := tables.children)
      ensures !ok ==> InsertAll(old(tables).children, rows) == None
    {
      var i := 0;
      while i < |rows|
        invariant 0 <= i <= |rows|
        invariant tables == old(tables).(children := tables.children)
        invariant InsertAll(old(tables).children, rows[..i]) == Some(tables.children)
      {
        assert rows[..i + 1][..i] == rows[..i];
        if rows[i].key in tables.children && !rows[i].orReplace {
          InsertAllFails(old(tables).children, rows, i);
          return false;
        }
        tables := tables.(children := tables.children[rows[i].key := rows[i].row]);
        i := i + 1;
      }
      assert rows[..|rows|] == rows;
      ok := true;
    }

    method InsertEvents(rows: seq<EventRow>)
      modifies this`tables
      ensures tables == old(tables).(events := AddEvents(old(tables).events, rows))
    {
      var i := 0;
      while i < |rows|
        invariant 0 <= i <= |rows|
        invariant tables == old(tables).(events := AddEvents(old(tables).events, rows[..i]))
      {
        assert rows[..i + 1][..i] == rows[..i];
        tables := tables.(events := AddEvent(tables.events, rows[i]));
        i := i + 1;
      }
      assert rows[..|rows|] == rows;
    }

    method SyncRunProjection(r: Run) returns (ok: bool)
      modifies this`tables
      ensures ok ==> SyncRun(old(tables), r) == Some(tables)
      ensures !ok ==> SyncRun(old(tables), r) == None
    {
      if r.id == "" {
        return true;
      }
      tables := tables.(runs := tables.runs[r.id := RowOf(r)]);
      tables := tables.(children := WithoutRun(tables.children, r.id));
      ok := InsertChildren(Inserts(r));
      if !ok {
        return;
      }
      InsertEvents(EventRows(r));
      tables := tables.(locks := WithoutLocksOf(tables.locks, r.id));
      if r.lock.Some? && LockPath(r).Some? {
        tables := tables.(locks := tables.locks[LockPath(r).value := LockRowOf(r)]);
      }
    }

    method SyncRuns(runs: seq<Run>) returns (ok: bool)
      modifies this`tables
      ensures ok ==> SyncAll(old(tables), runs) == Some(tables)
      ensures !ok ==> SyncAll(old(tables), runs) == None
    {
      var i := 0;
      while i < |runs|
        invariant 0 <= i <= |runs|
        invariant SyncAll(old(tables), runs[..i]) == Some(tables)
      {
        SyncAllNext(old(tables), runs, i, tables);
        ok := SyncRunProjection(runs[i]);
        i := i + 1;
        if !ok {
          SyncAllFails(old(tables), runs, i);
          return;
        }
      }
      assert runs[..|runs|] == runs;
      ok := true;
    }

    /** `_sync_projections`: delete every row, then project every run. */
    method SyncProjections(data: Doc) returns (ok: bool)
      modifies this`tables
      ensures ok ==> Rebuild(data) == Some(tables)
      ensures !ok ==> Rebuild(data) == None
    {
      tables := EMPTY_TABLES;
      ok := SyncRuns(data.runs);
    }

    method SyncChangedProjections(before: Doc, after: Doc) returns (ok: bool)
      modifies this`tables
      ensures ok ==> SyncChanged(old(tables), before, after) == Some(tables)
      ensures !ok ==> SyncChanged(old(tables), before, after) == None
    {
      var b, a, order := ById(before.runs), ById(after.runs), IdOrder(after.runs);
      tables := RemoveRuns(tables, b.Keys - a.Keys);
      var runs: seq<Run> := [];
      var i := 0;
      while i < |order|
        invariant 0 <= i <= |order| && runs == ChangedRuns(b, a, order[..i])
      {
        assert order[..i + 1][..i] == order[..i];
        if order[i] in a && Changed(b, a[order[i]]) {
          runs := runs + [a[order[i]]];
        }
        i := i + 1;
      }
      assert order[..|order|] == order;
      ok := SyncRuns(runs);
    }

    /**
     * `mutate`, in one transaction: it commits the mutated document under the next version,
     * with its tables refreshed, or leaves the whole store as it was.
     */
    method Mutate(fn: Mutator) returns (ok: bool)
      modifies this
      ensures State(document, tables) == Mutated(defaults, State(old(document), old(tables)), fn).0
      ensures ok == Mutated(defaults, State(old(document), old(tables)), fn).1
    {
      ghost var s := State(document, tables);
      var data := Normalize(defaults, document);
      var before := data;
      var result := fn(data);
      if result.None? {
        assert Mutated(defaults, s, fn) == (s, false);
        return false;
      }
      data := result.value.(stateVersion := result.value.stateVersion + 1);
      var rollback := State(document, tables);
      document := data;
      ok := SyncChangedProjections(before, data);
      if !ok {
        assert Mutated(defaults, s, fn) == (s, false);
        document, tables := rollback.document, rollback.tables;
      }
    }
  }

  datatype State = State(document: Doc, tables: Tables)

  function Mutated(defaults: seq<Step>, s: State, fn: Mutator): (State, bool) {
    var before := Normalize(defaults, s.document);
    match fn(before)
    case None => (s, false)
    case Some(d) =>
      var after := d.(stateVersion := d.stateVersion + 1);
      match SyncChanged(s.tables, before, after)
      case None => (s, false)
      case Some(tables) => (State(after, tables), true)
  }

  lemma {:induction false} InsertAllFails(m: map<ChildKey, ChildRow>, s: seq<Insert>, i: nat)
    requires i < |s| && InsertAll(m, s[..i]).Some? && InsertRow(InsertAll(m, s[..i]).value, s[i]) == None
    ensures InsertAll(m, s) == None
    decreases |s|
  {
    if i + 1 < |s| {
      assert s[..|s| - 1][..i] == s[..i];
      InsertAllFails(m, s[..|s| - 1], i);
    }
  }

  lemma SyncAllNext(t: Tables, runs: seq<Run>, i: nat, now: Tables)
    requires i < |runs| && SyncAll(t, runs[..i]) == Some(now)
    ensures SyncAll(t, runs[..i + 1]) == SyncRun(now, runs[i])
  {
    assert runs[..i + 1][..i] == runs[..i];
  }

  lemma {:induction false} SyncAllFails(t: Tables, runs: seq<Run>, i: nat)
    requires i <= |runs| && SyncAll(t, runs[..i]) == None
    ensures SyncAll(t, runs) == None
    decreases |runs|
  {
    if i < |runs| {
      assert runs[..|runs| - 1][..i] == runs[..i];
      SyncAllFails(t, runs[..|runs| - 1], i);
    } else {
      assert runs[..i] == runs;
    }
  }
}
