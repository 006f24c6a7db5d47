/**
 * What the projection of a run puts into the tables, read off the run's own fields
 * (app/persistence/sqlite_store.py).
 */
module ProjectedRows {
  import opened Prelude
  import opened ProjectionStore
  import opened ProjectionAgreement

  // ---------------------------------------------------------------- positions in keys

  function Value(s: string): int {
    if s == "" then 0 else 10 * Value(s[..|s| - 1]) + (s[|s| - 1] as int - '0' as int)
  }

  /** A position is written in decimal digits, so different positions give different keys. */
  lemma {:induction false} DigitsValue(n: nat)
    ensures Value(Digits(n)) == n && Digits(n) != ""
    ensures forall i :: 0 <= i < |Digits(n)| ==> '0' <= Digits(n)[i] <= '9'
  {
    if n >= 10 {
      DigitsValue(n / 10);
      var d := Digits(n);
      assert d[..|d| - 1] == Digits(n / 10);
    }
  }

  // ---------------------------------------------------------------- events

  /** A row of a step's event. */
  ghost predicate OfStep(row: EventRow, id: string, s: Step, key: string) {
    row.runId == id && row.stepKey == Some(key) && s.events.Some? && row.event in s.events.value
  }

  /** A row of an event of the run's timeline, or of its own list. */
  ghost predicate OfRun(row: EventRow, r: Run) {
    && row.runId == r.id && row.stepKey == row.event.stepKey
    && ((r.timeline.Some? && row.event in r.timeline.value) || row.event in r.events)
  }

  ghost predicate HasEvent(rows: seq<EventRow>, id: string, e: Event) {
    exists k :: 0 <= k < |rows| && rows[k].runId == id && rows[k].event == e
  }

  /** Every event of the run has a row: those of its timeline, its own list, and its steps. */
  ghost predicate EventsHeld(rows: seq<EventRow>, r: Run) {
    && (r.timeline.Some? ==> forall e :: e in r.timeline.value ==> HasEvent(rows, r.id, e))
    && (forall e :: e in r.events ==> HasEvent(rows, r.id, e))
    && (forall i, e :: 0 <= i < |r.steps| && r.steps[i].events.Some? && e in r.steps[i].events.value ==>
          HasEvent(rows, r.id, e))
  }

  /** The key of a step at a position: its own, or one made of the position. */
  ghost predicate KeyOf(s: Step, position: nat, key: string) {
    match s.key
    case Some(own) => key == own
    case None => key == "step-" + Digits(position)
  }

  lemma {:induction false} StepEventsHeld(id: string, steps: seq<Step>, position: nat)
    ensures forall i, e :: 0 <= i < |steps| && steps[i].events.Some? && e in steps[i].events.value ==>
              HasEvent(StepEvents(id, steps, position), id, e)
    decreases |steps|
  {
    if steps != [] {
      var rows, behind := StepEvents(id, steps, position), StepEvents(id, steps[1..], position + 1);
      var own := rows[..|rows| - |behind|];
      StepEventsHeld(id, steps[1..], position + 1);
      assert rows == own + behind;
      forall i, e | 0 <= i < |steps| && steps[i].events.Some? && e in steps[i].events.value
        ensures HasEvent(rows, id, e)
      {
        if i == 0 {
          var m :| 0 <= m < |steps[0].events.value| && steps[0].events.value[m] == e;
          assert rows[m].event == e;
        } else {
          assert steps[1..][i - 1] == steps[i] && HasEvent(behind, id, e);
          var k :| 0 <= k < |behind| && behind[k].runId == id && behind[k].event == e;
          assert rows[|own| + k] == behind[k];
        }
      }
    }
  }

  lemma {:induction false} StepEventsOnly(id: string, steps: seq<Step>, position: nat, row: EventRow)
    requires row in StepEvents(id, steps, position)
    ensures exists i, key :: 0 <= i < |steps| && KeyOf(steps[i], position + i, key) && OfStep(row, id, steps[i], key)
    decreases |steps|
  {
    var behind := StepEvents(id, steps[1..], position + 1);
    if row in behind {
      StepEventsOnly(id, steps[1..], position + 1, row);
      var i, key :| 0 <= i < |steps| - 1 && KeyOf(steps[1..][i], position + 1 + i, key)
                    && OfStep(row, id, steps[1..][i], key);
      assert steps[1..][i] == steps[i + 1];
    } else {
      assert KeyOf(steps[0], position, StepKey(steps[0], position));
      assert OfStep(row, id, steps[0], StepKey(steps[0], position));
    }
  }

  /** The event rows of a run are those of its fields: all of them, ... */
  lemma EventRowsHeld(r: Run)
    ensures EventsHeld(EventRows(r), r)
  {
    var rows, steps, own := EventRows(r), StepEvents(r.id, r.steps, 0), Or(r.timeline, []) + r.events;
    StepEventsHeld(r.id, r.steps, 0);
    forall e | e in own
      ensures HasEvent(rows, r.id, e)
    {
      var m :| 0 <= m < |own| && own[m] == e;
      assert rows[|steps| + m] == EventRow(r.id, e.stepKey, e);
    }
    forall i, e | 0 <= i < |r.steps| && r.steps[i].events.Some? && e in r.steps[i].events.value
      ensures HasEvent(rows, r.id, e)
    {
      assert HasEvent(steps, r.id, e);
      var k :| 0 <= k < |steps| && steps[k].runId == r.id && steps[k].event == e;
      assert rows[k] == steps[k];
    }
  }

  /** ... and no others. */
  lemma EventRowsOnly(r: Run, row: EventRow)
    requires row in EventRows(r)
    ensures OfRun(row, r)
            || exists i, key :: 0 <= i < |r.steps| && KeyOf(r.steps[i], i, key) && OfStep(row, r.id, r.steps[i], key)
  {
    if row in StepEvents(r.id, r.steps, 0) {
      StepEventsOnly(r.id, r.steps, 0, row);
    } else {
      var own := Or(r.timeline, []) + r.events;
      var m :| 0 <= m < |own| && row == EventRow(r.id, own[m].stepKey, own[m]);
      assert own[m] in own;
    }
  }

  // ---------------------------------------------------------------- child rows

  /** The name of a list entry is its own, or one made of the position. */
  lemma NamesAre(item: Item, s: Step, prefix: string, position: nat)
    ensures ItemName(item, prefix, position) ==
              match item.key case Some(own) => own case None => prefix + Digits(position)
    ensures KeyOf(s, position, StepKey(s, position))
  {
  }

  /** No later entry of the list has the name of this one. */
  ghost predicate LastOfName(items: seq<Item>, prefix: string, i: nat)
    requires i < |items|
  {
    forall j :: i < j < |items| ==> ItemName(items[j], prefix, j) != ItemName(items[i], prefix, i)
  }

  /** The table holds this run's entries of a list, the last under each name, and nothing else of the run. */
  ghost predicate ListHeld(rows: map<ChildKey, ChildRow>, id: string, table: ChildTable, prefix: string,
                           items: seq<Item>) {
    && (forall i :: 0 <= i < |items| && LastOfName(items, prefix, i) ==>
          Lookup(rows, ChildKey(table, id, Named(ItemName(items[i], prefix, i)))) == Some(ItemRow(i, items[i])))
    && (forall k :: k in rows && k.table == table && k.runId == id ==>
          exists i :: 0 <= i < |items| && k.key == Named(ItemName(items[i], prefix, i)))
  }

  ghost predicate StepsHeld(rows: map<ChildKey, ChildRow>, r: Run) {
    && (forall i :: 0 <= i < |r.steps| ==>
          Lookup(rows, ChildKey(RunSteps, r.id, Named(StepKey(r.steps[i], i)))) == Some(StepRow(i, r.steps[i])))
    && (forall k :: k in rows && k.table == RunSteps && k.runId == r.id ==>
          exists i :: 0 <= i < |r.steps| && k.key == Named(StepKey(r.steps[i], i)))
  }

  ghost predicate SessionsHeld(rows: map<ChildKey, ChildRow>, id: string, sessions: seq<SessionRef>) {
    && (forall s :: s in sessions ==>
          Lookup(rows, ChildKey(AgentSessions, id, SessionKey(s.role, s.agent))) == Some(SessionRow(s)))
    && (forall k :: k in rows && k.table == AgentSessions && k.runId == id ==>
          exists s :: s in sessions && k.key == SessionKey(s.role, s.agent))
  }

  /** The last INSERT of a key decides. */
  lemma {:induction false} InsertedLast(m: map<ChildKey, ChildRow>, s: seq<Insert>, i: nat)
    requires InsertAll(m, s).Some? && i < |s| && forall j :: i < j < |s| ==> s[j].key != s[i].key
    ensures Lookup(InsertAll(m, s).value, s[i].key) == Some(s[i].row)
    decreases |s|
  {
    var rest := s[..|s| - 1];
    if i < |rest| {
      assert rest[i] == s[i] && forall j :: i < j < |rest| ==> rest[j] == s[j];
      InsertedLast(m, rest, i);
    }
  }

  /** The tables hold what these INSERTs put there, the last under each key, and nothing else. */
  ghost predicate Stored(m: map<ChildKey, ChildRow>, s: seq<Insert>, tables: set<ChildTable>) {
    && (forall i :: 0 <= i < |s| && (forall j :: i < j < |s| ==> s[j].key != s[i].key) ==>
          Lookup(m, s[i].key) == Some(s[i].row))
    && (forall k :: k in m && k.table in tables ==> exists i :: 0 <= i < |s| && s[i].key == k)
    && NoClash(s)
  }

  lemma AllStored(s: seq<Insert>, tables: set<ChildTable>, m: map<ChildKey, ChildRow>)
    requires InsertAll(map[], s) == Some(m)
    ensures Stored(m, s, tables)
  {
    InsertAllSucceeds(s);
    forall i | 0 <= i < |s| && forall j :: i < j < |s| ==> s[j].key != s[i].key
      ensures Lookup(m, s[i].key) == Some(s[i].row)
    {
      InsertedLast(map[], s, i);
    }
  }

  /** The rows of the last stretch, and those before it, when they go to different tables. */
  lemma StoredApart(m: map<ChildKey, ChildRow>, a: seq<Insert>, b: seq<Insert>, tables: set<ChildTable>,
                    table: ChildTable)
    requires Stored(m, a + b, tables + {table})
    requires OfTables(a, tables) && OfTables(b, {table}) && table !in tables
    ensures Stored(m, a, tables) && Stored(m, b, {table})
  {
    var all := a + b;
    NextTable(a, b, tables, table);
    assert forall n :: 0 <= n < |a| ==> all[n] == a[n];
    assert forall n :: |a| <= n < |all| ==> all[n] == b[n - |a|];
    forall i | 0 <= i < |a| && forall j :: i < j < |a| ==> a[j].key != a[i].key
      ensures Lookup(m, a[i].key) == Some(a[i].row)
    {
      assert all[i] == a[i];
      assert forall j :: i < j < |all| ==> all[j].key != all[i].key;
    }
    forall i | 0 <= i < |b| && forall j :: i < j < |b| ==> b[j].key != b[i].key
      ensures Lookup(m, b[i].key) == Some(b[i].row)
    {
      assert all[|a| + i] == b[i];
      assert forall j :: |a| + i < j < |all| ==> all[j] == b[j - |a|];
      assert forall j :: |a| + i < j < |all| ==> all[j].key != all[|a| + i].key;
    }
    forall k | k in m && k.table in tables
      ensures exists i :: 0 <= i < |a| && a[i].key == k
    {
      var n :| 0 <= n < |all| && all[n].key == k;
      assert n < |a|;
    }
    forall k | k in m && k.table in {table}
      ensures exists i :: 0 <= i < |b| && b[i].key == k
    {
      var n :| 0 <= n < |all| && all[n].key == k;
      assert n >= |a| && b[n - |a|].key == k;
    }
  }

  lemma ListStored(id: string, table: ChildTable, prefix: string, orReplace: bool, items: seq<Item>,
                   m: map<ChildKey, ChildRow>)
    requires Stored(m, ItemInserts(id, table, prefix, orReplace, items), {table})
    ensures ListHeld(m, id, table, prefix, items)
  {
    var b := ItemInserts(id, table, prefix, orReplace, items);
    forall i | 0 <= i < |items| && LastOfName(items, prefix, i)
      ensures Lookup(m, ChildKey(table, id, Named(ItemName(items[i], prefix, i)))) == Some(ItemRow(i, items[i]))
    {
      assert forall j :: i < j < |b| ==> b[j].key != b[i].key;
      assert Lookup(m, b[i].key) == Some(b[i].row);
    }
    forall k | k in m && k.table == table && k.runId == id
      ensures exists i :: 0 <= i < |items| && k.key == Named(ItemName(items[i], prefix, i))
    {
      var i :| 0 <= i < |b| && b[i].key == k;
    }
  }

  /** Plain INSERTs that went through have different keys, so each of their rows is there. */
  lemma PlainStored(m: map<ChildKey, ChildRow>, b: seq<Insert>, tables: set<ChildTable>)
    requires Stored(m, b, tables) && forall i :: 0 <= i < |b| ==> !b[i].orReplace
    ensures forall i :: 0 <= i < |b| ==> Lookup(m, b[i].key) == Some(b[i].row)
  {
    forall i | 0 <= i < |b|
      ensures Lookup(m, b[i].key) == Some(b[i].row)
    {
      assert forall j :: i < j < |b| ==> b[j].key != b[i].key;
    }
  }

  lemma StepsStored(r: Run, m: map<ChildKey, ChildRow>)
    requires Stored(m, StepInserts(r.id, r.steps), {RunSteps})
    ensures StepsHeld(m, r)
  {
    var b := StepInserts(r.id, r.steps);
    PlainStored(m, b, {RunSteps});
    forall i | 0 <= i < |r.steps|
      ensures Lookup(m, ChildKey(RunSteps, r.id, Named(StepKey(r.steps[i], i)))) == Some(StepRow(i, r.steps[i]))
    {
      assert Lookup(m, b[i].key) == Some(b[i].row);
    }
    forall k | k in m && k.table == RunSteps && k.runId == r.id
      ensures exists i :: 0 <= i < |r.steps| && k.key == Named(StepKey(r.steps[i], i))
    {
      var i :| 0 <= i < |b| && b[i].key == k;
    }
  }

  lemma SessionsStored(id: string, sessions: seq<SessionRef>, m: map<ChildKey, ChildRow>)
    requires Stored(m, SessionInserts(id, sessions), {AgentSessions})
    ensures SessionsHeld(m, id, sessions)
  {
    var b := SessionInserts(id, sessions);
    PlainStored(m, b, {AgentSessions});
    forall s | s in sessions
      ensures Lookup(m, ChildKey(AgentSessions, id, SessionKey(s.role, s.agent))) == Some(SessionRow(s))
    {
      var i :| 0 <= i < |sessions| && sessions[i] == s;
      assert Lookup(m, b[i].key) == Some(b[i].row);
    }
    forall k | k in m && k.table == AgentSessions && k.runId == id
      ensures exists s :: s in sessions && k.key == SessionKey(s.role, s.agent)
    {
      var i :| 0 <= i < |b| && b[i].key == k;
      assert sessions[i] in sessions;
    }
  }

  lemma ThreeApart(m: map<ChildKey, ChildRow>, a: seq<Insert>, b: seq<Insert>, c: seq<Insert>,
                   tables: set<ChildTable>, second: ChildTable, third: ChildTable)
    requires Stored(m, a + b + c, tables + {second} + {third})
    requires OfTables(a, tables) && OfTables(b, {second}) && OfTables(c, {third})
    requires second !in tables && third !in tables && second != third
    ensures Stored(m, a, tables) && Stored(m, b, {second}) && Stored(m, c, {third})
  {
    NextTable(a, b, tables, second);
    StoredApart(m, a + b, c, tables + {second}, third);
    StoredApart(m, a, b, tables, second);
  }

  lemma ThreeOf(a: seq<Insert>, b: seq<Insert>, c: seq<Insert>, tables: set<ChildTable>, second: ChildTable,
                third: ChildTable)
    requires OfTables(a, tables) && OfTables(b, {second}) && OfTables(c, {third})
    ensures OfTables(a + b + c, tables + {second} + {third})
  {
  }

  /** Seven stretches, one to a table. */
  lemma SevenTables(s1: seq<Insert>, s2: seq<Insert>, s3: seq<Insert>, s4: seq<Insert>, s5: seq<Insert>,
                    s6: seq<Insert>, s7: seq<Insert>, m: map<ChildKey, ChildRow>)
    requires InsertAll(map[], s1 + s2 + s3 + s4 + s5 + s6 + s7) == Some(m)
    requires OfTables(s1, {RunSteps}) && OfTables(s2, {Tasks}) && OfTables(s3, {AgentSessions})
    requires OfTables(s4, {Artifacts}) && OfTables(s5, {ValidationResults})
    requires OfTables(s6, {FileChanges}) && OfTables(s7, {Checkpoints})
    ensures Stored(m, s1, {RunSteps}) && Stored(m, s2, {Tasks}) && Stored(m, s3, {AgentSessions})
    ensures Stored(m, s4, {Artifacts}) && Stored(m, s5, {ValidationResults}) && Stored(m, s6, {FileChanges})
    ensures Stored(m, s7, {Checkpoints})
  {
    var three := s1 + s2 + s3;
    var five := three + s4 + s5;
    var t3 := {RunSteps} + {Tasks} + {AgentSessions};
    var t5 := t3 + {Artifacts} + {ValidationResults};
    ThreeOf(s1, s2, s3, {RunSteps}, Tasks, AgentSessions);
    ThreeOf(three, s4, s5, t3, Artifacts, ValidationResults);
    AllStored(five + s6 + s7, t5 + {FileChanges} + {Checkpoints}, m);
    ThreeApart(m, five, s6, s7, t5, FileChanges, Checkpoints);
    ThreeApart(m, three, s4, s5, t3, Artifacts, ValidationResults);
    ThreeApart(m, s1, s2, s3, {RunSteps}, Tasks, AgentSessions);
  }

  /** What the steps contribute to the validation results: one entry for each validating step, in their order. */
  lemma {:induction false} EvidenceIs(a: seq<Step>, s: Step)
    ensures StepEvidence(a + [s]) == StepEvidence(a) + if s.isValidation then [Item(s.key, s.json)] else []
  {
    if a == [] {
      assert [] + [s] == [s] && [s][1..] == [];
    } else {
      var all, last := a + [s], if s.isValidation then [Item(s.key, s.json)] else [];
      var first := if a[0].isValidation then [Item(a[0].key, a[0].json)] else [];
      EvidenceIs(a[1..], s);
      assert all[0] == a[0] && all[1..] == a[1..] + [s];
      assert StepEvidence(all) == first + (StepEvidence(a[1..]) + last);
      assert StepEvidence(a) == first + StepEvidence(a[1..]);
    }
  }

  /** All child rows of a run: its steps and each of its lists, in their tables, and nothing else. */
  ghost predicate ChildrenHeld(rows: map<ChildKey, ChildRow>, r: Run) {
    && StepsHeld(rows, r)
    && ListHeld(rows, r.id, Tasks, "task-", Or(r.tasks, []))
    && SessionsHeld(rows, r.id, if r.roleSessions.Some? then r.roleSessions.value else Or(r.agentSessions, []))
    && ListHeld(rows, r.id, Artifacts, "artifact-", Or(r.artifacts, []))
    && ListHeld(rows, r.id, ValidationResults, "validation-", Or(r.validations, []) + StepEvidence(r.steps))
    && ListHeld(rows, r.id, FileChanges, "change-", Or(r.fileChanges, []))
    && ListHeld(rows, r.id, Checkpoints, "checkpoint-", Or(r.checkpoints, []))
  }

  lemma InsertsHeld(r: Run, m: map<ChildKey, ChildRow>)
    requires InsertAll(map[], Inserts(r)) == Some(m)
    ensures ChildrenHeld(m, r)
  {
    var s1, s2 := StepInserts(r.id, r.steps), ItemInserts(r.id, Tasks, "task-", false, Or(r.tasks, []));
    var sessions := Or(r.roleSessions, Or(r.agentSessions, []));
    var s3, s4 := SessionInserts(r.id, sessions), ItemInserts(r.id, Artifacts, "artifact-", false, Or(r.artifacts, []));
    var results := Or(r.validations, []) + StepEvidence(r.steps);
    var s5 := ItemInserts(r.id, ValidationResults, "validation-", true, results);
    var s6 := ItemInserts(r.id, FileChanges, "change-", true, Or(r.fileChanges, []));
    var s7 := ItemInserts(r.id, Checkpoints, "checkpoint-", false, Or(r.checkpoints, []));
    SevenTables(s1, s2, s3, s4, s5, s6, s7, m);
    StepsStored(r, m);
    ListStored(r.id, Tasks, "task-", false, Or(r.tasks, []), m);
    SessionsStored(r.id, sessions, m);
    ListStored(r.id, Artifacts, "artifact-", false, Or(r.artifacts, []), m);
    ListStored(r.id, ValidationResults, "validation-", true, results, m);
    ListStored(r.id, FileChanges, "change-", true, Or(r.fileChanges, []), m);
    ListStored(r.id, Checkpoints, "checkpoint-", false, Or(r.checkpoints, []), m);
  }

  /** The projection of a run leaves exactly its fields in the child tables. */
  lemma RunIsHeld(t: Tables, r: Run, t': Tables)
    requires r.id != "" && SyncRun(t, r) == Some(t')
    ensures ChildrenHeld(t'.children, r)
    ensures forall k: ChildKey :: k.runId != r.id ==> Lookup(t'.children, k) == Lookup(t.children, k)
  {
    SyncRunSucceeds(t, r);
    SyncRunEffect(t, r, t');
    InsertsHeld(r, ChildRows(r));
    HeldAmongOthers(WithoutRun(t.children, r.id), ChildRows(r), r);
  }

  /** The two tables have the same rows for this run. */
  ghost predicate SameOwn(a: map<ChildKey, ChildRow>, b: map<ChildKey, ChildRow>, id: string) {
    forall k: ChildKey :: k.runId == id ==> Lookup(a, k) == Lookup(b, k)
  }

  lemma ListAmongOthers(all: map<ChildKey, ChildRow>, own: map<ChildKey, ChildRow>, id: string, table: ChildTable,
                        prefix: string, items: seq<Item>)
    requires SameOwn(all, own, id) && ListHeld(own, id, table, prefix, items)
    ensures ListHeld(all, id, table, prefix, items)
  {
    assert forall k: ChildKey :: k.runId == id && k in all ==> Lookup(all, k) == Lookup(own, k);
  }

  lemma StepsAmongOthers(all: map<ChildKey, ChildRow>, own: map<ChildKey, ChildRow>, r: Run)
    requires SameOwn(all, own, r.id) && StepsHeld(own, r)
    ensures StepsHeld(all, r)
  {
    assert forall k: ChildKey :: k.runId == r.id && k in all ==> Lookup(all, k) == Lookup(own, k);
  }

  lemma SessionsAmongOthers(all: map<ChildKey, ChildRow>, own: map<ChildKey, ChildRow>, id: string,
                            sessions: seq<SessionRef>)
    requires SameOwn(all, own, id) && SessionsHeld(own, id, sessions)
    ensures SessionsHeld(all, id, sessions)
  {
    assert forall k: ChildKey :: k.runId == id && k in all ==> Lookup(all, k) == Lookup(own, k);
  }

  lemma HeldAmongOthers(others: map<ChildKey, ChildRow>, own: map<ChildKey, ChildRow>, r: Run)
    requires ChildrenHeld(own, r) && forall k :: k in others ==> k.runId != r.id
    requires forall k :: k in own ==> k.runId == r.id
    ensures ChildrenHeld(others + own, r)
  {
    var all := others + own;
    StepsAmongOthers(all, own, r);
    ListAmongOthers(all, own, r.id, Tasks, "task-", Or(r.tasks, []));
    SessionsAmongOthers(all, own, r.id, if r.roleSessions.Some? then r.roleSessions.value else Or(r.agentSessions, []));
    ListAmongOthers(all, own, r.id, Artifacts, "artifact-", Or(r.artifacts, []));
    ListAmongOthers(all, own, r.id, ValidationResults, "validation-", Or(r.validations, []) + StepEvidence(r.steps));
    ListAmongOthers(all, own, r.id, FileChanges, "change-", Or(r.fileChanges, []));
    ListAmongOthers(all, own, r.id, Checkpoints, "checkpoint-", Or(r.checkpoints, []));
  }

  // ---------------------------------------------------------------- the run's own row and its lock

  predicate Current(s: Step) {
    s.status == Some("running") || s.status == Some("waiting_input")
  }

  lemma {:induction false} PhaseIs(steps: seq<Step>, i: nat)
    requires i <= |steps| && (forall j :: 0 <= j < i ==> !Current(steps[j])) && (i < |steps| ==> Current(steps[i]))
    ensures CurrentPhase(steps) == if i < |steps| then steps[i].phase else None
    decreases i
  {
    if i > 0 {
      PhaseIs(steps[1..], i - 1);
    }
  }

  /** The row of a run; `i` is its first current step, or their number where none is. */
  lemma RunRowIs(t: Tables, r: Run, t': Tables, i: nat)
    requires r.id != "" && SyncRun(t, r) == Some(t')
    requires i <= |r.steps| && (forall j :: 0 <= j < i ==> !Current(r.steps[j]))
    requires i < |r.steps| ==> Current(r.steps[i])
    ensures r.id in t'.runs
    ensures var row := t'.runs[r.id];
            && row.payload == r
            && row.status == (if r.status.Some? then r.status.value else "queued")
            && row.projectPath == (if r.originalPath.Some? then r.originalPath else r.projectPath)
            && row.phase == if r.phase.Some? then r.phase
                            else if i < |r.steps| && r.steps[i].phase.Some? then r.steps[i].phase else r.status
    ensures t'.runs - {r.id} == t.runs - {r.id}
  {
    PhaseIs(r.steps, i);
  }

  /** The lock of a run is at its original path, or at its project path without one, and nowhere else. */
  lemma LockRowIs(t: Tables, r: Run, t': Tables, path: string)
    requires r.id != "" && SyncRun(t, r) == Some(t')
    ensures var own := if r.originalPath.Some? then r.originalPath else r.projectPath;
            Lookup(t'.locks, path) ==
              if r.lock.Some? && own == Some(path) then
                Some(LockRow(r.id, if r.lock.value.mode.Some? then r.lock.value.mode.value else "write",
                             r.lock.value.acquiredAt, r.lock.value.json))
              else if path in t.locks && t.locks[path].runId == r.id then None
              else Lookup(t.locks, path)
  {
  }

  // ---------------------------------------------------------------- normalization

  /** A list that is absent, or no list, becomes an empty one. */
  predicate ListFilled<T(==)>(given: Option<seq<T>>, filled: Option<seq<T>>) {
    filled == if given.Some? then given else Some([])
  }

  predicate StepFilled(given: Step, filled: Step) {
    && filled.status == (if given.status.Some? then given.status else Some("pending"))
    && filled.retryCount == (if given.retryCount.Some? then given.retryCount else Some(0))
    && ListFilled(given.events, filled.events) && filled.missing == {}
    && filled.(status := given.status, retryCount := given.retryCount, events := given.events,
               missing := given.missing) == given
  }

  /** Normalizing fills in what a run lacks, with the store's constants, and leaves the rest of it alone. */
  lemma NormalizeFills(defaults: seq<Step>, d: Doc, i: nat)
    requires i < |d.runs|
    ensures var r, n := d.runs[i], Normalize(defaults, d).runs[i];
            && n.missing == {}
            && n.status == (if r.status.Some? then r.status else Some("queued"))
            && n.qwenSession == (if r.qwenSession.Some? then r.qwenSession else Some(r.session))
            && (r.agentSessions.Some? ==> n.agentSessions == r.agentSessions)
            && ListFilled(r.tasks, n.tasks) && ListFilled(r.timeline, n.timeline)
            && ListFilled(r.artifacts, n.artifacts) && ListFilled(r.validations, n.validations)
            && ListFilled(r.fileChanges, n.fileChanges) && ListFilled(r.checkpoints, n.checkpoints)
            && n.(missing := r.missing, status := r.status, qwenSession := r.qwenSession,
                  agentSessions := r.agentSessions, tasks := r.tasks, timeline := r.timeline,
                  artifacts := r.artifacts, validations := r.validations, fileChanges := r.fileChanges,
                  checkpoints := r.checkpoints, steps := r.steps) == r
    ensures var r, n := d.runs[i], Normalize(defaults, d).runs[i];
            var steps := if r.steps == [] then defaults else r.steps;
            |n.steps| == |steps| && forall k :: 0 <= k < |steps| ==> StepFilled(steps[k], n.steps[k])
    ensures var r, n := d.runs[i], Normalize(defaults, d).runs[i];
            r.agentSessions.None? ==>
              n.agentSessions == Some([SessionRef("shared", "qwen",
                                                  if r.qwenSession.Some? && r.qwenSession.value.Some?
                                                  then r.qwenSession.value else r.session),
                                       SessionRef("shared", "opencode", r.session)])
  {
  }
}
