/**
 * The store over whole runs of mutations: tables in agreement with the document, versions
 * counted, event history kept (app/persistence/sqlite_store.py).
 */
module StoreRuns {
  import opened Prelude
  import opened ProjectionStore
  import opened ProjectionAgreement
  import opened LockAgreement
  import opened ProjectedRows

  // ---------------------------------------------------------------- events

  ghost predicate NoDuplicates(rows: seq<EventRow>) {
    forall i, j :: 0 <= i < j < |rows| ==> !SameEvent(rows[i], rows[j])
  }

  predicate Recorded(rows: seq<EventRow>, e: EventRow) {
    exists i :: 0 <= i < |rows| && SameEvent(rows[i], e)
  }

  ghost predicate Covers(rows: seq<EventRow>, s: seq<EventRow>) {
    forall j :: 0 <= j < |s| ==> Recorded(rows, s[j])
  }

  lemma RecordedStays(rows: seq<EventRow>, more: seq<EventRow>, e: EventRow)
    requires rows <= more && Recorded(rows, e)
    ensures Recorded(more, e)
  {
  }

  /** INSERT OR IGNORE keeps the old rows in place, adds what is new once, and nothing the second time. */
  lemma {:induction false} AddEventsKeeps(rows: seq<EventRow>, s: seq<EventRow>)
    ensures rows <= AddEvents(rows, s)
    ensures NoDuplicates(rows) ==> NoDuplicates(AddEvents(rows, s))
    ensures Covers(AddEvents(rows, s), s)
    ensures Covers(rows, s) ==> AddEvents(rows, s) == rows
    decreases |s|
  {
    if s != [] {
      var n := |s| - 1;
      AddEventsKeeps(rows, s[..n]);
      var mid, all := AddEvents(rows, s[..n]), AddEvents(rows, s);
      assert Recorded(all, s[n]) by {
        if !Recorded(mid, s[n]) {
          assert SameEvent(all[|mid|], s[n]);
        }
      }
      forall j | 0 <= j < n
        ensures Recorded(all, s[j])
      {
        assert s[..n][j] == s[j];
        RecordedStays(mid, all, s[j]);
      }
      if Covers(rows, s) {
        assert Covers(rows, s[..n]);
        assert Recorded(rows, s[n]);
      }
    }
  }

  lemma CoveredIsHeld(rows: seq<EventRow>, r: Run)
    requires Covers(rows, EventRows(r))
    ensures EventsHeld(rows, r)
  {
    EventRowsHeld(r);
    forall e | HasEvent(EventRows(r), r.id, e)
      ensures HasEvent(rows, r.id, e)
    {
      var own := EventRows(r);
      var k :| 0 <= k < |own| && own[k].runId == r.id && own[k].event == e;
      assert Recorded(rows, own[k]);
      var i :| 0 <= i < |rows| && SameEvent(rows[i], own[k]);
      assert rows[i].runId == r.id && rows[i].event == e;
    }
  }

  lemma {:induction false} AddedAreNew(rows: seq<EventRow>, s: seq<EventRow>)
    ensures rows <= AddEvents(rows, s)
    ensures forall k :: |rows| <= k < |AddEvents(rows, s)| ==> AddEvents(rows, s)[k] in s
    decreases |s|
  {
    if s != [] {
      AddedAreNew(rows, s[..|s| - 1]);
      assert forall e :: e in s[..|s| - 1] ==> e in s;
    }
  }

  /**
   * The projection of a run records every event of its timeline, its own list and its steps; what it adds are
   * rows of such events, those of a step under the step's own key.
   */
  lemma RunEventsAreHeld(t: Tables, r: Run, t': Tables)
    requires r.id != "" && SyncRun(t, r) == Some(t')
    ensures EventsHeld(t'.events, r) && t.events <= t'.events
    ensures forall k :: |t.events| <= k < |t'.events| ==>
              OfRun(t'.events[k], r)
              || exists i, key :: 0 <= i < |r.steps| && KeyOf(r.steps[i], i, key)
                                  && OfStep(t'.events[k], r.id, r.steps[i], key)
  {
    AddEventsKeeps(t.events, EventRows(r));
    CoveredIsHeld(t'.events, r);
    AddedAreNew(t.events, EventRows(r));
    forall k | |t.events| <= k < |t'.events|
      ensures OfRun(t'.events[k], r)
              || exists i, key :: 0 <= i < |r.steps| && KeyOf(r.steps[i], i, key)
                                  && OfStep(t'.events[k], r.id, r.steps[i], key)
    {
      EventRowsOnly(r, t'.events[k]);
    }
  }

  /** Projecting a run again adds no event. */
  lemma ResyncAddsNothing(t: Tables, r: Run)
    requires SyncRun(t, r).Some? && SyncRun(SyncRun(t, r).value, r).Some?
    ensures SyncRun(SyncRun(t, r).value, r).value.events == SyncRun(t, r).value.events
  {
    AddEventsKeeps(t.events, EventRows(r));
    AddEventsKeeps(AddEvents(t.events, EventRows(r)), EventRows(r));
  }

  /** The rows hold what was there, once more nothing twice, and the events of these runs. */
  ghost predicate EventsOf(start: seq<EventRow>, rows: seq<EventRow>, runs: seq<Run>) {
    && start <= rows
    && (NoDuplicates(start) ==> NoDuplicates(rows))
    && forall r :: r in runs && r.id != "" ==> Covers(rows, EventRows(r))
  }

  lemma EventsOneMore(start: seq<EventRow>, mid: seq<EventRow>, rows: seq<EventRow>, rest: seq<Run>, last: Run)
    requires EventsOf(start, mid, rest)
    requires rows == if last.id == "" then mid else AddEvents(mid, EventRows(last))
    ensures EventsOf(start, rows, rest + [last])
  {
    AddEventsKeeps(mid, EventRows(last));
    forall r | r in rest + [last] && r.id != ""
      ensures Covers(rows, EventRows(r))
    {
      assert r in rest ==> Covers(mid, EventRows(r));
    }
  }

  lemma SyncRunEvents(t: Tables, r: Run)
    requires SyncRun(t, r).Some?
    ensures SyncRun(t, r).value.events == if r.id == "" then t.events else AddEvents(t.events, EventRows(r))
  {
  }

  lemma {:induction false} SyncAllEvents(t: Tables, runs: seq<Run>)
    requires SyncAll(t, runs).Some?
    ensures EventsOf(t.events, SyncAll(t, runs).value.events, runs)
    decreases |runs|
  {
    if runs == [] {
      assert SyncAll(t, runs) == Some(t);
    } else {
      var rest, last := runs[..|runs| - 1], runs[|runs| - 1];
      assert runs == rest + [last];
      SyncAllSnoc(t, runs);
      SyncAllEvents(t, rest);
      var mid, end := SyncAll(t, rest).value, SyncAll(t, runs).value;
      SyncRunEvents(mid, last);
      EventsOneMore(t.events, mid.events, end.events, rest, last);
    }
  }

  /** The rows of one run. */
  function RowsOf(rows: seq<EventRow>, id: string): seq<EventRow> {
    if rows == [] then []
    else RowsOf(rows[..|rows| - 1], id) + if rows[|rows| - 1].runId == id then [rows[|rows| - 1]] else []
  }

  lemma {:induction false} RowsOfGrow(rows: seq<EventRow>, more: seq<EventRow>, id: string)
    requires rows <= more
    ensures RowsOf(rows, id) <= RowsOf(more, id)
    decreases |more|
  {
    if |rows| < |more| {
      assert rows <= more[..|more| - 1];
      RowsOfGrow(rows, more[..|more| - 1], id);
    } else {
      assert rows == more;
    }
  }

  lemma {:induction false} KeptRows(rows: seq<EventRow>, ids: set<string>)
    ensures forall e :: e in KeepEvents(rows, ids) <==> e in rows && e.runId !in ids
    decreases |rows|
  {
    if rows != [] {
      var n := |rows| - 1;
      assert rows == rows[..n] + [rows[n]];
      KeptRows(rows[..n], ids);
    }
  }

  lemma {:induction false} KeptDistinct(rows: seq<EventRow>, ids: set<string>)
    requires NoDuplicates(rows)
    ensures NoDuplicates(KeepEvents(rows, ids))
    decreases |rows|
  {
    if rows != [] {
      var n := |rows| - 1;
      KeptDistinct(rows[..n], ids);
      KeptRows(rows[..n], ids);
      var kept := KeepEvents(rows[..n], ids);
      assert forall i :: 0 <= i < |kept| ==> kept[i] in rows[..n];
    }
  }

  /** Removing runs takes their events, and nobody else's. */
  lemma {:induction false} KeepEventsOthers(rows: seq<EventRow>, ids: set<string>, id: string)
    requires id !in ids
    ensures RowsOf(KeepEvents(rows, ids), id) == RowsOf(rows, id)
    decreases |rows|
  {
    if rows != [] {
      var n := |rows| - 1;
      KeepEventsOthers(rows[..n], ids, id);
      var kept := KeepEvents(rows[..n], ids);
      assert (kept + [rows[n]])[..|kept|] == kept;
      assert kept + [] == kept;
    }
  }

  ghost predicate EventsOk(t: Tables, d: Doc) {
    NoDuplicates(t.events) && forall r :: r in d.runs && r.id != "" ==> Covers(t.events, EventRows(r))
  }

  lemma KeptCovers(rows: seq<EventRow>, ids: set<string>, r: Run)
    requires Covers(rows, EventRows(r)) && r.id !in ids
    ensures Covers(KeepEvents(rows, ids), EventRows(r))
  {
    KeptRows(rows, ids);
    EventRowsOwn(r);
    var kept, s := KeepEvents(rows, ids), EventRows(r);
    forall j | 0 <= j < |s|
      ensures Recorded(kept, s[j])
    {
      assert Recorded(rows, s[j]);
      var i :| 0 <= i < |rows| && SameEvent(rows[i], s[j]);
      assert rows[i] in kept;
      var k :| 0 <= k < |kept| && kept[k] == rows[i];
    }
  }

  lemma {:induction false} StepEventsOwn(id: string, steps: seq<Step>, position: nat)
    ensures forall j :: 0 <= j < |StepEvents(id, steps, position)| ==> StepEvents(id, steps, position)[j].runId == id
    decreases |steps|
  {
    if steps != [] {
      StepEventsOwn(id, steps[1..], position + 1);
    }
  }

  lemma EventRowsOwn(r: Run)
    ensures forall j :: 0 <= j < |EventRows(r)| ==> EventRows(r)[j].runId == r.id
  {
    StepEventsOwn(r.id, r.steps, 0);
  }

  /** Through a refresh no event is recorded twice, and the rows of a run that stays only grow. */
  lemma RefreshGrowsEvents(t: Tables, before: Doc, after: Doc)
    requires UniqueIds(after.runs) && NoDuplicates(t.events) && SyncChanged(t, before, after).Some?
    ensures var rows := SyncChanged(t, before, after).value.events;
            && NoDuplicates(rows)
            && KeepEvents(t.events, ById(before.runs).Keys - ById(after.runs).Keys) <= rows
            && forall r :: r in ChangedOf(ById(before.runs), after.runs) && r.id != "" ==> Covers(rows, EventRows(r))
    ensures forall id :: id in ById(after.runs) ==>
              RowsOf(t.events, id) <= RowsOf(SyncChanged(t, before, after).value.events, id)
  {
    var b, a := ById(before.runs), ById(after.runs);
    var removed := b.Keys - a.Keys;
    var start, t' := RemoveRuns(t, removed), SyncChanged(t, before, after).value;
    RefreshIs(t, before, after);
    KeptDistinct(t.events, removed);
    SyncAllEvents(start, ChangedOf(b, after.runs));
    forall id | id in a
      ensures RowsOf(t.events, id) <= RowsOf(t'.events, id)
    {
      KeepEventsOthers(t.events, removed, id);
      RowsOfGrow(start.events, t'.events, id);
    }
  }

  /** And every event of every run is recorded, if that was so before and unchanged runs are as they were stored. */
  lemma RefreshKeepsEvents(t: Tables, stored: Doc, before: Doc, after: Doc)
    requires UniqueIds(after.runs) && EventsOk(t, stored) && SyncChanged(t, before, after).Some?
    requires UnchangedAsStored(ById(stored.runs), ById(before.runs), ById(after.runs))
    ensures EventsOk(SyncChanged(t, before, after).value, after)
  {
    var b, a := ById(before.runs), ById(after.runs);
    var removed, changed, t' := b.Keys - a.Keys, ChangedOf(b, after.runs), SyncChanged(t, before, after).value;
    RefreshGrowsEvents(t, before, after);
    ChangedOfKeeps(b, after.runs);
    UniqueDictionary(after.runs);
    DictionaryIds(stored.runs);
    forall r | r in after.runs && r.id != ""
      ensures Covers(t'.events, EventRows(r))
    {
      if r !in changed {
        assert r.id in a && a[r.id] == r && b[r.id] == r;
        assert r in stored.runs;
        KeptCovers(t.events, removed, r);
      }
    }
  }

  // ---------------------------------------------------------------- defaults that carry no events

  /** The default steps carry no events; the application's store has no default steps at all. */
  predicate Silent(defaults: seq<Step>) {
    forall s :: s in defaults ==> Or(s.events, []) == []
  }

  lemma {:induction false} SilentStepEvents(id: string, steps: seq<Step>, position: nat)
    requires Silent(steps)
    ensures StepEvents(id, steps, position) == []
    decreases |steps|
  {
    if steps != [] {
      SilentStepEvents(id, steps[1..], position + 1);
      assert steps[0] in steps;
    }
  }

  lemma {:induction false} NormalStepEvents(id: string, steps: seq<Step>, position: nat)
    ensures StepEvents(id, NormalSteps(steps), position) == StepEvents(id, steps, position)
    decreases |steps|
  {
    if steps != [] {
      var n := NormalSteps(steps);
      NormalStepEvents(id, steps[1..], position + 1);
      assert n[1..] == NormalSteps(steps[1..]) && n[0] == NormalStep(steps[0]);
      assert Or(n[0].events, []) == Or(steps[0].events, []) && StepKey(n[0], position) == StepKey(steps[0], position);
    }
  }

  /** Normalizing adds no event. */
  lemma NormalEvents(defaults: seq<Step>, r: Run)
    requires Silent(defaults)
    ensures EventRows(NormalRun(defaults, r)) == EventRows(r)
  {
    NormalStepEvents(r.id, if r.steps == [] then defaults else r.steps, 0);
    SilentStepEvents(r.id, defaults, 0);
  }

  lemma NormalEventsOk(defaults: seq<Step>, t: Tables, d: Doc)
    requires Silent(defaults) && EventsOk(t, d)
    ensures EventsOk(t, Normalize(defaults, d))
  {
    var n := Normalize(defaults, d);
    forall r | r in n.runs && r.id != ""
      ensures Covers(t.events, EventRows(r))
    {
      var i :| 0 <= i < |n.runs| && n.runs[i] == r;
      NormalEvents(defaults, d.runs[i]);
      assert d.runs[i] in d.runs;
    }
  }

  /** After any mutation, settled or not, every current event is recorded. */
  lemma MutationKeepsEvents(defaults: seq<Step>, t: Tables, stored: Doc, after: Doc)
    requires Silent(defaults) && EventsOk(t, stored) && UniqueIds(after.runs)
    requires SyncChanged(t, Normalize(defaults, stored), after).Some?
    ensures EventsOk(SyncChanged(t, Normalize(defaults, stored), after).value, after)
  {
    var before := Normalize(defaults, stored);
    NormalEventsOk(defaults, t, stored);
    RefreshKeepsEvents(t, before, before, after);
  }

  // ---------------------------------------------------------------- mutations

  /** The tables, but for the event history, are those of a full rebuild; the history is complete. */
  ghost predicate TablesAgree(s: State) {
    && UniqueIds(s.document.runs)
    && RowsAgree(s.tables, s.document)
    && LocksOf(s.tables.locks, s.document.runs)
    && EventsOk(s.tables, s.document)
  }

  function Numbered(d: Doc): Doc {
    d.(stateVersion := d.stateVersion + 1)
  }

  /**
   * The condition on a stored document and its successor: the runs left unchanged had been stored in normal form,
   * and the locks are settled.
   */
  ghost predicate Settled(defaults: seq<Step>, stored: Doc, after: Doc) {
    var before := Normalize(defaults, stored);
    && UnchangedAsStored(ById(stored.runs), ById(before.runs), ById(after.runs))
    && LocksSettled(before, after)
  }

  /** Run rows, child rows, locks and history after a refresh, against the normal form of the stored document. */
  lemma RefreshAgreesExactly(defaults: seq<Step>, s: State, after: Doc)
    requires TablesAgree(s) && UniqueIds(after.runs)
    requires SyncChanged(s.tables, Normalize(defaults, s.document), after).Some?
    ensures var t := SyncChanged(s.tables, Normalize(defaults, s.document), after).value;
            TablesAgree(State(after, t)) <==> Settled(defaults, s.document, after)
  {
    var before := Normalize(defaults, s.document);
    RowsRefineExactly(defaults, s.tables, s.document, after);
    NormalLocks(defaults, s.tables.locks, s.document);
    LocksExactly(s.tables, before, after);
    if UnchangedAsStored(ById(s.document.runs), ById(before.runs), ById(after.runs)) {
      RefreshKeepsEvents(s.tables, s.document, before, after);
    }
  }

  /**
   * One `mutate`, whatever the mutator: a failing call changes nothing; a successful one stores what the mutator
   * handed back under the next version, and the event rows of the runs that stay only grow, without duplicates.
   */
  lemma MutateEffect(defaults: seq<Step>, s: State, fn: Mutator)
    requires NoDuplicates(s.tables.events)
    requires var d := fn(Normalize(defaults, s.document)); d.Some? ==> UniqueIds(d.value.runs)
    ensures var (s', ok) := Mutated(defaults, s, fn);
            && (!ok ==> s' == s)
            && (ok ==> fn(Normalize(defaults, s.document)).Some?
                       && s'.document == Numbered(fn(Normalize(defaults, s.document)).value))
            && NoDuplicates(s'.tables.events)
            && forall id :: id in ById(s'.document.runs) ==> RowsOf(s.tables.events, id) <= RowsOf(s'.tables.events, id)
  {
    var before := Normalize(defaults, s.document);
    if fn(before).Some? && SyncChanged(s.tables, before, Numbered(fn(before).value)).Some? {
      RefreshGrowsEvents(s.tables, before, Numbered(fn(before).value));
    }
  }

  /** And it keeps the tables in agreement with the document if and only if it is settled. */
  lemma MutateKeepsAgreement(defaults: seq<Step>, s: State, fn: Mutator)
    requires TablesAgree(s)
    ensures var (s', ok) := Mutated(defaults, s, fn);
            ok && UniqueIds(s'.document.runs) ==>
              (TablesAgree(s') <==> Settled(defaults, s.document, s'.document))
  {
    var (s', ok) := Mutated(defaults, s, fn);
    if ok && UniqueIds(s'.document.runs) {
      RefreshAgreesExactly(defaults, s, s'.document);
    }
  }

  lemma SameRunsSettleLocks(before: Doc, after: Doc)
    requires UniqueIds(before.runs) && before.runs == after.runs
    ensures LocksSettled(before, after)
  {
    UniqueDictionary(before.runs);
    forall path | LastHolder(after.runs, path).Some?
      ensures SettledAt(before, after, path, LastHolder(after.runs, path).value)
    {
      assert forall r :: r in after.runs && r.id != "" ==> !Changed(ById(before.runs), r);
    }
  }

  lemma NormalFormIsStored(defaults: seq<Step>, stored: Doc)
    requires UniqueIds(stored.runs)
    ensures var b := ById(Normalize(defaults, stored).runs);
            UnchangedAsStored(ById(stored.runs), b, b) <==> InNormalForm(defaults, stored)
  {
    var o, b := ById(stored.runs), ById(Normalize(defaults, stored).runs);
    NormalDictionary(defaults, stored.runs, Normalize(defaults, stored).runs);
    UniqueDictionary(stored.runs);
    if UnchangedAsStored(o, b, b) {
      forall r | r in stored.runs && r.id != ""
        ensures NormalRun(defaults, r) == r
      {
        assert r.id in o && o[r.id] == r && b[r.id] == NormalRun(defaults, r);
      }
    }
  }

  lemma {:induction false} NothingChanged(b: map<string, Run>, runs: seq<Run>)
    requires forall r :: r in runs && r.id != "" ==> !Changed(b, r)
    ensures ChangedOf(b, runs) == []
    decreases |runs|
  {
    if runs != [] {
      var rest, last := runs[..|runs| - 1], runs[|runs| - 1];
      assert runs == rest + [last];
      NothingChanged(b, rest);
    }
  }

  lemma RefreshOfSameRuns(t: Tables, before: Doc, after: Doc)
    requires UniqueIds(before.runs) && before.runs == after.runs
    ensures SyncChanged(t, before, after).Some?
  {
    UniqueDictionary(before.runs);
    RefreshIs(t, before, after);
    NothingChanged(ById(before.runs), after.runs);
  }

  /** A mutator that changes nothing. */
  function Idle(): Mutator {
    (d: Doc) => Some(d)
  }

  lemma IdleMutation(defaults: seq<Step>, s: State)
    requires UniqueIds(s.document.runs)
    ensures var before := Normalize(defaults, s.document);
            var t := SyncChanged(s.tables, before, Numbered(before));
            t.Some? && Mutated(defaults, s, Idle()) == (State(Numbered(before), t.value), true)
  {
    var before := Normalize(defaults, s.document);
    RefreshOfSameRuns(s.tables, before, Numbered(before));
    assert Idle()(before) == Some(before);
  }

  lemma IdleIsSettled(defaults: seq<Step>, stored: Doc)
    requires UniqueIds(stored.runs)
    ensures Settled(defaults, stored, Numbered(Normalize(defaults, stored))) <==> InNormalForm(defaults, stored)
  {
    var before := Normalize(defaults, stored);
    SameRunsSettleLocks(before, Numbered(before));
    NormalFormIsStored(defaults, stored);
  }

  /** A mutation that changes nothing keeps the agreement if and only if the document is in normal form. */
  lemma NoChangeKeepsAgreement(defaults: seq<Step>, s: State)
    requires TablesAgree(s)
    ensures var (s', ok) := Mutated(defaults, s, Idle());
            ok && (TablesAgree(s') <==> InNormalForm(defaults, s.document))
  {
    IdleMutation(defaults, s);
    RefreshAgreesExactly(defaults, s, Numbered(Normalize(defaults, s.document)));
    IdleIsSettled(defaults, s.document);
  }

  predicate InNormalForm(defaults: seq<Step>, d: Doc) {
    forall r :: r in d.runs && r.id != "" ==> NormalRun(defaults, r) == r
  }

  /** The store after a sequence of calls, and how many of them succeeded. */
  function MutatedAll(defaults: seq<Step>, s: State, fns: seq<Mutator>): (State, nat) {
    if fns == [] then (s, 0)
    else
      var (mid, n) := MutatedAll(defaults, s, fns[..|fns| - 1]);
      var (s', ok) := Mutated(defaults, mid, fns[|fns| - 1]);
      (s', if ok then n + 1 else n)
  }

  const NEW_STORE := State(EMPTY_DOC, EMPTY_TABLES)

  /** The mutator keeps run ids unique where they are, and leaves the version alone. */
  ghost predicate KeepsIds(fn: Mutator) {
    forall d: Doc :: UniqueIds(d.runs) && fn(d).Some? ==>
      UniqueIds(fn(d).value.runs) && fn(d).value.stateVersion == d.stateVersion
  }

  /** Edits in place do, and so does an edit that appends a run under a new id. */
  lemma EditsKeepIds(fn: Mutator)
    requires forall d: Doc :: fn(d).Some? ==>
               fn(d).value.stateVersion == d.stateVersion
               && |d.runs| <= |fn(d).value.runs| <= |d.runs| + 1
               && (forall i :: 0 <= i < |d.runs| ==> fn(d).value.runs[i].id == d.runs[i].id)
               && (|fn(d).value.runs| > |d.runs| ==>
                     forall i :: 0 <= i < |d.runs| ==> fn(d).value.runs[|d.runs|].id != d.runs[i].id)
    ensures KeepsIds(fn)
  {
  }

  lemma IdleAndStoringKeepIds(r: Run)
    ensures KeepsIds(Idle()) && KeepsIds(Storing(r))
  {
  }

  /** The call fails, or is settled. */
  ghost predicate SettledCall(defaults: seq<Step>, s: State, fn: Mutator) {
    var (s', ok) := Mutated(defaults, s, fn);
    ok ==> Settled(defaults, s.document, s'.document)
  }

  ghost predicate AllSettled(defaults: seq<Step>, fns: seq<Mutator>) {
    forall i :: 0 <= i < |fns| ==> SettledCall(defaults, MutatedAll(defaults, NEW_STORE, fns[..i]).0, fns[i])
  }

  /** Where defaults carry no events, complete histories hold every event of every run. */
  lemma CurrentAreHeld(defaults: seq<Step>, s: State)
    requires Silent(defaults) ==> EventsOk(s.tables, s.document)
    ensures (forall d :: d in defaults ==> d.events.None? || d.events.value == []) ==>
              forall r :: r in s.document.runs && r.id != "" ==> EventsHeld(s.tables.events, r)
  {
    if forall d :: d in defaults ==> d.events.None? || d.events.value == [] {
      forall r | r in s.document.runs && r.id != ""
        ensures EventsHeld(s.tables.events, r)
      {
        CoveredIsHeld(s.tables.events, r);
      }
    }
  }

  /** What holds of the store after `n` successful calls, whatever they were. */
  ghost predicate Orderly(defaults: seq<Step>, s: State, n: nat) {
    && UniqueIds(s.document.runs) && NoDuplicates(s.tables.events) && s.document.stateVersion == n
    && (Silent(defaults) ==> EventsOk(s.tables, s.document))
  }

  /** One call more. */
  lemma OneMutationMore(defaults: seq<Step>, mid: State, n: nat, fn: Mutator)
    requires KeepsIds(fn) && Orderly(defaults, mid, n)
    ensures var (s, ok) := Mutated(defaults, mid, fn);
            && Orderly(defaults, s, if ok then n + 1 else n)
            && (forall id :: id in ById(s.document.runs) ==>
                  RowsOf(mid.tables.events, id) <= RowsOf(s.tables.events, id))
  {
    var (s, ok) := Mutated(defaults, mid, fn);
    assert UniqueIds(Normalize(defaults, mid.document).runs);
    MutateEffect(defaults, mid, fn);
    if ok && Silent(defaults) {
      MutationKeepsEvents(defaults, mid.tables, mid.document, s.document);
    }
  }

  lemma {:induction false} AlwaysOrderly(defaults: seq<Step>, fns: seq<Mutator>)
    requires forall i :: 0 <= i < |fns| ==> KeepsIds(fns[i])
    ensures var (s, n) := MutatedAll(defaults, NEW_STORE, fns); Orderly(defaults, s, n)
    decreases |fns|
  {
    if fns != [] {
      var rest := fns[..|fns| - 1];
      var (mid, n) := MutatedAll(defaults, NEW_STORE, rest);
      AlwaysOrderly(defaults, rest);
      OneMutationMore(defaults, mid, n, fns[|fns| - 1]);
    }
  }

  lemma {:induction false} SettledCallsAgree(defaults: seq<Step>, fns: seq<Mutator>)
    requires forall i :: 0 <= i < |fns| ==> KeepsIds(fns[i])
    requires AllSettled(defaults, fns)
    ensures TablesAgree(MutatedAll(defaults, NEW_STORE, fns).0)
    decreases |fns|
  {
    if fns != [] {
      var rest, fn := fns[..|fns| - 1], fns[|fns| - 1];
      var (mid, n) := MutatedAll(defaults, NEW_STORE, rest);
      SettledPrefix(defaults, fns);
      SettledCallsAgree(defaults, rest);
      AlwaysOrderly(defaults, fns);
      MutateKeepsAgreement(defaults, mid, fn);
    }
  }

  /**
   * Any sequence of calls on a new store, failing ones included: the version counts the successes, no event is
   * recorded twice, every current event is recorded, and the tables agree with the document if every call was
   * settled.
   */
  lemma EveryMutation(defaults: seq<Step>, fns: seq<Mutator>)
    requires forall i :: 0 <= i < |fns| ==> KeepsIds(fns[i])
    ensures var (s, n) := MutatedAll(defaults, NEW_STORE, fns);
            Orderly(defaults, s, n) && (AllSettled(defaults, fns) ==> TablesAgree(s))
    ensures var events := MutatedAll(defaults, NEW_STORE, fns).0.tables.events;
            forall i, j :: 0 <= i < j < |events| ==>
              events[i].runId != events[j].runId || events[i].event != events[j].event
    ensures var s := MutatedAll(defaults, NEW_STORE, fns).0;
            (forall d :: d in defaults ==> d.events.None? || d.events.value == []) ==>
              forall r :: r in s.document.runs && r.id != "" ==> EventsHeld(s.tables.events, r)
  {
    AlwaysOrderly(defaults, fns);
    CurrentAreHeld(defaults, MutatedAll(defaults, NEW_STORE, fns).0);
    if AllSettled(defaults, fns) {
      SettledCallsAgree(defaults, fns);
    }
  }

  /** The last of these calls lets the rows of a run that is there after it only grow. */
  lemma LastCallGrows(defaults: seq<Step>, fns: seq<Mutator>, id: string)
    requires fns != [] && forall k :: 0 <= k < |fns| ==> KeepsIds(fns[k])
    requires id in ById(MutatedAll(defaults, NEW_STORE, fns).0.document.runs)
    ensures RowsOf(MutatedAll(defaults, NEW_STORE, fns[..|fns| - 1]).0.tables.events, id)
              <= RowsOf(MutatedAll(defaults, NEW_STORE, fns).0.tables.events, id)
  {
    var rest := fns[..|fns| - 1];
    var (mid, n) := MutatedAll(defaults, NEW_STORE, rest);
    AlwaysOrderly(defaults, rest);
    OneMutationMore(defaults, mid, n, fns[|fns| - 1]);
  }

  /** Over any sequence of calls, the event rows of a run that stays in the document only grow. */
  lemma {:induction false} RowsOnlyGrow(defaults: seq<Step>, fns: seq<Mutator>, i: nat, id: string)
    requires i <= |fns| && forall k :: 0 <= k < |fns| ==> KeepsIds(fns[k])
    requires forall k :: i <= k <= |fns| ==> id in ById(MutatedAll(defaults, NEW_STORE, fns[..k]).0.document.runs)
    ensures RowsOf(MutatedAll(defaults, NEW_STORE, fns[..i]).0.tables.events, id)
              <= RowsOf(MutatedAll(defaults, NEW_STORE, fns).0.tables.events, id)
    decreases |fns|
  {
    assert fns[..|fns|] == fns;
    if i < |fns| {
      var rest := fns[..|fns| - 1];
      assert forall k :: 0 <= k <= |rest| ==> rest[..k] == fns[..k];
      RowsOnlyGrow(defaults, rest, i, id);
      LastCallGrows(defaults, fns, id);
    }
  }

  lemma SettledPrefix(defaults: seq<Step>, fns: seq<Mutator>)
    requires fns != [] && AllSettled(defaults, fns)
    ensures AllSettled(defaults, fns[..|fns| - 1])
    ensures SettledCall(defaults, MutatedAll(defaults, NEW_STORE, fns[..|fns| - 1]).0, fns[|fns| - 1])
  {
    var rest := fns[..|fns| - 1];
    forall i | 0 <= i < |rest|
      ensures SettledCall(defaults, MutatedAll(defaults, NEW_STORE, rest[..i]).0, rest[i])
    {
      assert rest[..i] == fns[..i] && rest[i] == fns[i];
    }
  }

  /** A document whose runs are in normal form, with one lock holder per path. */
  ghost predicate GoodDoc(defaults: seq<Step>, d: Doc) {
    Normalize(defaults, d).runs == d.runs && UniqueIds(d.runs) && OneHolder(d.runs)
  }

  /** Good documents are settled with good successors, whatever changes between them. */
  lemma GoodDocsAreSettled(defaults: seq<Step>, stored: Doc, after: Doc)
    requires GoodDoc(defaults, stored) && GoodDoc(defaults, after)
    ensures Settled(defaults, stored, after)
  {
    var before := Normalize(defaults, stored);
    assert before.runs == stored.runs;
    OneHolderSettles(before, after);
  }

  /** Storing one run. */
  function Storing(r: Run): Mutator {
    (d: Doc) => Some(d.(runs := [r]))
  }

  lemma FirstRefresh(defaults: seq<Step>, r: Run, before: Doc, after: Doc)
    requires r.id != "" && Projectable(r)
    requires before == Normalize(defaults, EMPTY_DOC) && after == Numbered(before.(runs := [r]))
    ensures var t := SyncChanged(EMPTY_TABLES, before, after);
            t.Some? && TablesAgree(State(after, t.value))
  {
    assert before.runs == [] && ById(before.runs) == map[];
    assert after.runs[..0] == [];
    SyncAllSucceeds(EMPTY_TABLES, after.runs);
    RefreshSucceeds(EMPTY_TABLES, before, after);
    assert TablesAgree(NEW_STORE) && Settled(defaults, EMPTY_DOC, after);
    RefreshAgreesExactly(defaults, NEW_STORE, after);
  }

  lemma FirstRunIsSettled(defaults: seq<Step>, r: Run)
    requires r.id != "" && Projectable(r)
    ensures var (s, ok) := Mutated(defaults, NEW_STORE, Storing(r));
            ok && s.document.runs == [r] && TablesAgree(s)
  {
    var before := Normalize(defaults, EMPTY_DOC);
    FirstRefresh(defaults, r, before, Numbered(before.(runs := [r])));
    assert Storing(r)(before) == Some(before.(runs := [r]));
  }

  /**
   * And calls are not always settled: store any projectable run that is not in normal form, then change nothing.
   * The tables agree after the first call and no longer after the second.
   */
  lemma ShortRunUnsettles(defaults: seq<Step>, r: Run)
    requires r.id != "" && Projectable(r) && NormalRun(defaults, r) != r
    ensures var (first, ok1) := Mutated(defaults, NEW_STORE, Storing(r));
            var (second, ok2) := Mutated(defaults, first, Idle());
            ok1 && ok2 && TablesAgree(first) && !TablesAgree(second)
  {
    FirstRunIsSettled(defaults, r);
    var (first, ok) := Mutated(defaults, NEW_STORE, Storing(r));
    assert r in first.document.runs;
    NoChangeKeepsAgreement(defaults, first);
  }
}
