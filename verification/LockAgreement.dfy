/**
 * The lock table is keyed by project path and written with INSERT OR REPLACE, so whether
 * the incremental refresh agrees with the full rebuild there depends on who holds what
 * (app/persistence/sqlite_store.py).
 */
module LockAgreement {
  import opened Prelude
  import opened ProjectionStore
  import opened ProjectionAgreement

  /** The last run, in document order, that holds the lock of a path. */
  function LastHolder(runs: seq<Run>, path: string): (h: Option<Run>)
    ensures h.Some? ==> h.value in runs && Holds(h.value, path)
    ensures h.None? ==> forall r :: r in runs ==> !Holds(r, path)
  {
    if runs == [] then None
    else
      var rest, last := runs[..|runs| - 1], runs[|runs| - 1];
      assert runs == rest + [last];
      if Holds(last, path) then Some(last) else LastHolder(rest, path)
  }

  function SyncLocks(m: map<string, LockRow>, runs: seq<Run>): map<string, LockRow> {
    if runs == [] then m
    else
      var rest, last := SyncLocks(m, runs[..|runs| - 1]), runs[|runs| - 1];
      if last.id == "" then rest else SyncLock(rest, last)
  }

  lemma {:induction false} SyncAllLocks(t: Tables, runs: seq<Run>)
    requires SyncAll(t, runs).Some?
    ensures SyncAll(t, runs).value.locks == SyncLocks(t.locks, runs)
    decreases |runs|
  {
    if runs != [] {
      SyncAllSnoc(t, runs);
      SyncAllLocks(t, runs[..|runs| - 1]);
    }
  }

  /** The row a path ends up with: that of its last holder, or the old one if its owner was not projected. */
  function LockAfter(m: map<string, LockRow>, runs: seq<Run>, path: string): Option<LockRow> {
    match LastHolder(runs, path)
    case Some(h) => Some(LockRowOf(h))
    case None =>
      if path in m && (forall r :: r in runs && r.id != "" ==> r.id != m[path].runId) then Some(m[path]) else None
  }

  lemma SyncLockAt(m: map<string, LockRow>, r: Run, path: string)
    requires r.id != ""
    ensures Lookup(SyncLock(m, r), path) ==
            if Holds(r, path) then Some(LockRowOf(r))
            else if path in m && m[path].runId != r.id then Some(m[path]) else None
  {
  }

  lemma {:induction false} SyncLocksAt(m: map<string, LockRow>, runs: seq<Run>, path: string)
    requires UniqueIds(runs)
    ensures Lookup(SyncLocks(m, runs), path) == LockAfter(m, runs, path)
    decreases |runs|
  {
    if runs != [] {
      var n := |runs| - 1;
      var rest, last := runs[..n], runs[n];
      assert runs == rest + [last];
      assert forall i :: 0 <= i < n ==> rest[i] == runs[i];
      SyncLocksAt(m, rest, path);
      if last.id != "" {
        SyncLockAt(SyncLocks(m, rest), last, path);
        if LastHolder(rest, path).Some? {
          var h := LastHolder(rest, path).value;
          var k :| 0 <= k < n && rest[k] == h;
          assert h.id != last.id;
        }
      }
    }
  }

  /**
   * The condition on a document and its successor: wherever the last holder of a path is
   * unchanged, it was the last holder before, and no changed run holds that path as well.
   */
  ghost predicate LocksSettled(before: Doc, after: Doc) {
    forall path :: LastHolder(after.runs, path).Some? ==>
      SettledAt(before, after, path, LastHolder(after.runs, path).value)
  }

  ghost predicate SettledAt(before: Doc, after: Doc, path: string, h: Run) {
    var b := ById(before.runs);
    Changed(b, h)
    || (LastHolder(before.runs, path) == Some(h)
        && forall r :: r in after.runs && r.id != "" && Changed(b, r) ==> !Holds(r, path))
  }

  lemma {:induction false} LastChangedHolder(b: map<string, Run>, runs: seq<Run>, path: string)
    requires LastHolder(runs, path).Some? && Changed(b, LastHolder(runs, path).value)
    ensures LastHolder(ChangedOf(b, runs), path) == LastHolder(runs, path)
    decreases |runs|
  {
    var rest, last := runs[..|runs| - 1], runs[|runs| - 1];
    var changed := ChangedOf(b, rest);
    assert (changed + [last])[..|changed|] == changed;
    if !Holds(last, path) {
      LastChangedHolder(b, rest, path);
    }
  }

  /** What the incremental refresh leaves at a path. */
  lemma RefreshedLockAt(t: Tables, before: Doc, after: Doc, path: string)
    requires UniqueIds(before.runs) && UniqueIds(after.runs)
    requires SyncChanged(t, before, after).Some?
    requires forall p :: Lookup(t.locks, p) == LockAfter(map[], before.runs, p)
    ensures var b, t' := ById(before.runs), SyncChanged(t, before, after).value;
            Lookup(t'.locks, path) ==
              match LastHolder(ChangedOf(b, after.runs), path)
              case Some(c) => Some(LockRowOf(c))
              case None =>
                match LastHolder(before.runs, path)
                case Some(h) => if h in after.runs then Some(LockRowOf(h)) else None
                case None => None
  {
    var b, a := ById(before.runs), ById(after.runs);
    var changed, start := ChangedOf(b, after.runs), RemoveRuns(t, b.Keys - a.Keys);
    RefreshIs(t, before, after);
    SyncAllLocks(start, changed);
    ChangedOfKeeps(b, after.runs);
    SyncLocksAt(start.locks, changed, path);
    UniqueDictionary(before.runs);
    UniqueDictionary(after.runs);
    assert Lookup(t.locks, path) == LockAfter(map[], before.runs, path);
    if LastHolder(changed, path).None? && LastHolder(before.runs, path).Some? {
      var h := LastHolder(before.runs, path).value;
      assert b[h.id] == h && t.locks[path].runId == h.id;
      assert h in after.runs <==> h.id in a && a[h.id] == h;
      if h.id in a && a[h.id] != h {
        assert a[h.id] in changed;
      }
      if h in after.runs {
        assert forall r :: r in changed ==> a[r.id] == r;
      }
    }
  }

  /** The tables' locks are those of a full rebuild. */
  lemma RebuiltLocks(d: Doc)
    requires UniqueIds(d.runs) && Rebuild(d).Some?
    ensures forall p :: Lookup(Rebuild(d).value.locks, p) == LockAfter(map[], d.runs, p)
  {
    SyncAllLocks(EMPTY_TABLES, d.runs);
    forall p
      ensures Lookup(Rebuild(d).value.locks, p) == LockAfter(map[], d.runs, p)
    {
      SyncLocksAt(map[], d.runs, p);
    }
  }

  /** The lock rows are those that projecting the document's runs leaves. */
  ghost predicate LocksOf(locks: map<string, LockRow>, runs: seq<Run>) {
    forall p :: Lookup(locks, p) == LockAfter(map[], runs, p)
  }

  lemma NormalHolds(defaults: seq<Step>, r: Run, path: string)
    ensures Holds(NormalRun(defaults, r), path) <==> Holds(r, path)
    ensures r.lock.Some? ==> LockRowOf(NormalRun(defaults, r)) == LockRowOf(r)
  {
  }

  /** Normalizing does not change who holds what. */
  lemma {:induction false} NormalHolder(defaults: seq<Step>, runs: seq<Run>, normal: seq<Run>, path: string)
    requires |normal| == |runs| && forall i :: 0 <= i < |runs| ==> normal[i] == NormalRun(defaults, runs[i])
    ensures LastHolder(normal, path) ==
              match LastHolder(runs, path) case None => None case Some(h) => Some(NormalRun(defaults, h))
    decreases |runs|
  {
    if runs == [] {
      assert normal == [];
    } else {
      var n := |runs| - 1;
      NormalHolds(defaults, runs[n], path);
      NormalHolder(defaults, runs[..n], normal[..n], path);
    }
  }

  lemma NormalLocks(defaults: seq<Step>, locks: map<string, LockRow>, d: Doc)
    requires LocksOf(locks, d.runs)
    ensures LocksOf(locks, Normalize(defaults, d).runs)
  {
    forall p
      ensures Lookup(locks, p) == LockAfter(map[], Normalize(defaults, d).runs, p)
    {
      NormalHolder(defaults, d.runs, Normalize(defaults, d).runs, p);
      if LastHolder(d.runs, p).Some? {
        NormalHolds(defaults, LastHolder(d.runs, p).value, p);
      }
      assert Lookup(locks, p) == LockAfter(map[], d.runs, p);
    }
  }

  /** Refreshed and rebuilt agree at a path exactly if it is settled there. */
  lemma LockExactAt(t: Tables, before: Doc, after: Doc, path: string)
    requires UniqueIds(before.runs) && UniqueIds(after.runs) && LocksOf(t.locks, before.runs)
    requires SyncChanged(t, before, after).Some?
    ensures Lookup(SyncChanged(t, before, after).value.locks, path) == LockAfter(map[], after.runs, path)
            <==> (LastHolder(after.runs, path).Some? ==>
                    SettledAt(before, after, path, LastHolder(after.runs, path).value))
  {
    var b := ById(before.runs);
    var changed := ChangedOf(b, after.runs);
    RefreshedLockAt(t, before, after, path);
    ChangedOfKeeps(b, after.runs);
    UniqueDictionary(before.runs);
    UniqueDictionary(after.runs);
    match LastHolder(after.runs, path)
    case None =>
    case Some(h) =>
      if Changed(b, h) {
        LastChangedHolder(b, after.runs, path);
      }
  }

  /** The lock table after an incremental refresh is that of a full rebuild if and only if the locks are settled. */
  lemma LocksExactly(t: Tables, before: Doc, after: Doc)
    requires UniqueIds(before.runs) && UniqueIds(after.runs) && LocksOf(t.locks, before.runs)
    requires SyncChanged(t, before, after).Some?
    ensures LocksOf(SyncChanged(t, before, after).value.locks, after.runs) <==> LocksSettled(before, after)
  {
    forall path
      ensures Lookup(SyncChanged(t, before, after).value.locks, path) == LockAfter(map[], after.runs, path)
              <==> (LastHolder(after.runs, path).Some? ==>
                    SettledAt(before, after, path, LastHolder(after.runs, path).value))
    {
      LockExactAt(t, before, after, path);
    }
  }

  lemma LocksOfRebuild(locks: map<string, LockRow>, d: Doc)
    requires UniqueIds(d.runs) && Rebuild(d).Some?
    ensures locks == Rebuild(d).value.locks <==> LocksOf(locks, d.runs)
  {
    RebuiltLocks(d);
    if LocksOf(locks, d.runs) {
      forall p
        ensures Lookup(locks, p) == Lookup(Rebuild(d).value.locks, p)
      {
        assert Lookup(locks, p) == LockAfter(map[], d.runs, p);
      }
      SameLookups(locks, Rebuild(d).value.locks);
    }
  }

  /** In terms of the two tables. */
  lemma LocksRefineExactly(t: Tables, before: Doc, after: Doc)
    requires UniqueIds(before.runs) && UniqueIds(after.runs)
    requires Rebuild(before).Some? && t.locks == Rebuild(before).value.locks
    requires SyncChanged(t, before, after).Some? && Rebuild(after).Some?
    ensures SyncChanged(t, before, after).value.locks == Rebuild(after).value.locks <==> LocksSettled(before, after)
  {
    LocksOfRebuild(t.locks, before);
    LocksExactly(t, before, after);
    LocksOfRebuild(SyncChanged(t, before, after).value.locks, after);
  }

  /** At most one run holds the lock of a path. */
  ghost predicate OneHolder(runs: seq<Run>) {
    forall p, r, s :: r in runs && s in runs && Holds(r, p) && Holds(s, p) ==> r == s
  }

  /** With one holder per path before and after, the locks are settled, through swaps and removals. */
  lemma OneHolderSettles(before: Doc, after: Doc)
    requires UniqueIds(before.runs) && OneHolder(before.runs) && OneHolder(after.runs)
    ensures LocksSettled(before, after)
  {
    UniqueDictionary(before.runs);
    forall path | LastHolder(after.runs, path).Some?
      ensures SettledAt(before, after, path, LastHolder(after.runs, path).value)
    {
      var h := LastHolder(after.runs, path).value;
      if !Changed(ById(before.runs), h) {
        assert h in before.runs && Holds(h, path);
      }
    }
  }

  /** A run with the lock of a given project, and the same without it. */
  function Holding(r: Run, path: string): Run {
    r.(lock := Some(Lock(None, None, "")), originalPath := None, projectPath := Some(path))
  }

  lemma HoldingProjects(r: Run, path: string)
    requires Projectable(r)
    ensures Projectable(Holding(r, path)) && Projectable(Holding(r, path).(lock := None))
  {
    assert Inserts(Holding(r, path)) == Inserts(r) && Inserts(Holding(r, path).(lock := None)) == Inserts(r);
  }

  lemma TwoHoldersUnsettled(first: Run, second: Run, path: string, before: Doc, after: Doc)
    requires first.id != second.id && first.id != "" && second.id != "" && path != ""
    requires Holds(first, path) && Holds(second, path)
    requires before.runs == [first, second] && after.runs == [first, second.(lock := None)]
    ensures UniqueIds(before.runs) && UniqueIds(after.runs) && !LocksSettled(before, after)
  {
    assert before.runs[..1] == [first] && after.runs[..1] == [first];
    assert LastHolder(before.runs, path) == Some(second);
    assert LastHolder([first], path) == Some(first);
    assert LastHolder(after.runs, path) == Some(first);
    UniqueDictionary(before.runs);
    assert before.runs[0] == first;
    assert !SettledAt(before, after, path, first);
  }

  /**
   * And two holders can unsettle them: when the later of any two runs gives up the lock that both hold, the
   * refresh drops the row of a project that a rebuild would give to the other.
   */
  lemma TwoHoldersUnsettle(r: Run, s: Run) returns (before: Doc, after: Doc)
    requires r.id != s.id && r.id != "" && s.id != "" && Projectable(r) && Projectable(s)
    ensures Rebuild(before).Some? && Rebuild(after).Some? && SyncChanged(Rebuild(before).value, before, after).Some?
    ensures SyncChanged(Rebuild(before).value, before, after).value.locks != Rebuild(after).value.locks
  {
    var first, second := Holding(r, "p"), Holding(s, "p");
    before, after := Doc(0, [first, second], ""), Doc(1, [first, second.(lock := None)], "");
    HoldingProjects(r, "p");
    HoldingProjects(s, "p");
    TwoHoldersUnsettled(first, second, "p", before, after);
    SyncAllSucceeds(EMPTY_TABLES, before.runs);
    SyncAllSucceeds(EMPTY_TABLES, after.runs);
    AllProjectableMeans(before.runs);
    AllProjectableMeans(after.runs);
    RefreshSucceeds(Rebuild(before).value, before, after);
    LocksRefineExactly(Rebuild(before).value, before, after);
  }
}
