/**
 * The registry of spawned processes, its persisted rows and the reaping of orphans
 * (app/agents/process_registry.py).
 */
module ProcessRegistry {
  import opened Prelude

  /** What the operating system tells about a process now: empty strings stand for missing values. */
  datatype Identity = Identity(startKey: string, executable: string)

  datatype Record = Record(key: string, pid: int, identity: Identity, controllerPid: int, controllerIdentity: Identity)

  /** The processes of the machine, as they stay while one call looks at them. */
  datatype World = World(alive: int -> bool, identity: int -> Identity)

  type Handle = nat

  /** `_record_identity_matches`: a record without a start key is never matched. */
  function SameProcess(now: Identity, expected: Identity): bool {
    if expected.startKey == "" then false
    else
      now.startKey != "" && now.startKey == expected.startKey
      && (expected.executable == "" || now.executable == expected.executable)
  }

  /**
   * The recorded process is still there: its number is in use, by a process that was started when it was and that, if
   * it is known what it executed, executes the same.
   */
  ghost predicate Runs(w: World, pid: int, recorded: Identity) {
    && pid > 0 && w.alive(pid)
    && w.identity(pid).startKey == recorded.startKey != ""
    && recorded.executable in {"", w.identity(pid).executable}
  }

  ghost predicate Stale(w: World, r: Record) {
    !Runs(w, r.pid, r.identity)
  }

  ghost predicate Controlled(w: World, r: Record) {
    Runs(w, r.controllerPid, r.controllerIdentity)
  }

  ghost predicate Orphan(w: World, r: Record) {
    Runs(w, r.pid, r.identity) && !Runs(w, r.controllerPid, r.controllerIdentity)
  }

  predicate Keyed(records: map<string, Record>) {
    forall k :: k in records ==> records[k].key == k
  }

  // ---------------------------------------------------------------- the persisted rows

  /** The rows of a file: every record once, in whatever order the dictionary has. */
  ghost predicate Rows(rows: seq<Record>, records: map<string, Record>) {
    && Distinct(rows)
    && (forall r :: r in rows ==> r.key in records && records[r.key] == r)
    && forall k :: k in records ==> records[k] in rows
  }

  /** `_load_records`: rows without a key are skipped, a later row replaces an earlier one. */
  function Load(rows: seq<Record>): (records: map<string, Record>)
    ensures Keyed(records) && "" !in records
  {
    if rows == [] then map[]
    else
      var records := Load(rows[..|rows| - 1]);
      var last := rows[|rows| - 1];
      if last.key == "" then records else records[last.key := last]
  }

  /** The last of the rows under a key. */
  ghost predicate LastUnder(rows: seq<Record>, k: string, i: nat) {
    i < |rows| && rows[i].key == k && forall j :: i < j < |rows| ==> rows[j].key != k
  }

  lemma {:induction false} LastRowIsLoaded(rows: seq<Record>, k: string, i: nat)
    requires k != "" && LastUnder(rows, k, i)
    ensures Lookup(Load(rows), k) == Some(rows[i])
    decreases |rows|
  {
    var n := |rows| - 1;
    if i < n {
      assert rows[n].key != k;
      LastRowIsLoaded(rows[..n], k, i);
    }
  }

  lemma {:induction false} LoadedFrom(rows: seq<Record>, k: string)
    ensures k in Load(rows) <==> k != "" && exists r :: r in rows && r.key == k
    decreases |rows|
  {
    if rows != [] {
      var rest, last := rows[..|rows| - 1], rows[|rows| - 1];
      LoadedFrom(rest, k);
      assert forall r :: r in rows <==> r in rest || r == last;
    }
  }

  /** A restart finds the records that were persisted, except one under the empty key. */
  lemma PersistThenLoad(rows: seq<Record>, records: map<string, Record>)
    requires Keyed(records) && Rows(rows, records)
    ensures Load(rows) == records - {""}
    ensures Load(rows) == records <==> "" !in records
  {
    forall k
      ensures Lookup(Load(rows), k) == Lookup(records - {""}, k)
    {
      LoadedFrom(rows, k);
      if k in records {
        var i :| 0 <= i < |rows| && rows[i] == records[k];
        if k != "" {
          LastRowIsLoaded(rows, k, i);
        }
      }
    }
    assert forall k :: k in Load(rows) <==> Lookup(Load(rows), k).Some?;
    assert Load(rows) == records - {""};
    if "" in records {
      assert "" !in Load(rows);
    } else {
      assert records - {""} == records;
    }
  }

  // ---------------------------------------------------------------- the registry

  /** What is left of the records: all that were neither stale nor reaped, unchanged. */
  ghost predicate Kept(records: map<string, Record>, was: map<string, Record>, w: World, reaped: seq<Record>) {
    && records.Keys <= was.Keys
    && forall k :: k in was ==>
         && (k in records <==> !Stale(w, was[k]) && was[k] !in reaped)
         && (k in records ==> records[k] == was[k])
  }

  datatype State = State(processes: map<string, Handle>, records: map<string, Record>)

  datatype Call =
    | Register(record: Record, process: Handle)
    | Unregister(key: string, owner: Option<Handle>)
    | Reap(w: World, reaped: seq<Record>)
    | Clear

  /** What each call of the registry does to what it holds. */
  ghost predicate Step(s: State, c: Call, t: State) {
    match c
    case Register(record, process) =>
      t == State(s.processes[record.key := process], s.records[record.key := record])
    case Unregister(key, owner) =>
      if owner.Some? && key in s.processes && s.processes[key] != owner.value then t == s
      else t == State(s.processes - {key}, s.records - {key})
    case Reap(w, reaped) =>
      t.processes == s.processes && Kept(t.records, s.records, w, reaped) && forall r :: r in reaped ==> Orphan(w, r)
    case Clear => t == State(map[], map[])
  }

  /** The call neither replaces the process nor removes it by right, nor finds it dead or abandoned. */
  ghost predicate Leaves(c: Call, record: Record, process: Handle) {
    match c
    case Register(other, _) => other.key != record.key
    case Unregister(key, owner) => key != record.key || (owner.Some? && owner.value != process)
    case Reap(w, _) => !Stale(w, record) && Controlled(w, record)
    case Clear => false
  }

  predicate Holds(s: State, record: Record, process: Handle) {
    && record.key in s.processes && s.processes[record.key] == process
    && record.key in s.records && s.records[record.key] == record
  }

  /**
   * Once registered, a process stays registered whatever is called in whatever order, older handles
   * being unregistered under its key and orphans being reaped included.
   */
  lemma {:induction false} NewestRegistrationStays(states: seq<State>, calls: seq<Call>, record: Record,
                                                 process: Handle)
    requires |states| == |calls| + 1 && |calls| > 0
    requires forall i :: 0 <= i < |calls| ==> Step(states[i], calls[i], states[i + 1])
    requires calls[0] == Register(record, process)
    requires forall i :: 1 <= i < |calls| ==> Leaves(calls[i], record, process)
    ensures Holds(states[|calls|], record, process)
    decreases |calls|
  {
    if |calls| > 1 {
      var n := |calls| - 1;
      NewestRegistrationStays(states[..n + 1], calls[..n], record, process);
      assert Step(states[n], calls[n], states[n + 1]) && Leaves(calls[n], record, process);
    } else {
      assert Step(states[0], calls[0], states[1]);
    }
  }

  class Registry {
    var processes: map<string, Handle>
    var records: map<string, Record>
    var rows: seq<Record>

    ghost predicate Valid()
      reads this
    {
      Keyed(records)
    }

    ghost function Held(): State
      reads this
    {
      State(processes, records)
    }

    /** A new controller starts from the rows of the last one. */
    constructor (rows: seq<Record>)
      ensures Valid() && records == Load(rows) && processes == map[] && this.rows == rows
    {
      processes := map[];
      records := Load(rows);
      this.rows := rows;
    }

    method Persist()
      requires Valid()
      modifies this`rows
      ensures Rows(rows, records)
    {
      var keys := Enumerate(records.Keys);
      assert forall k :: k in keys <==> k in ToSet(keys);
      var all := records;
      assert forall i :: 0 <= i < |keys| ==> keys[i] in keys;
      rows := seq(|keys|, i requires 0 <= i < |keys| && keys[i] in all => all[keys[i]]);
      forall k | k in records
        ensures records[k] in rows
      {
        assert k in ToSet(keys);
        var i :| 0 <= i < |keys| && keys[i] == k;
        assert rows[i] == records[k];
      }
    }

    method Clear()
      modifies this
      ensures Valid() && rows == [] && Step(old(Held()), Call.Clear, Held())
    {
      processes, records, rows := map[], map[], [];
    }

    method Register(key: string, process: Handle, pid: int, controllerPid: int, w: World)
      requires Valid()
      modifies this
      ensures Valid() && Rows(rows, records)
      ensures var record := Record(key, pid, w.identity(pid), controllerPid, w.identity(controllerPid));
              Step(old(Held()), Call.Register(record, process), Held())
    {
      processes := processes[key := process];
      records := records[key := Record(key, pid, w.identity(pid), controllerPid, w.identity(controllerPid))];
      Persist();
    }

    /** Drops the entry, unless the caller's process is not the registered one. */
    method Unregister(key: string, process: Option<Handle>)
      requires Valid()
      modifies this
      ensures Valid()
      ensures Step(old(Held()), Call.Unregister(key, process), Held())
      ensures Rows(rows, records) || (Held() == old(Held()) && rows == old(rows))
    {
      if process.Some? && key in processes && processes[key] != process.value {
        return;
      }
      processes := processes - {key};
      records := records - {key};
      Persist();
    }

    /** Forgets the stale records and lists the orphans. */
    method OrphanRecords(w: World) returns (orphans: seq<Record>)
      requires Valid()
      modifies this`records, this`rows
      ensures Valid()
      ensures Kept(records, old(records), w, [])
      ensures Distinct(orphans)
      ensures forall r :: r in orphans <==> r.key in records && records[r.key] == r && !Controlled(w, r)
      ensures records == old(records) || Rows(rows, records)
    {
      var keys := Enumerate(records.Keys);
      assert forall k :: k in keys <==> k in ToSet(keys);
      var staleKeys: set<string> := {};
      orphans := [];
      for i := 0 to |keys|
        invariant forall k :: k in staleKeys <==> k in keys[..i] && Stale(w, records[k])
        invariant forall r :: r in orphans <==> r.key in keys[..i] && records[r.key] == r && Orphan(w, r)
        invariant Distinct(orphans)
      {
        var key := keys[i];
        var record := records[key];
        assert keys[..i + 1] == keys[..i] + [key] && key !in keys[..i];
        if record.pid <= 0 || !w.alive(record.pid) {
          staleKeys := staleKeys + {key};
          continue;
        }
        if !SameProcess(w.identity(record.pid), record.identity) {
          staleKeys := staleKeys + {key};
          continue;
        }
        var controllerAlive := record.controllerPid > 0 && w.alive(record.controllerPid);
        if controllerAlive {
          controllerAlive := SameProcess(w.identity(record.controllerPid), record.controllerIdentity);
        }
        if !controllerAlive {
          assert record !in orphans;
          orphans := orphans + [record];
        }
      }
      assert keys[..|keys|] == keys;
      records := records - staleKeys;
      if staleKeys != {} {
        Persist();
      }
    }

    /**
     * Kills the orphans; `killed` tells for which the kill succeeds. The old records split into the stale ones,
     * the reaped ones, and the kept ones: those with a live controller and those whose kill was refused.
     */
    method ReapOrphans(w: World, killed: Record -> bool) returns (reaped: seq<Record>)
      requires Valid()
      modifies this`records, this`rows
      ensures Valid() && Rows(rows, records)
      ensures Distinct(reaped)
      ensures forall r :: r in reaped <==>
                r.key in old(records) && old(records)[r.key] == r && Orphan(w, r) && killed(r)
      // A number that the system gave to another process since is never killed.
      ensures forall r :: r in reaped ==>
                r.pid > 0 && w.alive(r.pid) && w.identity(r.pid).startKey == r.identity.startKey != ""
      ensures forall k :: k in old(records) ==>
                (k in records <==> !Stale(w, old(records)[k])
                                   && (Controlled(w, old(records)[k]) || !killed(old(records)[k])))
      ensures Step(old(Held()), Call.Reap(w, reaped), Held())
    {
      var orphans := OrphanRecords(w);
      reaped := KillEach(orphans, killed);
      Persist();
    }

    /** The loop over the orphans. */
    method KillEach(orphans: seq<Record>, killed: Record -> bool) returns (reaped: seq<Record>)
      requires Valid() && Distinct(orphans) && forall r :: r in orphans ==> r.pid > 0
      modifies this`records
      ensures Valid()
      ensures Distinct(reaped) && forall r :: r in reaped <==> r in orphans && killed(r)
      ensures forall k :: k in records <==> k in old(records) && forall r :: r in reaped ==> r.key != k
      ensures forall k :: k in records ==> records[k] == old(records)[k]
    {
      reaped := [];
      for i := 0 to |orphans|
        invariant Distinct(reaped) && forall r :: r in reaped <==> r in orphans[..i] && killed(r)
        invariant forall k :: k in records <==> k in old(records) && forall r :: r in reaped ==> r.key != k
        invariant forall k :: k in records ==> records[k] == old(records)[k]
      {
        var record := orphans[i];
        assert orphans[..i + 1] == orphans[..i] + [record] && record !in orphans[..i];
        if record.pid != 0 && killed(record) {
          reaped := reaped + [record];
          records := records - {record.key};
        }
      }
      assert orphans[..|orphans|] == orphans;
    }
  }
}
