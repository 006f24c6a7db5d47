/**
 * The resumable migration log of the controller database (app/persistence/migrations.py).
 */
module Migrations {
  import opened Prelude

  const LATEST: nat := 4

  /** "document-store", "normalized-run-projections", "event-idempotency-key", "migration-audit-metadata". */
  datatype Name = DocumentStoreName | NormalizedRunProjections | EventIdempotencyKey | MigrationAuditMetadata

  /** SHA-256 of "version:name", known by what it is the digest of. */
  datatype Checksum = Checksum(version: nat, name: Name)

  /** "sqlite_schema_version". */
  datatype MetadataKey = SqliteSchemaVersion

  datatype Table =
    | SchemaMigrationsTable | StoreDocumentsTable | RunsTable | RunStepsTable | TasksTable | AgentSessionsTable
    | RunEventsTable | RunArtifactsTable | ValidationResultsTable | FileChangesTable | CheckpointsTable
    | ProjectLocksTable | ControllerMetadataTable

  datatype Index =
    | IdxRunsStatus | IdxRunsProject | IdxStepsStatus | IdxEventsRun | IdxEventsKey

  datatype Column =
    | VersionCol | AppliedAtCol | IdCol | SessionIdCol | WorkflowIdCol | WorkflowNameCol | ProjectPathCol
    | StatusCol | PhaseCol | ErrorCodeCol | ErrorCol | CreatedAtCol | StartedAtCol | EndedAtCol | UpdatedAtCol
    | PayloadJsonCol | RunIdCol | StepKeyCol | PositionCol | TitleCol | RetryCountCol | TaskIdCol | RoleCol
    | AgentCol | EventTypeCol | MessageCol | OccurredAtCol | ArtifactIdCol | PathCol | CategoryCol
    | VisibilityCol | SizeBytesCol | ValidationKeyCol | CommandCol | ExitCodeCol | ChangeTypeCol | AdditionsCol
    | DeletionsCol | CheckpointIdCol | ModeCol | AcquiredAtCol | KeyCol | ValueCol | EventKeyCol | NameCol
    | ChecksumCol | ExecutionMsCol

  /** The audit columns of one recorded migration. */
  datatype Audit = Audit(name: Option<Name>, checksum: Option<Checksum>)

  datatype Db = Db(
    tables: map<Table, set<Column>>,
    indexes: set<Index>,
    recorded: map<nat, Audit>,
    metadata: map<MetadataKey, nat>)

  const EMPTY := Db(map[], {}, map[], map[])

  datatype Statement =
    | CreateTable(table: Table, columns: set<Column>)
    | CreateIndex(index: Index, on: Table, over: set<Column>)
    | AddColumnIfMissing(table: Table, column: Column)
    | PutMetadata(key: MetadataKey, value: nat)

  /** A migration: `apply` tells which statements it comes down to on a given database. */
  datatype Migration = Migration(version: nat, name: Name, apply: Db -> seq<Statement>)

  const MIGRATIONS: seq<Migration> :=
    [Migration(1, DocumentStoreName, DocumentStore), Migration(2, NormalizedRunProjections, ProjectionTables),
     Migration(3, EventIdempotencyKey, EventIdempotency), Migration(4, MigrationAuditMetadata, MigrationAudit)]

  const MIGRATION_TABLE := CreateTable(SchemaMigrationsTable, {VersionCol, AppliedAtCol})

  const PROJECTIONS: seq<Statement> :=
    [CreateTable(RunsTable, {IdCol, SessionIdCol, WorkflowIdCol, WorkflowNameCol, ProjectPathCol, StatusCol, PhaseCol,
                          ErrorCodeCol, ErrorCol, CreatedAtCol, StartedAtCol, EndedAtCol, UpdatedAtCol,
                          PayloadJsonCol}),
     CreateIndex(IdxRunsStatus, RunsTable, {StatusCol}),
     CreateIndex(IdxRunsProject, RunsTable, {ProjectPathCol, CreatedAtCol}),
     CreateTable(RunStepsTable, {RunIdCol, StepKeyCol, PositionCol, TitleCol, StatusCol, RetryCountCol, ErrorCodeCol,
                               ErrorCol, StartedAtCol, EndedAtCol, PayloadJsonCol}),
     CreateIndex(IdxStepsStatus, RunStepsTable, {RunIdCol, StatusCol}),
     CreateTable(TasksTable, {RunIdCol, TaskIdCol, TitleCol, StatusCol, PositionCol, PayloadJsonCol}),
     CreateTable(AgentSessionsTable, {RunIdCol, RoleCol, AgentCol, SessionIdCol, StatusCol, UpdatedAtCol,
                                      PayloadJsonCol}),
     CreateTable(RunEventsTable, {IdCol, RunIdCol, StepKeyCol, EventTypeCol, MessageCol, OccurredAtCol,
                                  PayloadJsonCol}),
     CreateIndex(IdxEventsRun, RunEventsTable, {RunIdCol, IdCol}),
     CreateTable(RunArtifactsTable, {RunIdCol, ArtifactIdCol, PathCol, CategoryCol, RoleCol, VisibilityCol,
                                     SizeBytesCol, PayloadJsonCol}),
     CreateTable(ValidationResultsTable, {RunIdCol, ValidationKeyCol, StatusCol, CommandCol, ExitCodeCol,
                                          PayloadJsonCol}),
     CreateTable(FileChangesTable, {RunIdCol, PathCol, ChangeTypeCol, AdditionsCol, DeletionsCol, PayloadJsonCol}),
     CreateTable(CheckpointsTable, {RunIdCol, CheckpointIdCol, StepKeyCol, StatusCol, CreatedAtCol, PayloadJsonCol}),
     CreateTable(ProjectLocksTable, {ProjectPathCol, RunIdCol, ModeCol, AcquiredAtCol, PayloadJsonCol})]

  function Columns(db: Db, table: Table): set<Column> {
    if table in db.tables then db.tables[table] else {}
  }

  /** One statement; None when SQLite refuses it. */
  function Execute(db: Db, s: Statement): Option<Db> {
    match s
    case CreateTable(t, columns) => Some(if t in db.tables then db else db.(tables := db.tables[t := columns]))
    case CreateIndex(i, on, over) =>
      if i in db.indexes then Some(db)
      else if over <= Columns(db, on) then Some(db.(indexes := db.indexes + {i})) else None
    case AddColumnIfMissing(t, column) =>
      if t in db.tables then Some(db.(tables := db.tables[t := db.tables[t] + {column}])) else None
    case PutMetadata(key, value) =>
      if ControllerMetadataTable in db.tables then Some(db.(metadata := db.metadata[key := value])) else None
  }

  function ExecuteAll(db: Db, statements: seq<Statement>): Option<Db>
    decreases |statements|
  {
    if statements == [] then Some(db)
    else
      match Execute(db, statements[0])
      case None => None
      case Some(next) => ExecuteAll(next, statements[1..])
  }

  function DocumentStore(db: Db): seq<Statement> {
    [CreateTable(StoreDocumentsTable, {KeyCol, ValueCol, UpdatedAtCol})]
  }

  function ProjectionTables(db: Db): seq<Statement> {
    PROJECTIONS
  }

  const EVENT_KEY: seq<Statement> :=
    [AddColumnIfMissing(RunEventsTable, EventKeyCol),
     CreateIndex(IdxEventsKey, RunEventsTable, {RunIdCol, EventKeyCol})]

  function EventIdempotency(db: Db): seq<Statement> {
    (if RunEventsTable in db.tables then [] else PROJECTIONS) + EVENT_KEY
  }

  function MigrationAudit(db: Db): seq<Statement> {
    [AddColumnIfMissing(SchemaMigrationsTable, NameCol), AddColumnIfMissing(SchemaMigrationsTable, ChecksumCol),
     AddColumnIfMissing(SchemaMigrationsTable, ExecutionMsCol),
     CreateTable(ControllerMetadataTable, {KeyCol, ValueCol, UpdatedAtCol}),
     PutMetadata(SqliteSchemaVersion, LATEST)]
  }

  /** Recording a version: with its audit columns if the table has them by then. */
  function Record(db: Db, m: Migration): Db {
    var audit := if {NameCol, ChecksumCol, ExecutionMsCol} <= Columns(db, SchemaMigrationsTable)
                 then Audit(Some(m.name), Some(Checksum(m.version, m.name))) else Audit(None, None);
    db.(recorded := db.recorded[m.version := audit])
  }

  /** One migration as a whole. */
  function Migrated(db: Db, m: Migration): Option<Db> {
    match ExecuteAll(db, m.apply(db))
    case None => None
    case Some(next) => Some(Record(next, m))
  }

  function Chain(db: Db, ms: seq<Migration>): Option<Db> {
    if ms == [] then Some(db)
    else
      match Chain(db, ms[..|ms| - 1])
      case None => None
      case Some(next) => Migrated(next, ms[|ms| - 1])
  }

  function Ensured(db: Db): Db {
    if SchemaMigrationsTable in db.tables then db
    else db.(tables := db.tables[SchemaMigrationsTable := MIGRATION_TABLE.columns])
  }

  function Missing(db: Db, ms: seq<Migration>): seq<Migration> {
    if ms == [] then []
    else Missing(db, ms[..|ms| - 1]) + if ms[|ms| - 1].version in db.recorded then [] else [ms[|ms| - 1]]
  }

  predicate TooNew(db: Db) {
    exists v :: v in db.recorded && v > LATEST
  }

  function FilledIn(a: Audit, m: Migration): Audit {
    Audit(if a.name.Some? then a.name else Some(m.name),
          if a.checksum.Some? then a.checksum else Some(Checksum(m.version, m.name)))
  }

  /** `COALESCE` on the row of one migration. */
  function Coalesced(db: Db, m: Migration): Db {
    if m.version !in db.recorded then db
    else db.(recorded := db.recorded[m.version := FilledIn(db.recorded[m.version], m)])
  }

  /** The first `n` updates of the backfill. */
  function Backfilled(db: Db, n: nat): Db
    requires n <= |MIGRATIONS|
  {
    if n == 0 || !({NameCol, ChecksumCol} <= Columns(db, SchemaMigrationsTable)) then db
    else Coalesced(Backfilled(db, n - 1), MIGRATIONS[n - 1])
  }

  datatype Failure = TooNewDatabase(version: nat) | MigrationFailed(version: nat) | StatementRaised

  // ---------------------------------------------------------------- the run

  /** A connection: the state it sees, the state to roll back to, and which step raises. */
  class Connection {
    var db: Db
    var atBegin: Db
    var clock: nat
    const faults: nat -> bool

    constructor (db: Db, faults: nat -> bool)
      ensures this.db == db && this.faults == faults
    {
      this.db, atBegin, clock, this.faults := db, db, 0, faults;
    }

    ghost predicate Reliable() {
      forall k :: !faults(k)
    }

    /** None of the next `n` steps raises. */
    ghost predicate NoFault(from: nat, n: nat) {
      forall k :: from <= k < from + n ==> !faults(k)
    }

    method Step() returns (ok: bool)
      modifies this`clock
      ensures ok == !faults(old(clock)) && clock == old(clock) + 1
    {
      ok := !faults(clock);
      clock := clock + 1;
    }

    method Run(s: Statement) returns (ok: bool)
      modifies this`db, this`clock
      ensures ok ==> Some(db) == Execute(old(db), s)
      ensures !ok ==> db == old(db)
      ensures ok <==> !faults(old(clock)) && Execute(old(db), s).Some?
      ensures clock == old(clock) + 1
    {
      ok := Step();
      var next := Execute(db, s);
      if next.None? {
        ok := false;
      } else if ok {
        db := next.value;
      }
    }
  }

  /** The statements of a migration, up to the first that fails. */
  method RunAll(conn: Connection, statements: seq<Statement>) returns (ok: bool)
    modifies conn`db, conn`clock
    ensures ok ==> Some(conn.db) == ExecuteAll(old(conn.db), statements)
    ensures ok ==> conn.clock == old(conn.clock) + |statements|
    ensures ok <==> ExecuteAll(old(conn.db), statements).Some? && conn.NoFault(old(conn.clock), |statements|)
  {
    ok := true;
    var i := 0;
    assert statements[0..] == statements;
    while i < |statements| && ok
      invariant 0 <= i <= |statements|
      invariant ok ==> ExecuteAll(conn.db, statements[i..]) == ExecuteAll(old(conn.db), statements)
      invariant conn.clock == old(conn.clock) + i && (ok ==> conn.NoFault(old(conn.clock), i))
      invariant !ok ==> i > 0 && (conn.faults(conn.clock - 1) || ExecuteAll(old(conn.db), statements) == None)
    {
      assert statements[i..][1..] == statements[i + 1..];
      ok := conn.Run(statements[i]);
      i := i + 1;
    }
  }

  /**
   * One migration in its own transaction: all of it, or nothing.  It succeeds exactly if SQLite accepts every
   * statement and none raises, the opening, the recording and the commit included.
   */
  method RunMigration(conn: Connection, m: Migration) returns (ok: bool)
    modifies conn
    ensures ok ==> Some(conn.db) == Migrated(old(conn.db), m)
    ensures !ok ==> conn.db == old(conn.db)
    ensures ok <==> Migrated(old(conn.db), m).Some?
                    && conn.NoFault(old(conn.clock), |m.apply(old(conn.db))| + 3)
  {
    ok := conn.Step();
    if !ok {
      return;
    }
    conn.atBegin := conn.db;
    ok := RunAll(conn, m.apply(conn.db));
    if ok {
      ok := conn.Step();
    }
    if ok {
      conn.db := Record(conn.db, m);
      ok := conn.Step();
    }
    if !ok {
      conn.db := conn.atBegin;
    }
  }

  /** What one call of `run_migrations` may do to a database. */
  ghost predicate Attempt(db: Db, r: Result<seq<nat>, Failure>, db': Db) {
    var start := Ensured(db);
    var missing := Missing(start, MIGRATIONS);
    match r
    case Ok(applied) =>
      && !TooNew(db)
      && |applied| == |missing| && (forall i :: 0 <= i < |missing| ==> applied[i] == missing[i].version)
      && Chain(start, missing).Some? && db' == Backfilled(Chain(start, missing).value, |MIGRATIONS|)
    case Err(TooNewDatabase(_)) => TooNew(db) && db' == start
    case Err(MigrationFailed(v)) =>
      && !TooNew(db)
      && exists j ::
           0 <= j < |missing| && missing[j].version == v && Chain(start, missing[..j]) == Some(db')
    case Err(StatementRaised) =>
      db' == db || db' == start
      || (!TooNew(db) && Chain(start, missing).Some?
          && exists n :: 0 <= n <= |MIGRATIONS| && db' == Backfilled(Chain(start, missing).value, n))
  }

  /** The missing migrations in order, up to the first that fails. */
  method ApplyAll(conn: Connection, missing: seq<Migration>) returns (applied: seq<nat>)
    modifies conn
    ensures |applied| <= |missing| && Chain(old(conn.db), missing[..|applied|]) == Some(conn.db)
    ensures forall k :: 0 <= k < |applied| ==> applied[k] == missing[k].version
    ensures conn.Reliable() && Chain(old(conn.db), missing).Some? ==> |applied| == |missing|
  {
    ghost var start := conn.db;
    applied := [];
    var ok := true;
    while |applied| < |missing| && ok
      invariant |applied| <= |missing|
      invariant forall k :: 0 <= k < |applied| ==> applied[k] == missing[k].version
      invariant Chain(start, missing[..|applied|]) == Some(conn.db)
      invariant conn.Reliable() && Chain(start, missing).Some? ==> ok
      decreases |missing| - |applied|, ok
    {
      var i := |applied|;
      NextInChain(start, missing, i, conn.db);
      ok := RunMigration(conn, missing[i]);
      if ok {
        assert Chain(start, missing[..i + 1]) == Some(conn.db);
        applied := applied + [missing[i].version];
      }
    }
  }

  /** The backfill, outside any transaction. */
  method Backfill(conn: Connection) returns (ok: bool, ghost n: nat)
    modifies conn
    ensures n <= |MIGRATIONS| && conn.db == Backfilled(old(conn.db), n) && (ok ==> n == |MIGRATIONS|)
    ensures ok <==> !({NameCol, ChecksumCol} <= Columns(old(conn.db), SchemaMigrationsTable))
                    || conn.NoFault(old(conn.clock), 4)
  {
    n, ok := |MIGRATIONS|, true;
    if {NameCol, ChecksumCol} <= Columns(conn.db, SchemaMigrationsTable) {
      var i := 0;
      while i < |MIGRATIONS|
        invariant 0 <= i <= |MIGRATIONS| && conn.db == Backfilled(old(conn.db), i)
        invariant ok && conn.clock == old(conn.clock) + i && conn.NoFault(old(conn.clock), i)
      {
        ok := conn.Step();
        if !ok {
          n := i;
          return;
        }
        conn.db := Coalesced(conn.db, MIGRATIONS[i]);
        i := i + 1;
      }
    }
  }

  /** How a call can end that meets no fault. */
  ghost predicate FaultFree(db: Db, r: Result<seq<nat>, Failure>) {
    match r
    case Ok(_) => true
    case Err(TooNewDatabase(_)) => TooNew(db)
    case Err(MigrationFailed(_)) => Chain(Ensured(db), Missing(Ensured(db), MIGRATIONS)) == None
    case Err(StatementRaised) => false
  }

  method RunMigrations(conn: Connection) returns (r: Result<seq<nat>, Failure>)
    modifies conn
    ensures Attempt(old(conn.db), r, conn.db)
    ensures r.Err? && r.error.TooNewDatabase? ==> exists v :: v in old(conn.db).recorded && v > 4
    ensures (exists v :: v in old(conn.db).recorded && v > 4) ==>
              r.Err? && (r.error.TooNewDatabase? || r.error.StatementRaised?)
    ensures conn.Reliable() ==> FaultFree(old(conn.db), r)
  {
    var ok := conn.Run(MIGRATION_TABLE);
    if !ok {
      return Err(StatementRaised);
    }
    assert conn.db == Ensured(old(conn.db));
    if v :| v in conn.db.recorded && v > LATEST {
      return Err(TooNewDatabase(v));
    }
    ok := conn.Step();
    if !ok {
      return Err(StatementRaised);
    }
    var missing := Missing(conn.db, MIGRATIONS);
    var applied := ApplyAll(conn, missing);
    if |applied| < |missing| {
      return Err(MigrationFailed(missing[|applied|].version));
    }
    assert missing[..|missing|] == missing;
    ghost var n;
    ok, n := Backfill(conn);
    r := if ok then Ok(applied) else Err(StatementRaised);
  }

  lemma NextInChain(db: Db, ms: seq<Migration>, i: nat, now: Db)
    requires i < |ms| && Chain(db, ms[..i]) == Some(now)
    ensures Chain(db, ms[..i + 1]) == Migrated(now, ms[i])
    ensures Chain(db, ms).Some? ==> Migrated(now, ms[i]).Some?
  {
    assert ms[..i + 1][..i] == ms[..i];
    if Chain(db, ms).Some? {
      ChainPrefix(db, ms, i + 1);
    }
  }

  lemma {:induction false} ChainPrefix(db: Db, ms: seq<Migration>, n: nat)
    requires Chain(db, ms).Some? && n <= |ms|
    ensures Chain(db, ms[..n]).Some?
    decreases |ms|
  {
    if n < |ms| {
      ChainPrefix(db, ms[..|ms| - 1], n);
      assert ms[..|ms| - 1][..n] == ms[..n];
    } else {
      assert ms[..n] == ms;
    }
  }

  // ---------------------------------------------------------------- convergence

  /** The database after the first `k` migrations of an uninterrupted run. */
  function Stage(k: nat): Option<Db>
    requires k <= |MIGRATIONS|
  {
    Chain(Ensured(EMPTY), MIGRATIONS[..k])
  }

  lemma StageStep(k: nat)
    requires k < |MIGRATIONS|
    ensures Stage(k + 1) == match Stage(k) case None => None case Some(db) => Migrated(db, MIGRATIONS[k])
  {
    assert MIGRATIONS[..k + 1][..k] == MIGRATIONS[..k];
  }

  lemma {:induction false} ExecuteAllSplit(db: Db, a: seq<Statement>, b: seq<Statement>)
    ensures ExecuteAll(db, a + b) == match ExecuteAll(db, a) case None => None case Some(next) => ExecuteAll(next, b)
    decreases |a|
  {
    if a == [] {
      assert a + b == b;
    } else {
      assert (a + b)[0] == a[0] && (a + b)[1..] == a[1..] + b;
      if Execute(db, a[0]).Some? {
        ExecuteAllSplit(Execute(db, a[0]).value, a[1..], b);
      }
    }
  }

  /** Every index comes after its table; no table is created twice; nothing else happens. */
  ghost predicate SelfContained(statements: seq<Statement>) {
    && (forall i :: 0 <= i < |statements| ==> statements[i].CreateTable? || statements[i].CreateIndex?)
    && (forall i :: 0 <= i < |statements| && statements[i].CreateIndex? ==>
          exists j :: 0 <= j < i && statements[j].CreateTable? && statements[j].table == statements[i].on
                      && statements[i].over <= statements[j].columns)
    && (forall i, j :: 0 <= i < j < |statements| && statements[i].CreateTable? && statements[j].CreateTable? ==>
          statements[i].table != statements[j].table)
  }

  ghost predicate NoneYet(db: Db, statements: seq<Statement>) {
    forall i :: 0 <= i < |statements| && statements[i].CreateTable? ==> statements[i].table !in db.tables
  }

  function IndexesOf(statements: seq<Statement>): set<Index> {
    set s | s in statements && s.CreateIndex? :: s.index
  }

  /** The tables of `db'` are those of `db` and those the statements create, with their columns. */
  ghost predicate Creates(db: Db, statements: seq<Statement>, db': Db) {
    && db'.recorded == db.recorded && db'.metadata == db.metadata
    && db'.indexes == db.indexes + IndexesOf(statements)
    && (forall i :: 0 <= i < |statements| && statements[i].CreateTable? ==>
          statements[i].table in db'.tables && db'.tables[statements[i].table] == statements[i].columns)
    && (forall t :: t in db'.tables ==>
          t in db.tables || exists i :: 0 <= i < |statements| && statements[i] == CreateTable(t, db'.tables[t]))
    && (forall t :: t in db.tables ==> t in db'.tables && db'.tables[t] == db.tables[t])
  }

  lemma IndexesOneMore(rest: seq<Statement>, s: Statement)
    ensures IndexesOf(rest + [s]) == IndexesOf(rest) + if s.CreateIndex? then {s.index} else {}
  {
    assert forall x :: x in rest + [s] <==> x in rest || x == s;
  }

  lemma CreatesOneMore(db: Db, rest: seq<Statement>, mid: Db, s: Statement)
    requires Creates(db, rest, mid) && s.CreateTable? && s.table !in db.tables
    requires forall i :: 0 <= i < |rest| && rest[i].CreateTable? ==> rest[i].table != s.table
    ensures Execute(mid, s).Some? && Creates(db, rest + [s], Execute(mid, s).value)
  {
    var all, next := rest + [s], Execute(mid, s).value;
    IndexesOneMore(rest, s);
    assert s.table !in mid.tables;
    forall t | t in next.tables
      ensures t in db.tables || exists i :: 0 <= i < |all| && all[i] == CreateTable(t, next.tables[t])
    {
      if t == s.table {
        assert all[|rest|] == CreateTable(t, next.tables[t]);
      } else if t !in db.tables {
        var i :| 0 <= i < |rest| && rest[i] == CreateTable(t, mid.tables[t]);
        assert all[i] == CreateTable(t, next.tables[t]);
      }
    }
  }

  lemma IndexesAfterwards(db: Db, rest: seq<Statement>, mid: Db, s: Statement, j: nat)
    requires Creates(db, rest, mid) && s.CreateIndex?
    requires j < |rest| && rest[j].CreateTable? && rest[j].table == s.on && s.over <= rest[j].columns
    ensures Execute(mid, s).Some? && Creates(db, rest + [s], Execute(mid, s).value)
  {
    var all, next := rest + [s], Execute(mid, s).value;
    IndexesOneMore(rest, s);
    assert next.tables == mid.tables;
    forall t | t in next.tables && t !in db.tables
      ensures exists i :: 0 <= i < |all| && all[i] == CreateTable(t, next.tables[t])
    {
      var i :| 0 <= i < |rest| && rest[i] == CreateTable(t, mid.tables[t]);
      assert all[i] == CreateTable(t, next.tables[t]);
    }
  }

  lemma SelfContainedRest(db: Db, rest: seq<Statement>, last: Statement)
    requires SelfContained(rest + [last]) && NoneYet(db, rest + [last])
    ensures SelfContained(rest) && NoneYet(db, rest)
    ensures last.CreateTable? ==>
              last.table !in db.tables
              && forall i :: 0 <= i < |rest| && rest[i].CreateTable? ==> rest[i].table != last.table
    ensures last.CreateTable? || last.CreateIndex?
    ensures last.CreateIndex? ==>
              exists j :: 0 <= j < |rest| && rest[j].CreateTable? && rest[j].table == last.on
                             && last.over <= rest[j].columns
  {
    var all := rest + [last];
    assert forall i :: 0 <= i < |rest| ==> rest[i] == all[i];
    assert all[|rest|] == last;
  }

  lemma ExecuteSnoc(db: Db, rest: seq<Statement>, last: Statement)
    ensures ExecuteAll(db, rest + [last])
            == match ExecuteAll(db, rest) case None => None case Some(mid) => Execute(mid, last)
  {
    ExecuteAllSplit(db, rest, [last]);
    assert [last][1..] == [];
  }

  lemma LastRuns(db: Db, rest: seq<Statement>, mid: Db, last: Statement)
    requires SelfContained(rest + [last]) && NoneYet(db, rest + [last]) && Creates(db, rest, mid)
    ensures Execute(mid, last).Some? && Creates(db, rest + [last], Execute(mid, last).value)
  {
    SelfContainedRest(db, rest, last);
    if last.CreateTable? {
      CreatesOneMore(db, rest, mid, last);
    } else {
      var j :| 0 <= j < |rest| && rest[j].CreateTable? && rest[j].table == last.on && last.over <= rest[j].columns;
      IndexesAfterwards(db, rest, mid, last, j);
    }
  }

  /** A self-contained list runs through on a database with none of its tables, and creates just these. */
  lemma {:induction false} SelfContainedRuns(db: Db, statements: seq<Statement>)
    requires SelfContained(statements) && NoneYet(db, statements)
    ensures ExecuteAll(db, statements).Some?
    ensures Creates(db, statements, ExecuteAll(db, statements).value)
    decreases |statements|
  {
    if statements != [] {
      var n := |statements| - 1;
      var rest, last := statements[..n], statements[n];
      assert statements == rest + [last];
      SelfContainedRest(db, rest, last);
      SelfContainedRuns(db, rest);
      var mid := ExecuteAll(db, rest).value;
      ExecuteSnoc(db, rest, last);
      LastRuns(db, rest, mid, last);
    }
  }

  function Place(t: Table): nat {
    match t
    case RunsTable => 0 case RunStepsTable => 3 case TasksTable => 5 case AgentSessionsTable => 6
    case RunEventsTable => 7 case RunArtifactsTable => 9 case ValidationResultsTable => 10
    case FileChangesTable => 11 case CheckpointsTable => 12 case ProjectLocksTable => 13
    case _ => 14
  }

  lemma ProjectionsSelfContained()
    ensures SelfContained(PROJECTIONS)
  {
    var p := PROJECTIONS;
    assert forall i :: 0 <= i < |p| && p[i].CreateTable? ==> Place(p[i].table) == i;
    forall i | 0 <= i < |p| && p[i].CreateIndex?
      ensures exists j :: 0 <= j < i && p[j].CreateTable? && p[j].table == p[i].on && p[i].over <= p[j].columns
    {
      var j := if i < 3 then 0 else if i == 4 then 3 else 7;
      assert p[j].CreateTable? && p[j].table == p[i].on && p[i].over <= p[j].columns;
    }
  }

  /** The audit columns a version is recorded with. */
  function FirstAudit(v: nat): Audit {
    if v == LATEST then Audit(Some(MigrationAuditMetadata), Some(Checksum(LATEST, MigrationAuditMetadata)))
    else Audit(None, None)
  }

  lemma RecordedNext(k: nat, db: Db, m: Migration, after: Db)
    requires db.recorded == (map v: nat | 1 <= v <= k :: FirstAudit(v)) && m.version == k + 1
    requires after.recorded == db.recorded[k + 1 := FirstAudit(k + 1)]
    ensures after.recorded == (map v: nat | 1 <= v <= k + 1 :: FirstAudit(v))
  {
  }

  lemma ExecuteCons(db: Db, s: Statement, rest: seq<Statement>)
    ensures ExecuteAll(db, [s] + rest)
            == match Execute(db, s) case None => None case Some(next) => ExecuteAll(next, rest)
  {
  }

  // ---------------------------------------------------------------- the schema in full

  /** The columns of a table after `k` migrations. */
  function ColumnsAt(k: nat, t: Table): set<Column> {
    match t
    case SchemaMigrationsTable =>
      {VersionCol, AppliedAtCol} + if k >= 4 then {NameCol, ChecksumCol, ExecutionMsCol} else {}
    case StoreDocumentsTable => {KeyCol, ValueCol, UpdatedAtCol}
    case ControllerMetadataTable => {KeyCol, ValueCol, UpdatedAtCol}
    case RunsTable =>
      {IdCol, SessionIdCol, WorkflowIdCol, WorkflowNameCol, ProjectPathCol, StatusCol, PhaseCol, ErrorCodeCol,
       ErrorCol, CreatedAtCol, StartedAtCol, EndedAtCol, UpdatedAtCol, PayloadJsonCol}
    case RunStepsTable =>
      {RunIdCol, StepKeyCol, PositionCol, TitleCol, StatusCol, RetryCountCol, ErrorCodeCol, ErrorCol, StartedAtCol,
       EndedAtCol, PayloadJsonCol}
    case TasksTable => {RunIdCol, TaskIdCol, TitleCol, StatusCol, PositionCol, PayloadJsonCol}
    case AgentSessionsTable => {RunIdCol, RoleCol, AgentCol, SessionIdCol, StatusCol, UpdatedAtCol, PayloadJsonCol}
    case RunEventsTable =>
      {IdCol, RunIdCol, StepKeyCol, EventTypeCol, MessageCol, OccurredAtCol, PayloadJsonCol}
      + if k >= 3 then {EventKeyCol} else {}
    case RunArtifactsTable =>
      {RunIdCol, ArtifactIdCol, PathCol, CategoryCol, RoleCol, VisibilityCol, SizeBytesCol, PayloadJsonCol}
    case ValidationResultsTable => {RunIdCol, ValidationKeyCol, StatusCol, CommandCol, ExitCodeCol, PayloadJsonCol}
    case FileChangesTable => {RunIdCol, PathCol, ChangeTypeCol, AdditionsCol, DeletionsCol, PayloadJsonCol}
    case CheckpointsTable => {RunIdCol, CheckpointIdCol, StepKeyCol, StatusCol, CreatedAtCol, PayloadJsonCol}
    case ProjectLocksTable => {ProjectPathCol, RunIdCol, ModeCol, AcquiredAtCol, PayloadJsonCol}
  }

  /** The migration that brings a table. */
  function Since(t: Table): nat {
    match t
    case SchemaMigrationsTable => 0
    case StoreDocumentsTable => 1
    case ControllerMetadataTable => 4
    case _ => 2
  }

  /** Exactly the tables, columns, indexes and metadata that the first `k` migrations are there for. */
  ghost predicate SchemaIs(k: nat, db: Db) {
    && (forall t: Table :: Lookup(db.tables, t) == if Since(t) <= k then Some(ColumnsAt(k, t)) else None)
    && db.indexes == (if k >= 2 then {IdxRunsStatus, IdxRunsProject, IdxStepsStatus, IdxEventsRun} else {})
                     + (if k >= 3 then {IdxEventsKey} else {})
    && db.metadata == if k >= 4 then map[SqliteSchemaVersion := 4] else map[]
  }

  lemma FirstSchema(db: Db)
    requires SchemaIs(0, db)
    ensures Migrated(db, MIGRATIONS[0]).Some? && SchemaIs(1, Migrated(db, MIGRATIONS[0]).value)
  {
    var statements := DocumentStore(db);
    assert statements[1..] == [];
    var next := Execute(db, statements[0]).value;
    assert ExecuteAll(db, statements) == Some(next);
    forall t: Table
      ensures Lookup(next.tables, t) == if Since(t) <= 1 then Some(ColumnsAt(1, t)) else None
    {
      assert Lookup(db.tables, t) == if Since(t) <= 0 then Some(ColumnsAt(0, t)) else None;
    }
  }

  lemma ProjectionColumns(t: Table)
    requires Since(t) == 2
    ensures Place(t) < |PROJECTIONS| && PROJECTIONS[Place(t)] == CreateTable(t, ColumnsAt(2, t))
  {
  }

  lemma ProjectionAt(i: nat)
    requires i < |PROJECTIONS|
    ensures PROJECTIONS[i].CreateTable? ==> Since(PROJECTIONS[i].table) == 2
    ensures PROJECTIONS[i].CreateIndex? ==>
              PROJECTIONS[i].index in {IdxRunsStatus, IdxRunsProject, IdxStepsStatus, IdxEventsRun}
  {
    if PROJECTIONS[i].CreateTable? {
      assert Place(PROJECTIONS[i].table) == i;
    }
  }

  /** Where the second migration creates an index. */
  function IndexPlace(x: Index): nat {
    match x
    case IdxRunsStatus => 1 case IdxRunsProject => 2 case IdxStepsStatus => 4 case IdxEventsRun => 8
    case IdxEventsKey => 14
  }

  lemma ProjectionIndexed(x: Index)
    requires x != IdxEventsKey
    ensures x in IndexesOf(PROJECTIONS)
  {
    var i := IndexPlace(x);
    assert i < |PROJECTIONS| && PROJECTIONS[i].CreateIndex? && PROJECTIONS[i].index == x;
    assert PROJECTIONS[i] in PROJECTIONS;
  }

  lemma ProjectionIndexes()
    ensures IndexesOf(PROJECTIONS) == {IdxRunsStatus, IdxRunsProject, IdxStepsStatus, IdxEventsRun}
  {
    forall x | x in {IdxRunsStatus, IdxRunsProject, IdxStepsStatus, IdxEventsRun}
      ensures x in IndexesOf(PROJECTIONS)
    {
      ProjectionIndexed(x);
    }
    forall x | x in IndexesOf(PROJECTIONS)
      ensures x in {IdxRunsStatus, IdxRunsProject, IdxStepsStatus, IdxEventsRun}
    {
      var i :| 0 <= i < |PROJECTIONS| && PROJECTIONS[i].CreateIndex? && PROJECTIONS[i].index == x;
      ProjectionAt(i);
    }
  }

  lemma ProjectionsToCome(db: Db)
    requires SchemaIs(1, db)
    ensures NoneYet(db, PROJECTIONS)
  {
    forall i | 0 <= i < |PROJECTIONS| && PROJECTIONS[i].CreateTable?
      ensures PROJECTIONS[i].table !in db.tables
    {
      ProjectionAt(i);
      assert Lookup(db.tables, PROJECTIONS[i].table).None?;
    }
  }

  lemma SecondCreates(db: Db)
    requires NoneYet(db, PROJECTIONS)
    ensures ExecuteAll(db, PROJECTIONS).Some? && Creates(db, PROJECTIONS, ExecuteAll(db, PROJECTIONS).value)
  {
    ProjectionsSelfContained();
    SelfContainedRuns(db, PROJECTIONS);
  }

  lemma SecondSchema(db: Db)
    requires SchemaIs(1, db)
    ensures Migrated(db, MIGRATIONS[1]).Some? && SchemaIs(2, Migrated(db, MIGRATIONS[1]).value)
  {
    ProjectionsToCome(db);
    SecondCreates(db);
    var next := ExecuteAll(db, PROJECTIONS).value;
    CreatesSecond(db, next);
    SchemaRecorded(2, db, MIGRATIONS[1], PROJECTIONS, next);
  }

  lemma SchemaRecorded(k: nat, db: Db, m: Migration, statements: seq<Statement>, next: Db)
    requires m.apply(db) == statements && ExecuteAll(db, statements) == Some(next) && SchemaIs(k, next)
    ensures Migrated(db, m).Some? && SchemaIs(k, Migrated(db, m).value)
  {
  }

  lemma CreatesSecond(db: Db, next: Db)
    requires SchemaIs(1, db) && Creates(db, PROJECTIONS, next)
    ensures SchemaIs(2, next)
  {
    ProjectionIndexes();
    forall t: Table
      ensures Lookup(next.tables, t) == if Since(t) <= 2 then Some(ColumnsAt(2, t)) else None
    {
      CreatedColumns(db, next, t);
    }
  }

  lemma CreatedColumns(db: Db, next: Db, t: Table)
    requires SchemaIs(1, db) && Creates(db, PROJECTIONS, next)
    ensures Lookup(next.tables, t) == if Since(t) <= 2 then Some(ColumnsAt(2, t)) else None
  {
    assert Lookup(db.tables, t) == if Since(t) <= 1 then Some(ColumnsAt(1, t)) else None;
    if Since(t) == 2 {
      ProjectionColumns(t);
      assert PROJECTIONS[Place(t)].CreateTable?;
    } else if t in next.tables && t !in db.tables {
      var i :| 0 <= i < |PROJECTIONS| && PROJECTIONS[i] == CreateTable(t, next.tables[t]);
      ProjectionAt(i);
      assert false;
    }
  }

  lemma ThirdSchema(db: Db)
    requires SchemaIs(2, db)
    ensures Migrated(db, MIGRATIONS[2]).Some? && SchemaIs(3, Migrated(db, MIGRATIONS[2]).value)
  {
    assert Lookup(db.tables, RunEventsTable) == Some(ColumnsAt(2, RunEventsTable));
    var statements := EventIdempotency(db);
    assert statements == EVENT_KEY;
    var next := Execute(db, statements[0]).value;
    var last := Execute(next, statements[1]).value;
    assert statements == [statements[0]] + ([statements[1]] + []);
    ExecuteCons(db, statements[0], [statements[1]] + []);
    ExecuteCons(next, statements[1], []);
    assert ColumnsAt(2, RunEventsTable) + {EventKeyCol} == ColumnsAt(3, RunEventsTable);
    forall t: Table
      ensures Lookup(last.tables, t) == if Since(t) <= 3 then Some(ColumnsAt(3, t)) else None
    {
      assert Lookup(db.tables, t) == if Since(t) <= 2 then Some(ColumnsAt(2, t)) else None;
    }
  }

  /** The statements of the last migration, one after the other. */
  lemma AuditExecutes(db: Db, d1: Db, d2: Db, d3: Db, d4: Db, d5: Db)
    requires Execute(db, MigrationAudit(db)[0]) == Some(d1) && Execute(d1, MigrationAudit(db)[1]) == Some(d2)
    requires Execute(d2, MigrationAudit(db)[2]) == Some(d3) && Execute(d3, MigrationAudit(db)[3]) == Some(d4)
    requires Execute(d4, MigrationAudit(db)[4]) == Some(d5)
    ensures ExecuteAll(db, MigrationAudit(db)) == Some(d5)
  {
    var s := MigrationAudit(db);
    ExecuteCons(d4, s[4], []);
    ExecuteCons(d3, s[3], [s[4]] + []);
    ExecuteCons(d2, s[2], [s[3]] + ([s[4]] + []));
    ExecuteCons(d1, s[1], [s[2]] + ([s[3]] + ([s[4]] + [])));
    ExecuteCons(db, s[0], [s[1]] + ([s[2]] + ([s[3]] + ([s[4]] + []))));
    assert s == [s[0]] + ([s[1]] + ([s[2]] + ([s[3]] + ([s[4]] + []))));
  }

  lemma FourthSchema(db: Db)
    requires SchemaIs(3, db)
    ensures Migrated(db, MIGRATIONS[3]).Some? && SchemaIs(4, Migrated(db, MIGRATIONS[3]).value)
  {
    assert Lookup(db.tables, SchemaMigrationsTable) == Some(ColumnsAt(3, SchemaMigrationsTable));
    assert Lookup(db.tables, ControllerMetadataTable).None?;
    var columns := ColumnsAt(3, SchemaMigrationsTable);
    var d1 := db.(tables := db.tables[SchemaMigrationsTable := columns + {NameCol}]);
    var d2 := db.(tables := db.tables[SchemaMigrationsTable := columns + {NameCol} + {ChecksumCol}]);
    var d3 := db.(tables := db.tables[SchemaMigrationsTable := columns + {NameCol} + {ChecksumCol} + {ExecutionMsCol}]);
    var d4 := d3.(tables := d3.tables[ControllerMetadataTable := {KeyCol, ValueCol, UpdatedAtCol}]);
    var d5 := d4.(metadata := d4.metadata[SqliteSchemaVersion := LATEST]);
    assert d1.tables[SchemaMigrationsTable := columns + {NameCol} + {ChecksumCol}] == d2.tables;
    assert d2.tables[SchemaMigrationsTable := columns + {NameCol} + {ChecksumCol} + {ExecutionMsCol}] == d3.tables;
    AuditExecutes(db, d1, d2, d3, d4, d5);
    LastSchema(db, d5);
  }

  lemma LastSchema(db: Db, d5: Db)
    requires SchemaIs(3, db) && d5.indexes == db.indexes && d5.metadata == db.metadata[SqliteSchemaVersion := LATEST]
    requires d5.tables == db.tables[SchemaMigrationsTable := ColumnsAt(3, SchemaMigrationsTable) + {NameCol}
                                                             + {ChecksumCol} + {ExecutionMsCol}]
                                   [ControllerMetadataTable := {KeyCol, ValueCol, UpdatedAtCol}]
    ensures SchemaIs(4, d5)
  {
    assert ColumnsAt(3, SchemaMigrationsTable) + {NameCol} + {ChecksumCol} + {ExecutionMsCol}
           == ColumnsAt(4, SchemaMigrationsTable);
    forall t: Table
      ensures Lookup(d5.tables, t) == if Since(t) <= 4 then Some(ColumnsAt(4, t)) else None
    {
      assert Lookup(db.tables, t) == if Since(t) <= 3 then Some(ColumnsAt(3, t)) else None;
    }
  }

  /** Every stage of an uninterrupted run has exactly its schema. */
  lemma {:induction false} StageSchemaIs(k: nat)
    requires k <= |MIGRATIONS|
    ensures Stage(k).Some? && SchemaIs(k, Stage(k).value)
  {
    if k == 0 {
      assert MIGRATIONS[..0] == [];
      assert ColumnsAt(0, SchemaMigrationsTable) == MIGRATION_TABLE.columns;
      assert forall t: Table :: Since(t) == 0 <==> t == SchemaMigrationsTable;
    } else {
      StageSchemaIs(k - 1);
      StageStep(k - 1);
      var db := Stage(k - 1).value;
      if k == 1 { FirstSchema(db); }
      else if k == 2 { SecondSchema(db); }
      else if k == 3 { ThirdSchema(db); }
      else { FourthSchema(db); }
    }
  }

  /**
   * A database without the run tables, though past the second version, gets them from the third migration, with
   * the event key.
   */
  lemma EventTablesAreMadeUp(db: Db)
    requires NoneYet(db, PROJECTIONS) && IdxEventsKey !in db.indexes
    ensures Migrated(db, MIGRATIONS[2]).Some?
    ensures var after := Migrated(db, MIGRATIONS[2]).value;
            && (forall t :: Since(t) == 2 ==> Lookup(after.tables, t) == Some(ColumnsAt(3, t)))
            && IdxEventsKey in after.indexes
  {
    NoRunEventsYet(db);
    SecondCreates(db);
    var mid := ExecuteAll(db, PROJECTIONS).value;
    CreatedAre(db, mid);
    EventKeyAdded(mid);
    ExecuteAllSplit(db, PROJECTIONS, EVENT_KEY);
    ThirdIs(db, ExecuteAll(mid, EVENT_KEY).value);
  }

  lemma NoRunEventsYet(db: Db)
    requires NoneYet(db, PROJECTIONS)
    ensures RunEventsTable !in db.tables
  {
    ProjectionColumns(RunEventsTable);
    assert PROJECTIONS[Place(RunEventsTable)].CreateTable?;
  }

  lemma ThirdIs(db: Db, last: Db)
    requires RunEventsTable !in db.tables && ExecuteAll(db, PROJECTIONS + EVENT_KEY) == Some(last)
    ensures Migrated(db, MIGRATIONS[2]) == Some(Record(last, MIGRATIONS[2]))
  {
    assert MIGRATIONS[2].apply(db) == PROJECTIONS + EVENT_KEY;
  }

  lemma CreatedAre(db: Db, mid: Db)
    requires Creates(db, PROJECTIONS, mid)
    ensures forall t :: Since(t) == 2 ==> Lookup(mid.tables, t) == Some(ColumnsAt(2, t))
    ensures IdxEventsKey !in db.indexes ==> IdxEventsKey !in mid.indexes
  {
    ProjectionIndexes();
    forall t | Since(t) == 2
      ensures Lookup(mid.tables, t) == Some(ColumnsAt(2, t))
    {
      ProjectionColumns(t);
      assert PROJECTIONS[Place(t)].CreateTable?;
    }
  }

  lemma EventKeyAdded(mid: Db)
    requires forall t :: Since(t) == 2 ==> Lookup(mid.tables, t) == Some(ColumnsAt(2, t))
    requires IdxEventsKey !in mid.indexes
    ensures ExecuteAll(mid, EVENT_KEY).Some?
    ensures var after := ExecuteAll(mid, EVENT_KEY).value;
            && (forall t :: Since(t) == 2 ==> Lookup(after.tables, t) == Some(ColumnsAt(3, t)))
            && IdxEventsKey in after.indexes
  {
    var keys := EVENT_KEY;
    assert Lookup(mid.tables, RunEventsTable) == Some(ColumnsAt(2, RunEventsTable));
    assert ColumnsAt(2, RunEventsTable) + {EventKeyCol} == ColumnsAt(3, RunEventsTable);
    var next := Execute(mid, keys[0]).value;
    var last := Execute(next, keys[1]).value;
    assert keys == [keys[0]] + ([keys[1]] + []);
    ExecuteCons(mid, keys[0], [keys[1]] + []);
    ExecuteCons(next, keys[1], []);
    forall t | Since(t) == 2
      ensures Lookup(last.tables, t) == Some(ColumnsAt(3, t))
    {
      assert Lookup(mid.tables, t) == Some(ColumnsAt(2, t));
    }
  }

  // ---------------------------------------------------------------- what is recorded

  lemma {:induction false} ExecuteKeepsRecorded(db: Db, statements: seq<Statement>)
    requires ExecuteAll(db, statements).Some?
    ensures ExecuteAll(db, statements).value.recorded == db.recorded
    decreases |statements|
  {
    if statements != [] {
      ExecuteKeepsRecorded(Execute(db, statements[0]).value, statements[1..]);
    }
  }

  /** A migration is recorded with its audit columns where the table has them by then. */
  lemma MigratedRecords(db: Db, m: Migration)
    requires Migrated(db, m).Some?
    ensures var after := Migrated(db, m).value;
            after.recorded == db.recorded[m.version :=
              if {NameCol, ChecksumCol, ExecutionMsCol} <= Columns(after, SchemaMigrationsTable)
              then Audit(Some(m.name), Some(Checksum(m.version, m.name))) else Audit(None, None)]
  {
    ExecuteKeepsRecorded(db, m.apply(db));
  }

  /** What holds of the database after the first `k` migrations. */
  ghost predicate StageFacts(k: nat, db: Db) {
    && SchemaMigrationsTable in db.tables
    && db.tables[SchemaMigrationsTable] == ColumnsAt(k, SchemaMigrationsTable)
    && db.recorded == (map v: nat | 1 <= v <= k :: FirstAudit(v))
    && SchemaIs(k, db)
  }

  lemma StageRecordsNext(k: nat, before: Db, db: Db)
    requires 1 <= k <= |MIGRATIONS| && before.recorded == (map v: nat | 1 <= v <= k - 1 :: FirstAudit(v))
    requires Migrated(before, MIGRATIONS[k - 1]) == Some(db)
    requires Lookup(db.tables, SchemaMigrationsTable) == Some(ColumnsAt(k, SchemaMigrationsTable))
    ensures db.recorded == map v: nat | 1 <= v <= k :: FirstAudit(v)
  {
    MigratedRecords(before, MIGRATIONS[k - 1]);
    assert ExecutionMsCol in ColumnsAt(k, SchemaMigrationsTable) <==> k >= 4;
    RecordedNext(k - 1, before, MIGRATIONS[k - 1], db);
  }

  /** Every stage of an uninterrupted run exists, with exactly its schema and with the versions recorded so far. */
  lemma {:induction false} StageIs(k: nat)
    requires k <= |MIGRATIONS|
    ensures Stage(k).Some? && StageFacts(k, Stage(k).value)
  {
    StageSchemaIs(k);
    var db := Stage(k).value;
    assert Lookup(db.tables, SchemaMigrationsTable) == Some(ColumnsAt(k, SchemaMigrationsTable));
    if k == 0 {
      assert MIGRATIONS[..0] == [];
    } else {
      StageIs(k - 1);
      StageStep(k - 1);
      StageRecordsNext(k, Stage(k - 1).value, db);
    }
  }

  // ---------------------------------------------------------------- convergence over attempts

  /** `verify_schema` is content: all thirteen tables are there. */
  ghost predicate SchemaVerified(db: Db) {
    && (forall t: Table :: t in db.tables)
    && EventKeyCol in Columns(db, RunEventsTable) && IdxEventsKey in db.indexes
    && LATEST in db.recorded && forall v :: v in db.recorded ==> v <= LATEST
  }

  /** The database of an uninterrupted run. */
  ghost function Finished(): Db {
    StageIs(4);
    Backfilled(Stage(4).value, |MIGRATIONS|)
  }

  /** After any attempts: a stage, or the last stage with part of its backfill. */
  ghost predicate Reached(db: Db) {
    StageIs(4);
    || db == EMPTY
    || (exists k: nat :: k <= |MIGRATIONS| && Stage(k) == Some(db))
    || (exists n: nat :: n <= |MIGRATIONS| && db == Backfilled(Stage(4).value, n))
  }

  /** With the versions up to `k` recorded, the later migrations are missing. */
  lemma {:induction false} MissingAfter(db: Db, ms: seq<Migration>, k: nat)
    requires k <= |ms|
    requires forall i :: 0 <= i < |ms| ==> (ms[i].version in db.recorded <==> i < k)
    ensures Missing(db, ms) == ms[k..]
    decreases |ms|
  {
    if ms != [] {
      var n := |ms| - 1;
      var rest, last := ms[..n], ms[n];
      assert forall i :: 0 <= i < n ==> rest[i] == ms[i];
      if k <= n {
        MissingAfter(db, rest, k);
        assert last.version !in db.recorded && ms[k..] == rest[k..] + [last];
      } else {
        MissingAfter(db, rest, n);
        assert last.version in db.recorded && ms[k..] == rest[n..] == [];
      }
    }
  }

  lemma {:induction false} ChainSplit(db: Db, a: seq<Migration>, b: seq<Migration>)
    ensures Chain(db, a + b) == match Chain(db, a) case None => None case Some(next) => Chain(next, b)
    decreases |b|
  {
    if b == [] {
      assert a + b == a;
    } else {
      var n := |b| - 1;
      ChainSplit(db, a, b[..n]);
      assert (a + b)[..|a + b| - 1] == a + b[..n];
    }
  }

  lemma ChainOver(db: Db, ms: seq<Migration>, k: nat, n: nat)
    requires k <= n <= |ms| && Chain(db, ms[..k]).Some?
    ensures Chain(Chain(db, ms[..k]).value, ms[k..n]) == Chain(db, ms[..n])
  {
    ChainSplit(db, ms[..k], ms[k..n]);
    assert ms[..k] + ms[k..n] == ms[..n];
  }

  lemma ChainFromStage(k: nat, n: nat)
    requires k <= n <= |MIGRATIONS|
    ensures Stage(k).Some? && Chain(Stage(k).value, MIGRATIONS[k..n]) == Stage(n)
  {
    StageIs(k);
    ChainOver(Ensured(EMPTY), MIGRATIONS, k, n);
  }

  /** The backfill, row by row. */
  lemma {:induction false} BackfillRows(db: Db, n: nat)
    requires n <= |MIGRATIONS| && {NameCol, ChecksumCol} <= Columns(db, SchemaMigrationsTable)
    ensures Backfilled(db, n) == db.(recorded := map v | v in db.recorded ::
              if 1 <= v <= n then FilledIn(db.recorded[v], MIGRATIONS[v - 1]) else db.recorded[v])
  {
    if n > 0 {
      BackfillRows(db, n - 1);
      var m, before := MIGRATIONS[n - 1], Backfilled(db, n - 1);
      assert m.version == n && Backfilled(db, n) == Coalesced(before, m);
    }
  }

  /** On any database: a name or checksum that is there stays, and what is missing is filled in. */
  lemma BackfillKeeps(db: Db, v: nat)
    requires {NameCol, ChecksumCol} <= Columns(db, SchemaMigrationsTable) && v in db.recorded
    ensures Backfilled(db, |MIGRATIONS|).recorded.Keys == db.recorded.Keys
    ensures var was, now := db.recorded[v], Backfilled(db, |MIGRATIONS|).recorded[v];
            if 1 <= v <= 4 then
              && (was.name.Some? ==> now.name == was.name) && (was.checksum.Some? ==> now.checksum == was.checksum)
              && (was.name.None? ==> now.name == Some(MIGRATIONS[v - 1].name))
              && (was.checksum.None? ==> now.checksum == Some(Checksum(v, MIGRATIONS[v - 1].name)))
            else now == was
  {
    BackfillRows(db, |MIGRATIONS|);
  }

  /** Backfilling again only goes on where the first left off. */
  lemma BackfillTwice(db: Db, m: nat, n: nat)
    requires m <= |MIGRATIONS| && n <= |MIGRATIONS| && {NameCol, ChecksumCol} <= Columns(db, SchemaMigrationsTable)
    ensures Backfilled(Backfilled(db, m), n) == Backfilled(db, if m < n then n else m)
  {
    BackfillRows(db, m);
    BackfillRows(Backfilled(db, m), n);
    BackfillRows(db, if m < n then n else m);
  }

  lemma SliceOfSlice<T>(s: seq<T>, k: nat, j: nat)
    requires k + j <= |s|
    ensures s[k..][..j] == s[k..k + j]
  {
  }

  lemma StageRecords(k: nat, db: Db)
    requires k <= |MIGRATIONS| && StageFacts(k, db)
    ensures forall v :: v in db.recorded <==> 1 <= v <= k
    ensures forall i :: 0 <= i < |MIGRATIONS| ==> (MIGRATIONS[i].version in db.recorded <==> i < k)
  {
  }

  lemma StageSettled(k: nat)
    requires k <= |MIGRATIONS|
    ensures Stage(k).Some? && Ensured(Stage(k).value) == Stage(k).value && !TooNew(Stage(k).value)
    ensures Missing(Stage(k).value, MIGRATIONS) == MIGRATIONS[k..]
  {
    StageIs(k);
    var db := Stage(k).value;
    StageRecords(k, db);
    MissingAfter(db, MIGRATIONS, k);
  }

  lemma StageLeadsOn(k: nat, j: nat)
    requires k + j <= |MIGRATIONS|
    ensures Stage(k).Some? && Chain(Stage(k).value, MIGRATIONS[k..][..j]) == Stage(k + j)
  {
    ChainFromStage(k, k + j);
    SliceOfSlice(MIGRATIONS, k, j);
  }

  /** From stage `k`, exactly the migrations after `k` are missing, and they lead to the later stages. */
  lemma StageMissing(k: nat)
    requires k <= |MIGRATIONS|
    ensures Stage(k).Some? && Ensured(Stage(k).value) == Stage(k).value && !TooNew(Stage(k).value)
    ensures Missing(Stage(k).value, MIGRATIONS) == MIGRATIONS[k..]
    ensures forall j :: 0 <= j <= |MIGRATIONS| - k ==> Chain(Stage(k).value, MIGRATIONS[k..][..j]) == Stage(k + j)
  {
    StageSettled(k);
    forall j | 0 <= j <= |MIGRATIONS| - k
      ensures Chain(Stage(k).value, MIGRATIONS[k..][..j]) == Stage(k + j)
    {
      StageLeadsOn(k, j);
    }
  }

  lemma BackfilledIsSettled(n: nat)
    requires n <= |MIGRATIONS|
    ensures Stage(4).Some?
    ensures var db := Backfilled(Stage(4).value, n);
            Ensured(db) == db && !TooNew(db) && Missing(db, MIGRATIONS) == []
  {
    StageIs(4);
    var db := Stage(4).value;
    StageRecords(4, db);
    BackfillRows(db, n);
    AllRecorded(Backfilled(db, n), MIGRATIONS);
  }

  /** A partly backfilled last stage has nothing missing, and its backfill goes on to the same end. */
  lemma PartlyBackfilled(n: nat)
    requires n <= |MIGRATIONS|
    ensures Stage(4).Some?
    ensures var db := Backfilled(Stage(4).value, n);
            && Ensured(db) == db && !TooNew(db) && Missing(db, MIGRATIONS) == []
            && Backfilled(db, |MIGRATIONS|) == Finished()
            && forall m :: 0 <= m <= |MIGRATIONS| ==>
                  Backfilled(db, m) == Backfilled(Stage(4).value, if n < m then m else n)
  {
    BackfilledIsSettled(n);
    StageIs(4);
    var db := Stage(4).value;
    forall m | 0 <= m <= |MIGRATIONS|
      ensures Backfilled(Backfilled(db, n), m) == Backfilled(db, if n < m then m else n)
    {
      BackfillTwice(db, n, m);
    }
  }

  lemma {:induction false} AllRecorded(db: Db, ms: seq<Migration>)
    requires forall i :: 0 <= i < |ms| ==> ms[i].version in db.recorded
    ensures Missing(db, ms) == []
  {
    MissingAfter(db, ms, |ms|);
  }

  lemma FailedFromStage(k: nat, before: Db, v: nat, after: Db)
    requires k <= |MIGRATIONS| && Stage(k).Some? && Ensured(before) == Stage(k).value
    requires Attempt(before, Err(MigrationFailed(v)), after)
    ensures exists i: nat :: i <= |MIGRATIONS| && Stage(i) == Some(after)
  {
    StageMissing(k);
    var j :| 0 <= j < |MIGRATIONS[k..]| && Chain(Stage(k).value, MIGRATIONS[k..][..j]) == Some(after);
    assert Stage(k + j) == Some(after);
  }

  lemma SliceToEnd<T>(s: seq<T>, k: nat)
    requires k <= |s|
    ensures s[k..|s|] == s[k..]
  {
  }

  lemma AllFromStage(k: nat)
    requires k <= |MIGRATIONS|
    ensures Stage(k).Some? && Chain(Stage(k).value, MIGRATIONS[k..]) == Stage(4)
  {
    ChainFromStage(k, 4);
    SliceToEnd(MIGRATIONS, k);
  }

  lemma AttemptFromStage(k: nat, before: Db, r: Result<seq<nat>, Failure>, after: Db)
    requires k <= |MIGRATIONS| && Stage(k).Some? && Ensured(before) == Stage(k).value && !TooNew(before)
    requires Reached(before) && Attempt(before, r, after)
    ensures Reached(after) && (r.Ok? ==> after == Finished())
  {
    if r.Err? && r.error.MigrationFailed? {
      FailedFromStage(k, before, r.error.version, after);
    } else {
      StageIs(4);
      StageMissing(k);
      AllFromStage(k);
      assert Stage(k) == Some(Ensured(before));
    }
  }

  lemma AttemptFromBackfill(n: nat, before: Db, r: Result<seq<nat>, Failure>, after: Db)
    requires n <= |MIGRATIONS| && Stage(4).Some? && before == Backfilled(Stage(4).value, n)
    requires Attempt(before, r, after)
    ensures Reached(after)
    ensures r.Ok? ==> after == Finished() && r.value == []
    ensures n == |MIGRATIONS| ==> after == before
  {
    PartlyBackfilled(n);
    assert Chain(before, []) == Some(before);
    if r.Err? && r.error.MigrationFailed? {
      assert false;
    }
  }

  /**
   * Convergence.  Whatever statement it fails at, an attempt on a reachable database leaves
   * a reachable one and never finds it too new; a successful attempt ends in the very
   * database of an uninterrupted run; and on that database a further call changes nothing.
   */
  lemma AttemptConverges(before: Db, r: Result<seq<nat>, Failure>, after: Db)
    requires Reached(before) && Attempt(before, r, after)
    ensures Reached(after) && !TooNew(before)
    ensures r.Ok? ==> after == Finished()
    ensures before == Finished() ==> after == before && (r.Ok? ==> r.value == [])
  {
    StageIs(4);
    if before == Finished() {
      PartlyBackfilled(|MIGRATIONS|);
      AttemptFromBackfill(|MIGRATIONS|, before, r, after);
    } else if before == EMPTY {
      AttemptFromStage(0, before, r, after);
    } else if k: nat :| k <= |MIGRATIONS| && Stage(k) == Some(before) {
      StageMissing(k);
      AttemptFromStage(k, before, r, after);
    } else {
      var n: nat :| n <= |MIGRATIONS| && before == Backfilled(Stage(4).value, n);
      PartlyBackfilled(n);
      AttemptFromBackfill(n, before, r, after);
    }
  }

  /** Any number of attempts from an empty database. */
  lemma {:induction false} EveryAttempt(dbs: seq<Db>, results: seq<Result<seq<nat>, Failure>>)
    requires |dbs| == |results| + 1 && dbs[0] == EMPTY
    requires forall i :: 0 <= i < |results| ==> Attempt(dbs[i], results[i], dbs[i + 1])
    ensures Reached(dbs[|dbs| - 1])
    ensures results != [] && results[|results| - 1].Ok? ==> dbs[|dbs| - 1] == Finished()
  {
    if results != [] {
      var n := |results| - 1;
      EveryAttempt(dbs[..n + 1], results[..n]);
      AttemptConverges(dbs[n], results[n], dbs[n + 1]);
    }
  }

  /** In a reachable database the recorded versions are a prefix, and no migration is half visible. */
  lemma ReachedIsPrefix(db: Db) returns (k: nat)
    requires Reached(db)
    ensures k <= |MIGRATIONS| && forall v :: v in db.recorded <==> 1 <= v <= k
    ensures db == EMPTY || (Stage(k).Some? && db.tables == Stage(k).value.tables
                            && db.indexes == Stage(k).value.indexes && db.metadata == Stage(k).value.metadata)
  {
    StageIs(4);
    k := 0;
    if db != EMPTY {
      if j: nat :| j <= |MIGRATIONS| && Stage(j) == Some(db) {
        k := j;
        StageIs(k);
      } else {
        var n: nat :| n <= |MIGRATIONS| && db == Backfilled(Stage(4).value, n);
        k := 4;
        BackfillRows(Stage(4).value, n);
      }
    }
  }

  /** The finished database holds all four versions ... */
  lemma FinishedVersions()
    ensures forall v :: v in Finished().recorded <==> 1 <= v <= LATEST
  {
    StageIs(4);
    StageRecords(4, Stage(4).value);
    BackfillRows(Stage(4).value, |MIGRATIONS|);
  }

  lemma AuditFilledIn(i: nat)
    requires i < |MIGRATIONS|
    ensures FilledIn(FirstAudit(i + 1), MIGRATIONS[i])
            == Audit(Some(MIGRATIONS[i].name), Some(Checksum(i + 1, MIGRATIONS[i].name)))
  {
  }

  lemma BackfilledRow(db: Db, v: nat)
    requires {NameCol, ChecksumCol} <= Columns(db, SchemaMigrationsTable) && v in db.recorded && 1 <= v <= |MIGRATIONS|
    ensures v in Backfilled(db, |MIGRATIONS|).recorded
    ensures Backfilled(db, |MIGRATIONS|).recorded[v] == FilledIn(db.recorded[v], MIGRATIONS[v - 1])
  {
    BackfillRows(db, |MIGRATIONS|);
  }

  lemma AuditedAs(i: nat)
    requires i < |MIGRATIONS|
    ensures i + 1 in Finished().recorded
    ensures Finished().recorded[i + 1] == Audit(Some(MIGRATIONS[i].name), Some(Checksum(i + 1, MIGRATIONS[i].name)))
  {
    StageIs(4);
    BackfilledRow(Stage(4).value, i + 1);
    AuditFilledIn(i);
  }

  /** ... each with its name and checksum filled in. */
  lemma FinishedIsAudited()
    ensures Finished().recorded == map[
              1 := Audit(Some(DocumentStoreName), Some(Checksum(1, DocumentStoreName))),
              2 := Audit(Some(NormalizedRunProjections), Some(Checksum(2, NormalizedRunProjections))),
              3 := Audit(Some(EventIdempotencyKey), Some(Checksum(3, EventIdempotencyKey))),
              4 := Audit(Some(MigrationAuditMetadata), Some(Checksum(4, MigrationAuditMetadata)))]
  {
    FinishedVersions();
    AuditedAs(0);
    AuditedAs(1);
    AuditedAs(2);
    AuditedAs(3);
  }

  /** So the finished database has exactly these tables and columns, all five indexes, and its version. */
  lemma FinishedSchema()
    ensures forall t: Table :: t in Finished().tables && Finished().tables[t] == ColumnsAt(LATEST, t)
    ensures Finished().indexes == {IdxRunsStatus, IdxRunsProject, IdxStepsStatus, IdxEventsRun, IdxEventsKey}
    ensures Finished().metadata == map[SqliteSchemaVersion := 4]
  {
    StageIs(4);
    StageSchemaIs(4);
    BackfillRows(Stage(4).value, |MIGRATIONS|);
    forall t: Table
      ensures t in Finished().tables && Finished().tables[t] == ColumnsAt(LATEST, t)
    {
      assert Lookup(Stage(4).value.tables, t) == Some(ColumnsAt(4, t));
    }
  }

  /** The finished database passes the verification of its schema. */
  lemma FinishedIsVerified()
    ensures SchemaVerified(Finished())
  {
    FinishedSchema();
    FinishedVersions();
  }

  /** From every reachable database the missing migrations run through, so an attempt that meets no fault succeeds. */
  lemma ReachedRunsThrough(db: Db)
    requires Reached(db)
    ensures !TooNew(db) && Chain(Ensured(db), Missing(Ensured(db), MIGRATIONS)).Some?
  {
    StageIs(4);
    if db == EMPTY {
      StageSettled(0);
      AllFromStage(0);
    } else if k: nat :| k <= |MIGRATIONS| && Stage(k) == Some(db) {
      StageSettled(k);
      AllFromStage(k);
    } else {
      var n: nat :| n <= |MIGRATIONS| && db == Backfilled(Stage(4).value, n);
      PartlyBackfilled(n);
    }
  }

  /** What a call that meets no fault returns on a reachable database. */
  lemma FaultFreeSucceeds(before: Db, r: Result<seq<nat>, Failure>, after: Db)
    requires Reached(before) && Attempt(before, r, after)
    requires FaultFree(before, r)
    ensures r.Ok? && after == Finished()
  {
    ReachedRunsThrough(before);
    AttemptConverges(before, r, after);
  }
}
