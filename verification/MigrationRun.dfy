/**
 The migration as it runs: batches in transactions on a database connection
 (scripts/maintenance/migrate_task_result_blobs.py).  SQLite may fail at any
 statement; which ones fail is a parameter.
 */
module MigrationRun {
  import opened Bytes
  import opened TaskResults
  import opened BlobMigration
  import opened AuthorityAudit

  /** A connection: what other connections see, and what this one has written since BEGIN. */
  class Connection {
    var committed: Db
    var working: Db

    constructor (db: Db)
      ensures committed == working == db
    {
      committed, working := db, db;
    }

    method Begin()
      modifies this`working
      ensures working == committed
    {
      working := committed;
    }

    method Commit()
      modifies this`committed
      ensures committed == working
    {
      committed := working;
    }

    method Rollback()
      modifies this`working
      ensures working == committed
    {
      working := committed;
    }
  }

  class Metrics {
    var hashMismatch: int
    var failed: int
    var verified: int
    var written: int

    constructor ()
      ensures hashMismatch == failed == verified == written == 0
    {
      hashMismatch, failed, verified, written := 0, 0, 0, 0;
    }
  }

  datatype Outcome = Done | Failed

  /** What fails: installing the schema, the UPDATE of the rows named, the commit of the batches numbered. */
  datatype Faults = Faults(schema: bool, rows: set<string>, commits: set<nat>)

  /** No UPDATE that migrating these rows executes fails. */
  predicate Executes(failing: set<string>, rows: seq<Row>) {
    forall i :: 0 <= i < |rows| && !rows[i].ready ==> rows[i].resultId !in failing
  }

  /** The row reaches its digest check and fails it. */
  predicate Mismatches(env: Env, row: Row) {
    !row.ready && (env.sha(row.canonical) != row.sha256 || row.canonical == [] || row.byteSize != |row.canonical|)
  }

  function LegacyCount(rows: seq<Row>): int {
    |OnlyLegacy(rows)|
  }

  lemma LegacyCountStep(rows: seq<Row>, i: nat)
    requires i < |rows|
    ensures LegacyCount(rows[..i+1]) == LegacyCount(rows[..i]) + if rows[i].ready then 0 else 1
    decreases i
  {
    if i == 0 {
      assert rows[..1][1..] == [] && rows[..0] == [];
    } else {
      assert rows[..i+1][1..] == rows[1..][..i] && rows[..i][1..] == rows[1..][..i-1];
      LegacyCountStep(rows[1..], i - 1);
    }
  }

  /** One row inside the open transaction; the working copy may hold a stray blob when the row failed. */
  method ApplyRow(env: Env, conn: Connection, row: Row, metrics: Metrics, verify: bool, failing: set<string>)
    returns (outcome: Outcome)
    modifies conn`working, metrics
    ensures outcome.Done? <==> MigrateRow(env, old(conn.working), row, verify).Some? && Executes(failing, [row])
    ensures outcome.Done? ==>
              && MigrateRow(env, old(conn.working), row, verify) == Some(conn.working)
              && metrics.failed == old(metrics.failed) && metrics.hashMismatch == old(metrics.hashMismatch)
              && metrics.written == old(metrics.written) + (if row.ready then 0 else 1)
              && metrics.verified == old(metrics.verified) + (if row.ready && !verify then 0 else 1)
    ensures outcome.Failed? ==>
              && metrics.hashMismatch == old(metrics.hashMismatch) + (if Mismatches(env, row) then 1 else 0)
              && metrics.failed == old(metrics.failed) + (if Mismatches(env, row) then 0 else 1)
              && metrics.written == old(metrics.written)
  {
    assert [row][0] == row;
    if row.ready {
      if verify {
        if !VerifiesExisting(env, conn.working.blobs, row) {
          metrics.failed := metrics.failed + 1;
          return Failed;
        }
        metrics.verified := metrics.verified + 1;
      }
      return Done;
    }
    var digest := env.sha(row.canonical);
    if digest != row.sha256 || |row.canonical| != ExpectedBytes(row.byteSize) {
      metrics.hashMismatch := metrics.hashMismatch + 1;
      return Failed;
    }
    if !env.isObject(row.canonical) {
      metrics.failed := metrics.failed + 1;
      return Failed;
    }
    var stored := EnsureBlob(env, conn.working.blobs, row.canonical, row.createdTime);
    if stored.None? {
      metrics.failed := metrics.failed + 1;
      return Failed;
    }
    conn.working := conn.working.(blobs := stored.value);
    if row.resultId in failing {
      metrics.failed := metrics.failed + 1;
      return Failed;
    }
    if row.resultId in conn.working.rows && !conn.working.rows[row.resultId].ready {
      var updated := UpdateRow(conn.working, row.resultId, conn.working.rows[row.resultId].(
        contentSha256 := digest, codec := ZLIB, ready := true));
      if updated.None? {
        metrics.failed := metrics.failed + 1;
        return Failed;
      }
      conn.working := updated.value;
    }
    metrics.verified := metrics.verified + 1;
    // The second reading, made if `verify`, never fails: the blob just ensured reads back.
    assert ReadBlob(env, conn.working.blobs, digest, |row.canonical|).Some?;
    metrics.written := metrics.written + 1;
    return Done;
  }

  /** All of the batch or none of it. */
  method ApplyBatch(env: Env, conn: Connection, rows: seq<Row>, metrics: Metrics, verify: bool,
                    failing: set<string>, commitFails: bool)
    returns (outcome: Outcome)
    modifies conn, metrics
    ensures outcome.Done? <==>
              MigrateRows(env, old(conn.committed), rows, verify).Some? && Executes(failing, rows) && !commitFails
    ensures outcome.Done? ==>
              && MigrateRows(env, old(conn.committed), rows, verify) == Some(conn.committed)
              && metrics.failed == old(metrics.failed) && metrics.hashMismatch == old(metrics.hashMismatch)
              && metrics.written == old(metrics.written) + LegacyCount(rows)
    ensures outcome.Failed? ==> conn.committed == old(conn.committed)
    ensures conn.working == conn.committed
  {
    conn.Begin();
    ghost var start := conn.committed;
    var firstError := false;
    for i := 0 to |rows|
      invariant conn.committed == start
      invariant !firstError ==>
                  && MigrateRows(env, start, rows[..i], verify) == Some(conn.working)
                  && metrics.failed == old(metrics.failed) && metrics.hashMismatch == old(metrics.hashMismatch)
                  && metrics.written == old(metrics.written) + LegacyCount(rows[..i])
      invariant firstError <==> MigrateRows(env, start, rows[..i], verify).None? || !Executes(failing, rows[..i])
    {
      assert rows[..i+1] == rows[..i] + [rows[i]];
      ExecutesAppend(failing, rows[..i], [rows[i]]);
      MigrateRowsAppend(env, start, rows[..i], [rows[i]], verify);
      LegacyCountStep(rows, i);
      ghost var before := conn.working;
      var rowOutcome := ApplyRow(env, conn, rows[i], metrics, verify, failing);
      MigrateOne(env, before, rows[i], verify);
      firstError := firstError || rowOutcome.Failed?;
    }
    assert rows[..|rows|] == rows;
    if firstError || commitFails {
      conn.Rollback();
      return Failed;
    }
    conn.Commit();
    return Done;
  }

  lemma ExecutesAppend(failing: set<string>, xs: seq<Row>, ys: seq<Row>)
    ensures Executes(failing, xs + ys) <==> Executes(failing, xs) && Executes(failing, ys)
  {
    assert forall i :: 0 <= i < |ys| ==> (xs + ys)[|xs| + i] == ys[i];
    assert forall i :: 0 <= i < |xs| ==> (xs + ys)[i] == xs[i];
  }

  lemma MigrateOne(env: Env, db: Db, row: Row, verify: bool)
    ensures MigrateRows(env, db, [row], verify) == MigrateRow(env, db, row, verify)
  {
    match MigrateRow(env, db, row, verify)
    case None =>
    case Some(next) => assert MigrateRows(env, next, [row][1..], verify) == Some(next);
  }

  datatype Report = Report(outcome: Outcome, processed: nat, audit: Option<Audit>)

  lemma OneMoreBatch(batches: nat, size: nat)
    ensures (batches + 1) * size == batches * size + size
  {
  }

  lemma LaterBatches(batches: nat, b: nat, size: nat)
    requires batches <= b
    ensures batches * size <= b * size
  {
  }

  /** No batch that `n` rows make up fails to commit. */
  predicate Commits(failing: set<nat>, n: nat, size: nat) {
    forall b :: b in failing ==> b * size >= n
  }

  /** The rows of a batch that starts at `lo`. */
  function BatchAt(rows: seq<Row>, lo: nat, size: nat): seq<Row>
    requires lo <= |rows|
  {
    if lo + size <= |rows| then rows[lo..lo+size] else rows[lo..]
  }

  /** What stops a run: a row of the next batch, one of its statements or its commit. */
  predicate Stops(env: Env, db: Db, batch: seq<Row>, verify: bool, faults: Faults, number: nat) {
    MigrateRows(env, db, batch, verify).None? || !Executes(faults.rows, batch) || number in faults.commits
  }

  lemma AllCommitted(failing: set<nat>, n: nat, size: nat, batches: nat)
    requires forall b :: 0 <= b < batches ==> b !in failing
    requires batches * size >= n
    ensures Commits(failing, n, size)
  {
    forall b | b in failing ensures b * size >= n {
      LaterBatches(batches, b, size);
    }
  }

  /** A batch that does not go through keeps the run from going through. */
  lemma StoppedRun(env: Env, db: Db, rows: seq<Row>, lo: nat, size: nat, verify: bool, faults: Faults, number: nat)
    requires lo < |rows| && lo == number * size && MigrateRows(env, db, rows[..lo], verify).Some?
    requires Stops(env, MigrateRows(env, db, rows[..lo], verify).value, BatchAt(rows, lo, size), verify, faults, number)
    ensures MigrateRows(env, db, rows, verify).None? || !Executes(faults.rows, rows) || !Commits(faults.commits, |rows|, size)
  {
    hide MigrateRows;
    var hi := if lo + size <= |rows| then lo + size else |rows|;
    assert rows[..hi] + rows[hi..] == rows && rows[..lo] + rows[lo..hi] == rows[..hi];
    assert BatchAt(rows, lo, size) == rows[lo..hi];
    BatchStep(env, db, rows, lo, hi, verify);
    MigrateRowsAppend(env, db, rows[..hi], rows[hi..], verify);
    ExecutesAppend(faults.rows, rows[..hi], rows[hi..]);
    ExecutesAppend(faults.rows, rows[..lo], rows[lo..hi]);
  }

  /**
   The batching loop.  It gets through exactly when no row, statement or commit fails;
   when it stops early, `batches` whole batches are committed and the next one cannot be.
   */
  method ApplyBatches(env: Env, conn: Connection, rows: seq<Row>, size: nat, metrics: Metrics, verify: bool, faults: Faults)
    returns (outcome: Outcome, processed: nat, ghost batches: nat)
    requires size > 0
    modifies conn, metrics
    ensures processed <= |rows|
    ensures MigrateRows(env, old(conn.committed), rows[..processed], verify) == Some(conn.committed)
    ensures outcome.Done? <==>
              && MigrateRows(env, old(conn.committed), rows, verify).Some?
              && Executes(faults.rows, rows) && Commits(faults.commits, |rows|, size)
    ensures outcome.Done? ==>
              processed == |rows| && metrics.written == old(metrics.written) + LegacyCount(rows)
    ensures outcome.Failed? ==>
              && processed == batches * size < |rows|
              && Stops(env, conn.committed, BatchAt(rows, processed, size), verify, faults, batches)
  {
    hide MigrateRows, OnlyLegacy, Executes, Commits;
    ghost var start := conn.committed;
    processed, batches := 0, 0;
    var batch: seq<Row> := [];
    var number := 0;
    NothingMigrated(env, start, rows, verify);
    assert Executes(faults.rows, rows[..0]) by { NothingExecuted(faults.rows, rows); }
    for i := 0 to |rows|
      invariant processed <= i && batch == rows[processed..i] && |batch| < size
      invariant processed == batches * size && number == batches
      invariant metrics.written == old(metrics.written) + LegacyCount(rows[..processed])
      invariant MigrateRows(env, start, rows[..processed], verify) == Some(conn.committed)
      invariant Executes(faults.rows, rows[..processed]) && forall b :: 0 <= b < batches ==> b !in faults.commits
    {
      batch := batch + [rows[i]];
      assert batch == rows[processed..i+1];
      if |batch| >= size {
        assert batch == BatchAt(rows, processed, size);
        BatchStep(env, start, rows, processed, i + 1, verify);
        outcome := ApplyBatch(env, conn, batch, metrics, verify, faults.rows, number in faults.commits);
        if outcome.Failed? {
          StoppedRun(env, start, rows, processed, size, verify, faults, batches);
          return;
        }
        assert rows[..i+1] == rows[..processed] + batch;
        ExecutesAppend(faults.rows, rows[..processed], batch);
        OneMoreBatch(batches, size);
        processed, batches, number := processed + |batch|, batches + 1, number + 1;
        batch := [];
      }
    }
    assert rows[..|rows|] == rows;
    if batch != [] {
      assert batch == BatchAt(rows, processed, size);
      BatchStep(env, start, rows, processed, |rows|, verify);
      outcome := ApplyBatch(env, conn, batch, metrics, verify, faults.rows, number in faults.commits);
      if outcome.Failed? {
        StoppedRun(env, start, rows, processed, size, verify, faults, batches);
        return;
      }
      assert rows == rows[..processed] + batch;
      ExecutesAppend(faults.rows, rows[..processed], batch);
      OneMoreBatch(batches, size);
      processed, batches := processed + |batch|, batches + 1;
    }
    AllCommitted(faults.commits, |rows|, size, batches);
    outcome := Done;
  }

  lemma NothingExecuted(failing: set<string>, rows: seq<Row>)
    ensures Executes(failing, rows[..0])
  {
  }

  lemma NothingMigrated(env: Env, db: Db, rows: seq<Row>, verify: bool)
    ensures rows[..0] == [] && MigrateRows(env, db, rows[..0], verify) == Some(db) && LegacyCount(rows[..0]) == 0
  {
  }

  function BatchSize(batchSize: int): nat {
    if batchSize < 1 then 1 else batchSize
  }

  /**
   The apply mode.  A run ends in success exactly when the specified migration succeeds
   and no statement or commit fails; then it has migrated every selected row, whatever the
   batch size, and its audit verdict means that the store is settled.  A run that stops
   has installed the schema and committed whole batches only, up to one that cannot be.
   */
  method MigrateDatabase(env: Env, conn: Connection, limit: Option<int>, batchSize: int, verify: bool, resume: bool,
                         metrics: Metrics, faults: Faults)
    returns (report: Report, ghost batches: nat)
    requires ValidDb(conn.committed)
    requires metrics.written == 0
    modifies conn, metrics
    ensures var rows := SelectRows(InstallSchema(old(conn.committed)), limit, resume);
            report.outcome.Done? <==>
              && !faults.schema && Migrate(env, old(conn.committed), limit, resume, verify).Some?
              && Executes(faults.rows, rows) && Commits(faults.commits, |rows|, BatchSize(batchSize))
    ensures report.outcome.Done? ==>
              && Migrate(env, old(conn.committed), limit, resume, verify) == Some(conn.committed)
              && metrics.written == LegacyCount(SelectRows(InstallSchema(old(conn.committed)), limit, resume))
              && report.processed == |SelectRows(InstallSchema(old(conn.committed)), limit, resume)|
              && report.audit.Some? && (report.audit.value.Pass() <==> Settled(env, conn.committed))
    ensures report.outcome.Failed? && faults.schema ==> conn.committed == old(conn.committed)
    ensures report.outcome.Failed? && !faults.schema ==>
              var installed, size := InstallSchema(old(conn.committed)), BatchSize(batchSize);
              var rows := SelectRows(installed, limit, resume);
              && report.processed == batches * size < |rows|
              && MigrateRows(env, installed, rows[..report.processed], verify) == Some(conn.committed)
              && Stops(env, conn.committed, BatchAt(rows, report.processed, size), verify, faults, batches)
  {
    hide MigrateRows, Executes, Commits, Stops, BatchAt;
    batches := 0;
    if faults.schema {
      return Report(Failed, 0, None), batches;
    }
    conn.Begin();
    conn.working := InstallSchema(conn.working);
    conn.Commit();
    ghost var installed := conn.committed;
    var rows := SelectRows(conn.committed, limit, resume);
    var outcome, processed;
    outcome, processed, batches := ApplyBatches(env, conn, rows, BatchSize(batchSize), metrics, verify, faults);
    if outcome.Failed? {
      return Report(Failed, processed, None), batches;
    }
    assert rows[..processed] == rows;
    MigrateRowsAreValid(env, installed, rows, verify);
    var audit := AuditAuthority(env, conn.committed);
    return Report(Done, processed, Some(audit)), batches;
  }

  lemma BatchStep(env: Env, db: Db, rows: seq<Row>, lo: nat, hi: nat, verify: bool)
    requires lo <= hi <= |rows|
    requires MigrateRows(env, db, rows[..lo], verify).Some?
    ensures MigrateRows(env, db, rows[..hi], verify) ==
            MigrateRows(env, MigrateRows(env, db, rows[..lo], verify).value, rows[lo..hi], verify)
    ensures LegacyCount(rows[..hi]) == LegacyCount(rows[..lo]) + LegacyCount(rows[lo..hi])
  {
    assert rows[..hi] == rows[..lo] + rows[lo..hi];
    MigrateRowsAppend(env, db, rows[..lo], rows[lo..hi], verify);
    LegacyAppend(rows[..lo], rows[lo..hi]);
  }

  lemma {:induction false} LegacyAppend(xs: seq<Row>, ys: seq<Row>)
    ensures OnlyLegacy(xs + ys) == OnlyLegacy(xs) + OnlyLegacy(ys)
  {
    if xs == [] {
      assert xs + ys == ys;
    } else {
      assert (xs + ys)[1..] == xs[1..] + ys;
      LegacyAppend(xs[1..], ys);
    }
  }

  lemma {:induction false} MigrateRowsAreValid(env: Env, db: Db, rows: seq<Row>, verify: bool)
    requires ValidDb(db) && db.trigger.Some?
    requires MigrateRows(env, db, rows, verify).Some?
    ensures ValidDb(MigrateRows(env, db, rows, verify).value)
    decreases |rows|
  {
    if rows != [] {
      MigrateRowsAreValid(env, MigrateRow(env, db, rows[0], verify).value, rows[1..], verify);
    }
  }
}
