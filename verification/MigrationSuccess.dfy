/**
 When a migration gets through, told from the store it starts on
 (scripts/maintenance/migrate_task_result_blobs.py).
 */
module MigrationSuccess {
  import opened Bytes
  import opened TaskResults
  import opened BlobMigration
  import opened AuthorityAudit
  import opened DryRun

  /** An earlier inline row of the run carries the body a blob-backed row is missing. */
  predicate SuppliedBefore(rows: seq<Row>, i: nat)
    requires i < |rows|
  {
    exists j :: 0 <= j < i && !rows[j].ready && rows[j].sha256 == rows[i].contentSha256
                && rows[j].byteSize == rows[i].byteSize
  }

  /**
   Row `i` of a run does not stop it.  An inline row must be convertible and must not meet
   a broken blob under its digest; a blob-backed row must verify, if that is asked for.
   */
  predicate GoesThrough(env: Env, blobs: map<string, Blob>, rows: seq<Row>, i: nat, verify: bool)
    requires i < |rows|
  {
    var row := rows[i];
    if row.ready then
      verify ==>
        && row.contentSha256 == row.sha256 && row.codec == ZLIB
        && if row.contentSha256 in blobs then ReadBlob(env, blobs, row.contentSha256, ExpectedBytes(row.byteSize)).Some?
           else SuppliedBefore(rows, i)
    else
      && VerdictOf(env, row) == Convertible
      && (row.sha256 in blobs ==> ReadBlob(env, blobs, row.sha256, |row.canonical|).Some?)
  }

  ghost predicate AllGoThrough(env: Env, blobs: map<string, Blob>, rows: seq<Row>, verify: bool) {
    forall i :: 0 <= i < |rows| ==> GoesThrough(env, blobs, rows, i, verify)
  }

  lemma {:induction false} DrawnPrefix(db: Db, rows: seq<Row>, k: nat)
    requires DrawnFrom(db, rows) && k <= |rows|
    ensures DrawnFrom(db, rows[..k])
  {
  }

  /** A run treats a row of the selection as it was selected: nothing before it has touched it. */
  lemma RowIsStillThere(env: Env, db: Db, rows: seq<Row>, verify: bool, mid: Db)
    requires rows != [] && DrawnFrom(db, rows)
    requires MigrateRows(env, db, rows[..|rows|-1], verify) == Some(mid)
    ensures var last := rows[|rows|-1]; last.resultId in mid.rows && mid.rows[last.resultId] == last
  {
    var init, last := rows[..|rows|-1], rows[|rows|-1];
    DrawnPrefix(db, rows, |rows| - 1);
    RowsAfterRun(env, db, init, verify);
    assert !WasLegacy(init, last.resultId);
  }

  /** Whether a row stops the run depends on the blobs so far as the definition above says. */
  lemma LastRowGoesThroughIff(env: Env, db: Db, rows: seq<Row>, verify: bool, mid: Db)
    requires SoundHash(env) && rows != [] && DrawnFrom(db, rows)
    requires MigrateRows(env, db, rows[..|rows|-1], verify) == Some(mid)
    ensures MigrateRow(env, mid, rows[|rows|-1], verify).Some? <==> GoesThrough(env, db.blobs, rows, |rows| - 1, verify)
  {
    hide MigrateRows, DrawnFrom;
    var init, last := rows[..|rows|-1], rows[|rows|-1];
    RowIsStillThere(env, db, rows, verify, mid);
    DrawnPrefix(db, rows, |rows| - 1);
    BlobsAfterRun(env, db, init, verify);
    if last.ready {
      ReadyRowIff(env, db, rows, mid);
    } else {
      InlineRowIff(env, db, rows, mid);
      MigrateInlineRow(env, mid, last, verify);
    }
  }

  lemma ReadyRowIff(env: Env, db: Db, rows: seq<Row>, mid: Db)
    requires rows != [] && rows[|rows|-1].ready
    requires BlobsMigrated(db, rows[..|rows|-1], mid)
    requires forall i :: 0 <= i < |rows|-1 && !rows[i].ready ==> BodyStored(env, rows[..|rows|-1][i], mid.blobs)
    ensures var last := rows[|rows|-1];
            ReadBlob(env, mid.blobs, last.contentSha256, ExpectedBytes(last.byteSize)).Some? <==>
            if last.contentSha256 in db.blobs
            then ReadBlob(env, db.blobs, last.contentSha256, ExpectedBytes(last.byteSize)).Some?
            else SuppliedBefore(rows, |rows| - 1)
  {
    var init, last := rows[..|rows|-1], rows[|rows|-1];
    assert forall i :: 0 <= i < |init| ==> init[i] == rows[i];
    if last.contentSha256 !in db.blobs && BringsBlob(init, last.contentSha256) {
      var j :| 0 <= j < |init| && init[j].sha256 == last.contentSha256 && !init[j].ready;
      assert BodyStored(env, init[j], mid.blobs);
      if SuppliedBefore(rows, |rows| - 1) {
        var k :| 0 <= k < |rows| - 1 && !rows[k].ready && rows[k].sha256 == last.contentSha256 && rows[k].byteSize == last.byteSize;
        assert BodyStored(env, init[k], mid.blobs);
      }
    }
  }

  lemma InlineRowIff(env: Env, db: Db, rows: seq<Row>, mid: Db)
    requires SoundHash(env) && rows != []
    requires BlobsMigrated(db, rows[..|rows|-1], mid)
    requires forall i :: 0 <= i < |rows|-1 && !rows[i].ready ==> BodyStored(env, rows[..|rows|-1][i], mid.blobs)
    ensures var last := rows[|rows|-1];
            env.sha(last.canonical) == last.sha256 ==>
              ((last.sha256 in mid.blobs ==> ReadBlob(env, mid.blobs, last.sha256, |last.canonical|).Some?) <==>
               (last.sha256 in db.blobs ==> ReadBlob(env, db.blobs, last.sha256, |last.canonical|).Some?))
  {
    var init, last := rows[..|rows|-1], rows[|rows|-1];
    if env.sha(last.canonical) == last.sha256 && last.sha256 !in db.blobs && BringsBlob(init, last.sha256) {
      var j :| 0 <= j < |init| && init[j].sha256 == last.sha256 && !init[j].ready;
      assert BodyStored(env, init[j], mid.blobs);
    }
  }

  /** An inline row gets through when it is convertible and no broken blob is in its way. */
  lemma MigrateInlineRow(env: Env, db: Db, row: Row, verify: bool)
    requires SoundHash(env) && !row.ready && row.resultId in db.rows && db.rows[row.resultId] == row
    ensures MigrateRow(env, db, row, verify).Some? <==>
            && VerdictOf(env, row) == Convertible
            && (row.sha256 in db.blobs ==> ReadBlob(env, db.blobs, row.sha256, |row.canonical|).Some?)
  {
    if VerdictOf(env, row) == Convertible {
      var read := ReadBlob(env, db.blobs, row.sha256, |row.canonical|);
      assert read.Some? ==> env.sha(read.value) == env.sha(row.canonical);
    }
  }

  /** A run gets through exactly when none of its rows stops it. */
  lemma {:induction false} MigrateRowsSucceedIff(env: Env, db: Db, rows: seq<Row>, verify: bool)
    requires SoundHash(env) && DrawnFrom(db, rows)
    ensures MigrateRows(env, db, rows, verify).Some? <==> AllGoThrough(env, db.blobs, rows, verify)
  {
    hide MigrateRow, GoesThrough;
    if rows != [] {
      var n := |rows| - 1;
      var init := rows[..n];
      DrawnPrefix(db, rows, n);
      MigrateRowsSucceedIff(env, db, init, verify);
      forall i | 0 <= i < n ensures GoesThrough(env, db.blobs, init, i, verify) <==> GoesThrough(env, db.blobs, rows, i, verify) {
        GoesThroughOfPrefix(env, db.blobs, rows, n, i, verify);
      }
      assert rows == init + [rows[n]];
      MigrateRowsAppend(env, db, init, [rows[n]], verify);
      if MigrateRows(env, db, init, verify).Some? {
        var mid := MigrateRows(env, db, init, verify).value;
        LastRowGoesThroughIff(env, db, rows, verify, mid);
        OneRow(env, mid, rows[n], verify);
      }
    }
  }

  lemma OneRow(env: Env, db: Db, row: Row, verify: bool)
    ensures MigrateRows(env, db, [row], verify) == MigrateRow(env, db, row, verify)
  {
    assert [row][1..] == [];
  }

  lemma GoesThroughOfPrefix(env: Env, blobs: map<string, Blob>, rows: seq<Row>, n: nat, i: nat, verify: bool)
    requires i < n <= |rows|
    ensures GoesThrough(env, blobs, rows[..n], i, verify) <==> GoesThrough(env, blobs, rows, i, verify)
  {
    assert forall j :: 0 <= j <= i ==> rows[..n][j] == rows[j];
    assert SuppliedBefore(rows[..n], i) <==> SuppliedBefore(rows, i);
  }

  /** The rows a run selects, limited or not, are drawn from the store. */
  lemma SelectionIsDrawn(db: Db, limit: Option<int>, resume: bool)
    requires ValidDb(db)
    ensures DrawnFrom(db, SelectRows(db, limit, resume))
  {
    PendingIsDrawnFrom(db, db.ids, resume);
    var pending := PendingRows(db, db.ids, resume);
    if limit.Some? && limit.value < |pending| {
      DrawnPrefix(db, pending, if limit.value < 0 then 0 else limit.value);
    }
  }

  /** Any run, limited or not, succeeds exactly when every row it selects goes through. */
  lemma MigrationSucceedsIff(env: Env, db: Db, limit: Option<int>, resume: bool, verify: bool)
    requires SoundHash(env) && ValidDb(db)
    ensures Migrate(env, db, limit, resume, verify).Some? <==>
            AllGoThrough(env, db.blobs, SelectRows(InstallSchema(db), limit, resume), verify)
  {
    hide MigrateRows, SelectRows, AllGoThrough, DrawnFrom;
    var installed := InstallSchema(db);
    SelectionIsDrawn(installed, limit, resume);
    MigrateRowsSucceedIff(env, installed, SelectRows(installed, limit, resume), verify);
  }

  /** An unlimited run succeeds and passes its closing audit exactly on stores that can be told beforehand. */
  lemma MigrationEndsInPassIff(env: Env, db: Db, resume: bool, verify: bool)
    requires SoundHash(env) && ValidDb(db)
    ensures var after := Migrate(env, db, None, resume, verify);
            (after.Some? && Settled(env, after.value)) <==>
            (AllGoThrough(env, db.blobs, SelectRows(InstallSchema(db), None, resume), verify) && Migratable(env, db))
  {
    hide Migrate, AllGoThrough, Migratable, Settled;
    MigrationSucceedsIff(env, db, None, resume, verify);
    if Migrate(env, db, None, resume, verify).Some? {
      MigrationPassesAuditIff(env, db, resume, verify);
    }
  }
}
