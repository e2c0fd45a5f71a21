/**
 Migration of inline result bodies into shared compressed blobs
 (scripts/maintenance/migrate_task_result_blobs.py).
 */
module BlobMigration {
  import opened Bytes
  import opened TaskResults

  const IMMUTABLE_TRIGGER := "CREATE TRIGGER trg_task_results_immutable"

  function InstallSchema(db: Db): Db {
    db.(trigger := Some(IMMUTABLE_TRIGGER), schemaVersion := db.schemaVersion + 1)
  }

  /** Insert-or-reuse, then decode what the table now holds and compare. */
  function EnsureBlob(env: Env, blobs: map<string, Blob>, body: Body, time: string): Option<map<string, Blob>> {
    var digest := env.sha(body);
    var stored :=
      if digest in blobs then blobs
      else blobs[digest := Blob(ZLIB, Some(body), |body|, time, time)];
    if ReadBlob(env, stored, digest, |body|) == Some(body) then Some(stored) else None
  }

  predicate VerifiesExisting(env: Env, blobs: map<string, Blob>, row: Row) {
    && row.contentSha256 == row.sha256
    && row.codec == ZLIB
    && ReadBlob(env, blobs, row.contentSha256, ExpectedBytes(row.byteSize)).Some?
  }

  /** One row of a batch; None stands for the error recorded for it. */
  function MigrateRow(env: Env, db: Db, row: Row, verify: bool): Option<Db> {
    if row.ready then
      if verify && !VerifiesExisting(env, db.blobs, row) then None else Some(db)
    else if env.sha(row.canonical) != row.sha256 || |row.canonical| != ExpectedBytes(row.byteSize) then None
    else if !env.isObject(row.canonical) then None
    else match EnsureBlob(env, db.blobs, row.canonical, row.createdTime)
      case None => None
      case Some(blobs) =>
        var stored := db.(blobs := blobs);
        if row.resultId in db.rows && !db.rows[row.resultId].ready then
          UpdateRow(stored, row.resultId, db.rows[row.resultId].(
            contentSha256 := row.sha256, codec := ZLIB, ready := true))
        else Some(stored)
  }

  function MigrateRows(env: Env, db: Db, rows: seq<Row>, verify: bool): Option<Db>
    decreases |rows|
  {
    if rows == [] then Some(db)
    else match MigrateRow(env, db, rows[0], verify)
      case None => None
      case Some(next) => MigrateRows(env, next, rows[1..], verify)
  }

  /** The rows a run visits, in primary-key order. */
  function PendingRows(db: Db, ids: seq<string>, resume: bool): seq<Row>
    requires forall id :: id in ids ==> id in db.rows
  {
    if ids == [] then []
    else
      var rest := PendingRows(db, ids[1..], resume);
      if resume && db.rows[ids[0]].ready then rest else [db.rows[ids[0]]] + rest
  }

  function SelectRows(db: Db, limit: Option<int>, resume: bool): seq<Row>
    requires ValidDb(db)
  {
    var pending := PendingRows(db, db.ids, resume);
    match limit
    case None => pending
    case Some(n) =>
      var bound := if n < 0 then 0 else n;
      if bound < |pending| then pending[..bound] else pending
  }

  /** Without resume every row is visited, with it those not yet ready; a limit cuts the list short, a negative one to nothing. */
  lemma Selects(db: Db, limit: Option<int>, resume: bool)
    requires ValidDb(db)
    ensures var all, chosen := SelectRows(db, None, resume), SelectRows(db, limit, resume);
            && (!resume ==> |all| == |db.ids| && forall i :: 0 <= i < |all| ==> all[i] == db.rows[db.ids[i]])
            && (resume ==> all == OnlyLegacy(SelectRows(db, None, false)))
            && (limit.None? ==> chosen == all)
            && (limit.Some? ==> chosen <= all && (limit.value <= 0 ==> chosen == [])
                                && (limit.value > 0 ==> |chosen| == if limit.value < |all| then limit.value else |all|))
  {
    hide OnlyLegacy;
    AllAreVisited(db, db.ids);
    PendingIsLegacyPart(db, db.ids, false);
  }

  lemma {:induction false} AllAreVisited(db: Db, ids: seq<string>)
    requires forall id :: id in ids ==> id in db.rows
    ensures var all := PendingRows(db, ids, false);
            |all| == |ids| && forall i :: 0 <= i < |all| ==> all[i] == db.rows[ids[i]]
  {
    if ids != [] {
      AllAreVisited(db, ids[1..]);
    }
  }

  lemma {:induction false} MigrateRowsAppend(env: Env, db: Db, xs: seq<Row>, ys: seq<Row>, verify: bool)
    ensures MigrateRows(env, db, xs + ys, verify) ==
            match MigrateRows(env, db, xs, verify)
            case None => None
            case Some(mid) => MigrateRows(env, mid, ys, verify)
    decreases |xs|
  {
    if xs == [] {
      assert xs + ys == ys;
    } else {
      assert (xs + ys)[0] == xs[0] && (xs + ys)[1..] == xs[1..] + ys;
      match MigrateRow(env, db, xs[0], verify)
      case None =>
      case Some(next) => MigrateRowsAppend(env, next, xs[1..], ys, verify);
    }
  }

  lemma EnsureBlobKeepsReads(env: Env, blobs: map<string, Blob>, body: Body, time: string)
    requires EnsureBlob(env, blobs, body, time).Some?
    ensures var stored := EnsureBlob(env, blobs, body, time).value;
            && stored.Keys == blobs.Keys + {env.sha(body)}
            && (forall d :: d in blobs ==> stored[d] == blobs[d])
            && ReadBlob(env, stored, env.sha(body), |body|) == Some(body)
  {
  }

  /** Whatever row a batch carries, a migrated row never changes what any readable result reads as. */
  lemma MigrateRowKeepsReads(env: Env, db: Db, row: Row, verify: bool)
    requires SoundHash(env)
    requires db.trigger.Some?
    requires MigrateRow(env, db, row, verify).Some?
    ensures var next := MigrateRow(env, db, row, verify).value;
            && KeepsReads(env, db, next) && ReadyStays(db, next)
            && next == db.(rows := next.rows, blobs := next.blobs)
            && (ValidDb(db) ==> ValidDb(next))
  {
    hide DecodeBlob, EnsureBlob;
    var next := MigrateRow(env, db, row, verify).value;
    if !row.ready {
      EnsureBlobKeepsReads(env, db.blobs, row.canonical, row.createdTime);
      forall id | id in db.rows && Read(env, db, id).Some?
        ensures Read(env, next, id) == Read(env, db, id)
      {
        if next.rows[id] != db.rows[id] {
          AdmittedUpdateKeepsBody(env, db.rows[id], next.rows[id], next.blobs);
        }
      }
    }
  }

  lemma {:induction false} MigrateRowsKeepReads(env: Env, db: Db, rows: seq<Row>, verify: bool)
    requires SoundHash(env)
    requires db.trigger.Some?
    requires MigrateRows(env, db, rows, verify).Some?
    ensures var next := MigrateRows(env, db, rows, verify).value;
            && KeepsReads(env, db, next) && ReadyStays(db, next)
            && next == db.(rows := next.rows, blobs := next.blobs)
            && (ValidDb(db) ==> ValidDb(next))
    decreases |rows|
  {
    if rows != [] {
      MigrateRowKeepsReads(env, db, rows[0], verify);
      MigrateRowsKeepReads(env, MigrateRow(env, db, rows[0], verify).value, rows[1..], verify);
    }
  }

  /** A whole run: install the schema, then every selected row. */
  function Migrate(env: Env, db: Db, limit: Option<int>, resume: bool, verify: bool): Option<Db>
    requires ValidDb(db)
  {
    var installed := InstallSchema(db);
    MigrateRows(env, installed, SelectRows(installed, limit, resume), verify)
  }

  // ---- Interrupted runs ----

  function OnlyLegacy(rows: seq<Row>): seq<Row> {
    if rows == [] then []
    else if rows[0].ready then OnlyLegacy(rows[1..])
    else [rows[0]] + OnlyLegacy(rows[1..])
  }

  lemma {:induction false} PendingIsLegacyPart(db: Db, ids: seq<string>, resume: bool)
    requires forall id :: id in ids ==> id in db.rows
    ensures OnlyLegacy(PendingRows(db, ids, resume)) == PendingRows(db, ids, true)
  {
    if ids != [] {
      PendingIsLegacyPart(db, ids[1..], resume);
    }
  }

  lemma {:induction false} PendingElsewhere(db: Db, ids: seq<string>, id: string, after: Row)
    requires id !in ids
    requires forall i :: i in ids ==> i in db.rows
    ensures PendingRows(db.(rows := db.rows[id := after]), ids, true) == PendingRows(db, ids, true)
  {
    if ids != [] {
      PendingElsewhere(db, ids[1..], id, after);
    }
  }

  /** Marking the first pending row ready leaves exactly the others pending. */
  lemma {:induction false} PendingAdvances(db: Db, ids: seq<string>, row: Row, rest: seq<Row>)
    requires forall i, j :: 0 <= i < j < |ids| ==> ids[i] != ids[j]
    requires forall i :: i in ids ==> i in db.rows && db.rows[i].resultId == i
    requires PendingRows(db, ids, true) == [row] + rest
    ensures row.resultId in db.rows && db.rows[row.resultId] == row && !row.ready
    ensures PendingRows(db.(rows := db.rows[row.resultId := MarkReady(row)]), ids, true) == rest
  {
    var tail := PendingRows(db, ids[1..], true);
    if db.rows[ids[0]].ready {
      PendingAdvances(db, ids[1..], row, rest);
    } else {
      assert ([db.rows[ids[0]]] + tail)[0] == row && ([db.rows[ids[0]]] + tail)[1..] == tail;
      assert ([row] + rest)[1..] == rest;
      PendingElsewhere(db, ids[1..], row.resultId, MarkReady(row));
    }
  }

  lemma PendingAfterRow(env: Env, db: Db, rows: seq<Row>, verify: bool)
    requires ValidDb(db) && rows != []
    requires PendingRows(db, db.ids, true) == OnlyLegacy(rows)
    requires MigrateRow(env, db, rows[0], verify).Some?
    ensures var next := MigrateRow(env, db, rows[0], verify).value;
            && next.ids == db.ids && ValidDb(next)
            && PendingRows(next, next.ids, true) == OnlyLegacy(rows[1..])
  {
    hide EnsureBlob, PendingRows;
    var row := rows[0];
    if !row.ready {
      PendingAdvances(db, db.ids, row, OnlyLegacy(rows[1..]));
      var next := MigrateRow(env, db, row, verify).value;
      PendingSameRows(db.(rows := db.rows[row.resultId := MarkReady(row)]), next, db.ids);
    }
  }

  /** After any prefix of a run, what is still pending is the legacy part of what the run had left. */
  lemma {:induction false} PendingAfterPrefix(env: Env, db: Db, rows: seq<Row>, k: nat, verify: bool)
    requires ValidDb(db)
    requires PendingRows(db, db.ids, true) == OnlyLegacy(rows)
    requires k <= |rows| && MigrateRows(env, db, rows[..k], verify).Some?
    ensures var mid := MigrateRows(env, db, rows[..k], verify).value;
            && mid.ids == db.ids && ValidDb(mid)
            && PendingRows(mid, mid.ids, true) == OnlyLegacy(rows[k..])
    decreases k
  {
    hide MigrateRow, PendingRows, OnlyLegacy, ValidDb;
    if k == 0 {
      assert rows[0..] == rows;
    } else {
      assert rows[..k][0] == rows[0] && rows[..k][1..] == rows[1..][..k-1] && rows[1..][k-1..] == rows[k..];
      PendingAfterRow(env, db, rows, verify);
      PendingAfterPrefix(env, MigrateRow(env, db, rows[0], verify).value, rows[1..], k - 1, verify);
    }
  }

  lemma {:induction false} PendingSameRows(a: Db, b: Db, ids: seq<string>)
    requires a.rows == b.rows
    requires forall id :: id in ids ==> id in a.rows
    ensures PendingRows(a, ids, true) == PendingRows(b, ids, true)
  {
    if ids != [] {
      PendingSameRows(a, b, ids[1..]);
    }
  }

  lemma {:induction false} ReadyRowsAreNoOps(env: Env, db: Db, rows: seq<Row>, verify: bool, verifyAgain: bool)
    requires MigrateRows(env, db, rows, verify).Some?
    ensures MigrateRows(env, db, OnlyLegacy(rows), verifyAgain) == MigrateRows(env, db, rows, verify)
    decreases |rows|
  {
    if rows != [] {
      var next := MigrateRow(env, db, rows[0], verify).value;
      ReadyRowsAreNoOps(env, next, rows[1..], verify, verifyAgain);
      if !rows[0].ready {
        assert ([rows[0]] + OnlyLegacy(rows[1..]))[1..] == OnlyLegacy(rows[1..]);
      }
    }
  }

  lemma {:induction false} SchemaVersionIsInert(env: Env, db: Db, rows: seq<Row>, verify: bool, version: int)
    requires MigrateRows(env, db, rows, verify).Some?
    ensures MigrateRows(env, db.(schemaVersion := version), rows, verify) ==
            Some(MigrateRows(env, db, rows, verify).value.(schemaVersion := version))
    decreases |rows|
  {
    if rows != [] {
      SchemaVersionIsInert(env, MigrateRow(env, db, rows[0], verify).value, rows[1..], verify, version);
    }
  }

  /**
   A run cut short after any number of rows and resumed, with or without
   verification, reaches the store of the uninterrupted run; only the DDL counter
   shows that the schema was installed twice.
   */
  lemma ResumedRunReachesSameStore(env: Env, db: Db, resume: bool, verify: bool, k: nat, verifyAgain: bool)
    requires ValidDb(db)
    requires var installed := InstallSchema(db);
             var rows := SelectRows(installed, None, resume);
             k <= |rows| && MigrateRows(env, installed, rows[..k], verify).Some?
    requires Migrate(env, db, None, resume, verify).Some?
    ensures var installed := InstallSchema(db);
            var cut := MigrateRows(env, installed, SelectRows(installed, None, resume)[..k], verify).value;
            && ValidDb(cut)
            && Migrate(env, cut, None, true, verifyAgain) ==
               Some(Migrate(env, db, None, resume, verify).value.(schemaVersion := db.schemaVersion + 2))
  {
    var installed := InstallSchema(db);
    var rows := SelectRows(installed, None, resume);
    var cut := MigrateRows(env, installed, rows[..k], verify).value;
    PendingIsLegacyPart(installed, installed.ids, resume);
    PendingAfterPrefix(env, installed, rows, k, verify);
    assert rows[..k] + rows[k..] == rows;
    MigrateRowsAppend(env, installed, rows[..k], rows[k..], verify);
    ReadyRowsAreNoOps(env, cut, rows[k..], verify, verifyAgain);
    MigrateRowsFrame(env, installed, rows[..k], verify);
    var again := InstallSchema(cut);
    PendingSameRows(cut, again, cut.ids);
    assert again == cut.(schemaVersion := db.schemaVersion + 2);
    SchemaVersionIsInert(env, cut, OnlyLegacy(rows[k..]), verifyAgain, db.schemaVersion + 2);
  }

  lemma {:induction false} MigrateRowsFrame(env: Env, db: Db, rows: seq<Row>, verify: bool)
    requires MigrateRows(env, db, rows, verify).Some?
    ensures var next := MigrateRows(env, db, rows, verify).value;
            next == db.(rows := next.rows, blobs := next.blobs)
    decreases |rows|
  {
    if rows != [] {
      MigrateRowsFrame(env, MigrateRow(env, db, rows[0], verify).value, rows[1..], verify);
    }
  }

  lemma {:induction false} PendingIsLegacy(db: Db, ids: seq<string>)
    requires forall id :: id in ids ==> id in db.rows
    ensures forall row :: row in PendingRows(db, ids, true) ==> !row.ready
  {
    if ids != [] {
      PendingIsLegacy(db, ids[1..]);
    }
  }

  lemma {:induction false} AllLegacy(rows: seq<Row>)
    requires forall row :: row in rows ==> !row.ready
    ensures OnlyLegacy(rows) == rows
  {
    if rows != [] {
      assert rows == [rows[0]] + rows[1..];
      AllLegacy(rows[1..]);
    }
  }

  function AtMost(rows: seq<Row>, limit: nat): seq<Row> {
    if limit < |rows| then rows[..limit] else rows
  }

  lemma AtMostSplits(rows: seq<Row>, a: nat, b: nat)
    ensures var n := |AtMost(rows, a)|;
            && n <= |rows| && AtMost(rows, a) == rows[..n]
            && AtMost(rows, a + b) == rows[..n] + AtMost(rows[n..], b)
  {
  }

  lemma SelectsAtMost(db: Db, limit: nat)
    requires ValidDb(db)
    ensures SelectRows(db, Some(limit), true) == AtMost(PendingRows(db, db.ids, true), limit)
  {
  }

  /** After a run with a limit, the rows it left are pending, in order. */
  lemma PendingAfterLimit(env: Env, db: Db, verify: bool, k: nat)
    requires ValidDb(db) && k <= |PendingRows(db, db.ids, true)|
    requires MigrateRows(env, db, PendingRows(db, db.ids, true)[..k], verify).Some?
    ensures var cut := MigrateRows(env, db, PendingRows(db, db.ids, true)[..k], verify).value;
            && ValidDb(cut) && cut.ids == db.ids
            && PendingRows(cut, cut.ids, true) == PendingRows(db, db.ids, true)[k..]
  {
    hide MigrateRows, PendingRows;
    var pending := PendingRows(db, db.ids, true);
    PendingIsLegacy(db, db.ids);
    AllLegacy(pending);
    PendingAfterPrefix(env, db, pending, k, verify);
    assert forall row :: row in pending[k..] ==> row in pending;
    AllLegacy(pending[k..]);
  }

  /** What a resumed run with a limit selects after a first one. */
  lemma NextSelection(env: Env, db: Db, verify: bool, first: nat, more: nat)
    requires ValidDb(db)
    requires var installed := InstallSchema(db);
             MigrateRows(env, installed, SelectRows(installed, Some(first), true), verify).Some?
    ensures var installed := InstallSchema(db);
            var chosen := SelectRows(installed, Some(first), true);
            var cut := MigrateRows(env, installed, chosen, verify).value;
            && ValidDb(cut) && ValidDb(InstallSchema(cut))
            && SelectRows(installed, Some(first + more), true) == chosen + SelectRows(InstallSchema(cut), Some(more), true)
            && forall row :: row in SelectRows(InstallSchema(cut), Some(more), true) ==> !row.ready
  {
    hide MigrateRows, SelectRows, PendingRows, AtMost;
    var installed := InstallSchema(db);
    var pending := PendingRows(installed, installed.ids, true);
    var k := |AtMost(pending, first)|;
    SelectsAtMost(installed, first);
    SelectsAtMost(installed, first + more);
    AtMostSplits(pending, first, more);
    PendingAfterLimit(env, installed, verify, k);
    var cut := MigrateRows(env, installed, pending[..k], verify).value;
    var again := InstallSchema(cut);
    PendingSameRows(cut, again, cut.ids);
    SelectsAtMost(again, more);
    PendingIsLegacy(again, again.ids);
    AtMostSplits(pending[k..], more, 0);
    assert forall row :: row in AtMost(pending[k..], more) ==> row in pending[k..];
  }

  /** Two resumed runs with limits reach the store of one with both limits together. */
  lemma LimitedRunsAddUp(env: Env, db: Db, verify: bool, first: nat, more: nat, verifyAgain: bool)
    requires ValidDb(db)
    requires Migrate(env, db, Some(first), true, verify).Some? && Migrate(env, db, Some(first + more), true, verify).Some?
    ensures var cut := Migrate(env, db, Some(first), true, verify).value;
            && ValidDb(cut)
            && Migrate(env, cut, Some(more), true, verifyAgain) ==
               Some(Migrate(env, db, Some(first + more), true, verify).value.(schemaVersion := db.schemaVersion + 2))
  {
    hide MigrateRows, SelectRows;
    NextSelection(env, db, verify, first, more);
    var installed := InstallSchema(db);
    var chosen := SelectRows(installed, Some(first), true);
    var cut := MigrateRows(env, installed, chosen, verify).value;
    var rest := SelectRows(InstallSchema(cut), Some(more), true);
    MigrateRowsAppend(env, installed, chosen, rest, verify);
    AllLegacy(rest);
    ReadyRowsAreNoOps(env, cut, rest, verify, verifyAgain);
    MigrateRowsFrame(env, installed, chosen, verify);
    assert InstallSchema(cut) == cut.(schemaVersion := db.schemaVersion + 2);
    SchemaVersionIsInert(env, cut, rest, verifyAgain, db.schemaVersion + 2);
  }
}
