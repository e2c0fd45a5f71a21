/**
 Read-only audits of task-result storage: the gate that closes a migration run
 (scripts/maintenance/migrate_task_result_blobs.py) and the counters of
 scripts/maintenance/audit_task_storage_integrity.py.
 */
module AuthorityAudit {
  import opened Bytes
  import opened TaskResults
  import opened BlobMigration

  datatype Audit = Audit(
    parentOrphans: int,
    blobOrphans: int,
    missingBlob: int,
    hashMismatch: int,
    notReady: int,
    invalidAuthority: int)
  {
    predicate Pass() {
      parentOrphans == blobOrphans == missingBlob == hashMismatch == notReady == invalidAuthority == 0
    }
  }

  predicate Referenced(db: Db, digest: string) {
    exists id :: id in db.rows && db.rows[id].ready && db.rows[id].contentSha256 == digest
  }

  function OrphanRows(db: Db): (hits: set<string>)
    ensures hits <= db.rows.Keys
  {
    set id | id in db.rows && db.rows[id].taskId !in db.snapshots
  }

  function OrphanBlobs(db: Db): set<string> {
    set digest | digest in db.blobs && !Referenced(db, digest)
  }

  predicate MissesBlob(db: Db, row: Row) {
    row.ready && (row.contentSha256 == "" || row.contentSha256 !in db.blobs)
  }

  predicate Mismatches(env: Env, db: Db, row: Row) {
    row.ready && (row.contentSha256 != row.sha256 || row.codec != ZLIB || Authority(env, row, db.blobs).None?)
  }

  predicate RowSettled(env: Env, db: Db, row: Row) {
    && row.taskId in db.snapshots && row.ready
    && row.contentSha256 == row.sha256 && row.contentSha256 != "" && row.codec == ZLIB
    && Authority(env, row, db.blobs).Some?
  }

  /** What a PASS verdict means: every result has its parent, its blob and a readable body. */
  ghost predicate Settled(env: Env, db: Db) {
    && (forall id :: id in db.rows ==> RowSettled(env, db, db.rows[id]))
    && (forall digest :: digest in db.blobs ==> Referenced(db, digest))
  }

  function MissingBlobRows(db: Db): (hits: set<string>)
    ensures hits <= db.rows.Keys
  {
    set id | id in db.rows && MissesBlob(db, db.rows[id])
  }

  function MismatchedRows(env: Env, db: Db): (hits: set<string>)
    ensures hits <= db.rows.Keys
  {
    set id | id in db.rows && Mismatches(env, db, db.rows[id])
  }

  function LegacyRows(db: Db): (hits: set<string>)
    ensures hits <= db.rows.Keys
  {
    set id | id in db.rows && !db.rows[id].ready
  }

  /** How many of the first identifiers a scan has counted. */
  function Hits(ids: seq<string>, hit: set<string>): nat {
    if ids == [] then 0 else (if ids[|ids|-1] in hit then 1 else 0) + Hits(ids[..|ids|-1], hit)
  }

  lemma NoHits(hit: set<string>)
    ensures Hits([], hit) == 0
  {
  }

  lemma HitsStep(ids: seq<string>, i: nat, hit: set<string>)
    requires i < |ids|
    ensures Hits(ids[..i+1], hit) == Hits(ids[..i], hit) + if ids[i] in hit then 1 else 0
  {
    assert ids[..i+1][..i] == ids[..i];
  }

  lemma {:induction false} HitsMiss(ids: seq<string>, hit: set<string>, id: string)
    requires id !in ids
    ensures Hits(ids, hit) == Hits(ids, hit - {id})
  {
    if ids != [] {
      HitsMiss(ids[..|ids|-1], hit, id);
    }
  }

  /** A scan of a table in key order counts a set of its keys. */
  lemma {:induction false} HitsIsSize(ids: seq<string>, hit: set<string>)
    requires forall i, j :: 0 <= i < j < |ids| ==> ids[i] != ids[j]
    requires forall id :: id in hit ==> id in ids
    ensures Hits(ids, hit) == |hit|
  {
    if ids == [] {
      assert hit == {};
    } else {
      var last := ids[|ids|-1];
      HitsMiss(ids[..|ids|-1], hit, last);
      assert forall id :: id in ids ==> id == last || id in ids[..|ids|-1];
      HitsIsSize(ids[..|ids|-1], hit - {last});
      assert last in hit ==> hit == hit - {last} + {last};
    }
  }

  method CountOrphanBlobs(db: Db) returns (orphans: nat)
    ensures orphans == |OrphanBlobs(db)|
  {
    orphans := 0;
    var todo := db.blobs.Keys;
    ghost var counted: set<string> := {};
    while todo != {}
      invariant todo <= db.blobs.Keys
      invariant forall digest :: digest in counted <==> digest in OrphanBlobs(db) && digest !in todo
      invariant orphans == |counted|
      decreases todo
    {
      var digest :| digest in todo;
      var orphan := IsOrphanBlob(db, digest);
      if orphan {
        counted := counted + {digest};
        orphans := orphans + 1;
      }
      todo := todo - {digest};
    }
    assert counted == OrphanBlobs(db);
  }

  method IsOrphanBlob(db: Db, digest: string) returns (orphan: bool)
    requires digest in db.blobs
    ensures orphan <==> digest in OrphanBlobs(db)
  {
    orphan := !exists id :: id in db.rows && db.rows[id].ready && db.rows[id].contentSha256 == digest;
  }

  function One(hit: bool): int {
    if hit then 1 else 0
  }

  method TallyRow(env: Env, db: Db, id: string, before: Audit) returns (audit: Audit)
    requires id in db.rows
    ensures audit == Audit(
              before.parentOrphans + One(id in OrphanRows(db)), before.blobOrphans,
              before.missingBlob + One(id in MissingBlobRows(db)),
              before.hashMismatch + One(id in MismatchedRows(env, db)),
              before.notReady + One(id in LegacyRows(db)),
              before.invalidAuthority + One(id in LegacyRows(db)))
  {
    var row := db.rows[id];
    audit := before;
    if row.taskId !in db.snapshots {
      audit := audit.(parentOrphans := audit.parentOrphans + 1);
    }
    if row.ready && (row.contentSha256 == "" || row.contentSha256 !in db.blobs) {
      audit := audit.(missingBlob := audit.missingBlob + 1);
    }
    if !row.ready {
      audit := audit.(notReady := audit.notReady + 1, invalidAuthority := audit.invalidAuthority + 1);
    } else if row.contentSha256 != row.sha256 || row.codec != ZLIB {
      audit := audit.(hashMismatch := audit.hashMismatch + 1);
    } else if Authority(env, row, db.blobs).None? {
      audit := audit.(hashMismatch := audit.hashMismatch + 1);
    }
  }

  ghost predicate Tallied(env: Env, db: Db, ids: seq<string>, audit: Audit) {
    && audit.parentOrphans == Hits(ids, OrphanRows(db))
    && audit.missingBlob == Hits(ids, MissingBlobRows(db))
    && audit.hashMismatch == Hits(ids, MismatchedRows(env, db))
    && audit.notReady == audit.invalidAuthority == Hits(ids, LegacyRows(db))
  }

  method ScanRows(env: Env, db: Db, blobOrphans: int) returns (audit: Audit)
    requires ValidDb(db)
    ensures audit == Audit(|OrphanRows(db)|, blobOrphans, |MissingBlobRows(db)|, |MismatchedRows(env, db)|,
                           |LegacyRows(db)|, |LegacyRows(db)|)
  {
    hide OrphanRows, MissingBlobRows, MismatchedRows, LegacyRows, Hits;
    audit := Audit(0, blobOrphans, 0, 0, 0, 0);
    NoHits(OrphanRows(db));
    NoHits(MissingBlobRows(db));
    NoHits(MismatchedRows(env, db));
    NoHits(LegacyRows(db));
    assert db.ids[..0] == [];
    for i := 0 to |db.ids|
      invariant audit.blobOrphans == blobOrphans
      invariant Tallied(env, db, db.ids[..i], audit)
    {
      HitsStep(db.ids, i, OrphanRows(db));
      HitsStep(db.ids, i, MissingBlobRows(db));
      HitsStep(db.ids, i, MismatchedRows(env, db));
      HitsStep(db.ids, i, LegacyRows(db));
      audit := TallyRow(env, db, db.ids[i], audit);
    }
    assert db.ids[..|db.ids|] == db.ids;
    HitsIsSize(db.ids, OrphanRows(db));
    HitsIsSize(db.ids, MissingBlobRows(db));
    HitsIsSize(db.ids, MismatchedRows(env, db));
    HitsIsSize(db.ids, LegacyRows(db));
  }

  /** The gate at the end of a migration run. */
  method AuditAuthority(env: Env, db: Db) returns (audit: Audit)
    requires ValidDb(db)
    ensures audit == Audit(|OrphanRows(db)|, |OrphanBlobs(db)|, |MissingBlobRows(db)|,
                           |MismatchedRows(env, db)|, |LegacyRows(db)|, |LegacyRows(db)|)
    ensures audit.Pass() <==> Settled(env, db)
  {
    var blobOrphans := CountOrphanBlobs(db);
    audit := ScanRows(env, db, blobOrphans);
    NothingCountedIsSettled(env, db);
  }

  lemma NothingCountedIsSettled(env: Env, db: Db)
    ensures (OrphanRows(db) == {} && OrphanBlobs(db) == {} && MissingBlobRows(db) == {} &&
             MismatchedRows(env, db) == {} && LegacyRows(db) == {}) <==> Settled(env, db)
  {
    if OrphanRows(db) == {} && OrphanBlobs(db) == {} && MissingBlobRows(db) == {} &&
       MismatchedRows(env, db) == {} && LegacyRows(db) == {} {
      forall id | id in db.rows
        ensures RowSettled(env, db, db.rows[id])
      {
        assert id !in OrphanRows(db) && id !in MissingBlobRows(db);
        assert id !in MismatchedRows(env, db) && id !in LegacyRows(db);
      }
      forall digest | digest in db.blobs ensures Referenced(db, digest) {
        assert digest !in OrphanBlobs(db);
      }
    }
    if Settled(env, db) {
      forall id | id in db.rows ensures db.rows[id].contentSha256 in db.blobs {
        assert RowSettled(env, db, db.rows[id]);
      }
    }
  }

  /** Said of the tables: every result has its parent and is backed by the blob of its own digest, and no blob is left over. */
  lemma SettledIff(env: Env, db: Db)
    ensures Settled(env, db) <==>
              && (forall id :: id in db.rows ==>
                    var row := db.rows[id];
                    && row.taskId in db.snapshots && row.ready && row.codec == "zlib"
                    && row.contentSha256 == row.sha256 != "" && row.sha256 in db.blobs && Read(env, db, id).Some?)
              && (forall digest :: digest in db.blobs ==>
                    exists id :: id in db.rows && db.rows[id].ready && db.rows[id].contentSha256 == digest)
  {
    if Settled(env, db) {
      forall id | id in db.rows ensures db.rows[id].sha256 in db.blobs {
        assert RowSettled(env, db, db.rows[id]);
      }
      forall digest | digest in db.blobs
        ensures exists id :: id in db.rows && db.rows[id].ready && db.rows[id].contentSha256 == digest
      {
        assert Referenced(db, digest);
      }
    }
  }

  // ---- The storage integrity audit ----

  datatype StorageCounts = StorageCounts(emptyIds: int, parentOrphans: int, missingBlob: int, hashMismatch: int)

  function UnreadableReadyRows(env: Env, db: Db): (hits: set<string>)
    ensures hits <= db.rows.Keys
  {
    set id | id in db.rows && db.rows[id].ready && Authority(env, db.rows[id], db.blobs).None?
  }

  /** A row without an identifier is reported and then skipped, so it is in no other count. */
  method AuditStorageRow(env: Env, db: Db, id: string, refAuthority: bool, before: StorageCounts)
    returns (counts: StorageCounts)
    requires id in db.rows && db.rows[id].resultId == id
    ensures counts == StorageCounts(
              before.emptyIds + One(id == ""),
              before.parentOrphans + One(id in OrphanRows(db) - {""}),
              before.missingBlob + One(refAuthority && id in LegacyRows(db) - {""}),
              before.hashMismatch + One(id in UnreadableReadyRows(env, db) - {""}))
  {
    var row := db.rows[id];
    counts := before;
    if row.resultId == "" {
      counts := counts.(emptyIds := counts.emptyIds + 1);
      return;
    }
    if row.taskId !in db.snapshots {
      counts := counts.(parentOrphans := counts.parentOrphans + 1);
    }
    if row.ready {
      if Authority(env, row, db.blobs).None? {
        counts := counts.(hashMismatch := counts.hashMismatch + 1);
      }
    } else if refAuthority {
      counts := counts.(missingBlob := counts.missingBlob + 1);
    }
  }

  ghost predicate StorageTallied(env: Env, db: Db, ids: seq<string>, refAuthority: bool, counts: StorageCounts) {
    && counts.emptyIds == Hits(ids, {""})
    && counts.parentOrphans == Hits(ids, OrphanRows(db) - {""})
    && counts.missingBlob == (if refAuthority then Hits(ids, LegacyRows(db) - {""}) else 0)
    && counts.hashMismatch == Hits(ids, UnreadableReadyRows(env, db) - {""})
  }

  method ScanStorage(env: Env, db: Db, refAuthority: bool) returns (counts: StorageCounts)
    requires ValidDb(db)
    ensures counts.parentOrphans == |OrphanRows(db) - {""}|
    ensures counts.missingBlob == if refAuthority then |LegacyRows(db) - {""}| else 0
    ensures counts.hashMismatch == |UnreadableReadyRows(env, db) - {""}|
  {
    hide OrphanRows, LegacyRows, UnreadableReadyRows, Hits;
    counts := StorageCounts(0, 0, 0, 0);
    NoHits({""});
    NoHits(OrphanRows(db) - {""});
    NoHits(LegacyRows(db) - {""});
    NoHits(UnreadableReadyRows(env, db) - {""});
    assert db.ids[..0] == [];
    for i := 0 to |db.ids|
      invariant StorageTallied(env, db, db.ids[..i], refAuthority, counts)
    {
      HitsStep(db.ids, i, {""});
      HitsStep(db.ids, i, OrphanRows(db) - {""});
      HitsStep(db.ids, i, LegacyRows(db) - {""});
      HitsStep(db.ids, i, UnreadableReadyRows(env, db) - {""});
      counts := AuditStorageRow(env, db, db.ids[i], refAuthority, counts);
    }
    assert db.ids[..|db.ids|] == db.ids;
    HitsIsSize(db.ids, OrphanRows(db) - {""});
    HitsIsSize(db.ids, LegacyRows(db) - {""});
    HitsIsSize(db.ids, UnreadableReadyRows(env, db) - {""});
  }

  lemma SizeWithout(s: set<string>, x: string)
    ensures |s - {x}| == |s| - One(x in s)
  {
    assert x in s ==> s == s - {x} + {x};
    assert x !in s ==> s - {x} == s;
  }

  /**
   The second audit of the same tables.  It counts the same orphaned blobs as the
   migration gate, and the same orphaned rows unless one has an empty identifier.
   */
  method AuditStorage(env: Env, db: Db) returns (counts: StorageCounts, blobOrphans: int)
    requires ValidDb(db)
    ensures blobOrphans == |OrphanBlobs(db)|
    ensures counts.parentOrphans == |OrphanRows(db)| - One("" in OrphanRows(db))
    ensures counts.parentOrphans == |OrphanRows(db)| <==> "" !in OrphanRows(db)
    ensures counts.hashMismatch == |UnreadableReadyRows(env, db) - {""}|
    ensures counts.missingBlob ==
            if db.rollout.Some? && db.rollout.value.state == "RESULT_REF_AUTHORITY" then |LegacyRows(db) - {""}| else 0
  {
    var refAuthority := db.rollout.Some? && db.rollout.value.state == "RESULT_REF_AUTHORITY";
    counts := ScanStorage(env, db, refAuthority);
    blobOrphans := CountOrphanBlobs(db);
    SizeWithout(OrphanRows(db), "");
  }

  // ---- What a complete migration leaves ----

  predicate WasLegacy(rows: seq<Row>, id: string) {
    exists i :: 0 <= i < |rows| && rows[i].resultId == id && !rows[i].ready
  }

  predicate BringsBlob(rows: seq<Row>, digest: string) {
    exists i :: 0 <= i < |rows| && rows[i].sha256 == digest && !rows[i].ready
  }

  ghost predicate DrawnFrom(db: Db, rows: seq<Row>) {
    && (forall i :: 0 <= i < |rows| ==> rows[i].resultId in db.rows && db.rows[rows[i].resultId] == rows[i])
    && (forall i, j :: 0 <= i < j < |rows| ==> rows[i].resultId != rows[j].resultId)
  }

  ghost predicate RowsMigrated(db: Db, rows: seq<Row>, next: Db) {
    && next == db.(rows := next.rows, blobs := next.blobs)
    && next.rows.Keys == db.rows.Keys
    && forall id :: id in db.rows ==>
         next.rows[id] == if WasLegacy(rows, id) then MarkReady(db.rows[id]) else db.rows[id]
  }

  ghost predicate BlobsMigrated(db: Db, rows: seq<Row>, next: Db) {
    && (forall d :: d in db.blobs ==> d in next.blobs && next.blobs[d] == db.blobs[d])
    && (forall d :: d in next.blobs <==> d in db.blobs || BringsBlob(rows, d))
  }

  ghost predicate BodyStored(env: Env, row: Row, blobs: map<string, Blob>) {
    && env.sha(row.canonical) == row.sha256
    && env.isObject(row.canonical)
    && |row.canonical| == ExpectedBytes(row.byteSize)
    && ReadBlob(env, blobs, row.sha256, ExpectedBytes(row.byteSize)) == Some(row.canonical)
  }

  lemma MigrateRowEffect(env: Env, db: Db, row: Row, verify: bool)
    requires row.resultId in db.rows && db.rows[row.resultId] == row
    requires MigrateRow(env, db, row, verify).Some?
    ensures var next := MigrateRow(env, db, row, verify).value;
            && next == db.(rows := next.rows, blobs := next.blobs)
            && next.rows == (if row.ready then db.rows else db.rows[row.resultId := MarkReady(row)])
            && (forall d :: d in db.blobs ==> d in next.blobs && next.blobs[d] == db.blobs[d])
            && next.blobs.Keys == db.blobs.Keys + (if row.ready then {} else {row.sha256})
            && (!row.ready ==> BodyStored(env, row, next.blobs))
  {
    if !row.ready {
      EnsureBlobKeepsReads(env, db.blobs, row.canonical, row.createdTime);
    }
  }

  lemma {:induction false} RowsAfterRun(env: Env, db: Db, rows: seq<Row>, verify: bool)
    requires DrawnFrom(db, rows)
    requires MigrateRows(env, db, rows, verify).Some?
    ensures RowsMigrated(db, rows, MigrateRows(env, db, rows, verify).value)
    decreases |rows|
  {
    if rows != [] {
      MigrateRowEffect(env, db, rows[0], verify);
      var mid := MigrateRow(env, db, rows[0], verify).value;
      assert DrawnFrom(mid, rows[1..]);
      RowsAfterRun(env, mid, rows[1..], verify);
      forall id { WasLegacyStep(rows, id); }
      assert rows == [rows[0]] + rows[1..];
    }
  }

  lemma {:induction false} BlobsAfterRun(env: Env, db: Db, rows: seq<Row>, verify: bool)
    requires DrawnFrom(db, rows)
    requires MigrateRows(env, db, rows, verify).Some?
    ensures var next := MigrateRows(env, db, rows, verify).value;
            && BlobsMigrated(db, rows, next)
            && forall i :: 0 <= i < |rows| && !rows[i].ready ==> BodyStored(env, rows[i], next.blobs)
    decreases |rows|
  {
    if rows != [] {
      MigrateRowEffect(env, db, rows[0], verify);
      var mid := MigrateRow(env, db, rows[0], verify).value;
      assert DrawnFrom(mid, rows[1..]);
      BlobsAfterRun(env, mid, rows[1..], verify);
      forall d { BringsBlobStep(rows, d); }
      assert rows == [rows[0]] + rows[1..];
    }
  }

  lemma WasLegacyStep(rows: seq<Row>, id: string)
    requires rows != []
    ensures WasLegacy(rows, id) <==> (rows[0].resultId == id && !rows[0].ready) || WasLegacy(rows[1..], id)
  {
    assert rows == [rows[0]] + rows[1..];
    if WasLegacy(rows[1..], id) {
      var i :| 0 <= i < |rows[1..]| && rows[1..][i].resultId == id && !rows[1..][i].ready;
      assert rows[i+1] == rows[1..][i];
    }
  }

  lemma BringsBlobStep(rows: seq<Row>, digest: string)
    requires rows != []
    ensures BringsBlob(rows, digest) <==> (rows[0].sha256 == digest && !rows[0].ready) || BringsBlob(rows[1..], digest)
  {
    assert rows == [rows[0]] + rows[1..];
    if BringsBlob(rows[1..], digest) {
      var i :| 0 <= i < |rows[1..]| && rows[1..][i].sha256 == digest && !rows[1..][i].ready;
      assert rows[i+1] == rows[1..][i];
    }
  }

  lemma {:induction false} PendingIsDrawnFrom(db: Db, ids: seq<string>, resume: bool)
    requires forall i, j :: 0 <= i < j < |ids| ==> ids[i] != ids[j]
    requires forall id :: id in ids ==> id in db.rows && db.rows[id].resultId == id
    ensures var rows := PendingRows(db, ids, resume);
            && DrawnFrom(db, rows)
            && (forall i :: 0 <= i < |rows| ==> rows[i].resultId in ids)
            && (forall id :: id in ids && !db.rows[id].ready ==> WasLegacy(rows, id))
  {
    if ids != [] {
      PendingIsDrawnFrom(db, ids[1..], resume);
      var rows := PendingRows(db, ids, resume);
      var tail := PendingRows(db, ids[1..], resume);
      if rows != tail {
        assert rows[0] == db.rows[ids[0]] && rows[1..] == tail;
        forall id | id in ids && !db.rows[id].ready ensures WasLegacy(rows, id) {
          WasLegacyStep(rows, id);
        }
      }
    }
  }

  predicate LegacyBrings(db: Db, digest: string) {
    exists id :: id in db.rows && !db.rows[id].ready && db.rows[id].sha256 == digest
  }

  /** The state a complete run reaches, told from the state it started in. */
  ghost predicate FullyMigrated(env: Env, db: Db, next: Db) {
    && next.rows.Keys == db.rows.Keys
    && next.snapshots == db.snapshots
    && (forall id :: id in db.rows ==>
          next.rows[id] == if db.rows[id].ready then db.rows[id] else MarkReady(db.rows[id]))
    && (forall d :: d in db.blobs ==> d in next.blobs && next.blobs[d] == db.blobs[d])
    && (forall d :: d in next.blobs <==> d in db.blobs || LegacyBrings(db, d))
    && (forall id :: id in db.rows && !db.rows[id].ready ==> BodyStored(env, db.rows[id], next.blobs))
  }

  lemma CompleteRunMigratesAll(env: Env, db: Db, resume: bool, verify: bool)
    requires ValidDb(db)
    requires Migrate(env, db, None, resume, verify).Some?
    ensures FullyMigrated(env, db, Migrate(env, db, None, resume, verify).value)
  {
    var installed := InstallSchema(db);
    var rows := SelectRows(installed, None, resume);
    var next := Migrate(env, db, None, resume, verify).value;
    PendingIsDrawnFrom(installed, installed.ids, resume);
    RowsAfterRun(env, installed, rows, verify);
    BlobsAfterRun(env, installed, rows, verify);
    forall id | id in db.rows && !db.rows[id].ready
      ensures WasLegacy(rows, id) && BodyStored(env, db.rows[id], next.blobs)
    {
      assert id in db.ids;
    }
    forall d ensures BringsBlob(rows, d) <==> LegacyBrings(db, d) {
      if LegacyBrings(db, d) {
        var id :| id in db.rows && !db.rows[id].ready && db.rows[id].sha256 == d;
        assert WasLegacy(rows, id);
      }
    }
  }

  /** A blob-backed row whose blob is missing is repaired when a legacy row carries the same body. */
  predicate WillBeRepaired(env: Env, db: Db, row: Row) {
    && row.contentSha256 !in db.blobs
    && row.resultId == env.identity(row.taskId, row.terminalEventType, row.sha256)
    && exists id :: id in db.rows && !db.rows[id].ready &&
                    db.rows[id].sha256 == row.contentSha256 && db.rows[id].byteSize == row.byteSize
  }

  predicate WillBeReferenced(db: Db, digest: string) {
    exists id :: id in db.rows && (if db.rows[id].ready then db.rows[id].contentSha256 else db.rows[id].sha256) == digest
  }

  predicate RowMigratable(env: Env, db: Db, row: Row) {
    && row.taskId in db.snapshots
    && (row.ready ==>
          && row.contentSha256 == row.sha256 && row.contentSha256 != "" && row.codec == ZLIB
          && (Authority(env, row, db.blobs).Some? || WillBeRepaired(env, db, row)))
    && (!row.ready ==> row.resultId == env.identity(row.taskId, row.terminalEventType, row.sha256))
  }

  /** What a store must satisfy beforehand; every clause can be checked before the run. */
  ghost predicate Migratable(env: Env, db: Db) {
    && (forall id :: id in db.rows ==> RowMigratable(env, db, db.rows[id]))
    && (forall digest :: digest in db.blobs ==> WillBeReferenced(db, digest))
  }

  lemma RowSettlesIffMigratable(env: Env, db: Db, next: Db, id: string)
    requires SoundHash(env) && FullyMigrated(env, db, next)
    requires id in db.rows
    ensures RowSettled(env, next, next.rows[id]) <==> RowMigratable(env, db, db.rows[id])
  {
    var row := db.rows[id];
    if !row.ready {
      assert BodyStored(env, row, next.blobs);
    } else if row.contentSha256 == row.sha256 && row.contentSha256 !in db.blobs {
      assert Authority(env, row, db.blobs).None?;
      if LegacyBrings(db, row.contentSha256) {
        var other :| other in db.rows && !db.rows[other].ready && db.rows[other].sha256 == row.contentSha256;
        assert BodyStored(env, db.rows[other], next.blobs);
      }
      if WillBeRepaired(env, db, row) {
        var other :| other in db.rows && !db.rows[other].ready &&
                     db.rows[other].sha256 == row.contentSha256 && db.rows[other].byteSize == row.byteSize;
        assert BodyStored(env, db.rows[other], next.blobs);
      }
    }
  }

  lemma ReferencedAfter(env: Env, db: Db, next: Db, digest: string)
    requires FullyMigrated(env, db, next)
    ensures Referenced(next, digest) <==> WillBeReferenced(db, digest)
    ensures LegacyBrings(db, digest) ==> Referenced(next, digest)
  {
    if WillBeReferenced(db, digest) {
      var id :| id in db.rows &&
                (if db.rows[id].ready then db.rows[id].contentSha256 else db.rows[id].sha256) == digest;
      assert id in next.rows && next.rows[id].ready && next.rows[id].contentSha256 == digest;
    }
    if Referenced(next, digest) {
      var id :| id in next.rows && next.rows[id].ready && next.rows[id].contentSha256 == digest;
      assert id in db.rows;
    }
  }

  /**
   An unlimited run that ends without error passes the closing audit exactly when
   the store was migratable.  The run itself checks neither the parents, nor the
   deterministic identifiers of the rows it converts, nor stray blobs.
   */
  lemma MigrationPassesAuditIff(env: Env, db: Db, resume: bool, verify: bool)
    requires SoundHash(env) && ValidDb(db)
    requires Migrate(env, db, None, resume, verify).Some?
    ensures Settled(env, Migrate(env, db, None, resume, verify).value) <==> Migratable(env, db)
  {
    var next := Migrate(env, db, None, resume, verify).value;
    CompleteRunMigratesAll(env, db, resume, verify);
    forall id | id in db.rows
      ensures RowSettled(env, next, next.rows[id]) <==> RowMigratable(env, db, db.rows[id])
    {
      RowSettlesIffMigratable(env, db, next, id);
    }
    forall digest
      ensures Referenced(next, digest) <==> WillBeReferenced(db, digest)
      ensures LegacyBrings(db, digest) ==> Referenced(next, digest)
    {
      ReferencedAfter(env, db, next, digest);
    }
  }

  /** A store with one inline result, its parent in place, under the given identifier. */
  function OneInlineResult(env: Env, body: Body, id: string): Db {
    Db([id], map[id := Row(id, "task", "FINISHED", body, env.sha(body), |body|, 1, "", "", "", false)],
       map[], map["task" := Snapshot(Terminal, true, "", "")], [], {}, None, None, "", 0, 0)
  }

  /** Under any other than its deterministic identifier the result migrates without an error, and fails the audit. */
  lemma OtherIdentifierMigratesAndFails(env: Env, body: Body, id: string)
    requires SoundHash(env) && body != [] && env.isObject(body)
    requires id != env.identity("task", "FINISHED", env.sha(body))
    ensures var db := OneInlineResult(env, body, id);
            && ValidDb(db) && Migrate(env, db, None, true, true).Some?
            && !Settled(env, Migrate(env, db, None, true, true).value)
  {
    var db := OneInlineResult(env, body, id);
    var installed := InstallSchema(db);
    var row := db.rows[id];
    assert installed.ids[1..] == [] && installed.ids[0] == id;
    assert PendingRows(installed, installed.ids[1..], true) == [];
    assert SelectRows(installed, None, true) == [row];
    assert EnsureBlob(env, map[], body, "").Some?;
    assert MigrateRow(env, installed, row, true).Some?;
    var next := MigrateRow(env, installed, row, true).value;
    assert [row][1..] == [];
    assert MigrateRows(env, next, [row][1..], true) == Some(next);
    assert MigrateRows(env, installed, [row], true) == Some(next);
    assert !RowMigratable(env, db, row);
    MigrationPassesAuditIff(env, db, true, true);
  }
}
