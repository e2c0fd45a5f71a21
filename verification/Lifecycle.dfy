/**
 Whole lives of a task-result store: any interleaving of schema installs, migration
 batches, ref-only closures, candidate replacements and updates by other writers
 that the immutability trigger admits.
 */
module Lifecycle {
  import opened Bytes
  import opened TaskResults
  import opened BlobMigration
  import opened RefOnlyPlan
  import opened Compaction

  datatype Step =
    | Install
    | Batch(rows: seq<Row>, verify: bool)
    | Closure(items: seq<Candidate>)
    | ReleaseAndReplace
    | ReplaceBy(candidate: Db)
    | Update(id: string, after: Row)

  /** The committed effect of a step; a step whose gates or statements fail leaves the store alone. */
  function Exec(env: Env, db: Db, step: Step): Db {
    match step
    case Install => InstallSchema(db)
    case Batch(rows, verify) =>
      (match MigrateRows(env, db, rows, verify) case None => db case Some(next) => next)
    case Closure(items) =>
      (match CloseTransaction(env, db, items) case None => db case Some(next) => next)
    case ReleaseAndReplace =>
      if Parity(env, db, CandidateOf(db)) then CandidateOf(db) else db
    case ReplaceBy(candidate) =>
      if Logical(candidate) == Logical(db) then candidate else db
    case Update(id, after) =>
      if id in db.rows then
        match UpdateRow(db, id, after) case None => db case Some(next) => next
      else db
  }

  function Run(env: Env, db: Db, steps: seq<Step>): Db
    decreases |steps|
  {
    if steps == [] then db else Run(env, Exec(env, db, steps[0]), steps[1..])
  }

  /** The store implements the plain map `spec` from result identifiers to bodies. */
  ghost predicate Implements(env: Env, db: Db, spec: map<string, Body>) {
    && db.rows.Keys == spec.Keys
    && forall id :: id in spec ==> Read(env, db, id) == Some(spec[id])
  }

  /** An update by another writer may flip a row to blob-backed only once the blob is there. */
  predicate SafeStep(env: Env, db: Db, step: Step) {
    step.Update? && step.id in db.rows && TriggerAdmits(db.rows[step.id], step.after)
                 && step.after.ready && !db.rows[step.id].ready ==>
      var row := db.rows[step.id];
      ReadBlob(env, db.blobs, row.sha256, ExpectedBytes(row.byteSize)).Some?
  }

  predicate SafeRun(env: Env, db: Db, steps: seq<Step>)
    decreases |steps|
  {
    steps == [] || (SafeStep(env, db, steps[0]) && SafeRun(env, Exec(env, db, steps[0]), steps[1..]))
  }

  ghost predicate Guarded(db: Db) {
    ValidDb(db) && db.trigger.Some?
  }

  /** Every step keeps the guard and the table shape, and never unmarks a row. */
  lemma StepKeepsGuard(env: Env, db: Db, step: Step)
    requires SoundHash(env) && Guarded(db)
    ensures var next := Exec(env, db, step);
            Guarded(next) && ReadyStays(db, next) && next.rows.Keys == db.rows.Keys
    ensures !step.Update? ==> KeepsReads(env, db, Exec(env, db, step))
  {
    hide Authority, ReadBlob, MigrateRows, ClearRows, Parity, CandidateOf, CloseTransaction, Logical, TriggerAdmits;
    match step
    case Install =>
    case Batch(rows, verify) =>
      if MigrateRows(env, db, rows, verify).Some? {
        MigrateRowsKeepReads(env, db, rows, verify);
      }
    case Closure(items) =>
      if CloseTransaction(env, db, items).Some? {
        ClosureClearsExactlyThePlan(env, db, items);
      }
    case ReleaseAndReplace =>
      CandidateKeepsGuard(db);
      if Parity(env, db, CandidateOf(db)) {
        ParityKeepsReads(env, db, CandidateOf(db));
      }
    case ReplaceBy(candidate) =>
      if Logical(candidate) == Logical(db) {
        SameLogicalReadsTheSame(env, db, candidate);
        SameLogicalIsValid(db, candidate);
        SameLogicalSameGuard(db, candidate);
      }
    case Update(id, after) =>
      AdmittedUpdateKeepsGuard(db, id, after);
  }

  lemma CandidateKeepsGuard(db: Db)
    requires Guarded(db)
    ensures var next := CandidateOf(db); Guarded(next) && ReadyStays(db, next) && next.rows.Keys == db.rows.Keys
  {
  }

  lemma SameLogicalSameGuard(a: Db, b: Db)
    requires Logical(a) == Logical(b)
    ensures a.trigger == b.trigger
  {
    assert a.trigger == Logical(a).trigger && b.trigger == Logical(b).trigger;
  }

  lemma AdmittedUpdateKeepsGuard(db: Db, id: string, after: Row)
    requires Guarded(db)
    ensures id in db.rows && TriggerAdmits(db.rows[id], after) ==>
              var next := db.(rows := db.rows[id := after]);
              Guarded(next) && ReadyStays(db, next) && next.rows.Keys == db.rows.Keys
  {
  }

  lemma UpdateImplementsIff(env: Env, db: Db, id: string, after: Row, spec: map<string, Body>)
    requires SoundHash(env) && Implements(env, db, spec)
    requires id in db.rows && TriggerAdmits(db.rows[id], after)
    ensures var row := db.rows[id];
            Implements(env, db.(rows := db.rows[id := after]), spec) <==>
            (row.ready == after.ready || ReadBlob(env, db.blobs, row.sha256, ExpectedBytes(row.byteSize)).Some?)
  {
    hide Authority, ReadBlob, TriggerAdmits;
    var next := db.(rows := db.rows[id := after]);
    AdmittedUpdateKeepsBody(env, db.rows[id], after, db.blobs);
    assert Read(env, db, id) == Some(spec[id]);
    assert forall other :: other in spec && other != id ==> Read(env, next, other) == Read(env, db, other);
    assert Read(env, next, id) == Authority(env, after, db.blobs);
  }

  lemma StepImplementsIff(env: Env, db: Db, step: Step, spec: map<string, Body>)
    requires SoundHash(env) && Guarded(db) && Implements(env, db, spec)
    ensures Implements(env, Exec(env, db, step), spec) <==> SafeStep(env, db, step)
  {
    hide Authority, ReadBlob, MigrateRows, CloseTransaction, Parity, CandidateOf, Logical, InstallSchema, ValidDb;
    if !step.Update? {
      StepKeepsGuard(env, db, step);
    } else if step.id in db.rows && TriggerAdmits(db.rows[step.id], step.after) {
      UpdateImplementsIff(env, db, step.id, step.after, spec);
    }
  }

  /**
   Over a whole run from a store whose rows all verify: every result keeps reading
   as its original body at every commit point exactly when every update admitted
   from outside found its blob in place.
   */
  lemma {:induction false} RunImplementsIffSafe(env: Env, db: Db, steps: seq<Step>, spec: map<string, Body>)
    requires SoundHash(env) && Guarded(db) && Implements(env, db, spec)
    ensures (forall k :: 0 <= k <= |steps| ==> Implements(env, Run(env, db, steps[..k]), spec)) <==> SafeRun(env, db, steps)
    decreases |steps|
  {
    hide Implements, SafeStep, Exec, Guarded;
    if steps == [] {
      assert forall k :: 0 <= k <= |steps| ==> steps[..k] == [];
    } else {
      var next := Exec(env, db, steps[0]);
      StepKeepsGuard(env, db, steps[0]);
      StepImplementsIff(env, db, steps[0], spec);
      assert steps[..1][1..] == [];
      assert Run(env, db, steps[..1]) == next;
      forall k | 1 <= k <= |steps|
        ensures Run(env, db, steps[..k]) == Run(env, next, steps[1..][..k-1])
      {
        assert steps[..k][1..] == steps[1..][..k-1];
      }
      if Implements(env, next, spec) {
        RunImplementsIffSafe(env, next, steps[1..], spec);
        if SafeRun(env, db, steps) {
          forall k | 0 <= k <= |steps| ensures Implements(env, Run(env, db, steps[..k]), spec) {
            if k == 0 {
              assert steps[..0] == [];
            } else {
              assert Implements(env, Run(env, next, steps[1..][..k-1]), spec);
            }
          }
        }
        if forall k :: 0 <= k <= |steps| ==> Implements(env, Run(env, db, steps[..k]), spec) {
          forall k | 0 <= k <= |steps[1..]| ensures Implements(env, Run(env, next, steps[1..][..k]), spec) {
            assert Implements(env, Run(env, db, steps[..k+1]), spec);
          }
        }
      }
    }
  }

  /** From the first install on, the update guard is in place at every commit point and no row is unmarked. */
  lemma {:induction false} RunKeepsGuard(env: Env, db: Db, steps: seq<Step>, k: nat)
    requires SoundHash(env) && Guarded(db)
    requires k <= |steps|
    ensures var at := Run(env, db, steps[..k]);
            Guarded(at) && ReadyStays(db, at) && at.rows.Keys == db.rows.Keys
    decreases |steps|
  {
    if k > 0 {
      StepKeepsGuard(env, db, steps[0]);
      assert steps[..k][0] == steps[0] && steps[..k][1..] == steps[1..][..k-1];
      RunKeepsGuard(env, Exec(env, db, steps[0]), steps[1..], k - 1);
    } else {
      assert steps[..0] == [];
    }
  }

  /** A store with one readable inline result and no blobs. */
  function OneLegacyResult(env: Env, body: Body): Db {
    var digest := env.sha(body);
    var id := env.identity("task", "FINISHED", digest);
    Db([id], map[id := Row(id, "task", "FINISHED", body, digest, |body|, 1, "", "", "", false)],
       map[], map[], [], {}, None, Some(IMMUTABLE_TRIGGER), "", 0, 0)
  }

  /** The trigger admits marking that result as blob-backed, and then its body is gone. */
  lemma FlipWithoutBlobLosesBody(env: Env, body: Body)
    requires body != [] && env.isObject(body) && env.sha(body) != ""
    ensures var db := OneLegacyResult(env, body);
            var id := db.ids[0];
            var flip := Update(id, MarkReady(db.rows[id]));
            && Guarded(db) && Read(env, db, id) == Some(body)
            && !SafeStep(env, db, flip)
            && Exec(env, db, flip) != db && Read(env, Exec(env, db, flip), id) == None
  {
    var db := OneLegacyResult(env, body);
    var id := db.ids[0];
    assert TriggerAdmits(db.rows[id], MarkReady(db.rows[id]));
  }

  // ---- Where a store is brought ----

  lemma {:induction false} NothingPendingIsReady(db: Db, ids: seq<string>)
    requires forall id :: id in ids ==> id in db.rows
    requires PendingRows(db, ids, true) == []
    ensures forall id :: id in ids ==> db.rows[id].ready
  {
    if ids != [] {
      NothingPendingIsReady(db, ids[1..]);
      assert ids == [ids[0]] + ids[1..];
    }
  }

  /** The rows a resumed run visits. */
  function AllPending(db: Db): seq<Row>
    requires ValidDb(db)
  {
    SelectRows(db, None, true)
  }

  /** Once the schema is in and all that is pending has been migrated, every result is blob-backed and still reads the same. */
  lemma MigratedByTwoSteps(env: Env, db: Db, verify: bool)
    requires SoundHash(env) && ValidDb(db) && Migrate(env, db, None, true, verify).Some?
    ensures var installed := Exec(env, db, Install);
            ValidDb(installed) &&
            var done := Exec(env, installed, Batch(AllPending(installed), verify));
            && Guarded(done) && KeepsReads(env, db, done)
            && forall id :: id in done.rows ==> done.rows[id].ready
  {
    hide MigrateRow, MigrateRows, PendingRows, Authority, OnlyLegacy;
    var installed := Exec(env, db, Install);
    assert installed.rows == db.rows && installed.ids == db.ids && installed.blobs == db.blobs;
    var rows := AllPending(installed);
    PendingIsLegacy(installed, installed.ids);
    AllLegacy(rows);
    assert rows[..|rows|] == rows && rows[|rows|..] == [];
    PendingAfterPrefix(env, installed, rows, |rows|, verify);
    var done := Exec(env, installed, Batch(rows, verify));
    MigrateRowsKeepReads(env, installed, rows, verify);
    assert OnlyLegacy([]) == [] by { NoLegacy(); }
    NothingPendingIsReady(done, done.ids);
    assert KeepsReads(env, db, installed) by { SameRowsSameReads(env, db, installed); }
  }

  lemma NoLegacy()
    ensures OnlyLegacy([]) == []
  {
  }

  lemma SameRowsSameReads(env: Env, a: Db, b: Db)
    requires a.rows == b.rows && a.blobs == b.blobs
    ensures KeepsReads(env, a, b)
  {
  }

  /** From there the plan of a preview leaves no inline copy beside a blob. */
  lemma ReleasedByClosure(env: Env, db: Db)
    requires SoundHash(env) && Guarded(db) && Collect(env, db).Some?
    ensures var next := Exec(env, db, Closure(Collect(env, db).value.candidates));
            NothingDual(next) && KeepsReads(env, db, next) && next.schemaVersion == db.schemaVersion + 2
  {
    hide Collect, CloseTransaction, Authority, AlreadyApplied, PostCheck, RowsInOrder, DualBytes, BytesOf;
    AppliedPlanIsRecognised(env, db);
    ClosureClearsExactlyThePlan(env, db, Collect(env, db).value.candidates);
  }

  /** So does the replacement by a candidate once every result verifies. */
  lemma ReleasedByReplacement(env: Env, db: Db)
    requires SoundHash(env) && Guarded(db)
    requires forall id :: id in db.rows ==> Read(env, db, id).Some?
    ensures var next := Exec(env, db, ReleaseAndReplace);
            NothingDual(next) && KeepsReads(env, db, next) && next.schemaVersion == db.schemaVersion + 1
  {
    hide Parity, Authority;
    CandidateHasParityIff(env, db);
    ParityKeepsReads(env, db, CandidateOf(db));
  }

  ghost predicate NothingDual(db: Db) {
    forall id :: id in db.rows && db.rows[id].ready ==> db.rows[id].canonical == []
  }

  /** A candidate of the same logical content takes the store's place, and one of any other does not. */
  lemma ReplacedIff(env: Env, db: Db, candidate: Db)
    ensures Exec(env, db, ReplaceBy(candidate)) ==
            if candidate.(schemaVersion := 0) == db.(schemaVersion := 0) then candidate else db
  {
  }
}
