/**
 Replacing `tasks.db` by a compacted candidate: the production protocol with its
 external backup (scripts/maintenance/compact_task_result_production.py) and the
 development tool that also releases inline copies
 (scripts/maintenance/compact_task_result_storage.py).
 */
module Compaction {
  import opened Bytes
  import opened TaskResults
  import opened BlobMigration
  import opened RefOnlyPlan
  import opened DatabaseFiles

  /** The contract two snapshots are compared by; SQLite's DDL counter is not part of it. */
  function Logical(db: Db): Db {
    db.(schemaVersion := 0)
  }

  function PhysicalBytes(file: DatabaseFile): nat
    reads file
  {
    file.image.bytes + file.wal + file.shm
  }

  /** The storage audit, the integrity check and the row digests all have to succeed. */
  predicate Sound(env: Env, audit: Db -> bool, db: Db) {
    audit(db) && forall id :: id in db.rows ==> Read(env, db, id).Some?
  }

  lemma SameLogicalReadsTheSame(env: Env, a: Db, b: Db)
    requires Logical(a) == Logical(b)
    ensures KeepsReads(env, a, b) && KeepsReads(env, b, a) && ReadyStays(a, b)
  {
    assert a.rows == Logical(a).rows == b.rows && a.blobs == Logical(a).blobs == b.blobs;
  }

  datatype Result =
    | Compacted(before: int, after: int)
    | Skipped
    | Refused
    | Restored
    | RestoreFailed

  /** Exactly when the production protocol puts its candidate in the file's place. */
  predicate Switches(env: Env, audit: Db -> bool, plan: FileState, recommended: bool, vacuumed: Image, script: Script,
                     state: Option<FileState>, before: nat) {
    && recommended && state == Some(plan) && Sound(env, audit, plan.digest.db)
    && BeforeBackup !in script.moves && AfterBackup !in script.moves
    && script.faults !! {BackupStage, LockStage, ReplaceStage}
    && Sound(env, audit, vacuumed.db) && Logical(vacuumed.db) == Logical(plan.digest.db) && vacuumed.bytes < before
    && WalAfter(script, BeforeBegin, 0) == 0
  }

  /** Exactly when what is then there passes the checks. */
  predicate PassesAfter(env: Env, audit: Db -> bool, plan: FileState, vacuumed: Image, script: Script) {
    var after := After(script, AfterWrite, vacuumed).db;
    && CheckStage !in script.faults && WalAfter(script, AfterWrite, 0) == 0
    && Sound(env, audit, after) && Logical(after) == Logical(plan.digest.db)
  }

  /** The restore, too, stops at a write-ahead log with pages in it. */
  predicate CanRestore(script: Script) {
    RestoreStage !in script.faults && WalAfter(script, BeforeRestore, WalAfter(script, AfterWrite, 0)) == 0
  }

  /**
   Every way out of the production protocol, whatever a foreign writer does in any
   window.  Compacted: the file has the planned logical content, and what replaced it
   was strictly smaller than the file with its sidecars.  Restored: it holds exactly the
   planned content.  Refused or skipped: this tool wrote nothing.  Otherwise the restore
   failed and says so: what was switched in stands, or what a foreign writer made of it.  A commit that comes after the last check before the switch is
   overwritten; it survives only if it changed nothing of the logical content.
   */
  method CompactProduction(env: Env, audit: Db -> bool, file: DatabaseFile, plan: FileState, recommended: bool,
                           vacuumed: Image, script: Script)
    returns (result: Result, candidateBytes: nat)
    requires ValidDb(file.image.db) && ValidScript(script)
    modifies file
    ensures result.Compacted? ==>
              && Logical(file.image.db) == Logical(plan.digest.db)
              && audit(plan.digest.db) && audit(vacuumed.db) && audit(file.image.db)
              && (forall id :: id in file.image.db.rows ==> Read(env, file.image.db, id).Some?)
              && file.image.db.rows == plan.digest.db.rows && file.image.db.blobs == plan.digest.db.blobs
              && KeepsReads(env, plan.digest.db, file.image.db)
              && result.before == old(PhysicalBytes(file)) && result.after == PhysicalBytes(file)
              && candidateBytes == vacuumed.bytes < result.before
              && file.image == After(script, AfterWrite, vacuumed)
    ensures result.Compacted? <==>
              && Switches(env, audit, plan, recommended, vacuumed, script, old(file.State()), old(PhysicalBytes(file)))
              && PassesAfter(env, audit, plan, vacuumed, script)
    ensures result.Restored? <==>
              && Switches(env, audit, plan, recommended, vacuumed, script, old(file.State()), old(PhysicalBytes(file)))
              && !PassesAfter(env, audit, plan, vacuumed, script) && CanRestore(script)
    ensures result.RestoreFailed? <==>
              && Switches(env, audit, plan, recommended, vacuumed, script, old(file.State()), old(PhysicalBytes(file)))
              && !PassesAfter(env, audit, plan, vacuumed, script) && !CanRestore(script)
    ensures result.Restored? ==> file.image.db == plan.digest.db
    ensures result.RestoreFailed? ==> file.image == After(script, BeforeRestore, After(script, AfterWrite, vacuumed))
    ensures result.Compacted? || result.Restored? || result.RestoreFailed? ==>
              BeforeBackup !in script.moves && AfterBackup !in script.moves && old(file.image.db) == plan.digest.db
    ensures result.Compacted? && BeforeBegin in script.moves ==>
              var commit := script.moves[BeforeBegin].image.db;
              Logical(file.image.db) == Logical(commit) <==> Logical(commit) == Logical(old(file.image.db))
    ensures result.Skipped? <==> !recommended
    ensures result.Skipped? ==> file.image == old(file.image)
    ensures result.Refused? ==> file.image == old(file.image) || ForeignImage(script, file.image)
  {
    candidateBytes := 0;
    if !recommended {
      return Skipped, 0;
    }
    if file.State() != Some(plan) || !Sound(env, audit, file.image.db) {
      return Refused, 0;
    }
    file.Turn(script, BeforeBackup);
    var backup := file.image.db;
    if BackupStage in script.faults {
      return Refused, 0;
    }
    file.Turn(script, AfterBackup);
    if LockStage in script.faults || file.State() != Some(plan) || !Sound(env, audit, file.image.db) {
      return Refused, 0;
    }
    assert backup == plan.digest.db;
    var before := PhysicalBytes(file);
    file.Turn(script, BeforeBegin);
    // `vacuumed` is what VACUUM INTO wrote from a copy of the file, whatever that is.
    if !Sound(env, audit, vacuumed.db) || Logical(vacuumed.db) != Logical(plan.digest.db) || vacuumed.bytes >= before {
      return Refused, 0;
    }
    SameLogicalIsValid(plan.digest.db, vacuumed.db);
    var switched := file.Switch(script, vacuumed);
    if !switched {
      return Refused, 0;
    }
    candidateBytes := vacuumed.bytes;
    file.Turn(script, AfterWrite);
    if && CheckStage !in script.faults
       && file.State().Some?
       && Sound(env, audit, file.image.db)
       && Logical(file.image.db) == Logical(plan.digest.db) {
      SameLogicalReadsTheSame(env, plan.digest.db, file.image.db);
      return Compacted(before, PhysicalBytes(file)), candidateBytes;
    }
    file.Turn(script, BeforeRestore);
    if RestoreStage in script.faults || file.wal != 0 {
      return RestoreFailed, candidateBytes;
    }
    file.Replace(Image(backup, plan.size));
    return Restored, candidateBytes;
  }

  lemma SameLogicalIsValid(a: Db, b: Db)
    requires ValidDb(a) && Logical(a) == Logical(b)
    ensures ValidDb(b)
  {
    assert a.rows == Logical(a).rows == b.rows && a.ids == Logical(a).ids == b.ids;
  }

  // ---- The development tool ----

  function ClearDual(rows: map<string, Row>): map<string, Row> {
    map id | id in rows :: if IsDual(rows[id]) then Cleared(rows[id]) else rows[id]
  }

  /** A copy of the source without the inline copies, under a freshly created update guard. */
  function CandidateOf(db: Db): Db {
    db.(rows := ClearDual(db.rows), trigger := Some(IMMUTABLE_TRIGGER), schemaVersion := db.schemaVersion + 1)
  }

  predicate SameResult(env: Env, source: Db, candidate: Db, id: string) {
    && id in source.rows && id in candidate.rows
    && Read(env, source, id).Some? && Read(env, candidate, id).Some?
    && source.rows[id].taskId == candidate.rows[id].taskId
    && source.rows[id].terminalEventType == candidate.rows[id].terminalEventType
    && source.rows[id].sha256 == candidate.rows[id].sha256
    && source.rows[id].byteSize == candidate.rows[id].byteSize
  }

  /** The task list compares a dozen columns of each snapshot. */
  function TaskList(db: Db): map<string, (TaskStatus, string)> {
    map id | id in db.snapshots :: (db.snapshots[id].status, db.snapshots[id].listed)
  }

  /** The gates that compare source and candidate. */
  predicate Parity(env: Env, source: Db, candidate: Db) {
    && TaskList(source) == TaskList(candidate)
    && (forall id :: id in source.rows.Keys + candidate.rows.Keys ==> SameResult(env, source, candidate, id))
    && source.onlineTasks == candidate.onlineTasks
  }

  /** Equal digests of verified results force equal bodies, so the gates carry every read over. */
  lemma ParityKeepsReads(env: Env, source: Db, candidate: Db)
    requires SoundHash(env)
    requires Parity(env, source, candidate)
    ensures KeepsReads(env, source, candidate) && KeepsReads(env, candidate, source)
  {
    forall id ensures id in source.rows <==> id in candidate.rows {
      assert id in source.rows.Keys + candidate.rows.Keys ==> SameResult(env, source, candidate, id);
    }
    assert source.rows.Keys == candidate.rows.Keys;
    forall id | id in source.rows ensures Read(env, source, id) == Read(env, candidate, id) {
      assert id in source.rows.Keys + candidate.rows.Keys && SameResult(env, source, candidate, id);
    }
  }

  /** What the gates compare: tasks as listed, online sessions, and every result with its body and its record. */
  lemma ParityIff(env: Env, a: Db, b: Db)
    requires SoundHash(env)
    ensures Parity(env, a, b) <==>
              && a.snapshots.Keys == b.snapshots.Keys
              && (forall id :: id in a.snapshots && id in b.snapshots ==>
                    a.snapshots[id].status == b.snapshots[id].status && a.snapshots[id].listed == b.snapshots[id].listed)
              && a.onlineTasks == b.onlineTasks
              && a.rows.Keys == b.rows.Keys
              && (forall id :: id in a.rows && id in b.rows ==>
                    && Read(env, a, id).Some? && Read(env, b, id) == Read(env, a, id)
                    && a.rows[id].taskId == b.rows[id].taskId
                    && a.rows[id].terminalEventType == b.rows[id].terminalEventType)
  {
    hide ReadBlob;
    if Parity(env, a, b) {
      ParityKeepsReads(env, a, b);
      SameListings(a, b);
      assert forall id :: id in a.rows.Keys + b.rows.Keys ==> SameResult(env, a, b, id);
    }
    if && a.rows.Keys == b.rows.Keys
       && (forall id :: id in a.rows && id in b.rows ==>
             && Read(env, a, id).Some? && Read(env, b, id) == Read(env, a, id)
             && a.rows[id].taskId == b.rows[id].taskId && a.rows[id].terminalEventType == b.rows[id].terminalEventType) {
      forall id | id in a.rows.Keys + b.rows.Keys ensures SameResult(env, a, b, id) {
        EmptyBodyIsNeverRead(env, a.rows[id], a.blobs);
        EmptyBodyIsNeverRead(env, b.rows[id], b.blobs);
      }
      SameListings(a, b);
    }
  }

  lemma SameListings(a: Db, b: Db)
    ensures TaskList(a) == TaskList(b) <==>
              && a.snapshots.Keys == b.snapshots.Keys
              && forall id :: id in a.snapshots && id in b.snapshots ==>
                   a.snapshots[id].status == b.snapshots[id].status && a.snapshots[id].listed == b.snapshots[id].listed
  {
    assert TaskList(a).Keys == a.snapshots.Keys && TaskList(b).Keys == b.snapshots.Keys;
    if TaskList(a) == TaskList(b) {
      forall id | id in a.snapshots && id in b.snapshots
        ensures a.snapshots[id].status == b.snapshots[id].status && a.snapshots[id].listed == b.snapshots[id].listed
      {
        assert TaskList(a)[id] == TaskList(b)[id];
      }
    }
  }

  /** What a replacement shows of tasks and sessions is what the gates saw. */
  ghost predicate SameTasks(a: Db, b: Db) {
    && a.snapshots.Keys == b.snapshots.Keys && a.onlineTasks == b.onlineTasks
    && forall id :: id in a.snapshots && id in b.snapshots ==>
         a.snapshots[id].status == b.snapshots[id].status && a.snapshots[id].listed == b.snapshots[id].listed
  }

  /** Clearing dual rows satisfies the gates exactly when every result of the source verifies. */
  lemma CandidateHasParityIff(env: Env, db: Db)
    ensures Parity(env, db, CandidateOf(db)) <==> forall id :: id in db.rows ==> Read(env, db, id).Some?
  {
    var candidate := CandidateOf(db);
    forall id | id in db.rows
      ensures Read(env, candidate, id) == Read(env, db, id)
      ensures SameResult(env, db, candidate, id) <==> Read(env, db, id).Some?
    {
    }
  }

  /** What the source holds when the candidate is copied, when the gates are evaluated, and at the end. */
  function AtBackup(script: Script, start: Image): Image {
    After(script, BeforeBackup, start)
  }

  function AtGates(script: Script, start: Image): Image {
    After(script, AfterBackup, AtBackup(script, start))
  }

  function AtReplace(script: Script, start: Image): Image {
    After(script, BeforeBegin, AtGates(script, start))
  }

  /** Bytes the write-ahead log holds when the file is about to be replaced. */
  function WalAtReplace(script: Script, wal: nat): nat {
    WalAfter(script, BeforeBegin, WalAfter(script, AfterBackup, WalAfter(script, BeforeBackup, wal)))
  }

  predicate GatesPass(env: Env, script: Script, start: Image, before: nat, candidateBytes: nat) {
    && CheckStage !in script.faults
    && Parity(env, AtGates(script, start).db, CandidateOf(AtBackup(script, start).db))
    && candidateBytes < before
  }

  /**
   Replaced only through the gates, by the candidate copied at the backup; otherwise the
   file is as the last foreign writer left it.  This holds for every foreign writer.  A
   replacement that fails raises an error in the tool, after the gates have passed.
   */
  method CompactDatabase(env: Env, file: DatabaseFile, candidateBytes: nat, apply: bool, script: Script)
    returns (replaced: bool, reclaimed: int)
    requires ValidDb(file.image.db) && ValidScript(script)
    modifies file
    ensures replaced <==>
              && apply && GatesPass(env, script, old(file.image), old(PhysicalBytes(file)), candidateBytes)
              && WalAtReplace(script, old(file.wal)) == 0 && ReplaceStage !in script.faults
    ensures replaced ==>
              && file.image == Image(CandidateOf(AtBackup(script, old(file.image)).db), candidateBytes)
              && forall id :: id in file.image.db.rows ==> !IsDual(file.image.db.rows[id]) && Read(env, file.image.db, id).Some?
    ensures replaced ==> SameTasks(AtGates(script, old(file.image)).db, file.image.db) && candidateBytes < old(PhysicalBytes(file))
    ensures replaced && SoundHash(env) ==> KeepsReads(env, AtGates(script, old(file.image)).db, file.image.db)
    ensures !replaced ==> file.image == AtReplace(script, old(file.image))
    ensures reclaimed == if candidateBytes < old(PhysicalBytes(file)) then old(PhysicalBytes(file)) - candidateBytes else 0
  {
    hide Parity, CandidateOf;
    replaced, reclaimed := false, 0;
    var before := PhysicalBytes(file);
    ghost var start := file.image;
    file.Turn(script, BeforeBackup);
    assert file.image == AtBackup(script, start);
    var candidate := CandidateOf(file.image.db);
    file.Turn(script, AfterBackup);
    assert file.image == AtGates(script, start);
    var gates := CheckStage !in script.faults && Parity(env, file.image.db, candidate) && candidateBytes < before;
    if candidateBytes < before {
      reclaimed := before - candidateBytes;
    }
    ghost var source := file.image.db;
    if gates {
      GatedCandidateReads(env, source, AtBackup(script, start).db);
    }
    file.Turn(script, BeforeBegin);
    assert file.image == AtReplace(script, start);
    if apply && gates {
      CandidateIsValid(AtBackup(script, start).db);
      replaced := file.Switch(script, Image(candidate, candidateBytes));
    }
  }

  lemma GatedCandidateReads(env: Env, source: Db, db: Db)
    requires Parity(env, source, CandidateOf(db))
    ensures var candidate := CandidateOf(db);
            forall id :: id in candidate.rows ==> !IsDual(candidate.rows[id]) && Read(env, candidate, id).Some?
    ensures SameTasks(source, CandidateOf(db))
    ensures SoundHash(env) ==> KeepsReads(env, source, CandidateOf(db))
  {
    var candidate := CandidateOf(db);
    forall id | id in candidate.rows ensures Read(env, candidate, id).Some? {
      assert id in source.rows.Keys + candidate.rows.Keys;
    }
    SameListings(source, candidate);
    if SoundHash(env) {
      ParityKeepsReads(env, source, candidate);
    }
  }

  lemma CandidateIsValid(db: Db)
    requires ValidDb(db)
    ensures ValidDb(CandidateOf(db))
  {
  }

  // ---- Commits that a compaction loses ----

  /** The two stores differ in nothing a compaction would keep: only in inline duplicates, the guard's text and the DDL counter. */
  ghost predicate SameKept(a: Db, b: Db) {
    && a.ids == b.ids && a.rows.Keys == b.rows.Keys
    && (forall id :: id in a.rows ==>
          a.rows[id] == b.rows[id] || (IsDual(a.rows[id]) && b.rows[id] == Cleared(a.rows[id]))
          || (IsDual(b.rows[id]) && a.rows[id] == Cleared(b.rows[id]))
          || (IsDual(a.rows[id]) && IsDual(b.rows[id]) && Cleared(a.rows[id]) == Cleared(b.rows[id])))
    && a.blobs == b.blobs && a.snapshots == b.snapshots && a.events == b.events && a.onlineTasks == b.onlineTasks
    && a.rollout == b.rollout && a.schema == b.schema && a.userVersion == b.userVersion
  }

  /** The final content is that of the commit, compacted. */
  ghost predicate Survives(commit: Db, final: Db) {
    Logical(final) == Logical(CandidateOf(commit))
  }

  /**
   A foreign commit made before the backup survives a replacement.  A later one does
   exactly when it left nothing different that compaction keeps.
   */
  lemma CommitSurvivesIff(script: Script, start: Image, candidateBytes: nat)
    ensures var final := Image(CandidateOf(AtBackup(script, start).db), candidateBytes);
            && (AfterBackup !in script.moves && BeforeBegin !in script.moves ==> Survives(AtReplace(script, start).db, final.db))
            && (Survives(AtReplace(script, start).db, final.db) <==>
                SameKept(AtBackup(script, start).db, AtReplace(script, start).db))
  {
    var a, b := AtBackup(script, start).db, AtReplace(script, start).db;
    CompactionKeepsIff(a, b);
    if AfterBackup !in script.moves && BeforeBegin !in script.moves {
      assert a == b;
    }
  }

  lemma CompactionKeepsIff(a: Db, b: Db)
    ensures Logical(CandidateOf(a)) == Logical(CandidateOf(b)) <==> SameKept(a, b)
  {
    hide IsDual, Cleared;
    var x, y := CandidateOf(a), CandidateOf(b);
    if SameKept(a, b) {
      forall id | id in a.rows ensures ClearDual(a.rows)[id] == ClearDual(b.rows)[id] {
        ClearedIsNotDual(a.rows[id], b.rows[id]);
      }
      assert ClearDual(a.rows) == ClearDual(b.rows);
    }
    if Logical(x) == Logical(y) {
      assert Logical(x).rows == ClearDual(a.rows) && Logical(y).rows == ClearDual(b.rows);
      assert ClearDual(a.rows).Keys == a.rows.Keys && ClearDual(b.rows).Keys == b.rows.Keys;
      forall id | id in a.rows
        ensures a.rows[id] == b.rows[id] || (IsDual(a.rows[id]) && b.rows[id] == Cleared(a.rows[id]))
                || (IsDual(b.rows[id]) && a.rows[id] == Cleared(b.rows[id]))
                || (IsDual(a.rows[id]) && IsDual(b.rows[id]) && Cleared(a.rows[id]) == Cleared(b.rows[id]))
      {
        assert ClearDual(a.rows)[id] == ClearDual(b.rows)[id];
      }
    }
  }

  lemma ClearedIsNotDual(a: Row, b: Row)
    ensures !IsDual(Cleared(a)) && !IsDual(Cleared(b))
  {
  }

  /** An event logged after the gates passed is gone once the candidate is in place. */
  lemma LateEventIsLost(env: Env, start: Image, event: Event, before: nat, candidateBytes: nat)
    requires candidateBytes < before && forall id :: id in start.db.rows ==> Read(env, start.db, id).Some?
    ensures var commit := Image(start.db.(events := start.db.events + [event]), start.bytes);
            var script := Script({}, map[BeforeBegin := Move(commit, 0, 0)]);
            && GatesPass(env, script, start, before, candidateBytes) && WalAtReplace(script, 0) == 0
            && AtReplace(script, start) == commit
            && !Survives(commit.db, CandidateOf(AtBackup(script, start).db))
  {
    hide CandidateOf, Parity, Logical;
    var db := start.db.(events := start.db.events + [event]);
    CandidateHasParityIff(env, start.db);
    assert |db.events| != |start.db.events|;
    CompactionKeepsIff(start.db, db);
  }
}
