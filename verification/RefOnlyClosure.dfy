/**
 Applying a ref-only plan: stale checks, external backup, one transaction,
 parity checks and restore (scripts/maintenance/close_task_result_ref_only.py).
 Every stage may fail, and a foreign writer may act in every window between stages.
 */
module RefOnlyClosure {
  import opened Bytes
  import opened TaskResults
  import opened RefOnlyPlan
  import opened DatabaseFiles

  datatype Plan = Plan(source: FileState, collected: Collected)

  /** The plan is what a preview of its own source would collect. */
  ghost predicate Genuine(env: Env, plan: Plan) {
    ValidDb(plan.source.digest.db) && Collect(env, plan.source.digest.db) == Some(plan.collected)
  }

  datatype Result =
    | Applied(released: int)
    | NoOp
    | Refused
    | Restored
    | RestoreFailed

  /** The UPDATE statements of the transaction, counting what they release. */
  method ClearCandidates(rows: map<string, Row>, items: seq<Candidate>)
    returns (cleared: Option<map<string, Row>>, released: int)
    ensures cleared == ClearRows(rows, items)
    ensures cleared.Some? ==> released == BytesOf(items)
  {
    released := 0;
    var working := rows;
    for i := 0 to |items|
      invariant ClearRows(rows, items) == ClearRows(working, items[i..])
      invariant BytesOf(items) == released + BytesOf(items[i..])
    {
      var id := items[i].resultId;
      assert items[i..][1..] == items[i+1..];
      if id !in working || !IsDual(working[id]) {
        cleared := None;
        return;
      }
      working := working[id := Cleared(working[id])];
      released := released + items[i].canonicalBytes;
    }
    cleared := Some(working);
  }

  /** BEGIN IMMEDIATE to COMMIT; None stands for a rollback. */
  method RunTransaction(env: Env, db: Db, items: seq<Candidate>, commitFails: bool)
    returns (next: Option<Db>, released: int)
    ensures next == if commitFails then None else CloseTransaction(env, db, items)
    ensures next.Some? ==> released == BytesOf(items)
  {
    released := 0;
    for i := 0 to |items|
      invariant forall j :: 0 <= j < i ==> CandidateStands(env, db, items[j])
    {
      if !CandidateStands(env, db, items[i]) {
        return None, 0;
      }
    }
    if !ReferencesReleasable(env, db, items) || db.trigger.None? {
      return None, 0;
    }
    var cleared;
    cleared, released := ClearCandidates(db.rows, items);
    if cleared.None? || commitFails {
      return None, 0;
    }
    next := Some(db.(rows := cleared.value, schemaVersion := db.schemaVersion + 2));
  }

  lemma CheckedPlanKeepsReads(env: Env, plan: Plan, db: Db)
    requires SoundHash(env) && Genuine(env, plan) && ValidDb(db)
    requires Collect(env, db).Some? && PostCheck(Collect(env, db).value, plan.collected)
    ensures KeepsReads(env, plan.source.digest.db, db)
  {
    SameAuthorityReadsTheSame(env, plan.source.digest.db, db);
  }

  /**
   The transaction ran on what the file held when it began, and since then only a
   foreign writer has touched the file.
   */
  predicate ClosureStands(env: Env, plan: Plan, script: Script, start: Image, now: Image) {
    var closed := CloseTransaction(env, After(script, BeforeBegin, start).db, plan.collected.candidates);
    closed.Some? && if AfterWrite in script.moves then now == script.moves[AfterWrite].image else now.db == closed.value
  }

  /** What is there for the checks to look at after the commit. */
  function Afterwards(script: Script, closed: Db): Db {
    if AfterWrite in script.moves then script.moves[AfterWrite].image.db else closed
  }

  /** What the transaction released: different dual rows, readable, of tasks that are over, not online and not in long-term use. */
  ghost predicate Released(env: Env, begun: Db, items: seq<Candidate>) {
    && (forall i, j :: 0 <= i < j < |items| ==> items[i].resultId != items[j].resultId)
    && (forall i :: 0 <= i < |items| ==> StandsFor(env, begun, items[i]) && TaskIsOver(begun, items[i].taskId))
    && NoLongTermUse(env, begun, items)
  }

  /** What an applied plan leaves as it was planned. */
  ghost predicate SameRecord(planned: Db, now: Db) {
    && SameReferences(planned, now) && planned.snapshots == now.snapshots && planned.events == now.events
    && |planned.blobs| == |now.blobs|
    && planned.schema == now.schema && planned.trigger == now.trigger && planned.userVersion == now.userVersion
  }

  lemma CommittedIsReleased(env: Env, db: Db, items: seq<Candidate>)
    requires CloseTransaction(env, db, items).Some?
    ensures Released(env, db, items)
  {
    hide StandsFor, TaskIsOver, NoLongTermUse;
    TransactionCommitsIff(env, db, items);
  }

  lemma CheckedPlanKeepsRecord(env: Env, plan: Plan, db: Db)
    requires Genuine(env, plan) && ValidDb(db)
    requires Collect(env, db).Some? && PostCheck(Collect(env, db).value, plan.collected)
    ensures SameRecord(plan.source.digest.db, db)
  {
    hide Collect, PostCheck;
    PostCheckIff(env, plan.source.digest.db, db);
  }

  /** Exactly when the protocol commits its transaction. */
  predicate Commits(env: Env, plan: Plan, script: Script, state: Option<FileState>, start: Image) {
    && state == Some(plan.source)
    && BeforeLock !in script.moves && BeforeBackup !in script.moves && AfterBackup !in script.moves
    && script.faults !! {LockStage, BackupStage, CommitStage}
    && CloseTransaction(env, After(script, BeforeBegin, start).db, plan.collected.candidates).Some?
  }

  /** Exactly when it then ends in success. */
  predicate Applies(env: Env, plan: Plan, script: Script, state: Option<FileState>, start: Image)
    requires ValidDb(start.db) && ValidScript(script)
  {
    && Commits(env, plan, script, state, start) && CheckStage !in script.faults
    && var items, begun := plan.collected.candidates, After(script, BeforeBegin, start).db;
       ClosureClearsExactlyThePlan(env, begun, items);
       var after := Collect(env, Afterwards(script, CloseTransaction(env, begun, items).value));
       after.Some? && PostCheck(after.value, plan.collected)
  }

  /** After a restore that could not write: the closure stands, or what a foreign writer then made of it. */
  predicate LeftStanding(env: Env, plan: Plan, script: Script, start: Image, now: Image) {
    if BeforeRestore in script.moves then now == script.moves[BeforeRestore].image
    else ClosureStands(env, plan, script, start, now)
  }

  /**
   Every way out of the protocol, whatever a foreign writer does in any window.
   Applied: the transaction ran on the planned content, or on what the last foreign
   writer before it left, and the parity checks hold of what is there now.  Restored:
   the file holds the planned content again, and foreign commits since the backup are
   gone.  Refused or no-op: this tool wrote nothing.  Otherwise the restore failed and
   says so: the write stands, or what a foreign writer made of it, or the planned content
   is back but unchecked.  Nothing is written unless the file was as planned.
   */
  method ApplyPlan(env: Env, file: DatabaseFile, plan: Plan, script: Script) returns (result: Result)
    requires ValidDb(file.image.db) && ValidScript(script)
    modifies file
    ensures ValidDb(file.image.db)
    ensures result.Applied? <==> Applies(env, plan, script, old(file.State()), old(file.image))
    ensures result.Restored? <==>
              && Commits(env, plan, script, old(file.State()), old(file.image))
              && !Applies(env, plan, script, old(file.State()), old(file.image))
              && script.faults !! {RestoreStage, RestoreCheckStage}
    ensures result.RestoreFailed? <==>
              && Commits(env, plan, script, old(file.State()), old(file.image))
              && !Applies(env, plan, script, old(file.State()), old(file.image))
              && !(script.faults !! {RestoreStage, RestoreCheckStage})
    ensures result.Applied? ==>
              && file.State().Some?
              && result.released == BytesOf(plan.collected.candidates)
              && Collect(env, file.image.db).Some?
              && PostCheck(Collect(env, file.image.db).value, plan.collected)
    ensures result.Applied? ==> ClosureStands(env, plan, script, old(file.image), file.image)
    ensures result.RestoreFailed? && RestoreStage in script.faults ==>
              LeftStanding(env, plan, script, old(file.image), file.image)
    ensures result.Restored? || (result.RestoreFailed? && RestoreStage !in script.faults) ==>
              file.image.db == plan.source.digest.db
    ensures result.Applied? || result.Restored? || result.RestoreFailed? ==>
              && BeforeLock !in script.moves && BeforeBackup !in script.moves && AfterBackup !in script.moves
              && old(file.image.db) == plan.source.digest.db
    ensures result.Applied? || result.Restored? || result.RestoreFailed? ==>
              Released(env, After(script, BeforeBegin, old(file.image)).db, plan.collected.candidates)
    ensures result.Applied? && SoundHash(env) && Genuine(env, plan) ==>
              KeepsReads(env, plan.source.digest.db, file.image.db)
    ensures result.Applied? && Genuine(env, plan) ==> SameRecord(plan.source.digest.db, file.image.db)
    ensures result.NoOp? ==>
              && AlreadyApplied(env, file.image.db, plan.collected)
              && file.image == old(file.image) && file.State() == old(file.State())
    ensures result.Refused? ==> file.image == old(file.image) || ForeignImage(script, file.image)
    ensures (&& Quiet(script) && script.faults == {} && Genuine(env, plan) && old(file.State()) == Some(plan.source)
             && plan.source.digest.db.trigger.Some?) ==> result.Applied?
    ensures result.NoOp? <==>
              && old(file.State()).Some? && old(file.State()) != Some(plan.source)
              && AlreadyApplied(env, old(file.image.db), plan.collected)
  {
    hide Collect, PostCheck, CloseTransaction, AlreadyApplied, AllCollectable, Released, SameRecord;
    var current := file.State();
    if current.None? {
      return Refused;
    }
    if current.value != plan.source {
      if AlreadyApplied(env, file.image.db, plan.collected) {
        return NoOp;
      }
      return Refused;
    }
    file.Turn(script, BeforeLock);
    if LockStage in script.faults {
      return Refused;
    }
    if file.State() != Some(plan.source) {
      return Refused;
    }
    file.Turn(script, BeforeBackup);
    var backup := file.image.db;
    if BackupStage in script.faults {
      return Refused;
    }
    file.Turn(script, AfterBackup);
    if file.State() != Some(plan.source) {
      return Refused;
    }
    assert backup == plan.source.digest.db;
    file.Turn(script, BeforeBegin);
    if Genuine(env, plan) && Quiet(script) {
      CollectedPlanClosesIff(env, plan.source.digest.db);
    }
    var next, released := RunTransaction(env, file.image.db, plan.collected.candidates, CommitStage in script.faults);
    if next.None? {
      return Refused;
    }
    ClosureClearsExactlyThePlan(env, file.image.db, plan.collected.candidates);
    CommittedIsReleased(env, file.image.db, plan.collected.candidates);
    var bytes: nat := *;
    file.Replace(Image(next.value, bytes));
    file.Turn(script, AfterWrite);
    file.wal := 0;
    var after := Collect(env, file.image.db);
    if CheckStage !in script.faults && after.Some? && PostCheck(after.value, plan.collected) {
      if Genuine(env, plan) {
        CheckedPlanKeepsRecord(env, plan, file.image.db);
        if SoundHash(env) {
          CheckedPlanKeepsReads(env, plan, file.image.db);
        }
      }
      return Applied(released);
    }
    if Quiet(script) && Genuine(env, plan) && CheckStage !in script.faults {
      AppliedPlanIsRecognised(env, plan.source.digest.db);
    }
    file.Turn(script, BeforeRestore);
    var ok := file.Restore(script, Image(backup, plan.source.size));
    return if ok then Restored else RestoreFailed;
  }

  /**
   A genuine plan applied where nobody else writes succeeds unless a stage before the
   checks or the checks fail; applying it again, whatever then happens, changes nothing.
   */
  method ApplyTwice(env: Env, file: DatabaseFile, plan: Plan, first: Script, second: Script)
    returns (once: Result, again: Result)
    requires ValidDb(file.image.db) && Genuine(env, plan) && file.State() == Some(plan.source)
    requires plan.source.digest.db.trigger.Some?
    requires Quiet(first) && ValidScript(second)
    modifies file
    ensures once.Applied? <==> first.faults !! {LockStage, BackupStage, CommitStage, CheckStage}
    ensures once.Applied? ==>
              && again.NoOp?
              && CloseTransaction(env, plan.source.digest.db, plan.collected.candidates) == Some(file.image.db)
  {
    hide Collect, PostCheck, CloseTransaction, AlreadyApplied;
    AppliedPlanIsRecognised(env, plan.source.digest.db);
    once := ApplyPlan(env, file, plan, first);
    again := ApplyPlan(env, file, plan, second);
  }
}
