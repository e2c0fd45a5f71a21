/**
 Planning the release of duplicate result bodies: what a preview collects, when a
 plan still fits a database, and what its transaction does
 (scripts/maintenance/close_task_result_ref_only.py).

 A digest of a table, a row or a file is represented by what it digests, so that
 two digests are equal exactly when the digested contents are.
 */
module RefOnlyPlan {
  import opened Bytes
  import opened TaskResults

  datatype Candidate = Candidate(resultId: string, taskId: string, fingerprint: Row, canonicalBytes: int)

  datatype AuthorityEntry = AuthorityEntry(
    resultId: string, taskId: string, terminalEventType: string, sha256: string, byteSize: int,
    contentSha256: string, codec: string, ready: bool)

  datatype Scope = Scope(
    resultIds: seq<string>, schema: string, trigger: Option<string>, userVersion: int, schemaVersion: int)

  datatype Collected = Collected(
    scope: Scope,
    candidates: seq<Candidate>,
    authority: seq<AuthorityEntry>,
    rollout: Rollout,
    resultRows: int,
    blobRows: int,
    snapshots: map<string, Snapshot>,
    events: seq<Event>,
    blobs: map<string, Blob>)

  function EntryOf(row: Row): AuthorityEntry {
    AuthorityEntry(row.resultId, row.taskId, row.terminalEventType, row.sha256, row.byteSize,
                   row.contentSha256, row.codec, row.ready)
  }

  /** A body kept twice: inline and as a blob. */
  predicate IsDual(row: Row) {
    row.ready && row.canonical != []
  }

  /** The rows of a table in key order. */
  function RowsInOrder(db: Db): (rows: seq<Row>)
    requires ValidDb(db)
    ensures |rows| == |db.ids|
    ensures forall i :: 0 <= i < |rows| ==> rows[i] == db.rows[db.ids[i]]
  {
    seq(|db.ids|, i requires 0 <= i < |db.ids| => db.rows[db.ids[i]])
  }

  function AsCandidate(row: Row): Candidate {
    Candidate(row.resultId, row.taskId, row, |row.canonical|)
  }

  function CandidatesIn(rows: seq<Row>): seq<Candidate> {
    if rows == [] then []
    else
      var row, rest := rows[0], CandidatesIn(rows[1..]);
      if IsDual(row) then [AsCandidate(row)] + rest else rest
  }

  /** The result payload recorded for a task: that of its last candidate. */
  function PayloadOf(env: Env, db: Db, items: seq<Candidate>, taskId: string): Option<Body> {
    if items == [] then None
    else if items[|items|-1].taskId == taskId then Read(env, db, items[|items|-1].resultId)
    else PayloadOf(env, db, items[..|items|-1], taskId)
  }

  predicate TaskReleasable(env: Env, db: Db, items: seq<Candidate>, taskId: string) {
    && taskId in db.snapshots
    && db.snapshots[taskId].status == Terminal
    && db.snapshots[taskId].readable
    && taskId !in db.onlineTasks
    && var payload := PayloadOf(env, db, items, taskId);
       payload.Some? && !env.longTerm(db.snapshots[taskId], payload.value)
  }

  /** No candidate belongs to an active, online or long-term task. */
  predicate ReferencesReleasable(env: Env, db: Db, items: seq<Candidate>) {
    forall i :: 0 <= i < |items| ==>
      && Read(env, db, items[i].resultId).Some?
      && db.rows[items[i].resultId].taskId == items[i].taskId
      && TaskReleasable(env, db, items, items[i].taskId)
  }

  predicate RolloutTracked(rollout: Option<Rollout>) {
    rollout.Some? && rollout.value.state != "" && rollout.value.revision >= 1
  }

  /** Every row verifies, and a body kept twice is the same twice. */
  predicate RowCollectable(env: Env, db: Db, row: Row) {
    var body := Authority(env, row, db.blobs);
    body.Some? && (IsDual(row) ==> body.value == row.canonical)
  }

  function Entries(db: Db): (entries: seq<AuthorityEntry>)
    requires ValidDb(db)
    ensures |entries| == |db.ids|
    ensures forall i :: 0 <= i < |entries| ==> entries[i] == EntryOf(db.rows[db.ids[i]])
  {
    seq(|db.ids|, i requires 0 <= i < |db.ids| => EntryOf(db.rows[db.ids[i]]))
  }

  predicate AllCollectable(env: Env, db: Db)
    requires ValidDb(db)
  {
    forall i :: 0 <= i < |db.ids| ==> RowCollectable(env, db, db.rows[db.ids[i]])
  }

  /** The preview; None when any row, reference or the rollout record is not as it must be. */
  function Collect(env: Env, db: Db): Option<Collected>
    requires ValidDb(db)
  {
    var candidates := CandidatesIn(RowsInOrder(db));
    if AllCollectable(env, db) && ReferencesReleasable(env, db, candidates) && RolloutTracked(db.rollout) then
      Some(Collected(
             Scope(db.ids, db.schema, db.trigger, db.userVersion, db.schemaVersion),
             candidates, Entries(db), db.rollout.value, |db.ids|, |db.blobs|,
             db.snapshots, db.events, db.blobs))
    else None
  }

  predicate SameScope(a: Scope, b: Scope) {
    a.(schemaVersion := 0) == b.(schemaVersion := 0)
  }

  /** The parity checks after a committed write. */
  predicate PostCheck(after: Collected, plan: Collected) {
    && after.authority == plan.authority
    && after.snapshots == plan.snapshots
    && after.events == plan.events
    && after.resultRows == plan.resultRows
    && after.blobRows == plan.blobRows
    && SameScope(after.scope, plan.scope)
  }

  predicate AlreadyApplied(env: Env, db: Db, plan: Collected)
    requires ValidDb(db)
  {
    var after := Collect(env, db);
    && after.Some?
    && after.value.candidates == []
    && PostCheck(after.value, plan)
    && after.value.rollout == plan.rollout
    && after.value.blobs == plan.blobs
  }

  // ---- The transaction ----

  predicate CandidateStands(env: Env, db: Db, item: Candidate) {
    && item.resultId in db.rows
    && db.rows[item.resultId] == item.fingerprint
    && IsDual(item.fingerprint)
    && Authority(env, item.fingerprint, db.blobs) == Some(item.fingerprint.canonical)
  }

  function Cleared(row: Row): Row {
    row.(canonical := [])
  }

  /** Clears one candidate after another; an UPDATE that does not hit exactly one row fails. */
  function ClearRows(rows: map<string, Row>, items: seq<Candidate>): Option<map<string, Row>>
    decreases |items|
  {
    if items == [] then Some(rows)
    else
      var id := items[0].resultId;
      if id in rows && IsDual(rows[id]) then ClearRows(rows[id := Cleared(rows[id])], items[1..]) else None
  }

  function BytesOf(items: seq<Candidate>): int {
    if items == [] then 0 else items[0].canonicalBytes + BytesOf(items[1..])
  }

  /** Dropping and recreating the update guard moves only SQLite's own DDL counter. */
  function CloseTransaction(env: Env, db: Db, items: seq<Candidate>): Option<Db> {
    if && (forall i :: 0 <= i < |items| ==> CandidateStands(env, db, items[i]))
       && ReferencesReleasable(env, db, items)
       && db.trigger.Some?
    then
      match ClearRows(db.rows, items)
      case None => None
      case Some(rows) => Some(db.(rows := rows, schemaVersion := db.schemaVersion + 2))
    else None
  }

  predicate Names(items: seq<Candidate>, id: string) {
    exists i :: 0 <= i < |items| && items[i].resultId == id
  }

  lemma NamesStep(items: seq<Candidate>, id: string)
    requires items != []
    ensures Names(items, id) <==> items[0].resultId == id || Names(items[1..], id)
  {
    if Names(items[1..], id) {
      var i :| 0 <= i < |items[1..]| && items[1..][i].resultId == id;
      assert items[i+1] == items[1..][i];
    }
    if Names(items, id) {
      var i :| 0 <= i < |items| && items[i].resultId == id;
      assert i > 0 ==> items[1..][i-1] == items[i];
    }
  }

  lemma {:induction false} ClearRowsExactly(rows: map<string, Row>, items: seq<Candidate>)
    requires ClearRows(rows, items).Some?
    ensures var next := ClearRows(rows, items).value;
            && next.Keys == rows.Keys
            && (forall id :: id in rows ==> next[id] == if Names(items, id) then Cleared(rows[id]) else rows[id])
    ensures forall id :: Names(items, id) ==> id in rows && IsDual(rows[id])
    ensures forall i, j :: 0 <= i < j < |items| ==> items[i].resultId != items[j].resultId
    decreases |items|
  {
    if items != [] {
      var id := items[0].resultId;
      var mid := rows[id := Cleared(rows[id])];
      ClearRowsExactly(mid, items[1..]);
      forall other { NamesStep(items, other); }
      assert !Names(items[1..], id) by {
        assert !IsDual(mid[id]);
      }
      forall i, j | 0 <= i < j < |items| ensures items[i].resultId != items[j].resultId {
        assert items[j] == items[1..][j-1];
        assert i > 0 ==> items[i] == items[1..][i-1];
      }
    }
  }

  lemma InlineCopyIsNotRead(env: Env, row: Row, blobs: map<string, Blob>)
    requires row.ready
    ensures Authority(env, Cleared(row), blobs) == Authority(env, row, blobs)
  {
  }

  /**
   What a committed transaction has done: the inline copy is gone from exactly the
   planned rows, nothing else differs, and every result still reads the same.
   */
  lemma ClosureClearsExactlyThePlan(env: Env, db: Db, items: seq<Candidate>)
    requires ValidDb(db)
    requires CloseTransaction(env, db, items).Some?
    ensures var next := CloseTransaction(env, db, items).value;
            && ValidDb(next)
            && next == db.(rows := next.rows, schemaVersion := db.schemaVersion + 2)
            && next.rows.Keys == db.rows.Keys
            && (forall id :: id in db.rows ==>
                  next.rows[id] == if Names(items, id) then Cleared(db.rows[id]) else db.rows[id])
            && (forall id :: Names(items, id) ==> id in db.rows && IsDual(db.rows[id]))
            && KeepsReads(env, db, next) && ReadyStays(db, next)
  {
    hide Authority, ReferencesReleasable, CandidateStands, ClearRows;
    ClearRowsExactly(db.rows, items);
    forall id | id in db.rows && IsDual(db.rows[id])
      ensures Authority(env, Cleared(db.rows[id]), db.blobs) == Authority(env, db.rows[id], db.blobs)
    {
      InlineCopyIsNotRead(env, db.rows[id], db.blobs);
    }
  }

  /** A preview lists exactly the dual rows. */
  lemma {:induction false} CandidatesAreDualRows(rows: seq<Row>)
    ensures forall id :: Names(CandidatesIn(rows), id) <==>
                         exists i :: 0 <= i < |rows| && rows[i].resultId == id && IsDual(rows[i])
  {
    if rows != [] {
      var items, rest := CandidatesIn(rows), CandidatesIn(rows[1..]);
      CandidatesAreDualRows(rows[1..]);
      assert rows == [rows[0]] + rows[1..];
      forall id
        ensures Names(items, id) <==> (IsDual(rows[0]) && rows[0].resultId == id) || Names(rest, id)
      {
        if IsDual(rows[0]) {
          assert items[1..] == rest;
          NamesStep(items, id);
        }
      }
    }
  }

  /** Bytes of inline copies that a blob already holds. */
  function DualBytes(rows: seq<Row>): int {
    if rows == [] then 0 else (if IsDual(rows[0]) then |rows[0].canonical| else 0) + DualBytes(rows[1..])
  }

  lemma {:induction false} CandidateBytesAreDualBytes(rows: seq<Row>)
    ensures BytesOf(CandidatesIn(rows)) == DualBytes(rows)
  {
    if rows != [] {
      CandidateBytesAreDualBytes(rows[1..]);
      if IsDual(rows[0]) {
        assert CandidatesIn(rows)[1..] == CandidatesIn(rows[1..]);
      }
    }
  }

  lemma {:induction false} NoDualRowsNoCandidates(rows: seq<Row>)
    requires forall i :: 0 <= i < |rows| ==> !IsDual(rows[i])
    ensures CandidatesIn(rows) == [] && DualBytes(rows) == 0
  {
    if rows != [] {
      NoDualRowsNoCandidates(rows[1..]);
    }
  }

  lemma NoRowStaysDual(db: Db, next: Db)
    requires ValidDb(db) && next.ids == db.ids && next.rows.Keys == db.rows.Keys
    requires var items := CandidatesIn(RowsInOrder(db));
             forall id :: id in db.rows ==>
               next.rows[id] == if Names(items, id) then Cleared(db.rows[id]) else db.rows[id]
    ensures forall id :: id in next.rows ==> !IsDual(next.rows[id])
  {
    var rows := RowsInOrder(db);
    CandidatesAreDualRows(rows);
    forall id | id in next.rows ensures !IsDual(next.rows[id]) {
      var i :| 0 <= i < |db.ids| && db.ids[i] == id;
      assert rows[i] == db.rows[id];
    }
  }

  lemma RowsStayCollectable(env: Env, db: Db, next: Db)
    requires ValidDb(db) && ValidDb(next) && next.ids == db.ids
    requires KeepsReads(env, db, next)
    requires forall id :: id in db.rows ==> next.rows[id] == db.rows[id] || next.rows[id] == Cleared(db.rows[id])
    requires forall id :: id in next.rows ==> !IsDual(next.rows[id])
    requires AllCollectable(env, db)
    ensures AllCollectable(env, next) && Entries(next) == Entries(db)
  {
    forall i | 0 <= i < |db.ids|
      ensures RowCollectable(env, next, next.rows[db.ids[i]]) && Entries(next)[i] == Entries(db)[i]
    {
      assert RowCollectable(env, db, db.rows[db.ids[i]]);
      assert db.ids[i] in db.rows && Read(env, next, db.ids[i]) == Read(env, db, db.ids[i]);
    }
  }

  lemma ClosureLeavesNothingDual(env: Env, db: Db, items: seq<Candidate>, next: Db)
    requires ValidDb(db) && AllCollectable(env, db)
    requires items == CandidatesIn(RowsInOrder(db))
    requires CloseTransaction(env, db, items) == Some(next)
    ensures ValidDb(next) && next == db.(rows := next.rows, schemaVersion := db.schemaVersion + 2)
    ensures forall id :: id in next.rows ==> !IsDual(next.rows[id])
    ensures AllCollectable(env, next) && Entries(next) == Entries(db)
  {
    ClosureClearsExactlyThePlan(env, db, items);
    NoRowStaysDual(db, next);
    RowsStayCollectable(env, db, next);
  }

  lemma NothingDualCollects(env: Env, db: Db)
    requires ValidDb(db) && AllCollectable(env, db) && RolloutTracked(db.rollout)
    requires forall id :: id in db.rows ==> !IsDual(db.rows[id])
    ensures DualBytes(RowsInOrder(db)) == 0
    ensures Collect(env, db) == Some(Collected(
              Scope(db.ids, db.schema, db.trigger, db.userVersion, db.schemaVersion),
              [], Entries(db), db.rollout.value, |db.ids|, |db.blobs|, db.snapshots, db.events, db.blobs))
  {
    NoDualRowsNoCandidates(RowsInOrder(db));
  }

  ghost predicate DrawnFromRows(items: seq<Candidate>, rows: seq<Row>) {
    && (forall i :: 0 <= i < |items| ==>
          items[i].fingerprint in rows && IsDual(items[i].fingerprint) && items[i].resultId == items[i].fingerprint.resultId)
    && (forall i, j :: 0 <= i < j < |items| ==> items[i].resultId != items[j].resultId)
  }

  lemma {:induction false} CandidatesAreDrawn(rows: seq<Row>)
    requires forall i, j :: 0 <= i < j < |rows| ==> rows[i].resultId != rows[j].resultId
    ensures DrawnFromRows(CandidatesIn(rows), rows)
  {
    hide IsDual;
    if rows != [] {
      var tail, rest := rows[1..], CandidatesIn(rows[1..]);
      CandidatesAreDrawn(tail);
      assert rows == [rows[0]] + tail;
      forall i | 0 <= i < |rest| ensures rest[i].fingerprint in rows && rest[i].resultId != rows[0].resultId {
        var k :| 0 <= k < |tail| && tail[k] == rest[i].fingerprint;
        assert rows[k+1] == tail[k];
      }
    }
  }

  lemma {:induction false} DistinctDualRowsClear(rows: map<string, Row>, items: seq<Candidate>)
    requires forall i :: 0 <= i < |items| ==> items[i].resultId in rows && IsDual(rows[items[i].resultId])
    requires forall i, j :: 0 <= i < j < |items| ==> items[i].resultId != items[j].resultId
    ensures ClearRows(rows, items).Some?
    decreases |items|
  {
    if items != [] {
      assert forall i :: 0 <= i < |items|-1 ==> items[1..][i] == items[i+1];
      DistinctDualRowsClear(rows[items[0].resultId := Cleared(rows[items[0].resultId])], items[1..]);
    }
  }

  /** Of a fresh plan the transaction demands nothing but that the update guard is installed. */
  lemma CollectedPlanClosesIff(env: Env, db: Db)
    requires ValidDb(db) && Collect(env, db).Some?
    ensures CloseTransaction(env, db, Collect(env, db).value.candidates).Some? <==> db.trigger.Some?
  {
    hide Authority, ReferencesReleasable, ClearRows, CandidatesIn;
    var rows := RowsInOrder(db);
    var items := CandidatesIn(rows);
    CandidatesAreDrawn(rows);
    forall i | 0 <= i < |items| ensures CandidateStands(env, db, items[i]) {
      var k :| 0 <= k < |rows| && rows[k] == items[i].fingerprint;
      assert RowCollectable(env, db, db.rows[db.ids[k]]);
    }
    DistinctDualRowsClear(db.rows, items);
  }

  /**
   A plan collected from a database and applied to it: afterwards no row is dual,
   the released bytes are exactly the inline copies, the parity checks hold, and
   the plan is recognised as already applied, so applying it again changes nothing.
   */
  lemma AppliedPlanIsRecognised(env: Env, db: Db)
    requires ValidDb(db)
    requires Collect(env, db).Some? && db.trigger.Some?
    ensures var plan := Collect(env, db).value;
            CloseTransaction(env, db, plan.candidates).Some? &&
            var next := CloseTransaction(env, db, plan.candidates).value;
            && ValidDb(next)
            && (forall id :: id in next.rows ==> !IsDual(next.rows[id]))
            && BytesOf(plan.candidates) == DualBytes(RowsInOrder(db)) - DualBytes(RowsInOrder(next))
            && Collect(env, next).Some? && PostCheck(Collect(env, next).value, plan)
            && AlreadyApplied(env, next, plan)
            && next != db
  {
    var items := CandidatesIn(RowsInOrder(db));
    CollectedPlanClosesIff(env, db);
    var next := CloseTransaction(env, db, items).value;
    ClosureLeavesNothingDual(env, db, items, next);
    NothingDualCollects(env, next);
    CandidateBytesAreDualBytes(RowsInOrder(db));
  }

  // ---- What a preview and a transaction refuse ----

  /** No later item belongs to the same task. */
  predicate LastOfTask(items: seq<Candidate>, i: nat)
    requires i < |items|
  {
    forall j :: i < j < |items| ==> items[j].taskId != items[i].taskId
  }

  lemma {:induction false} LastItem(items: seq<Candidate>, i: nat) returns (last: nat)
    requires i < |items|
    ensures i <= last < |items| && items[last].taskId == items[i].taskId && LastOfTask(items, last)
    decreases |items| - i
  {
    last := i;
    if j :| i < j < |items| && items[j].taskId == items[i].taskId {
      last := LastItem(items, j);
    }
  }

  lemma {:induction false} PayloadIsThatOfTheLast(env: Env, db: Db, items: seq<Candidate>, i: nat)
    requires i < |items| && LastOfTask(items, i)
    ensures PayloadOf(env, db, items, items[i].taskId) == Read(env, db, items[i].resultId)
  {
    hide Read;
    if i < |items| - 1 {
      var init := items[..|items|-1];
      assert forall j :: i < j < |init| ==> init[j] == items[j];
      PayloadIsThatOfTheLast(env, db, init, i);
    }
  }

  /** The item is a dual row as it stands, and that row reads as its inline copy. */
  ghost predicate StandsFor(env: Env, db: Db, item: Candidate) {
    && item.resultId in db.rows && db.rows[item.resultId] == item.fingerprint && item.fingerprint.taskId == item.taskId
    && item.fingerprint.ready && item.fingerprint.canonical != []
    && Read(env, db, item.resultId) == Some(item.fingerprint.canonical)
  }

  /** The task is over, not online, and its record can be read. */
  ghost predicate TaskIsOver(db: Db, taskId: string) {
    && taskId in db.snapshots && db.snapshots[taskId].status == Terminal && db.snapshots[taskId].readable
    && taskId !in db.onlineTasks
  }

  /** Nothing durable refers to what the task recorded last. */
  ghost predicate NoLongTermUse(env: Env, db: Db, items: seq<Candidate>) {
    forall i :: 0 <= i < |items| && LastOfTask(items, i) && items[i].taskId in db.snapshots ==>
      !env.longTerm(db.snapshots[items[i].taskId], items[i].fingerprint.canonical)
  }

  lemma ReleasableIff(env: Env, db: Db, items: seq<Candidate>)
    requires forall i :: 0 <= i < |items| ==> StandsFor(env, db, items[i])
    ensures ReferencesReleasable(env, db, items) <==>
              (forall i :: 0 <= i < |items| ==> TaskIsOver(db, items[i].taskId)) && NoLongTermUse(env, db, items)
  {
    hide Read, LastOfTask, PayloadOf;
    forall i | 0 <= i < |items| && LastOfTask(items, i)
      ensures PayloadOf(env, db, items, items[i].taskId) == Some(items[i].fingerprint.canonical)
    {
      PayloadIsThatOfTheLast(env, db, items, i);
    }
    if ReferencesReleasable(env, db, items) {
      forall i | 0 <= i < |items|
        ensures TaskIsOver(db, items[i].taskId)
        ensures LastOfTask(items, i) ==> !env.longTerm(db.snapshots[items[i].taskId], items[i].fingerprint.canonical)
      {
        assert TaskReleasable(env, db, items, items[i].taskId);
      }
    }
    if (forall i :: 0 <= i < |items| ==> TaskIsOver(db, items[i].taskId)) && NoLongTermUse(env, db, items) {
      forall i | 0 <= i < |items| ensures TaskReleasable(env, db, items, items[i].taskId) {
        var last := LastItem(items, i);
        assert TaskIsOver(db, items[last].taskId);
      }
    }
  }

  /**
   The transaction commits exactly when the update guard is installed and its items are
   different dual rows, as they stand and readable, of tasks that are over, not online
   and not in long-term use.
   */
  lemma TransactionCommitsIff(env: Env, db: Db, items: seq<Candidate>)
    ensures CloseTransaction(env, db, items).Some? <==>
              && db.trigger.Some?
              && (forall i, j :: 0 <= i < j < |items| ==> items[i].resultId != items[j].resultId)
              && (forall i :: 0 <= i < |items| ==> StandsFor(env, db, items[i]) && TaskIsOver(db, items[i].taskId))
              && NoLongTermUse(env, db, items)
  {
    hide Authority, ClearRows, ReferencesReleasable, TaskIsOver, NoLongTermUse;
    if CloseTransaction(env, db, items).Some? {
      ClearRowsExactly(db.rows, items);
      forall i | 0 <= i < |items| ensures StandsFor(env, db, items[i]) {
        assert CandidateStands(env, db, items[i]);
        ReleasedIsBound(env, db, items, i);
      }
      ReleasableIff(env, db, items);
    }
    if && db.trigger.Some?
       && (forall i, j :: 0 <= i < j < |items| ==> items[i].resultId != items[j].resultId)
       && (forall i :: 0 <= i < |items| ==> StandsFor(env, db, items[i]) && TaskIsOver(db, items[i].taskId))
       && NoLongTermUse(env, db, items) {
      ReleasableIff(env, db, items);
      forall i | 0 <= i < |items| ensures CandidateStands(env, db, items[i]) {
        assert StandsFor(env, db, items[i]);
      }
      DistinctDualRowsClear(db.rows, items);
    }
  }

  lemma ReleasedIsBound(env: Env, db: Db, items: seq<Candidate>, i: nat)
    requires ReferencesReleasable(env, db, items) && i < |items| && items[i].resultId in db.rows
    ensures db.rows[items[i].resultId].taskId == items[i].taskId
  {
    hide Read, TaskReleasable;
  }

  /** Where the candidates come from: `pos[k]` is the row that candidate `k` is. */
  ghost predicate Positions(rows: seq<Row>, items: seq<Candidate>, pos: seq<nat>) {
    && |pos| == |items|
    && (forall k :: 0 <= k < |pos| ==>
          pos[k] < |rows| && IsDual(rows[pos[k]]) && items[k] == AsCandidate(rows[pos[k]]))
    && (forall j, k :: 0 <= j < k < |pos| ==> pos[j] < pos[k])
    && (forall i :: 0 <= i < |rows| && IsDual(rows[i]) ==> i in pos)
  }

  lemma {:induction false} CandidatePositions(rows: seq<Row>) returns (pos: seq<nat>)
    ensures Positions(rows, CandidatesIn(rows), pos)
  {
    hide IsDual;
    pos := [];
    if rows != [] {
      var rest := CandidatePositions(rows[1..]);
      pos := PositionsStep(rows, CandidatesIn(rows[1..]), rest);
    }
  }

  lemma PositionsStep(rows: seq<Row>, items: seq<Candidate>, rest: seq<nat>) returns (pos: seq<nat>)
    requires rows != [] && Positions(rows[1..], items, rest)
    ensures Positions(rows, if IsDual(rows[0]) then [AsCandidate(rows[0])] + items else items, pos)
  {
    hide IsDual, AsCandidate, Positions;
    var later := Later(rows, items, rest);
    pos := if IsDual(rows[0]) then [0] + later else later;
    if IsDual(rows[0]) {
      FirstPosition(rows, items, later);
    } else {
      NoFirstPosition(rows, items, later);
    }
  }

  /** Positions of all dual rows but the first row. */
  ghost predicate LaterPositions(rows: seq<Row>, items: seq<Candidate>, later: seq<nat>) {
    && |later| == |items|
    && (forall k :: 0 <= k < |later| ==>
          0 < later[k] < |rows| && IsDual(rows[later[k]]) && items[k] == AsCandidate(rows[later[k]]))
    && (forall j, k :: 0 <= j < k < |later| ==> later[j] < later[k])
    && (forall i :: 0 < i < |rows| && IsDual(rows[i]) ==> i in later)
  }

  lemma Later(rows: seq<Row>, items: seq<Candidate>, rest: seq<nat>) returns (later: seq<nat>)
    requires rows != [] && Positions(rows[1..], items, rest)
    ensures LaterPositions(rows, items, later)
  {
    hide IsDual, AsCandidate;
    var tail := rows[1..];
    later := seq(|rest|, k requires 0 <= k < |rest| => rest[k] + 1);
    assert forall i :: 0 <= i < |tail| ==> tail[i] == rows[i+1];
    forall i | 0 < i < |rows| && IsDual(rows[i]) ensures i in later {
      assert tail[i-1] == rows[i] && i - 1 in rest;
      var k :| 0 <= k < |rest| && rest[k] == i - 1;
      assert later[k] == i;
    }
  }

  lemma NoFirstPosition(rows: seq<Row>, items: seq<Candidate>, later: seq<nat>)
    requires rows != [] && !IsDual(rows[0]) && LaterPositions(rows, items, later)
    ensures Positions(rows, items, later)
  {
    hide IsDual, AsCandidate;
  }

  lemma FirstPosition(rows: seq<Row>, items: seq<Candidate>, later: seq<nat>)
    requires rows != [] && IsDual(rows[0]) && LaterPositions(rows, items, later)
    ensures Positions(rows, [AsCandidate(rows[0])] + items, [0] + later)
  {
    hide IsDual, AsCandidate;
    var pos, all := [0] + later, [AsCandidate(rows[0])] + items;
    assert forall k :: 1 <= k < |pos| ==> pos[k] == later[k-1] && all[k] == items[k-1];
  }

  /** The task of a dual row is over. */
  ghost predicate DualTasksAreOver(db: Db) {
    forall id :: id in db.rows && db.rows[id].ready && db.rows[id].canonical != [] ==> TaskIsOver(db, db.rows[id].taskId)
  }

  /** Row number `i` is the last dual row of its task. */
  predicate LastDual(db: Db, i: nat)
    requires ValidDb(db) && i < |db.ids|
  {
    && IsDual(db.rows[db.ids[i]])
    && forall j :: i < j < |db.ids| && IsDual(db.rows[db.ids[j]]) ==> db.rows[db.ids[j]].taskId != db.rows[db.ids[i]].taskId
  }

  ghost predicate DualsHaveNoLongTermUse(env: Env, db: Db)
    requires ValidDb(db)
  {
    forall i :: 0 <= i < |db.ids| && LastDual(db, i) && db.rows[db.ids[i]].taskId in db.snapshots ==>
      !env.longTerm(db.snapshots[db.rows[db.ids[i]].taskId], db.rows[db.ids[i]].canonical)
  }

  lemma CandidatesStandForDuals(env: Env, db: Db, pos: seq<nat>)
    requires ValidDb(db) && AllCollectable(env, db)
    requires Positions(RowsInOrder(db), CandidatesIn(RowsInOrder(db)), pos)
    ensures var items := CandidatesIn(RowsInOrder(db));
            && (forall k :: 0 <= k < |items| ==> StandsFor(env, db, items[k]))
            && ((forall k :: 0 <= k < |items| ==> TaskIsOver(db, items[k].taskId)) <==> DualTasksAreOver(db))
  {
    hide Authority, CandidatesIn, TaskIsOver;
    var rows, items := RowsInOrder(db), CandidatesIn(RowsInOrder(db));
    forall k | 0 <= k < |items| ensures StandsFor(env, db, items[k]) {
      assert RowCollectable(env, db, db.rows[db.ids[pos[k]]]) && rows[pos[k]] == db.rows[db.ids[pos[k]]];
      assert db.ids[pos[k]] in db.ids;
    }
    if forall k :: 0 <= k < |items| ==> TaskIsOver(db, items[k].taskId) {
      forall id | id in db.rows && IsDual(db.rows[id]) ensures TaskIsOver(db, db.rows[id].taskId) {
        var i :| 0 <= i < |db.ids| && db.ids[i] == id;
        assert rows[i] == db.rows[id] && i in pos;
        var k :| 0 <= k < |pos| && pos[k] == i;
        assert TaskIsOver(db, items[k].taskId);
      }
    }
    if DualTasksAreOver(db) {
      forall k | 0 <= k < |items| ensures TaskIsOver(db, items[k].taskId) {
        assert rows[pos[k]] == db.rows[db.ids[pos[k]]] && db.ids[pos[k]] in db.ids;
      }
    }
  }

  lemma LastCandidateIsLastDual(db: Db, pos: seq<nat>, k: nat)
    requires ValidDb(db) && Positions(RowsInOrder(db), CandidatesIn(RowsInOrder(db)), pos) && k < |pos|
    ensures LastOfTask(CandidatesIn(RowsInOrder(db)), k) <==> LastDual(db, pos[k])
  {
    hide CandidatesIn, IsDual;
    var rows, items := RowsInOrder(db), CandidatesIn(RowsInOrder(db));
    assert rows[pos[k]] == db.rows[db.ids[pos[k]]];
    if LastOfTask(items, k) {
      forall j | pos[k] < j < |db.ids| && IsDual(db.rows[db.ids[j]])
        ensures db.rows[db.ids[j]].taskId != db.rows[db.ids[pos[k]]].taskId
      {
        assert rows[j] == db.rows[db.ids[j]] && j in pos;
        var m :| 0 <= m < |pos| && pos[m] == j;
        assert m > k && items[m].taskId == rows[j].taskId;
      }
    }
    if LastDual(db, pos[k]) {
      forall m | k < m < |items| ensures items[m].taskId != items[k].taskId {
        assert rows[pos[m]] == db.rows[db.ids[pos[m]]];
      }
    }
  }

  lemma SameLongTermUse(env: Env, db: Db, pos: seq<nat>)
    requires ValidDb(db) && Positions(RowsInOrder(db), CandidatesIn(RowsInOrder(db)), pos)
    ensures NoLongTermUse(env, db, CandidatesIn(RowsInOrder(db))) <==> DualsHaveNoLongTermUse(env, db)
  {
    hide CandidatesIn, IsDual, LastOfTask;
    var rows, items := RowsInOrder(db), CandidatesIn(RowsInOrder(db));
    forall k | 0 <= k < |pos|
      ensures LastOfTask(items, k) <==> LastDual(db, pos[k])
      ensures items[k].fingerprint == db.rows[db.ids[pos[k]]] && items[k].taskId == db.rows[db.ids[pos[k]]].taskId
    {
      LastCandidateIsLastDual(db, pos, k);
    }
    if NoLongTermUse(env, db, items) {
      forall i | 0 <= i < |db.ids| && LastDual(db, i) && db.rows[db.ids[i]].taskId in db.snapshots
        ensures !env.longTerm(db.snapshots[db.rows[db.ids[i]].taskId], db.rows[db.ids[i]].canonical)
      {
        assert rows[i] == db.rows[db.ids[i]] && i in pos;
        var k :| 0 <= k < |pos| && pos[k] == i;
        assert LastOfTask(items, k);
      }
    }
  }

  /**
   A preview succeeds exactly when every result verifies, what is kept twice is the same
   twice, the task of each such row is over, not online and not in long-term use, and
   the rollout is tracked.
   */
  lemma CollectsIff(env: Env, db: Db)
    requires ValidDb(db)
    ensures Collect(env, db).Some? <==>
              && (forall id :: id in db.rows ==> Read(env, db, id).Some?)
              && (forall id :: id in db.rows && db.rows[id].ready && db.rows[id].canonical != [] ==>
                    Read(env, db, id) == Some(db.rows[id].canonical))
              && DualTasksAreOver(db) && DualsHaveNoLongTermUse(env, db)
              && db.rollout.Some? && db.rollout.value.state != "" && db.rollout.value.revision >= 1
  {
    hide Authority, CandidatesIn, ReferencesReleasable, NoLongTermUse, DualTasksAreOver, DualsHaveNoLongTermUse, Positions;
    AllCollectableIff(env, db);
    var pos := CandidatePositions(RowsInOrder(db));
    if AllCollectable(env, db) {
      CandidatesStandForDuals(env, db, pos);
      ReleasableIff(env, db, CandidatesIn(RowsInOrder(db)));
      SameLongTermUse(env, db, pos);
    }
  }

  lemma AllCollectableIff(env: Env, db: Db)
    requires ValidDb(db)
    ensures AllCollectable(env, db) <==>
              && (forall id :: id in db.rows ==> Read(env, db, id).Some?)
              && (forall id :: id in db.rows && db.rows[id].ready && db.rows[id].canonical != [] ==>
                    Read(env, db, id) == Some(db.rows[id].canonical))
  {
    hide Authority;
    if AllCollectable(env, db) {
      forall id | id in db.rows
        ensures Read(env, db, id).Some?
        ensures db.rows[id].ready && db.rows[id].canonical != [] ==> Read(env, db, id) == Some(db.rows[id].canonical)
      {
        var i :| 0 <= i < |db.ids| && db.ids[i] == id;
        assert RowCollectable(env, db, db.rows[db.ids[i]]);
      }
    }
    if && (forall id :: id in db.rows ==> Read(env, db, id).Some?)
       && (forall id :: id in db.rows && db.rows[id].ready && db.rows[id].canonical != [] ==>
             Read(env, db, id) == Some(db.rows[id].canonical)) {
      forall i | 0 <= i < |db.ids| ensures RowCollectable(env, db, db.rows[db.ids[i]]) {
        assert db.ids[i] in db.ids && Read(env, db, db.ids[i]).Some?;
      }
    }
  }

  // ---- What the checks afterwards compare ----

  /** The same results in the same order, alike in every column but the inline copy, the version and the time. */
  ghost predicate SameReferences(a: Db, b: Db) {
    && a.ids == b.ids
    && forall id :: id in a.rows && id in b.rows ==>
         && a.rows[id].taskId == b.rows[id].taskId && a.rows[id].terminalEventType == b.rows[id].terminalEventType
         && a.rows[id].sha256 == b.rows[id].sha256 && a.rows[id].byteSize == b.rows[id].byteSize
         && a.rows[id].contentSha256 == b.rows[id].contentSha256
         && a.rows[id].codec == b.rows[id].codec && a.rows[id].ready == b.rows[id].ready
  }

  lemma SameEntriesIff(a: Db, b: Db)
    requires ValidDb(a) && ValidDb(b) && a.ids == b.ids
    ensures Entries(a) == Entries(b) <==> SameReferences(a, b)
  {
    hide ValidDb, EntryOf, SameReferences;
    assert |Entries(a)| == |Entries(b)|;
    if Entries(a) == Entries(b) {
      forall id | id in a.rows && id in b.rows ensures EntryOf(a.rows[id]) == EntryOf(b.rows[id]) {
        EntryAt(a, b, id);
      }
      AlikeMeansSame(a, b);
    }
    if SameReferences(a, b) {
      forall i | 0 <= i < |a.ids| ensures Entries(a)[i] == Entries(b)[i] {
        EntryFollows(a, b, i);
      }
    }
  }

  lemma EntryFollows(a: Db, b: Db, i: nat)
    requires ValidDb(a) && ValidDb(b) && SameReferences(a, b) && i < |a.ids|
    ensures a.ids[i] in a.rows && a.ids[i] in b.rows && EntryOf(a.rows[a.ids[i]]) == EntryOf(b.rows[a.ids[i]])
  {
    var id := a.ids[i];
    assert id in a.ids && id in b.ids;
    assert a.rows[id].resultId == id == b.rows[id].resultId;
  }

  lemma AlikeMeansSame(a: Db, b: Db)
    requires ValidDb(a) && ValidDb(b) && a.ids == b.ids
    requires forall id :: id in a.rows && id in b.rows ==> EntryOf(a.rows[id]) == EntryOf(b.rows[id])
    ensures SameReferences(a, b)
  {
    forall id | id in a.rows && id in b.rows
      ensures a.rows[id].taskId == b.rows[id].taskId && a.rows[id].terminalEventType == b.rows[id].terminalEventType
      ensures a.rows[id].sha256 == b.rows[id].sha256 && a.rows[id].byteSize == b.rows[id].byteSize
      ensures a.rows[id].contentSha256 == b.rows[id].contentSha256
      ensures a.rows[id].codec == b.rows[id].codec && a.rows[id].ready == b.rows[id].ready
    {
      assert EntryOf(a.rows[id]) == EntryOf(b.rows[id]);
    }
  }

  lemma EntryAt(a: Db, b: Db, id: string)
    requires ValidDb(a) && ValidDb(b) && a.ids == b.ids && Entries(a) == Entries(b) && id in a.rows && id in b.rows
    ensures EntryOf(a.rows[id]) == EntryOf(b.rows[id])
  {
    hide EntryOf;
    var i :| 0 <= i < |a.ids| && a.ids[i] == id;
    assert Entries(a)[i] == Entries(b)[i];
  }

  /** The checks after a write pass exactly when references, tasks, events, schema and guard are what they were, and as many blobs. */
  lemma PostCheckIff(env: Env, a: Db, b: Db)
    requires ValidDb(a) && ValidDb(b) && Collect(env, a).Some? && Collect(env, b).Some?
    ensures PostCheck(Collect(env, b).value, Collect(env, a).value) <==>
              && SameReferences(a, b) && a.snapshots == b.snapshots && a.events == b.events && |a.blobs| == |b.blobs|
              && a.schema == b.schema && a.trigger == b.trigger && a.userVersion == b.userVersion
  {
    hide AllCollectable, ReferencesReleasable, CandidatesIn, SameReferences;
    if a.ids == b.ids {
      SameEntriesIff(a, b);
    }
    assert SameReferences(a, b) ==> a.ids == b.ids by { SameReferencesSameIds(a, b); }
  }

  lemma SameReferencesSameIds(a: Db, b: Db)
    ensures SameReferences(a, b) ==> a.ids == b.ids
  {
  }

  /** A plan counts as applied exactly when the checks pass and nothing is kept twice, with the same rollout and the same blobs. */
  lemma AlreadyAppliedIff(env: Env, a: Db, b: Db)
    requires ValidDb(a) && ValidDb(b) && Collect(env, a).Some?
    ensures AlreadyApplied(env, b, Collect(env, a).value) <==>
              && Collect(env, b).Some? && PostCheck(Collect(env, b).value, Collect(env, a).value)
              && (forall id :: id in b.rows ==> !b.rows[id].ready || b.rows[id].canonical == [])
              && a.rollout == b.rollout && a.blobs == b.blobs
  {
    hide AllCollectable, ReferencesReleasable, PostCheck, CandidatesIn;
    var rows := RowsInOrder(b);
    CandidatesAreDualRows(rows);
    if CandidatesIn(rows) == [] {
      forall id | id in b.rows ensures !IsDual(b.rows[id]) {
        var i :| 0 <= i < |b.ids| && b.ids[i] == id;
        assert rows[i] == b.rows[id] && !Names(CandidatesIn(rows), id);
      }
    }
    if forall id :: id in b.rows ==> !IsDual(b.rows[id]) {
      assert forall i :: 0 <= i < |rows| ==> b.ids[i] in b.ids;
      NoDualRowsNoCandidates(rows);
    }
  }

  lemma SameEntriesSameRead(env: Env, a: Db, b: Db, i: nat)
    requires SoundHash(env) && ValidDb(a) && ValidDb(b)
    requires AllCollectable(env, a) && AllCollectable(env, b) && Entries(a) == Entries(b)
    requires i < |a.ids|
    ensures |b.ids| == |a.ids| && a.ids[i] == b.ids[i] && Read(env, a, a.ids[i]) == Read(env, b, a.ids[i])
  {
    assert |Entries(a)| == |a.ids| && |Entries(b)| == |b.ids|;
    assert Entries(a)[i] == EntryOf(a.rows[a.ids[i]]) && Entries(b)[i] == EntryOf(b.rows[b.ids[i]]);
    assert a.rows[a.ids[i]].resultId == a.ids[i] && b.rows[b.ids[i]].resultId == b.ids[i];
    assert RowCollectable(env, a, a.rows[a.ids[i]]) && RowCollectable(env, b, b.rows[b.ids[i]]);
  }

  /**
   Two databases that verify and agree on the authority digest read the same,
   whatever happened to either in between.
   */
  lemma SameAuthorityReadsTheSame(env: Env, a: Db, b: Db)
    requires SoundHash(env) && ValidDb(a) && ValidDb(b)
    requires AllCollectable(env, a) && AllCollectable(env, b) && Entries(a) == Entries(b)
    ensures a.ids == b.ids && KeepsReads(env, a, b) && KeepsReads(env, b, a)
  {
    assert |Entries(a)| == |a.ids| && |Entries(b)| == |b.ids|;
    forall i | 0 <= i < |a.ids|
      ensures a.ids[i] == b.ids[i] && Read(env, a, a.ids[i]) == Read(env, b, a.ids[i])
    {
      SameEntriesSameRead(env, a, b, i);
    }
    assert a.ids == b.ids;
    SameIdsSameKeys(a, b);
    forall id | id in a.rows ensures Read(env, a, id) == Read(env, b, id) {
      assert id in a.ids;
    }
  }

  lemma SameIdsSameKeys(a: Db, b: Db)
    requires ValidDb(a) && ValidDb(b) && a.ids == b.ids
    ensures a.rows.Keys == b.rows.Keys
  {
    forall id ensures id in a.rows <==> id in b.rows {
      assert id in a.ids <==> id in b.ids;
    }
  }
}
