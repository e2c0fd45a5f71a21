/**
 The counters a dry run reports, and what they predict about the migration
 (scripts/maintenance/migrate_task_result_blobs.py).
 */
module DryRun {
  import opened Bytes
  import opened TaskResults
  import opened BlobMigration

  datatype Verdict = AlreadyBlobbed | HashMismatch | NotAnObject | Convertible

  function VerdictOf(env: Env, row: Row): Verdict {
    if row.ready then AlreadyBlobbed
    else if env.sha(row.canonical) != row.sha256 || |row.canonical| != ExpectedBytes(row.byteSize) then HashMismatch
    else if !env.isObject(row.canonical) then NotAnObject
    else Convertible
  }

  function Count(env: Env, rows: seq<Row>, verdict: Verdict): nat {
    if rows == [] then 0
    else Count(env, rows[..|rows|-1], verdict) + if VerdictOf(env, rows[|rows|-1]) == verdict then 1 else 0
  }

  /** The distinct bodies the migration would store. */
  function Contents(env: Env, rows: seq<Row>): set<string> {
    set i | 0 <= i < |rows| && VerdictOf(env, rows[i]) == Convertible :: env.sha(rows[i].canonical)
  }

  function ContentBytes(env: Env, rows: seq<Row>): nat {
    if rows == [] then 0
    else ContentBytes(env, rows[..|rows|-1]) +
         if VerdictOf(env, rows[|rows|-1]) == Convertible then |rows[|rows|-1].canonical| else 0
  }

  datatype Prediction = Prediction(
    total: nat,
    alreadyBlobbed: nat,
    candidates: nat,
    hashMismatch: nat,
    failed: nat,
    unique: nat,
    duplicates: int,
    bytes: nat)

  lemma ContentsGrow(env: Env, rows: seq<Row>, i: nat)
    requires i < |rows|
    ensures Contents(env, rows[..i+1]) ==
            Contents(env, rows[..i]) + if VerdictOf(env, rows[i]) == Convertible then {env.sha(rows[i].canonical)} else {}
  {
    hide VerdictOf;
    var before, after := rows[..i], rows[..i+1];
    forall d | d in Contents(env, before) ensures d in Contents(env, after) {
      var k :| 0 <= k < i && VerdictOf(env, before[k]) == Convertible && env.sha(before[k].canonical) == d;
      assert after[k] == before[k];
    }
    forall d | d in Contents(env, after) && !(VerdictOf(env, rows[i]) == Convertible && d == env.sha(rows[i].canonical))
      ensures d in Contents(env, before)
    {
      var k :| 0 <= k < |after| && VerdictOf(env, after[k]) == Convertible && env.sha(after[k].canonical) == d;
      assert after[k] == before[k];
    }
    assert after[i] == rows[i];
  }

  /** The counters say of `rows` what they should. */
  ghost predicate Tallies(env: Env, rows: seq<Row>, p: Prediction) {
    && p.total == |rows| && p.alreadyBlobbed == Count(env, rows, AlreadyBlobbed)
    && p.hashMismatch == Count(env, rows, HashMismatch) && p.failed == Count(env, rows, NotAnObject)
    && p.candidates == p.hashMismatch + p.failed + Count(env, rows, Convertible) == p.total - p.alreadyBlobbed
    && p.unique == |Contents(env, rows)| && p.duplicates == Count(env, rows, Convertible) - p.unique
    && p.bytes == ContentBytes(env, rows)
  }

  /** What one row adds to the counters. */
  function Add(env: Env, p: Prediction, row: Row, isNew: bool): Prediction {
    var seen := p.(total := p.total + 1);
    match VerdictOf(env, row)
    case AlreadyBlobbed => seen.(alreadyBlobbed := p.alreadyBlobbed + 1)
    case HashMismatch => seen.(candidates := p.candidates + 1, hashMismatch := p.hashMismatch + 1)
    case NotAnObject => seen.(candidates := p.candidates + 1, failed := p.failed + 1)
    case Convertible => seen.(candidates := p.candidates + 1, bytes := p.bytes + |row.canonical|,
                             unique := p.unique + (if isNew then 1 else 0), duplicates := p.duplicates + (if isNew then 0 else 1))
  }

  lemma TallyStep(env: Env, rows: seq<Row>, i: nat, p: Prediction)
    requires i < |rows| && Tallies(env, rows[..i], p)
    ensures Tallies(env, rows[..i+1], Add(env, p, rows[i], env.sha(rows[i].canonical) !in Contents(env, rows[..i])))
  {
    hide VerdictOf, Contents;
    var before, after := Contents(env, rows[..i]), Contents(env, rows[..i+1]);
    assert rows[..i+1][..i] == rows[..i];
    ContentsGrow(env, rows, i);
    var digest := env.sha(rows[i].canonical);
    if VerdictOf(env, rows[i]) == Convertible && digest in before {
      assert after == before;
    } else if VerdictOf(env, rows[i]) != Convertible {
      assert after == before;
    }
  }

  /** One row: which counters move, and whether its digest is new. */
  method CountRow(env: Env, row: Row, counts: map<string, nat>, p: Prediction) returns (more: map<string, nat>, q: Prediction)
    ensures q == Add(env, p, row, env.sha(row.canonical) !in counts)
    ensures more.Keys == counts.Keys + if VerdictOf(env, row) == Convertible then {env.sha(row.canonical)} else {}
  {
    more, q := counts, p.(total := p.total + 1);
    if row.ready {
      q := q.(alreadyBlobbed := q.alreadyBlobbed + 1);
      return;
    }
    q := q.(candidates := q.candidates + 1);
    var digest := env.sha(row.canonical);
    if digest != row.sha256 || |row.canonical| != ExpectedBytes(row.byteSize) {
      q := q.(hashMismatch := q.hashMismatch + 1);
    } else if !env.isObject(row.canonical) {
      q := q.(failed := q.failed + 1);
    } else {
      q := if digest in counts then q.(duplicates := q.duplicates + 1) else q.(unique := q.unique + 1);
      q := q.(bytes := q.bytes + |row.canonical|);
      more := more[digest := (if digest in counts then counts[digest] else 0) + 1];
    }
  }

  /** One pass with a counter per digest; duplicates, the surplus over one of each, are added up as they are met. */
  method CanonicalMetrics(env: Env, rows: seq<Row>) returns (p: Prediction)
    ensures Tallies(env, rows, p)
  {
    hide Contents, Tallies, Add, VerdictOf;
    p := Prediction(0, 0, 0, 0, 0, 0, 0, 0);
    var counts: map<string, nat> := map[];
    NoContents(env);
    for i := 0 to |rows|
      invariant Tallies(env, rows[..i], p) && counts.Keys == Contents(env, rows[..i])
    {
      ContentsGrow(env, rows, i);
      TallyStep(env, rows, i, p);
      counts, p := CountRow(env, rows[i], counts, p);
    }
    assert rows[..|rows|] == rows;
  }

  lemma NoContents(env: Env)
    ensures Contents(env, []) == {} && Tallies(env, [], Prediction(0, 0, 0, 0, 0, 0, 0, 0))
  {
  }

  // ---- What the counters predict ----

  lemma RowStoresItsContent(env: Env, db: Db, row: Row, verify: bool)
    requires MigrateRow(env, db, row, verify).Some?
    ensures VerdictOf(env, row) == AlreadyBlobbed || VerdictOf(env, row) == Convertible
    ensures MigrateRow(env, db, row, verify).value.blobs.Keys ==
            db.blobs.Keys + if VerdictOf(env, row) == Convertible then {env.sha(row.canonical)} else {}
  {
    hide DecodeBlob;
  }

  /**
   A run that gets through stores exactly the contents the dry run counted, next to
   what was there; so it adds no more blobs than predicted, and it can only get
   through when the dry run reported no mismatch and no failure.
   */
  lemma {:induction false} DryRunPredictsBlobs(env: Env, db: Db, rows: seq<Row>, verify: bool)
    requires MigrateRows(env, db, rows, verify).Some?
    ensures MigrateRows(env, db, rows, verify).value.blobs.Keys == db.blobs.Keys + Contents(env, rows)
    ensures Count(env, rows, HashMismatch) == 0 && Count(env, rows, NotAnObject) == 0
  {
    hide MigrateRow, VerdictOf, Contents;
    if rows == [] {
      NoContents(env);
    } else {
      var n := |rows| - 1;
      assert rows == rows[..n] + [rows[n]] && rows[..n+1] == rows;
      MigrateRowsAppend(env, db, rows[..n], [rows[n]], verify);
      var mid := MigrateRows(env, db, rows[..n], verify).value;
      assert [rows[n]][1..] == [];
      DryRunPredictsBlobs(env, db, rows[..n], verify);
      RowStoresItsContent(env, mid, rows[n], verify);
      ContentsGrow(env, rows, n);
    }
  }
}
