/**
 One backfill run against the event store: build the groups, derive the operations,
 check for conflicts, write everything in one transaction
 (scripts/backfill_ap_optical_treatment_events.py).
 */
module BackfillRun {
  import opened Bytes
  import opened Tokens
  import opened TreatmentEvents
  import opened BackfillPlan
  import opened BackfillSafety

  // ---- Planning ----

  lemma ConsumedStep(rows: seq<Event>, i: nat, key: string)
    requires i < |rows|
    ensures Consumed(rows[..i+1], key) <==> Consumed(rows[..i], key) || Records(rows[i], key)
  {
    hide Records;
    var before, after := rows[..i], rows[..i+1];
    assert forall j :: 0 <= j < i ==> before[j] == after[j];
    assert after[i] == rows[i];
    if j :| 0 <= j < |after| && Records(after[j], key) {
      assert j < i ==> Records(before[j], key);
    }
    if j :| 0 <= j < |before| && Records(before[j], key) {
      assert Records(after[j], key);
    }
  }

  /** Every key an existing row already accounts for. */
  method ConsumedKeys(rows: seq<Event>) returns (keys: set<string>)
    ensures forall key :: key != "" ==> (key in keys <==> Consumed(rows, key))
  {
    hide Consumed, Split;
    keys := {};
    assert forall key :: !Consumed([], key) by { NothingConsumed(); }
    for i := 0 to |rows|
      invariant forall key :: key != "" ==> (key in keys <==> Consumed(rows[..i], key))
    {
      var row := rows[i];
      ghost var before := keys;
      if row.backfillKey != "" {
        keys := keys + set key | key in Split(row.backfillKey);
      }
      keys := keys + set key | key in NonEmpty(row.evidenceKeys);
      assert forall key :: key != "" ==> (key in keys <==> key in before || Records(row, key));
      forall key ensures Consumed(rows[..i+1], key) <==> Consumed(rows[..i], key) || Records(row, key) {
        ConsumedStep(rows, i, key);
      }
    }
    assert rows[..|rows|] == rows;
  }

  lemma NothingConsumed()
    ensures forall key :: !Consumed([], key)
  {
  }

  /** What looking keys up after the first rows gives. */
  ghost predicate Indexes(byKey: map<string, nat>, rows: seq<Event>) {
    && (forall key :: key in byKey <==> HolderOf(rows, key).Some?)
    && (forall key :: key in byKey ==> byKey[key] == HolderOf(rows, key).value)
  }

  /** Every key of one row leads to that row from now on. */
  method IndexRow(row: Event, i: nat, before: map<string, nat>) returns (byKey: map<string, nat>)
    ensures forall key :: key in byKey <==> key in before || Holds(row, key)
    ensures forall key :: key in byKey ==> byKey[key] == if Holds(row, key) then i else before[key]
  {
    var keys := row.evidenceKeys;
    byKey := before[row.backfillKey := i];
    for k := 0 to |keys|
      invariant forall key :: key in byKey <==> key in before || key == row.backfillKey || key in keys[..k]
      invariant forall key :: key in byKey ==>
        byKey[key] == if key == row.backfillKey || key in keys[..k] then i else before[key]
    {
      byKey := byKey[keys[k] := i];
      assert keys[..k+1] == keys[..k] + [keys[k]];
    }
    assert keys[..|keys|] == keys;
  }

  lemma HolderStep(rows: seq<Event>, i: nat, key: string)
    requires i < |rows|
    ensures HolderOf(rows[..i+1], key) == if Holds(rows[i], key) then Some(i) else HolderOf(rows[..i], key)
  {
    assert rows[..i+1][..i] == rows[..i];
  }

  /** The later row wins where two rows hold the same key. */
  method IndexByKey(rows: seq<Event>) returns (byKey: map<string, nat>)
    ensures forall key :: key in byKey <==> HolderOf(rows, key).Some?
    ensures forall key :: key in byKey ==> byKey[key] == HolderOf(rows, key).value
  {
    hide Holds;
    byKey := map[];
    for i := 0 to |rows|
      invariant Indexes(byKey, rows[..i])
    {
      byKey := IndexRow(rows[i], i, byKey);
      forall key ensures HolderOf(rows[..i+1], key) == if Holds(rows[i], key) then Some(i) else HolderOf(rows[..i], key) {
        HolderStep(rows, i, key);
      }
    }
    assert rows[..|rows|] == rows;
  }

  /** Takes one candidate into the groups. */
  method PlaceCandidate(r: Readers, groups: seq<Event>, n: nat, c: Event) returns (placed: seq<Event>)
    requires n <= |groups|
    ensures placed == Place(r, groups, n, c)
  {
    hide MergeEvent, FirstCovering, FirstTwin;
    var target := FirstCovering(r, groups, c, 0, n);
    if target.None? {
      target := FirstTwin(groups, c, 0);
    }
    match target
    case Some(i) => placed := groups[i := MergeEvent(r, groups[i], c)];
    case None => placed := groups + [c];
  }

  /** Summaries first; then each candidate that is new joins a group or starts one. */
  method BuildGroups(r: Readers, rows: seq<Event>, summaries: seq<Event>, cs: seq<Event>) returns (groups: seq<Event>)
    requires forall i :: 0 <= i < |cs| ==> cs[i].backfillKey != ""
    ensures groups == Groups(r, rows, summaries, cs)
  {
    hide Consumed, Place;
    var consumed := ConsumedKeys(rows);
    groups := summaries;
    for k := 0 to |cs|
      invariant groups == PlaceAll(r, summaries, Unconsumed(rows, cs[..k])) && |summaries| <= |groups|
    {
      assert cs[..k+1][..k] == cs[..k];
      if cs[k].backfillKey !in consumed {
        ghost var taken := Unconsumed(rows, cs[..k]);
        assert (taken + [cs[k]])[..|taken|] == taken;
        groups := PlaceCandidate(r, groups, |summaries|, cs[k]);
      }
    }
    assert cs[..|cs|] == cs;
  }

  method BuildOperations(rows: seq<Event>, groups: seq<Event>) returns (ops: seq<Op>)
    ensures ops == OpsFor(rows, groups)
  {
    hide Consumed, HolderOf, KeysOf, AppendEvidence;
    var consumed := ConsumedKeys(rows);
    var byKey := IndexByKey(rows);
    ops := [];
    for g := 0 to |groups|
      invariant ops == OpsFor(rows, groups[..g])
    {
      var group := groups[g];
      var keys := KeysOf(group);
      assert groups[..g+1][..g] == groups[..g];
      var news := false;
      var current: Option<nat> := None;
      for k := 0 to |keys|
        invariant news <==> exists i :: 0 <= i < k && keys[i] != "" && !Consumed(rows, keys[i])
        invariant current.Some? ==> current == FirstHolder(rows, keys)
        invariant current.None? ==> FirstHolder(rows, keys) == FirstHolder(rows, keys[k..])
      {
        news := news || (keys[k] != "" && keys[k] !in consumed);
        if current.None? && keys[k] in byKey {
          current := Some(byKey[keys[k]]);
        }
        assert keys[k..][0] == keys[k] && keys[k..][1..] == keys[k+1..];
      }
      assert current == FirstHolder(rows, keys);
      assert news == HasNews(rows, group);
      if news {
        match current
        case None => ops := ops + [Create(group)];
        case Some(id) => ops := ops + [Update(id, AppendEvidence(rows[id], group))];
      }
    }
    assert groups[..|groups|] == groups;
  }

  /** Counts the open events each access point would have. */
  method HasConflict(rows: seq<Event>, ops: seq<Op>) returns (conflict: bool)
    ensures conflict <==> Conflicting(rows, ops)
  {
    var projected := rows;
    for k := 0 to |ops|
      invariant projected == rows + Created(ops[..k])
    {
      assert ops[..k+1][..k] == ops[..k];
      if ops[k].Create? {
        projected := projected + [ops[k].event];
      }
    }
    assert ops[..|ops|] == ops;
    var counts: map<string, nat> := map[];
    for k := 0 to |projected|
      invariant forall identity :: OpenCount(projected[..k], identity) == if identity in counts then counts[identity] else 0
    {
      assert projected[..k+1][..k] == projected[..k];
      var row := projected[k];
      if row.status == Open {
        counts := counts[row.identity := (if row.identity in counts then counts[row.identity] else 0) + 1];
      }
    }
    assert projected[..|projected|] == projected;
    conflict := exists identity :: identity in counts && identity != "" && counts[identity] > 1;
  }

  // ---- Writing ----

  function EventCount(rows: seq<Event>, identity: string): nat {
    if rows == [] then 0
    else EventCount(rows[..|rows|-1], identity) + if rows[|rows|-1].identity == identity then 1 else 0
  }

  function EventsOf(rows: seq<Event>, identity: string): set<int> {
    set i | 0 <= i < |rows| && rows[i].identity == identity
  }

  lemma EventsOfStep(rows: seq<Event>, identity: string)
    requires rows != []
    ensures var n := |rows| - 1;
            && n !in EventsOf(rows[..n], identity)
            && EventsOf(rows, identity) == EventsOf(rows[..n], identity) + if rows[n].identity == identity then {n} else {}
  {
    assert forall i :: 0 <= i < |rows| - 1 ==> rows[..|rows|-1][i] == rows[i];
  }

  /** The recount is over the events of the access point, each counted once. */
  lemma {:induction false} EventCountIsSize(rows: seq<Event>, identity: string)
    ensures EventCount(rows, identity) == |EventsOf(rows, identity)|
  {
    if rows == [] {
      assert EventsOf(rows, identity) == {};
    } else {
      hide EventsOf;
      EventCountIsSize(rows[..|rows|-1], identity);
      EventsOfStep(rows, identity);
    }
  }

  /** The store of one site: its events, and the recurrence count of each summary row by access point. */
  class EventStore {
    var events: seq<Event>
    var recurrence: map<string, nat>

    constructor (events: seq<Event>, recurrence: map<string, nat>)
      ensures this.events == events && this.recurrence == recurrence
    {
      this.events := events;
      this.recurrence := recurrence;
    }

    ghost predicate Recounted()
      reads this
    {
      forall identity :: identity in recurrence ==>
        recurrence[identity] == if EventCount(events, identity) > 1 then EventCount(events, identity) - 1 else 0
    }

    method Execute(op: Op)
      modifies `events
      ensures events == ApplyOp(old(events), op)
    {
      match op
      case Create(event) => events := events + [event];
      case Update(id, event) =>
        if id < |events| {
          events := events[id := event];
        }
    }

    /**
     Plans on the current events and writes the plan in one transaction. Statement
     number `fault` fails, if there are that many: the operations in order, then the
     recount, then the commit. Refusal and failure leave the store as it was.
     */
    method Backfill(r: Readers, summaries: seq<Event>, cs: seq<Event>, unresolved: bool, fault: nat) returns (done: bool)
      requires forall i :: 0 <= i < |cs| ==> cs[i].backfillKey != ""
      modifies this
      ensures var ops := PlanOps(r, old(events), summaries, cs);
              done <==> !unresolved && !Conflicting(old(events), ops) && fault >= |ops| + 2
      ensures done ==> events == Backfilled(r, old(events), summaries, cs)
      ensures done ==> recurrence.Keys == old(recurrence).Keys && Recounted()
      ensures !done ==> events == old(events) && recurrence == old(recurrence)
      ensures old(Recounted()) ==> Recounted()
    {
      hide Conflicting, Groups, OpsFor;
      var groups := BuildGroups(r, events, summaries, cs);
      var ops := BuildOperations(events, groups);
      var conflict := HasConflict(events, ops);
      if conflict || unresolved {
        return false;
      }
      var savedEvents, savedRecurrence := events, recurrence;
      for k := 0 to |ops|
        invariant events == ApplyOps(old(events), ops[..k]) && recurrence == old(recurrence)
        invariant k <= fault
      {
        if k == fault {
          events := savedEvents;
          return false;
        }
        Execute(ops[k]);
        assert ops[..k+1][..k] == ops[..k];
      }
      assert ops[..|ops|] == ops;
      if fault <= |ops| + 1 {
        events, recurrence := savedEvents, savedRecurrence;
        return false;
      }
      recurrence := map identity | identity in recurrence ::
        if EventCount(events, identity) > 1 then EventCount(events, identity) - 1 else 0;
      done := true;
    }
  }
}
