/**
 What repeated backfills guarantee (scripts/backfill_ap_optical_treatment_events.py):
 idempotence, no lost evidence, and at most one open event per access point.
 */
module BackfillSafety {
  import opened Bytes
  import opened Text
  import opened Tokens
  import opened TreatmentEvents
  import opened BackfillPlan

  /** The table after a successful apply. */
  function Backfilled(r: Readers, rows: seq<Event>, summaries: seq<Event>, cs: seq<Event>): seq<Event> {
    ApplyOps(rows, PlanOps(r, rows, summaries, cs))
  }

  lemma BackfilledIsWritten(r: Readers, rows: seq<Event>, summaries: seq<Event>, cs: seq<Event>)
    requires TableOk(rows) && InputOk(summaries, cs)
    ensures var groups := Groups(r, rows, summaries, cs);
            && Planned(rows, summaries, Unconsumed(rows, cs), groups)
            && NoSharedRow(rows, groups)
            && Written(rows, groups, |groups|, Backfilled(r, rows, summaries, cs))
  {
    hide FirstHolder, KeysOf, OpFor, Planned, PlaceAll;
    var pending := Unconsumed(rows, cs);
    var groups := Groups(r, rows, summaries, cs);
    PlanIsPlanned(r, rows, summaries, cs);
    forall i, j | 0 <= i < j < |groups| && Updates(rows, groups[i]) && Updates(rows, groups[j])
      ensures OpFor(rows, groups[i]).value.id != OpFor(rows, groups[j]).value.id
    {
      OpForShape(rows, groups[i]);
      OpForShape(rows, groups[j]);
      DistinctRows(rows, summaries, pending, groups, i, j);
    }
    assert groups[..|groups|] == groups;
    ApplyWrites(rows, groups, |groups|);
  }

  // ---- The table stays well-formed ----

  lemma AppendedKeys(row: Event, group: Event)
    ensures var after := AppendEvidence(row, group);
            && after.backfillKey == (if row.backfillKey != "" then row.backfillKey else group.backfillKey)
            && after.identity == row.identity && after.status == row.status
            && (forall key :: key in after.evidenceKeys <==>
                  key != "" && (key in row.evidenceKeys || key in group.evidenceKeys))
  {
    forall key ensures key in row.evidenceKeys + group.evidenceKeys <==> key in row.evidenceKeys || key in group.evidenceKeys {}
  }

  lemma GroupIsRowOk(rows: seq<Event>, summaries: seq<Event>, cs: seq<Event>, groups: seq<Event>, i: nat)
    requires Planned(rows, summaries, cs, groups) && i < |groups|
    ensures RowOk(groups[i]) && groups[i].backfillKey != ""
    ensures forall key :: key in groups[i].evidenceKeys ==> key != ""
    ensures forall key :: key in groups[i].evidenceKeys && IsSummaryKey(key) ==>
              i < |summaries| && key == groups[i].backfillKey
  {
    forall key | key in groups[i].evidenceKeys
      ensures key != "" && (IsSummaryKey(key) ==> i < |summaries| && key == groups[i].backfillKey)
    {
      if FromCandidates(cs, key) {
        var c :| 0 <= c < |cs| && cs[c].backfillKey == key;
        assert OwnKey(cs[c]);
      } else {
        assert OwnKey(summaries[i]);
      }
    }
  }

  lemma UpdatedRowIsOk(rows: seq<Event>, summaries: seq<Event>, cs: seq<Event>, groups: seq<Event>, i: nat)
    requires Planned(rows, summaries, cs, groups) && i < |groups| && Updates(rows, groups[i])
    ensures RowOk(OpFor(rows, groups[i]).value.event)
  {
    hide FirstHolder, KeysOf, HasNews, AppendEvidence;
    OpForShape(rows, groups[i]);
    HolderIsSummaryHolder(rows, summaries, cs, groups, i);
    GroupIsRowOk(rows, summaries, cs, groups, i);
    var id := OpFor(rows, groups[i]).value.id;
    AppendedKeys(rows[id], groups[i]);
    assert RowOk(rows[id]) && Holds(rows[id], groups[i].backfillKey);
    assert OwnKey(summaries[i]);
  }

  lemma BackfilledIsOk(r: Readers, rows: seq<Event>, summaries: seq<Event>, cs: seq<Event>)
    requires TableOk(rows) && InputOk(summaries, cs)
    ensures TableOk(Backfilled(r, rows, summaries, cs))
  {
    hide OpFor, RowOk, PlaceAll;
    var groups := Groups(r, rows, summaries, cs);
    var next := Backfilled(r, rows, summaries, cs);
    BackfilledIsWritten(r, rows, summaries, cs);
    forall j | 0 <= j < |next| ensures RowOk(next[j]) {
      assert Explained(rows, groups, |groups|, next, j);
      if j >= |rows| {
        var p :| 0 <= p < |groups| && Creates(rows, groups[p]) && next[j] == groups[p];
        GroupIsRowOk(rows, summaries, Unconsumed(rows, cs), groups, p);
      } else if next[j] != rows[j] {
        var p :| 0 <= p < |groups| && OpFor(rows, groups[p]) == Some(Update(j, next[j]));
        UpdatedRowIsOk(rows, summaries, Unconsumed(rows, cs), groups, p);
      }
    }
  }

  // ---- Idempotence ----

  lemma ConsumedStays(rows: seq<Event>, groups: seq<Event>, next: seq<Event>, key: string)
    requires Written(rows, groups, |groups|, next) && Consumed(rows, key)
    ensures Consumed(next, key)
  {
    hide OpFor, AppendEvidence, RowOfCreate;
    var i :| 0 <= i < |rows| && Records(rows[i], key);
    assert Explained(rows, groups, |groups|, next, i);
    if next[i] != rows[i] {
      var p :| 0 <= p < |groups| && OpFor(rows, groups[p]) == Some(Update(i, next[i]));
      OpForShape(rows, groups[p]);
      AppendedKeys(rows[i], groups[p]);
    }
    assert Records(next[i], key);
  }

  lemma GroupKeyIsConsumed(rows: seq<Event>, summaries: seq<Event>, cs: seq<Event>, groups: seq<Event>,
                           next: seq<Event>, p: nat, key: string)
    requires Planned(rows, summaries, cs, groups) && Written(rows, groups, |groups|, next)
    requires p < |groups| && key in groups[p].evidenceKeys
    ensures Consumed(next, key)
  {
    hide OpFor, AppendEvidence, RowOfCreate, FirstHolder;
    GroupIsRowOk(rows, summaries, cs, groups, p);
    OpForShape(rows, groups[p]);
    assert Done(rows, groups, p, next);
    if Creates(rows, groups[p]) {
      assert Records(next[RowOfCreate(rows, groups, p)], key);
    } else if Updates(rows, groups[p]) {
      var id := OpFor(rows, groups[p]).value.id;
      AppendedKeys(rows[id], groups[p]);
      assert Records(next[id], key);
    } else {
      assert key in KeysOf(groups[p]);
      var k :| 0 <= k < |KeysOf(groups[p])| && KeysOf(groups[p])[k] == key;
      ConsumedStays(rows, groups, next, key);
    }
  }

  lemma AllConsumed(r: Readers, rows: seq<Event>, summaries: seq<Event>, cs: seq<Event>)
    requires TableOk(rows) && InputOk(summaries, cs)
    ensures var next := Backfilled(r, rows, summaries, cs);
            && (forall i :: 0 <= i < |cs| ==> Consumed(next, cs[i].backfillKey))
            && (forall i :: 0 <= i < |summaries| ==> Consumed(next, summaries[i].backfillKey))
  {
    hide Consumed, PlaceAll, Written;
    var pending := Unconsumed(rows, cs);
    var groups := Groups(r, rows, summaries, cs);
    var next := Backfilled(r, rows, summaries, cs);
    BackfilledIsWritten(r, rows, summaries, cs);
    forall i | 0 <= i < |cs| ensures Consumed(next, cs[i].backfillKey) {
      if Consumed(rows, cs[i].backfillKey) {
        ConsumedStays(rows, groups, next, cs[i].backfillKey);
      } else {
        assert cs[i] in pending;
        var k :| 0 <= k < |pending| && pending[k] == cs[i];
        var p :| 0 <= p < |groups| && pending[k].backfillKey in groups[p].evidenceKeys;
        GroupKeyIsConsumed(rows, summaries, pending, groups, next, p, cs[i].backfillKey);
      }
    }
    forall i | 0 <= i < |summaries| ensures Consumed(next, summaries[i].backfillKey) {
      GroupKeyIsConsumed(rows, summaries, pending, groups, next, i, summaries[i].backfillKey);
    }
  }

  lemma {:induction false} NoNewsNoOps(rows: seq<Event>, summaries: seq<Event>)
    requires forall i :: 0 <= i < |summaries| ==> OwnKey(summaries[i]) && Consumed(rows, summaries[i].backfillKey)
    ensures OpsFor(rows, summaries) == []
  {
    hide Consumed;
    if summaries != [] {
      var last := summaries[|summaries|-1];
      NoNewsNoOps(rows, summaries[..|summaries|-1]);
      assert forall key :: key in KeysOf(last) ==> key == last.backfillKey;
      assert forall k :: 0 <= k < |KeysOf(last)| ==> KeysOf(last)[k] in KeysOf(last);
    }
  }

  // ---- Reading the table back may reorder it ----

  /** The same rows, sorted differently. */
  ghost predicate Reordered(rows: seq<Event>, again: seq<Event>) {
    multiset(rows) == multiset(again)
  }

  lemma ReorderedRows(rows: seq<Event>, again: seq<Event>, i: nat) returns (j: nat)
    requires Reordered(rows, again) && i < |rows|
    ensures j < |again| && again[j] == rows[i]
  {
    assert rows[i] in multiset(again);
    j :| 0 <= j < |again| && again[j] == rows[i];
  }

  lemma ReorderedKeepsTable(rows: seq<Event>, again: seq<Event>)
    requires Reordered(rows, again) && TableOk(rows)
    ensures TableOk(again)
    ensures forall key :: Consumed(rows, key) ==> Consumed(again, key)
  {
    hide RowOk, Records;
    forall i | 0 <= i < |again| ensures RowOk(again[i]) {
      var j := ReorderedRows(again, rows, i);
    }
    forall key | Consumed(rows, key) ensures Consumed(again, key) {
      var i :| 0 <= i < |rows| && Records(rows[i], key);
      var j := ReorderedRows(rows, again, i);
    }
  }

  lemma {:induction false} OpenCountAppends(a: seq<Event>, b: seq<Event>, identity: string)
    ensures OpenCount(a + b, identity) == OpenCount(a, identity) + OpenCount(b, identity)
  {
    if b == [] {
      assert a + b == a;
    } else {
      assert (a + b)[..|a + b|-1] == a + b[..|b|-1];
      OpenCountAppends(a, b[..|b|-1], identity);
    }
  }

  lemma OpenCountRemoves(rows: seq<Event>, identity: string, i: nat)
    requires i < |rows|
    ensures OpenCount(rows, identity) == OpenCount(rows[..i] + rows[i+1..], identity) + OpenCount([rows[i]], identity)
  {
    hide OpenCount;
    assert rows == rows[..i] + ([rows[i]] + rows[i+1..]);
    OpenCountAppends(rows[..i], [rows[i]] + rows[i+1..], identity);
    OpenCountAppends([rows[i]], rows[i+1..], identity);
    OpenCountAppends(rows[..i], rows[i+1..], identity);
  }

  lemma {:induction false} ReorderedKeepsOpenCount(rows: seq<Event>, again: seq<Event>, identity: string)
    requires Reordered(rows, again)
    ensures OpenCount(rows, identity) == OpenCount(again, identity)
  {
    hide OpenCount;
    if rows == [] {
      assert |again| == |multiset(again)| == 0;
    } else {
      var last := |rows| - 1;
      var i := ReorderedRows(rows, again, last);
      assert rows == rows[..last] + [rows[last]];
      assert again == again[..i] + [again[i]] + again[i+1..];
      assert multiset(rows[..last]) == multiset(rows) - multiset{rows[last]};
      assert multiset(again[..i] + again[i+1..]) == multiset(again) - multiset{again[i]};
      ReorderedKeepsOpenCount(rows[..last], again[..i] + again[i+1..], identity);
      OpenCountRemoves(rows, identity, last);
      OpenCountRemoves(again, identity, i);
      assert rows[..last] + rows[last+1..] == rows[..last];
    }
  }

  /** After a successful apply, planning again on the same inputs finds nothing to do, however the table is read back. */
  lemma BackfillIsIdempotent(r: Readers, rows: seq<Event>, summaries: seq<Event>, cs: seq<Event>, again: seq<Event>)
    requires TableOk(rows) && InputOk(summaries, cs)
    requires Reordered(Backfilled(r, rows, summaries, cs), again)
    ensures PlanOps(r, again, summaries, cs) == [] && Backfilled(r, again, summaries, cs) == again
  {
    hide Consumed, Reordered, TableOk;
    AllConsumed(r, rows, summaries, cs);
    BackfilledIsOk(r, rows, summaries, cs);
    ReorderedKeepsTable(Backfilled(r, rows, summaries, cs), again);
    var pending := Unconsumed(again, cs);
    assert forall i :: 0 <= i < |pending| ==> pending[i] in pending;
    NoNewsNoOps(again, summaries);
  }

  // ---- No evidence is lost, none is duplicated ----

  predicate InEvidence(rows: seq<Event>, i: nat, key: string)
    requires i < |rows|
  {
    key in rows[i].evidenceKeys
  }

  ghost predicate ExactlyOneRow(rows: seq<Event>, key: string) {
    exists i :: 0 <= i < |rows| && InEvidence(rows, i, key) &&
      forall j :: 0 <= j < |rows| && InEvidence(rows, j, key) ==> j == i
  }

  ghost predicate DistinctKeys(cs: seq<Event>) {
    forall i, j :: 0 <= i < j < |cs| ==> cs[i].backfillKey != cs[j].backfillKey
  }

  predicate Nowhere(groups: seq<Event>, key: string) {
    forall i :: 0 <= i < |groups| ==> key !in groups[i].evidenceKeys
  }

  /** With distinct candidate keys, each key is evidence of one group only. */
  lemma {:induction false} OneGroupPerKey(r: Readers, summaries: seq<Event>, cs: seq<Event>, key: string, a: nat, b: nat)
    requires InputOk(summaries, cs) && DistinctKeys(cs)
    requires !IsSummaryKey(key)
    requires var groups := PlaceAll(r, summaries, cs);
             a < |groups| && b < |groups| && key in groups[a].evidenceKeys && key in groups[b].evidenceKeys
    ensures a == b
  {
    hide Place, InputOk, DistinctKeys, IsSummaryKey;
    if cs == [] {
      SummariesHoldNoOtherKey(summaries, cs, key);
    } else {
      var init, last := cs[..|cs|-1], cs[|cs|-1];
      var before := PlaceAll(r, summaries, init);
      assert PlaceAll(r, summaries, cs) == Place(r, before, |summaries|, last);
      InputsWithoutLast(summaries, cs);
      if key == last.backfillKey {
        NewKeyIsNowhere(r, summaries, init, last);
        NewKeyPlacedOnce(r, before, |summaries|, last, a, b);
      } else {
        OldKeyPlacedBefore(r, before, |summaries|, last, key, a);
        OldKeyPlacedBefore(r, before, |summaries|, last, key, b);
        OneGroupPerKey(r, summaries, init, key, a, b);
      }
    }
  }

  lemma SummariesHoldNoOtherKey(summaries: seq<Event>, cs: seq<Event>, key: string)
    requires InputOk(summaries, cs) && !IsSummaryKey(key)
    ensures forall i :: 0 <= i < |summaries| ==> key !in summaries[i].evidenceKeys
  {
    hide IsSummaryKey;
  }

  lemma InputsWithoutLast(summaries: seq<Event>, cs: seq<Event>)
    requires InputOk(summaries, cs) && DistinctKeys(cs) && cs != []
    ensures InputOk(summaries, cs[..|cs|-1]) && DistinctKeys(cs[..|cs|-1])
    ensures OwnKey(cs[|cs|-1]) && DistinctKeys(cs[..|cs|-1] + [cs[|cs|-1]])
    ensures forall i :: 0 <= i < |summaries| ==> OwnKey(summaries[i])
    ensures !IsSummaryKey(cs[|cs|-1].backfillKey)
  {
    hide IsSummaryKey;
    assert cs == cs[..|cs|-1] + [cs[|cs|-1]];
  }

  /** Before a candidate is placed, no group has its key. */
  lemma NewKeyIsNowhere(r: Readers, summaries: seq<Event>, init: seq<Event>, last: Event)
    requires InputOk(summaries, init) && DistinctKeys(init + [last]) && !IsSummaryKey(last.backfillKey)
    ensures Nowhere(PlaceAll(r, summaries, init), last.backfillKey)
  {
    hide PlaceAll, FromCandidates, IsSummaryKey, DistinctKeys;
    GroupingKeepsKeys(r, summaries, init);
    LastKeyIsNew(init, last);
  }

  lemma LastKeyIsNew(init: seq<Event>, last: Event)
    requires DistinctKeys(init + [last])
    ensures !FromCandidates(init, last.backfillKey)
  {
    var all := init + [last];
    forall i | 0 <= i < |init| ensures init[i].backfillKey != last.backfillKey {
      assert all[i] == init[i] && all[|init|] == last;
    }
  }

  /** A key other than the candidate's was there before. */
  lemma OldKeyPlacedBefore(r: Readers, groups: seq<Event>, n: nat, c: Event, key: string, a: nat)
    requires n <= |groups| && OwnKey(c) && key != c.backfillKey
    requires var placed := Place(r, groups, n, c); a < |placed| && key in placed[a].evidenceKeys
    ensures a < |groups| && key in groups[a].evidenceKeys
  {
    hide TargetOf, MergeEvent;
    var target := TargetOf(r, groups, n, c);
    if target.Some? {
      MergedKeys(r, groups[target.value], c);
    }
  }

  /** A key no group had is in one group only once its candidate is placed. */
  lemma NewKeyPlacedOnce(r: Readers, groups: seq<Event>, n: nat, c: Event, a: nat, b: nat)
    requires n <= |groups| && OwnKey(c)
    requires Nowhere(groups, c.backfillKey)
    requires var placed := Place(r, groups, n, c);
             && a < |placed| && b < |placed|
             && c.backfillKey in placed[a].evidenceKeys && c.backfillKey in placed[b].evidenceKeys
    ensures a == b
  {
    hide TargetOf, MergeEvent;
    var target := TargetOf(r, groups, n, c);
    if target.Some? {
      MergedKeys(r, groups[target.value], c);
    }
  }

  /** After a successful apply, the key of every accepted candidate that was new is evidence of exactly one row. */
  lemma EvidenceIsConserved(r: Readers, rows: seq<Event>, summaries: seq<Event>, cs: seq<Event>, c: Event)
    requires TableOk(rows) && InputOk(summaries, cs) && DistinctKeys(cs)
    requires c in cs && !Consumed(rows, c.backfillKey)
    ensures ExactlyOneRow(Backfilled(r, rows, summaries, cs), c.backfillKey)
  {
    hide OpFor, PlaceAll, Written, Consumed, AppendEvidence, RowOfCreate, FirstHolder, KeysOf;
    var pending := Unconsumed(rows, cs);
    var groups := Groups(r, rows, summaries, cs);
    var next := Backfilled(r, rows, summaries, cs);
    var key := c.backfillKey;
    BackfilledIsWritten(r, rows, summaries, cs);
    PendingIsDistinct(rows, cs);
    var p, at := HomeOfKey(rows, summaries, pending, groups, next, c);
    forall j | 0 <= j < |next| && InEvidence(next, j, key) ensures j == at {
      var q := GroupBehind(rows, summaries, pending, groups, next, c, j);
      assert OwnKey(c) && !IsSummaryKey(key);
      OneGroupPerKey(r, summaries, pending, key, p, q);
    }
    assert InEvidence(next, at, key);
  }

  lemma {:induction false} PendingIsDistinct(rows: seq<Event>, cs: seq<Event>)
    requires DistinctKeys(cs)
    ensures DistinctKeys(Unconsumed(rows, cs))
  {
    hide Consumed;
    if cs != [] {
      var init, last := cs[..|cs|-1], cs[|cs|-1];
      PendingIsDistinct(rows, init);
      forall c | c in Unconsumed(rows, init) ensures c.backfillKey != last.backfillKey {
        assert c in init;
        var i :| 0 <= i < |init| && init[i] == c;
        assert cs[i] == c;
      }
      var pending := Unconsumed(rows, init);
      assert forall i :: 0 <= i < |pending| ==> pending[i] in pending;
    }
  }

  /** The row group `p` writes its evidence to. */
  ghost function RowOf(rows: seq<Event>, groups: seq<Event>, p: nat): nat
    requires p < |groups|
  {
    if Updates(rows, groups[p]) then OpFor(rows, groups[p]).value.id else RowOfCreate(rows, groups, p)
  }

  lemma CandidateMakesNews(rows: seq<Event>, groups: seq<Event>, p: nat, key: string)
    requires p < |groups| && key in groups[p].evidenceKeys && key != "" && !Consumed(rows, key)
    ensures OpFor(rows, groups[p]).Some?
  {
    hide Consumed, FirstHolder, AppendEvidence;
    OpForShape(rows, groups[p]);
    assert key in KeysOf(groups[p]);
    var k :| 0 <= k < |KeysOf(groups[p])| && KeysOf(groups[p])[k] == key;
  }

  lemma HomeOfKey(rows: seq<Event>, summaries: seq<Event>, cs: seq<Event>, groups: seq<Event>, next: seq<Event>, c: Event)
    returns (p: nat, at: nat)
    requires Planned(rows, summaries, cs, groups) && Written(rows, groups, |groups|, next)
    requires c in cs && OwnKey(c)
    ensures p < |groups| && c.backfillKey in groups[p].evidenceKeys
    ensures at == RowOf(rows, groups, p) && at < |next| && c.backfillKey in next[at].evidenceKeys
  {
    hide OpFor, Consumed, RowOfCreate, AppendEvidence, FirstHolder, KeysOf;
    var k :| 0 <= k < |cs| && cs[k] == c;
    p :| 0 <= p < |groups| && cs[k].backfillKey in groups[p].evidenceKeys;
    at := RowOf(rows, groups, p);
    CandidateMakesNews(rows, groups, p, c.backfillKey);
    OpForShape(rows, groups[p]);
    assert Done(rows, groups, p, next);
    if Updates(rows, groups[p]) {
      AppendedKeys(rows[at], groups[p]);
    }
  }

  lemma GroupBehind(rows: seq<Event>, summaries: seq<Event>, cs: seq<Event>, groups: seq<Event>, next: seq<Event>,
                    c: Event, j: nat)
    returns (q: nat)
    requires Planned(rows, summaries, cs, groups) && Written(rows, groups, |groups|, next)
    requires c in cs && OwnKey(c)
    requires j < |next| && c.backfillKey in next[j].evidenceKeys
    ensures q < |groups| && c.backfillKey in groups[q].evidenceKeys && j == RowOf(rows, groups, q)
  {
    hide OpFor, RowOfCreate, AppendEvidence, FirstHolder, KeysOf;
    var k :| 0 <= k < |cs| && cs[k] == c;
    assert !Consumed(rows, c.backfillKey);
    if j < |rows| {
      assert !Records(rows[j], c.backfillKey);
    }
    assert Explained(rows, groups, |groups|, next, j);
    if j < |rows| {
      q :| 0 <= q < |groups| && OpFor(rows, groups[q]) == Some(Update(j, next[j]));
      OpForShape(rows, groups[q]);
      AppendedKeys(rows[j], groups[q]);
    } else {
      q :| 0 <= q < |groups| && Creates(rows, groups[q]) && next[j] == groups[q] && j == RowOfCreate(rows, groups, q);
    }
  }

  // ---- At most one open event per access point ----

  /** What an update never touches. */
  predicate SameFace(a: Event, b: Event) {
    a.identity == b.identity && a.status == b.status
  }

  predicate SameFaces(xs: seq<Event>, ys: seq<Event>) {
    |xs| == |ys| && forall i :: 0 <= i < |xs| ==> SameFace(xs[i], ys[i])
  }

  lemma {:induction false} SameFacesSameCount(xs: seq<Event>, ys: seq<Event>, identity: string)
    requires SameFaces(xs, ys)
    ensures OpenCount(xs, identity) == OpenCount(ys, identity)
  {
    if xs != [] {
      SameFacesSameCount(xs[..|xs|-1], ys[..|ys|-1], identity);
      assert SameFace(xs[|xs|-1], ys[|ys|-1]);
    }
  }

  predicate KeepsFace(rows: seq<Event>, op: Op) {
    op.Update? ==> op.id < |rows| && SameFace(op.event, rows[op.id])
  }

  lemma {:induction false} ApplyKeepsFaces(rows: seq<Event>, ops: seq<Op>)
    requires forall i :: 0 <= i < |ops| ==> KeepsFace(rows, ops[i])
    ensures SameFaces(ApplyOps(rows, ops), rows + Created(ops))
  {
    if ops == [] {
      assert rows + Created(ops) == rows;
    } else {
      var init, last := ops[..|ops|-1], ops[|ops|-1];
      ApplyKeepsFaces(rows, init);
      assert KeepsFace(rows, last);
      assert last.Create? ==> rows + Created(ops) == (rows + Created(init)) + [last.event];
      assert last.Update? ==> Created(ops) == Created(init);
    }
  }

  lemma {:induction false} OpsKeepFaces(rows: seq<Event>, groups: seq<Event>)
    ensures forall i :: 0 <= i < |OpsFor(rows, groups)| ==> KeepsFace(rows, OpsFor(rows, groups)[i])
  {
    hide OpFor, AppendEvidence, FirstHolder, KeysOf, HasNews;
    if groups != [] {
      var last := groups[|groups|-1];
      OpsKeepFaces(rows, groups[..|groups|-1]);
      OpForShape(rows, last);
      if Updates(rows, last) {
        AppendedKeys(rows[OpFor(rows, last).value.id], last);
      }
    }
  }

  ghost predicate OneOpenEach(rows: seq<Event>) {
    forall identity :: identity != "" ==> OpenCount(rows, identity) <= 1
  }

  /** The planner's conflict check is exactly the promise that applying the plan keeps one open event each. */
  lemma ConflictFreeIffOneOpenEach(r: Readers, rows: seq<Event>, summaries: seq<Event>, cs: seq<Event>)
    ensures !Conflicting(rows, PlanOps(r, rows, summaries, cs)) <==> OneOpenEach(Backfilled(r, rows, summaries, cs))
  {
    hide PlaceAll, OpFor, OpenCount;
    var ops := PlanOps(r, rows, summaries, cs);
    OpsKeepFaces(rows, Groups(r, rows, summaries, cs));
    ApplyKeepsFaces(rows, ops);
    forall identity
      ensures OpenCount(rows + Created(ops), identity) == OpenCount(Backfilled(r, rows, summaries, cs), identity)
    {
      SameFacesSameCount(Backfilled(r, rows, summaries, cs), rows + Created(ops), identity);
    }
  }

  // ---- Repeated runs ----

  datatype Round = Round(summaries: seq<Event>, candidates: seq<Event>, unresolved: bool)

  /** A run that has conflicts or unresolved evidence writes nothing. */
  ghost function RunOnce(r: Readers, rows: seq<Event>, round: Round): seq<Event> {
    if round.unresolved || Conflicting(rows, PlanOps(r, rows, round.summaries, round.candidates)) then rows
    else Backfilled(r, rows, round.summaries, round.candidates)
  }

  /** The table as each run finds it: the outcome of the run before, in whatever order it is read back. */
  ghost predicate IsHistory(r: Readers, tables: seq<seq<Event>>, rounds: seq<Round>) {
    && |tables| == |rounds| + 1
    && (forall k :: 0 <= k < |rounds| ==> Reordered(RunOnce(r, tables[k], rounds[k]), tables[k+1]))
  }

  lemma RunKeepsTable(r: Readers, rows: seq<Event>, round: Round, again: seq<Event>)
    requires TableOk(rows) && OneOpenEach(rows) && InputOk(round.summaries, round.candidates)
    requires Reordered(RunOnce(r, rows, round), again)
    ensures TableOk(again) && OneOpenEach(again)
  {
    hide PlanOps, Backfilled, InputOk, Conflicting, TableOk, Reordered;
    BackfilledIsOk(r, rows, round.summaries, round.candidates);
    ConflictFreeIffOneOpenEach(r, rows, round.summaries, round.candidates);
    var next := RunOnce(r, rows, round);
    ReorderedKeepsTable(next, again);
    forall identity ensures OpenCount(again, identity) == OpenCount(next, identity) {
      ReorderedKeepsOpenCount(next, again, identity);
    }
  }

  /**
   After any sequence of backfills from a well-formed table, each with inputs of its
   own: the table is well-formed, no access point has two open events, and whatever
   the last successful run was given, planning it again yields nothing.
   */
  lemma {:induction false} RepeatedBackfillsAreSafe(r: Readers, tables: seq<seq<Event>>, rounds: seq<Round>)
    requires IsHistory(r, tables, rounds)
    requires TableOk(tables[0]) && OneOpenEach(tables[0])
    requires forall i :: 0 <= i < |rounds| ==> InputOk(rounds[i].summaries, rounds[i].candidates)
    ensures var at := tables[|rounds|];
            && TableOk(at) && OneOpenEach(at)
            && (rounds != [] ==>
                  var last, before := rounds[|rounds|-1], tables[|rounds|-1];
                  !last.unresolved && !Conflicting(before, PlanOps(r, before, last.summaries, last.candidates)) ==>
                    PlanOps(r, at, last.summaries, last.candidates) == [])
  {
    hide PlanOps, Backfilled, InputOk, Conflicting, TableOk, OneOpenEach, Reordered;
    if rounds != [] {
      var last := rounds[|rounds|-1];
      RepeatedBackfillsAreSafe(r, tables[..|rounds|], rounds[..|rounds|-1]);
      var before, at := tables[|rounds|-1], tables[|rounds|];
      assert Reordered(RunOnce(r, before, last), at);
      RunKeepsTable(r, before, last, at);
      if !last.unresolved && !Conflicting(before, PlanOps(r, before, last.summaries, last.candidates)) {
        BackfillIsIdempotent(r, before, last.summaries, last.candidates, at);
      }
    }
  }

  // ---- What a group has taken in ----

  /** The events that make up group `i`, first the one it started as. */
  function Members(r: Readers, summaries: seq<Event>, cs: seq<Event>, i: nat): (members: seq<Event>)
    requires i < |PlaceAll(r, summaries, cs)|
    ensures members != []
  {
    if cs == [] then [summaries[i]]
    else
      var init, last := cs[..|cs|-1], cs[|cs|-1];
      var before := PlaceAll(r, summaries, init);
      if i == |before| then [last]
      else if TargetOf(r, before, |summaries|, last) == Some(i) then Members(r, summaries, init, i) + [last]
      else Members(r, summaries, init, i)
  }

  // ---- Which group takes a candidate in ----

  /** `when` is a moment, once trimmed. */
  predicate IsMoment(r: Readers, when: string) {
    Strip(when) != "" && r.isTimestamp(Strip(when))
  }

  /** The candidate is of the same access point and began within the event, which ends when it was resolved or else last seen. */
  predicate BeganWithin(r: Readers, e: Event, c: Event) {
    var end := if e.resolvedAt == "" then e.lastAbnormalAt else e.resolvedAt;
    && e.identity == c.identity
    && IsMoment(r, e.firstDetectedAt) && IsMoment(r, c.firstDetectedAt) && IsMoment(r, end)
    && r.notAfter(Strip(e.firstDetectedAt), Strip(c.firstDetectedAt))
    && r.notAfter(Strip(c.firstDetectedAt), Strip(end))
  }

  predicate BeganTogether(e: Event, c: Event) {
    e.identity == c.identity && e.firstDetectedAt == c.firstDetectedAt
  }

  lemma {:induction false} FirstCoveringIs(r: Readers, groups: seq<Event>, c: Event, i: nat, n: nat)
    requires i <= n <= |groups|
    ensures match FirstCovering(r, groups, c, i, n)
            case Some(t) => BeganWithin(r, groups[t], c) && forall j :: i <= j < t ==> !BeganWithin(r, groups[j], c)
            case None => forall j :: i <= j < n ==> !BeganWithin(r, groups[j], c)
    decreases n - i
  {
    hide Strip;
    if i < n && !BeganWithin(r, groups[i], c) {
      FirstCoveringIs(r, groups, c, i + 1, n);
    }
  }

  lemma {:induction false} FirstTwinIs(groups: seq<Event>, c: Event, i: nat)
    requires i <= |groups|
    ensures match FirstTwin(groups, c, i)
            case Some(t) => BeganTogether(groups[t], c) && forall j :: i <= j < t ==> !BeganTogether(groups[j], c)
            case None => forall j :: i <= j < |groups| ==> !BeganTogether(groups[j], c)
    decreases |groups| - i
  {
    if i < |groups| && !BeganTogether(groups[i], c) {
      FirstTwinIs(groups, c, i + 1);
    }
  }

  ghost predicate FirstWithin(r: Readers, groups: seq<Event>, n: nat, c: Event, i: nat) {
    i < n <= |groups| && BeganWithin(r, groups[i], c) && forall j :: 0 <= j < i ==> !BeganWithin(r, groups[j], c)
  }

  ghost predicate FirstTogether(groups: seq<Event>, c: Event, i: nat) {
    i < |groups| && BeganTogether(groups[i], c) && forall j :: 0 <= j < i ==> !BeganTogether(groups[j], c)
  }

  /**
   A candidate joins the first of the `n` summaries of its access point in whose time it
   began; failing that, the first group of its access point that began with it; failing
   that, it is a group of its own.
   */
  lemma PlacedWhere(r: Readers, groups: seq<Event>, n: nat, c: Event, i: nat)
    requires n <= |groups|
    ensures FirstWithin(r, groups, n, c, i) ==> Place(r, groups, n, c) == groups[i := MergeEvent(r, groups[i], c)]
    ensures (forall k :: 0 <= k < n ==> !BeganWithin(r, groups[k], c)) && FirstTogether(groups, c, i) ==>
              Place(r, groups, n, c) == groups[i := MergeEvent(r, groups[i], c)]
    ensures (forall k :: 0 <= k < n ==> !BeganWithin(r, groups[k], c)) && (forall k :: 0 <= k < |groups| ==> !BeganTogether(groups[k], c)) ==>
              Place(r, groups, n, c) == groups + [c]
  {
    hide BeganWithin, BeganTogether, MergeEvent;
    FirstCoveringIs(r, groups, c, 0, n);
    FirstTwinIs(groups, c, 0);
  }

  /** Everything a group takes in is about its access point. */
  lemma {:induction false} MembersShareIdentity(r: Readers, summaries: seq<Event>, cs: seq<Event>, i: nat)
    requires i < |PlaceAll(r, summaries, cs)|
    ensures forall m :: m in Members(r, summaries, cs, i) ==> m.identity == PlaceAll(r, summaries, cs)[i].identity
  {
    hide MergeEvent, FirstCovering, FirstTwin;
    if cs != [] {
      var init, last := cs[..|cs|-1], cs[|cs|-1];
      var before := PlaceAll(r, summaries, init);
      if i < |before| {
        MembersShareIdentity(r, summaries, init, i);
        if TargetOf(r, before, |summaries|, last) == Some(i) {
          FirstCoveringIs(r, before, last, 0, |summaries|);
          FirstTwinIs(before, last, 0);
          MergedIdentity(r, before[i], last);
        }
      }
    }
  }

  lemma MergedIdentity(r: Readers, group: Event, c: Event)
    ensures MergeEvent(r, group, c).identity == group.identity
  {
  }

  /** A group's evidence is what its members brought. */
  lemma {:induction false} EvidenceOfMembers(r: Readers, summaries: seq<Event>, cs: seq<Event>, i: nat, key: string)
    requires i < |PlaceAll(r, summaries, cs)|
    ensures key in PlaceAll(r, summaries, cs)[i].evidenceKeys <==>
              exists m :: m in Members(r, summaries, cs, i) && key in m.evidenceKeys
  {
    hide MergeEvent, TargetOf;
    if cs != [] {
      var init, last := cs[..|cs|-1], cs[|cs|-1];
      var before := PlaceAll(r, summaries, init);
      if i < |before| {
        EvidenceOfMembers(r, summaries, init, i, key);
        if TargetOf(r, before, |summaries|, last) == Some(i) {
          MergedKeys(r, before[i], last);
          assert Members(r, summaries, cs, i) == Members(r, summaries, init, i) + [last];
        }
      } else {
        assert Members(r, summaries, cs, i) == [last];
      }
    } else {
      assert Members(r, summaries, cs, i) == [summaries[i]];
    }
  }

  // ---- Evidence stays with its access point ----

  /** The key of the current summary of an access point. */
  function SummaryKey(site: string, identity: string): string {
    "CURRENT_SUMMARY:" + site + ":" + identity
  }

  /** A summary key in the evidence of an event is that of its own access point. */
  ghost predicate OwnSummary(site: string, e: Event) {
    forall key :: key in e.evidenceKeys && IsSummaryKey(key) ==> key == SummaryKey(site, e.identity)
  }

  ghost predicate OwnSummaries(site: string, rows: seq<Event>) {
    forall i :: 0 <= i < |rows| ==> OwnSummary(site, rows[i])
  }

  lemma SummaryKeyIsInjective(site: string, a: string, b: string)
    requires SummaryKey(site, a) == SummaryKey(site, b)
    ensures a == b
  {
    var prefix := "CURRENT_SUMMARY:" + site + ":";
    assert SummaryKey(site, a)[|prefix|..] == a && SummaryKey(site, b)[|prefix|..] == b;
  }

  /** The access point of a candidate's key is that of the group it is evidence of. */
  lemma KeyNamesIdentity(r: Readers, summaries: seq<Event>, cs: seq<Event>, i: nat, c: Event)
    requires InputOk(summaries, cs) && DistinctKeys(cs)
    requires i < |PlaceAll(r, summaries, cs)| && c in cs && c.backfillKey in PlaceAll(r, summaries, cs)[i].evidenceKeys
    ensures PlaceAll(r, summaries, cs)[i].identity == c.identity
  {
    hide PlaceAll, Members, IsSummaryKey;
    EvidenceOfMembers(r, summaries, cs, i, c.backfillKey);
    MembersShareIdentity(r, summaries, cs, i);
    MembersAreInputs(r, summaries, cs, i);
    var m :| m in Members(r, summaries, cs, i) && c.backfillKey in m.evidenceKeys;
    var k :| 0 <= k < |cs| && cs[k] == c;
    if j :| 0 <= j < |cs| && cs[j] == m {
      assert OwnKey(cs[j]) && OwnKey(cs[k]);
    }
  }

  lemma {:induction false} MembersAreInputs(r: Readers, summaries: seq<Event>, cs: seq<Event>, i: nat)
    requires i < |PlaceAll(r, summaries, cs)|
    ensures forall m :: m in Members(r, summaries, cs, i) ==> m in summaries || m in cs
    ensures i < |summaries| ==> Members(r, summaries, cs, i)[0] == summaries[i]
  {
    hide Place, TargetOf;
    if cs != [] {
      var init, last := cs[..|cs|-1], cs[|cs|-1];
      var before := PlaceAll(r, summaries, init);
      assert cs == init + [last];
      PlaceLength(r, before, |summaries|, last);
      if i < |before| {
        MembersAreInputs(r, summaries, init, i);
      }
    }
  }

  lemma PlaceLength(r: Readers, groups: seq<Event>, n: nat, c: Event)
    requires n <= |groups|
    ensures |groups| <= |Place(r, groups, n, c)| <= |groups| + 1
  {
  }

  lemma SummaryGroupIdentity(r: Readers, summaries: seq<Event>, cs: seq<Event>, i: nat)
    requires i < |summaries|
    ensures PlaceAll(r, summaries, cs)[i].identity == summaries[i].identity
  {
    hide PlaceAll, Members;
    MembersAreInputs(r, summaries, cs, i);
    MembersShareIdentity(r, summaries, cs, i);
    assert Members(r, summaries, cs, i)[0] in Members(r, summaries, cs, i);
  }

  /** A group that updates a row updates one of its own access point. */
  lemma UpdatesOwnAccessPoint(r: Readers, site: string, rows: seq<Event>, summaries: seq<Event>, cs: seq<Event>, p: nat)
    requires TableOk(rows) && InputOk(summaries, cs) && OwnSummaries(site, rows) && OwnSummaries(site, summaries)
    requires var groups := Groups(r, rows, summaries, cs); p < |groups| && Updates(rows, groups[p])
    ensures var groups := Groups(r, rows, summaries, cs);
            var id := OpFor(rows, groups[p]).value.id;
            id < |rows| && rows[id].identity == groups[p].identity && p < |summaries|
  {
    hide OpFor, FirstHolder, KeysOf, PlaceAll, HasNews, IsSummaryKey;
    var groups, pending := Groups(r, rows, summaries, cs), Unconsumed(rows, cs);
    PlanIsPlanned(r, rows, summaries, cs);
    OpForShape(rows, groups[p]);
    HolderIsSummaryHolder(rows, summaries, pending, groups, p);
    SummaryGroupIdentity(r, summaries, pending, p);
    var id, key := OpFor(rows, groups[p]).value.id, groups[p].backfillKey;
    assert OwnKey(summaries[p]) && IsSummaryKey(key) && key in summaries[p].evidenceKeys;
    assert RowOk(rows[id]) && Holds(rows[id], key) && key != "";
    SummaryKeyIsInjective(site, rows[id].identity, summaries[p].identity);
  }

  /**
   After a successful apply the key of a new candidate is evidence of exactly one row,
   and that row is about the candidate's access point.
   */
  lemma EvidenceStaysWithItsAccessPoint(r: Readers, site: string, rows: seq<Event>, summaries: seq<Event>, cs: seq<Event>, c: Event)
    requires TableOk(rows) && InputOk(summaries, cs) && DistinctKeys(cs)
    requires OwnSummaries(site, rows) && OwnSummaries(site, summaries)
    requires c in cs && !Consumed(rows, c.backfillKey)
    ensures var next := Backfilled(r, rows, summaries, cs);
            && ExactlyOneRow(next, c.backfillKey)
            && forall j :: 0 <= j < |next| && InEvidence(next, j, c.backfillKey) ==> next[j].identity == c.identity
  {
    hide OpFor, PlaceAll, Written, Consumed, AppendEvidence, RowOfCreate, FirstHolder, KeysOf;
    var pending := Unconsumed(rows, cs);
    var groups := Groups(r, rows, summaries, cs);
    var next := Backfilled(r, rows, summaries, cs);
    EvidenceIsConserved(r, rows, summaries, cs, c);
    BackfilledIsWritten(r, rows, summaries, cs);
    PendingIsDistinct(rows, cs);
    forall j | 0 <= j < |next| && InEvidence(next, j, c.backfillKey) ensures next[j].identity == c.identity {
      var q := GroupBehind(rows, summaries, pending, groups, next, c, j);
      KeyNamesIdentity(r, summaries, pending, q, c);
      RowOfGroupIdentity(r, site, rows, summaries, cs, next, q, c.backfillKey);
    }
  }

  lemma RowOfGroupIdentity(r: Readers, site: string, rows: seq<Event>, summaries: seq<Event>, cs: seq<Event>,
                           next: seq<Event>, q: nat, key: string)
    requires TableOk(rows) && InputOk(summaries, cs) && OwnSummaries(site, rows) && OwnSummaries(site, summaries)
    requires next == Backfilled(r, rows, summaries, cs) && key != "" && !Consumed(rows, key)
    requires q < |Groups(r, rows, summaries, cs)| && key in Groups(r, rows, summaries, cs)[q].evidenceKeys
    ensures var groups := Groups(r, rows, summaries, cs);
            RowOf(rows, groups, q) < |next| ==> next[RowOf(rows, groups, q)].identity == groups[q].identity
  {
    hide OpFor, PlaceAll, Consumed, AppendEvidence, RowOfCreate, FirstHolder, KeysOf, HasNews;
    var groups := Groups(r, rows, summaries, cs);
    BackfilledIsWritten(r, rows, summaries, cs);
    CandidateMakesNews(rows, groups, q, key);
    OpForShape(rows, groups[q]);
    assert Done(rows, groups, q, next);
    if Updates(rows, groups[q]) {
      UpdatesOwnAccessPoint(r, site, rows, summaries, cs, q);
      AppendedKeys(rows[OpFor(rows, groups[q]).value.id], groups[q]);
    }
  }

  /** Summary keys stay with their access points over a run, so the hypothesis lasts. */
  lemma OwnSummariesStay(r: Readers, site: string, rows: seq<Event>, summaries: seq<Event>, cs: seq<Event>)
    requires TableOk(rows) && InputOk(summaries, cs) && OwnSummaries(site, rows) && OwnSummaries(site, summaries)
    ensures OwnSummaries(site, Backfilled(r, rows, summaries, cs))
  {
    hide OpFor, PlaceAll, IsSummaryKey, AppendEvidence, RowOfCreate, FirstHolder, KeysOf, HasNews, SummaryKey;
    var groups, next, pending := Groups(r, rows, summaries, cs), Backfilled(r, rows, summaries, cs), Unconsumed(rows, cs);
    BackfilledIsWritten(r, rows, summaries, cs);
    forall j | 0 <= j < |next| ensures OwnSummary(site, next[j]) {
      assert Explained(rows, groups, |groups|, next, j);
      if j >= |rows| {
        var p :| 0 <= p < |groups| && Creates(rows, groups[p]) && next[j] == groups[p];
        GroupHasOwnSummary(r, site, rows, summaries, cs, p);
      } else if next[j] != rows[j] {
        var p :| 0 <= p < |groups| && OpFor(rows, groups[p]) == Some(Update(j, next[j]));
        UpdatesOwnAccessPoint(r, site, rows, summaries, cs, p);
        OpForShape(rows, groups[p]);
        GroupHasOwnSummary(r, site, rows, summaries, cs, p);
        AppendedKeys(rows[j], groups[p]);
        assert OwnSummary(site, rows[j]);
      }
    }
  }

  lemma GroupHasOwnSummary(r: Readers, site: string, rows: seq<Event>, summaries: seq<Event>, cs: seq<Event>, p: nat)
    requires TableOk(rows) && InputOk(summaries, cs) && OwnSummaries(site, summaries) && p < |Groups(r, rows, summaries, cs)|
    ensures OwnSummary(site, Groups(r, rows, summaries, cs)[p])
  {
    hide PlaceAll, IsSummaryKey, SummaryKey;
    var groups, pending := Groups(r, rows, summaries, cs), Unconsumed(rows, cs);
    PlanIsPlanned(r, rows, summaries, cs);
    GroupIsRowOk(rows, summaries, pending, groups, p);
    if p < |summaries| {
      SummaryGroupIdentity(r, summaries, pending, p);
      assert OwnKey(summaries[p]) && summaries[p].backfillKey in summaries[p].evidenceKeys;
      assert OwnSummary(site, summaries[p]);
    }
  }

  function SidesOf(events: seq<Event>): seq<Side> {
    seq(|events|, i requires 0 <= i < |events| => events[i].worstSide)
  }

  /** The three readings an event carries a worst value of. */
  datatype Gauge = ApRx | SwitchRx | AnyRx

  function Reading(e: Event, gauge: Gauge): string {
    match gauge
    case ApRx => e.worstAp
    case SwitchRx => e.worstSwitch
    case AnyRx => e.worstRx
  }

  function ReadingsOf(events: seq<Event>, gauge: Gauge): seq<string> {
    seq(|events|, i requires 0 <= i < |events| => Reading(events[i], gauge))
  }

  lemma FoldsExtend(r: Readers, events: seq<Event>, e: Event, gauge: Gauge)
    ensures FoldSides(Unknown, SidesOf(events + [e])) == MergeSide(FoldSides(Unknown, SidesOf(events)), e.worstSide)
    ensures FoldWorse(r, ReadingsOf(events + [e], gauge)) == Worse(r, FoldWorse(r, ReadingsOf(events, gauge)), Reading(e, gauge))
  {
    hide MergeSide, Worse, Reading;
    assert SidesOf(events + [e])[..|events|] == SidesOf(events);
    assert ReadingsOf(events + [e], gauge)[..|events|] == ReadingsOf(events, gauge);
  }

  lemma SingleFolds(r: Readers, e: Event, gauge: Gauge)
    ensures FoldSides(Unknown, SidesOf([e])) == e.worstSide
    ensures FoldWorse(r, ReadingsOf([e], gauge)) == Strip(Reading(e, gauge))
  {
    FoldsExtend(r, [], e, gauge);
    assert [] + [e] == [e];
    assert SidesOf([]) == [] && ReadingsOf([], gauge) == [];
  }

  /** A group's worst side and each of its worst readings are those of all its members together. */
  lemma {:induction false} GroupJoinsItsMembers(r: Readers, summaries: seq<Event>, cs: seq<Event>, i: nat, gauge: Gauge)
    requires i < |PlaceAll(r, summaries, cs)|
    ensures var group, members := PlaceAll(r, summaries, cs)[i], Members(r, summaries, cs, i);
            && group.worstSide == FoldSides(Unknown, SidesOf(members))
            && Strip(Reading(group, gauge)) == FoldWorse(r, ReadingsOf(members, gauge))
  {
    hide FoldSides, FoldWorse, TargetOf, Strip, MergeSide, JoinTokens, FillDetails, Dedup;
    if cs == [] {
      SingleFolds(r, summaries[i], gauge);
    } else {
      var init, last := cs[..|cs|-1], cs[|cs|-1];
      var before := PlaceAll(r, summaries, init);
      if i == |before| {
        SingleFolds(r, last, gauge);
      } else {
        GroupJoinsItsMembers(r, summaries, init, i, gauge);
        if TargetOf(r, before, |summaries|, last) == Some(i) {
          FoldsExtend(r, Members(r, summaries, init, i), last, gauge);
          WorseOfStripped(r, Reading(before[i], gauge), Reading(last, gauge));
          assert PlaceAll(r, summaries, cs)[i] == MergeEvent(r, before[i], last);
        } else {
          assert PlaceAll(r, summaries, cs)[i] == before[i];
        }
      }
    }
  }

  // ---- What else a group gathers ----

  /** The token lists an event carries. */
  datatype TokenField = SourceField | QualityField | LastRevisionField

  function TextOf(e: Event, field: TokenField): string {
    match field
    case SourceField => e.source
    case QualityField => e.quality
    case LastRevisionField => e.revisionLast
  }

  /** Token lists merged one after the other, from the first as it is. */
  function Chained(events: seq<Event>, field: TokenField): string
    requires events != []
  {
    var last := TextOf(events[|events|-1], field);
    if |events| == 1 then last else JoinTokens(Chained(events[..|events|-1], field), last)
  }

  function AllAudits(events: seq<Event>): seq<string> {
    if events == [] then [] else AllAudits(events[..|events|-1]) + events[|events|-1].audits
  }

  function Detail(e: Event, d: nat): string {
    if d < |e.details| then e.details[d] else ""
  }

  /** What the first of the events that fills descriptive column `d` at all says there. */
  function FirstFilled(events: seq<Event>, d: nat): string {
    if events == [] then ""
    else
      var before := FirstFilled(events[..|events|-1], d);
      if before != "" then before else Detail(events[|events|-1], d)
  }

  lemma GatheredStep(events: seq<Event>, e: Event, field: TokenField, d: nat)
    requires events != []
    ensures Chained(events + [e], field) == JoinTokens(Chained(events, field), TextOf(e, field))
    ensures AllAudits(events + [e]) == AllAudits(events) + e.audits
    ensures FirstFilled(events + [e], d) == if FirstFilled(events, d) != "" then FirstFilled(events, d) else Detail(e, d)
  {
    hide JoinTokens, Detail;
    assert (events + [e])[..|events|] == events;
  }

  lemma GatheredFirst(e: Event, field: TokenField, d: nat)
    ensures Chained([e], field) == TextOf(e, field) && AllAudits([e]) == e.audits && FirstFilled([e], d) == Detail(e, d)
  {
    assert [e][..0] == [];
  }

  lemma MergedFields(r: Readers, group: Event, c: Event, field: TokenField, d: nat)
    ensures var merged := MergeEvent(r, group, c);
            && TextOf(merged, field) == JoinTokens(TextOf(group, field), TextOf(c, field))
            && merged.audits == group.audits + c.audits
            && |merged.details| == |group.details|
            && (d < |group.details| ==> merged.details[d] == if group.details[d] != "" then group.details[d] else Detail(c, d))
            && Occurrence(merged) == Occurrence(group)
  {
    hide JoinTokens, Dedup, Worse, MergeSide;
  }

  /** When and for whom an event was opened, as it started out. */
  function Occurrence(e: Event): (string, string, string, string, Status, string, string) {
    (e.identity, e.firstDetectedAt, e.lastAbnormalAt, e.resolvedAt, e.status, e.backfillKey, e.revisionFirst)
  }

  /**
   A group is still the occurrence it started as; its token lists are its members' merged
   in order, its audits are theirs one after the other, and each descriptive column says
   what the first member with anything to say there said.
   */
  lemma {:induction false} GroupGathersItsMembers(r: Readers, summaries: seq<Event>, cs: seq<Event>, i: nat, field: TokenField, d: nat)
    requires i < |PlaceAll(r, summaries, cs)|
    ensures var group, members := PlaceAll(r, summaries, cs)[i], Members(r, summaries, cs, i);
            && Occurrence(group) == Occurrence(members[0])
            && TextOf(group, field) == Chained(members, field)
            && group.audits == AllAudits(members)
            && |group.details| == |members[0].details|
            && (d < |group.details| ==> group.details[d] == FirstFilled(members, d))
  {
    hide TargetOf, MergeEvent, Occurrence, TextOf, Chained, AllAudits, FirstFilled;
    if cs == [] {
      GatheredFirst(summaries[i], field, d);
    } else {
      var init, last := cs[..|cs|-1], cs[|cs|-1];
      var before := PlaceAll(r, summaries, init);
      if i == |before| {
        GatheredFirst(last, field, d);
      } else {
        GroupGathersItsMembers(r, summaries, init, i, field, d);
        if TargetOf(r, before, |summaries|, last) == Some(i) {
          GatheredStep(Members(r, summaries, init, i), last, field, d);
          MergedFields(r, before[i], last, field, d);
        }
      }
    }
  }

  /** An update touches nothing but provenance, and adds to it: keys, sources, qualities, audits and revisions. */
  lemma UpdateAddsProvenance(row: Event, group: Event, field: TokenField)
    ensures var after := AppendEvidence(row, group);
            && after == row.(backfillKey := after.backfillKey, source := after.source, quality := after.quality,
                             revisionFirst := after.revisionFirst, revisionLast := after.revisionLast,
                             evidenceKeys := after.evidenceKeys, audits := after.audits)
            && TextOf(after, field) == JoinTokens(TextOf(row, field), TextOf(group, field))
            && after.audits == row.audits + group.audits
            && (row.revisionFirst != "" ==> after.revisionFirst == row.revisionFirst)
            && (row.revisionFirst == "" ==> after.revisionFirst == group.revisionFirst)
  {
    hide JoinTokens, Dedup;
  }

  lemma WorseOfStripped(r: Readers, previous: string, current: string)
    ensures Worse(r, Strip(previous), current) == Worse(r, previous, current)
    ensures Strip(Worse(r, previous, current)) == Worse(r, previous, current)
  {
    StripIsIdentityIff(Strip(previous));
    StripIsIdentityIff(Strip(current));
  }

  /** Whatever the order they came in, a group's worst side names exactly the ends its members saw. */
  lemma WorstSideIsJoin(r: Readers, summaries: seq<Event>, cs: seq<Event>, i: nat)
    requires i < |PlaceAll(r, summaries, cs)|
    ensures var members := Members(r, summaries, cs, i);
            forall end :: end in EndsOf(PlaceAll(r, summaries, cs)[i].worstSide) <==>
              exists k :: 0 <= k < |members| && end in EndsOf(members[k].worstSide)
  {
    hide PlaceAll, Members, FoldSides, FoldWorse, Strip;
    var members := Members(r, summaries, cs, i);
    GroupJoinsItsMembers(r, summaries, cs, i, AnyRx);
    FoldSidesIsUnion(Unknown, SidesOf(members));
    var sides := SidesOf(members);
    forall end
      ensures end in EndsSeen(Unknown, sides) <==> exists k :: 0 <= k < |members| && end in EndsOf(members[k].worstSide)
    {
      if k :| 0 <= k < |members| && end in EndsOf(members[k].worstSide) {
        assert end in EndsOf(sides[k]);
      }
    }
  }
}
