/**
 Planning and applying the event backfill
 (scripts/backfill_ap_optical_treatment_events.py).
 */
module BackfillPlan {
  import opened Bytes
  import opened Tokens
  import opened TreatmentEvents

  // ---- What is already recorded ----

  /** A key field may hold several keys, separated by semicolons. */
  predicate Records(row: Event, key: string) {
    key != "" && (key in row.evidenceKeys || (row.backfillKey != "" && key in Split(row.backfillKey)))
  }

  predicate Consumed(rows: seq<Event>, key: string) {
    exists i :: 0 <= i < |rows| && Records(rows[i], key)
  }

  predicate Holds(row: Event, key: string) {
    row.backfillKey == key || key in row.evidenceKeys
  }

  /** The row a key leads to: the last one that holds it. */
  function HolderOf(rows: seq<Event>, key: string): (r: Option<nat>)
    ensures r.Some? ==> r.value < |rows| && Holds(rows[r.value], key)
    ensures r.None? ==> forall i :: 0 <= i < |rows| ==> !Holds(rows[i], key)
  {
    if rows == [] then None
    else if Holds(rows[|rows|-1], key) then Some(|rows|-1)
    else HolderOf(rows[..|rows|-1], key)
  }

  function FirstHolder(rows: seq<Event>, keys: seq<string>): (r: Option<nat>)
    ensures r.Some? ==> r.value < |rows|
  {
    if keys == [] then None
    else
      var holder := HolderOf(rows, keys[0]);
      if holder.Some? then holder else FirstHolder(rows, keys[1..])
  }

  // ---- Grouping candidates ----

  function FirstCovering(r: Readers, groups: seq<Event>, c: Event, i: nat, n: nat): (t: Option<nat>)
    requires i <= n <= |groups|
    ensures t.Some? ==> i <= t.value < n
    decreases n - i
  {
    if i == n then None else if CoversSummary(r, groups[i], c) then Some(i) else FirstCovering(r, groups, c, i + 1, n)
  }

  predicate Twin(group: Event, c: Event) {
    group.identity == c.identity && group.firstDetectedAt == c.firstDetectedAt
  }

  function FirstTwin(groups: seq<Event>, c: Event, i: nat): (t: Option<nat>)
    requires i <= |groups|
    ensures t.Some? ==> i <= t.value < |groups|
    decreases |groups| - i
  {
    if i == |groups| then None else if Twin(groups[i], c) then Some(i) else FirstTwin(groups, c, i + 1)
  }

  /** The group that takes a candidate in: a summary whose interval covers it, else one that began with it. */
  function TargetOf(r: Readers, groups: seq<Event>, n: nat, c: Event): (t: Option<nat>)
    requires n <= |groups|
    ensures t.Some? ==> t.value < |groups|
  {
    var covering := FirstCovering(r, groups, c, 0, n);
    if covering.Some? then covering else FirstTwin(groups, c, 0)
  }

  function Place(r: Readers, groups: seq<Event>, n: nat, c: Event): (placed: seq<Event>)
    requires n <= |groups|
    ensures |groups| <= |placed|
  {
    match TargetOf(r, groups, n, c)
    case Some(i) => groups[i := MergeEvent(r, groups[i], c)]
    case None => groups + [c]
  }

  function PlaceAll(r: Readers, summaries: seq<Event>, cs: seq<Event>): (groups: seq<Event>)
    ensures |summaries| <= |groups|
  {
    if cs == [] then summaries
    else Place(r, PlaceAll(r, summaries, cs[..|cs|-1]), |summaries|, cs[|cs|-1])
  }

  function Unconsumed(rows: seq<Event>, cs: seq<Event>): (pending: seq<Event>)
    ensures forall c :: c in pending <==> c in cs && !Consumed(rows, c.backfillKey)
  {
    if cs == [] then []
    else
      var init, last := Unconsumed(rows, cs[..|cs|-1]), cs[|cs|-1];
      assert cs == cs[..|cs|-1] + [last];
      if Consumed(rows, last.backfillKey) then init else init + [last]
  }

  // ---- Operations ----

  datatype Op = Create(event: Event) | Update(id: nat, event: Event)

  function KeysOf(group: Event): seq<string> {
    Dedup([group.backfillKey] + group.evidenceKeys)
  }

  predicate HasNews(rows: seq<Event>, group: Event) {
    exists i :: 0 <= i < |KeysOf(group)| && KeysOf(group)[i] != "" && !Consumed(rows, KeysOf(group)[i])
  }

  function OpFor(rows: seq<Event>, group: Event): Option<Op> {
    if !HasNews(rows, group) then None
    else match FirstHolder(rows, KeysOf(group))
      case None => Some(Create(group))
      case Some(id) => Some(Update(id, AppendEvidence(rows[id], group)))
  }

  function OpsFor(rows: seq<Event>, groups: seq<Event>): seq<Op> {
    if groups == [] then []
    else
      var init, op := OpsFor(rows, groups[..|groups|-1]), OpFor(rows, groups[|groups|-1]);
      if op.Some? then init + [op.value] else init
  }

  function Created(ops: seq<Op>): seq<Event> {
    if ops == [] then []
    else Created(ops[..|ops|-1]) + if ops[|ops|-1].Create? then [ops[|ops|-1].event] else []
  }

  function OpenCount(rows: seq<Event>, identity: string): nat {
    if rows == [] then 0
    else OpenCount(rows[..|rows|-1], identity) +
         if rows[|rows|-1].status == Open && rows[|rows|-1].identity == identity then 1 else 0
  }

  /** Some access point would end up with two open events. */
  ghost predicate Conflicting(rows: seq<Event>, ops: seq<Op>) {
    exists identity :: identity != "" && OpenCount(rows + Created(ops), identity) > 1
  }

  function Groups(r: Readers, rows: seq<Event>, summaries: seq<Event>, cs: seq<Event>): seq<Event> {
    PlaceAll(r, summaries, Unconsumed(rows, cs))
  }

  function PlanOps(r: Readers, rows: seq<Event>, summaries: seq<Event>, cs: seq<Event>): seq<Op> {
    OpsFor(rows, Groups(r, rows, summaries, cs))
  }

  function ApplyOp(rows: seq<Event>, op: Op): seq<Event> {
    match op
    case Create(event) => rows + [event]
    case Update(id, event) => if id < |rows| then rows[id := event] else rows
  }

  function ApplyOps(rows: seq<Event>, ops: seq<Op>): seq<Event> {
    if ops == [] then rows else ApplyOp(ApplyOps(rows, ops[..|ops|-1]), ops[|ops|-1])
  }

  // ---- Well-formed inputs and reachable tables ----

  predicate IsSummaryKey(key: string) {
    "CURRENT_SUMMARY:" <= key
  }

  /** Each summary and each accepted trace event starts out with exactly its own key as evidence. */
  predicate OwnKey(e: Event) {
    e.backfillKey != "" && e.evidenceKeys == [e.backfillKey]
  }

  ghost predicate InputOk(summaries: seq<Event>, cs: seq<Event>) {
    && (forall i :: 0 <= i < |summaries| ==> OwnKey(summaries[i]) && IsSummaryKey(summaries[i].backfillKey))
    && (forall i, j :: 0 <= i < j < |summaries| ==> summaries[i].backfillKey != summaries[j].backfillKey)
    && (forall i :: 0 <= i < |cs| ==> OwnKey(cs[i]) && !IsSummaryKey(cs[i].backfillKey))
  }

  /** Every row records its key in its evidence and holds at most one summary key. */
  ghost predicate RowOk(row: Event) {
    && (row.backfillKey != "" ==> row.backfillKey in row.evidenceKeys)
    && (forall a, b :: a in row.evidenceKeys && b in row.evidenceKeys && IsSummaryKey(a) && IsSummaryKey(b) ==> a == b)
  }

  ghost predicate TableOk(rows: seq<Event>) {
    forall i :: 0 <= i < |rows| ==> RowOk(rows[i])
  }

  lemma HeldIsConsumed(rows: seq<Event>, key: string)
    requires TableOk(rows) && key != ""
    ensures HolderOf(rows, key).Some? ==> Consumed(rows, key)
  {
    var holder := HolderOf(rows, key);
    if holder.Some? {
      assert RowOk(rows[holder.value]);
      assert Records(rows[holder.value], key);
    }
  }

  // ---- What grouping keeps ----

  predicate FromCandidates(cs: seq<Event>, key: string) {
    exists i :: 0 <= i < |cs| && cs[i].backfillKey == key
  }

  /** A summary group still has its summary key, any other group only candidate keys; no candidate key is lost. */
  ghost predicate GroupsOk(groups: seq<Event>, summaries: seq<Event>, cs: seq<Event>) {
    && |summaries| <= |groups|
    && (forall i :: 0 <= i < |groups| ==> groups[i].backfillKey in groups[i].evidenceKeys)
    && (forall i :: 0 <= i < |summaries| ==> groups[i].backfillKey == summaries[i].backfillKey)
    && (forall i, key :: 0 <= i < |groups| && key in groups[i].evidenceKeys ==>
          (i < |summaries| && key == groups[i].backfillKey) || FromCandidates(cs, key))
    && (forall k :: 0 <= k < |cs| ==> exists i :: 0 <= i < |groups| && cs[k].backfillKey in groups[i].evidenceKeys)
  }

  lemma FromCandidatesStep(cs: seq<Event>, key: string)
    requires cs != []
    ensures FromCandidates(cs, key) <==> FromCandidates(cs[..|cs|-1], key) || cs[|cs|-1].backfillKey == key
  {
    if FromCandidates(cs[..|cs|-1], key) {
      var i :| 0 <= i < |cs|-1 && cs[..|cs|-1][i].backfillKey == key;
      assert cs[i].backfillKey == key;
    }
    if FromCandidates(cs, key) {
      var i :| 0 <= i < |cs| && cs[i].backfillKey == key;
      assert i < |cs|-1 ==> cs[..|cs|-1][i] == cs[i];
    }
  }

  lemma MergedKeys(r: Readers, group: Event, c: Event)
    ensures var merged := MergeEvent(r, group, c);
            && merged.backfillKey == group.backfillKey
            && (forall key :: key in merged.evidenceKeys <==> key in group.evidenceKeys || key in c.evidenceKeys)
  {
  }

  lemma PlaceKeepsKeys(r: Readers, groups: seq<Event>, n: nat, c: Event)
    requires n <= |groups| && OwnKey(c)
    ensures var placed := Place(r, groups, n, c);
            && |groups| <= |placed|
            && (forall i :: 0 <= i < |groups| ==>
                  && placed[i].backfillKey == groups[i].backfillKey
                  && (forall key :: key in groups[i].evidenceKeys ==> key in placed[i].evidenceKeys)
                  && (forall key :: key in placed[i].evidenceKeys ==> key in groups[i].evidenceKeys || key == c.backfillKey))
            && (forall i :: |groups| <= i < |placed| ==> placed[i] == c)
            && (exists i :: 0 <= i < |placed| && c.backfillKey in placed[i].evidenceKeys)
  {
    hide TargetOf, MergeEvent;
    var target := TargetOf(r, groups, n, c);
    if target.Some? {
      MergedKeys(r, groups[target.value], c);
      assert Place(r, groups, n, c)[target.value] == MergeEvent(r, groups[target.value], c);
      assert c.backfillKey in MergeEvent(r, groups[target.value], c).evidenceKeys;
    } else {
      assert Place(r, groups, n, c)[|groups|] == c;
    }
  }

  lemma {:induction false} GroupingKeepsKeys(r: Readers, summaries: seq<Event>, cs: seq<Event>)
    requires forall i :: 0 <= i < |summaries| ==> OwnKey(summaries[i])
    requires forall i :: 0 <= i < |cs| ==> OwnKey(cs[i])
    ensures GroupsOk(PlaceAll(r, summaries, cs), summaries, cs)
  {
    hide Place;
    if cs != [] {
      var init, last := cs[..|cs|-1], cs[|cs|-1];
      var before := PlaceAll(r, summaries, init);
      var after := PlaceAll(r, summaries, cs);
      GroupingKeepsKeys(r, summaries, init);
      PlaceKeepsKeys(r, before, |summaries|, last);
      forall key { FromCandidatesStep(cs, key); }
      forall k | 0 <= k < |cs| ensures exists i :: 0 <= i < |after| && cs[k].backfillKey in after[i].evidenceKeys {
        if k < |cs|-1 {
          assert init[k] == cs[k];
          var i :| 0 <= i < |before| && init[k].backfillKey in before[i].evidenceKeys;
          assert cs[k].backfillKey in after[i].evidenceKeys;
        }
      }
    }
  }

  // ---- What each group's operation is ----

  lemma {:induction false} FirstHolderSkips(rows: seq<Event>, keys: seq<string>)
    requires forall i :: 1 <= i < |keys| ==> HolderOf(rows, keys[i]).None?
    ensures FirstHolder(rows, keys) == if keys == [] then None else HolderOf(rows, keys[0])
  {
    if keys != [] {
      NoHolder(rows, keys[1..]);
    }
  }

  lemma {:induction false} NoHolder(rows: seq<Event>, keys: seq<string>)
    requires forall i :: 0 <= i < |keys| ==> HolderOf(rows, keys[i]).None?
    ensures FirstHolder(rows, keys) == None
  {
    if keys != [] {
      NoHolder(rows, keys[1..]);
    }
  }

  lemma {:induction false} DedupHead(x: string, xs: seq<string>)
    ensures Dedup([x] + xs) != [] && Dedup([x] + xs)[0] == x
  {
    DedupPrefix([x], xs);
    DedupDistinct([x]);
  }

  /** What grouping knows about the table it plans against: no candidate key is held by any row. */
  ghost predicate Planned(rows: seq<Event>, summaries: seq<Event>, cs: seq<Event>, groups: seq<Event>) {
    && TableOk(rows) && InputOk(summaries, cs) && GroupsOk(groups, summaries, cs)
    && forall i :: 0 <= i < |cs| ==> !Consumed(rows, cs[i].backfillKey)
  }

  lemma PlanIsPlanned(r: Readers, rows: seq<Event>, summaries: seq<Event>, cs: seq<Event>)
    requires TableOk(rows) && InputOk(summaries, cs)
    ensures Planned(rows, summaries, Unconsumed(rows, cs), Groups(r, rows, summaries, cs))
  {
    var pending := Unconsumed(rows, cs);
    assert forall i :: 0 <= i < |pending| ==> pending[i] in pending;
    GroupingKeepsKeys(r, summaries, pending);
  }

  /** Only a summary group can meet an existing row, and only through its summary key. */
  lemma HolderIsSummaryHolder(rows: seq<Event>, summaries: seq<Event>, cs: seq<Event>, groups: seq<Event>, i: nat)
    requires Planned(rows, summaries, cs, groups) && i < |groups|
    ensures FirstHolder(rows, KeysOf(groups[i])) ==
            if i < |summaries| then HolderOf(rows, groups[i].backfillKey) else None
  {
    hide HolderOf, FirstHolder, Records;
    var keys := KeysOf(groups[i]);
    DedupHead(groups[i].backfillKey, groups[i].evidenceKeys);
    forall k | 0 <= k < |keys| && (k >= 1 || i >= |summaries|) ensures HolderOf(rows, keys[k]).None? {
      assert keys[k] in keys;
      assert keys[k] in groups[i].evidenceKeys;
      assert FromCandidates(cs, keys[k]);
      var c :| 0 <= c < |cs| && cs[c].backfillKey == keys[k];
      assert OwnKey(cs[c]);
      HeldIsConsumed(rows, keys[k]);
    }
    if i < |summaries| {
      FirstHolderSkips(rows, keys);
    } else {
      NoHolder(rows, keys);
    }
  }

  /** Two groups never write to the same row. */
  lemma DistinctRows(rows: seq<Event>, summaries: seq<Event>, cs: seq<Event>, groups: seq<Event>, i: nat, j: nat)
    requires Planned(rows, summaries, cs, groups) && i < j < |groups|
    requires FirstHolder(rows, KeysOf(groups[i])).Some? && FirstHolder(rows, KeysOf(groups[j])).Some?
    ensures FirstHolder(rows, KeysOf(groups[i])) != FirstHolder(rows, KeysOf(groups[j]))
  {
    hide FirstHolder, KeysOf, Records;
    HolderIsSummaryHolder(rows, summaries, cs, groups, i);
    HolderIsSummaryHolder(rows, summaries, cs, groups, j);
    var a, b := HolderOf(rows, groups[i].backfillKey), HolderOf(rows, groups[j].backfillKey);
    assert OwnKey(summaries[i]) && OwnKey(summaries[j]);
    assert RowOk(rows[a.value]) && RowOk(rows[b.value]);
  }

  // ---- What applying the plan does to the table ----

  predicate Creates(rows: seq<Event>, group: Event) {
    OpFor(rows, group).Some? && OpFor(rows, group).value.Create?
  }

  predicate Updates(rows: seq<Event>, group: Event) {
    OpFor(rows, group).Some? && OpFor(rows, group).value.Update?
  }

  lemma OpForShape(rows: seq<Event>, group: Event)
    ensures OpFor(rows, group).Some? <==> HasNews(rows, group)
    ensures Creates(rows, group) ==> OpFor(rows, group) == Some(Create(group)) && FirstHolder(rows, KeysOf(group)).None?
    ensures Updates(rows, group) ==>
              var holder := FirstHolder(rows, KeysOf(group));
              && holder.Some?
              && OpFor(rows, group) == Some(Update(holder.value, AppendEvidence(rows[holder.value], group)))
  {
  }

  /** Where the rows of created groups start: after the old rows, in group order. */
  function RowOfCreate(rows: seq<Event>, groups: seq<Event>, m: nat): nat
    requires m <= |groups|
  {
    if m == 0 then |rows| else RowOfCreate(rows, groups, m - 1) + if Creates(rows, groups[m-1]) then 1 else 0
  }

  /** The operation of group `p` is visible in `next`. */
  ghost predicate Done(rows: seq<Event>, groups: seq<Event>, p: nat, next: seq<Event>)
    requires p < |groups|
  {
    && (Creates(rows, groups[p]) ==>
          RowOfCreate(rows, groups, p) < |next| && next[RowOfCreate(rows, groups, p)] == groups[p])
    && (Updates(rows, groups[p]) ==>
          var op := OpFor(rows, groups[p]).value; op.id < |rows| <= |next| && next[op.id] == op.event)
  }

  /** Row `j` of `next` is an old row, or the work of one of the first `m` groups. */
  ghost predicate Explained(rows: seq<Event>, groups: seq<Event>, m: nat, next: seq<Event>, j: nat)
    requires m <= |groups| && j < |next|
  {
    || (j < |rows| && next[j] == rows[j])
    || (j < |rows| && exists p :: 0 <= p < m && OpFor(rows, groups[p]) == Some(Update(j, next[j])))
    || (j >= |rows| && exists p :: 0 <= p < m && Creates(rows, groups[p]) && next[j] == groups[p]
                                   && j == RowOfCreate(rows, groups, p))
  }

  ghost predicate Written(rows: seq<Event>, groups: seq<Event>, m: nat, next: seq<Event>)
    requires m <= |groups|
  {
    && |next| == RowOfCreate(rows, groups, m) >= |rows|
    && (forall p :: 0 <= p < m ==> Done(rows, groups, p, next))
    && (forall j :: 0 <= j < |next| ==> Explained(rows, groups, m, next, j))
  }

  ghost predicate NoSharedRow(rows: seq<Event>, groups: seq<Event>) {
    forall i, j :: 0 <= i < j < |groups| && Updates(rows, groups[i]) && Updates(rows, groups[j]) ==>
      OpFor(rows, groups[i]).value.id != OpFor(rows, groups[j]).value.id
  }

  lemma CreateStep(rows: seq<Event>, groups: seq<Event>, m: nat, before: seq<Event>)
    requires 0 < m <= |groups| && Written(rows, groups, m - 1, before)
    requires OpFor(rows, groups[m-1]) == Some(Create(groups[m-1]))
    ensures Written(rows, groups, m, before + [groups[m-1]])
  {
    hide OpFor;
    var next := before + [groups[m-1]];
    forall p | 0 <= p < m ensures Done(rows, groups, p, next) {
      if p < m - 1 {
        assert Done(rows, groups, p, before);
      }
    }
    forall j | 0 <= j < |next| ensures Explained(rows, groups, m, next, j) {
      if j < |before| {
        assert Explained(rows, groups, m - 1, before, j);
      } else {
        assert Creates(rows, groups[m-1]);
      }
    }
  }

  lemma UpdateStep(rows: seq<Event>, groups: seq<Event>, m: nat, before: seq<Event>, id: nat, event: Event)
    requires 0 < m <= |groups| && Written(rows, groups, m - 1, before) && NoSharedRow(rows, groups)
    requires OpFor(rows, groups[m-1]) == Some(Update(id, event)) && id < |rows|
    ensures Written(rows, groups, m, before[id := event])
  {
    hide OpFor;
    var next := before[id := event];
    assert !Creates(rows, groups[m-1]) && Updates(rows, groups[m-1]);
    forall p | 0 <= p < m ensures Done(rows, groups, p, next) {
      if p < m - 1 {
        assert Done(rows, groups, p, before);
        RowsOfCreatesAreNew(rows, groups, p);
      }
    }
    forall j | 0 <= j < |next| ensures Explained(rows, groups, m, next, j) {
      if j != id {
        assert Explained(rows, groups, m - 1, before, j);
      } else {
        assert OpFor(rows, groups[m-1]) == Some(Update(j, next[j]));
      }
    }
  }

  lemma {:induction false} RowsOfCreatesAreNew(rows: seq<Event>, groups: seq<Event>, m: nat)
    requires m <= |groups|
    ensures RowOfCreate(rows, groups, m) >= |rows|
  {
    hide OpFor;
    if m > 0 {
      RowsOfCreatesAreNew(rows, groups, m - 1);
    }
  }

  lemma {:induction false} ApplyWrites(rows: seq<Event>, groups: seq<Event>, m: nat)
    requires m <= |groups| && NoSharedRow(rows, groups)
    ensures Written(rows, groups, m, ApplyOps(rows, OpsFor(rows, groups[..m])))
  {
    hide OpFor, FirstHolder, KeysOf, HasNews, AppendEvidence;
    if m == 0 {
      assert groups[..0] == [];
    } else {
      var ops := OpsFor(rows, groups[..m-1]);
      assert groups[..m][..m-1] == groups[..m-1];
      ApplyWrites(rows, groups, m - 1);
      OpForShape(rows, groups[m-1]);
      var op := OpFor(rows, groups[m-1]);
      if op.None? {
        SilentStep(rows, groups, m, ApplyOps(rows, ops));
      } else {
        assert (ops + [op.value])[..|ops|] == ops;
        match op.value
        case Create(event) => CreateStep(rows, groups, m, ApplyOps(rows, ops));
        case Update(id, event) => UpdateStep(rows, groups, m, ApplyOps(rows, ops), id, event);
      }
    }
  }

  lemma SilentStep(rows: seq<Event>, groups: seq<Event>, m: nat, before: seq<Event>)
    requires 0 < m <= |groups| && Written(rows, groups, m - 1, before)
    requires OpFor(rows, groups[m-1]).None?
    ensures Written(rows, groups, m, before)
  {
    hide OpFor;
    forall j | 0 <= j < |before| ensures Explained(rows, groups, m, before, j) {
      assert Explained(rows, groups, m - 1, before, j);
    }
  }
}
