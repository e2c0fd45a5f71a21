/**
 Enumerating the files under a data root
 (scripts/maintenance/collect_global_storage_inventory.py).

 A directory is the list of its entries, in the order the listing is sorted to.
 */
module InventoryWalk {
  import opened Bytes
  import opened Text

  datatype Node = Regular(stamp: nat) | Directory(entries: seq<Entry>) | ReparsePoint | Special

  datatype Entry = Entry(name: string, node: Node)

  datatype Outcome = File(stamp: nat) | SitesExcluded | SymlinkOrReparsePoint | SpecialFile

  datatype Visit = Visit(path: Path, outcome: Outcome)

  predicate Excluded(top: bool, e: Entry) {
    top && Fold(e.name) == "sites"
  }

  /** What an entry is reported as; a directory to descend into is not reported. */
  function OutcomeOf(top: bool, e: Entry): Option<Outcome> {
    if Excluded(top, e) then Some(SitesExcluded)
    else match e.node
      case Regular(stamp) => Some(File(stamp))
      case Directory(_) => None
      case ReparsePoint => Some(SymlinkOrReparsePoint)
      case Special => Some(SpecialFile)
  }

  predicate Descends(top: bool, e: Entry) {
    !Excluded(top, e) && e.node.Directory?
  }

  // ---- The recursive definition ----

  function OwnVisits(at: Path, entries: seq<Entry>, top: bool): seq<Visit> {
    if entries == [] then []
    else
      var rest, outcome := OwnVisits(at, entries[1..], top), OutcomeOf(top, entries[0]);
      if outcome.Some? then [Visit(at + [entries[0].name], outcome.value)] + rest else rest
  }

  /** A directory's own entries, then each subdirectory in turn. */
  function Walk(at: Path, entries: seq<Entry>, top: bool): seq<Visit>
    decreases entries, 1
  {
    OwnVisits(at, entries, top) + WalkBelow(at, entries, top)
  }

  function WalkBelow(at: Path, entries: seq<Entry>, top: bool): seq<Visit>
    decreases entries, 0
  {
    if entries == [] then []
    else if Descends(top, entries[0]) then
      Walk(at + [entries[0].name], entries[0].node.entries, false) + WalkBelow(at, entries[1..], top)
    else WalkBelow(at, entries[1..], top)
  }

  // ---- What is reported, path by path ----

  function Lookup(entries: seq<Entry>, name: string): Option<Node> {
    if entries == [] then None
    else if entries[0].name == name then Some(entries[0].node)
    else Lookup(entries[1..], name)
  }

  /** What following a relative path from a directory should be reported as, if anything. */
  function OutcomeAt(entries: seq<Entry>, rel: Path, top: bool): Option<Outcome>
    decreases |rel|
  {
    if rel == [] then None
    else match Lookup(entries, rel[0])
      case None => None
      case Some(node) =>
        var e := Entry(rel[0], node);
        if |rel| == 1 then OutcomeOf(top, e)
        else if Descends(top, e) then OutcomeAt(node.entries, rel[1..], false)
        else None
  }

  /** What lies at the end of a path that leads through directories only. */
  function NodeAt(entries: seq<Entry>, rel: Path): Option<Node>
    requires rel != []
    decreases |rel|
  {
    match Lookup(entries, rel[0])
    case None => None
    case Some(node) =>
      if |rel| == 1 then Some(node)
      else if node.Directory? then NodeAt(node.entries, rel[1..])
      else None
  }

  /** At the top level, and only there, `sites` is left out with all it holds, if that is asked for. */
  lemma {:induction false} OutcomeIs(entries: seq<Entry>, rel: Path, top: bool)
    requires rel != []
    ensures var out, node := top && Fold(rel[0]) == "sites", NodeAt(entries, rel);
            OutcomeAt(entries, rel, top) ==
              if node.None? then None
              else if out then (if |rel| == 1 then Some(SitesExcluded) else None)
              else match node.value
                case Regular(stamp) => Some(File(stamp))
                case Directory(_) => None
                case ReparsePoint => Some(SymlinkOrReparsePoint)
                case Special => Some(SpecialFile)
    decreases |rel|
  {
    hide Fold;
    var node := Lookup(entries, rel[0]);
    if |rel| > 1 && node.Some? && node.value.Directory? {
      OutcomeIs(node.value.entries, rel[1..], false);
    }
  }

  /** Within every directory names are distinct. */
  predicate WellNamed(entries: seq<Entry>)
    decreases entries
  {
    && (forall i, j :: 0 <= i < j < |entries| ==> entries[i].name != entries[j].name)
    && (forall i :: 0 <= i < |entries| && entries[i].node.Directory? ==> WellNamed(entries[i].node.entries))
  }

  lemma {:induction false} LookupAt(entries: seq<Entry>, i: nat)
    requires i < |entries| && forall j :: 0 <= j < i ==> entries[j].name != entries[i].name
    ensures Lookup(entries, entries[i].name) == Some(entries[i].node)
  {
    if i > 0 {
      LookupAt(entries[1..], i - 1);
    }
  }

  lemma {:induction false} LookupFinds(entries: seq<Entry>, name: string)
    ensures Lookup(entries, name).Some? <==> exists i :: 0 <= i < |entries| && entries[i].name == name
  {
    if entries != [] {
      LookupFinds(entries[1..], name);
      if i :| 0 <= i < |entries| && entries[i].name == name {
        assert i > 0 ==> entries[1..][i-1] == entries[i];
      }
    }
  }

  predicate OwnVisit(at: Path, entries: seq<Entry>, top: bool, v: Visit, i: nat) {
    i < |entries| && v.path == at + [entries[i].name] && OutcomeOf(top, entries[i]) == Some(v.outcome)
  }

  lemma {:induction false} OwnVisitsAre(at: Path, entries: seq<Entry>, top: bool, v: Visit)
    ensures v in OwnVisits(at, entries, top) <==> exists i :: OwnVisit(at, entries, top, v, i)
  {
    hide OutcomeOf;
    if entries != [] {
      OwnVisitsAre(at, entries[1..], top, v);
      if i: nat :| OwnVisit(at, entries, top, v, i) {
        assert i > 0 ==> OwnVisit(at, entries[1..], top, v, i - 1);
      }
      if i: nat :| OwnVisit(at, entries[1..], top, v, i) {
        assert OwnVisit(at, entries, top, v, i + 1);
      }
      assert OwnVisit(at, entries, top, v, 0) <==>
        v.path == at + [entries[0].name] && OutcomeOf(top, entries[0]) == Some(v.outcome);
    }
  }

  predicate VisitBelow(at: Path, entries: seq<Entry>, top: bool, v: Visit, i: nat) {
    i < |entries| && Descends(top, entries[i]) && v in Walk(at + [entries[i].name], entries[i].node.entries, false)
  }

  lemma {:induction false} VisitsBelowAre(at: Path, entries: seq<Entry>, top: bool, v: Visit)
    ensures v in WalkBelow(at, entries, top) <==> exists i :: VisitBelow(at, entries, top, v, i)
  {
    hide Descends, Walk;
    if entries != [] {
      VisitsBelowAre(at, entries[1..], top, v);
      if i: nat :| VisitBelow(at, entries, top, v, i) {
        assert i > 0 ==> VisitBelow(at, entries[1..], top, v, i - 1);
      }
      if i: nat :| VisitBelow(at, entries[1..], top, v, i) {
        assert VisitBelow(at, entries, top, v, i + 1);
      }
      DescendsIntoDirectory(top, entries[0]);
      assert VisitBelow(at, entries, top, v, 0) <==>
        Descends(top, entries[0]) && v in Walk(at + [entries[0].name], entries[0].node.entries, false);
    }
  }

  /** A directory's walk only meets paths below it. */
  lemma {:induction false} WalkStaysBelow(at: Path, entries: seq<Entry>, top: bool)
    ensures forall v :: v in Walk(at, entries, top) ==> at < v.path
    decreases entries
  {
    hide Descends, OutcomeOf;
    forall v | v in Walk(at, entries, top) ensures at < v.path {
      OwnVisitsAre(at, entries, top, v);
      VisitsBelowAre(at, entries, top, v);
      if i: nat :| VisitBelow(at, entries, top, v, i) {
        DescendsIntoDirectory(top, entries[i]);
        WalkStaysBelow(at + [entries[i].name], entries[i].node.entries, false);
      }
    }
  }

  lemma DescendsIntoDirectory(top: bool, e: Entry)
    ensures Descends(top, e) ==> e.node.Directory? && OutcomeOf(top, e).None?
  {
  }

  /** The walk reports exactly what each path calls for. */
  lemma {:induction false} WalkReportsExactly(at: Path, entries: seq<Entry>, top: bool, rel: Path, o: Outcome)
    requires WellNamed(entries)
    ensures Visit(at + rel, o) in Walk(at, entries, top) <==> OutcomeAt(entries, rel, top) == Some(o)
    decreases entries
  {
    hide Descends, OutcomeOf, Walk, WalkBelow, OwnVisits;
    var v := Visit(at + rel, o);
    assert v in Walk(at, entries, top) <==> v in OwnVisits(at, entries, top) || v in WalkBelow(at, entries, top) by {
      WalkIsBoth(at, entries, top, v);
    }
    OwnVisitsAre(at, entries, top, v);
    VisitsBelowAre(at, entries, top, v);
    if rel == [] {
      WalkStaysBelow(at, entries, top);
    } else {
      assert v.path[|at|] == rel[0];
      LookupFinds(entries, rel[0]);
      if n :| 0 <= n < |entries| && entries[n].name == rel[0] {
        LookupAt(entries, n);
        ReportedBy(at, entries, top, rel, o, n);
        if |rel| > 1 && Descends(top, entries[n]) {
          DescendsIntoDirectory(top, entries[n]);
          assert at + rel == at + [rel[0]] + rel[1..];
          WalkReportsExactly(at + [rel[0]], entries[n].node.entries, false, rel[1..], o);
        }
      } else {
        forall i: nat ensures !OwnVisit(at, entries, top, v, i) && !VisitBelow(at, entries, top, v, i) {
          OnlyThroughItsEntry(at, entries, top, rel, o, i);
        }
      }
    }
  }

  lemma WalkIsBoth(at: Path, entries: seq<Entry>, top: bool, v: Visit)
    ensures v in Walk(at, entries, top) <==> v in OwnVisits(at, entries, top) || v in WalkBelow(at, entries, top)
  {
  }

  /** A path is met only through the entry its first part names. */
  lemma OnlyThroughItsEntry(at: Path, entries: seq<Entry>, top: bool, rel: Path, o: Outcome, i: nat)
    requires rel != []
    ensures var v := Visit(at + rel, o);
            (OwnVisit(at, entries, top, v, i) ==> entries[i].name == rel[0] && |rel| == 1) &&
            (VisitBelow(at, entries, top, v, i) ==> entries[i].name == rel[0] && |rel| > 1)
  {
    hide Walk, OutcomeOf;
    var v := Visit(at + rel, o);
    assert v.path[|at|] == rel[0];
    if OwnVisit(at, entries, top, v, i) {
      assert (at + [entries[i].name])[|at|] == entries[i].name;
    }
    if VisitBelow(at, entries, top, v, i) {
      WalkStaysBelow(at + [entries[i].name], entries[i].node.entries, false);
      assert (at + [entries[i].name])[|at|] == entries[i].name;
    }
  }

  lemma ReportedBy(at: Path, entries: seq<Entry>, top: bool, rel: Path, o: Outcome, n: nat)
    requires n < |entries| && rel != [] && entries[n].name == rel[0]
    requires forall i, j :: 0 <= i < j < |entries| ==> entries[i].name != entries[j].name
    ensures var v := Visit(at + rel, o);
            && ((exists i :: OwnVisit(at, entries, top, v, i)) <==> |rel| == 1 && OutcomeOf(top, entries[n]) == Some(o))
            && ((exists i :: VisitBelow(at, entries, top, v, i)) <==>
                  |rel| > 1 && Descends(top, entries[n]) && v in Walk(at + [rel[0]], entries[n].node.entries, false))
  {
    hide Walk, OutcomeOf;
    var v := Visit(at + rel, o);
    forall i: nat | OwnVisit(at, entries, top, v, i) || VisitBelow(at, entries, top, v, i) ensures i == n {
      OnlyThroughItsEntry(at, entries, top, rel, o, i);
    }
    OnlyThroughItsEntry(at, entries, top, rel, o, n);
    if |rel| == 1 && OutcomeOf(top, entries[n]) == Some(o) {
      assert rel == [entries[n].name];
      assert OwnVisit(at, entries, top, v, n);
    }
    if |rel| > 1 && Descends(top, entries[n]) && v in Walk(at + [rel[0]], entries[n].node.entries, false) {
      assert VisitBelow(at, entries, top, v, n);
    }
  }

  // ---- Each once ----

  ghost predicate NoRepeats(visits: seq<Visit>) {
    forall i, j :: 0 <= i < j < |visits| ==> visits[i].path != visits[j].path
  }

  lemma {:induction false} OwnVisitsOnce(at: Path, entries: seq<Entry>, top: bool)
    requires forall i, j :: 0 <= i < j < |entries| ==> entries[i].name != entries[j].name
    ensures NoRepeats(OwnVisits(at, entries, top))
  {
    hide OutcomeOf;
    if entries != [] {
      var rest := OwnVisits(at, entries[1..], top);
      OwnVisitsOnce(at, entries[1..], top);
      forall k | 0 <= k < |rest| ensures rest[k].path != at + [entries[0].name] {
        OwnVisitsAre(at, entries[1..], top, rest[k]);
        var i: nat :| OwnVisit(at, entries[1..], top, rest[k], i);
        assert rest[k].path[|at|] == entries[i+1].name;
      }
    }
  }

  lemma {:induction false} WalkBelowOnce(at: Path, entries: seq<Entry>, top: bool)
    requires WellNamed(entries)
    ensures NoRepeats(WalkBelow(at, entries, top))
    decreases entries, 0
  {
    hide Walk, Descends;
    if entries != [] {
      WalkBelowOnce(at, entries[1..], top);
      DescendsIntoDirectory(top, entries[0]);
      if Descends(top, entries[0]) {
        var here := at + [entries[0].name];
        var first, rest := Walk(here, entries[0].node.entries, false), WalkBelow(at, entries[1..], top);
        WalkOnce(here, entries[0].node.entries, false);
        WalkStaysBelow(here, entries[0].node.entries, false);
        forall k, m | 0 <= k < |first| && 0 <= m < |rest| ensures first[k].path != rest[m].path {
          assert first[k] in first && here < first[k].path;
          assert first[k].path[|at|] == entries[0].name;
          BelowByName(at, entries[1..], top, rest[m]);
        }
      }
    }
  }

  lemma BelowByName(at: Path, entries: seq<Entry>, top: bool, v: Visit)
    requires v in WalkBelow(at, entries, top)
    ensures |v.path| > |at| && exists i :: 0 <= i < |entries| && entries[i].name == v.path[|at|]
    ensures |v.path| > |at| + 1
  {
    hide Walk, Descends;
    VisitsBelowAre(at, entries, top, v);
    var i: nat :| VisitBelow(at, entries, top, v, i);
    DescendsIntoDirectory(top, entries[i]);
    WalkStaysBelow(at + [entries[i].name], entries[i].node.entries, false);
    assert v.path[|at|] == (at + [entries[i].name])[|at|];
  }

  /** No path is reported twice. */
  lemma {:induction false} WalkOnce(at: Path, entries: seq<Entry>, top: bool)
    requires WellNamed(entries)
    ensures NoRepeats(Walk(at, entries, top))
    decreases entries, 1
  {
    hide OwnVisits, WalkBelow;
    var own, below := OwnVisits(at, entries, top), WalkBelow(at, entries, top);
    OwnVisitsOnce(at, entries, top);
    WalkBelowOnce(at, entries, top);
    forall k, m | 0 <= k < |own| && 0 <= m < |below| ensures own[k].path != below[m].path {
      assert own[k] in own && below[m] in below;
      OwnVisitsAre(at, entries, top, own[k]);
      BelowByName(at, entries, top, below[m]);
    }
  }

  // ---- The worklist ----

  datatype Pending = Pending(at: Path, entries: seq<Entry>, top: bool)

  function ChildDirectories(at: Path, entries: seq<Entry>, top: bool): (children: seq<Pending>)
    ensures Weight(children) <= Size(entries)
  {
    if entries == [] then []
    else
      var rest := ChildDirectories(at, entries[1..], top);
      if Descends(top, entries[0]) then
        var child := Pending(at + [entries[0].name], entries[0].node.entries, false);
        assert ([child] + rest)[1..] == rest;
        [child] + rest
      else rest
  }

  function Size(entries: seq<Entry>): nat
    decreases entries
  {
    if entries == [] then 0
    else 1 + (if entries[0].node.Directory? then Size(entries[0].node.entries) else 0) + Size(entries[1..])
  }

  function Weight(pending: seq<Pending>): nat {
    if pending == [] then 0 else 1 + Size(pending[0].entries) + Weight(pending[1..])
  }

  lemma {:induction false} WeightAppend(a: seq<Pending>, b: seq<Pending>)
    ensures Weight(a + b) == Weight(a) + Weight(b)
  {
    if a == [] {
      assert a + b == b;
    } else {
      assert (a + b)[1..] == a[1..] + b;
      WeightAppend(a[1..], b);
    }
  }

  function Reversed(s: seq<Pending>): (r: seq<Pending>)
    ensures |r| == |s|
    ensures Weight(r) == Weight(s)
  {
    if s == [] then []
    else
      WeightAppend(Reversed(s[1..]), [s[0]]);
      assert [s[0]][1..] == [];
      Reversed(s[1..]) + [s[0]]
  }

  /** What is still to come from a stack, its top last. */
  function Remaining(stack: seq<Pending>): seq<Visit> {
    if stack == [] then []
    else
      var d := stack[|stack|-1];
      Walk(d.at, d.entries, d.top) + Remaining(stack[..|stack|-1])
  }

  function WalkEach(children: seq<Pending>): seq<Visit> {
    if children == [] then []
    else Walk(children[0].at, children[0].entries, children[0].top) + WalkEach(children[1..])
  }

  lemma ReversedFront(s: seq<Pending>)
    requires s != []
    ensures Reversed(s) == Reversed(s[1..]) + [s[0]]
  {
  }

  lemma RemainingTop(below: seq<Pending>, d: Pending)
    ensures Remaining(below + [d]) == Walk(d.at, d.entries, d.top) + Remaining(below)
  {
    hide Walk;
    assert (below + [d])[..|below|] == below;
  }

  lemma Regroup(a: seq<Visit>, b: seq<Visit>, c: seq<Visit>)
    ensures a + (b + c) == (a + b) + c
  {
  }

  lemma {:induction false} PushReversed(stack: seq<Pending>, children: seq<Pending>)
    ensures Remaining(stack + Reversed(children)) == WalkEach(children) + Remaining(stack)
  {
    hide Walk, Weight, Size, Remaining, Reversed;
    if children == [] {
      assert Reversed(children) == [];
      assert stack + [] == stack;
    } else {
      var c, rest := children[0], children[1..];
      PushReversed(stack, rest);
      ReversedFront(children);
      assert stack + (Reversed(rest) + [c]) == (stack + Reversed(rest)) + [c];
      RemainingTop(stack + Reversed(rest), c);
      Regroup(Walk(c.at, c.entries, c.top), WalkEach(rest), Remaining(stack));
    }
  }

  lemma {:induction false} ChildrenAreWalkedBelow(at: Path, entries: seq<Entry>, top: bool)
    ensures WalkEach(ChildDirectories(at, entries, top)) == WalkBelow(at, entries, top)
  {
    hide Walk, Descends;
    if entries != [] {
      ChildrenAreWalkedBelow(at, entries[1..], top);
      DescendsIntoDirectory(top, entries[0]);
      if Descends(top, entries[0]) {
        assert ChildDirectories(at, entries, top)[1..] == ChildDirectories(at, entries[1..], top);
      }
    }
  }

  function FilesOf(visits: seq<Visit>): seq<Visit> {
    if visits == [] then []
    else
      var init, v := FilesOf(visits[..|visits|-1]), visits[|visits|-1];
      if v.outcome.File? then init + [v] else init
  }

  function SkippedOf(visits: seq<Visit>): seq<Visit> {
    if visits == [] then []
    else
      var init, v := SkippedOf(visits[..|visits|-1]), visits[|visits|-1];
      if v.outcome.File? then init else init + [v]
  }

  lemma ReportOne(visits: seq<Visit>, v: Visit)
    ensures FilesOf(visits + [v]) == if v.outcome.File? then FilesOf(visits) + [v] else FilesOf(visits)
    ensures SkippedOf(visits + [v]) == if v.outcome.File? then SkippedOf(visits) else SkippedOf(visits) + [v]
  {
    assert (visits + [v])[..|visits|] == visits;
  }

  lemma ScanOne(at: Path, entries: seq<Entry>, top: bool, i: nat)
    requires i < |entries|
    ensures var e := entries[i];
            && OwnVisits(at, entries[i..], top) ==
                 (if OutcomeOf(top, e).Some? then [Visit(at + [e.name], OutcomeOf(top, e).value)] else [])
                 + OwnVisits(at, entries[i+1..], top)
            && ChildDirectories(at, entries[i..], top) ==
                 (if Descends(top, e) then [Pending(at + [e.name], e.node.entries, false)] else [])
                 + ChildDirectories(at, entries[i+1..], top)
  {
    hide OutcomeOf;
    assert entries[i..][0] == entries[i] && entries[i..][1..] == entries[i+1..];
  }

  method InspectEntry(top: bool, e: Entry) returns (report: Option<Outcome>, descend: bool)
    ensures report == OutcomeOf(top, e) && descend == Descends(top, e)
  {
    report, descend := None, false;
    if top && Fold(e.name) == "sites" {
      report := Some(SitesExcluded);
    } else {
      match e.node
      case ReparsePoint => report := Some(SymlinkOrReparsePoint);
      case Directory(_) => descend := true;
      case Regular(stamp) => report := Some(File(stamp));
      case Special => report := Some(SpecialFile);
    }
  }

  /** The first `i` entries are accounted for: reported in `now`, or among `children`. */
  ghost predicate Scanned(d: Pending, i: nat, seen: seq<Visit>, now: seq<Visit>, children: seq<Pending>)
    requires i <= |d.entries|
  {
    && now + OwnVisits(d.at, d.entries[i..], d.top) == seen + OwnVisits(d.at, d.entries, d.top)
    && children + ChildDirectories(d.at, d.entries[i..], d.top) == ChildDirectories(d.at, d.entries, d.top)
  }

  function Reported(d: Pending, e: Entry, now: seq<Visit>): seq<Visit> {
    if OutcomeOf(d.top, e).Some? then now + [Visit(d.at + [e.name], OutcomeOf(d.top, e).value)] else now
  }

  function Collected(d: Pending, e: Entry, children: seq<Pending>): seq<Pending> {
    if Descends(d.top, e) then children + [Pending(d.at + [e.name], e.node.entries, false)] else children
  }

  lemma ScanStep(d: Pending, i: nat, seen: seq<Visit>, now: seq<Visit>, children: seq<Pending>)
    requires i < |d.entries| && Scanned(d, i, seen, now, children)
    ensures Scanned(d, i + 1, seen, Reported(d, d.entries[i], now), Collected(d, d.entries[i], children))
  {
    hide OwnVisits, ChildDirectories, OutcomeOf;
    ScanOne(d.at, d.entries, d.top, i);
  }

  lemma ScanEnds(d: Pending, seen: seq<Visit>, now: seq<Visit>, children: seq<Pending>)
    ensures Scanned(d, 0, seen, seen, [])
    ensures Scanned(d, |d.entries|, seen, now, children) ==>
              now == seen + OwnVisits(d.at, d.entries, d.top) && children == ChildDirectories(d.at, d.entries, d.top)
  {
    assert d.entries[0..] == d.entries && d.entries[|d.entries|..] == [];
  }

  /** One directory: its own entries are reported, its subdirectories are collected. */
  method ScanDirectory(d: Pending, files0: seq<Visit>, skipped0: seq<Visit>, ghost seen: seq<Visit>)
    returns (files: seq<Visit>, skipped: seq<Visit>, children: seq<Pending>)
    requires files0 == FilesOf(seen) && skipped0 == SkippedOf(seen)
    ensures children == ChildDirectories(d.at, d.entries, d.top)
    ensures var after := seen + OwnVisits(d.at, d.entries, d.top); files == FilesOf(after) && skipped == SkippedOf(after)
  {
    hide FilesOf, SkippedOf, Scanned, OutcomeOf, Descends;
    files, skipped, children := files0, skipped0, [];
    ghost var now := seen;
    ScanEnds(d, seen, now, children);
    for i := 0 to |d.entries|
      invariant Scanned(d, i, seen, now, children)
      invariant files == FilesOf(now) && skipped == SkippedOf(now)
    {
      var e := d.entries[i];
      var path := d.at + [e.name];
      var report, descend := InspectEntry(d.top, e);
      DescendsIntoDirectory(d.top, e);
      ScanStep(d, i, seen, now, children);
      if descend {
        children := children + [Pending(path, e.node.entries, false)];
      }
      if report.Some? {
        var v := Visit(path, report.value);
        ReportOne(now, v);
        now := now + [v];
        if v.outcome.File? {
          files := files + [v];
        } else {
          skipped := skipped + [v];
        }
      }
    }
    ScanEnds(d, seen, now, children);
  }

  /** The worklist loop reports what the recursive walk does, in the same order. */
  method SnapshotFiles(root: seq<Entry>, excludeSites: bool) returns (files: seq<Visit>, skipped: seq<Visit>)
    ensures files == FilesOf(Walk([], root, excludeSites))
    ensures skipped == SkippedOf(Walk([], root, excludeSites))
  {
    hide Walk, WalkBelow, WalkEach, OwnVisits, FilesOf, SkippedOf, Remaining, ChildDirectories;
    files, skipped := [], [];
    var pending := [Pending([], root, excludeSites)];
    ghost var seen: seq<Visit> := [];
    StartOfWalk(root, excludeSites);
    while pending != []
      invariant seen + Remaining(pending) == Walk([], root, excludeSites)
      invariant files == FilesOf(seen) && skipped == SkippedOf(seen)
      decreases Weight(pending)
    {
      var d, below := pending[|pending|-1], pending[..|pending|-1];
      assert pending == below + [d];
      var children;
      files, skipped, children := ScanDirectory(d, files, skipped, seen);
      PopDirectory(below, d);
      PushReversed(below, children);
      ChildrenAreWalkedBelow(d.at, d.entries, d.top);
      seen := seen + OwnVisits(d.at, d.entries, d.top);
      WeightAppend(below, [d]);
      WeightAppend(below, Reversed(children));
      assert [d][1..] == [];
      pending := below + Reversed(children);
    }
    NothingRemains();
    assert seen + [] == seen;
  }

  lemma StartOfWalk(root: seq<Entry>, top: bool)
    ensures FilesOf([]) == [] && SkippedOf([]) == []
    ensures [] + Remaining([Pending([], root, top)]) == Walk([], root, top)
  {
    hide Walk;
    var d := Pending([], root, top);
    assert [d][..0] == [];
    assert Remaining([d]) == Walk([], root, top) + Remaining([]);
  }

  lemma NothingRemains()
    ensures Remaining([]) == []
  {
  }

  lemma PopDirectory(below: seq<Pending>, d: Pending)
    ensures Remaining(below + [d]) == OwnVisits(d.at, d.entries, d.top) + (WalkBelow(d.at, d.entries, d.top) + Remaining(below))
  {
    assert (below + [d])[..|below|] == below;
  }

  // ---- What a snapshot lists ----

  lemma {:induction false} SplitMembers(visits: seq<Visit>, v: Visit)
    ensures v in FilesOf(visits) <==> v in visits && v.outcome.File?
    ensures v in SkippedOf(visits) <==> v in visits && !v.outcome.File?
  {
    if visits != [] {
      SplitMembers(visits[..|visits|-1], v);
      assert visits == visits[..|visits|-1] + [visits[|visits|-1]];
    }
  }

  lemma {:induction false} SplitKeepsOnce(visits: seq<Visit>)
    requires NoRepeats(visits)
    ensures NoRepeats(FilesOf(visits)) && NoRepeats(SkippedOf(visits))
  {
    if visits != [] {
      var init, last := visits[..|visits|-1], visits[|visits|-1];
      SplitKeepsOnce(init);
      forall v | v in FilesOf(init) || v in SkippedOf(init) ensures v.path != last.path {
        SplitMembers(init, v);
        var i :| 0 <= i < |init| && init[i] == v;
      }
      assert forall k :: 0 <= k < |FilesOf(init)| ==> FilesOf(init)[k] in FilesOf(init);
      assert forall k :: 0 <= k < |SkippedOf(init)| ==> SkippedOf(init)[k] in SkippedOf(init);
    }
  }

  /**
   A snapshot lists exactly the regular files that can be reached through directories
   that are no reparse points, outside an excluded `sites`, each once; every other entry
   met that is not a directory is listed as skipped, once.
   */
  lemma SnapshotIsExact(root: seq<Entry>, excludeSites: bool, rel: Path, o: Outcome)
    requires WellNamed(root)
    ensures var walk := Walk([], root, excludeSites);
            && (Visit(rel, o) in FilesOf(walk) <==> o.File? && OutcomeAt(root, rel, excludeSites) == Some(o))
            && (Visit(rel, o) in SkippedOf(walk) <==> !o.File? && OutcomeAt(root, rel, excludeSites) == Some(o))
            && NoRepeats(FilesOf(walk)) && NoRepeats(SkippedOf(walk))
  {
    hide Walk, OutcomeAt, FilesOf, SkippedOf, WellNamed, NoRepeats;
    assert [] + rel == rel;
    WalkReportsExactly([], root, excludeSites, rel, o);
    SplitMembers(Walk([], root, excludeSites), Visit(rel, o));
    WalkOnce([], root, excludeSites);
    SplitKeepsOnce(Walk([], root, excludeSites));
  }
}
