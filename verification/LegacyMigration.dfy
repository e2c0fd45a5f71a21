/**
 Copying legacy runtime data out of the repository without overwriting anything
 (scripts/maintenance/migrate_legacy_runtime_data.py).

 The destination is on a case-insensitive file system: a file's slot is its
 case-folded path.
 */
module LegacyMigration {
  import opened Bytes
  import opened Text

  datatype SourceNode = Link | Content(bytes: seq<byte>)

  /** One step of the walk over the source roots. */
  datatype Item = Item(root: string, relative: Path, target: Path, node: SourceNode)

  datatype Kind = RegularFile | SqliteFile | Sidecar | LinkFile

  datatype Action = Copy | Copied | DuplicateOf | Conflict | Present | Unsafe | Skip

  datatype Entry = Entry(root: string, relative: Path, target: Path, kind: Kind, action: Action, bytes: seq<byte>)

  datatype Node = File(bytes: seq<byte>) | Other

  type Tree = map<Path, Node>

  const SQLITE_HEADER: seq<byte> := [83, 81, 76, 105, 116, 101, 32, 102, 111, 114, 109, 97, 116, 32, 51, 0]

  predicate IsSidecar(target: Path) {
    target != [] &&
    var name := target[|target|-1];
    EndsWith(name, "-journal") || EndsWith(name, "-shm") || EndsWith(name, "-wal")
  }

  function KindOf(item: Item): Kind {
    if item.node.Link? then LinkFile
    else if IsSidecar(item.target) then Sidecar
    else if SQLITE_HEADER <= item.node.bytes then SqliteFile
    else RegularFile
  }

  /** What a copy puts at the destination: a backup of a database, the bytes of anything else. */
  function Delivered(backup: seq<byte> -> seq<byte>, kind: Kind, bytes: seq<byte>): seq<byte> {
    if kind == SqliteFile then backup(bytes) else bytes
  }

  // ---- Planning ----

  function ActionFor(dest: Tree, claimed: map<Path, seq<byte>>, item: Item): Action {
    var slot := FoldPath(item.target);
    if item.node.Link? then Unsafe
    else if IsSidecar(item.target) then Skip
    else if slot in claimed then (if claimed[slot] == item.node.bytes then DuplicateOf else Conflict)
    else if slot in dest then
      if !dest[slot].File? then Unsafe else if dest[slot].bytes == item.node.bytes then Present else Conflict
    else Copy
  }

  predicate Wanted(item: Item) {
    item.node.Content? && !IsSidecar(item.target)
  }

  lemma CopyIff(dest: Tree, claimed: map<Path, seq<byte>>, item: Item)
    ensures ActionFor(dest, claimed, item) == Copy <==>
              Wanted(item) && FoldPath(item.target) !in claimed && FoldPath(item.target) !in dest
  {
  }

  lemma WantedHasContent(item: Item)
    ensures Wanted(item) ==> item.node.Content?
  {
  }

  function EntryFor(item: Item, action: Action): Entry {
    Entry(item.root, item.relative, item.target, KindOf(item), action,
          if item.node.Content? then item.node.bytes else [])
  }

  function Claimed(dest: Tree, items: seq<Item>): map<Path, seq<byte>> {
    if items == [] then map[]
    else
      var claimed, item := Claimed(dest, items[..|items|-1]), items[|items|-1];
      if ActionFor(dest, claimed, item) == Copy then claimed[FoldPath(item.target) := item.node.bytes] else claimed
  }

  function Plan(dest: Tree, items: seq<Item>): (plan: seq<Entry>)
    ensures |plan| == |items|
  {
    if items == [] then []
    else
      var init, item := items[..|items|-1], items[|items|-1];
      Plan(dest, init) + [EntryFor(item, ActionFor(dest, Claimed(dest, init), item))]
  }

  method BuildPlan(dest: Tree, items: seq<Item>) returns (plan: seq<Entry>)
    ensures plan == Plan(dest, items)
  {
    hide FoldPath, IsSidecar, EntryFor;
    plan := [];
    var claimed: map<Path, seq<byte>> := map[];
    for i := 0 to |items|
      invariant plan == Plan(dest, items[..i]) && claimed == Claimed(dest, items[..i])
    {
      assert items[..i+1][..i] == items[..i];
      var item, slot := items[i], FoldPath(items[i].target);
      var action := Copy;
      if item.node.Link? {
        action := Unsafe;
      } else if IsSidecar(item.target) {
        action := Skip;
      } else if slot in claimed {
        action := if claimed[slot] == item.node.bytes then DuplicateOf else Conflict;
      } else if slot in dest {
        action := if !dest[slot].File? then Unsafe else if dest[slot].bytes == item.node.bytes then Present else Conflict;
      } else {
        claimed := claimed[slot := item.node.bytes];
      }
      plan := plan + [EntryFor(item, action)];
    }
    assert items[..|items|] == items;
  }

  /** Copies go to distinct slots that were free, and claim them. */
  ghost predicate CopiesAreFresh(dest: Tree, plan: seq<Entry>) {
    && (forall k :: 0 <= k < |plan| && plan[k].action == Copy ==> FoldPath(plan[k].target) !in dest)
    && (forall j, k :: 0 <= j < k < |plan| && plan[j].action == Copy && plan[k].action == Copy ==>
          FoldPath(plan[j].target) != FoldPath(plan[k].target))
  }

  predicate Claims(e: Entry, slot: Path, bytes: seq<byte>) {
    e.action == Copy && FoldPath(e.target) == slot && e.bytes == bytes
  }

  ghost predicate ClaimsAreCopies(plan: seq<Entry>, claimed: map<Path, seq<byte>>) {
    && (forall k :: 0 <= k < |plan| && plan[k].action == Copy ==> FoldPath(plan[k].target) in claimed)
    && (forall slot :: slot in claimed ==>
          exists k :: 0 <= k < |plan| && Claims(plan[k], slot, claimed[slot]))
  }

  lemma ClaimsGrow(before: seq<Entry>, e: Entry, claimed: map<Path, seq<byte>>)
    requires ClaimsAreCopies(before, claimed) && e.action == Copy
    ensures ClaimsAreCopies(before + [e], claimed[FoldPath(e.target) := e.bytes])
  {
    hide FoldPath;
    var plan, after := before + [e], claimed[FoldPath(e.target) := e.bytes];
    forall slot | slot in after ensures exists k :: 0 <= k < |plan| && Claims(plan[k], slot, after[slot]) {
      if slot == FoldPath(e.target) {
        assert Claims(plan[|before|], slot, after[slot]);
      } else {
        var k :| 0 <= k < |before| && Claims(before[k], slot, claimed[slot]);
        assert plan[k] == before[k];
      }
    }
  }

  lemma ClaimsStay(before: seq<Entry>, e: Entry, claimed: map<Path, seq<byte>>)
    requires ClaimsAreCopies(before, claimed) && e.action != Copy
    ensures ClaimsAreCopies(before + [e], claimed)
  {
    hide FoldPath;
    var plan := before + [e];
    forall slot | slot in claimed ensures exists k :: 0 <= k < |plan| && Claims(plan[k], slot, claimed[slot]) {
      var k :| 0 <= k < |before| && Claims(before[k], slot, claimed[slot]);
      assert plan[k] == before[k];
    }
  }

  lemma {:induction false} PlannedClaims(dest: Tree, items: seq<Item>)
    ensures ClaimsAreCopies(Plan(dest, items), Claimed(dest, items))
  {
    hide FoldPath, ActionFor, KindOf, Wanted, ClaimsAreCopies;
    if items == [] {
      assert ClaimsAreCopies([], map[]) by { NoClaims(); }
    } else {
      var init, item := items[..|items|-1], items[|items|-1];
      PlannedClaims(dest, init);
      CopyIff(dest, Claimed(dest, init), item);
      WantedHasContent(item);
      var before, last := Plan(dest, init), Plan(dest, items)[|init|];
      assert Plan(dest, items) == before + [last];
      if last.action == Copy {
        ClaimsGrow(before, last, Claimed(dest, init));
      } else {
        ClaimsStay(before, last, Claimed(dest, init));
      }
    }
  }

  lemma NoClaims()
    ensures ClaimsAreCopies([], map[])
  {
  }

  /** Planned copies go to distinct slots, none of which is taken. */
  lemma {:induction false} PlannedCopiesAreFresh(dest: Tree, items: seq<Item>)
    ensures CopiesAreFresh(dest, Plan(dest, items))
  {
    hide FoldPath, ActionFor, KindOf, Wanted;
    if items != [] {
      var init, item := items[..|items|-1], items[|items|-1];
      PlannedCopiesAreFresh(dest, init);
      PlannedClaims(dest, init);
      CopyIff(dest, Claimed(dest, init), item);
      assert Plan(dest, items)[..|init|] == Plan(dest, init);
    }
  }

  // ---- What a plan says, entry by entry ----

  /** A regular file that a plan would copy if its slot were free. */
  predicate IsData(item: Item) {
    item.node.Content? && !IsTransient(item.target)
  }

  /** What SQLite leaves beside a database. */
  predicate IsTransient(target: Path) {
    target != [] &&
    var name := target[|target|-1];
    exists n :: 0 <= n <= |name| && name[n..] in ["-journal", "-shm", "-wal"]
  }

  lemma SidecarIsTransient(item: Item)
    ensures IsSidecar(item.target) <==> IsTransient(item.target)
    ensures Wanted(item) <==> IsData(item)
  {
    if item.target != [] {
      var name := item.target[|item.target|-1];
      assert EndsWith(name, "-journal") ==> name[|name|-8..] == "-journal";
      assert EndsWith(name, "-shm") ==> name[|name|-4..] == "-shm";
      assert EndsWith(name, "-wal") ==> name[|name|-4..] == "-wal";
    }
  }

  /** Item `j` is the first data file that goes to the slot. */
  ghost predicate FirstAt(items: seq<Item>, j: nat, slot: Path)
    requires j < |items|
  {
    && IsData(items[j]) && FoldPath(items[j].target) == slot
    && forall k :: 0 <= k < j && IsData(items[k]) ==> FoldPath(items[k].target) != slot
  }

  lemma {:induction false} ClaimedByFirst(dest: Tree, items: seq<Item>, n: nat, slot: Path)
    requires n <= |items|
    ensures slot in Claimed(dest, items[..n]) <==>
              slot !in dest && exists j :: 0 <= j < n && IsData(items[j]) && FoldPath(items[j].target) == slot
    ensures forall j :: 0 <= j < n && slot in Claimed(dest, items[..n]) && FirstAt(items, j, slot) ==>
                          Claimed(dest, items[..n])[slot] == items[j].node.bytes
  {
    hide FoldPath, ActionFor, Wanted, IsData;
    if n > 0 {
      assert items[..n][..n-1] == items[..n-1];
      ClaimedByFirst(dest, items, n - 1, slot);
      CopyIff(dest, Claimed(dest, items[..n-1]), items[n-1]);
      SidecarIsTransient(items[n-1]);
      assert IsData(items[n-1]) ==> items[n-1].node.Content? by { DataHasContent(items[n-1]); }
    }
  }

  lemma DataHasContent(item: Item)
    ensures IsData(item) ==> item.node.Content?
  {
  }

  /**
   What a plan does with item `i`, when item `j` is the first data file that goes to the
   same slot: links are unsafe, sidecars skipped; where the destination has something it
   counts, else the first comer is copied and later ones are duplicates or conflicts.
   */
  lemma PlanSays(dest: Tree, items: seq<Item>, i: nat, j: nat)
    requires i < |items| && j < |items|
    ensures var item, e := items[i], Plan(dest, items)[i];
            var slot := FoldPath(item.target);
            && e.root == item.root && e.relative == item.relative && e.target == item.target
            && (item.node.Link? ==> e.action == Unsafe && e.kind == LinkFile)
            && (item.node.Content? && IsTransient(item.target) ==> e.action == Skip && e.kind == Sidecar)
            && (IsData(item) ==> e.bytes == item.node.bytes && e.kind == (if SQLITE_HEADER <= item.node.bytes then SqliteFile else RegularFile))
            && (IsData(item) && slot in dest ==>
                  e.action == if dest[slot].Other? then Unsafe else if dest[slot].bytes == item.node.bytes then Present else Conflict)
            && (IsData(item) && slot !in dest && FirstAt(items, j, slot) ==>
                  e.action == if i == j then Copy else if items[j].node.bytes == item.node.bytes then DuplicateOf else Conflict)
  {
    hide FoldPath, IsSidecar, IsTransient;
    PlannedAction(dest, items, i);
    SidecarIsTransient(items[i]);
    ClaimedByFirst(dest, items, i, FoldPath(items[i].target));
  }

  // ---- Applying ----

  function ApplyEntry(backup: seq<byte> -> seq<byte>, dest: Tree, e: Entry): Tree {
    if e.action == Copy then dest[FoldPath(e.target) := File(Delivered(backup, e.kind, e.bytes))] else dest
  }

  function ApplyEntries(backup: seq<byte> -> seq<byte>, dest: Tree, plan: seq<Entry>): Tree {
    if plan == [] then dest
    else ApplyEntry(backup, ApplyEntries(backup, dest, plan[..|plan|-1]), plan[|plan|-1])
  }

  /** The line the manifest gets once an entry has been carried out. */
  function Recorded(backup: seq<byte> -> seq<byte>, e: Entry): Entry {
    if e.action == Copy then e.(action := Copied, bytes := Delivered(backup, e.kind, e.bytes)) else e
  }

  predicate Blocked(plan: seq<Entry>, skipConflicts: bool) {
    exists k :: 0 <= k < |plan| && (plan[k].action == Unsafe || (plan[k].action == Conflict && !skipConflicts))
  }

  /** The source still reads as planned, and nothing has appeared at the destination. */
  predicate CanCopy(dest: Tree, sources: map<(string, Path), SourceNode>, e: Entry) {
    && (e.root, e.relative) in sources && sources[(e.root, e.relative)] == Content(e.bytes)
    && FoldPath(e.target) !in dest
  }

  ghost predicate Keeps(before: Tree, after: Tree) {
    forall slot :: slot in before ==> slot in after && after[slot] == before[slot]
  }

  class Destination {
    var files: Tree

    constructor (files: Tree)
      ensures this.files == files
    {
      this.files := files;
    }

    /**
     Applies any plan to whatever the destination is by now. `sources` are the files as
     they are read back, copying entry number `fault` fails if it is reached. Whatever
     the outcome nothing is overwritten, and the copies made are a prefix of the plan's.
     */
    method Apply(backup: seq<byte> -> seq<byte>, plan: seq<Entry>, sources: map<(string, Path), SourceNode>,
                 skipConflicts: bool, fault: nat)
      returns (done: bool, applied: seq<Entry>)
      modifies this
      ensures Keeps(old(files), files)
      ensures |applied| <= |plan| && (done ==> |applied| == |plan|)
      ensures Blocked(plan, skipConflicts) <==>
                exists k :: 0 <= k < |plan| && (plan[k].action == Unsafe || (!skipConflicts && plan[k].action == Conflict))
      ensures Blocked(plan, skipConflicts) ==> !done && applied == [] && files == old(files)
      ensures !Blocked(plan, skipConflicts) ==> files == ApplyEntries(backup, old(files), plan[..|applied|])
      ensures forall k :: 0 <= k < |applied| ==>
                applied[k] == Recorded(backup, plan[k]) &&
                (plan[k].action == Copy ==> CanCopy(ApplyEntries(backup, old(files), plan[..k]), sources, plan[k]))
      ensures !done && !Blocked(plan, skipConflicts) ==>
                && |applied| < |plan| && plan[|applied|].action == Copy
                && (|applied| == fault || !CanCopy(files, sources, plan[|applied|]))
    {
      hide FoldPath, Delivered;
      done, applied := false, [];
      if Blocked(plan, skipConflicts) {
        return;
      }
      for k := 0 to |plan|
        invariant |applied| == k && files == ApplyEntries(backup, old(files), plan[..k]) && Keeps(old(files), files)
        invariant forall j :: 0 <= j < k ==>
          applied[j] == Recorded(backup, plan[j]) &&
          (plan[j].action == Copy ==> CanCopy(ApplyEntries(backup, old(files), plan[..j]), sources, plan[j]))
      {
        var e := plan[k];
        assert plan[..k+1][..k] == plan[..k];
        if e.action == Copy {
          var slot := FoldPath(e.target);
          if (e.root, e.relative) !in sources || sources[(e.root, e.relative)] != Content(e.bytes) {
            return;
          }
          if slot in files || k == fault {
            return;
          }
          var copied := Delivered(backup, e.kind, e.bytes);
          files := files[slot := File(copied)];
          e := e.(action := Copied, bytes := copied);
        }
        applied := applied + [e];
      }
      assert plan[..|plan|] == plan;
      done := true;
    }
  }

  // ---- Planning again ----

  /** What a walk delivers on its own: each wanted file whose slot is still free. */
  function Deliver(backup: seq<byte> -> seq<byte>, dest: Tree, items: seq<Item>): Tree {
    if items == [] then dest
    else
      var before, item := Deliver(backup, dest, items[..|items|-1]), items[|items|-1];
      if Wanted(item) && FoldPath(item.target) !in before
      then before[FoldPath(item.target) := File(Delivered(backup, KindOf(item), item.node.bytes))]
      else before
  }

  lemma {:induction false} DeliverAddsClaims(backup: seq<byte> -> seq<byte>, dest: Tree, items: seq<Item>)
    ensures Deliver(backup, dest, items).Keys == dest.Keys + Claimed(dest, items).Keys
    ensures Keeps(dest, Deliver(backup, dest, items))
  {
    hide FoldPath, ActionFor, Wanted, Delivered, KindOf;
    if items != [] {
      var init, item := items[..|items|-1], items[|items|-1];
      DeliverAddsClaims(backup, dest, init);
      CopyIff(dest, Claimed(dest, init), item);
    }
  }

  /** Planning and then applying is the same as delivering along the walk. */
  lemma {:induction false} PlanDelivers(backup: seq<byte> -> seq<byte>, dest: Tree, items: seq<Item>)
    ensures ApplyEntries(backup, dest, Plan(dest, items)) == Deliver(backup, dest, items)
  {
    hide FoldPath, ActionFor, Wanted, Delivered, KindOf, Keeps;
    if items != [] {
      var init, item := items[..|items|-1], items[|items|-1];
      PlanDelivers(backup, dest, init);
      DeliverAddsClaims(backup, dest, init);
      CopyIff(dest, Claimed(dest, init), item);
      WantedHasContent(item);
      var e := EntryFor(item, ActionFor(dest, Claimed(dest, init), item));
      assert Plan(dest, items) == Plan(dest, init) + [e];
      assert ApplyEntries(backup, dest, Plan(dest, items)) == ApplyEntry(backup, Deliver(backup, dest, init), e);
    }
  }

  lemma {:induction false} PlanPrefix(dest: Tree, items: seq<Item>, k: nat)
    requires k <= |items|
    ensures Plan(dest, items)[..k] == Plan(dest, items[..k])
  {
    hide ActionFor, Claimed, EntryFor;
    if k == |items| {
      assert items[..k] == items;
    } else {
      assert items[..|items|-1][..k] == items[..k];
      PlanPrefix(dest, items[..|items|-1], k);
    }
  }

  lemma {:induction false} DeliverFills(backup: seq<byte> -> seq<byte>, dest: Tree, items: seq<Item>)
    ensures forall i :: 0 <= i < |items| && Wanted(items[i]) ==> FoldPath(items[i].target) in Deliver(backup, dest, items)
    ensures Keeps(dest, Deliver(backup, dest, items))
  {
    hide FoldPath, Wanted, Delivered, KindOf;
    if items != [] {
      DeliverFills(backup, dest, items[..|items|-1]);
      assert forall i :: 0 <= i < |items|-1 ==> items[i] == items[..|items|-1][i];
    }
  }

  /** Delivering into a tree that already went through part of the walk ends in the same tree. */
  lemma {:induction false} DeliverResumes(backup: seq<byte> -> seq<byte>, dest: Tree, items: seq<Item>, k: nat, n: nat)
    requires k <= |items| && n <= |items|
    ensures Deliver(backup, Deliver(backup, dest, items[..k]), items[..n]) == Deliver(backup, dest, items[..if n < k then k else n])
  {
    hide FoldPath, Wanted, Delivered, KindOf;
    if n == 0 {
      assert items[..0] == [];
    } else {
      DeliverResumes(backup, dest, items, k, n - 1);
      assert items[..n][..n-1] == items[..n-1];
      if n <= k {
        DeliverFills(backup, dest, items[..k]);
        assert items[..k][n-1] == items[n-1];
      }
    }
  }

  /** What planning says about item `i`, given what earlier items claimed. */
  lemma {:induction false} PlannedAction(dest: Tree, items: seq<Item>, i: nat)
    requires i < |items|
    ensures Plan(dest, items)[i] == EntryFor(items[i], ActionFor(dest, Claimed(dest, items[..i]), items[i]))
  {
    hide ActionFor, EntryFor, Claimed;
    var init := items[..|items|-1];
    if i < |init| {
      PlannedAction(dest, init, i);
      assert init[..i] == items[..i];
    }
  }

  /** What is at the destination once these bytes have been copied. */
  function Landed(backup: seq<byte> -> seq<byte>, bytes: seq<byte>): seq<byte> {
    if SQLITE_HEADER <= bytes then backup(bytes) else bytes
  }

  lemma WantedLands(backup: seq<byte> -> seq<byte>, item: Item)
    ensures Wanted(item) ==> item.node.Content? && Delivered(backup, KindOf(item), item.node.bytes) == Landed(backup, item.node.bytes)
  {
    hide IsSidecar;
  }

  /** A claimed slot ends up with what its claimant delivers. */
  lemma {:induction false} ClaimIsDelivered(backup: seq<byte> -> seq<byte>, dest: Tree, items: seq<Item>, slot: Path)
    requires slot in Claimed(dest, items)
    ensures slot in Deliver(backup, dest, items)
    ensures Deliver(backup, dest, items)[slot] == File(Landed(backup, Claimed(dest, items)[slot]))
  {
    hide FoldPath, ActionFor, Wanted, KindOf, Delivered, Landed;
    var init, item := items[..|items|-1], items[|items|-1];
    DeliverAddsClaims(backup, dest, init);
    CopyIff(dest, Claimed(dest, init), item);
    WantedLands(backup, item);
    if slot in Claimed(dest, init) {
      ClaimIsDelivered(backup, dest, init, slot);
    }
  }

  /** Claims made early on are not given up. */
  lemma {:induction false} ClaimsLast(dest: Tree, items: seq<Item>, k: nat)
    requires k <= |items|
    ensures forall slot :: slot in Claimed(dest, items[..k]) ==>
              slot in Claimed(dest, items) && Claimed(dest, items)[slot] == Claimed(dest, items[..k])[slot]
  {
    hide FoldPath, ActionFor, Wanted;
    if k < |items| {
      var init := items[..|items|-1];
      ClaimsLast(dest, init, k);
      assert init[..k] == items[..k];
      CopyIff(dest, Claimed(dest, init), items[|items|-1]);
    } else {
      assert items[..k] == items;
    }
  }

  lemma {:induction false} ClaimsAreFree(dest: Tree, items: seq<Item>)
    ensures forall slot :: slot in Claimed(dest, items) ==> slot !in dest
  {
    hide FoldPath, ActionFor, Wanted;
    if items != [] {
      ClaimsAreFree(dest, items[..|items|-1]);
      CopyIff(dest, Claimed(dest, items[..|items|-1]), items[|items|-1]);
    }
  }

  /** What planning again makes of an entry, once the claims in `landed` are at the destination. */
  function ActionAgain(backup: seq<byte> -> seq<byte>, first: Entry, landed: map<Path, seq<byte>>): Action {
    var slot := FoldPath(first.target);
    if first.action == Unsafe || first.action == Skip || slot !in landed then first.action
    else if Landed(backup, landed[slot]) == first.bytes then Present
    else Conflict
  }

  /** Of a tree that went through part of a walk: the old files, and `landed`. */
  ghost predicate Holds(backup: seq<byte> -> seq<byte>, dest: Tree, landed: map<Path, seq<byte>>, stopped: Tree) {
    && Keeps(dest, stopped) && stopped.Keys == dest.Keys + landed.Keys
    && forall slot :: slot in landed ==> slot !in dest && stopped[slot] == File(Landed(backup, landed[slot]))
  }

  lemma DeliveredHolds(backup: seq<byte> -> seq<byte>, dest: Tree, items: seq<Item>)
    ensures Holds(backup, dest, Claimed(dest, items), Deliver(backup, dest, items))
  {
    hide Landed, Deliver, Claimed, Keeps;
    DeliverAddsClaims(backup, dest, items);
    ClaimsAreFree(dest, items);
    forall slot | slot in Claimed(dest, items)
      ensures slot in Deliver(backup, dest, items)
      ensures Deliver(backup, dest, items)[slot] == File(Landed(backup, Claimed(dest, items)[slot]))
    {
      ClaimIsDelivered(backup, dest, items, slot);
    }
  }

  lemma PlannedAgain(backup: seq<byte> -> seq<byte>, dest: Tree, landed: map<Path, seq<byte>>, stopped: Tree,
                     claimed: map<Path, seq<byte>>, item: Item)
    requires Holds(backup, dest, landed, stopped)
    ensures ActionFor(stopped, claimed - landed.Keys, item) ==
            ActionAgain(backup, EntryFor(item, ActionFor(dest, claimed, item)), landed)
  {
    hide FoldPath, IsSidecar, KindOf, Landed;
  }

  /** The second plan claims what the first one had still to copy. */
  lemma {:induction false} ClaimedAgain(backup: seq<byte> -> seq<byte>, dest: Tree, landed: map<Path, seq<byte>>, stopped: Tree,
                                        items: seq<Item>)
    requires Holds(backup, dest, landed, stopped)
    ensures Claimed(stopped, items) == Claimed(dest, items) - landed.Keys
  {
    hide FoldPath, ActionFor, Wanted, Holds;
    if items != [] {
      var init, item := items[..|items|-1], items[|items|-1];
      ClaimedAgain(backup, dest, landed, stopped, init);
      CopyIff(dest, Claimed(dest, init), item);
      CopyIff(stopped, Claimed(stopped, init), item);
      assert stopped.Keys == dest.Keys + landed.Keys by { HoldsKeys(backup, dest, landed, stopped); }
    }
  }

  lemma HoldsKeys(backup: seq<byte> -> seq<byte>, dest: Tree, landed: map<Path, seq<byte>>, stopped: Tree)
    requires Holds(backup, dest, landed, stopped)
    ensures stopped.Keys == dest.Keys + landed.Keys
  {
  }

  /** Planning again after a stop anywhere: every entry comes back, its action decided by what has landed. */
  lemma ReplanAfterStop(backup: seq<byte> -> seq<byte>, dest: Tree, items: seq<Item>, k: nat, i: nat)
    requires k <= |items| && i < |items|
    ensures var first := Plan(dest, items);
            var second := Plan(ApplyEntries(backup, dest, first[..k]), items);
            second[i] == first[i].(action := ActionAgain(backup, first[i], Claimed(dest, items[..k])))
  {
    hide ActionFor, ActionAgain, Claimed, Deliver, Plan, ApplyEntries, Holds, KindOf;
    var landed, stopped := Claimed(dest, items[..k]), Deliver(backup, dest, items[..k]);
    PlanPrefix(dest, items, k);
    PlanDelivers(backup, dest, items[..k]);
    DeliveredHolds(backup, dest, items[..k]);
    ClaimedAgain(backup, dest, landed, stopped, items[..i]);
    PlannedAgain(backup, dest, landed, stopped, Claimed(dest, items[..i]), items[i]);
    PlannedAction(dest, items, i);
    PlannedAction(stopped, items, i);
  }

  lemma CopyClaims(dest: Tree, items: seq<Item>, i: nat)
    requires i < |items|
    requires ActionFor(dest, Claimed(dest, items[..i]), items[i]) == Copy
    ensures var slot := FoldPath(items[i].target);
            && items[i].node.Content?
            && slot in Claimed(dest, items[..i+1]) && Claimed(dest, items[..i+1])[slot] == items[i].node.bytes
  {
    hide FoldPath, IsSidecar;
    assert items[..i+1][..i] == items[..i];
  }

  /** How an entry of a plan stands to what had landed when the run stopped. */
  lemma LandedForEntry(dest: Tree, items: seq<Item>, k: nat, i: nat)
    requires k <= |items| && i < |items|
    ensures var e, landed := Plan(dest, items)[i], Claimed(dest, items[..k]);
            var slot := FoldPath(e.target);
            && (i < k && e.action == Copy ==> slot in landed)
            && (i < k && e.action == DuplicateOf ==> slot in landed)
            && (e.action == Copy || e.action == DuplicateOf ==> slot !in landed || landed[slot] == e.bytes)
            && (e.action == Present ==> slot !in landed)
            && e.action != Copied
  {
    hide FoldPath, IsSidecar, Claimed, KindOf, Plan;
    PlannedAction(dest, items, i);
    ClaimsAreFree(dest, items[..k]);
    if i < k {
      assert items[..k][..i] == items[..i] && items[..k][..i+1] == items[..i+1];
      ClaimsLast(dest, items[..k], i);
      ClaimsLast(dest, items[..k], i + 1);
    } else {
      assert items[..i][..k] == items[..k];
      ClaimsLast(dest, items[..i], k);
    }
    if ActionFor(dest, Claimed(dest, items[..i]), items[i]) == Copy {
      CopyClaims(dest, items, i);
    }
  }

  /** Every copy made so far is byte-identical to its source. */
  ghost predicate Identical(backup: seq<byte> -> seq<byte>, plan: seq<Entry>) {
    forall j :: 0 <= j < |plan| && plan[j].action == Copy ==> Landed(backup, plan[j].bytes) == plan[j].bytes
  }

  /** A run stopped after `k` entries may be planned again and applied unless one of its backups differs from its source. */
  lemma StoppedPlanIsBlockedIff(backup: seq<byte> -> seq<byte>, dest: Tree, items: seq<Item>, k: nat, skipConflicts: bool)
    requires k <= |items| && !Blocked(Plan(dest, items), skipConflicts)
    ensures var first := Plan(dest, items);
            Blocked(Plan(ApplyEntries(backup, dest, first[..k]), items), skipConflicts) <==>
            !skipConflicts && !Identical(backup, first[..k])
  {
    hide FoldPath, Landed, Plan, ApplyEntries, Claimed;
    var first, landed := Plan(dest, items), Claimed(dest, items[..k]);
    var second := Plan(ApplyEntries(backup, dest, first[..k]), items);
    forall i | 0 <= i < |items|
      ensures second[i] == first[i].(action := ActionAgain(backup, first[i], landed))
    {
      ReplanAfterStop(backup, dest, items, k, i);
    }
    if i :| 0 <= i < |second| && second[i].action == Conflict && !skipConflicts {
      LandedForEntry(dest, items, k, i);
      var j := Claimant(dest, items, k, FoldPath(first[i].target));
      assert first[..k][j] == first[j] && Landed(backup, first[j].bytes) != first[j].bytes;
    }
    if j :| 0 <= j < k && first[..k][j].action == Copy && Landed(backup, first[..k][j].bytes) != first[..k][j].bytes {
      LandedForEntry(dest, items, k, j);
      assert second[j].action == Conflict;
    }
  }

  lemma Claimant(dest: Tree, items: seq<Item>, k: nat, slot: Path) returns (j: nat)
    requires k <= |items| && slot in Claimed(dest, items[..k])
    ensures j < k && Claims(Plan(dest, items)[j], slot, Claimed(dest, items[..k])[slot])
  {
    hide FoldPath, Plan, Claimed, Claims;
    PlannedClaims(dest, items[..k]);
    PlanPrefix(dest, items, k);
    j :| 0 <= j < k && Claims(Plan(dest, items[..k])[j], slot, Claimed(dest, items[..k])[slot]);
    assert Plan(dest, items)[..k][j] == Plan(dest, items)[j];
  }

  /**
   A run that stopped after any part of an admitted plan is admitted again exactly when
   conflicts are skipped or every copy made so far is byte-identical to its source.
   Applied to the end, the second plan leaves the destination exactly as one run that was
   never interrupted; where it is refused, what was copied stays and the rest is missing.
   */
  lemma InterruptedApplyResumes(backup: seq<byte> -> seq<byte>, dest: Tree, items: seq<Item>, k: nat, skipConflicts: bool)
    requires k <= |items|
    ensures var first := Plan(dest, items);
            var stopped := ApplyEntries(backup, dest, first[..k]);
            var second := Plan(stopped, items);
            && ApplyEntries(backup, stopped, second) == ApplyEntries(backup, dest, first)
            && (!Blocked(first, skipConflicts) ==>
                  (!Blocked(second, skipConflicts) <==> skipConflicts || Identical(backup, first[..k])))
  {
    hide Deliver, Plan, ApplyEntries, Blocked, Identical;
    PlanPrefix(dest, items, k);
    PlanDelivers(backup, dest, items[..k]);
    PlanDelivers(backup, dest, items);
    PlanDelivers(backup, Deliver(backup, dest, items[..k]), items);
    DeliverResumes(backup, dest, items, k, |items|);
    assert items[..|items|] == items;
    if !Blocked(Plan(dest, items), skipConflicts) {
      StoppedPlanIsBlockedIff(backup, dest, items, k, skipConflicts);
    }
  }

  /**
   A database and then a file: stopped between the two, a run whose backup is not the
   database byte for byte is refused when it is started again.
   */
  lemma StoppedRunCanGetStuck(backup: seq<byte> -> seq<byte>, database: seq<byte>, bytes: seq<byte>)
    requires SQLITE_HEADER <= database && backup(database) != database
    ensures var items := [Item("legacy-root-data", ["a.db"], ["data", "a.db"], Content(database)),
                          Item("legacy-root-data", ["b"], ["data", "b"], Content(bytes))];
            var first := Plan(map[], items);
            var stopped := ApplyEntries(backup, map[], first[..1]);
            && !Blocked(first, false) && Blocked(Plan(stopped, items), false)
            && stopped != ApplyEntries(backup, map[], first)
  {
    hide FoldPath, Plan, ApplyEntry, Delivered, KindOf, IsSidecar;
    var db, file := Item("legacy-root-data", ["a.db"], ["data", "a.db"], Content(database)),
                    Item("legacy-root-data", ["b"], ["data", "b"], Content(bytes));
    TwoPlainFiles();
    PlanOfTwo(db, file);
    var first := Plan(map[], [db, file]);
    assert first[..1] == [first[0]] && first[..1][..0] == [] && first[..2] == first;
    assert !Identical(backup, first[..1]);
    StoppedPlanIsBlockedIff(backup, map[], [db, file], 1, false);
    OnlyFirstLanded(backup, first);
  }

  lemma TwoPlainFiles()
    ensures FoldPath(["data", "a.db"]) != FoldPath(["data", "b"])
    ensures !IsSidecar(["data", "a.db"]) && !IsSidecar(["data", "b"])
  {
    assert FoldPath(["data", "a.db"])[1] == Fold("a.db") && FoldPath(["data", "b"])[1] == Fold("b");
    assert |Fold("a.db")| == 4 && |Fold("b")| == 1;
  }

  lemma PlanOfTwo(a: Item, b: Item)
    requires a.node.Content? && b.node.Content? && !IsSidecar(a.target) && !IsSidecar(b.target)
    requires FoldPath(a.target) != FoldPath(b.target)
    ensures Plan(map[], [a, b]) == [EntryFor(a, Copy), EntryFor(b, Copy)]
  {
    hide FoldPath, IsSidecar, KindOf;
    var none: Tree := map[];
    assert [a, b][..1] == [a] && [a][..0] == [];
    assert Claimed(none, []) == map[] && Plan(none, []) == [];
    assert Claimed(none, [a]) == map[FoldPath(a.target) := a.node.bytes];
    assert Plan(none, [a]) == [EntryFor(a, Copy)];
  }

  lemma OnlyFirstLanded(backup: seq<byte> -> seq<byte>, plan: seq<Entry>)
    requires |plan| == 2 && plan[0].action == Copy && plan[1].action == Copy
    requires FoldPath(plan[0].target) != FoldPath(plan[1].target)
    ensures ApplyEntries(backup, map[], plan[..1]) != ApplyEntries(backup, map[], plan)
  {
    hide FoldPath, Delivered;
    assert plan[..1][..0] == [];
    assert FoldPath(plan[1].target) !in ApplyEntries(backup, map[], plan[..1]);
    assert FoldPath(plan[1].target) in ApplyEntries(backup, map[], plan);
  }

  /** What planning again after a complete apply makes of an entry. */
  function SecondAction(backup: seq<byte> -> seq<byte>, first: Entry, dest: Tree, claimed: map<Path, seq<byte>>): Action {
    var slot := FoldPath(first.target);
    match first.action
    case Copy => if Landed(backup, first.bytes) == first.bytes then Present else Conflict
    case DuplicateOf => if Landed(backup, first.bytes) == first.bytes then Present else Conflict
    case Conflict => if slot !in dest && slot in claimed && Landed(backup, claimed[slot]) == first.bytes then Present else Conflict
    case Copied => Copied
    case Present => Present
    case Unsafe => Unsafe
    case Skip => Skip
  }

  /**
   Planning again after a complete apply finds nothing left to copy; a regular file that
   was copied or a duplicate is now present, a database only if its backup is identical.
   */
  lemma ReplanFindsNothingToCopy(backup: seq<byte> -> seq<byte>, dest: Tree, items: seq<Item>)
    ensures var first := Plan(dest, items);
            var second := Plan(ApplyEntries(backup, dest, first), items);
            forall i :: 0 <= i < |items| ==>
              && second[i].action != Copy && second[i].action != DuplicateOf
              && second[i].action == SecondAction(backup, first[i], dest, Claimed(dest, items))
  {
    hide FoldPath, Landed, Plan, ApplyEntries, Claimed;
    var first := Plan(dest, items);
    assert first[..|items|] == first && items[..|items|] == items;
    ClaimsAreFree(dest, items);
    forall i | 0 <= i < |items|
      ensures var a := Plan(ApplyEntries(backup, dest, first), items)[i].action;
              a != Copy && a != DuplicateOf && a == SecondAction(backup, first[i], dest, Claimed(dest, items))
    {
      ReplanAfterStop(backup, dest, items, |items|, i);
      LandedForEntry(dest, items, |items|, i);
    }
  }
}
