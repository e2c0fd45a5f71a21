/**
 Merging legacy data roots into one payload tree
 (scripts/maintenance/migrate_unified_data_root.py).

 Paths are lists of parts. The payload lives on a case-insensitive file system, so
 a file's slot is its case-folded path.
 */
module DataRootMigration {
  import opened Bytes
  import opened Text

  datatype Source = Source(sourceId: string, relative: Path, content: seq<byte>)

  datatype Action = Copied | Duplicate | ConflictPreserved

  datatype Decision = Decision(
    sourceId: string,
    relative: Path,
    target: Path,
    size: nat,
    digest: string,
    action: Action,
    conflict: Option<Path>)

  /** SHA-256 as a function: distinct on the contents that occur, and at least twelve characters long. */
  ghost predicate Separates(sha: seq<byte> -> string, files: seq<Source>) {
    && (forall i, j :: 0 <= i < |files| && 0 <= j < |files| && sha(files[i].content) == sha(files[j].content) ==>
          files[i].content == files[j].content)
    && (forall i :: 0 <= i < |files| ==> |sha(files[i].content)| >= 12)
  }

  // ---- Where a file goes ----

  function MapData(parts: Path, sourceId: string): (target: Path)
    requires |parts| >= 2
    ensures target != []
  {
    var category, rest := Fold(parts[1]), parts[2..];
    if category == "sites" then ["sites"] + rest
    else if category == "config" then
      ["config"] + if rest != [] && Fold(rest[|rest|-1]) == "app.json" then rest[..|rest|-1] + ["application.json"] else rest
    else if category == "global" then ["config", "global"] + rest
    else if category == "runtime" then ["config", "runtime"] + rest
    else ["migrations", "unclassified", sourceId] + parts
  }

  function MapPath(parts: Path, sourceId: string): (target: Option<Path>)
    ensures target.Some? ==> target.value != []
  {
    if parts == [] then None
    else
      var head, rest := Fold(parts[0]), parts[1..];
      if |parts| >= 2 && head == "runtime" && Fold(parts[1]) == "locks" then None
      else if head == "data" && |parts| >= 2 then Some(MapData(parts, sourceId))
      else if head == "runtime" then Some(["runtime"] + rest)
      else if head == "cache" then Some(["runtime", "cache"] + rest)
      else if head == "agent" then Some(["agents", "legacy-localappdata-agent"] + rest)
      else if head == "migrations" then Some(["migrations", "source-history", sourceId] + rest)
      else if head == "migrationreports" then Some(["migrations", "reports", sourceId] + rest)
      else if head == "archive" then Some(["migrations", "archive", sourceId] + rest)
      else if head == "bootstrap" then Some(["config", "bootstrap", sourceId] + rest)
      else if head == "temp" then Some(["runtime", "temp", "legacy", sourceId] + rest)
      else if Fold(parts[|parts|-1]) == "development.zip" then
        Some(["migrations", "source-archives", sourceId, parts[|parts|-1]])
      else Some(["migrations", "unclassified", sourceId] + parts)
  }

  // ---- What the mapping comes to ----

  /** A file of the old runtime locks. */
  predicate IsLock(parts: Path) {
    |parts| >= 2 && Fold(parts[0]) == "runtime" && Fold(parts[1]) == "locks"
  }

  /** Only runtime locks are left behind. */
  lemma LeftBehindIff(parts: Path, sourceId: string)
    ensures MapPath(parts, sourceId).None? <==> parts == [] || IsLock(parts)
  {
  }

  datatype Area = Sites | Config | Runtime | Agents | History | Reports | Archive | Archives | Unclassified

  /** Where an area lies; four roots and the archived files have a directory for each source. */
  function AreaPath(area: Area, sourceId: string): Path {
    match area
    case Sites => ["sites"]
    case Config => ["config"]
    case Runtime => ["runtime"]
    case Agents => ["agents", "legacy-localappdata-agent"]
    case History => ["migrations", "source-history", sourceId]
    case Reports => ["migrations", "reports", sourceId]
    case Archive => ["migrations", "archive", sourceId]
    case Archives => ["migrations", "source-archives", sourceId]
    case Unclassified => ["migrations", "unclassified", sourceId]
  }

  function WithoutOldName(tail: Path): Path {
    if tail != [] && Fold(tail[|tail|-1]) == "app.json" then tail[..|tail|-1] + ["application.json"] else tail
  }

  /** The roots that share an area, and what of a path they keep in it. */
  ghost predicate GoesTo(parts: Path, sourceId: string, area: Area, tail: Path) {
    parts != [] && !IsLock(parts) &&
    var root, rest := Fold(parts[0]), parts[1..];
    if root == "data" && rest != [] then
      var category, below := Fold(rest[0]), rest[1..];
      match area
      case Sites => category == "sites" && tail == below
      case Config =>
        || (category == "config" && tail == WithoutOldName(below))
        || (category == "global" && tail == ["global"] + below)
        || (category == "runtime" && tail == ["runtime"] + below)
      case Unclassified => category !in {"sites", "config", "global", "runtime"} && tail == parts
      case _ => false
    else
      var known := {"runtime", "cache", "agent", "migrations", "migrationreports", "archive", "bootstrap", "temp"};
      match area
      case Sites => false
      case Config => root == "bootstrap" && tail == ["bootstrap", sourceId] + rest
      case Runtime =>
        || (root == "runtime" && tail == rest)
        || (root == "cache" && tail == ["cache"] + rest)
        || (root == "temp" && tail == ["temp", "legacy", sourceId] + rest)
      case Agents => root == "agent" && tail == rest
      case History => root == "migrations" && tail == rest
      case Reports => root == "migrationreports" && tail == rest
      case Archive => root == "archive" && tail == rest
      case Archives => root !in known && Fold(parts[|parts|-1]) == "development.zip" && tail == [parts[|parts|-1]]
      case Unclassified => root !in known && Fold(parts[|parts|-1]) != "development.zip" && tail == parts
  }

  /** Every other file goes to the one area of its root. */
  lemma WhereFilesGo(parts: Path, sourceId: string) returns (area: Area, tail: Path)
    requires parts != [] && !IsLock(parts)
    ensures GoesTo(parts, sourceId, area, tail)
    ensures MapPath(parts, sourceId) == Some(AreaPath(area, sourceId) + tail)
  {
    hide Fold;
    LiteralsDiffer();
    var root, rest := Fold(parts[0]), parts[1..];
    tail := rest;
    if root == "data" && rest != [] {
      var category, below := Fold(rest[0]), rest[1..];
      assert parts[2..] == below && parts[1] == rest[0];
      if category == "sites" {
        area, tail := Sites, below;
      } else if category == "config" {
        area, tail := Config, WithoutOldName(below);
      } else if category == "global" {
        area, tail := Config, ["global"] + below;
        assert ["config"] + tail == ["config", "global"] + below;
      } else if category == "runtime" {
        area, tail := Config, ["runtime"] + below;
        assert ["config"] + tail == ["config", "runtime"] + below;
      } else {
        area, tail := Unclassified, parts;
      }
    } else if root == "runtime" {
      area := Runtime;
    } else if root == "cache" {
      area, tail := Runtime, ["cache"] + rest;
      assert ["runtime"] + tail == ["runtime", "cache"] + rest;
    } else if root == "temp" {
      area, tail := Runtime, ["temp", "legacy", sourceId] + rest;
      assert ["runtime"] + tail == ["runtime", "temp", "legacy", sourceId] + rest;
    } else if root == "agent" {
      area := Agents;
    } else if root == "migrations" {
      area := History;
    } else if root == "migrationreports" {
      area := Reports;
    } else if root == "archive" {
      area := Archive;
    } else if root == "bootstrap" {
      area, tail := Config, ["bootstrap", sourceId] + rest;
      assert ["config"] + tail == ["config", "bootstrap", sourceId] + rest;
    } else if Fold(parts[|parts|-1]) == "development.zip" {
      area, tail := Archives, [parts[|parts|-1]];
      assert AreaPath(area, sourceId) + tail == ["migrations", "source-archives", sourceId, parts[|parts|-1]];
    } else {
      area, tail := Unclassified, parts;
    }
  }

  lemma LiteralsDiffer()
    ensures "runtime"[0] == 'r' && "cache"[0] == 'c' && "temp"[0] == 't' && "data"[0] == 'd'
    ensures "agent" != "archive" && "archive" != "agent" && "migrations" != "migrationreports"
    ensures "bootstrap"[0] == 'b' && "agent"[0] == 'a' && "archive"[0] == 'a' && "migrations"[0] == 'm'
  {
    assert |"agent"| != |"archive"| && |"migrations"| != |"migrationreports"|;
  }

  lemma FoldPathAppend(p: Path, q: Path)
    ensures FoldPath(p + q) == FoldPath(p) + FoldPath(q)
  {
    hide Fold;
  }

  lemma FoldFixed(s: string)
    requires forall i :: 0 <= i < |s| ==> !('A' <= s[i] <= 'Z')
    ensures Fold(s) == s
  {
  }

  /** What tells the areas apart, case aside. */
  function AreaMark(area: Area): (string, string) {
    match area
    case Sites => ("sites", "")
    case Config => ("config", "")
    case Runtime => ("runtime", "")
    case Agents => ("agents", "")
    case History => ("migrations", "source-history")
    case Reports => ("migrations", "reports")
    case Archive => ("migrations", "archive")
    case Archives => ("migrations", "source-archives")
    case Unclassified => ("migrations", "unclassified")
  }

  lemma MarkOfArea(area: Area, sourceId: string)
    ensures var p, mark := FoldPath(AreaPath(area, sourceId)), AreaMark(area);
            p[0] == mark.0 && (mark.1 != "" ==> |p| > 1 && p[1] == mark.1)
  {
    hide Fold;
    FoldFixed(AreaMark(area).0);
    FoldFixed(AreaMark(area).1);
  }

  lemma MarksDiffer(a: Area, b: Area)
    requires AreaMark(a).0 == AreaMark(b).0 && (AreaMark(a).1 == AreaMark(b).1 || AreaMark(a).1 == "" || AreaMark(b).1 == "")
    ensures a == b
  {
    assert |AreaMark(a).0| == |AreaMark(b).0| && AreaMark(a).0[0] == AreaMark(b).0[0];
    if AreaMark(a).1 != "" && AreaMark(b).1 != "" {
      assert |AreaMark(a).1| == |AreaMark(b).1| && AreaMark(a).1[0] == AreaMark(b).1[0];
    }
  }

  /** Two files of one source share a target exactly when they go to the same area and are called the same there, case aside. */
  lemma SharedTargetIff(a: Path, b: Path, sourceId: string, areaA: Area, tailA: Path, areaB: Area, tailB: Path)
    requires GoesTo(a, sourceId, areaA, tailA) && GoesTo(b, sourceId, areaB, tailB)
    ensures MapPath(a, sourceId) == Some(AreaPath(areaA, sourceId) + tailA)
    ensures MapPath(b, sourceId) == Some(AreaPath(areaB, sourceId) + tailB)
    ensures FoldPath(MapPath(a, sourceId).value) == FoldPath(MapPath(b, sourceId).value) <==>
            areaA == areaB && FoldPath(tailA) == FoldPath(tailB)
  {
    hide MapPath, AreaPath, GoesTo, FoldPath, AreaMark;
    GoesToOne(a, sourceId, areaA, tailA);
    GoesToOne(b, sourceId, areaB, tailB);
    var x, y := AreaPath(areaA, sourceId), AreaPath(areaB, sourceId);
    FoldPathAppend(x, tailA);
    FoldPathAppend(y, tailB);
    if FoldPath(x + tailA) == FoldPath(y + tailB) {
      MarkOfArea(areaA, sourceId);
      MarkOfArea(areaB, sourceId);
      AreaPathsStart(areaA, areaB, sourceId, FoldPath(tailA), FoldPath(tailB));
      assert (FoldPath(x) + FoldPath(tailA))[|x|..] == FoldPath(tailA);
      assert (FoldPath(y) + FoldPath(tailB))[|y|..] == FoldPath(tailB);
    }
  }

  lemma AreaPathsStart(a: Area, b: Area, sourceId: string, s: Path, t: Path)
    requires FoldPath(AreaPath(a, sourceId)) + s == FoldPath(AreaPath(b, sourceId)) + t
    ensures a == b
  {
    hide FoldPath, AreaMark;
    var x, y := FoldPath(AreaPath(a, sourceId)), FoldPath(AreaPath(b, sourceId));
    MarkOfArea(a, sourceId);
    MarkOfArea(b, sourceId);
    assert x[0] == (x + s)[0] && y[0] == (y + t)[0];
    assert |x| > 1 ==> x[1] == (x + s)[1];
    assert |y| > 1 ==> y[1] == (y + t)[1];
    MarksDiffer(a, b);
  }

  lemma GoesToOne(parts: Path, sourceId: string, area: Area, tail: Path)
    requires GoesTo(parts, sourceId, area, tail)
    ensures MapPath(parts, sourceId) == Some(AreaPath(area, sourceId) + tail)
  {
    hide Fold;
    LiteralsDiffer();
    var found, kept := WhereFilesGo(parts, sourceId);
  }

  predicate InConflictArea(slot: Path) {
    |slot| >= 3 && slot[0] == Fold("migrations") && slot[1] == Fold("conflicts")
  }

  /** No mapped file can land among the preserved conflicts. */
  lemma MappedOutsideConflicts(parts: Path, sourceId: string)
    ensures MapPath(parts, sourceId).Some? ==> !InConflictArea(FoldPath(MapPath(parts, sourceId).value))
  {
    var target := MapPath(parts, sourceId);
    if target.Some? {
      var p := target.value;
      assert |p[0]| != |"migrations"| || |p[1]| != |"conflicts"|;
      assert |Fold(p[0])| == |p[0]| && (|p| > 1 ==> |Fold(p[1])| == |p[1]|);
    }
  }

  // ---- Conflicts ----

  /** Python's `stem` ends where the last inner dot starts. */
  function StemLength(name: string, i: nat): (n: nat)
    requires i <= |name|
    ensures n <= |name|
  {
    if i == 0 then |name|
    else if name[i-1] == '.' then (if 1 < i < |name| then i - 1 else |name|)
    else StemLength(name, i - 1)
  }

  function Tagged(name: string, tag: string): string {
    var n := StemLength(name, |name|);
    name[..n] + "." + tag + name[n..]
  }

  lemma {:induction false} LastDot(name: string, i: nat)
    requires i <= |name| && forall k :: i <= k < |name| ==> name[k] != '.'
    ensures 1 < i < |name| && name[i-1] == '.' ==> StemLength(name, |name|) == i - 1
    ensures (i <= 1 || (i == |name| && name[i-1] == '.')) ==> StemLength(name, |name|) == |name|
  {
    StemIgnores(name, i, |name|);
  }

  lemma {:induction false} StemIgnores(name: string, i: nat, j: nat)
    requires i <= j <= |name| && forall k :: i <= k < j ==> name[k] != '.'
    ensures StemLength(name, j) == StemLength(name, i)
  {
    if i < j {
      StemIgnores(name, i, j - 1);
    }
  }

  /** The tag goes before the last suffix of a name, and after a name that has none. */
  lemma TagGoesBeforeSuffix(stem: string, suffix: string, tag: string)
    requires '.' !in suffix
    ensures stem != "" && suffix != "" ==> Tagged(stem + "." + suffix, tag) == stem + "." + tag + "." + suffix
    ensures Tagged(suffix, tag) == suffix + "." + tag
    ensures Tagged("." + suffix, tag) == "." + suffix + "." + tag
    ensures Tagged(stem + ".", tag) == stem + "." + "." + tag
  {
    hide StemLength;
    if stem != "" && suffix != "" {
      LastDot(stem + "." + suffix, |stem| + 1);
      TaggedAt(stem, "." + suffix, tag);
    }
    LastDot(suffix, 0);
    TaggedAt(suffix, "", tag);
    LastDot("." + suffix, 1);
    TaggedAt("." + suffix, "", tag);
    LastDot(stem + ".", |stem| + 1);
    TaggedAt(stem + ".", "", tag);
  }

  lemma TaggedAt(front: string, back: string, tag: string)
    ensures StemLength(front + back, |front + back|) == |front| ==> Tagged(front + back, tag) == front + "." + tag + back
  {
    hide StemLength;
    assert (front + back)[..|front|] == front && (front + back)[|front|..] == back;
  }

  function ConflictBase(f: Source, target: Path): Path {
    ["migrations", "conflicts", f.sourceId] + target
  }

  function TaggedPath(p: Path, digest: string): Path
    requires p != [] && |digest| >= 12
  {
    p[..|p|-1] + [Tagged(p[|p|-1], digest[..12])]
  }

  function ConflictPath(payload: map<Path, seq<byte>>, base: Path, digest: string): Path
    requires base != [] && |digest| >= 12
  {
    if FoldPath(base) !in payload then base else TaggedPath(base, digest)
  }

  // ---- The copy loop ----

  datatype State = State(payload: map<Path, seq<byte>>, known: map<Path, Decision>, decisions: seq<Decision>)

  function Location(d: Decision): Path {
    FoldPath(if d.conflict.Some? then d.conflict.value else d.target)
  }

  function Step(sha: seq<byte> -> string, st: State, f: Source): State
    requires |sha(f.content)| >= 12
  {
    match MapPath(f.relative, f.sourceId)
    case None => st
    case Some(target) =>
      var key, digest := FoldPath(target), sha(f.content);
      var d := Decision(f.sourceId, f.relative, target, |f.content|, digest, Copied, None);
      if key !in st.known then
        State(st.payload[key := f.content], st.known[key := d], st.decisions + [d])
      else if st.known[key].digest == digest then
        st.(decisions := st.decisions + [d.(action := Duplicate)])
      else
        var at := ConflictPath(st.payload, ConflictBase(f, target), digest);
        State(st.payload[FoldPath(at) := f.content], st.known,
              st.decisions + [d.(action := ConflictPreserved, conflict := Some(at))])
  }

  function Run(sha: seq<byte> -> string, files: seq<Source>): State
    requires forall i :: 0 <= i < |files| ==> |sha(files[i].content)| >= 12
  {
    if files == [] then State(map[], map[], []) else Step(sha, Run(sha, files[..|files|-1]), files[|files|-1])
  }

  function Mapped(files: seq<Source>): seq<Source> {
    if files == [] then []
    else
      var init, last := Mapped(files[..|files|-1]), files[|files|-1];
      if MapPath(last.relative, last.sourceId).Some? then init + [last] else init
  }

  // ---- What the loop keeps ----

  /** Decision `k` is about the `k`-th file that has a mapping. */
  ghost predicate Mirrors(sha: seq<byte> -> string, st: State, mapped: seq<Source>) {
    && |st.decisions| == |mapped|
    && forall k :: 0 <= k < |mapped| ==>
         var d, f := st.decisions[k], mapped[k];
         && d.sourceId == f.sourceId && d.relative == f.relative && d.size == |f.content| && d.digest == sha(f.content)
         && Some(d.target) == MapPath(f.relative, f.sourceId)
         && (d.conflict.Some? <==> d.action == ConflictPreserved)
         && (d.conflict.Some? <==> InConflictArea(Location(d)))
  }

  /** A known slot holds the content of the copy that claimed it, which is the only copy there. */
  ghost predicate KnownOk(sha: seq<byte> -> string, st: State) {
    && (forall key :: key in st.known ==> key in st.payload && sha(st.payload[key]) == st.known[key].digest)
    && (forall k :: 0 <= k < |st.decisions| && st.decisions[k].conflict.None? ==>
          var key := Location(st.decisions[k]);
          && key in st.known && st.known[key].digest == st.decisions[k].digest)
    && (forall key :: key in st.known ==> !InConflictArea(key))
    && (forall i, j :: 0 <= i < j < |st.decisions| && st.decisions[i].action == Copied && st.decisions[j].action == Copied ==>
          Location(st.decisions[i]) != Location(st.decisions[j]))
  }

  predicate WrittenBy(st: State, mapped: seq<Source>, slot: Path, k: nat) {
    k < |st.decisions| == |mapped| && Location(st.decisions[k]) == slot &&
    slot in st.payload && st.payload[slot] == mapped[k].content
  }

  /** Every payload file was written by one of the decisions. */
  ghost predicate SlotsOk(st: State, mapped: seq<Source>) {
    forall slot :: slot in st.payload ==> exists k :: WrittenBy(st, mapped, slot, k)
  }

  ghost predicate Inv(sha: seq<byte> -> string, st: State, mapped: seq<Source>) {
    Mirrors(sha, st, mapped) && KnownOk(sha, st) && SlotsOk(st, mapped)
  }

  lemma ConflictSlotInArea(payload: map<Path, seq<byte>>, f: Source, target: Path, digest: string)
    requires target != [] && |digest| >= 12
    ensures InConflictArea(FoldPath(ConflictPath(payload, ConflictBase(f, target), digest)))
  {
  }

  lemma SlotsStep(before: State, after: State, mapped: seq<Source>, f: Source, d: Decision, slot: Path)
    requires SlotsOk(before, mapped) && |before.decisions| == |mapped|
    requires after.payload == before.payload[slot := f.content] && after.decisions == before.decisions + [d]
    requires Location(d) == slot
    ensures SlotsOk(after, mapped + [f])
  {
    hide Location;
    forall s | s in after.payload ensures exists k :: WrittenBy(after, mapped + [f], s, k) {
      if s == slot {
        assert WrittenBy(after, mapped + [f], s, |mapped|);
      } else {
        var k: nat :| WrittenBy(before, mapped, s, k);
        assert WrittenBy(after, mapped + [f], s, k);
      }
    }
  }

  lemma SlotsStay(before: State, after: State, mapped: seq<Source>, f: Source, d: Decision)
    requires SlotsOk(before, mapped) && |before.decisions| == |mapped|
    requires after.payload == before.payload && after.decisions == before.decisions + [d]
    ensures SlotsOk(after, mapped + [f])
  {
    hide Location;
    forall s | s in after.payload ensures exists k :: WrittenBy(after, mapped + [f], s, k) {
      var k: nat :| WrittenBy(before, mapped, s, k);
      assert WrittenBy(after, mapped + [f], s, k);
    }
  }

  lemma StepKeepsMirrors(sha: seq<byte> -> string, st: State, mapped: seq<Source>, f: Source)
    requires Mirrors(sha, st, mapped) && |sha(f.content)| >= 12
    ensures Mirrors(sha, Step(sha, st, f),
                    if MapPath(f.relative, f.sourceId).Some? then mapped + [f] else mapped)
  {
    hide MapPath, InConflictArea, FoldPath, ConflictPath, ConflictBase;
    if MapPath(f.relative, f.sourceId).Some? {
      MappedOutsideConflicts(f.relative, f.sourceId);
      ConflictSlotInArea(st.payload, f, MapPath(f.relative, f.sourceId).value, sha(f.content));
    }
  }

  lemma StepKeepsKnown(sha: seq<byte> -> string, st: State, mapped: seq<Source>, f: Source)
    requires Mirrors(sha, st, mapped) && KnownOk(sha, st) && |sha(f.content)| >= 12
    ensures KnownOk(sha, Step(sha, st, f))
  {
    hide MapPath, InConflictArea, FoldPath, ConflictPath, ConflictBase;
    if MapPath(f.relative, f.sourceId).Some? {
      MappedOutsideConflicts(f.relative, f.sourceId);
      ConflictSlotInArea(st.payload, f, MapPath(f.relative, f.sourceId).value, sha(f.content));
    }
  }

  lemma StepKeepsInv(sha: seq<byte> -> string, st: State, mapped: seq<Source>, f: Source)
    requires Inv(sha, st, mapped) && |sha(f.content)| >= 12
    ensures Inv(sha, Step(sha, st, f),
                if MapPath(f.relative, f.sourceId).Some? then mapped + [f] else mapped)
  {
    hide MapPath, InConflictArea, FoldPath, ConflictPath, SlotsOk, ConflictBase, KnownOk;
    StepKeepsMirrors(sha, st, mapped, f);
    StepKeepsKnown(sha, st, mapped, f);
    if MapPath(f.relative, f.sourceId).Some? {
      var next := Step(sha, st, f);
      var d := next.decisions[|st.decisions|];
      if d.action == Duplicate {
        SlotsStay(st, next, mapped, f, d);
      } else {
        SlotsStep(st, next, mapped, f, d, Location(d));
      }
    }
  }

  lemma {:induction false} RunKeepsInv(sha: seq<byte> -> string, files: seq<Source>)
    requires forall i :: 0 <= i < |files| ==> |sha(files[i].content)| >= 12
    ensures Inv(sha, Run(sha, files), Mapped(files))
  {
    hide MapPath, Step;
    if files != [] {
      RunKeepsInv(sha, files[..|files|-1]);
      StepKeepsInv(sha, Run(sha, files[..|files|-1]), Mapped(files[..|files|-1]), files[|files|-1]);
    }
  }

  lemma {:induction false} MappedAreFiles(files: seq<Source>)
    ensures forall f :: f in Mapped(files) ==> f in files
  {
    hide MapPath;
    if files != [] {
      MappedAreFiles(files[..|files|-1]);
    }
  }

  lemma SameHashSameContent(sha: seq<byte> -> string, files: seq<Source>, f: Source, g: Source)
    requires Separates(sha, files) && f in files && g in files && sha(f.content) == sha(g.content)
    ensures f.content == g.content
  {
    var a :| 0 <= a < |files| && files[a] == f;
    var b :| 0 <= b < |files| && files[b] == g;
  }

  // ---- Conservation ----

  /** The place decision `k` names holds the content of the file it is about. */
  predicate Held(st: State, mapped: seq<Source>, k: nat)
    requires k < |st.decisions| == |mapped|
  {
    var at := Location(st.decisions[k]);
    at in st.payload && st.payload[at] == mapped[k].content
  }

  /** Copies are never overwritten, distinct under case folding, and stand for every duplicate of them. */
  lemma CopiesAreKept(sha: seq<byte> -> string, files: seq<Source>)
    requires Separates(sha, files)
    ensures var st, mapped := Run(sha, files), Mapped(files);
            && |st.decisions| == |mapped|
            && (forall k :: 0 <= k < |mapped| && st.decisions[k].action != ConflictPreserved ==> Held(st, mapped, k))
            && (forall i, j :: 0 <= i < j < |mapped| && st.decisions[i].action == Copied && st.decisions[j].action == Copied ==>
                  FoldPath(st.decisions[i].target) != FoldPath(st.decisions[j].target))
  {
    hide MapPath, Step, Run, Mapped, InConflictArea, FoldPath;
    var st, mapped := Run(sha, files), Mapped(files);
    RunKeepsInv(sha, files);
    MappedAreFiles(files);
    forall k | 0 <= k < |mapped| && st.decisions[k].action != ConflictPreserved ensures Held(st, mapped, k) {
      var slot := Location(st.decisions[k]);
      var w: nat :| WrittenBy(st, mapped, slot, w);
      assert sha(mapped[k].content) == sha(mapped[w].content);
      SameHashSameContent(sha, files, mapped[k], mapped[w]);
    }
  }

  /** The tagged conflict name is not checked for: it must be free, or already hold the same content. */
  predicate SafeStep(sha: seq<byte> -> string, st: State, f: Source)
    requires |sha(f.content)| >= 12
  {
    match MapPath(f.relative, f.sourceId)
    case None => true
    case Some(target) =>
      var key, digest, base := FoldPath(target), sha(f.content), ConflictBase(f, target);
      (key in st.known && st.known[key].digest != digest && FoldPath(base) in st.payload) ==>
        var tagged := FoldPath(TaggedPath(base, digest));
        tagged !in st.payload || st.payload[tagged] == f.content
  }

  ghost predicate SafeRun(sha: seq<byte> -> string, files: seq<Source>)
    requires forall i :: 0 <= i < |files| ==> |sha(files[i].content)| >= 12
  {
    files == [] || (SafeRun(sha, files[..|files|-1]) && SafeStep(sha, Run(sha, files[..|files|-1]), files[|files|-1]))
  }

  ghost predicate Conserved(sha: seq<byte> -> string, files: seq<Source>)
    requires forall i :: 0 <= i < |files| ==> |sha(files[i].content)| >= 12
  {
    var st, mapped := Run(sha, files), Mapped(files);
    |st.decisions| == |mapped| && forall k :: 0 <= k < |mapped| ==> Held(st, mapped, k)
  }

  /** The step changes no file that is there, and puts a mapped file at the place its decision names. */
  predicate OnlyAdds(st: State, next: State, f: Source) {
    && (forall slot :: slot in st.payload ==> slot in next.payload && next.payload[slot] == st.payload[slot])
    && (next != st ==>
          && |next.decisions| == |st.decisions| + 1
          && var at := Location(next.decisions[|st.decisions|]);
             at in next.payload && next.payload[at] == f.content)
  }

  lemma SafeStepOnlyAdds(sha: seq<byte> -> string, st: State, f: Source, mapped: seq<Source>)
    requires |sha(f.content)| >= 12 && Inv(sha, st, mapped) && SafeStep(sha, st, f)
    requires forall g :: g in mapped && sha(g.content) == sha(f.content) ==> g.content == f.content
    ensures OnlyAdds(st, Step(sha, st, f), f)
  {
    hide MapPath, InConflictArea, FoldPath, TaggedPath, Inv;
    if MapPath(f.relative, f.sourceId).Some? {
      ClaimedSlotIsKnown(sha, st, f, mapped);
      EqualDigestEqualContent(sha, st, f, mapped);
    }
  }

  lemma EqualDigestEqualContent(sha: seq<byte> -> string, st: State, f: Source, mapped: seq<Source>)
    requires Inv(sha, st, mapped) && MapPath(f.relative, f.sourceId).Some?
    requires forall g :: g in mapped && sha(g.content) == sha(f.content) ==> g.content == f.content
    ensures var key := FoldPath(MapPath(f.relative, f.sourceId).value);
            key in st.known && st.known[key].digest == sha(f.content) ==> key in st.payload && st.payload[key] == f.content
  {
    hide MapPath, InConflictArea, FoldPath, Mirrors;
    var key := FoldPath(MapPath(f.relative, f.sourceId).value);
    if key in st.known {
      var w: nat :| WrittenBy(st, mapped, key, w);
      assert mapped[w] in mapped;
    }
  }

  /** A target that no copy has claimed is free. */
  lemma ClaimedSlotIsKnown(sha: seq<byte> -> string, st: State, f: Source, mapped: seq<Source>)
    requires Inv(sha, st, mapped) && MapPath(f.relative, f.sourceId).Some?
    ensures var key := FoldPath(MapPath(f.relative, f.sourceId).value); key in st.payload ==> key in st.known
  {
    hide MapPath, InConflictArea, FoldPath, Separates;
    var key := FoldPath(MapPath(f.relative, f.sourceId).value);
    MappedOutsideConflicts(f.relative, f.sourceId);
    if key in st.payload {
      var w: nat :| WrittenBy(st, mapped, key, w);
    }
  }

  lemma StepAppends(sha: seq<byte> -> string, st: State, f: Source)
    requires |sha(f.content)| >= 12
    ensures var next := Step(sha, st, f);
            if MapPath(f.relative, f.sourceId).None? then next == st
            else |next.decisions| == |st.decisions| + 1 && next.decisions[..|st.decisions|] == st.decisions
  {
    hide MapPath, FoldPath, ConflictPath, ConflictBase;
  }

  lemma {:induction false} SafeRunConserves(sha: seq<byte> -> string, files: seq<Source>)
    requires Separates(sha, files) && SafeRun(sha, files)
    ensures Conserved(sha, files)
  {
    hide MapPath, Step, SafeStep, Location, Inv;
    if files != [] {
      var init, f := files[..|files|-1], files[|files|-1];
      SafeRunConserves(sha, init);
      var st, mapped := Run(sha, init), Mapped(init);
      RunKeepsInv(sha, init);
      MappedAreFiles(init);
      forall g | g in mapped && sha(g.content) == sha(f.content) ensures g.content == f.content {
        var a :| 0 <= a < |init| && init[a] == g;
        assert files[a] == g;
      }
      SafeStepOnlyAdds(sha, st, f, mapped);
      StepAppends(sha, st, f);
      var next := Step(sha, st, f);
      forall k | 0 <= k < |Mapped(files)| ensures |next.decisions| == |Mapped(files)| && Held(next, Mapped(files), k) {
        if k < |mapped| {
          assert Held(st, mapped, k);
          assert next.decisions[k] == st.decisions[k];
        }
      }
    }
  }

  /** Once two decisions name one place with different contents, one of the contents is lost for good. */
  ghost predicate Clash(st: State, mapped: seq<Source>) {
    |st.decisions| == |mapped| &&
    exists i, j :: 0 <= i < j < |mapped| && Location(st.decisions[i]) == Location(st.decisions[j]) && mapped[i].content != mapped[j].content
  }

  lemma UnsafeStepClashes(sha: seq<byte> -> string, st: State, f: Source, mapped: seq<Source>)
    requires |sha(f.content)| >= 12 && Inv(sha, st, mapped) && !SafeStep(sha, st, f)
    ensures Clash(Step(sha, st, f), mapped + [f])
  {
    hide MapPath, InConflictArea, FoldPath, TaggedPath;
    var target := MapPath(f.relative, f.sourceId).value;
    var tagged := FoldPath(TaggedPath(ConflictBase(f, target), sha(f.content)));
    var w: nat :| WrittenBy(st, mapped, tagged, w);
    var next := Step(sha, st, f);
    assert next.decisions[w] == st.decisions[w] && (mapped + [f])[w] == mapped[w];
    assert Location(next.decisions[|mapped|]) == tagged;
  }

  lemma {:induction false} UnsafeRunClashes(sha: seq<byte> -> string, files: seq<Source>)
    requires forall i :: 0 <= i < |files| ==> |sha(files[i].content)| >= 12
    requires !SafeRun(sha, files)
    ensures Clash(Run(sha, files), Mapped(files))
  {
    hide MapPath, Step, SafeStep, Location, Inv;
    var init, f := files[..|files|-1], files[|files|-1];
    var st, mapped := Run(sha, init), Mapped(init);
    RunKeepsInv(sha, init);
    if SafeRun(sha, init) {
      UnsafeStepClashes(sha, st, f, mapped);
      UnsafeStepIsMapped(sha, st, f);
    } else {
      UnsafeRunClashes(sha, init);
      StepAppends(sha, st, f);
      var i, j :| 0 <= i < j < |mapped| && Location(st.decisions[i]) == Location(st.decisions[j]) && mapped[i].content != mapped[j].content;
      var next := Step(sha, st, f);
      assert next.decisions[i] == st.decisions[i] && next.decisions[j] == st.decisions[j];
      assert Mapped(files)[i] == mapped[i] && Mapped(files)[j] == mapped[j];
    }
  }

  lemma UnsafeStepIsMapped(sha: seq<byte> -> string, st: State, f: Source)
    requires |sha(f.content)| >= 12 && !SafeStep(sha, st, f)
    ensures MapPath(f.relative, f.sourceId).Some?
  {
  }

  lemma ClashLoses(sha: seq<byte> -> string, files: seq<Source>)
    requires forall i :: 0 <= i < |files| ==> |sha(files[i].content)| >= 12
    requires Clash(Run(sha, files), Mapped(files))
    ensures !Conserved(sha, files)
  {
    hide Run, Mapped, Location;
    var st, mapped := Run(sha, files), Mapped(files);
    var i, j :| 0 <= i < j < |mapped| && Location(st.decisions[i]) == Location(st.decisions[j]) && mapped[i].content != mapped[j].content;
    assert !(Held(st, mapped, i) && Held(st, mapped, j));
  }

  /**
   The content of every mapped file is kept at the place its decision names, exactly
   when no tagged conflict name is taken by other content at the moment it is used.
   */
  lemma ConservedIff(sha: seq<byte> -> string, files: seq<Source>)
    requires Separates(sha, files)
    ensures Conserved(sha, files) <==> SafeRun(sha, files)
  {
    hide Run, Mapped, Location, SafeRun;
    if SafeRun(sha, files) {
      SafeRunConserves(sha, files);
    } else {
      UnsafeRunClashes(sha, files);
      ClashLoses(sha, files);
    }
  }

  // ---- Over the files of the sources ----

  lemma {:induction false} MappedAreTheOthers(files: seq<Source>)
    ensures forall f :: f in Mapped(files) <==> f in files && f.relative != [] && !IsLock(f.relative)
  {
    hide MapPath, IsLock;
    if files != [] {
      var init, last := files[..|files|-1], files[|files|-1];
      MappedAreTheOthers(init);
      LeftBehindIff(last.relative, last.sourceId);
      assert files == init + [last];
    }
  }

  /** Decision `k` is about the file, and the place it names holds the file's content. */
  predicate Keeps(st: State, f: Source, k: nat) {
    k < |st.decisions| &&
    var d := st.decisions[k];
    && d.sourceId == f.sourceId && d.relative == f.relative && d.size == |f.content|
    && Location(d) in st.payload && st.payload[Location(d)] == f.content
  }

  /** Of all source files but runtime locks, each is decided on and kept. */
  ghost predicate AllKept(sha: seq<byte> -> string, files: seq<Source>)
    requires forall i :: 0 <= i < |files| ==> |sha(files[i].content)| >= 12
  {
    forall i :: 0 <= i < |files| && files[i].relative != [] && !IsLock(files[i].relative) ==>
      exists k :: Keeps(Run(sha, files), files[i], k)
  }

  /** The files of a source have paths of their own. */
  ghost predicate DistinctPaths(files: seq<Source>) {
    forall i, j :: 0 <= i < j < |files| ==> files[i].sourceId != files[j].sourceId || files[i].relative != files[j].relative
  }

  lemma {:induction false} MappedHaveDistinctPaths(files: seq<Source>)
    requires DistinctPaths(files)
    ensures DistinctPaths(Mapped(files))
  {
    hide MapPath;
    if files != [] {
      var init, last := files[..|files|-1], files[|files|-1];
      assert forall i :: 0 <= i < |init| ==> init[i] == files[i];
      MappedHaveDistinctPaths(init);
      MappedAreFiles(init);
      var mapped := Mapped(init);
      forall i | 0 <= i < |mapped| ensures mapped[i].sourceId != last.sourceId || mapped[i].relative != last.relative {
        assert mapped[i] in init;
      }
    }
  }

  /**
   Every source file but the runtime locks ends up in the payload, at the place its
   decision names, exactly when no tagged conflict name is taken by other content at the
   moment it is used.
   */
  lemma AllKeptIff(sha: seq<byte> -> string, files: seq<Source>)
    requires Separates(sha, files) && DistinctPaths(files)
    ensures AllKept(sha, files) <==> SafeRun(sha, files)
  {
    hide Run, Mapped, Location, SafeRun, IsLock, DistinctPaths;
    ConservedIff(sha, files);
    if SafeRun(sha, files) {
      ConservedKeepsAll(sha, files);
    }
    if AllKept(sha, files) {
      KeptAllConserves(sha, files);
    }
  }

  lemma ConservedKeepsAll(sha: seq<byte> -> string, files: seq<Source>)
    requires Separates(sha, files) && Conserved(sha, files)
    ensures AllKept(sha, files)
  {
    hide Run, Mapped, Location, MapPath, IsLock, InConflictArea;
    var st, mapped := Run(sha, files), Mapped(files);
    RunKeepsInv(sha, files);
    MappedAreTheOthers(files);
    forall i | 0 <= i < |files| && files[i].relative != [] && !IsLock(files[i].relative)
      ensures exists k :: Keeps(st, files[i], k)
    {
      assert files[i] in mapped;
      var k :| 0 <= k < |mapped| && mapped[k] == files[i];
      assert Held(st, mapped, k);
      assert Keeps(st, files[i], k);
    }
  }

  lemma KeptAllConserves(sha: seq<byte> -> string, files: seq<Source>)
    requires Separates(sha, files) && DistinctPaths(files) && AllKept(sha, files)
    ensures Conserved(sha, files)
  {
    hide Run, Mapped, Location, MapPath, IsLock, InConflictArea;
    var st, mapped := Run(sha, files), Mapped(files);
    RunKeepsInv(sha, files);
    MappedAreTheOthers(files);
    MappedHaveDistinctPaths(files);
    forall k | 0 <= k < |mapped| ensures Held(st, mapped, k) {
      assert mapped[k] in files;
      var i :| 0 <= i < |files| && files[i] == mapped[k];
      var at: nat :| Keeps(st, files[i], at);
      assert mapped[at].sourceId == mapped[k].sourceId && mapped[at].relative == mapped[k].relative;
      assert at == k;
    }
  }

  // ---- When no conflict name is ever contested ----

  predicate HasTarget(f: Source) {
    MapPath(f.relative, f.sourceId).Some?
  }

  function BaseSlot(f: Source): Path
    requires HasTarget(f)
  {
    FoldPath(ConflictBase(f, MapPath(f.relative, f.sourceId).value))
  }

  /** Within one source, no two files have the same target. */
  ghost predicate OneFilePerTarget(files: seq<Source>) {
    forall i, j :: 0 <= i < j < |files| && HasTarget(files[i]) && HasTarget(files[j]) ==>
      BaseSlot(files[i]) != BaseSlot(files[j])
  }

  ghost predicate OnlyBases(st: State, files: seq<Source>) {
    forall slot :: slot in st.payload && InConflictArea(slot) ==>
      exists i :: 0 <= i < |files| && HasTarget(files[i]) && BaseSlot(files[i]) == slot
  }

  lemma {:induction false} OneFilePerTargetIsSafe(sha: seq<byte> -> string, files: seq<Source>)
    requires forall i :: 0 <= i < |files| ==> |sha(files[i].content)| >= 12
    requires OneFilePerTarget(files)
    ensures SafeRun(sha, files) && OnlyBases(Run(sha, files), files)
  {
    hide MapPath, FoldPath, InConflictArea, ConflictBase, TaggedPath;
    if files != [] {
      var init, f := files[..|files|-1], files[|files|-1];
      assert forall i :: 0 <= i < |init| ==> init[i] == files[i];
      OneFilePerTargetIsSafe(sha, init);
      var st := Run(sha, init);
      if HasTarget(f) {
        MappedOutsideConflicts(f.relative, f.sourceId);
        ConflictSlotInArea(map[], f, MapPath(f.relative, f.sourceId).value, sha(f.content));
        assert InConflictArea(BaseSlot(f));
        assert BaseSlot(f) !in st.payload;
      }
    }
  }

  /** Nothing is lost when, within each source, no two files have the same target. */
  lemma DistinctTargetsConserve(sha: seq<byte> -> string, files: seq<Source>)
    requires Separates(sha, files) && OneFilePerTarget(files)
    ensures Conserved(sha, files)
  {
    hide SafeRun, Conserved, OneFilePerTarget, OnlyBases;
    OneFilePerTargetIsSafe(sha, files);
    ConservedIff(sha, files);
  }

  // ---- How content can be lost ----

  lemma AliasedTargets(name: string, sourceId: string)
    ensures MapPath(["cache", name], sourceId) == Some(["runtime", "cache", name])
    ensures MapPath(["runtime", "cache", name], sourceId) == Some(["runtime", "cache", name])
  {
    FoldFixed("cache");
    FoldFixed("runtime");
    var short, long := ["cache", name], ["runtime", "cache", name];
    assert short[1..] == [name] && long[1..] == ["cache", name];
    assert Fold(short[0]) == "cache" && Fold(long[0]) == "runtime" && Fold(long[1]) == "cache";
    assert "cache"[0] != "locks"[0] && "cache"[0] != "agent"[0];
    assert ["runtime", "cache"] + [name] == long && ["runtime"] + ["cache", name] == long;
  }

  /** The slots of `runtime/cache/<name>` and of its preserved conflicts from `source-1`. */
  function CacheSlot(name: string): Path {
    FoldPath(["runtime", "cache", name])
  }

  function CacheConflictSlot(name: string): Path {
    FoldPath(["migrations", "conflicts", "source-1", "runtime", "cache", name])
  }

  lemma SlotsDiffer(name: string, other: string)
    requires |name| != |other|
    ensures CacheSlot(name) != CacheSlot(other) && CacheConflictSlot(name) != CacheConflictSlot(other)
    ensures |CacheSlot(name)| == 3 && |CacheConflictSlot(name)| == 6
    ensures |CacheSlot(other)| == 3 && |CacheConflictSlot(other)| == 6
  {
    assert CacheSlot(name)[2] != CacheSlot(other)[2];
    assert CacheConflictSlot(name)[5] != CacheConflictSlot(other)[5];
  }

  lemma CopiesCache(sha: seq<byte> -> string, st: State, name: string, content: seq<byte>)
    requires |sha(content)| >= 12 && CacheSlot(name) !in st.known
    ensures var next := Step(sha, st, Source("primary", ["cache", name], content));
            && next.payload == st.payload[CacheSlot(name) := content]
            && CacheSlot(name) in next.known && next.known[CacheSlot(name)].digest == sha(content)
            && (forall k :: k in next.known <==> k in st.known || k == CacheSlot(name))
            && (forall k :: k in st.known ==> next.known[k] == st.known[k])
  {
    hide MapPath, FoldPath;
    AliasedTargets(name, "primary");
  }

  lemma PreservesCache(sha: seq<byte> -> string, st: State, name: string, content: seq<byte>)
    requires |sha(content)| >= 12
    requires CacheSlot(name) in st.known && st.known[CacheSlot(name)].digest != sha(content)
    requires CacheConflictSlot(name) !in st.payload
    ensures var next := Step(sha, st, Source("source-1", ["cache", name], content));
            next.known == st.known && next.payload == st.payload[CacheConflictSlot(name) := content]
  {
    hide MapPath, FoldPath;
    AliasedTargets(name, "source-1");
    assert ConflictBase(Source("source-1", ["cache", name], content), ["runtime", "cache", name])
        == ["migrations", "conflicts", "source-1", "runtime", "cache", name];
  }

  lemma TaggedCacheName(digest: string)
    requires |digest| >= 12
    ensures TaggedPath(["migrations", "conflicts", "source-1", "runtime", "cache", "x"], digest)
         == ["migrations", "conflicts", "source-1", "runtime", "cache", "x." + digest[..12]]
  {
    var p := ["migrations", "conflicts", "source-1", "runtime", "cache", "x"];
    assert StemLength("x", 1) == 1;
    assert "x"[..1] == "x" && "x"[1..] == "";
    assert Tagged("x", digest[..12]) == "x." + digest[..12];
    assert p[..5] == ["migrations", "conflicts", "source-1", "runtime", "cache"];
  }

  lemma UnsafeCacheStep(sha: seq<byte> -> string, st: State, c: seq<byte>)
    requires |sha(c)| >= 12
    requires CacheSlot("x") in st.known && st.known[CacheSlot("x")].digest != sha(c)
    requires CacheConflictSlot("x") in st.payload
    requires var taken := CacheConflictSlot("x." + sha(c)[..12]); taken in st.payload && st.payload[taken] != c
    ensures !SafeStep(sha, st, Source("source-1", ["runtime", "cache", "x"], c))
  {
    hide MapPath, FoldPath, TaggedPath;
    AliasedTargets("x", "source-1");
    TaggedCacheName(sha(c));
    assert ConflictBase(Source("source-1", ["runtime", "cache", "x"], c), ["runtime", "cache", "x"])
        == ["migrations", "conflicts", "source-1", "runtime", "cache", "x"];
  }

  lemma RunOfFour(sha: seq<byte> -> string, f: Source, g: Source, h: Source, k: Source)
    requires forall x :: x in [f, g, h, k] ==> |sha(x.content)| >= 12
    ensures Run(sha, [f, g, h, k]) == Step(sha, Step(sha, Step(sha, Step(sha, State(map[], map[], []), f), g), h), k)
  {
    hide Step;
    var files := [f, g, h, k];
    assert files[..3] == [f, g, h] && [f, g, h][..2] == [f, g] && [f, g][..1] == [f] && [f][..0] == [];
    assert Run(sha, []) == State(map[], map[], []);
    assert Run(sha, [f]) == Step(sha, State(map[], map[], []), f);
    assert Run(sha, [f, g]) == Step(sha, Run(sha, [f]), g);
    assert Run(sha, [f, g, h]) == Step(sha, Run(sha, [f, g]), h);
  }

  /** Two primary files, each contradicted by `source-1`; both roots in the order of their names. */
  function TwoConflicts(clash: string, a: seq<byte>, b: seq<byte>, d: seq<byte>, e: seq<byte>): seq<Source> {
    [Source("primary", ["cache", "x"], a), Source("primary", ["cache", clash], e),
     Source("source-1", ["cache", "x"], b), Source("source-1", ["cache", clash], d)]
  }

  lemma TwoCopiesTwoConflicts(sha: seq<byte> -> string, a: seq<byte>, b: seq<byte>, d: seq<byte>, e: seq<byte>, clash: string)
    requires forall x :: x in [a, b, d, e] ==> |sha(x)| >= 12
    requires sha(a) != sha(b) && sha(d) != sha(e) && |clash| > 1
    ensures var st := Run(sha, TwoConflicts(clash, a, b, d, e));
            && CacheSlot("x") in st.known && st.known[CacheSlot("x")].digest == sha(a)
            && CacheConflictSlot("x") in st.payload
            && CacheConflictSlot(clash) in st.payload && st.payload[CacheConflictSlot(clash)] == d
  {
    hide Step, CacheSlot, CacheConflictSlot, Run;
    SlotsDiffer("x", clash);
    RunOfFour(sha, Source("primary", ["cache", "x"], a), Source("primary", ["cache", clash], e),
              Source("source-1", ["cache", "x"], b), Source("source-1", ["cache", clash], d));
    var empty := State(map[], map[], []);
    CopiesCache(sha, empty, "x", a);
    var one := Step(sha, empty, Source("primary", ["cache", "x"], a));
    CopiesCache(sha, one, clash, e);
    var two := Step(sha, one, Source("primary", ["cache", clash], e));
    PreservesCache(sha, two, "x", b);
    PreservesCache(sha, Step(sha, two, Source("source-1", ["cache", "x"], b)), clash, d);
  }

  /**
   The cache directory and `runtime/cache` share a target. A second conflict there takes
   the tagged name, without looking whether another file already has that very name.
   */
  lemma ConflictsCanOverwriteEachOther(sha: seq<byte> -> string, a: seq<byte>, b: seq<byte>, c: seq<byte>,
                                       d: seq<byte>, e: seq<byte>)
    requires forall x :: x in [a, b, c, d, e] ==> |sha(x)| >= 12
    requires sha(a) != sha(b) && sha(a) != sha(c) && sha(d) != sha(e) && c != d
    ensures var files := TwoConflicts("x." + sha(c)[..12], a, b, d, e) + [Source("source-1", ["runtime", "cache", "x"], c)];
            !Conserved(sha, files)
  {
    hide Run, Conserved, SafeStep, CacheSlot, CacheConflictSlot, Clash;
    assert |sha(c)| >= 12 by { assert c in [a, b, c, d, e]; }
    var clash := "x." + sha(c)[..12];
    var four := TwoConflicts(clash, a, b, d, e);
    var last := Source("source-1", ["runtime", "cache", "x"], c);
    var files := four + [last];
    assert forall i :: 0 <= i < |files| ==> files[i].content in [a, b, c, d, e];
    assert files[..|files|-1] == four;
    TwoCopiesTwoConflicts(sha, a, b, d, e, clash);
    UnsafeCacheStep(sha, Run(sha, four), c);
    UnsafeRunClashes(sha, files);
    ClashLoses(sha, files);
  }

  // ---- The report adds up ----

  function CountOf(decisions: seq<Decision>, action: Action): nat {
    if decisions == [] then 0
    else CountOf(decisions[..|decisions|-1], action) + if decisions[|decisions|-1].action == action then 1 else 0
  }

  function Targets(mapped: seq<Source>): set<Path> {
    set f | f in mapped && HasTarget(f) :: FoldPath(MapPath(f.relative, f.sourceId).value)
  }

  lemma {:induction false} CountsAddUp(decisions: seq<Decision>)
    ensures CountOf(decisions, Copied) + CountOf(decisions, Duplicate) + CountOf(decisions, ConflictPreserved) == |decisions|
  {
    if decisions != [] {
      CountsAddUp(decisions[..|decisions|-1]);
    }
  }

  /** One copy for each distinct target; every other mapped file is a duplicate or a preserved conflict. */
  lemma {:induction false} ReportAddsUp(sha: seq<byte> -> string, files: seq<Source>)
    requires forall i :: 0 <= i < |files| ==> |sha(files[i].content)| >= 12
    ensures var decisions := Run(sha, files).decisions;
            && CountOf(decisions, Copied) == |Targets(Mapped(files))|
            && CountOf(decisions, Copied) + CountOf(decisions, Duplicate) + CountOf(decisions, ConflictPreserved) == |Mapped(files)|
  {
    hide MapPath, FoldPath, CountOf, Targets;
    RunKeepsInv(sha, files);
    CountsAddUp(Run(sha, files).decisions);
    KnownAreTargets(sha, files);
  }

  lemma {:induction false} KnownAreTargets(sha: seq<byte> -> string, files: seq<Source>)
    requires forall i :: 0 <= i < |files| ==> |sha(files[i].content)| >= 12
    ensures var st := Run(sha, files);
            st.known.Keys == Targets(Mapped(files)) && |st.known.Keys| == CountOf(st.decisions, Copied)
  {
    hide MapPath, FoldPath, ConflictPath, ConflictBase;
    if files != [] {
      var init, f := files[..|files|-1], files[|files|-1];
      KnownAreTargets(sha, init);
      var st, next := Run(sha, init), Run(sha, files);
      if HasTarget(f) {
        var key := FoldPath(MapPath(f.relative, f.sourceId).value);
        assert next.decisions[..|next.decisions|-1] == st.decisions;
        assert next.known.Keys == st.known.Keys + {key};
        TargetsStep(Mapped(init), f);
      }
    }
  }

  lemma TargetsStep(mapped: seq<Source>, f: Source)
    requires HasTarget(f)
    ensures Targets(mapped + [f]) == Targets(mapped) + {FoldPath(MapPath(f.relative, f.sourceId).value)}
  {
    hide MapPath, FoldPath;
    assert f in mapped + [f];
  }

  // ---- The tool ----

  /** The staging payload and the report under construction. */
  class Migration {
    var payload: map<Path, seq<byte>>
    var known: map<Path, Decision>
    var decisions: seq<Decision>

    constructor ()
      ensures Contents() == State(map[], map[], [])
    {
      payload, known, decisions := map[], map[], [];
    }

    function Contents(): State
      reads this
    {
      State(payload, known, decisions)
    }

    method TakeIn(sha: seq<byte> -> string, f: Source)
      requires |sha(f.content)| >= 12
      modifies this
      ensures Contents() == Step(sha, old(Contents()), f)
    {
      hide MapPath, FoldPath, ConflictPath;
      var mapping := MapPath(f.relative, f.sourceId);
      if mapping.None? {
        return;
      }
      var target := mapping.value;
      var key, digest := FoldPath(target), sha(f.content);
      var d := Decision(f.sourceId, f.relative, target, |f.content|, digest, Copied, None);
      if key !in known {
        payload := payload[key := f.content];
        known := known[key := d];
      } else if known[key].digest == digest {
        d := d.(action := Duplicate);
      } else {
        var at := ConflictPath(payload, ConflictBase(f, target), digest);
        payload := payload[FoldPath(at) := f.content];
        d := d.(action := ConflictPreserved, conflict := Some(at));
      }
      decisions := decisions + [d];
    }

    /** Reading or copying file number `fault` fails, if there is one. */
    method CopyAll(sha: seq<byte> -> string, files: seq<Source>, fault: nat) returns (done: bool)
      requires forall i :: 0 <= i < |files| ==> |sha(files[i].content)| >= 12
      requires Contents() == State(map[], map[], [])
      modifies this
      ensures done <==> fault >= |files|
      ensures Contents() == Run(sha, files[..if done then |files| else fault])
    {
      hide Step;
      for i := 0 to |files|
        invariant i <= fault && Contents() == Run(sha, files[..i])
      {
        if i == fault {
          return false;
        }
        TakeIn(sha, files[i]);
        assert files[..i+1][..i] == files[..i];
      }
      done := true;
    }
  }
}
