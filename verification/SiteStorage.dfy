/**
 Byte totals of the site storage report: by data class, by registered store and by
 report section (scripts/maintenance/finalize_site_storage_audit.py).
 */
module SiteStorage {
  import opened Bytes
  import opened Text

  const UNKNOWN := "UNKNOWN"

  datatype Store = Store(id: string, dataType: string)

  /** An inventoried file, with the ids of the registered stores whose path pattern it matches. */
  datatype FileRecord = FileRecord(bytes: nat, matches: seq<string>)

  datatype Resolution = Registered(storeId: string, dataClass: string) | Unresolved(ambiguous: bool)

  ghost predicate Registry(stores: seq<Store>) {
    forall i, j :: 0 <= i < j < |stores| ==> stores[i].id != stores[j].id
  }

  predicate Has(stores: seq<Store>, id: string) {
    exists i :: 0 <= i < |stores| && stores[i].id == id
  }

  /** Patterns come from the registry, so what they match is registered. */
  ghost predicate MatchesRegistry(stores: seq<Store>, files: seq<FileRecord>) {
    forall k :: 0 <= k < |files| && |files[k].matches| == 1 ==> Has(stores, files[k].matches[0])
  }

  function DataTypeOf(stores: seq<Store>, id: string): string {
    if stores == [] then UNKNOWN
    else if stores[|stores|-1].id == id then stores[|stores|-1].dataType
    else DataTypeOf(stores[..|stores|-1], id)
  }

  /** A file belongs to a store only if exactly one store claims it. */
  function Resolve(stores: seq<Store>, f: FileRecord): Resolution {
    if |f.matches| == 1 then Registered(f.matches[0], DataTypeOf(stores, f.matches[0]))
    else Unresolved(f.matches != [])
  }

  function ClassOf(stores: seq<Store>, f: FileRecord): string {
    match Resolve(stores, f)
    case Registered(_, dataClass) => dataClass
    case Unresolved(_) => UNKNOWN
  }

  // ---- Sums over files ----

  function TotalBytes(files: seq<FileRecord>): nat {
    if files == [] then 0 else TotalBytes(files[..|files|-1]) + files[|files|-1].bytes
  }

  function StoreBytes(files: seq<FileRecord>, id: string): nat {
    if files == [] then 0
    else StoreBytes(files[..|files|-1], id) + if files[|files|-1].matches == [id] then files[|files|-1].bytes else 0
  }

  function UnmatchedBytes(files: seq<FileRecord>): nat {
    if files == [] then 0
    else UnmatchedBytes(files[..|files|-1]) + if |files[|files|-1].matches| != 1 then files[|files|-1].bytes else 0
  }

  function ClassBytes(stores: seq<Store>, files: seq<FileRecord>, dataClass: string): nat {
    if files == [] then 0
    else ClassBytes(stores, files[..|files|-1], dataClass) +
         if ClassOf(stores, files[|files|-1]) == dataClass then files[|files|-1].bytes else 0
  }

  /** Bytes of the stores of one kind. */
  function BytesWhere(stores: seq<Store>, files: seq<FileRecord>, keep: Store -> bool): nat {
    if stores == [] then 0
    else BytesWhere(stores[..|stores|-1], files, keep) +
         if keep(stores[|stores|-1]) then StoreBytes(files, stores[|stores|-1].id) else 0
  }

  lemma {:induction false} WhereUnchanged(stores: seq<Store>, files: seq<FileRecord>, f: FileRecord, keep: Store -> bool)
    requires forall i :: 0 <= i < |stores| ==> f.matches != [stores[i].id]
    ensures BytesWhere(stores, files + [f], keep) == BytesWhere(stores, files, keep)
  {
    if stores != [] {
      WhereUnchanged(stores[..|stores|-1], files, f, keep);
      assert (files + [f])[..|files|] == files;
      assert f.matches != [stores[|stores|-1].id];
    }
  }

  /** One more file of store `id` adds its bytes once, if the store is of the kind. */
  lemma {:induction false} WhereGrows(stores: seq<Store>, files: seq<FileRecord>, f: FileRecord, keep: Store -> bool, m: nat)
    requires Registry(stores) && m < |stores| && f.matches == [stores[m].id]
    ensures BytesWhere(stores, files + [f], keep) == BytesWhere(stores, files, keep) + if keep(stores[m]) then f.bytes else 0
  {
    var init, last := stores[..|stores|-1], stores[|stores|-1];
    assert (files + [f])[..|files|] == files;
    if m == |stores| - 1 {
      WhereUnchanged(init, files, f, keep);
    } else {
      WhereGrows(init, files, f, keep, m);
      assert f.matches != [last.id];
    }
  }

  lemma {:induction false} NothingWhere(stores: seq<Store>, keep: Store -> bool)
    ensures BytesWhere(stores, [], keep) == 0
  {
    if stores != [] {
      NothingWhere(stores[..|stores|-1], keep);
    }
  }

  lemma {:induction false} DataTypeAt(stores: seq<Store>, m: nat)
    requires Registry(stores) && m < |stores|
    ensures DataTypeOf(stores, stores[m].id) == stores[m].dataType
  {
    if m < |stores| - 1 {
      DataTypeAt(stores[..|stores|-1], m);
    }
  }

  /** Every byte is in exactly one store, or unmatched. */
  lemma {:induction false} StoresAndUnmatchedAreAll(stores: seq<Store>, files: seq<FileRecord>)
    requires Registry(stores) && MatchesRegistry(stores, files)
    ensures BytesWhere(stores, files, s => true) + UnmatchedBytes(files) == TotalBytes(files)
  {
    if files == [] {
      NothingWhere(stores, s => true);
    } else {
      var init, f := files[..|files|-1], files[|files|-1];
      assert files == init + [f];
      assert MatchesRegistry(stores, init);
      StoresAndUnmatchedAreAll(stores, init);
      if |f.matches| == 1 {
        var m :| 0 <= m < |stores| && stores[m].id == f.matches[0];
        WhereGrows(stores, init, f, s => true, m);
      } else {
        WhereUnchanged(stores, init, f, s => true);
      }
    }
  }

  /** The UNKNOWN class holds what is unmatched and what stores of that type hold. */
  lemma {:induction false} UnknownClassBytes(stores: seq<Store>, files: seq<FileRecord>)
    requires Registry(stores) && MatchesRegistry(stores, files)
    ensures ClassBytes(stores, files, UNKNOWN) ==
            UnmatchedBytes(files) + BytesWhere(stores, files, (s: Store) => s.dataType == UNKNOWN)
  {
    var unknown := (s: Store) => s.dataType == UNKNOWN;
    if files == [] {
      NothingWhere(stores, unknown);
    } else {
      var init, f := files[..|files|-1], files[|files|-1];
      assert files == init + [f];
      assert MatchesRegistry(stores, init);
      UnknownClassBytes(stores, init);
      if |f.matches| == 1 {
        var m :| 0 <= m < |stores| && stores[m].id == f.matches[0];
        DataTypeAt(stores, m);
        WhereGrows(stores, init, f, unknown, m);
      } else {
        WhereUnchanged(stores, init, f, unknown);
      }
    }
  }

  // ---- Totals by class ----

  function SumOver(stores: seq<Store>, files: seq<FileRecord>, classes: seq<string>): nat {
    if classes == [] then 0
    else SumOver(stores, files, classes[..|classes|-1]) + ClassBytes(stores, files, classes[|classes|-1])
  }

  lemma {:induction false} OneClassGrows(stores: seq<Store>, files: seq<FileRecord>, f: FileRecord, classes: seq<string>)
    requires forall i, j :: 0 <= i < j < |classes| ==> classes[i] != classes[j]
    ensures SumOver(stores, files + [f], classes) ==
            SumOver(stores, files, classes) + if ClassOf(stores, f) in classes then f.bytes else 0
  {
    if classes != [] {
      var init, last := classes[..|classes|-1], classes[|classes|-1];
      OneClassGrows(stores, files, f, init);
      assert (files + [f])[..|files|] == files;
      assert classes == init + [last];
    }
  }

  /** The classes that occur, each taken once, account for every byte. */
  lemma {:induction false} ClassesReconcile(stores: seq<Store>, files: seq<FileRecord>, classes: seq<string>)
    requires forall i, j :: 0 <= i < j < |classes| ==> classes[i] != classes[j]
    requires forall k :: 0 <= k < |files| ==> ClassOf(stores, files[k]) in classes
    ensures SumOver(stores, files, classes) == TotalBytes(files)
  {
    hide ClassOf;
    if files == [] {
      NoClassBytes(stores, classes);
    } else {
      var init, f := files[..|files|-1], files[|files|-1];
      assert files == init + [f];
      ClassesReconcile(stores, init, classes);
      OneClassGrows(stores, init, f, classes);
    }
  }

  lemma {:induction false} NoClassBytes(stores: seq<Store>, classes: seq<string>)
    ensures SumOver(stores, [], classes) == 0
  {
    if classes != [] {
      NoClassBytes(stores, classes[..|classes|-1]);
    }
  }

  /** One pass over the files fills the totals of all classes. */
  method ClassificationTotals(stores: seq<Store>, files: seq<FileRecord>) returns (totals: map<string, nat>, classes: seq<string>)
    ensures forall c :: c in totals <==> exists k :: 0 <= k < |files| && ClassOf(stores, files[k]) == c
    ensures forall c :: c in totals ==> totals[c] == ClassBytes(stores, files, c)
    ensures forall i, j :: 0 <= i < j < |classes| ==> classes[i] != classes[j]
    ensures forall c :: c in totals <==> c in classes
    ensures SumOver(stores, files, classes) == TotalBytes(files)
  {
    hide ClassOf, SumOver;
    totals, classes := map[], [];
    for i := 0 to |files|
      invariant forall c :: c in totals <==> exists k :: 0 <= k < i && ClassOf(stores, files[k]) == c
      invariant forall c :: (if c in totals then totals[c] else 0) == ClassBytes(stores, files[..i], c)
      invariant forall a, b :: 0 <= a < b < |classes| ==> classes[a] != classes[b]
      invariant forall c :: c in totals <==> c in classes
    {
      assert files[..i+1][..i] == files[..i];
      var name := ClassOf(stores, files[i]);
      if name !in totals {
        classes := classes + [name];
      }
      totals := totals[name := (if name in totals then totals[name] else 0) + files[i].bytes];
    }
    assert files[..|files|] == files;
    ClassesReconcile(stores, files, classes);
  }

  // ---- Usage by store ----

  datatype Usage = Usage(files: nat, before: nat, protected: nat)

  function StoreFiles(files: seq<FileRecord>, id: string): nat {
    if files == [] then 0 else StoreFiles(files[..|files|-1], id) + if files[|files|-1].matches == [id] then 1 else 0
  }

  /** One pass over the files; a store's bytes are protected when its data type is unknown. */
  method StoreUsage(stores: seq<Store>, files: seq<FileRecord>) returns (usage: map<string, Usage>)
    requires MatchesRegistry(stores, files)
    ensures forall id :: id in usage <==> Has(stores, id)
    ensures forall id :: id in usage ==>
              && usage[id].files == StoreFiles(files, id) && usage[id].before == StoreBytes(files, id)
              && usage[id].protected == if DataTypeOf(stores, id) == UNKNOWN then StoreBytes(files, id) else 0
  {
    hide DataTypeOf;
    usage := map[];
    for i := 0 to |stores|
      invariant forall id :: id in usage <==> exists j :: 0 <= j < i && stores[j].id == id
      invariant forall id :: id in usage ==> usage[id] == Usage(0, 0, 0)
    {
      usage := usage[stores[i].id := Usage(0, 0, 0)];
    }
    for k := 0 to |files|
      invariant forall id :: id in usage <==> Has(stores, id)
      invariant forall id :: id in usage ==>
        && usage[id].files == StoreFiles(files[..k], id) && usage[id].before == StoreBytes(files[..k], id)
        && usage[id].protected == if DataTypeOf(stores, id) == UNKNOWN then StoreBytes(files[..k], id) else 0
    {
      var f := files[k];
      assert files[..k+1][..k] == files[..k];
      if |f.matches| == 1 {
        var id := f.matches[0];
        assert f.matches == [id];
        var u := usage[id];
        usage := usage[id := Usage(u.files + 1, u.before + f.bytes,
                                   u.protected + if DataTypeOf(stores, id) == UNKNOWN then f.bytes else 0)];
      }
    }
    assert files[..|files|] == files;
  }

  // ---- Report sections ----

  datatype Section =
    | OperationalDbs | HistoryShards | GroundUnattended | OnlineMr | MrRawMesh | SyslogPing
    | Analysis | SitePackageStaging | CacheTemp | Backups | ArtifactsRaw | UnknownProtected

  const SECTIONS: seq<Section> :=
    [OperationalDbs, HistoryShards, GroundUnattended, OnlineMr, MrRawMesh, SyslogPing,
     Analysis, SitePackageStaging, CacheTemp, Backups, ArtifactsRaw, UnknownProtected]

  lemma EverySectionIsListed(section: Section)
    ensures section in SECTIONS
  {
    match section
    case OperationalDbs => assert SECTIONS[0] == section;
    case HistoryShards => assert SECTIONS[1] == section;
    case GroundUnattended => assert SECTIONS[2] == section;
    case OnlineMr => assert SECTIONS[3] == section;
    case MrRawMesh => assert SECTIONS[4] == section;
    case SyslogPing => assert SECTIONS[5] == section;
    case Analysis => assert SECTIONS[6] == section;
    case SitePackageStaging => assert SECTIONS[7] == section;
    case CacheTemp => assert SECTIONS[8] == section;
    case Backups => assert SECTIONS[9] == section;
    case ArtifactsRaw => assert SECTIONS[10] == section;
    case UnknownProtected => assert SECTIONS[11] == section;
  }

  function SectionOf(s: Store): Section {
    if s.dataType == UNKNOWN || "unknown." <= s.id then UnknownProtected
    else if s.id == "site.ground.active_raw" then SyslogPing
    else if "site.ground." <= s.id then GroundUnattended
    else if "site.online_mr." <= s.id || s.id == "site.vehicle_mr.online" then OnlineMr
    else if "site.mesh." <= s.id then MrRawMesh
    else if "site.history." <= s.id then HistoryShards
    else if "site.backups." <= s.id then Backups
    else if "runtime.site_package." <= s.id || "runtime.site_sync." <= s.id || "site.sync." <= s.id then SitePackageStaging
    else if "runtime." <= s.id || EndsWith(s.id, ".sqlite_sidecars") then CacheTemp
    else if s.dataType == "ARTIFACT_OR_RAW_FILE" then ArtifactsRaw
    else if "site.traffic." <= s.id || "site.wireless_scan." <= s.id || "site.trackside." <= s.id
         || "site.ac_mesh_link." <= s.id || "site.car_network." <= s.id || "site.wps." <= s.id
         || "site.network_toolbox." <= s.id then Analysis
    else if s.dataType == "HISTORICAL_RAW_FACT" || s.dataType == "HISTORICAL_TREND" then HistoryShards
    else if s.dataType == "CACHE_REBUILDABLE" || s.dataType == "STAGING_TEMPORARY" || s.dataType == "DISPOSABLE_DERIVED" then CacheTemp
    else if s.dataType == "BACKUP_ROLLBACK" then Backups
    else OperationalDbs
  }

  /** An identifier that starts in one way does not start in another. */
  lemma StartsOnce(p: string, q: string, id: string, i: nat)
    requires p <= id && i < |p| && i < |q| && p[i] != q[i]
    ensures !(q <= id) && id != q
  {
  }

  /** Stores of the ground sites are filed by the start of their identifier. */
  lemma GroundStores(s: Store)
    requires s.dataType != UNKNOWN
    ensures "site.ground." <= s.id ==> SectionOf(s) == if s.id == "site.ground.active_raw" then SyslogPing else GroundUnattended
  {
    if "site.ground." <= s.id {
      StartsOnce("site.ground.", "unknown.", s.id, 0);
    }
  }

  /** Stores of the online sessions are filed by the start of their identifier. */
  lemma OnlineStores(s: Store)
    requires s.dataType != UNKNOWN
    ensures "site.online_mr." <= s.id ==> SectionOf(s) == OnlineMr
  {
    if "site.online_mr." <= s.id {
      StartsOnce("site.online_mr.", "unknown.", s.id, 0);
      StartsOnce("site.online_mr.", "site.ground.", s.id, 5);
      StartsOnce("site.online_mr.", "site.ground.active_raw", s.id, 5);
    }
  }

  /** Stores of the mesh are filed by the start of their identifier. */
  lemma MeshStores(s: Store)
    requires s.dataType != UNKNOWN
    ensures "site.mesh." <= s.id ==> SectionOf(s) == MrRawMesh
  {
    if "site.mesh." <= s.id {
      StartsOnce("site.mesh.", "unknown.", s.id, 0);
      StartsOnce("site.mesh.", "site.ground.", s.id, 5);
      StartsOnce("site.mesh.", "site.ground.active_raw", s.id, 5);
      StartsOnce("site.mesh.", "site.online_mr.", s.id, 5);
      StartsOnce("site.mesh.", "site.vehicle_mr.online", s.id, 5);
    }
  }

  /** Stores of history are filed by the start of their identifier. */
  lemma HistoryStores(s: Store)
    requires s.dataType != UNKNOWN
    ensures "site.history." <= s.id ==> SectionOf(s) == HistoryShards
  {
    if "site.history." <= s.id {
      StartsOnce("site.history.", "unknown.", s.id, 0);
      StartsOnce("site.history.", "site.ground.", s.id, 5);
      StartsOnce("site.history.", "site.ground.active_raw", s.id, 5);
      StartsOnce("site.history.", "site.online_mr.", s.id, 5);
      StartsOnce("site.history.", "site.vehicle_mr.online", s.id, 5);
      StartsOnce("site.history.", "site.mesh.", s.id, 5);
    }
  }

  /** Stores of backups are filed by the start of their identifier. */
  lemma BackupStores(s: Store)
    requires s.dataType != UNKNOWN
    ensures "site.backups." <= s.id ==> SectionOf(s) == Backups
  {
    if "site.backups." <= s.id {
      StartsOnce("site.backups.", "unknown.", s.id, 0);
      StartsOnce("site.backups.", "site.ground.", s.id, 5);
      StartsOnce("site.backups.", "site.ground.active_raw", s.id, 5);
      StartsOnce("site.backups.", "site.online_mr.", s.id, 5);
      StartsOnce("site.backups.", "site.vehicle_mr.online", s.id, 5);
      StartsOnce("site.backups.", "site.mesh.", s.id, 5);
      StartsOnce("site.backups.", "site.history.", s.id, 5);
    }
  }

  /** Stores of site packages and their synchronisation are filed by the start of their identifier. */
  lemma PackageStores(s: Store)
    requires s.dataType != UNKNOWN
    ensures "runtime.site_package." <= s.id ==> SectionOf(s) == SitePackageStaging
    ensures "runtime.site_sync." <= s.id ==> SectionOf(s) == SitePackageStaging
    ensures "site.sync." <= s.id ==> SectionOf(s) == SitePackageStaging
  {
    if "runtime.site_package." <= s.id {
      StartsOnce("runtime.site_package.", "unknown.", s.id, 0);
      StartsOnce("runtime.site_package.", "site.ground.", s.id, 0);
      StartsOnce("runtime.site_package.", "site.ground.active_raw", s.id, 0);
      StartsOnce("runtime.site_package.", "site.online_mr.", s.id, 0);
      StartsOnce("runtime.site_package.", "site.vehicle_mr.online", s.id, 0);
      StartsOnce("runtime.site_package.", "site.mesh.", s.id, 0);
      StartsOnce("runtime.site_package.", "site.history.", s.id, 0);
      StartsOnce("runtime.site_package.", "site.backups.", s.id, 0);
    }
    if "runtime.site_sync." <= s.id {
      StartsOnce("runtime.site_sync.", "unknown.", s.id, 0);
      StartsOnce("runtime.site_sync.", "site.ground.", s.id, 0);
      StartsOnce("runtime.site_sync.", "site.ground.active_raw", s.id, 0);
      StartsOnce("runtime.site_sync.", "site.online_mr.", s.id, 0);
      StartsOnce("runtime.site_sync.", "site.vehicle_mr.online", s.id, 0);
      StartsOnce("runtime.site_sync.", "site.mesh.", s.id, 0);
      StartsOnce("runtime.site_sync.", "site.history.", s.id, 0);
      StartsOnce("runtime.site_sync.", "site.backups.", s.id, 0);
    }
    if "site.sync." <= s.id {
      StartsOnce("site.sync.", "unknown.", s.id, 0);
      StartsOnce("site.sync.", "site.ground.", s.id, 5);
      StartsOnce("site.sync.", "site.ground.active_raw", s.id, 5);
      StartsOnce("site.sync.", "site.online_mr.", s.id, 5);
      StartsOnce("site.sync.", "site.vehicle_mr.online", s.id, 5);
      StartsOnce("site.sync.", "site.mesh.", s.id, 5);
      StartsOnce("site.sync.", "site.history.", s.id, 5);
      StartsOnce("site.sync.", "site.backups.", s.id, 5);
    }
  }

  predicate StartsWithAny(id: string, prefixes: seq<string>) {
    exists i :: 0 <= i < |prefixes| && prefixes[i] <= id
  }

  const ROUTED: seq<string> :=
    ["unknown.", "site.ground.", "site.online_mr.", "site.mesh.", "site.history.", "site.backups.",
     "runtime.site_package.", "runtime.site_sync.", "site.sync."]

  const ANALYSED: seq<string> :=
    ["site.traffic.", "site.wireless_scan.", "site.trackside.", "site.ac_mesh_link.", "site.car_network.", "site.wps.",
     "site.network_toolbox."]

  lemma NotRouted(s: Store)
    requires !StartsWithAny(s.id, ROUTED)
    ensures !(ROUTED[0] <= s.id) && !(ROUTED[1] <= s.id) && !(ROUTED[2] <= s.id) && !(ROUTED[3] <= s.id) && !(ROUTED[4] <= s.id)
    ensures !(ROUTED[5] <= s.id) && !(ROUTED[6] <= s.id) && !(ROUTED[7] <= s.id) && !(ROUTED[8] <= s.id)
    ensures s.id != "site.ground.active_raw"
  {
    assert "site.ground." <= "site.ground.active_raw";
  }

  lemma AnalysedIff(id: string)
    ensures StartsWithAny(id, ANALYSED) <==>
              ANALYSED[0] <= id || ANALYSED[1] <= id || ANALYSED[2] <= id || ANALYSED[3] <= id || ANALYSED[4] <= id
              || ANALYSED[5] <= id || ANALYSED[6] <= id
  {
    assert |ANALYSED| == 7;
  }

  /** Every other store: runtime files and sidecars first, then raw files, then analyses, and then by data type alone. */
  lemma OtherStores(s: Store)
    requires s.dataType != UNKNOWN && !StartsWithAny(s.id, ROUTED)
    ensures SectionOf(s) ==
            if s.id == "site.vehicle_mr.online" then OnlineMr
            else if "runtime." <= s.id || EndsWith(s.id, ".sqlite_sidecars") then CacheTemp
            else if s.dataType == "ARTIFACT_OR_RAW_FILE" then ArtifactsRaw
            else if StartsWithAny(s.id, ANALYSED) then Analysis
            else if s.dataType in ["HISTORICAL_RAW_FACT", "HISTORICAL_TREND"] then HistoryShards
            else if s.dataType in ["CACHE_REBUILDABLE", "STAGING_TEMPORARY", "DISPOSABLE_DERIVED"] then CacheTemp
            else if s.dataType == "BACKUP_ROLLBACK" then Backups
            else OperationalDbs
  {
    hide StartsWithAny;
    NotRouted(s);
    AnalysedIff(s.id);
  }

  /** Whose bytes a section lists; no store for what is unmatched. */
  datatype Authority = Authority(storeId: Option<string>, bytes: nat)

  datatype Totals = Totals(before: nat, duplicates: nat, protected: nat, authority: seq<Authority>)

  /** What one store adds to a section. */
  function Listed(t: Totals, files: seq<FileRecord>, s: Store, section: Section): Totals {
    var bytes := StoreBytes(files, s.id);
    if SectionOf(s) != section then t
    else Totals(t.before + bytes, t.duplicates, t.protected + (if s.dataType == UNKNOWN then bytes else 0),
                t.authority + [Authority(Some(s.id), bytes)])
  }

  function ListedIn(stores: seq<Store>, files: seq<FileRecord>, section: Section): Totals {
    if stores == [] then Totals(0, 0, 0, [])
    else Listed(ListedIn(stores[..|stores|-1], files, section), files, stores[|stores|-1], section)
  }

  function UnlistedUnknown(stores: seq<Store>, files: seq<FileRecord>): nat {
    var unknown := ListedIn(stores, files, UnknownProtected).before;
    if ClassBytes(stores, files, UNKNOWN) > unknown then ClassBytes(stores, files, UNKNOWN) - unknown else 0
  }

  /** A section as reported; unmatched bytes are added to the unknown one. */
  function Reported(stores: seq<Store>, files: seq<FileRecord>, section: Section): Totals {
    var t, more := ListedIn(stores, files, section), UnlistedUnknown(stores, files);
    if section == UnknownProtected && more > 0 then
      Totals(t.before + more, t.duplicates, t.protected + more, t.authority + [Authority(None, more)])
    else t
  }

  // ---- The sections reconcile ----

  /** A sum over all report sections. */
  function AllSections(f: Section -> int): int {
    f(OperationalDbs) + f(HistoryShards) + f(GroundUnattended) + f(OnlineMr) + f(MrRawMesh) + f(SyslogPing) +
    f(Analysis) + f(SitePackageStaging) + f(CacheTemp) + f(Backups) + f(ArtifactsRaw) + f(UnknownProtected)
  }

  function ListedBefore(stores: seq<Store>, files: seq<FileRecord>): Section -> int {
    section => ListedIn(stores, files, section).before
  }

  function ReportedBefore(stores: seq<Store>, files: seq<FileRecord>): Section -> int {
    section => Reported(stores, files, section).before
  }

  /** Adding at one section only adds that much to the sum over all. */
  lemma OneSectionGrows(f: Section -> int, g: Section -> int, at: Section, more: int)
    requires forall section :: g(section) == f(section) + if section == at then more else 0
    ensures AllSections(g) == AllSections(f) + more
  {
  }

  lemma {:induction false} ListedSectionsAreAllStores(stores: seq<Store>, files: seq<FileRecord>)
    ensures AllSections(ListedBefore(stores, files)) == BytesWhere(stores, files, s => true)
  {
    hide SectionOf, AllSections, ListedIn, StoreBytes;
    if stores == [] {
      NothingListed(files);
    } else {
      var init, last := stores[..|stores|-1], stores[|stores|-1];
      ListedSectionsAreAllStores(init, files);
      forall section { ListedStep(stores, files, section); }
      OneSectionGrows(ListedBefore(init, files), ListedBefore(stores, files), SectionOf(last), StoreBytes(files, last.id));
    }
  }

  lemma ListedStep(stores: seq<Store>, files: seq<FileRecord>, section: Section)
    requires stores != []
    ensures var init, last := stores[..|stores|-1], stores[|stores|-1];
            ListedIn(stores, files, section).before ==
            ListedIn(init, files, section).before + if section == SectionOf(last) then StoreBytes(files, last.id) else 0
  {
    hide SectionOf, StoreBytes;
  }

  lemma NothingListed(files: seq<FileRecord>)
    ensures AllSections(ListedBefore([], files)) == 0
  {
  }

  /** Stores that are filed as unknown by their id although their type is a known one. */
  function MisroutedBytes(stores: seq<Store>, files: seq<FileRecord>): nat {
    BytesWhere(stores, files, (s: Store) => s.dataType != UNKNOWN && "unknown." <= s.id)
  }

  lemma UnknownWhen(s: Store)
    ensures SectionOf(s) == UnknownProtected <==> s.dataType == UNKNOWN || "unknown." <= s.id
  {
  }

  lemma {:induction false} UnknownSectionBytes(stores: seq<Store>, files: seq<FileRecord>)
    ensures ListedIn(stores, files, UnknownProtected).before ==
            BytesWhere(stores, files, (s: Store) => s.dataType == UNKNOWN) + MisroutedBytes(stores, files)
  {
    hide StoreBytes;
    if stores != [] {
      UnknownSectionBytes(stores[..|stores|-1], files);
      UnknownWhen(stores[|stores|-1]);
    }
  }

  /**
   The sections fall short of the inventory total by the smaller of the unmatched and the
   misrouted bytes: those of misrouted stores are taken for unmatched ones.
   */
  lemma SectionsFallShortBy(stores: seq<Store>, files: seq<FileRecord>)
    requires Registry(stores) && MatchesRegistry(stores, files)
    ensures var unmatched, misrouted := UnmatchedBytes(files), MisroutedBytes(stores, files);
            AllSections(ReportedBefore(stores, files)) ==
            TotalBytes(files) - if unmatched <= misrouted then unmatched else misrouted
  {
    hide SectionOf, AllSections, ListedIn, BytesWhere, ClassBytes, UnmatchedBytes, TotalBytes, MisroutedBytes;
    StoresAndUnmatchedAreAll(stores, files);
    UnknownClassBytes(stores, files);
    UnknownSectionBytes(stores, files);
    ListedSectionsAreAllStores(stores, files);
    OneSectionGrows(ListedBefore(stores, files), ReportedBefore(stores, files), UnknownProtected, UnlistedUnknown(stores, files));
  }

  /** The sections sum to the inventory total exactly when nothing is unmatched or nothing is misrouted. */
  lemma SectionsReconcileIff(stores: seq<Store>, files: seq<FileRecord>)
    requires Registry(stores) && MatchesRegistry(stores, files)
    ensures AllSections(ReportedBefore(stores, files)) == TotalBytes(files) <==>
            UnmatchedBytes(files) == 0 || MisroutedBytes(stores, files) == 0
  {
    hide AllSections, UnmatchedBytes, TotalBytes, MisroutedBytes;
    SectionsFallShortBy(stores, files);
  }

  /** Five misrouted bytes hide three unmatched ones: the report adds up to five of eight. */
  lemma MisroutedStoreHidesUnmatched()
    ensures var stores, files := [Store("unknown.spool", "OPERATIONAL_CURRENT")], [FileRecord(5, ["unknown.spool"]), FileRecord(3, [])];
            Registry(stores) && MatchesRegistry(stores, files) &&
            TotalBytes(files) == 8 && AllSections(ReportedBefore(stores, files)) == 5
  {
    hide AllSections, ReportedBefore;
    var stores, files := [Store("unknown.spool", "OPERATIONAL_CURRENT")], [FileRecord(5, ["unknown.spool"]), FileRecord(3, [])];
    assert stores[0].id == "unknown.spool" && stores[..0] == [];
    assert files[..1] == [FileRecord(5, ["unknown.spool"])] && files[..1][..0] == [];
    assert Has(stores, "unknown.spool");
    assert MisroutedBytes(stores, files) == 5 && UnmatchedBytes(files) == 3 by {
      assert StoreBytes(files, "unknown.spool") == 5;
      assert "unknown." <= "unknown.spool";
    }
    SectionsFallShortBy(stores, files);
  }

  lemma ListedNext(stores: seq<Store>, files: seq<FileRecord>, i: nat, section: Section)
    requires i < |stores|
    ensures ListedIn(stores[..i+1], files, section) == Listed(ListedIn(stores[..i], files, section), files, stores[i], section)
  {
    hide SectionOf, StoreBytes;
    assert stores[..i+1][..i] == stores[..i];
  }

  lemma NothingListedIn(files: seq<FileRecord>, section: Section)
    ensures ListedIn([], files, section) == Totals(0, 0, 0, [])
  {
  }

  /** The loop over the stores, then the bytes no store accounts for. */
  method BuildSections(stores: seq<Store>, files: seq<FileRecord>, usage: map<string, Usage>, unknownBytes: nat)
    returns (sections: map<Section, Totals>)
    requires unknownBytes == ClassBytes(stores, files, UNKNOWN)
    requires forall i :: 0 <= i < |stores| ==>
               && stores[i].id in usage && usage[stores[i].id].before == StoreBytes(files, stores[i].id)
               && usage[stores[i].id].protected == if stores[i].dataType == UNKNOWN then StoreBytes(files, stores[i].id) else 0
    ensures forall section :: section in sections && sections[section] == Reported(stores, files, section)
  {
    hide SectionOf, StoreBytes, ClassBytes, ListedIn;
    sections := map section | section in SECTIONS :: Totals(0, 0, 0, []);
    forall section ensures section in sections && ListedIn([], files, section) == Totals(0, 0, 0, []) {
      EverySectionIsListed(section);
      NothingListedIn(files, section);
    }
    for i := 0 to |stores|
      invariant forall section :: section in sections && sections[section] == ListedIn(stores[..i], files, section)
    {
      var s, u := stores[i], usage[stores[i].id];
      forall section ensures ListedIn(stores[..i+1], files, section) == Listed(ListedIn(stores[..i], files, section), files, s, section) {
        ListedNext(stores, files, i, section);
      }
      var t := sections[SectionOf(s)];
      sections := sections[SectionOf(s) := Totals(t.before + u.before, t.duplicates, t.protected + u.protected,
                                                  t.authority + [Authority(Some(s.id), u.before)])];
    }
    assert stores[..|stores|] == stores;
    var unknown := sections[UnknownProtected];
    if unknownBytes > unknown.before {
      var more := unknownBytes - unknown.before;
      sections := sections[UnknownProtected := Totals(unknown.before + more, unknown.duplicates, unknown.protected + more,
                                                      unknown.authority + [Authority(None, more)])];
    }
  }
}
