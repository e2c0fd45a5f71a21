/**
 Evidence of a rehearsed optimization: how it is built from a baseline report
 (scripts/maintenance/build_site_storage_optimization_impact.py) and how the audit
 checks it before laying it over the same report
 (scripts/maintenance/finalize_site_storage_audit.py).

 Inventory digests are represented by the digests of the two inventory files.
 */
module ImpactEvidence {
  import opened Bytes
  import opened SiteStorage

  const FORMAT := "netconsole-site-storage-impact-v1"
  const STATUS := "ISOLATED_REHEARSAL_OVERLAY"
  const COMPLETE_SCOPE := "entire recursive site plus data-root global inventory"

  datatype SectionImpact = SectionImpact(before: int, after: int, historyMoved: int, duplicates: int, protected: int)

  datatype Impact = Impact(
    format: string,
    schemaVersion: int,
    source: (string, string),
    scope: string,
    status: string,
    beforeSite: int,
    afterSite: int,
    afterOperational: int,
    historyMoved: int,
    duplicates: int,
    protected: int,
    sections: map<Section, SectionImpact>)

  /** A stored 0 counts as missing and reads as -1. */
  function OrMinusOne(n: int): int {
    if n == 0 then -1 else n
  }

  function Before(sections: map<Section, SectionImpact>): Section -> int {
    section => if section in sections then sections[section].before else 0
  }

  function After(sections: map<Section, SectionImpact>): Section -> int {
    section => if section in sections then sections[section].after else 0
  }

  function Moved(sections: map<Section, SectionImpact>): Section -> int {
    section => if section in sections then sections[section].historyMoved else 0
  }

  function Removed(sections: map<Section, SectionImpact>): Section -> int {
    section => if section in sections then sections[section].duplicates else 0
  }

  function Kept(sections: map<Section, SectionImpact>): Section -> int {
    section => if section in sections then sections[section].protected else 0
  }

  // ---- Checking ----

  ghost predicate AllNonNegative(sections: map<Section, SectionImpact>) {
    forall section :: section in sections ==>
      var s := sections[section];
      s.before >= 0 && s.after >= 0 && s.historyMoved >= 0 && s.duplicates >= 0 && s.protected >= 0
  }

  ghost predicate Complete(sections: map<Section, SectionImpact>) {
    forall section :: section in sections
  }

  /** Everything the audit asks of the evidence file. */
  ghost predicate LoadAccepts(impact: Impact, source: (string, string), rawTotal: int, scope: string) {
    && impact.format == FORMAT && impact.schemaVersion == 1
    && impact.source == source && impact.scope == scope && impact.status == STATUS
    && Complete(impact.sections) && AllNonNegative(impact.sections)
    && AllSections(Before(impact.sections)) == rawTotal
    && OrMinusOne(impact.beforeSite) == rawTotal
    && OrMinusOne(impact.afterSite) == AllSections(After(impact.sections))
    && impact.afterOperational >= 0 && impact.afterOperational == AllSections(After(impact.sections))
    && impact.historyMoved >= 0 && impact.historyMoved == AllSections(Moved(impact.sections))
    && impact.duplicates >= 0 && impact.duplicates == AllSections(Removed(impact.sections))
    && impact.protected >= 0 && impact.protected == AllSections(Kept(impact.sections))
  }

  /** Laying the evidence over the report demands that every section starts from the same bytes. */
  ghost predicate ApplyAccepts(baseline: map<Section, Totals>, impact: Impact) {
    forall section :: section in baseline ==> section in impact.sections && baseline[section].before == impact.sections[section].before
  }

  /** Evidence the audit accepts starts from the bytes of the inventory, which are not zero, and has no negative figure in any section. */
  lemma AcceptedStartsFromInventory(impact: Impact, source: (string, string), rawTotal: int, scope: string, section: Section)
    requires LoadAccepts(impact, source, rawTotal, scope)
    ensures section in impact.sections
    ensures var s := impact.sections[section];
            s.before >= 0 && s.after >= 0 && s.historyMoved >= 0 && s.duplicates >= 0 && s.protected >= 0
    ensures impact.beforeSite == AllSections(Before(impact.sections)) == rawTotal > 0 && impact.afterSite > 0
  {
    hide AllSections;
    AllNonNegativeSums(impact.sections);
  }

  lemma AllNonNegativeSums(sections: map<Section, SectionImpact>)
    requires AllNonNegative(sections) && Complete(sections)
    ensures AllSections(Before(sections)) >= 0 && AllSections(After(sections)) >= 0
  {
    hide AllSections;
    SumIsNonNegative(Before(sections), OperationalDbs);
    SumIsNonNegative(After(sections), OperationalDbs);
  }

  /** Nothing in the header of accepted evidence is free: it follows from the inventories and the sections. */
  lemma HeaderIsDetermined(a: Impact, b: Impact, source: (string, string), rawTotal: int, scope: string)
    requires LoadAccepts(a, source, rawTotal, scope) && LoadAccepts(b, source, rawTotal, scope)
    requires a.sections == b.sections
    ensures a == b && a.format == FORMAT && a.status == STATUS && a.schemaVersion == 1
    ensures a.source == source && a.scope == scope
    ensures a.afterSite == a.afterOperational == AllSections(After(a.sections))
    ensures a.historyMoved == AllSections(Moved(a.sections)) && a.duplicates == AllSections(Removed(a.sections))
    ensures a.protected == AllSections(Kept(a.sections))
  {
    hide AllSections;
    AllNonNegativeSums(a.sections);
  }

  // ---- Building ----

  datatype Measured = Measured(
    beforeDevices: nat,
    beforeTasks: nat,
    afterDevices: nat,
    afterTasks: nat,
    logicalDuplicates: int,
    eventResultsRemoved: int,
    historyBytes: nat)

  function CountListed(authority: seq<Authority>, id: string): nat {
    if authority == [] then 0
    else CountListed(authority[..|authority|-1], id) + if authority[|authority|-1].storeId == Some(id) then 1 else 0
  }

  function FirstListed(authority: seq<Authority>, id: string): Option<nat> {
    if authority == [] then None
    else if authority[0].storeId == Some(id) then Some(authority[0].bytes)
    else FirstListed(authority[1..], id)
  }

  /** The operational section lists the store once, with as many bytes as were measured. */
  predicate MatchesBaseline(operational: Totals, id: string, measured: nat) {
    CountListed(operational.authority, id) == 1 &&
    FirstListed(operational.authority, id).Some? &&
    OrMinusOne(FirstListed(operational.authority, id).value) == measured
  }

  /** A listed store of zero bytes never matches, not even a measured zero. */
  lemma MatchesBaselineIff(operational: Totals, id: string, measured: nat)
    ensures MatchesBaseline(operational, id, measured) <==>
              && CountListed(operational.authority, id) == 1
              && FirstListed(operational.authority, id) == Some(measured) && measured > 0
  {
    hide CountListed, FirstListed;
  }

  function Plain(t: Totals): SectionImpact {
    SectionImpact(t.before, t.before, 0, 0, t.protected)
  }

  /** What the evidence records for each section. */
  function Overlay(t: Totals, section: Section, m: Measured): SectionImpact {
    if section == OperationalDbs then
      Plain(t).(after := t.before - m.beforeDevices - m.beforeTasks + m.afterDevices + m.afterTasks, duplicates := m.logicalDuplicates)
    else if section == HistoryShards then
      Plain(t).(after := t.before + m.historyBytes, historyMoved := m.historyBytes)
    else Plain(t)
  }

  function BaselineBefore(baseline: map<Section, Totals>): Section -> int {
    section => if section in baseline then baseline[section].before else 0
  }

  function BaselineProtected(baseline: map<Section, Totals>): Section -> int {
    section => if section in baseline then baseline[section].protected else 0
  }

  /** Everything the builder asks of its inputs. */
  predicate BuildAccepts(baseline: map<Section, Totals>, siteTotal: int, inventoryTotal: nat, m: Measured)
    requires OperationalDbs in baseline
  {
    && OrMinusOne(siteTotal) == inventoryTotal
    && MatchesBaseline(baseline[OperationalDbs], "site.devices.current", m.beforeDevices)
    && MatchesBaseline(baseline[OperationalDbs], "site.tasks.current", m.beforeTasks)
    && m.logicalDuplicates >= 0 && m.eventResultsRemoved > 0 && m.historyBytes > 0
    && Overlay(baseline[OperationalDbs], OperationalDbs, m).after >= 0
    && AllSections(BaselineBefore(baseline)) == inventoryTotal
  }

  ghost predicate IsOverlay(sections: map<Section, SectionImpact>, baseline: map<Section, Totals>, m: Measured) {
    forall section :: section in baseline && section in sections && sections[section] == Overlay(baseline[section], section, m)
  }

  /** The header repeats the sums of the sections. */
  ghost predicate SumsUp(impact: Impact) {
    && impact.beforeSite == AllSections(Before(impact.sections))
    && impact.afterSite == AllSections(After(impact.sections))
    && impact.afterOperational == impact.afterSite
    && impact.historyMoved == AllSections(Moved(impact.sections))
    && impact.duplicates == AllSections(Removed(impact.sections))
    && impact.protected == AllSections(Kept(impact.sections))
  }

  /** Copies the baseline sections, then rewrites the operational and the history one. */
  method OverlaySections(baseline: map<Section, Totals>, m: Measured) returns (sections: map<Section, SectionImpact>)
    requires forall section :: section in baseline
    ensures IsOverlay(sections, baseline, m)
    ensures OperationalDbs in sections && sections[OperationalDbs] == Overlay(baseline[OperationalDbs], OperationalDbs, m)
  {
    sections := map[];
    for i := 0 to |SECTIONS|
      invariant forall k :: 0 <= k < i ==> SECTIONS[k] in sections
      invariant forall section :: section in sections ==> sections[section] == Plain(baseline[section])
    {
      sections := sections[SECTIONS[i] := Plain(baseline[SECTIONS[i]])];
    }
    forall section ensures section in sections { EverySectionIsListed(section); }
    var operational := sections[OperationalDbs];
    operational := operational.(after := operational.before - m.beforeDevices - m.beforeTasks + m.afterDevices + m.afterTasks);
    sections := sections[OperationalDbs := operational.(duplicates := m.logicalDuplicates)];
    var history := sections[HistoryShards];
    sections := sections[HistoryShards := history.(after := history.before + m.historyBytes, historyMoved := m.historyBytes)];
  }

  /** `None` stands for every error the builder raises. */
  method BuildImpact(baseline: map<Section, Totals>, siteTotal: int, inventoryTotal: nat, source: (string, string), m: Measured)
    returns (evidence: Option<Impact>)
    requires forall section :: section in baseline
    ensures evidence.Some? <==> BuildAccepts(baseline, siteTotal, inventoryTotal, m)
    ensures evidence.Some? ==>
              var impact := evidence.value;
              && impact.format == FORMAT && impact.schemaVersion == 1 && impact.source == source
              && impact.scope == COMPLETE_SCOPE && impact.status == STATUS
              && IsOverlay(impact.sections, baseline, m) && SumsUp(impact)
              && impact.beforeSite == inventoryTotal
              && impact.afterSite - impact.beforeSite ==
                 (m.afterDevices + m.afterTasks) - (m.beforeDevices + m.beforeTasks) + m.historyBytes
              && impact.historyMoved == m.historyBytes && impact.duplicates == m.logicalDuplicates
              && impact.protected == AllSections(BaselineProtected(baseline))
  {
    hide MatchesBaseline, AllSections, Before, After, Moved, Removed, Kept, IsOverlay, Overlay, BaselineBefore, BaselineProtected;
    evidence := None;
    if OrMinusOne(siteTotal) != inventoryTotal {
      return;
    }
    if !MatchesBaseline(baseline[OperationalDbs], "site.devices.current", m.beforeDevices)
      || !MatchesBaseline(baseline[OperationalDbs], "site.tasks.current", m.beforeTasks) {
      return;
    }
    if m.logicalDuplicates < 0 || m.eventResultsRemoved <= 0 || m.historyBytes == 0 {
      return;
    }
    var sections := OverlaySections(baseline, m);
    if sections[OperationalDbs].after < 0 {
      return;
    }
    SameBefore(sections, baseline, m);
    var beforeSite := AllSections(Before(sections));
    if beforeSite != inventoryTotal {
      return;
    }
    var afterSite := AllSections(After(sections));
    OverlayMoves(sections, baseline, m);
    evidence := Some(Impact(FORMAT, 1, source, COMPLETE_SCOPE, STATUS, beforeSite, afterSite, afterSite,
                            AllSections(Moved(sections)), AllSections(Removed(sections)), AllSections(Kept(sections)), sections));
  }

  lemma SameBefore(sections: map<Section, SectionImpact>, baseline: map<Section, Totals>, m: Measured)
    requires IsOverlay(sections, baseline, m)
    ensures AllSections(Before(sections)) == AllSections(BaselineBefore(baseline))
  {
    hide AllSections, Overlay;
    forall section ensures Before(sections)(section) == BaselineBefore(baseline)(section) {
      OverlayKeepsBefore(baseline[section], section, m);
    }
    SameSum(Before(sections), BaselineBefore(baseline));
  }

  /** The overlay moves the sums by what was measured: two stores shrink, history gains what moved, nothing else changes. */
  lemma OverlayMoves(sections: map<Section, SectionImpact>, baseline: map<Section, Totals>, m: Measured)
    requires (forall section :: section in baseline) && IsOverlay(sections, baseline, m)
    ensures AllSections(After(sections)) - AllSections(Before(sections)) ==
            (m.afterDevices + m.afterTasks) - (m.beforeDevices + m.beforeTasks) + m.historyBytes
    ensures AllSections(Moved(sections)) == m.historyBytes
    ensures AllSections(Removed(sections)) == m.logicalDuplicates
    ensures AllSections(Kept(sections)) == AllSections(BaselineProtected(baseline))
  {
    hide AllSections, Overlay, IsOverlay, Before, After, Moved, Removed, Kept;
    forall section { OverlayAt(sections, baseline, m, section); }
    var less := (m.afterDevices + m.afterTasks) - (m.beforeDevices + m.beforeTasks);
    TwoSectionsGrow(Before(sections), After(sections), OperationalDbs, less, HistoryShards, m.historyBytes);
    var none: Section -> int := section => 0;
    assert AllSections(none) == 0 by { NothingAnywhere(none); }
    OneSectionGrows(none, Moved(sections), HistoryShards, m.historyBytes);
    OneSectionGrows(none, Removed(sections), OperationalDbs, m.logicalDuplicates);
    SameSum(Kept(sections), BaselineProtected(baseline));
  }

  /** Section by section: the operational one shrinks, the history one grows. */
  lemma OverlayAt(sections: map<Section, SectionImpact>, baseline: map<Section, Totals>, m: Measured, section: Section)
    requires section in baseline && IsOverlay(sections, baseline, m)
    ensures After(sections)(section) ==
            Before(sections)(section)
            + (if section == OperationalDbs then (m.afterDevices + m.afterTasks) - (m.beforeDevices + m.beforeTasks) else 0)
            + (if section == HistoryShards then m.historyBytes else 0)
    ensures Moved(sections)(section) == if section == HistoryShards then m.historyBytes else 0
    ensures Removed(sections)(section) == if section == OperationalDbs then m.logicalDuplicates else 0
    ensures Kept(sections)(section) == BaselineProtected(baseline)(section)
  {
  }

  lemma TwoSectionsGrow(f: Section -> int, g: Section -> int, a: Section, x: int, b: Section, y: int)
    requires a != b
    requires forall section :: g(section) == f(section) + (if section == a then x else 0) + (if section == b then y else 0)
    ensures AllSections(g) == AllSections(f) + x + y
  {
    hide AllSections;
    var middle: Section -> int := section => f(section) + if section == a then x else 0;
    OneSectionGrows(f, middle, a, x);
    OneSectionGrows(middle, g, b, y);
  }

  lemma NothingAnywhere(f: Section -> int)
    requires forall section :: f(section) == 0
    ensures AllSections(f) == 0
  {
  }

  /** Evidence that loads and fits the report section by section belongs to a report whose sections sum to the inventory. */
  lemma AppliedEvidenceFits(baseline: map<Section, Totals>, impact: Impact, source: (string, string), rawTotal: int, scope: string)
    requires LoadAccepts(impact, source, rawTotal, scope) && ApplyAccepts(baseline, impact)
    requires forall section :: section in baseline
    ensures AllSections(BaselineBefore(baseline)) == rawTotal
  {
    hide AllSections;
    SameSum(Before(impact.sections), BaselineBefore(baseline));
  }

  lemma OverlayKeepsBefore(t: Totals, section: Section, m: Measured)
    ensures Overlay(t, section, m).before == t.before
  {
  }

  lemma SameSum(f: Section -> int, g: Section -> int)
    requires forall section :: f(section) == g(section)
    ensures AllSections(f) == AllSections(g)
  {
  }

  // ---- Built evidence is accepted ----

  lemma SumIsNonNegative(f: Section -> int, at: Section)
    requires forall section :: f(section) >= 0
    ensures AllSections(f) >= f(at)
  {
    match at
    case OperationalDbs => case HistoryShards => case GroundUnattended => case OnlineMr =>
    case MrRawMesh => case SyslogPing => case Analysis => case SitePackageStaging =>
    case CacheTemp => case Backups => case ArtifactsRaw => case UnknownProtected =>
  }

  lemma OverlayIsNonNegative(t: Totals, section: Section, m: Measured)
    requires m.logicalDuplicates >= 0 && (section == OperationalDbs ==> Overlay(t, section, m).after >= 0)
    ensures var s := Overlay(t, section, m);
            && s.before >= 0 && s.after >= 0 && s.historyMoved >= 0 && s.duplicates >= 0 && s.protected >= 0
            && (section == HistoryShards ==> s.after >= m.historyBytes)
  {
  }

  lemma SectionSums(sections: map<Section, SectionImpact>)
    requires AllNonNegative(sections) && Complete(sections)
    ensures AllSections(After(sections)) >= sections[HistoryShards].after
    ensures AllSections(Moved(sections)) >= 0 && AllSections(Removed(sections)) >= 0 && AllSections(Kept(sections)) >= 0
  {
    hide AllSections;
    SumIsNonNegative(After(sections), HistoryShards);
    SumIsNonNegative(Moved(sections), HistoryShards);
    SumIsNonNegative(Removed(sections), HistoryShards);
    SumIsNonNegative(Kept(sections), HistoryShards);
  }

  /**
   Evidence that the builder writes for a baseline passes every check the audit makes
   of it, for the same inventories, and fits the baseline section by section.
   */
  lemma BuiltEvidenceIsAccepted(baseline: map<Section, Totals>, siteTotal: int, inventoryTotal: nat, m: Measured, impact: Impact)
    requires (forall section :: section in baseline) && BuildAccepts(baseline, siteTotal, inventoryTotal, m)
    requires impact.format == FORMAT && impact.schemaVersion == 1 && impact.scope == COMPLETE_SCOPE && impact.status == STATUS
    requires IsOverlay(impact.sections, baseline, m) && SumsUp(impact)
    ensures LoadAccepts(impact, impact.source, inventoryTotal, COMPLETE_SCOPE) && ApplyAccepts(baseline, impact)
    ensures inventoryTotal > 0
  {
    hide MatchesBaseline, AllSections, Before, After, Moved, Removed, Kept, Overlay, BaselineBefore;
    var sections := impact.sections;
    SameBefore(sections, baseline, m);
    forall section
      ensures var s := sections[section];
              s.before >= 0 && s.after >= 0 && s.historyMoved >= 0 && s.duplicates >= 0 && s.protected >= 0
      ensures section == HistoryShards ==> sections[section].after >= m.historyBytes
      ensures sections[section].before == baseline[section].before
    {
      OverlayIsNonNegative(baseline[section], section, m);
      OverlayKeepsBefore(baseline[section], section, m);
    }
    SectionSums(sections);
  }

  // ---- Baselines that come from a report ----

  /** The order in which the bytes of a report's sections are summed does not matter. */
  lemma ReportSum(stores: seq<Store>, files: seq<FileRecord>, baseline: map<Section, Totals>)
    requires forall section :: section in baseline && baseline[section] == Reported(stores, files, section)
    ensures AllSections(BaselineBefore(baseline)) == AllSections(ReportedBefore(stores, files))
  {
    hide AllSections, Reported;
    SameSum(BaselineBefore(baseline), ReportedBefore(stores, files));
  }

  /** Two stores listed in the operational section are within its bytes. */
  lemma {:induction false} ListedFits(stores: seq<Store>, files: seq<FileRecord>, section: Section, a: string, b: string)
    requires var authority := ListedIn(stores, files, section).authority;
             a != b && CountListed(authority, a) == 1 && CountListed(authority, b) == 1
    ensures var t := ListedIn(stores, files, section);
            && FirstListed(t.authority, a).Some? && FirstListed(t.authority, b).Some?
            && FirstListed(t.authority, a).value + FirstListed(t.authority, b).value <= t.before
  {
    hide SectionOf, StoreBytes;
    var t := ListedIn(stores, files, section);
    AuthoritySums(stores, files, section);
    PairFits(t.authority, a, b);
  }

  function AuthorityBytes(authority: seq<Authority>): nat {
    if authority == [] then 0 else AuthorityBytes(authority[..|authority|-1]) + authority[|authority|-1].bytes
  }

  lemma {:induction false} AuthoritySums(stores: seq<Store>, files: seq<FileRecord>, section: Section)
    ensures AuthorityBytes(ListedIn(stores, files, section).authority) == ListedIn(stores, files, section).before
  {
    hide Listed, AuthorityBytes;
    if stores == [] {
      NoAuthority();
    } else {
      var init, last := stores[..|stores|-1], stores[|stores|-1];
      AuthoritySums(init, files, section);
      AuthoritySumsStep(ListedIn(init, files, section), files, last, section);
    }
  }

  lemma NoAuthority()
    ensures AuthorityBytes([]) == 0
  {
  }

  lemma AuthoritySumsStep(t: Totals, files: seq<FileRecord>, s: Store, section: Section)
    requires AuthorityBytes(t.authority) == t.before
    ensures var more := Listed(t, files, s, section); AuthorityBytes(more.authority) == more.before
  {
    hide SectionOf, StoreBytes;
    var x := Authority(Some(s.id), StoreBytes(files, s.id));
    assert (t.authority + [x])[..|t.authority|] == t.authority;
  }

  lemma {:induction false} FirstOfMore(authority: seq<Authority>, last: Authority, id: string)
    ensures FirstListed(authority + [last], id) ==
            if FirstListed(authority, id).Some? then FirstListed(authority, id)
            else if last.storeId == Some(id) then Some(last.bytes) else None
  {
    if authority != [] {
      assert (authority + [last])[1..] == authority[1..] + [last];
      FirstOfMore(authority[1..], last, id);
    }
  }

  lemma {:induction false} CountedIsListed(authority: seq<Authority>, id: string)
    ensures FirstListed(authority, id).Some? <==> CountListed(authority, id) > 0
  {
    if authority != [] {
      var init, last := authority[..|authority|-1], authority[|authority|-1];
      CountedIsListed(init, id);
      FirstOfMore(init, last, id);
      assert authority == init + [last];
    }
  }

  lemma {:induction false} PairFits(authority: seq<Authority>, a: string, b: string)
    requires a != b
    ensures var x, y := FirstListed(authority, a), FirstListed(authority, b);
            && (x.Some? <==> CountListed(authority, a) > 0) && (y.Some? <==> CountListed(authority, b) > 0)
            && (if x.Some? then x.value else 0) + (if y.Some? then y.value else 0) <= AuthorityBytes(authority)
  {
    CountedIsListed(authority, a);
    CountedIsListed(authority, b);
    if authority != [] {
      var init, last := authority[..|authority|-1], authority[|authority|-1];
      PairFits(init, a, b);
      FirstOfMore(init, last, a);
      FirstOfMore(init, last, b);
      assert authority == init + [last];
    }
  }

  /**
   For a baseline taken from the report of the same files, the builder refuses for
   exactly these reasons; its check for a negative operational section never fires.
   */
  lemma BuildAcceptsReportIff(stores: seq<Store>, files: seq<FileRecord>, baseline: map<Section, Totals>, m: Measured)
    requires Registry(stores) && MatchesRegistry(stores, files)
    requires forall section :: section in baseline && baseline[section] == Reported(stores, files, section)
    ensures BuildAccepts(baseline, TotalBytes(files), TotalBytes(files), m) <==>
              && TotalBytes(files) > 0
              && (UnmatchedBytes(files) == 0 || MisroutedBytes(stores, files) == 0)
              && MatchesBaseline(baseline[OperationalDbs], "site.devices.current", m.beforeDevices)
              && MatchesBaseline(baseline[OperationalDbs], "site.tasks.current", m.beforeTasks)
              && m.logicalDuplicates >= 0 && m.eventResultsRemoved > 0 && m.historyBytes > 0
  {
    hide AllSections, ListedIn, BaselineBefore, UnmatchedBytes, MisroutedBytes, TotalBytes, ReportedBefore;
    ReportSum(stores, files, baseline);
    SectionsReconcileIff(stores, files);
    var operational := baseline[OperationalDbs];
    if MatchesBaseline(operational, "site.devices.current", m.beforeDevices)
      && MatchesBaseline(operational, "site.tasks.current", m.beforeTasks) {
      assert "site.devices.current" != "site.tasks.current";
      ListedFits(stores, files, OperationalDbs, "site.devices.current", "site.tasks.current");
    }
  }
}
