/** Scan-time counts and their run-time balance check (arguss/engine/scan_counts.py). */
module ScanCounts {
  import opened Basics
  import opened FixConfidence
  import opened Findings
  import opened Proposal
  import opened DepRows

  /** An installed package version. */
  type PackageNode = (string, string)

  datatype Message =
    | FindingPartition | NoFixSkipCount | SeveritySum | CandidateTierSum | CandidateEmptyRelated(id: CandidateId)
    | FindingCandidateBijection | NodePartition | PackageStatusPartition | NoFixPackagePartition

  datatype Counts = Counts(
    totalFindings: int, withFix: int, noFix: int, bySeverity: map<Severity, int>, highEpss: int,
    totalCandidates: int, autoMerge: int, reviewRequired: int, decline: int,
    nodes: int, cleanNodes: int, affectedNodes: int, affectedPackages: int,
    statusAutoMerge: int, statusReviewRequired: int, statusDecline: int, statusNoFix: int, statusMixedNoFix: int,
    messages: set<Message>)

  // ---- Install keys ----

  /** Parser rows carry pairwise distinct, non-empty install keys. */
  ghost predicate InstallKeysValid(deps: seq<DepRow>) {
    && (forall i | 0 <= i < |deps| :: deps[i].installKey != Some(""))
    && forall i, j | 0 <= i < j < |deps| && deps[i].installKey.Some? :: deps[i].installKey != deps[j].installKey
  }

  /** `_validate_install_keys`; false where the source raises. Its last check can never fail. */
  method ValidateInstallKeys(deps: seq<DepRow>) returns (ok: bool)
    ensures ok <==> InstallKeysValid(deps)
  {
    var seen: seq<string> := [];
    var rows := 0;
    var i := 0;
    while i < |deps|
      invariant 0 <= i <= |deps| && rows == |seen| && InstallKeysValid(deps[..i])
      invariant forall k :: k in seen <==> exists j | 0 <= j < i :: deps[j].installKey == Some(k)
    {
      if deps[i].installKey.Some? {
        var key := deps[i].installKey.value;
        if key == "" { return false; }
        if key in seen { return false; }
        seen := seen + [key];
        rows := rows + 1;
      }
      i := i + 1;
    }
    assert deps[..i] == deps;
    if rows != 0 && |seen| != rows { assert false; }
    ok := true;
  }

  // ---- What is counted ----

  function NodeKeys(deps: seq<DepRow>): set<PackageNode> {
    set d | d in deps && d.package != "" && d.version != "" :: (d.package, d.version)
  }

  function RelatedIds(e: Entry): set<string> {
    set f | f in e.related && f.id != "" :: f.id
  }

  function WithFix(entries: seq<Entry>): set<string> {
    set e, id | e in entries && id in RelatedIds(e) :: id
  }

  /** candidate id -> its related ids; a later entry wins. */
  function CandidateMap(entries: seq<Entry>): map<CandidateId, set<string>> {
    if entries == [] then map[]
    else
      var e := entries[|entries| - 1];
      CandidateMap(entries[..|entries| - 1])[IdOf(e.candidate) := RelatedIds(e)]
  }

  function CountTier(entries: seq<Entry>, t: Tier): nat {
    if entries == [] then 0
    else CountTier(entries[..|entries| - 1], t) + (if entries[|entries| - 1].verdict.tier == t then 1 else 0)
  }

  function Band(f: Finding): Severity {
    if f.cvss.None? then f.severity
    else if f.cvss.value >= 9.0 then Critical
    else if f.cvss.value >= 7.0 then High
    else if f.cvss.value >= 4.0 then Medium
    else Low
  }

  function CountBand(findings: seq<Finding>, s: Severity): nat {
    if findings == [] then 0
    else CountBand(findings[..|findings| - 1], s) + (if Band(findings[|findings| - 1]) == s then 1 else 0)
  }

  const BANDS := {Critical, High, Medium, Low}
  const TIERS := {AutoMerge, ReviewRequired, Decline}

  /** `findings_by_severity` */
  function Bands(findings: seq<Finding>): map<Severity, int> {
    map s | s in BANDS :: CountBand(findings, s)
  }

  /** `tier_counts` */
  function TierCounts(entries: seq<Entry>): map<Tier, int> {
    map t | t in TIERS :: CountTier(entries, t)
  }

  lemma {:induction false} EveryTierAndBand(t: Tier, s: Severity)
    ensures t in TIERS && s in BANDS
  {}

  function CountHighEpss(findings: seq<Finding>): nat {
    if findings == [] then 0
    else
      var e := findings[|findings| - 1].epss;
      CountHighEpss(findings[..|findings| - 1]) + (if e.Some? && e.value >= 0.10 then 1 else 0)
  }

  function CountNoFix(skipped: seq<Skip>): nat {
    if skipped == [] then 0
    else CountNoFix(skipped[..|skipped| - 1]) + (if skipped[|skipped| - 1].NoFix? then 1 else 0)
  }

  function FindingNode(f: Finding): PackageNode {
    (f.package, f.version)
  }

  function EntryNode(e: Entry): PackageNode {
    (e.candidate.package, e.candidate.fromVersion)
  }

  function AffectedNodes(findings: seq<Finding>): set<PackageNode> {
    set f | f in findings :: FindingNode(f)
  }

  function AffectedPackages(findings: seq<Finding>): set<string> {
    set f | f in findings :: f.package
  }

  /** `_PACKAGE_TIER_ORDER` */
  function CountsRank(t: Tier): nat {
    match t case AutoMerge => 0 case ReviewRequired => 1 case Decline => 2
  }

  /** node -> the tier of lowest rank among its entries. */
  function TierMap(entries: seq<Entry>, rank: Tier -> nat): map<PackageNode, Tier> {
    if entries == [] then map[]
    else
      var m := TierMap(entries[..|entries| - 1], rank);
      var e := entries[|entries| - 1];
      var k, t := EntryNode(e), e.verdict.tier;
      if k !in m || rank(t) < rank(m[k]) then m[k := t] else m
  }

  function NodesAt(m: map<PackageNode, Tier>, t: Tier): set<PackageNode> {
    set k | k in m && m[k] == t
  }

  /** Nodes named by no-fix skips. */
  function SkipNodes(skipped: seq<Skip>): set<PackageNode> {
    set s | s in skipped && s.NoFix? && s.package != "" && s.currentVersion != "" :: (s.package, s.currentVersion)
  }

  // ---- The balance check ----

  function MessageIf(broken: bool, m: Message): set<Message> {
    if broken then {m} else {}
  }

  function EmptyRelated(m: map<CandidateId, set<string>>): set<Message> {
    set id | id in m && m[id] == {} :: CandidateEmptyRelated(id)
  }

  function MappedIds(m: map<CandidateId, set<string>>): set<string> {
    set id, f | id in m && f in m[id] :: f
  }

  function CleanCount(nodes: set<PackageNode>, affected: set<PackageNode>): int {
    if |nodes| - |affected| >= 0 then |nodes| - |affected| else 0
  }

  /** The results of the counting loops. */
  datatype Tallies = Tallies(
    total: int, bands: map<Severity, int>, highEpss: int, affected: set<PackageNode>, packages: set<string>,
    entries: int, tierCounts: map<Tier, int>, withFix: set<string>, candidates: map<CandidateId, set<string>>,
    tiers: map<PackageNode, Tier>, noFixNodes: set<PackageNode>, mixed: set<PackageNode>, skips: int)

  /** Counters and messages, in one place, from the tallies. */
  function Assemble(t: Tallies, nodes: set<PackageNode>): Counts
    requires BANDS <= t.bands.Keys && TIERS <= t.tierCounts.Keys
  {
    var noFix := t.total - |t.withFix|;
    var affected := t.affected * nodes;
    var clean := CleanCount(nodes, affected);
    var auto, review, decline := |NodesAt(t.tiers, AutoMerge)|, |NodesAt(t.tiers, ReviewRequired)|,
        |NodesAt(t.tiers, Decline)|;
    var bandSum := t.bands[Critical] + t.bands[High] + t.bands[Medium] + t.bands[Low];
    var tierSum := t.tierCounts[AutoMerge] + t.tierCounts[ReviewRequired] + t.tierCounts[Decline];
    var messages :=
      MessageIf(t.total != |t.withFix| + noFix, FindingPartition)
      + MessageIf(noFix != t.skips, NoFixSkipCount)
      + MessageIf(bandSum != t.total, SeveritySum)
      + MessageIf(t.entries != tierSum, CandidateTierSum)
      + EmptyRelated(t.candidates)
      + MessageIf(MappedIds(t.candidates) != t.withFix, FindingCandidateBijection)
      + MessageIf(|nodes| != clean + |affected|, NodePartition)
      + MessageIf(auto + review + decline + |t.noFixNodes| + clean != |nodes|, PackageStatusPartition)
      + MessageIf(|t.noFixNodes| + |t.mixed| != |t.noFixNodes + t.mixed|, NoFixPackagePartition);
    Counts(t.total, |t.withFix|, noFix, t.bands, t.highEpss,
        t.entries, t.tierCounts[AutoMerge], t.tierCounts[ReviewRequired], t.tierCounts[Decline],
        |nodes|, clean, |affected|, |t.packages|,
        auto, review, decline, |t.noFixNodes|, |t.mixed|, messages)
  }

  function TalliesOf(report: Report, nodes: set<PackageNode>): Tallies {
    var findings, entries := report.findings, report.entries;
    var tiers := TierMap(entries, CountsRank);
    var skipped := SkipNodes(report.skipped) * nodes;
    Tallies(|findings|, Bands(findings), CountHighEpss(findings), AffectedNodes(findings), AffectedPackages(findings),
        |entries|, TierCounts(entries), WithFix(entries), CandidateMap(entries),
        tiers, skipped - tiers.Keys, skipped * tiers.Keys, CountNoFix(report.skipped))
  }

  function CountsOf(report: Report, deps: seq<DepRow>): Counts {
    Assemble(TalliesOf(report, NodeKeys(deps)), NodeKeys(deps))
  }

  // ---- The loops of build_scan_counts ----

  method TallyEntries(entries: seq<Entry>)
    returns (tierCounts: map<Tier, int>, withFix: set<string>, candidates: map<CandidateId, set<string>>)
    ensures tierCounts == TierCounts(entries)
    ensures withFix == WithFix(entries) && candidates == CandidateMap(entries)
  {
    tierCounts, withFix, candidates := map t | t in TIERS :: 0, {}, map[];
    var i := 0;
    while i < |entries|
      invariant 0 <= i <= |entries|
      invariant tierCounts == TierCounts(entries[..i])
      invariant withFix == WithFix(entries[..i]) && candidates == CandidateMap(entries[..i])
    {
      assert entries[..i + 1] == entries[..i] + [entries[i]];
      var e := entries[i];
      TierCountsOneMore(entries[..i], e);
      WithFixOneMore(entries[..i], e);
      CandidateMapOneMore(entries[..i], e);
      tierCounts := tierCounts[e.verdict.tier := tierCounts[e.verdict.tier] + 1];
      var related := RelatedIds(e);
      withFix := withFix + related;
      candidates := candidates[IdOf(e.candidate) := related];
      i := i + 1;
    }
    assert entries[..i] == entries;
  }

  lemma {:induction false} TierCountsOneMore(entries: seq<Entry>, e: Entry)
    ensures var t := e.verdict.tier;
      t in TIERS && TierCounts(entries + [e]) == TierCounts(entries)[t := TierCounts(entries)[t] + 1]
  {
    EveryTierAndBand(e.verdict.tier, Low);
    assert (entries + [e])[..|entries|] == entries;
  }

  lemma {:induction false} CandidateMapOneMore(entries: seq<Entry>, e: Entry)
    ensures CandidateMap(entries + [e]) == CandidateMap(entries)[IdOf(e.candidate) := RelatedIds(e)]
  {
    assert (entries + [e])[..|entries|] == entries;
  }

  lemma {:induction false} WithFixOneMore(entries: seq<Entry>, e: Entry)
    ensures WithFix(entries + [e]) == WithFix(entries) + RelatedIds(e)
  {
    forall id ensures id in WithFix(entries + [e]) <==> id in WithFix(entries) + RelatedIds(e) {
      if id in WithFix(entries) { var d :| d in entries && id in RelatedIds(d); assert d in entries + [e]; }
      if id in RelatedIds(e) { assert e in entries + [e]; }
    }
  }

  method TallyFindings(findings: seq<Finding>)
    returns (bands: map<Severity, int>, high: int, nodes: set<PackageNode>, packages: set<string>)
    ensures bands == Bands(findings) && high == CountHighEpss(findings)
    ensures nodes == AffectedNodes(findings) && packages == AffectedPackages(findings)
  {
    bands, high, nodes, packages := map s | s in BANDS :: 0, 0, {}, {};
    var i := 0;
    while i < |findings|
      invariant 0 <= i <= |findings|
      invariant bands == Bands(findings[..i]) && high == CountHighEpss(findings[..i])
      invariant nodes == AffectedNodes(findings[..i]) && packages == AffectedPackages(findings[..i])
    {
      assert findings[..i + 1] == findings[..i] + [findings[i]];
      var f := findings[i];
      FindingsOneMore(findings[..i], f);
      bands := bands[Band(f) := bands[Band(f)] + 1];
      if f.epss.Some? && f.epss.value >= 0.10 { high := high + 1; }
      nodes := nodes + {FindingNode(f)};
      packages := packages + {f.package};
      i := i + 1;
    }
    assert findings[..i] == findings;
  }

  lemma {:induction false} FindingsOneMore(findings: seq<Finding>, f: Finding)
    ensures Band(f) in BANDS && Bands(findings + [f]) == Bands(findings)[Band(f) := Bands(findings)[Band(f)] + 1]
    ensures CountHighEpss(findings + [f]) ==
        CountHighEpss(findings) + (if f.epss.Some? && f.epss.value >= 0.10 then 1 else 0)
    ensures AffectedNodes(findings + [f]) == AffectedNodes(findings) + {FindingNode(f)}
    ensures AffectedPackages(findings + [f]) == AffectedPackages(findings) + {f.package}
  {
    assert (findings + [f])[..|findings|] == findings;
    EveryTierAndBand(Decline, Band(f));
    forall s | s in BANDS
      ensures CountBand(findings + [f], s) == CountBand(findings, s) + (if Band(f) == s then 1 else 0)
    {
    }
  }

  method TierNodes(entries: seq<Entry>) returns (m: map<PackageNode, Tier>)
    ensures m == TierMap(entries, CountsRank)
  {
    m := map[];
    var i := 0;
    while i < |entries|
      invariant 0 <= i <= |entries| && m == TierMap(entries[..i], CountsRank)
    {
      assert entries[..i + 1][..i] == entries[..i];
      var key, tier := EntryNode(entries[i]), entries[i].verdict.tier;
      if key !in m || CountsRank(tier) < CountsRank(m[key]) { m := m[key := tier]; }
      i := i + 1;
    }
    assert entries[..i] == entries;
  }

  method SplitSkips(skipped: seq<Skip>, nodeKeys: set<PackageNode>, tiers: map<PackageNode, Tier>)
    returns (noFix: set<PackageNode>, mixed: set<PackageNode>, count: int)
    ensures noFix == SkipNodes(skipped) * nodeKeys - tiers.Keys
    ensures mixed == SkipNodes(skipped) * nodeKeys * tiers.Keys
    ensures count == CountNoFix(skipped)
  {
    noFix, mixed, count := {}, {}, 0;
    var i := 0;
    while i < |skipped|
      invariant 0 <= i <= |skipped|
      invariant noFix == SkipNodes(skipped[..i]) * nodeKeys - tiers.Keys
      invariant mixed == SkipNodes(skipped[..i]) * nodeKeys * tiers.Keys
      invariant count == CountNoFix(skipped[..i])
    {
      assert skipped[..i + 1] == skipped[..i] + [skipped[i]] && skipped[..i + 1][..i] == skipped[..i];
      var s := skipped[i];
      if s.NoFix? {
        count := count + 1;
        if s.package != "" && s.currentVersion != "" {
          var key := (s.package, s.currentVersion);
          if key in nodeKeys {
            if key in tiers { mixed := mixed + {key}; } else { noFix := noFix + {key}; }
          }
        }
      }
      i := i + 1;
    }
    assert skipped[..i] == skipped;
  }

  datatype CountsResult = Counted(counts: Counts) | BalanceError

  /** `build_scan_counts` */
  method BuildScanCounts(report: Report, deps: seq<DepRow>) returns (r: CountsResult)
    ensures r.BalanceError? <==> !InstallKeysValid(deps)
    ensures r.Counted? ==> r.counts == CountsOf(report, deps)
  {
    var valid := ValidateInstallKeys(deps);
    if !valid { return BalanceError; }
    var tierCounts, withFix, candidates := TallyEntries(report.entries);
    var bands, high, affected, packages := TallyFindings(report.findings);
    var nodes := NodeKeys(deps);
    var tiers := TierNodes(report.entries);
    var noFixNodes, mixed, skips := SplitSkips(report.skipped, nodes, tiers);
    var t := Tallies(|report.findings|, bands, high, affected, packages, |report.entries|, tierCounts, withFix,
        candidates,
        tiers, noFixNodes, mixed, skips);
    assert t == TalliesOf(report, nodes);
    r := Counted(Assemble(t, nodes));
  }
}
