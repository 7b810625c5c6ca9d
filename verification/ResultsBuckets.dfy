/** The results page's own package buckets (arguss/web/results_context.py), against ScanCounts. */
module ResultsBuckets {
  import opened Basics
  import opened FixConfidence
  import opened Findings
  import opened Consolidation
  import opened ConsolidationLaws
  import opened Proposal
  import opened DepRows
  import opened ScanCounts
  import opened BalanceLaws

  /** `_TIER_SEVERITY_ORDER`: here the most severe tier wins, the opposite of ScanCounts. */
  function ResultsRank(t: Tier): nat {
    match t case Decline => 0 case ReviewRequired => 1 case AutoMerge => 2
  }

  /** A node key, unless the package or the version is empty. */
  function NamedNode(package: string, version: string): Option<PackageNode> {
    if package != "" && version != "" then Some((package, version)) else None
  }

  function CandidateKey(e: Entry): Option<PackageNode> {
    NamedNode(e.candidate.package, e.candidate.fromVersion)
  }

  /** `_entry_package_key`: the primary finding's dependency, else the candidate. */
  function EntryPackageKey(e: Entry): Option<PackageNode> {
    var k := NamedNode(e.finding.package, e.finding.version);
    if k.Some? then k else CandidateKey(e)
  }

  /** key -> most severe tier, over the entries with a key outside `except`. */
  function SeverestTier(entries: seq<Entry>, keyOf: Entry -> Option<PackageNode>,
      except: set<PackageNode>): map<PackageNode, Tier> {
    if entries == [] then map[]
    else
      var m := SeverestTier(entries[..|entries| - 1], keyOf, except);
      var k, t := keyOf(entries[|entries| - 1]), entries[|entries| - 1].verdict.tier;
      if k.None? || k.value in except then m
      else if k.value !in m || ResultsRank(t) < ResultsRank(m[k.value]) then m[k.value := t]
      else m
  }

  /** The loops of `_package_node_tier_keys` and `_bucket_packages_by_tier`. */
  method CollectSeverestTier(entries: seq<Entry>, keyOf: Entry -> Option<PackageNode>, except: set<PackageNode>)
    returns (m: map<PackageNode, Tier>)
    ensures m == SeverestTier(entries, keyOf, except)
  {
    m := map[];
    var i := 0;
    while i < |entries|
      invariant 0 <= i <= |entries| && m == SeverestTier(entries[..i], keyOf, except)
    {
      assert entries[..i + 1][..i] == entries[..i];
      var key := keyOf(entries[i]);
      if key.Some? && key.value !in except {
        var tier := entries[i].verdict.tier;
        if key.value !in m || ResultsRank(tier) < ResultsRank(m[key.value]) { m := m[key.value := tier]; }
      }
      i := i + 1;
    }
    assert entries[..i] == entries;
  }

  datatype Summary = Summary(
    total: int, clean: map<PackageNode, bool>, noFix: int, autoMerge: int, reviewRequired: int, decline: int,
    accountedTotal: int, integrityOk: bool)

  function ExclusiveNoFix(report: Report): set<PackageNode> {
    SkipNodes(report.skipped) - SeverestTier(report.entries, CandidateKey, {}).Keys
  }

  /** `_packages_with_findings` */
  function WithFindings(report: Report): set<PackageNode> {
    (set e | e in report.entries && EntryPackageKey(e).Some? :: EntryPackageKey(e).value) + SkipNodes(report.skipped)
  }

  /** Clean nodes, with whether some row of the node is a direct dependency. */
  function CleanNodes(deps: seq<DepRow>, withFindings: set<PackageNode>): map<PackageNode, bool> {
    map k | k in NodeKeys(deps) - withFindings :: DirectIn(deps, k)
  }

  predicate DirectIn(deps: seq<DepRow>, k: PackageNode) {
    exists d | d in deps :: (d.package, d.version) == k && d.isDirect
  }

  /** What the page computes from entries, skips and rows alone. */
  function SummaryOf(report: Report, deps: seq<DepRow>): Summary {
    var clean := CleanNodes(deps, WithFindings(report));
    var tiers := SeverestTier(report.entries, EntryPackageKey, ExclusiveNoFix(report));
    var auto, review, decline := |NodesAt(tiers, AutoMerge)|, |NodesAt(tiers, ReviewRequired)|,
        |NodesAt(tiers, Decline)|;
    var noFix, total := |ExclusiveNoFix(report)|, |NodeKeys(deps)|;
    var accounted := |clean| + noFix + auto + review + decline;
    Summary(total, clean, noFix, auto, review, decline, accounted, accounted == total)
  }

  /** The loop over dependency rows: clean nodes, direct when some row of the node is. */
  method CollectClean(deps: seq<DepRow>, withFindings: set<PackageNode>) returns (clean: map<PackageNode, bool>)
    ensures clean == CleanNodes(deps, withFindings)
  {
    hide CleanNodes;
    clean := map[];
    NoRowsClean(withFindings);
    var i := 0;
    while i < |deps|
      invariant 0 <= i <= |deps| && clean == CleanNodes(deps[..i], withFindings)
    {
      var d := deps[i];
      var key := (d.package, d.version);
      CleanOneMore(deps[..i], d, withFindings);
      assert deps[..i + 1] == deps[..i] + [d];
      if d.package != "" && d.version != "" && key !in withFindings {
        clean := clean[key := (key in clean && clean[key]) || d.isDirect];
      }
      i := i + 1;
    }
    assert deps[..i] == deps;
  }

  /** `build_package_status_summary` before the cached counts, if any, replace its figures. */
  method BuildPackageStatusSummary(report: Report, deps: seq<DepRow>) returns (s: Summary)
    ensures s == SummaryOf(report, deps)
  {
    hide SeverestTier, SkipNodes, NodesAt, WithFindings, CleanNodes, NodeKeys;
    var clean := CollectClean(deps, WithFindings(report));
    var nodeTiers := CollectSeverestTier(report.entries, CandidateKey, {});
    var exclusive := SkipNodes(report.skipped) - nodeTiers.Keys;
    var tiers := CollectSeverestTier(report.entries, EntryPackageKey, exclusive);
    var auto, review, decline := |NodesAt(tiers, AutoMerge)|, |NodesAt(tiers, ReviewRequired)|,
        |NodesAt(tiers, Decline)|;
    var accounted := |clean| + |exclusive| + auto + review + decline;
    var total := |NodeKeys(deps)|;
    s := Summary(total, clean, |exclusive|, auto, review, decline, accounted, accounted == total);
  }

  lemma {:induction false} NoRowsClean(withFindings: set<PackageNode>)
    ensures CleanNodes([], withFindings) == map[]
  {
  }

  lemma {:induction false} CleanOneMore(deps: seq<DepRow>, d: DepRow, withFindings: set<PackageNode>)
    ensures var key := (d.package, d.version);
      var clean := CleanNodes(deps, withFindings);
      CleanNodes(deps + [d], withFindings) ==
      if d.package != "" && d.version != "" && key !in withFindings
      then clean[key := (key in clean && clean[key]) || d.isDirect] else clean
  {
    var key := (d.package, d.version);
    assert NodeKeys(deps + [d]) == NodeKeys(deps) + (if d.package != "" && d.version != "" then {key} else {});
    forall k ensures DirectIn(deps + [d], k) <==> DirectIn(deps, k) || (k == key && d.isDirect) {
      if k == key && d.isDirect { assert d in deps + [d]; }
    }
    if d.package != "" && d.version != "" && key !in NodeKeys(deps) { assert !DirectIn(deps, key); }
  }

  // ---- The two tier orders ----

  lemma {:induction false} TierMapIsBest(entries: seq<Entry>, rank: Tier -> nat, k: PackageNode)
    requires k in TierMap(entries, rank)
    ensures var t := TierMap(entries, rank)[k];
      && (exists e | e in entries :: EntryNode(e) == k && e.verdict.tier == t)
      && forall e | e in entries && EntryNode(e) == k :: rank(t) <= rank(e.verdict.tier)
  {
    var init, last := entries[..|entries| - 1], entries[|entries| - 1];
    assert entries == init + [last];
    if k in TierMap(init, rank) {
      TierMapIsBest(init, rank, k);
    } else {
      TierMapKeys(init, rank, k);
    }
  }

  /** Entries of one node agree on its tier. */
  ghost predicate Unanimous(entries: seq<Entry>) {
    forall d, e | d in entries && e in entries && EntryNode(d) == EntryNode(e) :: d.verdict.tier == e.verdict.tier
  }

  /** Ranking tiers one way or the other gives the same map exactly when no node has mixed verdicts. */
  lemma {:induction false} TierOrdersAgreeIff(entries: seq<Entry>)
    ensures TierMap(entries, CountsRank) == TierMap(entries, ResultsRank) <==> Unanimous(entries)
  {
    var a, b := TierMap(entries, CountsRank), TierMap(entries, ResultsRank);
    forall k
      ensures k in a <==> k in b
      ensures k in a && (Unanimous(entries) || a == b) ==> a[k] == b[k]
      ensures k in a && a == b ==> forall e | e in entries && EntryNode(e) == k :: e.verdict.tier == a[k]
    {
      TierMapKeys(entries, CountsRank, k);
      TierMapKeys(entries, ResultsRank, k);
      if k in a && k in b {
        TierMapIsBest(entries, CountsRank, k);
        TierMapIsBest(entries, ResultsRank, k);
      }
    }
    forall e | e in entries ensures EntryNode(e) in a { TierMapKeys(entries, CountsRank, EntryNode(e)); }
  }

  lemma {:induction false} SeverestIsTierMap(entries: seq<Entry>, keyOf: Entry -> Option<PackageNode>,
      except: set<PackageNode>)
    requires forall e | e in entries :: keyOf(e) == Some(EntryNode(e)) && EntryNode(e) !in except
    ensures SeverestTier(entries, keyOf, except) == TierMap(entries, ResultsRank)
  {
    if entries != [] {
      assert entries[|entries| - 1] in entries;
      SeverestIsTierMap(entries[..|entries| - 1], keyOf, except);
    }
  }

  // ---- On pipeline reports the page and the counts agree ----

  /** One installed node has one ecosystem; the npm parser gives every node the same one. */
  ghost predicate OneEcosystemPerNode(findings: seq<Finding>) {
    forall f, g | f in findings && g in findings && FindingNode(f) == FindingNode(g) :: f.ecosystem == g.ecosystem
  }

  /** Then no node has two entries, so none has mixed verdicts. */
  lemma {:induction false} PipelineIsUnanimous(findings: seq<Finding>, repo: string, world: World)
    requires DistinctIds(findings) && OneEcosystemPerNode(findings)
    ensures Unanimous(EntriesFor(Consolidated(RawCandidates(findings, repo), findings), findings, world))
  {
    hide EntryFor, Related, Fixable, RawCandidates, Consolidated, GroupKeys, SoundEntry, IsUpgrade, MissingSkip;
    var raw := RawCandidates(findings, repo);
    var ups, keys := Consolidated(raw, findings), GroupKeys(raw, findings);
    ConsolidationEmitsOneUpgradePerNode(findings, repo);
    forall i | 0 <= i < |ups|
      ensures Related(ups[i], findings) != []
      ensures EntryNode(EntryFor(ups[i], findings, world)) == (keys[i].package, keys[i].fromVersion)
    {
      UpgradeEntryIsSound(ups[i], keys[i], findings, repo, world);
      UpgradeNode(ups[i], keys[i], findings, repo, world);
    }
    RelatedBecomeEntries(ups, findings, world);
    var entries := EntriesFor(ups, findings, world);
    forall i, j | 0 <= i < |ups| && 0 <= j < |ups| && EntryNode(entries[i]) == EntryNode(entries[j]) ensures i == j {
      SameNodeSameKey(findings, repo, keys[i], keys[j]);
    }
  }

  lemma {:induction false} UpgradeNode(m: Candidate, key: GroupKey, findings: seq<Finding>, repo: string, world: World)
    requires IsUpgrade(m, key, findings, repo) && Related(m, findings) != []
    ensures EntryNode(EntryFor(m, findings, world)) == (key.package, key.fromVersion)
  {}

  lemma {:induction false} SameNodeSameKey(findings: seq<Finding>, repo: string, k: GroupKey, l: GroupKey)
    requires OneEcosystemPerNode(findings) && HasMember(findings, repo, k) && HasMember(findings, repo, l)
    requires (k.package, k.fromVersion) == (l.package, l.fromVersion)
    ensures k == l
  {
    var f :| Member(findings, repo, k, f);
    var g :| Member(findings, repo, l, g);
    assert FindingNode(f) == FindingNode(g);
  }

  lemma {:induction false} SoundEntryKeys(e: Entry, findings: seq<Finding>)
    requires SoundEntry(e, findings) && Named(findings)
    ensures EntryPackageKey(e) == CandidateKey(e) == Some(EntryNode(e)) && EntryNode(e) in FixableNodes(findings)
  {
    assert FindingNode(e.finding) == EntryNode(e);
  }

  /** The page's sets, on sound entries, are those of the counts. */
  lemma {:induction false} PageSets(report: Report, deps: seq<DepRow>)
    requires DistinctIds(report.findings) && Named(report.findings) && SoundEntries(report.entries, report.findings)
    requires SkipNodes(report.skipped) == UnfixableNodes(report.findings)
    ensures ExclusiveNoFix(report) == UnfixableNodes(report.findings) - FixableNodes(report.findings)
    ensures WithFindings(report) == AffectedNodes(report.findings)
    ensures SeverestTier(report.entries, EntryPackageKey, ExclusiveNoFix(report)) ==
        TierMap(report.entries, ResultsRank)
  {
    hide SoundEntry, Fixable, EntryPackageKey, CandidateKey, EntryNode, TierMap, SeverestTier, SkipNodes,
        FixableNodes, UnfixableNodes, AffectedNodes;
    var entries, findings := report.entries, report.findings;
    forall e | e in entries
      ensures EntryPackageKey(e) == CandidateKey(e) == Some(EntryNode(e)) && EntryNode(e) in FixableNodes(findings)
    {
      SoundEntryKeys(e, findings);
    }
    EntrySets(entries, findings, ResultsRank);
    AffectedSplits(findings);
    SeverestIsTierMap(entries, CandidateKey, {});
    SeverestIsTierMap(entries, EntryPackageKey, ExclusiveNoFix(report));
    var keyed := set e | e in entries && EntryPackageKey(e).Some? :: EntryPackageKey(e).value;
    forall k ensures k in keyed <==> k in FixableNodes(findings) {
      TierMapKeys(entries, ResultsRank, k);
      if e :| e in entries && EntryNode(e) == k { assert EntryPackageKey(e).Some?; }
    }
  }

  /** The figures the cached ScanCounts put in place of the page's own. */
  ghost predicate Agrees(s: Summary, c: Counts) {
    && s.total == c.nodes && |s.clean| == c.cleanNodes && s.noFix == c.statusNoFix
    && s.autoMerge == c.statusAutoMerge && s.reviewRequired == c.statusReviewRequired && s.decline == c.statusDecline
    && s.accountedTotal == c.nodes && s.integrityOk && c.messages == {}
  }

  /**
   On every pipeline payload the page's independently computed buckets are those of ScanCounts and
   account for every node.
   */
  lemma {:induction false} PageAgreesWithCounts(findings: seq<Finding>, lensFailures: seq<string>, repo: string,
      world: World, deps: seq<DepRow>)
    requires DistinctIds(findings) && Named(findings) && OneEcosystemPerNode(findings)
    requires AffectedNodes(findings) <= NodeKeys(deps)
    ensures var report := Proposed(findings, lensFailures, repo, world);
      Agrees(SummaryOf(report, deps), CountsOf(report, deps))
  {
    hide SoundEntries, Fixable, NodeKeys, SkipNodes, FixableIds, FixableNodes, UnfixableNodes, AffectedNodes,
        CountNoFix, Proposed, ExclusiveNoFix, WithFindings, TierMap, SeverestTier, NodesAt, EntriesFor, Consolidated,
        RawCandidates, CountsOf, Unanimous, OneEcosystemPerNode, Named, DistinctIds;
    var report := Proposed(findings, lensFailures, repo, world);
    var nodes := NodeKeys(deps);
    PipelineReportsBalance(findings, lensFailures, repo, world, deps);
    ProposedParts(findings, lensFailures, repo, world);
    PipelineEntriesAreSound(findings, repo, world);
    ReportSkipNodes(findings, lensFailures, repo, world);
    PageSets(report, deps);
    PipelineIsUnanimous(findings, repo, world);
    TierOrdersAgreeIff(report.entries);
    AffectedSplits(findings);
    CountedStatuses(report, deps);
    var clean := CleanNodes(deps, WithFindings(report));
    assert clean.Keys == nodes - AffectedNodes(findings);
    StatusArithmetic(FixableNodes(findings), UnfixableNodes(findings), nodes);
    assert UnfixableNodes(findings) * nodes == UnfixableNodes(findings);
  }

  lemma {:induction false} CountedStatuses(report: Report, deps: seq<DepRow>)
    ensures var c, tiers := CountsOf(report, deps), TierMap(report.entries, CountsRank);
      && c.statusAutoMerge == |NodesAt(tiers, AutoMerge)|
      && c.statusReviewRequired == |NodesAt(tiers, ReviewRequired)|
      && c.statusDecline == |NodesAt(tiers, Decline)|
  {}

  lemma {:induction false} ProposedParts(findings: seq<Finding>, lensFailures: seq<string>, repo: string, world: World)
    ensures var report := Proposed(findings, lensFailures, repo, world);
      && report.findings == findings
      && report.entries == EntriesFor(Consolidated(RawCandidates(findings, repo), findings), findings, world)
  {}
}
