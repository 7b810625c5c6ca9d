/** What the figures of a scan count, in terms of the report and the dependency rows (arguss/engine/scan_counts.py). */
module CountFigures {
  import opened Basics
  import opened FixConfidence
  import opened Findings
  import opened Proposal
  import opened DepRows
  import opened ScanCounts
  import opened BalanceLaws
  import opened ResultsBuckets

  // ---- Findings ----

  /** The severity a finding is counted under: by its CVSS score if it has one, and else its own. */
  predicate HasBand(f: Finding, s: Severity) {
    match f.cvss
    case None => f.severity == s
    case Some(x) =>
      match s
      case Critical => 9.0 <= x
      case High => 7.0 <= x < 9.0
      case Medium => 4.0 <= x < 7.0
      case Low => x < 4.0
  }

  function BandPlaces(findings: seq<Finding>, s: Severity): set<nat> {
    set i: nat | i < |findings| && HasBand(findings[i], s)
  }

  function HighEpssPlaces(findings: seq<Finding>): set<nat> {
    set i: nat | i < |findings| && findings[i].epss.Some? && 0.1 <= findings[i].epss.value
  }

  function TierPlaces(entries: seq<Entry>, t: Tier): set<nat> {
    set i: nat | i < |entries| && entries[i].verdict.tier == t
  }

  function NoFixPlaces(skipped: seq<Skip>): set<nat> {
    set i: nat | i < |skipped| && skipped[i].NoFix?
  }

  lemma {:induction false} BandSays(f: Finding, s: Severity)
    ensures Band(f) == s <==> HasBand(f, s)
  {
  }

  lemma {:induction false} BandIsPlaces(findings: seq<Finding>, s: Severity)
    ensures CountBand(findings, s) == |BandPlaces(findings, s)|
  {
    hide Band, HasBand;
    if findings != [] {
      BandSays(findings[|findings| - 1], s);
      var init := findings[..|findings| - 1];
      BandIsPlaces(init, s);
      assert BandPlaces(findings, s)
          == BandPlaces(init, s) + if HasBand(findings[|init|], s) then {|init|} else {};
    }
  }

  lemma {:induction false} HighEpssIsPlaces(findings: seq<Finding>)
    ensures CountHighEpss(findings) == |HighEpssPlaces(findings)|
  {
    if findings != [] {
      var init, e := findings[..|findings| - 1], findings[|findings| - 1].epss;
      HighEpssIsPlaces(init);
      assert HighEpssPlaces(findings)
          == HighEpssPlaces(init) + if e.Some? && 0.1 <= e.value then {|init|} else {};
    }
  }

  lemma {:induction false} TierIsPlaces(entries: seq<Entry>, t: Tier)
    ensures CountTier(entries, t) == |TierPlaces(entries, t)|
  {
    hide TierPlaces;
    if entries == [] {
      NoTierPlaces(t);
    } else {
      var init, last := entries[..|entries| - 1], entries[|entries| - 1];
      TierIsPlaces(init, t);
      TierPlacesGrow(init, last, t);
      assert entries == init + [last];
    }
  }

  lemma {:induction false} NoTierPlaces(t: Tier)
    ensures TierPlaces([], t) == {}
  {
  }

  lemma {:induction false} TierPlacesGrow(entries: seq<Entry>, e: Entry, t: Tier)
    ensures |entries| !in TierPlaces(entries, t)
    ensures TierPlaces(entries + [e], t) == TierPlaces(entries, t) + if e.verdict.tier == t then {|entries|} else {}
  {
  }

  lemma {:induction false} NoFixIsPlaces(skipped: seq<Skip>)
    ensures CountNoFix(skipped) == |NoFixPlaces(skipped)|
  {
    if skipped != [] {
      var init := skipped[..|skipped| - 1];
      NoFixIsPlaces(init);
      assert NoFixPlaces(skipped) == NoFixPlaces(init) + if skipped[|init|].NoFix? then {|init|} else {};
    }
  }

  /** The ids that some entry relates. */
  function RelatedSomewhere(entries: seq<Entry>): set<string> {
    set e, f | e in entries && f in e.related && f.id != "" :: f.id
  }

  lemma {:induction false} WithFixIsRelated(entries: seq<Entry>)
    ensures WithFix(entries) == RelatedSomewhere(entries)
  {
    forall id ensures id in WithFix(entries) <==> id in RelatedSomewhere(entries) {
      if id in WithFix(entries) {
        var e :| e in entries && id in RelatedIds(e);
        var f :| f in e.related && f.id != "" && f.id == id;
        assert f.id in RelatedSomewhere(entries);
      }
      if e, f :| e in entries && f in e.related && f.id != "" && f.id == id { assert f.id in RelatedIds(e); }
    }
  }

  /** The figures about findings and candidates. */
  lemma {:induction false} FindingFigures(report: Report, deps: seq<DepRow>)
    ensures var c := CountsOf(report, deps);
      && c.totalFindings == |report.findings| && c.withFix == |RelatedSomewhere(report.entries)|
      && c.noFix == |report.findings| - |RelatedSomewhere(report.entries)|
      && (forall s :: s in c.bySeverity && c.bySeverity[s] == |BandPlaces(report.findings, s)|)
      && c.highEpss == |HighEpssPlaces(report.findings)|
      && c.totalCandidates == |report.entries|
      && c.autoMerge == |TierPlaces(report.entries, AutoMerge)|
      && c.reviewRequired == |TierPlaces(report.entries, ReviewRequired)|
      && c.decline == |TierPlaces(report.entries, Decline)|
      && c.affectedPackages == |set f | f in report.findings :: f.package|
  {
    hide CountBand, CountHighEpss, CountTier, WithFix, BandPlaces, HighEpssPlaces, TierPlaces, RelatedSomewhere,
        TierMap, CandidateMap, SkipNodes, NodeKeys, MessageIf, EmptyRelated, MappedIds, CountNoFix, NodesAt;
    WithFixIsRelated(report.entries);
    forall s ensures s in BANDS && CountBand(report.findings, s) == |BandPlaces(report.findings, s)| {
      BandIsPlaces(report.findings, s);
      EveryTierAndBand(Decline, s);
    }
    forall t ensures t in TIERS && CountTier(report.entries, t) == |TierPlaces(report.entries, t)| {
      TierIsPlaces(report.entries, t);
      EveryTierAndBand(t, Low);
    }
    HighEpssIsPlaces(report.findings);
  }

  // ---- Installed nodes ----

  /** Some row is of this package and version, and both are named. */
  predicate IsRow(deps: seq<DepRow>, k: PackageNode) {
    k.0 != "" && k.1 != "" && exists d | d in deps :: d.package == k.0 && d.version == k.1
  }

  lemma {:induction false} NodesAreRows(deps: seq<DepRow>, k: PackageNode)
    ensures k in NodeKeys(deps) <==> IsRow(deps, k)
  {
    if d :| d in deps && d.package == k.0 && d.version == k.1 {
      if k.0 != "" && k.1 != "" { assert (d.package, d.version) in NodeKeys(deps); }
    }
  }

  predicate HasFinding(findings: seq<Finding>, k: PackageNode) {
    exists f | f in findings :: f.package == k.0 && f.version == k.1
  }

  predicate HasEntry(entries: seq<Entry>, k: PackageNode, t: Tier) {
    exists e | e in entries ::
      e.candidate.package == k.0 && e.candidate.fromVersion == k.1 && e.verdict.tier == t
  }

  /** The node's tier among its entries' tiers: AUTO_MERGE before REVIEW_REQUIRED before DECLINE. */
  predicate HasStatus(entries: seq<Entry>, k: PackageNode, t: Tier) {
    match t
    case AutoMerge => HasEntry(entries, k, AutoMerge)
    case ReviewRequired => !HasEntry(entries, k, AutoMerge) && HasEntry(entries, k, ReviewRequired)
    case Decline =>
      !HasEntry(entries, k, AutoMerge) && !HasEntry(entries, k, ReviewRequired) && HasEntry(entries, k, Decline)
  }

  predicate HasSkip(skipped: seq<Skip>, k: PackageNode) {
    exists s | s in skipped :: s.NoFix? && s.package == k.0 && s.currentVersion == k.1
  }

  lemma {:induction false} TierMapIsStatus(entries: seq<Entry>, k: PackageNode, t: Tier)
    ensures k in TierMap(entries, CountsRank) && TierMap(entries, CountsRank)[k] == t <==> HasStatus(entries, k, t)
    ensures k in TierMap(entries, CountsRank) <==> exists s :: HasEntry(entries, k, s)
  {
    hide TierMap;
    TierMapKeys(entries, CountsRank, k);
    if e :| e in entries && EntryNode(e) == k { assert HasEntry(entries, k, e.verdict.tier); }
    if k in TierMap(entries, CountsRank) { TierMapIsBest(entries, CountsRank, k); }
    forall s | HasEntry(entries, k, s) ensures exists e | e in entries :: EntryNode(e) == k && e.verdict.tier == s {
      var e :| e in entries && e.candidate.package == k.0 && e.candidate.fromVersion == k.1 && e.verdict.tier == s;
      assert EntryNode(e) == k;
    }
  }

  lemma {:induction false} SkipNodesAre(skipped: seq<Skip>, k: PackageNode)
    ensures k in SkipNodes(skipped) <==> k.0 != "" && k.1 != "" && HasSkip(skipped, k)
  {
    if s :| s in skipped && s.NoFix? && s.package == k.0 && s.currentVersion == k.1 {
      if k.0 != "" && k.1 != "" { assert (s.package, s.currentVersion) in SkipNodes(skipped); }
    }
  }

  /** Nodes of the entries, so that sets over them are finite. */
  function EntryNodes(entries: seq<Entry>): set<PackageNode> {
    set e | e in entries :: (e.candidate.package, e.candidate.fromVersion)
  }

  function StatusNodes(entries: seq<Entry>, t: Tier): set<PackageNode> {
    set k | k in EntryNodes(entries) && HasStatus(entries, k, t)
  }

  lemma {:induction false} NodesAtAreStatus(entries: seq<Entry>, t: Tier)
    ensures NodesAt(TierMap(entries, CountsRank), t) == StatusNodes(entries, t)
  {
    hide TierMap, HasStatus;
    forall k ensures k in NodesAt(TierMap(entries, CountsRank), t) <==> k in StatusNodes(entries, t) {
      TierMapIsStatus(entries, k, t);
      TierMapKeys(entries, CountsRank, k);
      if e :| e in entries && EntryNode(e) == k {
        assert (e.candidate.package, e.candidate.fromVersion) in EntryNodes(entries);
      }
    }
  }

  /** Nodes with a skip and no entry. */
  function NoFixNodes(report: Report, nodes: set<PackageNode>): set<PackageNode> {
    set k | k in nodes && HasSkip(report.skipped, k) && !exists t :: HasEntry(report.entries, k, t)
  }

  /** Nodes with a skip and an entry. */
  function MixedNodes(report: Report, nodes: set<PackageNode>): set<PackageNode> {
    set k | k in nodes && HasSkip(report.skipped, k) && exists t :: HasEntry(report.entries, k, t)
  }

  /** The figures about installed nodes. */
  lemma {:induction false} NodeFigures(report: Report, deps: seq<DepRow>)
    ensures var c, nodes := CountsOf(report, deps), NodeKeys(deps);
      && c.nodes == |nodes|
      && c.cleanNodes == |set k | k in nodes && !HasFinding(report.findings, k)|
      && c.affectedNodes == |set k | k in nodes && HasFinding(report.findings, k)|
      && c.statusAutoMerge == |StatusNodes(report.entries, AutoMerge)|
      && c.statusReviewRequired == |StatusNodes(report.entries, ReviewRequired)|
      && c.statusDecline == |StatusNodes(report.entries, Decline)|
      && c.statusNoFix == |NoFixNodes(report, nodes)| && c.statusMixedNoFix == |MixedNodes(report, nodes)|
  {
    hide CountBand, CountHighEpss, CountTier, WithFix, TierMap, CandidateMap, SkipNodes, NodeKeys, MessageIf,
        EmptyRelated, MappedIds, CountNoFix, NodesAt, HasSkip, HasEntry, HasFinding, StatusNodes, Bands, TierCounts;
    var c, nodes := CountsOf(report, deps), NodeKeys(deps);
    var tiers, skipped := TierMap(report.entries, CountsRank), SkipNodes(report.skipped) * nodes;
    forall t { NodesAtAreStatus(report.entries, t); }
    forall k | k in nodes
      ensures k in skipped <==> HasSkip(report.skipped, k)
      ensures k in tiers <==> exists t :: HasEntry(report.entries, k, t)
      ensures k in AffectedNodes(report.findings) <==> HasFinding(report.findings, k)
    {
      NodesAreRows(deps, k);
      SkipNodesAre(report.skipped, k);
      TierMapIsStatus(report.entries, k, Decline);
      AffectedHaveFindings(report.findings, k);
    }
    assert AffectedNodes(report.findings) * nodes == set k | k in nodes && HasFinding(report.findings, k);
    assert nodes - AffectedNodes(report.findings) == set k | k in nodes && !HasFinding(report.findings, k);
    CleanIsRest(nodes, AffectedNodes(report.findings));
    assert skipped - tiers.Keys == NoFixNodes(report, nodes);
    assert skipped * tiers.Keys == MixedNodes(report, nodes);
  }

  lemma {:induction false} AffectedHaveFindings(findings: seq<Finding>, k: PackageNode)
    ensures k in AffectedNodes(findings) <==> HasFinding(findings, k)
  {
    if f :| f in findings && f.package == k.0 && f.version == k.1 { assert FindingNode(f) == k; }
  }

  lemma {:induction false} CleanIsRest(nodes: set<PackageNode>, affected: set<PackageNode>)
    ensures CleanCount(nodes, affected * nodes) == |nodes - affected|
  {
    assert nodes == affected * nodes + (nodes - affected) && (affected * nodes) !! (nodes - affected);
  }

  // ---- Balance messages ----

  /** No later entry has the id of entry `j`. */
  predicate IsLast(entries: seq<Entry>, j: nat)
    requires j < |entries|
  {
    forall k | j < k < |entries| :: IdOf(entries[k].candidate) != IdOf(entries[j].candidate)
  }

  lemma {:induction false} CandidateMapIsLast(entries: seq<Entry>, j: nat)
    requires j < |entries| && IsLast(entries, j)
    ensures var id := IdOf(entries[j].candidate);
      id in CandidateMap(entries) && CandidateMap(entries)[id] == RelatedIds(entries[j])
  {
    hide IdOf;
    if j < |entries| - 1 {
      var init := entries[..|entries| - 1];
      assert IdOf(entries[|init|].candidate) != IdOf(entries[j].candidate);
      forall k | j < k < |init| ensures IdOf(init[k].candidate) != IdOf(init[j].candidate) {}
      CandidateMapIsLast(init, j);
    }
  }

  lemma {:induction false} CandidateMapHasLast(entries: seq<Entry>, id: CandidateId) returns (j: nat)
    requires id in CandidateMap(entries)
    ensures j < |entries| && IdOf(entries[j].candidate) == id && IsLast(entries, j)
  {
    hide IdOf;
    var init := entries[..|entries| - 1];
    if IdOf(entries[|init|].candidate) == id {
      j := |init|;
    } else {
      j := CandidateMapHasLast(init, id);
      forall k | j < k < |entries| ensures IdOf(entries[k].candidate) != IdOf(entries[j].candidate) {
        if k < |init| { assert IdOf(init[k].candidate) != IdOf(init[j].candidate); }
      }
    }
  }

  predicate RelatedByLast(entries: seq<Entry>, j: nat, id: string) {
    j < |entries| && IsLast(entries, j) && id in RelatedIds(entries[j])
  }

  lemma {:induction false} InMessageIf(broken: bool, own: Message, m: Message)
    ensures m in MessageIf(broken, own) <==> broken && m == own
  {
  }

  lemma {:induction false} EmptyRelatedAre(candidates: map<CandidateId, set<string>>, m: Message)
    ensures m in EmptyRelated(candidates) ==> m.CandidateEmptyRelated?
  {
  }

  /** Which messages the assembled figures give. */
  lemma {:induction false} AssembledMessages(t: Tallies, nodes: set<PackageNode>, m: Message)
    requires BANDS <= t.bands.Keys && TIERS <= t.tierCounts.Keys
    ensures var c := Assemble(t, nodes);
      m in c.messages <==>
        match m
        case NoFixSkipCount => c.noFix != t.skips
        case CandidateEmptyRelated(id) => CandidateEmptyRelated(id) in EmptyRelated(t.candidates)
        case FindingCandidateBijection => MappedIds(t.candidates) != t.withFix
        case PackageStatusPartition =>
          c.statusAutoMerge + c.statusReviewRequired + c.statusDecline + c.statusNoFix + c.cleanNodes != c.nodes
        case FindingPartition => false
        case SeveritySum => t.bands[Critical] + t.bands[High] + t.bands[Medium] + t.bands[Low] != t.total
        case CandidateTierSum =>
          t.entries != t.tierCounts[AutoMerge] + t.tierCounts[ReviewRequired] + t.tierCounts[Decline]
        case NodePartition => c.nodes != c.cleanNodes + c.affectedNodes
        case NoFixPackagePartition => |t.noFixNodes| + |t.mixed| != |t.noFixNodes + t.mixed|
  {
    hide NodesAt, MappedIds, CleanCount, MessageIf, EmptyRelated;
    var c := Assemble(t, nodes);
    var tierSum := t.tierCounts[AutoMerge] + t.tierCounts[ReviewRequired] + t.tierCounts[Decline];
    var statusSum := c.statusAutoMerge + c.statusReviewRequired + c.statusDecline + |t.noFixNodes| + c.cleanNodes;
    InMessageIf(t.total != |t.withFix| + c.noFix, FindingPartition, m);
    InMessageIf(c.noFix != t.skips, NoFixSkipCount, m);
    InMessageIf(t.bands[Critical] + t.bands[High] + t.bands[Medium] + t.bands[Low] != t.total, SeveritySum, m);
    InMessageIf(t.entries != tierSum, CandidateTierSum, m);
    InMessageIf(MappedIds(t.candidates) != t.withFix, FindingCandidateBijection, m);
    InMessageIf(|nodes| != c.cleanNodes + c.affectedNodes, NodePartition, m);
    InMessageIf(statusSum != |nodes|, PackageStatusPartition, m);
    InMessageIf(|t.noFixNodes| + |t.mixed| != |t.noFixNodes + t.mixed|, NoFixPackagePartition, m);
    EmptyRelatedAre(t.candidates, m);
  }

  /**
   The messages of the check: that the findings without a fix are not as many as the skips, that an entry (the last of
   its id) relates nothing, that a related finding is hidden by a later entry of the same id, and that the statuses
   and the clean nodes do not add up. The five other conditions never arise.
   */
  lemma {:induction false} MessagesSay(report: Report, deps: seq<DepRow>, m: Message)
    ensures var c := CountsOf(report, deps); var entries := report.entries;
      m in c.messages <==>
        match m
        case NoFixSkipCount => c.noFix != |NoFixPlaces(report.skipped)|
        case CandidateEmptyRelated(id) =>
          exists j: nat | j < |entries| && IsLast(entries, j) ::
            IdOf(entries[j].candidate) == id && RelatedIds(entries[j]) == {}
        case FindingCandidateBijection =>
          exists id | id in RelatedSomewhere(entries) :: forall j: nat :: !RelatedByLast(entries, j, id)
        case PackageStatusPartition =>
          c.statusAutoMerge + c.statusReviewRequired + c.statusDecline + c.statusNoFix + c.cleanNodes != c.nodes
        case FindingPartition => false
        case SeveritySum => false
        case CandidateTierSum => false
        case NodePartition => false
        case NoFixPackagePartition => false
  {
    hide Assemble, CountBand, CountHighEpss, CountTier, WithFix, TierMap, CandidateMap, SkipNodes, NodeKeys,
        CountNoFix, NodesAt, RelatedSomewhere, IdOf, RelatedIds, IsLast, NoFixPlaces, MappedIds, EmptyRelated;
    var entries, nodes := report.entries, NodeKeys(deps);
    var t := TalliesOf(report, nodes);
    EveryTierAndBand(Decline, Low);
    AssembledMessages(t, nodes, m);
    NoFixIsPlaces(report.skipped);
    TierAndBandSums(entries, report.findings);
    NodesAddUp(t, nodes);
    assert |t.noFixNodes + t.mixed| == |t.noFixNodes| + |t.mixed|;
    WithFixIsRelated(entries);
    MappedAreRelated(entries);
    if m.CandidateEmptyRelated? { EmptyIsLast(entries, m.id); }
  }

  lemma {:induction false} NodesAddUp(t: Tallies, nodes: set<PackageNode>)
    requires BANDS <= t.bands.Keys && TIERS <= t.tierCounts.Keys
    ensures var c := Assemble(t, nodes); c.nodes == c.cleanNodes + c.affectedNodes
  {
    hide NodesAt, MappedIds, EmptyRelated, MessageIf;
    assert nodes == t.affected * nodes + (nodes - t.affected);
    CleanIsRest(nodes, t.affected);
  }

  lemma {:induction false} EmptyIsLast(entries: seq<Entry>, id: CandidateId)
    ensures CandidateEmptyRelated(id) in EmptyRelated(CandidateMap(entries)) <==>
      exists j: nat | j < |entries| && IsLast(entries, j) ::
        IdOf(entries[j].candidate) == id && RelatedIds(entries[j]) == {}
  {
    hide CandidateMap, IdOf, RelatedIds, IsLast;
    var map' := CandidateMap(entries);
    if id in map' {
      var j := CandidateMapHasLast(entries, id);
      CandidateMapIsLast(entries, j);
    }
    forall j: nat | j < |entries| && IsLast(entries, j) && IdOf(entries[j].candidate) == id
      ensures id in map' && map'[id] == RelatedIds(entries[j])
    {
      CandidateMapIsLast(entries, j);
    }
  }

  lemma {:induction false} MappedAreRelated(entries: seq<Entry>)
    ensures MappedIds(CandidateMap(entries)) <= RelatedSomewhere(entries)
    ensures MappedIds(CandidateMap(entries)) == RelatedSomewhere(entries) <==>
      forall id | id in RelatedSomewhere(entries) :: exists j: nat :: RelatedByLast(entries, j, id)
  {
    hide CandidateMap, IdOf, RelatedIds, IsLast, RelatedSomewhere;
    var map' := CandidateMap(entries);
    forall id ensures id in MappedIds(map') <==> exists j: nat :: RelatedByLast(entries, j, id) {
      if id in MappedIds(map') {
        var key :| key in map' && id in map'[key];
        var j := CandidateMapHasLast(entries, key);
        CandidateMapIsLast(entries, j);
        assert RelatedByLast(entries, j, id);
      }
      if j: nat :| RelatedByLast(entries, j, id) {
        CandidateMapIsLast(entries, j);
        assert id in map'[IdOf(entries[j].candidate)];
      }
    }
    forall j: nat, id | RelatedByLast(entries, j, id) ensures id in RelatedSomewhere(entries) {
      WithFixIsRelated(entries);
      assert entries[j] in entries && id in WithFix(entries);
    }
  }

  // ---- The results page ----

  /** The node the page files an entry under: its finding's if that is named, and else its candidate's. */
  function PageKey(e: Entry): Option<PackageNode> {
    if e.finding.package != "" && e.finding.version != "" then Some((e.finding.package, e.finding.version))
    else if e.candidate.package != "" && e.candidate.fromVersion != ""
    then Some((e.candidate.package, e.candidate.fromVersion)) else None
  }

  predicate HasPageEntry(entries: seq<Entry>, k: PackageNode, t: Tier) {
    exists e | e in entries :: PageKey(e) == Some(k) && e.verdict.tier == t
  }

  /** The node's worst tier: DECLINE before REVIEW_REQUIRED before AUTO_MERGE. */
  predicate HasWorst(entries: seq<Entry>, k: PackageNode, t: Tier) {
    match t
    case Decline => HasPageEntry(entries, k, Decline)
    case ReviewRequired => !HasPageEntry(entries, k, Decline) && HasPageEntry(entries, k, ReviewRequired)
    case AutoMerge =>
      !HasPageEntry(entries, k, Decline) && !HasPageEntry(entries, k, ReviewRequired)
      && HasPageEntry(entries, k, AutoMerge)
  }

  lemma {:induction false} SeverestIsWorst(entries: seq<Entry>, keyOf: Entry -> Option<PackageNode>,
      except: set<PackageNode>, k: PackageNode)
    ensures var m := SeverestTier(entries, keyOf, except);
      && (k in m <==> k !in except && exists e | e in entries :: keyOf(e) == Some(k))
      && (k in m ==>
            && (exists e | e in entries :: keyOf(e) == Some(k) && e.verdict.tier == m[k])
            && forall e | e in entries && keyOf(e) == Some(k) :: ResultsRank(m[k]) <= ResultsRank(e.verdict.tier))
  {
    if entries != [] {
      var init := entries[..|entries| - 1];
      SeverestIsWorst(init, keyOf, except, k);
      assert entries == init + [entries[|init|]];
    }
  }

  /** Skipped nodes of no entry's candidate. */
  predicate IsExclusive(report: Report, k: PackageNode) {
    k.0 != "" && k.1 != "" && HasSkip(report.skipped, k) && !exists t :: HasEntry(report.entries, k, t)
  }

  function ExclusiveNodes(report: Report): set<PackageNode> {
    set s | s in report.skipped && s.NoFix? && IsExclusive(report, (s.package, s.currentVersion)) ::
      (s.package, s.currentVersion)
  }

  lemma {:induction false} ExclusiveSays(report: Report, k: PackageNode)
    ensures k in ExclusiveNoFix(report) <==> IsExclusive(report, k)
  {
    hide SeverestTier, SkipNodes;
    SkipNodesAre(report.skipped, k);
    SeverestIsWorst(report.entries, CandidateKey, {}, k);
    if k.0 != "" && k.1 != "" {
      if t :| HasEntry(report.entries, k, t) {
        var e :| e in report.entries && e.candidate.package == k.0 && e.candidate.fromVersion == k.1
          && e.verdict.tier == t;
        assert CandidateKey(e) == Some(k);
      }
      if e :| e in report.entries && CandidateKey(e) == Some(k) {
        assert HasEntry(report.entries, k, e.verdict.tier);
      }
    }
  }

  /** Nodes filed on the page, so that sets over them are finite. */
  function PageNodes(entries: seq<Entry>): set<PackageNode> {
    set e | e in entries && PageKey(e).Some? :: PageKey(e).value
  }

  function WorstNodes(report: Report, t: Tier): set<PackageNode> {
    set k | k in PageNodes(report.entries) && HasWorst(report.entries, k, t) && !IsExclusive(report, k)
  }

  lemma {:induction false} PageKeySays(e: Entry)
    ensures EntryPackageKey(e) == PageKey(e)
  {
  }

  lemma {:induction false} WorstAreShown(report: Report, t: Tier)
    ensures NodesAt(SeverestTier(report.entries, EntryPackageKey, ExclusiveNoFix(report)), t) == WorstNodes(report, t)
  {
    hide SeverestTier, ExclusiveNoFix, IsExclusive, PageKey, EntryPackageKey;
    var m := SeverestTier(report.entries, EntryPackageKey, ExclusiveNoFix(report));
    forall e ensures EntryPackageKey(e) == PageKey(e) { PageKeySays(e); }
    forall k ensures k in NodesAt(m, t) <==> k in WorstNodes(report, t) {
      SeverestIsWorst(report.entries, EntryPackageKey, ExclusiveNoFix(report), k);
      ExclusiveSays(report, k);
      if k in WorstNodes(report, t) {
        var s :| HasPageEntry(report.entries, k, s);
      }
      forall e | e in report.entries && PageKey(e) == Some(k) ensures HasPageEntry(report.entries, k, e.verdict.tier) {}
      if k in m {
        var e :| e in report.entries && PageKey(e) == Some(k) && e.verdict.tier == m[k];
        assert PageKey(e).value in PageNodes(report.entries);
      }
    }
  }

  /** The page's figures, from entries, skips and rows; a clean node is direct if some row of it is. */
  lemma {:induction false} PageFigures(report: Report, deps: seq<DepRow>)
    ensures var s := SummaryOf(report, deps);
      && s.total == |NodeKeys(deps)|
      && s.autoMerge == |WorstNodes(report, AutoMerge)|
      && s.reviewRequired == |WorstNodes(report, ReviewRequired)| && s.decline == |WorstNodes(report, Decline)|
      && s.accountedTotal == |s.clean| + s.noFix + s.autoMerge + s.reviewRequired + s.decline
      && (s.integrityOk <==> s.accountedTotal == s.total)
      && s.noFix == |ExclusiveNodes(report)|
      && (forall k :: k in s.clean <==>
            && IsRow(deps, k) && !HasSkip(report.skipped, k)
            && !exists t :: HasPageEntry(report.entries, k, t))
      && (forall k | k in s.clean :: s.clean[k] <==>
            exists d | d in deps :: d.package == k.0 && d.version == k.1 && d.isDirect)
  {
    hide SeverestTier, ExclusiveNoFix, IsExclusive, NodesAt, WorstNodes, SkipNodes, NodeKeys, HasSkip, HasPageEntry,
        EntryPackageKey, PageKey;
    forall t ensures NodesAt(SeverestTier(report.entries, EntryPackageKey, ExclusiveNoFix(report)), t)
      == WorstNodes(report, t) {
      WorstAreShown(report, t);
    }
    ExclusiveAre(report);
    assert SummaryOf(report, deps).noFix == |ExclusiveNoFix(report)|;
    forall k ensures k in SummaryOf(report, deps).clean <==>
      IsRow(deps, k) && !HasSkip(report.skipped, k) && !exists t :: HasPageEntry(report.entries, k, t) {
      NodesAreRows(deps, k);
      SkipNodesAre(report.skipped, k);
      FiledSays(report, k);
    }
  }

  lemma {:induction false} ExclusiveAre(report: Report)
    ensures ExclusiveNoFix(report) == ExclusiveNodes(report)
  {
    hide ExclusiveNoFix, HasEntry;
    forall k ensures k in ExclusiveNoFix(report) <==> k in ExclusiveNodes(report) {
      ExclusiveSays(report, k);
      if IsExclusive(report, k) {
        var s :| s in report.skipped && s.NoFix? && s.package == k.0 && s.currentVersion == k.1;
        assert (s.package, s.currentVersion) in ExclusiveNodes(report);
      }
    }
  }

  lemma {:induction false} FiledSays(report: Report, k: PackageNode)
    ensures k in WithFindings(report) <==>
        k in SkipNodes(report.skipped) || exists t :: HasPageEntry(report.entries, k, t)
  {
    hide SkipNodes, PageKey, EntryPackageKey;
    forall e ensures EntryPackageKey(e) == PageKey(e) { PageKeySays(e); }
    if e :| e in report.entries && EntryPackageKey(e) == Some(k) {
      assert HasPageEntry(report.entries, k, e.verdict.tier);
      assert EntryPackageKey(e).value in WithFindings(report);
    }
    if t :| HasPageEntry(report.entries, k, t) {
      var e :| e in report.entries && PageKey(e) == Some(k) && e.verdict.tier == t;
      assert EntryPackageKey(e).value in WithFindings(report);
    }
  }
}
