/** The run-time balance check can never fail on a report the pipeline produced. */
module BalanceLaws {
  import opened Sorting
  import opened Versions
  import opened FixConfidence
  import opened Findings
  import opened Consolidation
  import opened ConsolidationLaws
  import opened Proposal
  import opened DepRows
  import opened ScanCounts

  // ---- From ids back to findings ----

  lemma {:induction false} ByIdFinds(findings: seq<Finding>)
    requires DistinctIds(findings)
    ensures forall f | f in findings :: f.id in ById(findings) && ById(findings)[f.id] == f
    ensures forall id | id in ById(findings) :: ById(findings)[id] in findings && ById(findings)[id].id == id
  {
    if findings != [] {
      var init, last := findings[..|findings| - 1], findings[|findings| - 1];
      assert findings == init + [last];
      assert DistinctIds(init);
      ByIdFinds(init);
      forall f | f in init ensures f.id != last.id {
        var i :| 0 <= i < |init| && init[i] == f;
        assert findings[i].id != findings[|findings| - 1].id;
      }
    }
  }

  lemma {:induction false} LookupFinds(ids: seq<string>, byId: map<string, Finding>, f: Finding)
    ensures f in Lookup(ids, byId) <==> exists id | id in ids :: id in byId && byId[id] == f
  {
    if ids != [] {
      LookupFinds(ids[1..], byId, f);
      assert ids == [ids[0]] + ids[1..];
    }
  }

  lemma {:induction false} RelatedAreNamed(m: Candidate, key: GroupKey, findings: seq<Finding>, repo: string)
    requires DistinctIds(findings) && IsUpgrade(m, key, findings, repo)
    ensures forall f :: f in Related(m, findings) <==> f in findings && f.id in m.sourceIds
    ensures Related(m, findings) != []
  {
    ByIdFinds(findings);
    var byId := ById(findings);
    SortKeepsElements(RelatedBefore, Lookup(m.sourceIds, byId));
    forall f ensures f in Related(m, findings) <==> f in findings && f.id in m.sourceIds {
      LookupFinds(m.sourceIds, byId, f);
      if id :| id in m.sourceIds && id in byId && byId[id] == f { assert f.id == id; }
    }
    var f :| Member(findings, repo, key, f);
    assert f in Related(m, findings);
  }

  /** With related findings for every candidate, each becomes one entry and none a skip. */
  lemma {:induction false} RelatedBecomeEntries(cands: seq<Candidate>, findings: seq<Finding>, world: World)
    requires forall c | c in cands :: Related(c, findings) != []
    ensures |EntriesFor(cands, findings, world)| == |cands| && MissingSkips(cands, findings) == []
    ensures forall i | 0 <= i < |cands| :: EntriesFor(cands, findings, world)[i] == EntryFor(cands[i], findings, world)
  {
    hide EntryFor, Related, MissingSkip;
    if cands != [] {
      var init, c := cands[..|cands| - 1], cands[|cands| - 1];
      RelatedBecomeEntries(init, findings, world);
      assert c in cands;
      assert EntriesFor(cands, findings, world) == EntriesFor(init, findings, world) + [EntryFor(c, findings, world)];
      assert MissingSkips(cands, findings) == MissingSkips(init, findings) + [];
    }
  }

  /** An entry stands for fixable findings of one installed node, and names exactly them. */
  ghost predicate SoundEntry(e: Entry, findings: seq<Finding>) {
    && e.finding in e.related
    && RelatedIds(e) == (set id | id in e.candidate.sourceIds) && RelatedIds(e) != {}
    && forall f | f in e.related :: f in findings && Fixable(f) && FindingNode(f) == EntryNode(e)
  }

  ghost predicate SoundEntries(entries: seq<Entry>, findings: seq<Finding>) {
    && (forall e | e in entries :: SoundEntry(e, findings))
    && forall f | f in findings && Fixable(f) :: exists e | e in entries :: f in e.related
  }

  lemma {:induction false} UpgradeEntryIsSound(m: Candidate, key: GroupKey, findings: seq<Finding>, repo: string,
      world: World)
    requires DistinctIds(findings) && IsUpgrade(m, key, findings, repo)
    ensures Related(m, findings) != [] && SoundEntry(EntryFor(m, findings, world), findings)
    ensures EntryFor(m, findings, world).related == Related(m, findings)
  {
    RelatedAreNamed(m, key, findings, repo);
    var e := EntryFor(m, findings, world);
    forall id | id in m.sourceIds ensures id in RelatedIds(e) {
      var f :| f in findings && f.id == id;
      assert f in e.related;
    }
    assert e.finding.id in RelatedIds(e);
    forall f | f in e.related ensures Fixable(f) && FindingNode(f) == EntryNode(e) {
      InUpgradeIffKeyed(findings, repo, m, key, f);
    }
  }

  /** Entries of a pipeline report; the `related_findings_missing` branch is unreachable. */
  lemma {:induction false} PipelineEntriesAreSound(findings: seq<Finding>, repo: string, world: World)
    requires DistinctIds(findings)
    ensures var ups := Consolidated(RawCandidates(findings, repo), findings);
      SoundEntries(EntriesFor(ups, findings, world), findings) && MissingSkips(ups, findings) == []
  {
    hide EntryFor, Related, MissingSkip, SoundEntry, IsUpgrade, Fixable, RawCandidates, Consolidated, GroupKeys;
    var raw := RawCandidates(findings, repo);
    var ups, keys := Consolidated(raw, findings), GroupKeys(raw, findings);
    ConsolidationEmitsOneUpgradePerNode(findings, repo);
    forall i | 0 <= i < |ups|
      ensures Related(ups[i], findings) != [] && SoundEntry(EntryFor(ups[i], findings, world), findings)
      ensures EntryFor(ups[i], findings, world).related == Related(ups[i], findings)
    {
      UpgradeEntryIsSound(ups[i], keys[i], findings, repo, world);
    }
    RelatedBecomeEntries(ups, findings, world);
    var entries := EntriesFor(ups, findings, world);
    forall f | f in findings && Fixable(f) ensures exists e | e in entries :: f in e.related {
      EachFindingInExactlyOneUpgrade(findings, repo, f);
      var i :| 0 <= i < |ups| && f.id in ups[i].sourceIds;
      RelatedAreNamed(ups[i], keys[i], findings, repo);
      assert f in entries[i].related;
    }
  }

  // ---- Counting ----

  lemma {:induction false} TierAndBandSums(entries: seq<Entry>, findings: seq<Finding>)
    ensures CountTier(entries, AutoMerge) + CountTier(entries, ReviewRequired) + CountTier(entries, Decline)
      == |entries|
    ensures CountBand(findings, Critical) + CountBand(findings, High)
         + CountBand(findings, Medium) + CountBand(findings, Low)
      == |findings|
    decreases |entries| + |findings|
  {
    if entries != [] {
      TierAndBandSums(entries[..|entries| - 1], findings);
    } else if findings != [] {
      TierAndBandSums(entries, findings[..|findings| - 1]);
    }
  }

  lemma {:induction false} CountNoFixAppend(s: seq<Skip>, t: seq<Skip>)
    ensures CountNoFix(s + t) == CountNoFix(s) + CountNoFix(t)
  {
    if t == [] {
      assert s + t == s;
    } else {
      assert (s + t)[..|s + t| - 1] == s + t[..|t| - 1];
      CountNoFixAppend(s, t[..|t| - 1]);
    }
  }

  lemma {:induction false} CountNoFixInsert(x: Skip, s: seq<Skip>)
    ensures CountNoFix(Insert(SkipBefore, x, s)) == CountNoFix([x]) + CountNoFix(s)
  {
    if s != [] && SkipBefore(s[0], x) {
      CountNoFixInsert(x, s[1..]);
      CountNoFixAppend([s[0]], Insert(SkipBefore, x, s[1..]));
      CountNoFixAppend([s[0]], s[1..]);
      assert s == [s[0]] + s[1..];
    } else {
      CountNoFixAppend([x], s);
    }
  }

  lemma {:induction false} CountNoFixSorted(s: seq<Skip>)
    ensures CountNoFix(Sort(SkipBefore, s)) == CountNoFix(s)
  {
    if s != [] {
      CountNoFixSorted(s[1..]);
      CountNoFixInsert(s[0], Sort(SkipBefore, s[1..]));
      CountNoFixAppend([s[0]], s[1..]);
      assert s == [s[0]] + s[1..];
    }
  }

  lemma {:induction false} LensFailuresAreNotCounted(s: seq<Skip>)
    requires forall x | x in s :: x.LensFailure?
    ensures CountNoFix(s) == 0
  {
    if s != [] {
      assert s[|s| - 1] in s;
      LensFailuresAreNotCounted(s[..|s| - 1]);
    }
  }

  function FixableIds(findings: seq<Finding>): set<string> {
    set f | f in findings && Fixable(f) :: f.id
  }

  lemma {:induction false} LastIdIsNew(findings: seq<Finding>)
    requires findings != [] && DistinctIds(findings)
    ensures DistinctIds(findings[..|findings| - 1])
    ensures findings[|findings| - 1].id !in FixableIds(findings[..|findings| - 1])
    ensures FixableIds(findings) == FixableIds(findings[..|findings| - 1])
      + (if Fixable(findings[|findings| - 1]) then {findings[|findings| - 1].id} else {})
  {
    var init, last := findings[..|findings| - 1], findings[|findings| - 1];
    assert findings == init + [last];
    forall f | f in init ensures f.id != last.id {
      var i :| 0 <= i < |init| && init[i] == f;
      assert findings[i].id != findings[|findings| - 1].id;
    }
  }

  /** Each finding is either a fixable id or one discovery skip. */
  lemma {:induction false} FixablePlusSkipsIsAll(findings: seq<Finding>, repo: string)
    requires DistinctIds(findings)
    ensures |FixableIds(findings)| + CountNoFix(DiscoverySkips(findings, repo)) == |findings|
  {
    if findings != [] {
      var init, last := findings[..|findings| - 1], findings[|findings| - 1];
      LastIdIsNew(findings);
      FixablePlusSkipsIsAll(init, repo);
      var d := Discover(last, repo);
      var own := if d.Found? then [] else [NoFixFrom(last, d.reason)];
      CountNoFixAppend(DiscoverySkips(init, repo), own);
      assert CountNoFix(own) == if Fixable(last) then 0 else 1;
    }
  }

  /** `s` is the skip discovery writes for the unfixable finding `f`. */
  predicate SkippedFor(f: Finding, repo: string, s: Skip) {
    !Fixable(f) && s == NoFixFrom(f, Discover(f, repo).reason)
  }

  lemma {:induction false} SkippedUnlessFound(f: Finding, repo: string, s: Skip)
    ensures SkippedFor(f, repo, s) <==> Discover(f, repo).Nothing? && s == NoFixFrom(f, Discover(f, repo).reason)
  {
  }

  lemma {:induction false} DiscoverySkipsAre(findings: seq<Finding>, repo: string, s: Skip)
    ensures s in DiscoverySkips(findings, repo) <==> exists f | f in findings :: SkippedFor(f, repo, s)
  {
    hide Discover, SkippedFor, NoFixFrom;
    if findings != [] { SkippedUnlessFound(findings[|findings| - 1], repo, s); }
    if findings != [] {
      DiscoverySkipsAre(findings[..|findings| - 1], repo, s);
      assert findings == findings[..|findings| - 1] + [findings[|findings| - 1]];
    }
  }

  // ---- Maps built from entries ----

  lemma {:induction false} TierMapKeys(entries: seq<Entry>, rank: Tier -> nat, k: PackageNode)
    ensures k in TierMap(entries, rank) <==> exists e | e in entries :: EntryNode(e) == k
  {
    if entries != [] {
      TierMapKeys(entries[..|entries| - 1], rank, k);
      assert entries == entries[..|entries| - 1] + [entries[|entries| - 1]];
    }
  }

  lemma {:induction false} CandidateMapIs(entries: seq<Entry>, id: CandidateId)
    ensures id in CandidateMap(entries) <==> exists e | e in entries :: IdOf(e.candidate) == id
    ensures id in CandidateMap(entries) ==>
      exists e | e in entries :: IdOf(e.candidate) == id && CandidateMap(entries)[id] == RelatedIds(e)
  {
    if entries != [] {
      CandidateMapIs(entries[..|entries| - 1], id);
      assert entries == entries[..|entries| - 1] + [entries[|entries| - 1]];
    }
  }

  lemma {:induction false} NodesAtSum(m: map<PackageNode, Tier>)
    ensures |NodesAt(m, AutoMerge)| + |NodesAt(m, ReviewRequired)| + |NodesAt(m, Decline)| == |m.Keys|
  {
    var a, r, d := NodesAt(m, AutoMerge), NodesAt(m, ReviewRequired), NodesAt(m, Decline);
    assert m.Keys == a + r + d && a * r == {} && (a + r) * d == {};
  }

  // ---- Facts about a pipeline report ----

  function FixableNodes(findings: seq<Finding>): set<PackageNode> {
    set f | f in findings && Fixable(f) :: FindingNode(f)
  }

  function UnfixableNodes(findings: seq<Finding>): set<PackageNode> {
    set f | f in findings && !Fixable(f) :: FindingNode(f)
  }

  /** Package names and versions are not empty. */
  ghost predicate Named(findings: seq<Finding>) {
    forall f | f in findings :: f.package != "" && f.version != ""
  }

  lemma {:induction false} SoundEntryStandsFor(e: Entry, findings: seq<Finding>)
    requires SoundEntry(e, findings)
    ensures RelatedIds(e) != {} && RelatedIds(e) <= FixableIds(findings) && EntryNode(e) in FixableNodes(findings)
  {
    assert FindingNode(e.finding) == EntryNode(e);
  }

  lemma {:induction false} SoundEntryHolds(e: Entry, findings: seq<Finding>, f: Finding)
    requires DistinctIds(findings) && SoundEntry(e, findings) && f in e.related
    ensures f.id in RelatedIds(e) && EntryNode(e) == FindingNode(f)
  {}

  /** The id and node sets of sound entries, in terms of the findings alone. */
  lemma {:induction false} EntrySets(entries: seq<Entry>, findings: seq<Finding>, rank: Tier -> nat)
    requires DistinctIds(findings) && SoundEntries(entries, findings)
    ensures WithFix(entries) == FixableIds(findings)
    ensures TierMap(entries, rank).Keys == FixableNodes(findings)
  {
    hide SoundEntry, Fixable, RelatedIds, FindingNode, EntryNode, DistinctIds, TierMap;
    forall f | f in findings && Fixable(f)
      ensures f.id in WithFix(entries) && exists e | e in entries :: EntryNode(e) == FindingNode(f)
    {
      var e :| e in entries && f in e.related;
      SoundEntryHolds(e, findings, f);
    }
    forall e | e in entries ensures RelatedIds(e) <= FixableIds(findings) && EntryNode(e) in FixableNodes(findings) {
      SoundEntryStandsFor(e, findings);
    }
    forall k ensures k in TierMap(entries, rank) <==> k in FixableNodes(findings) { TierMapKeys(entries, rank, k); }
  }

  lemma {:induction false} EntryCandidateMap(entries: seq<Entry>, findings: seq<Finding>)
    requires SoundEntries(entries, findings)
    ensures EmptyRelated(CandidateMap(entries)) == {} && MappedIds(CandidateMap(entries)) == WithFix(entries)
  {
    hide SoundEntry, RelatedIds, IdOf;
    var m := CandidateMap(entries);
    forall id | id in m ensures m[id] != {} && exists e | e in entries :: m[id] == RelatedIds(e) {
      CandidateMapIs(entries, id);
      var e :| e in entries && IdOf(e.candidate) == id && m[id] == RelatedIds(e);
      SoundEntryStandsFor(e, findings);
    }
    forall e | e in entries ensures IdOf(e.candidate) in m && m[IdOf(e.candidate)] == RelatedIds(e) {
      CandidateMapIs(entries, IdOf(e.candidate));
      var d :| d in entries && IdOf(d.candidate) == IdOf(e.candidate) && m[IdOf(e.candidate)] == RelatedIds(d);
      SameIdSameRelated(d, e, findings);
    }
  }

  lemma {:induction false} SameIdSameRelated(d: Entry, e: Entry, findings: seq<Finding>)
    requires SoundEntry(d, findings) && SoundEntry(e, findings) && IdOf(d.candidate) == IdOf(e.candidate)
    ensures RelatedIds(d) == RelatedIds(e)
  {
    forall id ensures id in d.candidate.sourceIds <==> id in e.candidate.sourceIds {
      assert id in multiset(d.candidate.sourceIds) <==> id in multiset(e.candidate.sourceIds);
    }
  }

  lemma {:induction false} ReportSkips(findings: seq<Finding>, lensFailures: seq<string>, repo: string, world: World)
    requires DistinctIds(findings)
    ensures var report := Proposed(findings, lensFailures, repo, world);
      && |FixableIds(findings)| + CountNoFix(report.skipped) == |findings|
      && forall s: Skip | s.NoFix? :: s in report.skipped <==>
           exists f | f in findings :: SkippedFor(f, repo, s)
  {
    hide Discover, SkippedFor, SoundEntries, DiscoverySkips, MissingSkips, EntriesFor, Consolidated, RawCandidates,
        Sort, CountNoFix, FixableIds, SkipBefore;
    PipelineEntriesAreSound(findings, repo, world);
    var failures := seq(|lensFailures|, i requires 0 <= i < |lensFailures| => LensFailure(lensFailures[i]));
    var skips := DiscoverySkips(findings, repo);
    var all := failures + skips;
    assert all + [] == all;
    LensFailuresAreNotCounted(failures);
    CountNoFixAppend(failures, skips);
    CountNoFixSorted(all);
    FixablePlusSkipsIsAll(findings, repo);
    SortKeepsElements(SkipBefore, all);
    forall s { DiscoverySkipsAre(findings, repo, s); }
  }

  lemma {:induction false} ReportSkipNodes(findings: seq<Finding>, lensFailures: seq<string>, repo: string,
      world: World)
    requires DistinctIds(findings) && Named(findings)
    ensures SkipNodes(Proposed(findings, lensFailures, repo, world).skipped) == UnfixableNodes(findings)
  {
    ReportSkips(findings, lensFailures, repo, world);
    var skipped := Proposed(findings, lensFailures, repo, world).skipped;
    forall k ensures k in SkipNodes(skipped) <==> k in UnfixableNodes(findings) {
      if f :| f in findings && !Fixable(f) && FindingNode(f) == k {
        assert SkippedFor(f, repo, NoFixFrom(f, Discover(f, repo).reason));
      }
    }
  }

  lemma {:induction false} AffectedSplits(findings: seq<Finding>)
    ensures AffectedNodes(findings) == FixableNodes(findings) + UnfixableNodes(findings)
  {
    hide Fixable;
  }

  /** |a| + |b| for the two parts of a set. */
  lemma {:induction false} SplitSize<T>(whole: set<T>, part: set<T>)
    requires part <= whole
    ensures |part| + |whole - part| == |whole|
  {
    assert whole == part + (whole - part);
  }

  lemma {:induction false} StatusArithmetic(fixable: set<PackageNode>, unfixable: set<PackageNode>,
      nodes: set<PackageNode>)
    ensures var affected := (fixable + unfixable) * nodes;
      var clean := nodes - (fixable + unfixable);
      var noFix := unfixable * nodes - fixable;
      && |clean| + |affected| == |nodes|
      && (|fixable| + |noFix| + |clean| == |nodes| <==> fixable <= nodes)
  {
    var affected := (fixable + unfixable) * nodes;
    var noFix := unfixable * nodes - fixable;
    SplitSize(nodes, affected);
    assert nodes - affected == nodes - (fixable + unfixable);
    SplitSize(affected, noFix);
    assert affected - noFix == fixable * nodes;
    SplitSize(fixable, fixable * nodes);
    assert fixable - fixable * nodes == {} <==> fixable <= nodes;
  }

  lemma {:induction false} MixedSplits(unfixable: set<PackageNode>, fixable: set<PackageNode>)
    ensures |unfixable - fixable| + |unfixable * fixable| == |(unfixable - fixable) + unfixable * fixable|
  {
    SplitSize(unfixable, unfixable - fixable);
    assert unfixable - (unfixable - fixable) == unfixable * fixable;
    assert (unfixable - fixable) + unfixable * fixable == unfixable;
  }

  lemma {:induction false} Untouched(nodes: set<PackageNode>, affected: set<PackageNode>)
    ensures nodes - affected * nodes == nodes - affected
  {
  }

  /** The node counts of consistent tallies. */
  lemma {:induction false} NodeTallies(t: Tallies, nodes: set<PackageNode>, fixable: set<PackageNode>,
      unfixable: set<PackageNode>)
    requires t.affected == fixable + unfixable && t.tiers.Keys == fixable
    requires t.noFixNodes == unfixable * nodes - fixable && t.mixed == unfixable * nodes * fixable
    ensures var tiers := t.tiers;
      var statuses := |NodesAt(tiers, AutoMerge)| + |NodesAt(tiers, ReviewRequired)| + |NodesAt(tiers, Decline)|;
      var clean := CleanCount(nodes, t.affected * nodes);
      && statuses == |fixable| && clean == |nodes - t.affected| && clean + |t.affected * nodes| == |nodes|
      && (statuses + |t.noFixNodes| + clean == |nodes| <==> fixable <= nodes)
      && |t.noFixNodes| + |t.mixed| == |t.noFixNodes + t.mixed|
  {
    hide NodesAt;
    NodesAtSum(t.tiers);
    StatusArithmetic(fixable, unfixable, nodes);
    MixedSplits(unfixable * nodes, fixable);
    Untouched(nodes, t.affected);
  }

  /**
   When the tallies are these of the findings and nodes, the only identity that can break is the
   package status partition, and it breaks exactly when a fixable finding's node is not installed.
   */
  lemma {:induction false} ConsistentTalliesBalance(t: Tallies, nodes: set<PackageNode>, fixable: set<PackageNode>,
      unfixable: set<PackageNode>)
    requires BANDS <= t.bands.Keys && TIERS <= t.tierCounts.Keys
    requires t.bands[Critical] + t.bands[High] + t.bands[Medium] + t.bands[Low] == t.total
    requires t.tierCounts[AutoMerge] + t.tierCounts[ReviewRequired] + t.tierCounts[Decline] == t.entries
    requires |t.withFix| + t.skips == t.total
    requires EmptyRelated(t.candidates) == {} && MappedIds(t.candidates) == t.withFix
    requires t.affected == fixable + unfixable && t.tiers.Keys == fixable
    requires t.noFixNodes == unfixable * nodes - fixable && t.mixed == unfixable * nodes * fixable
    ensures var counts := Assemble(t, nodes);
      && counts.messages == (if fixable <= nodes then {} else {PackageStatusPartition})
      && counts.statusAutoMerge + counts.statusReviewRequired + counts.statusDecline == |fixable|
      && counts.cleanNodes == |nodes - t.affected|
  {
    hide NodesAt, EmptyRelated, MappedIds, CleanCount;
    NodeTallies(t, nodes, fixable, unfixable);
  }

  /** What a balanced scan looks like: the counters partition findings and nodes. */
  ghost predicate Partitioned(counts: Counts, findings: seq<Finding>, nodes: set<PackageNode>) {
    && counts.totalFindings == |findings| && counts.withFix == |FixableIds(findings)|
    && counts.noFix == |findings| - |FixableIds(findings)|
    && counts.statusAutoMerge + counts.statusReviewRequired + counts.statusDecline == |FixableNodes(findings)|
    && counts.statusNoFix == |UnfixableNodes(findings) * nodes - FixableNodes(findings)|
    && counts.statusMixedNoFix == |UnfixableNodes(findings) * nodes * FixableNodes(findings)|
    && counts.cleanNodes == |nodes - AffectedNodes(findings)|
    && counts.nodes == |nodes|
  }

  /** Any report with sound entries and one skip per unfixable finding balances, as above. */
  lemma {:induction false} SoundReportsBalance(report: Report, deps: seq<DepRow>)
    requires DistinctIds(report.findings) && SoundEntries(report.entries, report.findings)
    requires |FixableIds(report.findings)| + CountNoFix(report.skipped) == |report.findings|
    requires SkipNodes(report.skipped) == UnfixableNodes(report.findings)
    ensures Partitioned(CountsOf(report, deps), report.findings, NodeKeys(deps))
    ensures CountsOf(report, deps).messages ==
      (if FixableNodes(report.findings) <= NodeKeys(deps) then {} else {PackageStatusPartition})
  {
    hide SoundEntries, Fixable, NodeKeys, AffectedNodes, FixableNodes, UnfixableNodes, FixableIds, CandidateMap,
        WithFix, MappedIds, EmptyRelated, TierMap, SkipNodes, CountNoFix, NodesAt;
    var findings, nodes := report.findings, NodeKeys(deps);
    EntrySets(report.entries, findings, CountsRank);
    EntryCandidateMap(report.entries, findings);
    TierAndBandSums(report.entries, findings);
    AffectedSplits(findings);
    ConsistentTalliesBalance(TalliesOf(report, nodes), nodes, FixableNodes(findings), UnfixableNodes(findings));
  }

  /**
   End to end: over discovery, consolidation and entry building, the counters partition findings
   and nodes, and the balance check passes exactly when every fixable finding's node is among the
   dependency rows (which it is when both come from one lockfile).
   */
  lemma {:induction false} PipelineReportsBalance(findings: seq<Finding>, lensFailures: seq<string>, repo: string,
      world: World, deps: seq<DepRow>)
    requires DistinctIds(findings) && Named(findings)
    ensures var counts := CountsOf(Proposed(findings, lensFailures, repo, world), deps);
      && Partitioned(counts, findings, NodeKeys(deps))
      && counts.messages == (if FixableNodes(findings) <= NodeKeys(deps) then {} else {PackageStatusPartition})
  {
    hide SoundEntries, Fixable, NodeKeys, CountsOf, SkipNodes, FixableIds, FixableNodes, UnfixableNodes, CountNoFix,
        Partitioned;
    PipelineEntriesAreSound(findings, repo, world);
    ReportSkips(findings, lensFailures, repo, world);
    ReportSkipNodes(findings, lensFailures, repo, world);
    SoundReportsBalance(Proposed(findings, lensFailures, repo, world), deps);
  }

  /** Each finding is related to exactly one entry or has a no-fix skip, never both. */
  lemma {:induction false} EachFindingInOneEntryOrSkipped(findings: seq<Finding>, lensFailures: seq<string>,
      repo: string, world: World, f: Finding)
    requires DistinctIds(findings) && f in findings
    ensures var report := Proposed(findings, lensFailures, repo, world);
      && (Fixable(f) <==> exists i | 0 <= i < |report.entries| :: f in report.entries[i].related)
      && (!Fixable(f) <==> exists s | s in report.skipped :: s.NoFix? && s.findingId == f.id)
      && forall i, j | 0 <= i < |report.entries| && 0 <= j < |report.entries|
                       && f in report.entries[i].related && f in report.entries[j].related :: i == j
  {
    hide Fixable, IsUpgrade, EntryFor, Related, Discover, RawCandidates, Consolidated, GroupKeys;
    var raw := RawCandidates(findings, repo);
    var ups, keys := Consolidated(raw, findings), GroupKeys(raw, findings);
    var report := Proposed(findings, lensFailures, repo, world);
    ConsolidationEmitsOneUpgradePerNode(findings, repo);
    EachFindingInExactlyOneUpgrade(findings, repo, f);
    forall i | 0 <= i < |ups|
      ensures Related(ups[i], findings) != [] && EntryFor(ups[i], findings, world).related == Related(ups[i], findings)
      ensures f in Related(ups[i], findings) <==> f.id in ups[i].sourceIds
    {
      UpgradeEntryIsSound(ups[i], keys[i], findings, repo, world);
      RelatedAreNamed(ups[i], keys[i], findings, repo);
    }
    RelatedBecomeEntries(ups, findings, world);
    SkippedIffUnfixable(findings, lensFailures, repo, world, f);
  }

  lemma {:induction false} SkippedIffUnfixable(findings: seq<Finding>, lensFailures: seq<string>, repo: string,
      world: World, f: Finding)
    requires DistinctIds(findings) && f in findings
    ensures !Fixable(f) <==> exists s | s in Proposed(findings, lensFailures, repo, world).skipped ::
        s.NoFix? && s.findingId == f.id
  {
    hide LowestAbove, Proposed;
    ReportSkips(findings, lensFailures, repo, world);
    var skipped := Proposed(findings, lensFailures, repo, world).skipped;
    if !Fixable(f) {
      assert SkippedFor(f, repo, NoFixFrom(f, Discover(f, repo).reason));
    }
    forall g | g in findings && g.id == f.id ensures g == f { SameIdSameFinding(findings, f, g); }
  }
}
