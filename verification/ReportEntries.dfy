/** What a report says of each finding and each entry, in terms of the findings and of the outside world. */
module ReportEntries {
  import opened Basics
  import opened Sorting
  import opened Versions
  import opened FixConfidence
  import opened Findings
  import opened Consolidation
  import opened ConsolidationLaws
  import opened Proposal
  import opened ScanCounts
  import opened BalanceLaws

  /** An entry of the report is that of one upgrade, which stands for a group. */
  lemma {:induction false} EntryHasUpgrade(findings: seq<Finding>, lensFailures: seq<string>, repo: string,
      world: World, e: Entry) returns (m: Candidate, key: GroupKey)
    requires DistinctIds(findings) && e in Proposed(findings, lensFailures, repo, world).entries
    ensures IsUpgrade(m, key, findings, repo) && Related(m, findings) != [] && e == EntryFor(m, findings, world)
  {
    hide EntryFor, Related, IsUpgrade, Consolidated, RawCandidates, GroupKeys, DistinctIds, DiscoverySkips, Sort;
    ConsolidationEmitsOneUpgradePerNode(findings, repo);
    var raw := RawCandidates(findings, repo);
    var ups, keys := Consolidated(raw, findings), GroupKeys(raw, findings);
    forall i | 0 <= i < |ups| ensures Related(ups[i], findings) != [] {
      RelatedAreNamed(ups[i], keys[i], findings, repo);
    }
    RelatedBecomeEntries(ups, findings, world);
    var i :| 0 <= i < |ups| && EntriesFor(ups, findings, world)[i] == e;
    m, key := ups[i], keys[i];
  }

  /** The entry's candidate is the upgrade with the figures of the outside world and of its findings. */
  lemma {:induction false} CandidateSays(findings: seq<Finding>, lensFailures: seq<string>, repo: string,
      world: World, e: Entry)
    requires DistinctIds(findings) && e in Proposed(findings, lensFailures, repo, world).entries
    ensures var c := e.candidate;
      && c.repo == repo && c.kind == ClassifyFixKind(c.fromVersion, c.toVersion)
      && c.trust == world.trustScore(c.package, c.fromVersion)
      && (forall f :: f in e.related <==> f in findings && f.id in c.sourceIds)
      && (forall f | f in e.related :: f.package == c.package && f.version == c.fromVersion && Fixable(f))
      && (forall id | id in c.sourceIds :: exists f | f in e.related :: f.id == id)
      && Distinct(c.sourceIds) && InOrder(Less, c.sourceIds)
      && (c.hasKev <==> exists f | f in e.related :: f.isKev)
      && c.maxEpss.None? == (forall f | f in e.related :: f.epss.None?)
      && (c.maxEpss.Some? ==> exists f | f in e.related :: f.epss == c.maxEpss)
      && (forall f | f in e.related && f.epss.Some? :: c.maxEpss.Some? && f.epss.value <= c.maxEpss.value)
      && c.maxEpssPercentile.None? == (forall f | f in e.related :: f.epssPercentile.None?)
      && (c.maxEpssPercentile.Some? ==> exists f | f in e.related :: f.epssPercentile == c.maxEpssPercentile)
      && (forall f | f in e.related && f.epssPercentile.Some? ::
            c.maxEpssPercentile.Some? && f.epssPercentile.value <= c.maxEpssPercentile.value)
  {
    hide Proposed, Fixable, ClassifyFixKind, Less, Related, Lookup, ById, TopEpss, TopPercentile, DistinctIds, Older,
        LowestAbove;
    var m, key := EntryHasUpgrade(findings, lensFailures, repo, world, e);
    RelatedAreNamed(m, key, findings, repo);
    var linked := Lookup(m.sourceIds, ById(findings));
    RelatedAreLinked(m, findings);
    FiguresAreGreatest(linked);
    forall f | f in e.related ensures f.package == m.package && f.version == m.fromVersion && Fixable(f) {
      InUpgradeIffKeyed(findings, repo, m, key, f);
    }
  }

  lemma {:induction false} RelatedAreLinked(c: Candidate, findings: seq<Finding>)
    ensures forall f :: f in Related(c, findings) <==> f in Lookup(c.sourceIds, ById(findings))
  {
    SortKeepsElements(RelatedBefore, Lookup(c.sourceIds, ById(findings)));
  }

  lemma {:induction false} FiguresAreGreatest(fs: seq<Finding>)
    ensures TopEpss(fs).None? == (forall f | f in fs :: f.epss.None?)
    ensures TopEpss(fs).Some? ==> exists f | f in fs :: f.epss == TopEpss(fs)
    ensures forall f | f in fs && f.epss.Some? :: TopEpss(fs).Some? && f.epss.value <= TopEpss(fs).value
    ensures TopPercentile(fs).None? == (forall f | f in fs :: f.epssPercentile.None?)
    ensures TopPercentile(fs).Some? ==> exists f | f in fs :: f.epssPercentile == TopPercentile(fs)
    ensures forall f | f in fs && f.epssPercentile.Some? ::
      TopPercentile(fs).Some? && f.epssPercentile.value <= TopPercentile(fs).value
  {
    if fs != [] {
      FiguresAreGreatest(fs[..|fs| - 1]);
      assert fs == fs[..|fs| - 1] + [fs[|fs| - 1]];
    }
  }

  // ---- The order of an entry's findings ----

  function CvssOrZero(f: Finding): real {
    match f.cvss case None => 0.0 case Some(score) => score
  }

  function AdvisoryOrEmpty(f: Finding): string {
    match f.advisory case None => "" case Some(id) => id
  }

  /** Findings stand by falling CVSS score, and by advisory where it is the same; the first is the entry's own. */
  lemma {:induction false} RelatedAreRanked(findings: seq<Finding>, lensFailures: seq<string>, repo: string,
      world: World, e: Entry)
    requires DistinctIds(findings) && e in Proposed(findings, lensFailures, repo, world).entries
    ensures e.related != [] && e.finding == e.related[0]
    ensures forall i | 0 < i < |e.related| :: var (a, b) := (e.related[i - 1], e.related[i]);
      CvssOrZero(a) > CvssOrZero(b) ||
        (CvssOrZero(a) == CvssOrZero(b) && !Less(AdvisoryOrEmpty(b), AdvisoryOrEmpty(a)))
    ensures |e.related| == |e.candidate.sourceIds|
  {
    hide Proposed, Less, Lookup, ById, WithEpss, IsUpgrade, DistinctIds, FixVerdict, Sort;
    var m, key := EntryHasUpgrade(findings, lensFailures, repo, world, e);
    RelatedBeforeIsAsymmetric();
    SortIsInOrder(RelatedBefore, Lookup(m.sourceIds, ById(findings)));
    SortKeepsElements(RelatedBefore, Lookup(m.sourceIds, ById(findings)));
    EveryIdIsLinked(m, key, findings, repo);
    assert e.candidate.sourceIds == m.sourceIds by { EntryKeepsIds(m, findings, world); }
  }

  lemma {:induction false} EntryKeepsIds(m: Candidate, findings: seq<Finding>, world: World)
    requires Related(m, findings) != []
    ensures EntryFor(m, findings, world).candidate.sourceIds == m.sourceIds
  {
  }

  lemma {:induction false} RelatedBeforeIsAsymmetric()
    ensures forall a, b | RelatedBefore(a, b) :: !RelatedBefore(b, a)
  {
    forall x, y | Less(x, y) ensures !Less(y, x) { LessAsymmetric(x, y); }
  }

  lemma {:induction false} EveryIdIsLinked(m: Candidate, key: GroupKey, findings: seq<Finding>, repo: string)
    requires DistinctIds(findings) && IsUpgrade(m, key, findings, repo)
    ensures |Lookup(m.sourceIds, ById(findings))| == |m.sourceIds|
  {
    hide Fixable, Older, ClassifyFixKind, LowestAbove;
    ByIdFinds(findings);
    forall id | id in m.sourceIds ensures id in ById(findings) {}
    AllLinked(m.sourceIds, ById(findings));
  }

  lemma {:induction false} AllLinked(ids: seq<string>, byId: map<string, Finding>)
    requires forall id | id in ids :: id in byId
    ensures |Lookup(ids, byId)| == |ids|
  {
    if ids != [] { AllLinked(ids[1..], byId); }
  }

  // ---- The verdict of an entry ----

  /** Trust in the upgrade is known and no flag was raised. */
  predicate TrustIsClean(world: World, c: Candidate) {
    var delta := world.trustDelta(c.package, c.fromVersion, c.toVersion);
    delta.Some? && (delta.value.safe || delta.value.flags == [])
  }

  /**
   The tier of an entry: declined exactly when the kill switch is on for its candidate, auto-merge exactly when it
   is off, the bump is not major, trust is clean and the project's tests verify.
   */
  lemma {:induction false} TierSays(findings: seq<Finding>, lensFailures: seq<string>, repo: string, world: World,
      e: Entry)
    requires DistinctIds(findings) && e in Proposed(findings, lensFailures, repo, world).entries
    ensures e.verdict.tier == Decline <==> world.killed(e.candidate)
    ensures e.verdict.tier == AutoMerge <==>
      && !world.killed(e.candidate) && e.candidate.kind != Major && TrustIsClean(world, e.candidate)
      && world.pipeline.testsVerify
  {
    hide Proposed, Related, WithEpss, IsUpgrade, ReviewVetoes, DistinctIds;
    var m, key := EntryHasUpgrade(findings, lensFailures, repo, world, e);
    VerdictIsOwn(m, findings, world);
    var c := e.candidate;
    var delta := world.trustDelta(c.package, c.fromVersion, c.toVersion);
    SortKeepsElements(Alphabetical, ReviewVetoes(c.kind, delta, Some(world.pipeline)));
    ReviewVetoesAreReviewSignals(c.kind, delta, Some(world.pipeline));
  }

  lemma {:induction false} VerdictIsOwn(m: Candidate, findings: seq<Finding>, world: World)
    requires Related(m, findings) != []
    ensures var e := EntryFor(m, findings, world); var c := e.candidate;
      && e.verdict == FixVerdict(world.killed(c), false, c.kind,
             world.trustDelta(c.package, c.fromVersion, c.toVersion), Some(world.pipeline))
      && c.package == m.package && c.fromVersion == m.fromVersion && c.toVersion == m.toVersion && c.kind == m.kind
  {
    hide FixVerdict;
  }

  /** The score and the signals of an entry that is not declined, and those of one that is. */
  lemma {:induction false} VerdictSays(findings: seq<Finding>, lensFailures: seq<string>, repo: string, world: World,
      e: Entry, s: Signal)
    requires DistinctIds(findings) && e in Proposed(findings, lensFailures, repo, world).entries
    ensures var c := e.candidate;
      var delta, pipeline := world.trustDelta(c.package, c.fromVersion, c.toVersion), Some(world.pipeline);
      if world.killed(c) then e.verdict == Verdict(Decline, 0, [KillSwitch])
      else
        && e.verdict.score ==
             (if Lost(c.kind, delta, pipeline) >= 99 then 1 else 100 - Lost(c.kind, delta, pipeline))
        && multiset(e.verdict.signals)[s] == TimesDue(c.kind, delta, pipeline, s)
  {
    hide Proposed, Related, WithEpss, IsUpgrade, DistinctIds, Lost, TimesDue, FixVerdict;
    var m, key := EntryHasUpgrade(findings, lensFailures, repo, world, e);
    VerdictIsOwn(m, findings, world);
    var c := e.candidate;
    var delta, pipeline := world.trustDelta(c.package, c.fromVersion, c.toVersion), Some(world.pipeline);
    ScoreIsWhatIsLeft(c.kind, delta, pipeline);
    SignalsAreDue(c.kind, delta, pipeline, s);
    StoppedIsDeclined(false, c.kind, delta, pipeline);
  }

  /** No AUTO_MERGE entry relates a finding whose own lowest fix would have been a major bump. */
  lemma {:induction false} AutoMergeEntriesHideNoMajorBump(findings: seq<Finding>, lensFailures: seq<string>,
      repo: string, world: World, e: Entry, f: Finding)
    requires DistinctIds(findings) && e in Proposed(findings, lensFailures, repo, world).entries
    requires e.verdict.tier == AutoMerge && f in e.related
    ensures Discover(f, repo).Found? && Discover(f, repo).candidate.kind != Major
  {
    hide Proposed, Related, EntryFor, DistinctIds, FixVerdict, ClassifyFixKind, IsUpgrade, Discover, TrustIsClean;
    var m, key := EntryHasUpgrade(findings, lensFailures, repo, world, e);
    TierSays(findings, lensFailures, repo, world, e);
    VerdictIsOwn(m, findings, world);
    RelatedIsMember(m, key, findings, repo, world, f);
    MergedKindIsNoWeaker(findings, repo, m, key, f);
  }

  lemma {:induction false} RelatedIsMember(m: Candidate, key: GroupKey, findings: seq<Finding>, repo: string,
      world: World, f: Finding)
    requires DistinctIds(findings) && IsUpgrade(m, key, findings, repo) && Related(m, findings) != []
    requires f in EntryFor(m, findings, world).related
    ensures Member(findings, repo, key, f) && Discover(f, repo).Found?
  {
    hide Related, WithEpss, DistinctIds, FixVerdict, ClassifyFixKind, IsUpgrade, LowestAbove;
    RelatedAreNamed(m, key, findings, repo);
    InUpgradeIffKeyed(findings, repo, m, key, f);
  }

  // ---- Skips, order and the rest of the report ----

  /** Some published fix is above the installed version. */
  predicate HasFix(f: Finding) {
    f.advisory.Some? && exists v | v in f.fixedVersions :: Older(f.version, v)
  }

  /** The skip a finding without a fix is due. */
  function SkipDue(f: Finding): Skip {
    NoFix(f.id, AdvisoryOrEmpty(f), f.package, f.version,
        if f.advisory.None? then NoAdvisoryId
        else if f.fixedVersions == [] then NoFixVersionInOsv
        else NoFixVersionGtCurrent)
  }

  lemma {:induction false} SkippedForSays(f: Finding, repo: string, s: Skip)
    ensures SkippedFor(f, repo, s) <==> !HasFix(f) && s == SkipDue(f)
  {
    hide LowestAbove, CompareVersions;
    LowestAboveIsLeast(f.version, f.fixedVersions);
  }

  /** The report's skips: one for each failure of a lens and one for each finding without a fix, failures first. */
  lemma {:induction false} SkipsSay(findings: seq<Finding>, lensFailures: seq<string>, repo: string, world: World)
    requires DistinctIds(findings)
    ensures var report := Proposed(findings, lensFailures, repo, world);
      && report.findings == findings
      && (forall s: Skip | s.NoFix? ::
            s in report.skipped <==> exists f | f in findings :: !HasFix(f) && s == SkipDue(f))
      && (forall reason :: LensFailure(reason) in report.skipped <==> reason in lensFailures)
      && |report.skipped| == |lensFailures| + CountNoFix(report.skipped)
      && |FixableIds(findings)| + CountNoFix(report.skipped) == |findings|
      && forall i | 0 < i < |report.skipped| :: NotAfter(report.skipped[i - 1], report.skipped[i])
  {
    hide SkippedFor, EntriesFor, Consolidated, RawCandidates, HasFix, SkipDue, DistinctIds, Sort, SkipBefore,
        FixableIds, DiscoverySkips, MissingSkips, CountNoFix;
    ReportSkips(findings, lensFailures, repo, world);
    forall f, s { SkippedForSays(f, repo, s); }
    PipelineEntriesAreSound(findings, repo, world);
    SkipsInOrder(findings, lensFailures, repo);
  }

  /** By kind, then by advisory or else package, then by package. */
  predicate NotAfter(a: Skip, b: Skip) {
    match (a, b)
    case (LensFailure(x), LensFailure(y)) => !Less(y, x)
    case (LensFailure(_), NoFix(_, _, _, _, _)) => true
    case (NoFix(_, _, _, _, _), LensFailure(_)) => false
    case (NoFix(_, x, p, _, _), NoFix(_, y, q, _, _)) =>
      var (v, w) := (if x != "" then x else p, if y != "" then y else q);
      !Less(w, v) && (v == w ==> !Less(q, p))
  }

  lemma {:induction false} NotAfterIsOrder(a: Skip, b: Skip)
    ensures !SkipBefore(b, a) <==> NotAfter(a, b)
  {
    LessIrreflexive("");
    LessIrreflexive(SkipKey(a).1);
  }

  lemma {:induction false} SkipsInOrder(findings: seq<Finding>, lensFailures: seq<string>, repo: string)
    ensures var failures := seq(|lensFailures|, i requires 0 <= i < |lensFailures| => LensFailure(lensFailures[i]));
      var skipped := Sort(SkipBefore, failures + DiscoverySkips(findings, repo) + []);
      && (forall reason :: LensFailure(reason) in skipped <==> reason in lensFailures)
      && |skipped| == |lensFailures| + CountNoFix(skipped)
      && forall i | 0 < i < |skipped| :: NotAfter(skipped[i - 1], skipped[i])
  {
    hide NotAfter, SkipBefore, CountNoFix, Sort, DiscoverySkips;
    var failures := seq(|lensFailures|, i requires 0 <= i < |lensFailures| => LensFailure(lensFailures[i]));
    var skips := DiscoverySkips(findings, repo);
    assert failures + skips + [] == failures + skips;
    SkipBeforeIsAsymmetric();
    SortIsInOrder(SkipBefore, failures + skips);
    SortKeepsElements(SkipBefore, failures + skips);
    var skipped := Sort(SkipBefore, failures + skips);
    forall i | 0 < i < |skipped| ensures NotAfter(skipped[i - 1], skipped[i]) {
      NotAfterIsOrder(skipped[i - 1], skipped[i]);
    }
    DiscoverySkipsAreNoFixes(findings, repo);
    CountNoFixSorted(failures + skips);
    CountNoFixAppend(failures, skips);
    LensFailuresAreNotCounted(failures);
    forall reason ensures LensFailure(reason) in skipped <==> reason in lensFailures {
      if reason in lensFailures {
        var i :| 0 <= i < |lensFailures| && lensFailures[i] == reason;
        assert failures[i] == LensFailure(reason);
      }
    }
  }

  lemma {:induction false} DiscoverySkipsAreNoFixes(findings: seq<Finding>, repo: string)
    ensures forall s | s in DiscoverySkips(findings, repo) :: s.NoFix?
    ensures CountNoFix(DiscoverySkips(findings, repo)) == |DiscoverySkips(findings, repo)|
  {
    hide Discover;
    if findings != [] {
      var init, last := findings[..|findings| - 1], findings[|findings| - 1];
      DiscoverySkipsAreNoFixes(init, repo);
      var more := if Discover(last, repo).Found? then [] else [NoFixFrom(last, Discover(last, repo).reason)];
      CountNoFixAppend(DiscoverySkips(init, repo), more);
    }
  }

  lemma {:induction false} SkipBeforeIsAsymmetric()
    ensures forall a, b | SkipBefore(a, b) :: !SkipBefore(b, a)
  {
    forall x, y | Less(x, y) ensures !Less(y, x) { LessAsymmetric(x, y); }
  }

  /** The entries stand in the order of the upgrades, one for each. */
  lemma {:induction false} EntriesFollowUpgrades(findings: seq<Finding>, lensFailures: seq<string>, repo: string,
      world: World)
    requires DistinctIds(findings)
    ensures var ups, entries :=
        Consolidated(RawCandidates(findings, repo), findings), Proposed(findings, lensFailures, repo, world).entries;
      && |entries| == |ups|
      && forall i | 0 <= i < |ups| :: var (c, m) := (entries[i].candidate, ups[i]);
           && c.package == m.package && c.fromVersion == m.fromVersion && c.toVersion == m.toVersion
           && c.kind == m.kind && c.sourceIds == m.sourceIds && c.repo == m.repo
  {
    hide EntryFor, Related, IsUpgrade, Consolidated, RawCandidates, GroupKeys, DistinctIds, DiscoverySkips, Sort,
        MissingSkips;
    ConsolidationEmitsOneUpgradePerNode(findings, repo);
    var raw := RawCandidates(findings, repo);
    var ups, keys := Consolidated(raw, findings), GroupKeys(raw, findings);
    forall i | 0 <= i < |ups| ensures Related(ups[i], findings) != [] {
      RelatedAreNamed(ups[i], keys[i], findings, repo);
    }
    RelatedBecomeEntries(ups, findings, world);
    forall i | 0 <= i < |ups| ensures CandidateKept(ups[i], EntryFor(ups[i], findings, world).candidate) {
      EntryKeepsCandidate(ups[i], findings, world);
    }
  }

  predicate CandidateKept(m: Candidate, c: Candidate) {
    && c.package == m.package && c.fromVersion == m.fromVersion && c.toVersion == m.toVersion
    && c.kind == m.kind && c.sourceIds == m.sourceIds && c.repo == m.repo
  }

  lemma {:induction false} EntryKeepsCandidate(m: Candidate, findings: seq<Finding>, world: World)
    requires Related(m, findings) != []
    ensures CandidateKept(m, EntryFor(m, findings, world).candidate)
  {
    hide FixVerdict;
  }
}
