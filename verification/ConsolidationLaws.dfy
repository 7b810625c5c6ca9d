/** What consolidation does to the output of fix discovery. */
module ConsolidationLaws {
  import opened Basics
  import opened Sorting
  import opened Versions
  import opened FixConfidence
  import opened Findings
  import opened Consolidation

  /** The upgrade a finding belongs to: its node, its ecosystem, the repository. */
  function FindingKey(f: Finding, repo: string): GroupKey {
    GroupKey(f.package, f.ecosystem, f.version, repo)
  }

  ghost predicate Member(findings: seq<Finding>, repo: string, key: GroupKey, f: Finding) {
    f in findings && Fixable(f) && FindingKey(f, repo) == key
  }

  ghost predicate HasMember(findings: seq<Finding>, repo: string, key: GroupKey) {
    exists f :: Member(findings, repo, key, f)
  }

  function Target(f: Finding): string
    requires Fixable(f)
  {
    LowestAbove(f.version, f.fixedVersions).value
  }

  /** `m` is the one upgrade that stands for every member of the group. */
  ghost predicate IsUpgrade(m: Candidate, key: GroupKey, findings: seq<Finding>, repo: string) {
    && m.package == key.package && m.fromVersion == key.fromVersion && m.repo == key.repo
    && Distinct(m.sourceIds) && InOrder(Less, m.sourceIds)
    && (forall f | f in findings :: f.id in m.sourceIds <==> Member(findings, repo, key, f))
    && (forall id | id in m.sourceIds :: exists f | f in findings :: f.id == id)
    && (exists f :: Member(findings, repo, key, f) && m.toVersion == Target(f))
    && (forall f | Member(findings, repo, key, f) :: !Older(m.toVersion, Target(f)))
    && m.kind == ClassifyFixKind(key.fromVersion, m.toVersion)
  }

  // ---- Discovery's candidates and their groups ----

  lemma {:induction false} FindOwnFinding(findings: seq<Finding>, f: Finding)
    requires DistinctIds(findings) && f in findings
    ensures FindFinding([f.id], findings) == Some(f)
  {
    if findings[0].id == f.id {
      SameIdSameFinding(findings, findings[0], f);
    } else {
      assert findings == [findings[0]] + findings[1..];
      assert DistinctIds(findings[1..]);
      FindOwnFinding(findings[1..], f);
    }
  }

  lemma {:induction false} GroupHoldsMembers(findings: seq<Finding>, repo: string, key: GroupKey, c: Candidate)
    requires DistinctIds(findings)
    ensures c in Group(RawCandidates(findings, repo), findings, key) <==>
      exists f :: Member(findings, repo, key, f) && Discover(f, repo) == Found(c)
  {
    hide LowestAbove, ClassifyFixKind, Group;
    var raw := RawCandidates(findings, repo);
    GroupIsFilter(raw, findings, key, c);
    RawCandidatesAre(findings, repo, c);
    if c in raw {
      var f :| f in findings && Discover(f, repo) == Found(c);
      FindOwnFinding(findings, f);
      assert KeyOf(c, findings) == FindingKey(f, repo);
      if g :| Member(findings, repo, key, g) && Discover(g, repo) == Found(c) {
        assert c.sourceIds[0] == g.id == f.id;
        SameIdSameFinding(findings, f, g);
      }
    }
  }

  // ---- Targets and ids within a group ----

  lemma {:induction false} BestIsHighest(best: Candidate, rest: seq<Candidate>)
    requires ParseTriplet(best.toVersion).Some? && forall c | c in rest :: ParseTriplet(c.toVersion).Some?
    ensures var b := BestFrom(best, rest);
      !Older(b.toVersion, best.toVersion) && forall c | c in rest :: !Older(b.toVersion, c.toVersion)
    decreases |rest|
  {
    if rest != [] {
      var cmp := CompareVersions(rest[0].toVersion, best.toVersion);
      var next := if cmp.value > 0 then rest[0] else best;
      BestIsHighest(next, rest[1..]);
      BestIsFromGroup(next, rest[1..]);
      var b := BestFrom(best, rest);
      forall c | c in rest ensures !Older(b.toVersion, c.toVersion) { assert c == rest[0] || c in rest[1..]; }
    }
  }

  /** Of equally high targets the best is the first. */
  lemma {:induction false} BestIsFirst(best: Candidate, rest: seq<Candidate>) returns (k: nat)
    requires ParseTriplet(best.toVersion).Some? && forall c | c in rest :: ParseTriplet(c.toVersion).Some?
    ensures var all := [best] + rest;
      && k < |all| && BestFrom(best, rest) == all[k]
      && forall j | 0 <= j < k :: Older(all[j].toVersion, all[k].toVersion)
    decreases |rest|
  {
    hide ParseTriplet;
    k := 0;
    if rest != [] {
      assert rest == [rest[0]] + rest[1..] && rest[0] in rest;
      NewerIsOlder(best.toVersion, rest[0].toVersion);
      var newer := Older(best.toVersion, rest[0].toVersion);
      var next := if newer then rest[0] else best;
      var k' := BestIsFirst(next, rest[1..]);
      var all, inner, b := [best] + rest, [next] + rest[1..], BestFrom(best, rest);
      BestIsHighest(next, rest[1..]);
      k := if newer || k' > 0 then k' + 1 else 0;
      assert b == inner[k'] && (k > 0 ==> all[k] == inner[k'] || k' == 0);
      forall j | 0 <= j < k ensures Older(all[j].toVersion, b.toVersion) {
        if j > 1 || (j == 1 && newer) {
          assert all[j] == inner[j - 1];
        } else if newer {
          NotNewerThanOldest(best.toVersion, rest[0].toVersion, b.toVersion);
        } else {
          assert Older(inner[0].toVersion, b.toVersion);
          if j == 1 { NotNewerThanLow(rest[0].toVersion, best.toVersion, b.toVersion); }
        }
      }
    }
  }

  lemma {:induction false} NewerIsOlder(best: string, other: string)
    requires ParseTriplet(best).Some? && ParseTriplet(other).Some?
    ensures CompareVersions(other, best).Some? && (CompareVersions(other, best).value > 0 <==> Older(best, other))
  {
  }

  lemma {:induction false} NotNewerThanOldest(low: string, mid: string, top: string)
    requires Older(low, mid) && !Older(top, mid) && ParseTriplet(top).Some?
    ensures Older(low, top)
  {
  }

  lemma {:induction false} NotNewerThanLow(low: string, mid: string, top: string)
    requires !Older(mid, low) && Older(mid, top) && ParseTriplet(low).Some?
    ensures Older(low, top)
  {
  }

  lemma {:induction false} AllIdsAre(group: seq<Candidate>, id: string)
    ensures id in AllIds(group) <==> exists c | c in group :: id in c.sourceIds
  {
    if group != [] {
      AllIdsAre(group[1..], id);
      assert group == [group[0]] + group[1..];
    }
  }

  lemma {:induction false} SortedIdsAre(ids: seq<string>)
    ensures Distinct(SortedIds(ids)) && InOrder(Less, SortedIds(ids))
    ensures forall id :: id in SortedIds(ids) <==> id in ids
  {
    forall a, b | Less(a, b) ensures !Less(b, a) { LessAsymmetric(a, b); }
    SortIsInOrder(Less, Dedup(ids));
    DedupIsDistinct(ids);
    SortKeepsDistinct(Less, Dedup(ids));
    SortKeepsElements(Less, Dedup(ids));
  }

  lemma {:induction false} FindingsForAre(ids: seq<string>, findings: seq<Finding>, f: Finding)
    ensures f in FindingsFor(ids, findings) <==> f in findings && f.id in ids
  {
    if findings != [] {
      FindingsForAre(ids, findings[1..], f);
      assert findings == [findings[0]] + findings[1..];
    }
  }

  /** The group's candidates are those of its member findings. */
  ghost predicate IsGroup(group: seq<Candidate>, findings: seq<Finding>, repo: string, key: GroupKey) {
    && group != []
    && forall c :: c in group <==> exists f :: Member(findings, repo, key, f) && Discover(f, repo) == Found(c)
  }

  lemma {:induction false} GroupIds(group: seq<Candidate>, findings: seq<Finding>, repo: string, key: GroupKey)
    requires DistinctIds(findings) && IsGroup(group, findings, repo, key)
    ensures forall f | f in findings :: f.id in AllIds(group) <==> Member(findings, repo, key, f)
    ensures forall id | id in AllIds(group) :: exists f | f in findings :: f.id == id
  {
    forall id | id in AllIds(group)
      ensures exists f :: Member(findings, repo, key, f) && f.id == id
    {
      AllIdsAre(group, id);
      var c :| c in group && id in c.sourceIds;
      var f :| Member(findings, repo, key, f) && Discover(f, repo) == Found(c);
    }
    forall f | f in findings ensures f.id in AllIds(group) <==> Member(findings, repo, key, f) {
      AllIdsAre(group, f.id);
      if Member(findings, repo, key, f) { assert Discover(f, repo).candidate in group; }
      forall g | Member(findings, repo, key, g) && g.id == f.id ensures g == f { SameIdSameFinding(findings, f, g); }
    }
  }

  lemma {:induction false} GroupTargets(group: seq<Candidate>, findings: seq<Finding>, repo: string, key: GroupKey)
    requires IsGroup(group, findings, repo, key)
    ensures var best := BestFrom(group[0], group[1..]);
      && best in group && best.fromVersion == key.fromVersion
      && (exists f :: Member(findings, repo, key, f) && best.toVersion == Target(f))
      && (forall f | Member(findings, repo, key, f) :: !Older(best.toVersion, Target(f)))
      && ParseTriplet(best.toVersion).Some?
  {
    forall c | c in group ensures ParseTriplet(c.toVersion).Some? {
      var f :| Member(findings, repo, key, f) && Discover(f, repo) == Found(c);
      LowestAboveIsLeast(f.version, f.fixedVersions);
    }
    BestIsHighest(group[0], group[1..]);
    BestIsFromGroup(group[0], group[1..]);
    var best := BestFrom(group[0], group[1..]);
    assert group == [group[0]] + group[1..];
    forall f | Member(findings, repo, key, f) ensures !Older(best.toVersion, Target(f)) {
      assert Discover(f, repo).candidate in group;
    }
  }

  /** The fallback branch is dead: the group's best target satisfies every related finding. */
  lemma {:induction false} BestSatisfiesAll(group: seq<Candidate>, findings: seq<Finding>, repo: string, key: GroupKey)
    requires DistinctIds(findings) && IsGroup(group, findings, repo, key)
    ensures forall f | f in FindingsFor(AllIds(group), findings) ::
      Satisfied(f, group[0].fromVersion, BestFrom(group[0], group[1..]).toVersion)
  {
    hide BestFrom, AllIds, FindingsFor, DistinctIds, LowestAbove;
    var target := BestFrom(group[0], group[1..]).toVersion;
    GroupTargets(group, findings, repo, key);
    GroupIds(group, findings, repo, key);
    assert group[0] in group;
    forall f | f in FindingsFor(AllIds(group), findings) ensures Satisfied(f, group[0].fromVersion, target) {
      FindingsForAre(AllIds(group), findings, f);
      assert Member(findings, repo, key, f);
      LowestAboveIsLeast(f.version, f.fixedVersions);
    }
  }

  /** A group of one is passed on as it is. */
  lemma {:induction false} SingleIsUpgrade(c: Candidate, findings: seq<Finding>, repo: string, key: GroupKey)
    requires DistinctIds(findings) && IsGroup([c], findings, repo, key)
    ensures c.sourceIds != [] && IsUpgrade(c.(sourceIds := [c.sourceIds[0]]), key, findings, repo)
  {
    hide DistinctIds, AllIds, Older, ClassifyFixKind, LowestAbove;
    GroupIds([c], findings, repo, key);
    GroupTargets([c], findings, repo, key);
    assert c in [c];
    var f :| Member(findings, repo, key, f) && Discover(f, repo) == Found(c);
    assert c.sourceIds == [f.id] && AllIds([c]) == [f.id] by { OneIdEach(c, f.id); }
  }

  lemma {:induction false} OneIdEach(c: Candidate, id: string)
    requires c.sourceIds == [id]
    ensures AllIds([c]) == [id]
  {
    assert AllIds([c]) == [id] + AllIds([]);
  }

  /** A larger group becomes its best target with everybody's ids. */
  lemma {:induction false} MergeIsUpgrade(group: seq<Candidate>, base: Candidate, findings: seq<Finding>,
      repo: string, key: GroupKey)
    requires DistinctIds(findings) && IsGroup(group, findings, repo, key) && base in group
    ensures IsUpgrade(Merge(key.package, base, BestFrom(group[0], group[1..]).toVersion, group), key, findings, repo)
  {
    hide DistinctIds, AllIds, Older, ClassifyFixKind, BestFrom, SortedIds, MaxEpss, MaxEpssPercentile, Fixable,
        LowestAbove;
    GroupIds(group, findings, repo, key);
    GroupTargets(group, findings, repo, key);
    SortedIdsAre(AllIds(group));
    var f :| Member(findings, repo, key, f) && Discover(f, repo) == Found(base);
  }

  lemma {:induction false} OneGroupOneUpgrade(group: seq<Candidate>, findings: seq<Finding>, repo: string,
      key: GroupKey)
    requires DistinctIds(findings) && IsGroup(group, findings, repo, key)
    ensures |ConsolidateGroup(key.package, group, findings)| == 1
    ensures IsUpgrade(ConsolidateGroup(key.package, group, findings)[0], key, findings, repo)
  {
    hide DistinctIds, IsUpgrade, Satisfied, FindingsFor, FirstAt, BestFrom, Merge, AllIds, Discover;
    if |group| == 1 {
      assert group == [group[0]];
      SingleIsUpgrade(group[0], findings, repo, key);
    } else {
      BestSatisfiesAll(group, findings, repo, key);
      GroupTargets(group, findings, repo, key);
      var target := BestFrom(group[0], group[1..]).toVersion;
      FirstAtFindsTarget(group, target);
      MergeIsUpgrade(group, FirstAt(group, target).value, findings, repo, key);
    }
  }

  // ---- The whole list ----

  /** One upgrade per key, in the order of the keys. */
  ghost predicate AreUpgrades(out: seq<Candidate>, keys: seq<GroupKey>, findings: seq<Finding>, repo: string) {
    && |out| == |keys|
    && forall i | 0 <= i < |keys| :: IsUpgrade(out[i], keys[i], findings, repo)
  }

  lemma {:induction false} AppendUpgrade(out: seq<Candidate>, keys: seq<GroupKey>, one: seq<Candidate>,
      findings: seq<Finding>, repo: string)
    requires keys != [] && AreUpgrades(out, keys[..|keys| - 1], findings, repo)
    requires |one| == 1 && IsUpgrade(one[0], keys[|keys| - 1], findings, repo)
    ensures AreUpgrades(out + one, keys, findings, repo)
  {
    forall i | 0 <= i < |keys| ensures IsUpgrade((out + one)[i], keys[i], findings, repo) {
      if i < |keys| - 1 { assert keys[i] == keys[..|keys| - 1][i]; }
    }
  }

  lemma {:induction false} KeysBecomeUpgrades(keys: seq<GroupKey>, findings: seq<Finding>, repo: string)
    requires DistinctIds(findings)
    requires forall k | k in keys :: HasMember(findings, repo, k)
    ensures AreUpgrades(ConsolidateKeys(keys, RawCandidates(findings, repo), findings), keys, findings, repo)
  {
    if keys != [] {
      var raw := RawCandidates(findings, repo);
      var init, k := keys[..|keys| - 1], keys[|keys| - 1];
      KeysBecomeUpgrades(init, findings, repo);
      KeyBecomesUpgrade(k, findings, repo);
      AppendUpgrade(ConsolidateKeys(init, raw, findings), keys,
          ConsolidateGroup(k.package, Group(raw, findings, k), findings),
          findings, repo);
    }
  }

  lemma {:induction false} GroupOfKey(key: GroupKey, findings: seq<Finding>, repo: string)
    requires DistinctIds(findings)
    ensures Group(RawCandidates(findings, repo), findings, key) != [] <==> HasMember(findings, repo, key)
    ensures Group(RawCandidates(findings, repo), findings, key) != [] ==>
      IsGroup(Group(RawCandidates(findings, repo), findings, key), findings, repo, key)
  {
    var group := Group(RawCandidates(findings, repo), findings, key);
    forall c { GroupHoldsMembers(findings, repo, key, c); }
    if HasMember(findings, repo, key) {
      var f :| Member(findings, repo, key, f);
      assert Discover(f, repo) == Found(Discover(f, repo).candidate);
    }
    if group != [] { assert group[0] in group; }
  }

  lemma {:induction false} KeyBecomesUpgrade(key: GroupKey, findings: seq<Finding>, repo: string)
    requires DistinctIds(findings) && HasMember(findings, repo, key)
    ensures var out := ConsolidateGroup(key.package, Group(RawCandidates(findings, repo), findings, key), findings);
      |out| == 1 && IsUpgrade(out[0], key, findings, repo)
  {
    GroupOfKey(key, findings, repo);
    OneGroupOneUpgrade(Group(RawCandidates(findings, repo), findings, key), findings, repo, key);
  }

  /** By package, then ecosystem, then version, then repository. */
  predicate NotBehind(a: GroupKey, b: GroupKey) {
    && !Less(b.package, a.package)
    && (a.package == b.package ==> !Less(b.ecosystem, a.ecosystem))
    && (a.package == b.package && a.ecosystem == b.ecosystem ==> !Less(b.fromVersion, a.fromVersion))
    && (a.package == b.package && a.ecosystem == b.ecosystem && a.fromVersion == b.fromVersion ==>
          !Less(b.repo, a.repo))
  }

  lemma {:induction false} KeysCompare(a: GroupKey, b: GroupKey)
    requires !KeyBefore(b, a)
    ensures NotBehind(a, b)
  {
    LessIrreflexive(a.package);
    LessIrreflexive(a.ecosystem);
    LessIrreflexive(a.fromVersion);
  }

  /**
   Consolidating discovery's output emits exactly one upgrade per (package, ecosystem, version,
   repository) with a fixable finding, in sorted order, and each is as IsUpgrade says: no finding id
   lost or repeated, and the target the highest of the group's lowest fixes.
   */
  lemma {:induction false} ConsolidationEmitsOneUpgradePerNode(findings: seq<Finding>, repo: string)
    requires DistinctIds(findings)
    ensures var raw := RawCandidates(findings, repo);
      var keys := GroupKeys(raw, findings);
      && Distinct(keys) && (forall i | 0 < i < |keys| :: NotBehind(keys[i - 1], keys[i]))
      && (forall k :: k in keys <==> HasMember(findings, repo, k))
      && AreUpgrades(Consolidated(raw, findings), keys, findings, repo)
  {
    var raw := RawCandidates(findings, repo);
    var keys := GroupKeys(raw, findings);
    DedupIsDistinct(KeysOf(raw, findings));
    SortKeepsDistinct(KeyBefore, Dedup(KeysOf(raw, findings)));
    KeyBeforeIsAsymmetric();
    SortIsInOrder(KeyBefore, Dedup(KeysOf(raw, findings)));
    forall i | 0 < i < |keys| ensures NotBehind(keys[i - 1], keys[i]) { KeysCompare(keys[i - 1], keys[i]); }
    forall k ensures k in keys <==> HasMember(findings, repo, k) {
      GroupKeyIsGrouped(raw, findings, k);
      GroupOfKey(k, findings, repo);
    }
    KeysBecomeUpgrades(keys, findings, repo);
  }

  lemma {:induction false} InUpgradeIffKeyed(findings: seq<Finding>, repo: string, m: Candidate, key: GroupKey,
      f: Finding)
    requires IsUpgrade(m, key, findings, repo) && f in findings
    ensures f.id in m.sourceIds <==> Fixable(f) && FindingKey(f, repo) == key
  {}

  /** Every fixable finding is in exactly one upgrade, and no other finding is in any. */
  lemma {:induction false} EachFindingInExactlyOneUpgrade(findings: seq<Finding>, repo: string, f: Finding)
    requires DistinctIds(findings) && f in findings
    ensures var out := Consolidated(RawCandidates(findings, repo), findings);
      && (Fixable(f) <==> exists i | 0 <= i < |out| :: f.id in out[i].sourceIds)
      && forall i, j | 0 <= i < |out| && 0 <= j < |out| && f.id in out[i].sourceIds && f.id in out[j].sourceIds ::
          i == j
  {
    ConsolidationEmitsOneUpgradePerNode(findings, repo);
    var raw := RawCandidates(findings, repo);
    var out, keys := Consolidated(raw, findings), GroupKeys(raw, findings);
    forall i | 0 <= i < |out| ensures f.id in out[i].sourceIds <==> Fixable(f) && keys[i] == FindingKey(f, repo) {
      InUpgradeIffKeyed(findings, repo, out[i], keys[i], f);
    }
    if Fixable(f) {
      assert Member(findings, repo, FindingKey(f, repo), f);
      assert FindingKey(f, repo) in keys;
    }
  }

  /** The merged upgrade is at least as severe a change as any candidate it replaces. */
  lemma {:induction false} MergedKindIsNoWeaker(findings: seq<Finding>, repo: string, m: Candidate, key: GroupKey,
      f: Finding)
    requires IsUpgrade(m, key, findings, repo) && Member(findings, repo, key, f)
    ensures KindRank(Discover(f, repo).candidate.kind) <= KindRank(m.kind)
  {
    LowestAboveIsLeast(f.version, f.fixedVersions);
    var g :| Member(findings, repo, key, g) && m.toVersion == Target(g);
    LowestAboveIsLeast(g.version, g.fixedVersions);
    CompareIsTotalPreorder(Target(f), m.toVersion, m.toVersion);
    FurtherIsNoLesserKind(f.version, Target(f), m.toVersion);
  }

  /** So an auto-merge verdict on the merged upgrade means no replaced candidate was a major bump. */
  lemma {:induction false} AutoMergeMeansNoMajorBump(findings: seq<Finding>, repo: string, m: Candidate,
      key: GroupKey, f: Finding, killed: bool, veto: bool, delta: Option<TrustDelta>, pipeline: Option<Pipeline>)
    requires IsUpgrade(m, key, findings, repo) && Member(findings, repo, key, f)
    requires FixVerdict(killed, veto, m.kind, delta, pipeline).tier == AutoMerge
    ensures Discover(f, repo).candidate.kind != Major
  {
    MergedKindIsNoWeaker(findings, repo, m, key, f);
    ReviewVetoesAreReviewSignals(m.kind, delta, pipeline);
  }

  /** Distinct upgrades have distinct candidate ids: their finding ids are disjoint and non-empty. */
  lemma {:induction false} UpgradeIdsAreDistinct(findings: seq<Finding>, repo: string, i: nat, j: nat)
    requires DistinctIds(findings)
    requires i < |Consolidated(RawCandidates(findings, repo), findings)|
    requires j < |Consolidated(RawCandidates(findings, repo), findings)|
    requires var out := Consolidated(RawCandidates(findings, repo), findings); IdOf(out[i]) == IdOf(out[j])
    ensures i == j
  {
    ConsolidationEmitsOneUpgradePerNode(findings, repo);
    var raw := RawCandidates(findings, repo);
    var out, keys := Consolidated(raw, findings), GroupKeys(raw, findings);
    var f :| Member(findings, repo, keys[i], f);
    InUpgradeIffKeyed(findings, repo, out[i], keys[i], f);
    assert f.id in multiset(out[i].sourceIds) && f.id in multiset(out[j].sourceIds);
    EachFindingInExactlyOneUpgrade(findings, repo, f);
  }
}
