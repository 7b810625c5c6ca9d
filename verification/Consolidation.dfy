/** One upgrade per installed node out of one candidate per finding (arguss/engine/consolidate.py). */
module Consolidation {
  import opened Basics
  import opened Sorting
  import opened Versions
  import opened Findings

  datatype GroupKey = GroupKey(package: string, ecosystem: string, fromVersion: string, repo: string)

  /** Tuple order, as `sorted(by_package.items())` uses it. */
  predicate KeyBefore(a: GroupKey, b: GroupKey) {
    if a.package != b.package then Less(a.package, b.package)
    else if a.ecosystem != b.ecosystem then Less(a.ecosystem, b.ecosystem)
    else if a.fromVersion != b.fromVersion then Less(a.fromVersion, b.fromVersion)
    else Less(a.repo, b.repo)
  }

  lemma {:induction false} KeyBeforeIsAsymmetric()
    ensures forall a, b | KeyBefore(a, b) :: !KeyBefore(b, a)
  {
    forall x, y | Less(x, y) ensures !Less(y, x) { LessAsymmetric(x, y); }
  }

  // ---- Grouping ----

  /** `_find_finding` */
  function FindFinding(ids: seq<string>, findings: seq<Finding>): Option<Finding> {
    if findings == [] then None
    else if findings[0].id in ids then Some(findings[0])
    else FindFinding(ids, findings[1..])
  }

  function KeyOf(c: Candidate, findings: seq<Finding>): GroupKey {
    var f := FindFinding(c.sourceIds, findings);
    GroupKey(c.package, if f.Some? then f.value.ecosystem else "npm", c.fromVersion, c.repo)
  }

  function KeysOf(cands: seq<Candidate>, findings: seq<Finding>): seq<GroupKey> {
    if cands == [] then [] else KeysOf(cands[..|cands| - 1], findings) + [KeyOf(cands[|cands| - 1], findings)]
  }

  /** Candidates with this key, in order of arrival. */
  function Group(cands: seq<Candidate>, findings: seq<Finding>, key: GroupKey): seq<Candidate> {
    if cands == [] then []
    else
      var c := cands[|cands| - 1];
      Group(cands[..|cands| - 1], findings, key) + (if KeyOf(c, findings) == key then [c] else [])
  }

  // ---- One group ----

  /** `_max_target`: the loop's current best against the rest. */
  function BestFrom(best: Candidate, rest: seq<Candidate>): Candidate
    decreases |rest|
  {
    if rest == [] then best
    else
      var cmp := CompareVersions(rest[0].toVersion, best.toVersion);
      BestFrom(if (cmp.Some? && cmp.value > 0) || (cmp.None? && Less(best.toVersion, rest[0].toVersion))
          then rest[0] else best, rest[1..])
  }

  method MaxTarget(cands: seq<Candidate>) returns (target: Option<string>)
    ensures target == if cands == [] then None else Some(BestFrom(cands[0], cands[1..]).toVersion)
  {
    var best: Option<Candidate> := None;
    var i := 0;
    while i < |cands|
      invariant 0 <= i <= |cands| && (best.None? <==> i == 0)
      invariant best.Some? ==> BestFrom(cands[0], cands[1..]) == BestFrom(best.value, cands[i..])
    {
      assert i > 0 ==> cands[i..][1..] == cands[i + 1..];
      if best.None? {
        best := Some(cands[i]);
      } else {
        var cmp := CompareVersions(cands[i].toVersion, best.value.toVersion);
        if (cmp.Some? && cmp.value > 0) || (cmp.None? && Less(best.value.toVersion, cands[i].toVersion)) {
          best := Some(cands[i]);
        }
      }
      i := i + 1;
    }
    target := if best.Some? then Some(best.value.toVersion) else None;
  }

  function AllIds(group: seq<Candidate>): seq<string> {
    if group == [] then [] else group[0].sourceIds + AllIds(group[1..])
  }

  /** `tuple(sorted({...}))` */
  function SortedIds(ids: seq<string>): seq<string> {
    Sort(Less, Dedup(ids))
  }

  /** `_findings_for_candidates` */
  function FindingsFor(ids: seq<string>, findings: seq<Finding>): seq<Finding> {
    if findings == [] then []
    else (if findings[0].id in ids then [findings[0]] else []) + FindingsFor(ids, findings[1..])
  }

  /** One finding's share of `_max_target_satisfies_all`. */
  predicate Satisfied(f: Finding, from: string, target: string) {
    && f.fixedVersions != []
    && var required := LowestAbove(from, f.fixedVersions);
       required.Some?
       && var cmp := CompareVersions(target, required.value);
          if cmp.Some? then cmp.value >= 0 else !Less(target, required.value)
  }

  method MaxTargetSatisfiesAll(related: seq<Finding>, from: string, target: string) returns (ok: bool)
    ensures ok <==> forall f | f in related :: Satisfied(f, from, target)
  {
    hide CompareVersions, LowestAbove, Less;
    var i := 0;
    while i < |related|
      invariant 0 <= i <= |related|
      invariant forall f | f in related[..i] :: Satisfied(f, from, target)
    {
      var f := related[i];
      assert f in related;
      if f.fixedVersions == [] { return false; }
      var required := PickLowestVersionGt(from, f.fixedVersions);
      if required.None? { return false; }
      var cmp := CompareVersions(target, required.value);
      if cmp.Some? && cmp.value < 0 { return false; }
      if cmp.None? && Less(target, required.value) { return false; }
      assert related[..i + 1] == related[..i] + [f];
      i := i + 1;
    }
    assert related[..i] == related;
    ok := true;
  }

  function FirstAt(group: seq<Candidate>, target: string): Option<Candidate> {
    if group == [] then None
    else if group[0].toVersion == target then Some(group[0])
    else FirstAt(group[1..], target)
  }

  function MaxOrNone(a: Option<real>, b: Option<real>): Option<real> {
    if a.None? then b else if b.None? then a else if a.value < b.value then b else a
  }

  /** `m` is the greatest of the values present, or absent when all are. */
  ghost predicate IsGreatest(m: Option<real>, values: seq<Option<real>>) {
    && (m.None? <==> forall v | v in values :: v.None?)
    && (m.Some? ==> m in values && forall v | v in values && v.Some? :: v.value <= m.value)
  }

  lemma {:induction false} GreatestGrows(m: Option<real>, values: seq<Option<real>>, v: Option<real>)
    requires IsGreatest(m, values)
    ensures IsGreatest(MaxOrNone(m, v), values + [v])
  {
    assert v in values + [v];
    assert forall w :: w in values ==> w in values + [v];
  }

  function MaxEpss(group: seq<Candidate>): Option<real> {
    if group == [] then None else MaxOrNone(group[0].maxEpss, MaxEpss(group[1..]))
  }

  function MaxEpssPercentile(group: seq<Candidate>): Option<real> {
    if group == [] then None else MaxOrNone(group[0].maxEpssPercentile, MaxEpssPercentile(group[1..]))
  }

  function Merge(package: string, base: Candidate, target: string, group: seq<Candidate>): Candidate {
    Candidate(package, base.fromVersion, target, ClassifyFixKind(base.fromVersion, target),
        SortedIds(AllIds(group)), base.repo, base.trust, MaxEpss(group), MaxEpssPercentile(group),
        exists c | c in group :: c.hasKev)
  }

  /** What one group becomes: the loop body of `consolidate_candidates`. */
  function ConsolidateGroup(package: string, group: seq<Candidate>, findings: seq<Finding>): seq<Candidate> {
    if group == [] then []
    else if |group| == 1 then
      var ids := group[0].sourceIds;
      [group[0].(sourceIds := if ids != [] then [ids[0]] else [])]
    else
      var target := BestFrom(group[0], group[1..]).toVersion;
      var related := FindingsFor(AllIds(group), findings);
      if !(forall f | f in related :: Satisfied(f, group[0].fromVersion, target)) then group
      else
        var base := FirstAt(group, target);
        if base.None? then [] else [Merge(package, base.value, target, group)]
  }

  function ConsolidateKeys(keys: seq<GroupKey>, cands: seq<Candidate>, findings: seq<Finding>): seq<Candidate> {
    if keys == [] then []
    else ConsolidateKeys(keys[..|keys| - 1], cands, findings)
         + ConsolidateGroup(keys[|keys| - 1].package, Group(cands, findings, keys[|keys| - 1]), findings)
  }

  function GroupKeys(cands: seq<Candidate>, findings: seq<Finding>): seq<GroupKey> {
    Sort(KeyBefore, Dedup(KeysOf(cands, findings)))
  }

  function Consolidated(cands: seq<Candidate>, findings: seq<Finding>): seq<Candidate> {
    ConsolidateKeys(GroupKeys(cands, findings), cands, findings)
  }

  lemma {:induction false} KeysOfAre(cands: seq<Candidate>, findings: seq<Finding>, key: GroupKey)
    ensures key in KeysOf(cands, findings) <==> Group(cands, findings, key) != []
  {
    if cands != [] { KeysOfAre(cands[..|cands| - 1], findings, key); }
  }

  lemma {:induction false} GroupIsFilter(cands: seq<Candidate>, findings: seq<Finding>, key: GroupKey, c: Candidate)
    ensures c in Group(cands, findings, key) <==> c in cands && KeyOf(c, findings) == key
  {
    if cands != [] {
      GroupIsFilter(cands[..|cands| - 1], findings, key, c);
      assert cands == cands[..|cands| - 1] + [cands[|cands| - 1]];
    }
  }

  lemma {:induction false} FirstAtFindsTarget(group: seq<Candidate>, target: string)
    ensures FirstAt(group, target).Some? <==> exists c | c in group :: c.toVersion == target
    ensures FirstAt(group, target).Some? ==> FirstAt(group, target).value in group
    ensures FirstAt(group, target).Some? ==> FirstAt(group, target).value.toVersion == target
  {
    if group != [] {
      FirstAtFindsTarget(group[1..], target);
      assert group == [group[0]] + group[1..];
    }
  }

  lemma {:induction false} BestIsFromGroup(best: Candidate, rest: seq<Candidate>)
    ensures BestFrom(best, rest) == best || BestFrom(best, rest) in rest
    decreases |rest|
  {
    if rest != [] {
      var cmp := CompareVersions(rest[0].toVersion, best.toVersion);
      var next := if (cmp.Some? && cmp.value > 0) || (cmp.None? && Less(best.toVersion, rest[0].toVersion))
                  then rest[0] else best;
      BestIsFromGroup(next, rest[1..]);
      assert rest == [rest[0]] + rest[1..];
    }
  }

  /** `by_package` and its keys in order of first appearance describe these candidates. */
  ghost predicate Grouping(byPackage: map<GroupKey, seq<Candidate>>, order: seq<GroupKey>, cands: seq<Candidate>,
      findings: seq<Finding>) {
    && order == Dedup(KeysOf(cands, findings))
    && (forall k :: k in byPackage <==> k in order)
    && forall k | k in byPackage :: byPackage[k] == Group(cands, findings, k)
  }

  lemma {:induction false} GroupGrows(cands: seq<Candidate>, findings: seq<Finding>, c: Candidate, k: GroupKey)
    ensures Group(cands + [c], findings, k)
         == Group(cands, findings, k) + (if k == KeyOf(c, findings) then [c] else [])
  {
    hide KeyOf;
    assert (cands + [c])[..|cands|] == cands;
  }

  lemma {:induction false} OrderGrows(cands: seq<Candidate>, findings: seq<Finding>, c: Candidate)
    ensures var order, key := Dedup(KeysOf(cands, findings)), KeyOf(c, findings);
      Dedup(KeysOf(cands + [c], findings)) == if key in order then order else order + [key]
  {
    hide KeyOf;
    var key, keys := KeyOf(c, findings), KeysOf(cands, findings);
    assert (cands + [c])[..|cands|] == cands;
    assert KeysOf(cands + [c], findings) == keys + [key] && (keys + [key])[..|keys|] == keys;
  }

  lemma {:induction false} AddToGrouping(byPackage: map<GroupKey, seq<Candidate>>, order: seq<GroupKey>,
      cands: seq<Candidate>, findings: seq<Finding>, c: Candidate)
    requires Grouping(byPackage, order, cands, findings)
    ensures var key := KeyOf(c, findings);
      Grouping(byPackage[key := (if key in byPackage then byPackage[key] else []) + [c]],
          if key in byPackage then order else order + [key], cands + [c], findings)
  {
    hide KeyOf, KeysOf, Group, Dedup;
    var key := KeyOf(c, findings);
    DedupIsDistinct(KeysOf(cands, findings));
    KeysOfAre(cands, findings, key);
    OrderGrows(cands, findings, c);
    forall k { GroupGrows(cands, findings, c, k); }
    forall k | k != key ensures Group(cands + [c], findings, k) == Group(cands, findings, k) {
      assert Group(cands, findings, k) + [] == Group(cands, findings, k);
    }
  }

  lemma {:induction false} NothingGrouped(findings: seq<Finding>)
    ensures Grouping(map[], [], [], findings)
  {
  }

  /** The grouping loop of `consolidate_candidates`. */
  method GroupByPackage(cands: seq<Candidate>, findings: seq<Finding>)
    returns (byPackage: map<GroupKey, seq<Candidate>>, order: seq<GroupKey>)
    ensures Grouping(byPackage, order, cands, findings)
  {
    hide Grouping, KeyOf;
    byPackage, order := map[], [];
    NothingGrouped(findings);
    var i := 0;
    while i < |cands|
      invariant 0 <= i <= |cands| && Grouping(byPackage, order, cands[..i], findings)
    {
      AddToGrouping(byPackage, order, cands[..i], findings, cands[i]);
      assert cands[..i + 1] == cands[..i] + [cands[i]];
      var key := KeyOf(cands[i], findings);
      if key !in byPackage {
        assert [] + [cands[i]] == [cands[i]];
        order := order + [key];
        byPackage := byPackage[key := [cands[i]]];
      } else {
        byPackage := byPackage[key := byPackage[key] + [cands[i]]];
      }
      i := i + 1;
    }
    assert cands[..i] == cands;
  }

  /** `consolidate_candidates` */
  method ConsolidateCandidates(cands: seq<Candidate>, findings: seq<Finding>) returns (out: seq<Candidate>)
    ensures out == Consolidated(cands, findings)
  {
    hide KeyOf, KeysOf, Group, ConsolidateGroup, Sort, Dedup;
    var byPackage, order := GroupByPackage(cands, findings);
    var keys := Sort(KeyBefore, order);
    out := [];
    var i := 0;
    while i < |keys|
      invariant 0 <= i <= |keys| && out == ConsolidateKeys(keys[..i], cands, findings)
    {
      GroupKeyIsGrouped(cands, findings, keys[i]);
      SortKeepsElements(KeyBefore, order);
      assert keys[..i + 1][..i] == keys[..i];
      var merged := ConsolidateOne(keys[i].package, byPackage[keys[i]], findings);
      out := out + merged;
      i := i + 1;
    }
    assert keys[..i] == keys;
  }

  lemma {:induction false} GroupKeyIsGrouped(cands: seq<Candidate>, findings: seq<Finding>, key: GroupKey)
    ensures key in GroupKeys(cands, findings) <==> Group(cands, findings, key) != []
  {
    SortKeepsElements(KeyBefore, Dedup(KeysOf(cands, findings)));
    DedupIsDistinct(KeysOf(cands, findings));
    KeysOfAre(cands, findings, key);
  }

  /** The branches taken for one group. */
  method ConsolidateOne(package: string, group: seq<Candidate>, findings: seq<Finding>) returns (out: seq<Candidate>)
    requires group != []
    ensures out == ConsolidateGroup(package, group, findings)
  {
    if |group| == 1 {
      var ids := group[0].sourceIds;
      return [group[0].(sourceIds := if ids != [] then [ids[0]] else [])];
    }
    var maxTarget := MaxTarget(group);
    if maxTarget.None? { assert false; }
    var target := maxTarget.value;
    var related := FindingsFor(AllIds(group), findings);
    var ok := MaxTargetSatisfiesAll(related, group[0].fromVersion, target);
    if !ok { return group; }
    BestIsFromGroup(group[0], group[1..]);
    FirstAtFindsTarget(group, target);
    var base := FirstAt(group, target);
    out := [Merge(package, base.value, target, group)];
  }

  // ---- The branches of consolidation, spelled out ----

  /** A candidate's ecosystem is that of the first finding it names, and npm when there is none. */
  lemma {:induction false} KeySays(c: Candidate, findings: seq<Finding>)
    ensures var key := KeyOf(c, findings);
      && key.package == c.package && key.fromVersion == c.fromVersion && key.repo == c.repo
      && ((forall f | f in findings :: f.id !in c.sourceIds) ==> key.ecosystem == "npm")
      && (forall i | 0 <= i < |findings| && findings[i].id in c.sourceIds
                     && (forall j | 0 <= j < i :: findings[j].id !in c.sourceIds) ::
            key.ecosystem == findings[i].ecosystem)
  {
    FindingIsFirst(c.sourceIds, findings);
  }

  lemma {:induction false} FindingIsFirst(ids: seq<string>, findings: seq<Finding>)
    ensures var f := FindFinding(ids, findings);
      if f.None? then forall g | g in findings :: g.id !in ids
      else exists i | 0 <= i < |findings| ::
        findings[i] == f.value && findings[i].id in ids && forall j | 0 <= j < i :: findings[j].id !in ids
  {
    if findings != [] && findings[0].id !in ids {
      var rest := findings[1..];
      FindingIsFirst(ids, rest);
      var f := FindFinding(ids, rest);
      if f.Some? {
        var i :| 0 <= i < |rest| && rest[i] == f.value && rest[i].id in ids
          && forall j | 0 <= j < i :: rest[j].id !in ids;
        assert findings[i + 1] == f.value;
        forall j | 0 <= j < i + 1 ensures findings[j].id !in ids { if j > 0 { assert findings[j] == rest[j - 1]; } }
      }
    }
  }

  /** The better of two targets is the newer, and of two that cannot be compared the later text. */
  lemma {:induction false} BestOfTwo(c: Candidate, d: Candidate)
    ensures BestFrom(c, [d]) ==
      if Older(c.toVersion, d.toVersion)
         || (CompareVersions(c.toVersion, d.toVersion).None? && Less(c.toVersion, d.toVersion)) then d else c
  {
    hide ParseTriplet, Less;
    assert BestFrom(d, [][..0]) == d && BestFrom(c, [][..0]) == c;
  }

  /** A target satisfies a finding that has a fix above the version and none of its lowest is beyond the target. */
  lemma {:induction false} SatisfiedSays(f: Finding, from: string, target: string)
    ensures var lowest := LowestAbove(from, f.fixedVersions);
      Satisfied(f, from, target) <==>
        lowest.Some? && if CompareVersions(target, lowest.value).Some? then !Older(target, lowest.value)
                        else !Less(target, lowest.value)
  {
    hide ParseTriplet, Less, LowestFrom;
  }

  lemma {:induction false} MaxEpssIsGreatest(group: seq<Candidate>)
    ensures IsGreatest(MaxEpss(group), seq(|group|, i requires 0 <= i < |group| => group[i].maxEpss))
    ensures IsGreatest(MaxEpssPercentile(group),
        seq(|group|, i requires 0 <= i < |group| => group[i].maxEpssPercentile))
  {
    if group != [] {
      var rest := group[1..];
      MaxEpssIsGreatest(rest);
      GreatestLeads(group[0].maxEpss, MaxEpss(rest), seq(|rest|, i requires 0 <= i < |rest| => rest[i].maxEpss));
      GreatestLeads(group[0].maxEpssPercentile, MaxEpssPercentile(rest),
          seq(|rest|, i requires 0 <= i < |rest| => rest[i].maxEpssPercentile));
      assert [group[0].maxEpss] + seq(|rest|, i requires 0 <= i < |rest| => rest[i].maxEpss)
          == seq(|group|, i requires 0 <= i < |group| => group[i].maxEpss);
      assert [group[0].maxEpssPercentile] + seq(|rest|, i requires 0 <= i < |rest| => rest[i].maxEpssPercentile)
          == seq(|group|, i requires 0 <= i < |group| => group[i].maxEpssPercentile);
    }
  }

  lemma {:induction false} GreatestLeads(v: Option<real>, m: Option<real>, values: seq<Option<real>>)
    requires IsGreatest(m, values)
    ensures IsGreatest(MaxOrNone(v, m), [v] + values)
  {
    assert v in [v] + values;
    assert forall w :: w in values ==> w in [v] + values;
    assert forall w :: w in [v] + values ==> w == v || w in values;
  }

  /**
   What a group of several candidates becomes: itself when some finding it names is not satisfied by its best
   target, and otherwise one candidate with that target, the greatest figures and the trust of the first that has it.
   */
  lemma {:induction false} GroupBecomes(package: string, group: seq<Candidate>, findings: seq<Finding>)
    requires |group| > 1
    ensures var out := ConsolidateGroup(package, group, findings);
      var target := BestFrom(group[0], group[1..]).toVersion;
      if exists f | f in findings && f.id in AllIds(group) :: !Satisfied(f, group[0].fromVersion, target)
      then out == group
      else exists i | 0 <= i < |group| ::
        && group[i].toVersion == target && (forall j | 0 <= j < i :: group[j].toVersion != target)
        && |out| == 1 && out[0].package == package && out[0].fromVersion == group[i].fromVersion
        && out[0].toVersion == target && out[0].repo == group[i].repo && out[0].trust == group[i].trust
        && out[0].kind == ClassifyFixKind(group[i].fromVersion, target)
        && out[0].sourceIds == SortedIds(AllIds(group)) && (out[0].hasKev <==> exists c | c in group :: c.hasKev)
        && IsGreatest(out[0].maxEpss, seq(|group|, k requires 0 <= k < |group| => group[k].maxEpss))
        && IsGreatest(out[0].maxEpssPercentile,
               seq(|group|, k requires 0 <= k < |group| => group[k].maxEpssPercentile))
  {
    hide BestFrom, AllIds, SortedIds, MaxEpss, MaxEpssPercentile, Satisfied, ClassifyFixKind, IsGreatest;
    var target := BestFrom(group[0], group[1..]).toVersion;
    FindingsForNames(AllIds(group), findings);
    MaxEpssIsGreatest(group);
    BestIsFromGroup(group[0], group[1..]);
    assert group == [group[0]] + group[1..];
    var i := FirstAtIsFirst(group, target);
  }

  lemma {:induction false} FindingsForNames(ids: seq<string>, findings: seq<Finding>)
    ensures forall f :: f in FindingsFor(ids, findings) <==> f in findings && f.id in ids
  {
    if findings != [] {
      FindingsForNames(ids, findings[1..]);
      assert findings == [findings[0]] + findings[1..];
    }
  }

  lemma {:induction false} FirstAtIsFirst(group: seq<Candidate>, target: string) returns (i: nat)
    requires exists c | c in group :: c.toVersion == target
    ensures i < |group| && group[i].toVersion == target && forall j | 0 <= j < i :: group[j].toVersion != target
    ensures FirstAt(group, target) == Some(group[i])
  {
    if group[0].toVersion == target {
      i := 0;
    } else {
      assert group == [group[0]] + group[1..];
      var rest := FirstAtIsFirst(group[1..], target);
      i := rest + 1;
    }
  }
}
