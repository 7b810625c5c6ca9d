/** Findings, fix candidates and fix discovery (arguss/core/models.py, arguss/engine/fix_discovery.py). */
module Findings {
  import opened Basics
  import opened Versions

  datatype Severity = Critical | High | Medium | Low

  datatype Finding = Finding(
    id: string, package: string, version: string, ecosystem: string,
    advisory: Option<string>, fixedVersions: seq<string>,
    cvss: Option<real>, severity: Severity,
    epss: Option<real>, epssPercentile: Option<real>, isKev: bool)

  datatype Candidate = Candidate(
    package: string, fromVersion: string, toVersion: string, kind: FixKind,
    sourceIds: seq<string>, repo: string,
    trust: Option<int>, maxEpss: Option<real>, maxEpssPercentile: Option<real>, hasKev: bool)

  /** The inputs `_derive_candidate_id` hashes; the hash is taken to be injective. */
  datatype CandidateId = CandidateId(
    package: string, fromVersion: string, toVersion: string, kind: FixKind,
    sourceIds: multiset<string>, repo: string)

  function IdOf(c: Candidate): CandidateId {
    CandidateId(c.package, c.fromVersion, c.toVersion, c.kind, multiset(c.sourceIds), c.repo)
  }

  /** `_dedupe_findings_by_id` leaves findings with pairwise distinct, non-empty ids. */
  ghost predicate DistinctIds(findings: seq<Finding>) {
    && (forall i, j | 0 <= i < j < |findings| :: findings[i].id != findings[j].id)
    && forall f | f in findings :: f.id != ""
  }

  lemma {:induction false} SameIdSameFinding(findings: seq<Finding>, f: Finding, g: Finding)
    requires DistinctIds(findings) && f in findings && g in findings && f.id == g.id
    ensures f == g
  {
    var i :| 0 <= i < |findings| && findings[i] == f;
    var j :| 0 <= j < |findings| && findings[j] == g;
  }

  // ---- Discovery ----

  datatype NoFixReason = NoAdvisoryId | NoFixVersionInOsv | NoFixVersionGtCurrent | RelatedFindingsMissing

  datatype Discovery = Found(candidate: Candidate) | Nothing(reason: NoFixReason)

  /** `discover_fix_candidates`: upgrade to the lowest published fix above the installed version. */
  function Discover(f: Finding, repo: string): Discovery {
    if f.advisory.None? then Nothing(NoAdvisoryId)
    else if f.fixedVersions == [] then Nothing(NoFixVersionInOsv)
    else
      var to := LowestAbove(f.version, f.fixedVersions);
      if to.None? then Nothing(NoFixVersionGtCurrent)
      else Found(Candidate(f.package, f.version, to.value, ClassifyFixKind(f.version, to.value),
          [f.id], repo, None, None, None, false))
  }

  predicate Fixable(f: Finding) {
    f.advisory.Some? && f.fixedVersions != [] && LowestAbove(f.version, f.fixedVersions).Some?
  }

  /** Fix discovery names the lowest fix above the installed version, exactly when there is one. */
  lemma {:induction false} DiscoverFindsLowestFix(f: Finding, repo: string)
    ensures Discover(f, repo).Found? <==>
      f.advisory.Some? && exists v | v in f.fixedVersions :: Older(f.version, v)
    ensures Discover(f, repo).Found? ==>
      var c := Discover(f, repo).candidate;
      && c.toVersion in f.fixedVersions && Older(f.version, c.toVersion)
      && forall v | v in f.fixedVersions && Older(f.version, v) :: !Older(v, c.toVersion)
    ensures Discover(f, repo).Found? ==>
      var c := Discover(f, repo).candidate;
      && c.package == f.package && c.fromVersion == f.version && c.repo == repo && c.sourceIds == [f.id]
      && c.kind == ClassifyFixKind(f.version, c.toVersion)
  {
    LowestAboveIsLeast(f.version, f.fixedVersions);
  }

  /** Why a finding has no fix: no advisory, no fix published, or none above the installed version. */
  lemma {:induction false} NoFixReasonSays(f: Finding, repo: string)
    requires Discover(f, repo).Nothing?
    ensures var reason := Discover(f, repo).reason;
      && (reason == NoAdvisoryId <==> f.advisory.None?)
      && (reason == NoFixVersionInOsv <==> f.advisory.Some? && f.fixedVersions == [])
      && (reason == NoFixVersionGtCurrent <==>
            f.advisory.Some? && f.fixedVersions != [] && forall v | v in f.fixedVersions :: !Older(f.version, v))
  {
    LowestAboveIsLeast(f.version, f.fixedVersions);
  }

  /** Two candidates share an id exactly when they agree on all that it is derived from. */
  lemma {:induction false} SameIdIff(c: Candidate, d: Candidate)
    ensures IdOf(c) == IdOf(d) <==>
      && c.package == d.package && c.fromVersion == d.fromVersion && c.toVersion == d.toVersion && c.kind == d.kind
      && multiset(c.sourceIds) == multiset(d.sourceIds) && c.repo == d.repo
  {
  }

  /** Candidates of the fixable findings, in order. */
  function RawCandidates(findings: seq<Finding>, repo: string): seq<Candidate> {
    if findings == [] then []
    else
      var d := Discover(findings[|findings| - 1], repo);
      RawCandidates(findings[..|findings| - 1], repo) + (if d.Found? then [d.candidate] else [])
  }

  lemma {:induction false} RawCandidatesAre(findings: seq<Finding>, repo: string, c: Candidate)
    ensures c in RawCandidates(findings, repo) <==> exists f | f in findings :: Discover(f, repo) == Found(c)
  {
    if findings != [] {
      RawCandidatesAre(findings[..|findings| - 1], repo, c);
      assert findings == findings[..|findings| - 1] + [findings[|findings| - 1]];
    }
  }
}
