/** Findings to proposal entries and skips (arguss/engine/propose.py, arguss/engine/skips.py). */
module Proposal {
  import opened Basics
  import opened Sorting
  import opened FixConfidence
  import opened Findings
  import opened Consolidation

  datatype Skip =
    | LensFailure(lensReason: string)
    | NoFix(findingId: string, advisory: string, package: string, currentVersion: string, reason: NoFixReason)

  datatype Entry = Entry(finding: Finding, related: seq<Finding>, candidate: Candidate, verdict: Verdict)

  datatype Report = Report(entries: seq<Entry>, skipped: seq<Skip>, findings: seq<Finding>)

  /** What the outside world answers while entries are built. */
  datatype World = World(
    trustScore: (string, string) -> Option<int>,
    trustDelta: (string, string, string) -> Option<TrustDelta>,
    killed: Candidate -> bool,
    pipeline: Pipeline)

  /** `no_fix_skip_from_finding` */
  function NoFixFrom(f: Finding, reason: NoFixReason): Skip {
    NoFix(f.id, if f.advisory.Some? then f.advisory.value else "", f.package, f.version, reason)
  }

  /** `_skipped_sort_key`: lens failures first, then by advisory (or package), then package. */
  function SkipKey(s: Skip): (nat, string, string) {
    match s
    case LensFailure(r) => (0, r, "")
    case NoFix(_, a, p, _, _) => (1, if a != "" then a else p, p)
  }

  predicate SkipBefore(a: Skip, b: Skip) {
    var (x, y) := (SkipKey(a), SkipKey(b));
    if x.0 != y.0 then x.0 < y.0 else if x.1 != y.1 then Less(x.1, y.1) else Less(x.2, y.2)
  }

  // ---- Findings behind a candidate ----

  /** `{f.finding_id: f for f in findings if f.finding_id}`: a later row wins. */
  function ById(findings: seq<Finding>): map<string, Finding> {
    if findings == [] then map[]
    else
      var f := findings[|findings| - 1];
      var m := ById(findings[..|findings| - 1]);
      if f.id != "" then m[f.id := f] else m
  }

  function Lookup(ids: seq<string>, byId: map<string, Finding>): seq<Finding> {
    if ids == [] then []
    else (if ids[0] in byId then [byId[ids[0]]] else []) + Lookup(ids[1..], byId)
  }

  function Cvss(f: Finding): real {
    if f.cvss.Some? then f.cvss.value else 0.0
  }

  function Advisory(f: Finding): string {
    if f.advisory.Some? then f.advisory.value else ""
  }

  predicate RelatedBefore(a: Finding, b: Finding) {
    if Cvss(a) != Cvss(b) then Cvss(a) > Cvss(b) else Less(Advisory(a), Advisory(b))
  }

  /** `_related_findings`: highest CVSS first. */
  function Related(c: Candidate, findings: seq<Finding>): seq<Finding> {
    Sort(RelatedBefore, Lookup(c.sourceIds, ById(findings)))
  }

  function TopEpss(fs: seq<Finding>): Option<real> {
    if fs == [] then None else MaxOrNone(TopEpss(fs[..|fs| - 1]), fs[|fs| - 1].epss)
  }

  function TopPercentile(fs: seq<Finding>): Option<real> {
    if fs == [] then None else MaxOrNone(TopPercentile(fs[..|fs| - 1]), fs[|fs| - 1].epssPercentile)
  }

  /** `_candidate_with_epss` */
  function WithEpss(c: Candidate, findings: seq<Finding>): Candidate {
    var related := Lookup(c.sourceIds, ById(findings));
    c.(maxEpss := TopEpss(related), maxEpssPercentile := TopPercentile(related),
        hasKev := exists f | f in related :: f.isKev)
  }

  lemma {:induction false} NoFigures()
    ensures TopEpss([]) == None && TopPercentile([]) == None
  {
  }

  lemma {:induction false} FiguresGrow(fs: seq<Finding>, f: Finding)
    ensures TopEpss(fs + [f]) == MaxOrNone(TopEpss(fs), f.epss)
    ensures TopPercentile(fs + [f]) == MaxOrNone(TopPercentile(fs), f.epssPercentile)
    ensures (exists g | g in fs + [f] :: g.isKev) <==> f.isKev || exists g | g in fs :: g.isKev
  {
    assert (fs + [f])[..|fs|] == fs;
    if f.isKev { assert f in fs + [f]; }
  }

  method CandidateWithEpss(c: Candidate, findings: seq<Finding>) returns (r: Candidate)
    ensures r == WithEpss(c, findings)
  {
    hide Lookup, ById, TopEpss, TopPercentile;
    var related := Lookup(c.sourceIds, ById(findings));
    NoFigures();
    var maxEpss: Option<real>, maxPct: Option<real>, hasKev := None, None, false;
    var i := 0;
    while i < |related|
      invariant 0 <= i <= |related|
      invariant maxEpss == TopEpss(related[..i]) && maxPct == TopPercentile(related[..i])
      invariant hasKev <==> exists f | f in related[..i] :: f.isKev
    {
      var f := related[i];
      assert related[..i + 1] == related[..i] + [f];
      FiguresGrow(related[..i], f);
      if f.epss.Some? && (maxEpss.None? || f.epss.value > maxEpss.value) { maxEpss := f.epss; }
      if f.epssPercentile.Some? && (maxPct.None? || f.epssPercentile.value > maxPct.value) {
        maxPct := f.epssPercentile;
      }
      if f.isKev { hasKev := true; }
      i := i + 1;
    }
    assert related[..i] == related;
    r := c.(maxEpss := maxEpss, maxEpssPercentile := maxPct, hasKev := hasKev);
  }

  /** The EPSS figures an entry shows are the greatest of its findings' figures. */
  lemma {:induction false} EpssIsGreatest(fs: seq<Finding>)
    ensures IsGreatest(TopEpss(fs), seq(|fs|, i requires 0 <= i < |fs| => fs[i].epss))
    ensures IsGreatest(TopPercentile(fs), seq(|fs|, i requires 0 <= i < |fs| => fs[i].epssPercentile))
  {
    if fs != [] {
      var init, last := fs[..|fs| - 1], fs[|fs| - 1];
      EpssIsGreatest(init);
      var scores := seq(|init|, i requires 0 <= i < |init| => init[i].epss);
      var ranks := seq(|init|, i requires 0 <= i < |init| => init[i].epssPercentile);
      GreatestGrows(TopEpss(init), scores, last.epss);
      GreatestGrows(TopPercentile(init), ranks, last.epssPercentile);
      assert scores + [last.epss] == seq(|fs|, i requires 0 <= i < |fs| => fs[i].epss);
      assert ranks + [last.epssPercentile] == seq(|fs|, i requires 0 <= i < |fs| => fs[i].epssPercentile);
    }
  }

  // ---- The discovery loop and the entry loop ----

  function DiscoverySkips(findings: seq<Finding>, repo: string): seq<Skip> {
    if findings == [] then []
    else
      var f := findings[|findings| - 1];
      var d := Discover(f, repo);
      DiscoverySkips(findings[..|findings| - 1], repo) + (if d.Found? then [] else [NoFixFrom(f, d.reason)])
  }

  function EntryFor(c: Candidate, findings: seq<Finding>, world: World): Entry
    requires Related(c, findings) != []
  {
    var priced := WithEpss(c.(trust := world.trustScore(c.package, c.fromVersion)), findings);
    var delta := world.trustDelta(priced.package, priced.fromVersion, priced.toVersion);
    var related := Related(c, findings);
    var verdict := FixVerdict(world.killed(priced), false, priced.kind, delta, Some(world.pipeline));
    Entry(related[0], related, priced, verdict)
  }

  function EntriesFor(cands: seq<Candidate>, findings: seq<Finding>, world: World): seq<Entry> {
    if cands == [] then []
    else
      var c := cands[|cands| - 1];
      EntriesFor(cands[..|cands| - 1], findings, world)
      + (if Related(c, findings) != [] then [EntryFor(c, findings, world)] else [])
  }

  /** The `related_findings_missing` skip, from the first linked finding or from the candidate. */
  function MissingSkip(c: Candidate, findings: seq<Finding>): Skip {
    var linked := Lookup(c.sourceIds, ById(findings));
    if linked != [] then NoFixFrom(linked[0], RelatedFindingsMissing)
    else NoFix("", "", c.package, c.fromVersion, RelatedFindingsMissing)
  }

  function MissingSkips(cands: seq<Candidate>, findings: seq<Finding>): seq<Skip> {
    if cands == [] then []
    else
      var c := cands[|cands| - 1];
      MissingSkips(cands[..|cands| - 1], findings)
      + (if Related(c, findings) == [] then [MissingSkip(c, findings)] else [])
  }

  /** The report `_propose_fixes_impl` builds from the findings of the vulnerability lens. */
  function Proposed(findings: seq<Finding>, lensFailures: seq<string>, repo: string, world: World): Report {
    var cands := Consolidated(RawCandidates(findings, repo), findings);
    var failures := seq(|lensFailures|, i requires 0 <= i < |lensFailures| => LensFailure(lensFailures[i]));
    Report(EntriesFor(cands, findings, world),
        Sort(SkipBefore, failures + DiscoverySkips(findings, repo) + MissingSkips(cands, findings)),
        findings)
  }

  /** `_propose_fixes_impl`, after the lenses have run. */
  method ProposeFixes(findings: seq<Finding>, lensFailures: seq<string>, repo: string,
      world: World) returns (report: Report)
    ensures report == Proposed(findings, lensFailures, repo, world)
  {
    hide Discover, Consolidated, EntriesFor, MissingSkips, Sort;
    var skipped: seq<Skip> := seq(|lensFailures|, i requires 0 <= i < |lensFailures| => LensFailure(lensFailures[i]));
    ghost var failures := skipped;
    var raw := [];
    var i := 0;
    while i < |findings|
      invariant 0 <= i <= |findings|
      invariant raw == RawCandidates(findings[..i], repo)
      invariant skipped == failures + DiscoverySkips(findings[..i], repo)
    {
      assert findings[..i + 1][..i] == findings[..i];
      var d := Discover(findings[i], repo);
      if d.Found? {
        raw := raw + [d.candidate];
      } else {
        skipped := skipped + [NoFixFrom(findings[i], d.reason)];
      }
      i := i + 1;
    }
    assert findings[..i] == findings;
    var cands := ConsolidateCandidates(raw, findings);
    var entries, missing := BuildEntries(cands, findings, world);
    report := Report(entries, Sort(SkipBefore, skipped + missing), findings);
  }

  /** The entry of one candidate with related findings. */
  method BuildEntry(c: Candidate, related: seq<Finding>, findings: seq<Finding>, world: World) returns (e: Entry)
    requires related == Related(c, findings) != []
    ensures e == EntryFor(c, findings, world)
  {
    hide Related;
    var priced := CandidateWithEpss(c.(trust := world.trustScore(c.package, c.fromVersion)), findings);
    var delta := world.trustDelta(priced.package, priced.fromVersion, priced.toVersion);
    var verdict := ComputeFixConfidence(world.killed(priced), false, priced.kind, delta, Some(world.pipeline));
    e := Entry(related[0], related, priced, verdict);
  }

  /** The `for candidate in candidates` loop. */
  method BuildEntries(cands: seq<Candidate>, findings: seq<Finding>, world: World)
    returns (entries: seq<Entry>, missing: seq<Skip>)
    ensures entries == EntriesFor(cands, findings, world)
    ensures missing == MissingSkips(cands, findings)
  {
    hide Related, MissingSkip, EntryFor;
    entries, missing := [], [];
    var i := 0;
    while i < |cands|
      invariant 0 <= i <= |cands|
      invariant entries == EntriesFor(cands[..i], findings, world)
      invariant missing == MissingSkips(cands[..i], findings)
    {
      assert cands[..i + 1][..i] == cands[..i];
      var c := cands[i];
      var related := Related(c, findings);
      if related == [] {
        missing := missing + [MissingSkip(c, findings)];
      } else {
        var entry := BuildEntry(c, related, findings, world);
        entries := entries + [entry];
      }
      i := i + 1;
    }
    assert cands[..i] == cands;
  }
}
