/** One lockfile, its findings, its report and its page: nothing about them can fail to add up. */
module LockfileBalance {
  import opened LockfileParser
  import opened Findings
  import opened Proposal
  import opened DepRows
  import opened ScanCounts
  import opened BalanceLaws
  import opened ResultsBuckets

  /** The findings are about installs of this lockfile, as the lenses scan the parsed rows. */
  ghost predicate FoundIn(findings: seq<Finding>, deps: map<string, Dependency>) {
    forall f | f in findings :: f.ecosystem == "npm" && exists key | key in deps :: IsAbout(f, deps[key])
  }

  predicate IsAbout(f: Finding, d: Dependency) {
    f.package == d.name && f.version == d.version
  }

  lemma {:induction false} FoundAreListed(findings: seq<Finding>, lockfile: Lockfile, deps: map<string, Dependency>,
      list: seq<Dependency>, rows: seq<DepRow>)
    requires SerialisedFrom(rows, lockfile, deps, list) && FoundIn(findings, deps)
    ensures Named(findings) && OneEcosystemPerNode(findings) && AffectedNodes(findings) <= NodeKeys(rows)
    ensures InstallKeysValid(rows)
  {
    hide Parses, ListsRows, Serialises;
    SerialisedRowsAreSound(rows, lockfile, deps, list);
    forall f | f in findings ensures f.package != "" && f.version != "" && FindingNode(f) in NodeKeys(rows) {
      var key :| key in deps && IsAbout(f, deps[key]);
      ParsedRowsAreNamed(lockfile, deps, key);
      var r :| r in rows && Serialises(r, deps[key]);
      SerialisedNode(r, deps[key]);
      assert (r.package, r.version) in NodeKeys(rows);
    }
  }

  lemma {:induction false} SerialisedNode(r: DepRow, d: Dependency)
    requires Serialises(r, d)
    ensures r.package == d.name && r.version == d.version
  {
  }

  /**
   For the findings of a parsed lockfile and the rows serialised from it, building the counts never raises, no
   balance message applies, the counters partition findings and nodes, and the results page agrees.
   */
  lemma {:induction false} OneLockfileAddsUp(lockfile: Lockfile, deps: map<string, Dependency>,
      list: seq<Dependency>, rows: seq<DepRow>, findings: seq<Finding>, lensFailures: seq<string>, repo: string,
      world: World)
    requires SerialisedFrom(rows, lockfile, deps, list) && FoundIn(findings, deps) && DistinctIds(findings)
    ensures InstallKeysValid(rows)
    ensures var report := Proposed(findings, lensFailures, repo, world);
      var counts := CountsOf(report, rows);
      && counts.messages == {} && Partitioned(counts, findings, NodeKeys(rows))
      && Agrees(SummaryOf(report, rows), counts)
  {
    hide Partitioned, Agrees, CountsOf, SummaryOf, SerialisedFrom, NodeKeys, FoundIn, Named, OneEcosystemPerNode,
        DistinctIds, InstallKeysValid, Proposed;
    FoundAreListed(findings, lockfile, deps, list, rows);
    PipelineReportsBalance(findings, lensFailures, repo, world, rows);
    PageAgreesWithCounts(findings, lensFailures, repo, world, rows);
    FixableAreAffected(findings);
  }

  lemma {:induction false} FixableAreAffected(findings: seq<Finding>)
    ensures FixableNodes(findings) <= AffectedNodes(findings)
  {
    hide Fixable;
  }
}
