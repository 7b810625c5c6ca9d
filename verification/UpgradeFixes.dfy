/** From the scan's upgrades to the lockfile edit: what applying one upgrade does to the dependencies it is for. */
module UpgradeFixes {
  import opened Basics
  import opened Versions
  import opened Findings
  import opened Consolidation
  import opened ConsolidationLaws
  import opened InstallKeys
  import opened LockfileParser
  import opened LockfileFix

  /** What applying an upgrade asks of the fixer. */
  function FixOf(m: Candidate): Fix {
    Fix(m.package, m.fromVersion, m.toVersion)
  }

  lemma {:induction false} NoVersionIsUnparsed()
    ensures ParseTriplet("").None?
  {
  }

  /** An upgrade leads from one version to a newer one, so its fix is a change between two versions. */
  lemma {:induction false} UpgradeGoesUp(m: Candidate, key: GroupKey, findings: seq<Finding>, repo: string)
    requires IsUpgrade(m, key, findings, repo)
    ensures Older(m.fromVersion, m.toVersion)
    ensures m.fromVersion != "" && m.toVersion != "" && m.fromVersion != m.toVersion
  {
    hide ParseTriplet, LowestAbove, ClassifyFixKind;
    var f :| Member(findings, repo, key, f) && m.toVersion == Target(f);
    LowestAboveIsLeast(f.version, f.fixedVersions);
    NoVersionIsUnparsed();
  }

  /**
   Applying an upgrade of the report to a lockfile with npm's keys leaves no install of the old version: every
   such install is at the new one and otherwise as it was. Each finding the upgrade stands for was about the old
   version, and its lowest fix is no newer than the new one.
   */
  lemma {:induction false} UpgradeFixesItsFindings(findings: seq<Finding>, repo: string, m: Candidate,
      lockfile: Lockfile, tarball: string, integrity: string, deps: map<string, Dependency>,
      deps': map<string, Dependency>)
    requires DistinctIds(findings) && m in Consolidated(RawCandidates(findings, repo), findings)
    requires Canonical(lockfile.packages) && Parses(lockfile, deps)
    requires Parses(lockfile.(packages := FixPackages(lockfile.packages, FixOf(m), tarball, integrity)), deps')
    ensures !Has(deps', m.package, m.fromVersion)
    ensures forall key | key in deps && deps[key].name == m.package && deps[key].version == m.fromVersion ::
      key in deps' && deps'[key] == deps[key].(version := m.toVersion)
    ensures forall f | f in findings && f.id in m.sourceIds ::
      && f.package == m.package && f.version == m.fromVersion && Fixable(f) && !Older(m.toVersion, Target(f))
  {
    hide Canonical, Parses, Has, FixPackages, Consolidated, Fixable, Older, Upgraded, FixerReadsName, IsUpgrade;
    var key := UpgradeHasKey(findings, repo, m);
    UpgradeGoesUp(m, key, findings, repo);
    FixClearsOldVersion(lockfile, FixOf(m), tarball, integrity, deps, deps');
    FixPreservesResolvedGraph(lockfile, FixOf(m), tarball, integrity, deps, deps');
    ParsedRowsAreCanonical(lockfile, deps, FixOf(m));
    AffectedRowsMove(deps, deps', FixOf(m));
    UpgradeCoversMembers(findings, repo, m, key);
  }

  lemma {:induction false} UpgradeHasKey(findings: seq<Finding>, repo: string, m: Candidate) returns (key: GroupKey)
    requires DistinctIds(findings) && m in Consolidated(RawCandidates(findings, repo), findings)
    ensures IsUpgrade(m, key, findings, repo)
  {
    hide IsUpgrade, Consolidated, DistinctIds;
    ConsolidationEmitsOneUpgradePerNode(findings, repo);
    var raw := RawCandidates(findings, repo);
    var i :| 0 <= i < |Consolidated(raw, findings)| && Consolidated(raw, findings)[i] == m;
    key := GroupKeys(raw, findings)[i];
  }

  lemma {:induction false} UpgradeCoversMembers(findings: seq<Finding>, repo: string, m: Candidate, key: GroupKey)
    requires IsUpgrade(m, key, findings, repo)
    ensures forall f | f in findings && f.id in m.sourceIds ::
      && f.package == m.package && f.version == m.fromVersion && Fixable(f) && !Older(m.toVersion, Target(f))
  {
    hide Fixable, Older, LowestAbove, ClassifyFixKind;
    forall f | f in findings && f.id in m.sourceIds ensures Member(findings, repo, key, f) {}
  }

  lemma {:induction false} AffectedRowsMove(deps: map<string, Dependency>, deps': map<string, Dependency>, fix: Fix)
    requires UpgradedRows(deps, deps', fix) && FixerReadsName(deps, fix)
    ensures forall key | key in deps && deps[key].name == fix.package && deps[key].version == fix.fromVersion ::
      key in deps' && deps'[key] == deps[key].(version := fix.toVersion)
  {
  }

  /** If the package is installed at that version the fix is applied, given a v3 lockfile and a full answer. */
  lemma {:induction false} InstalledIsFixed(lockfile: Lockfile, deps: map<string, Dependency>, fix: Fix, meta: Metadata)
    requires Canonical(lockfile.packages) && Parses(lockfile, deps) && Has(deps, fix.package, fix.fromVersion)
    requires lockfile.lockfileVersion == Some(3) && meta.Dist? && meta.tarball.Some? && meta.integrity.Some?
    ensures Applicable(lockfile.lockfileVersion, Some(lockfile.packages), fix, meta)
  {
    hide Canonical, FixerName, Parses, ParsePackagePath;
    var key :| key in deps && deps[key].name == fix.package && deps[key].version == fix.fromVersion;
    RowsAreInstalled(lockfile, deps, key);
    CanonicalNamesAgree(lockfile.packages, key);
    ParsedRowIs(lockfile, deps, key);
    assert key in Entries(lockfile.packages, fix);
  }

  lemma {:induction false} RowsAreInstalled(lockfile: Lockfile, deps: map<string, Dependency>, key: string)
    requires Parses(lockfile, deps) && key in deps
    ensures Installed(lockfile.packages, key)
  {
    hide Installed;
  }
}
