/**
 Applying one fix to package-lock.json and package.json (arguss/web/lockfile_fix.py). Both
 documents are edited in place; what the edit keeps is stated against the parser's reading.
 */
module LockfileFix {
  import opened Basics
  import opened InstallKeys
  import opened DisplayRoutes
  import opened LockfileParser

  datatype Section = Dependencies | DevDependencies | OptionalDependencies | PeerDependencies

  /** package.json's direct-dependency sections that are objects. */
  type Sections = map<Section, map<string, Range>>

  const SECTIONS := [Dependencies, DevDependencies, OptionalDependencies, PeerDependencies]

  datatype Fix = Fix(package: string, fromVersion: string, toVersion: string)

  /** Registry answer: an error, no `dist` object, or its two fields where they are text. */
  datatype Metadata = RegistryError | NoDist | Dist(tarball: Option<string>, integrity: Option<string>)

  datatype SkipReason = NoEntry | FetchFailed | MissingDist | IncompleteDist | NotDeclared | CorruptEntry

  datatype FixResult =
    | Applied(entries: set<string>, packageJsonModified: bool)
    | Skipped(reason: SkipReason)
    | Unsupported // LockfileModificationError

  class LockfileDoc {
    var lockfileVersion: Option<int>
    var packages: Option<Packages> // None: not an object

    constructor (version: Option<int>, p: Option<Packages>)
      ensures lockfileVersion == version && packages == p
    {
      lockfileVersion, packages := version, p;
    }
  }

  class PackageJsonDoc {
    var sections: Sections

    constructor (s: Sections)
      ensures sections == s
    {
      sections := s;
    }
  }

  // ---- package.json ----

  /** The section whose range is rewritten: the first that declares the package. */
  function FirstSection(sections: Sections, order: seq<Section>, package: string): Option<Section> {
    if order == [] then None
    else if order[0] in sections && package in sections[order[0]] then Some(order[0])
    else FirstSection(sections, order[1..], package)
  }

  function BumpRange(current: string, to: string): string {
    if StartsWith(current, "^") then "^" + to
    else if StartsWith(current, "~") then "~" + to
    else if StartsWith(current, ">=") then ">=" + to
    else if StartsWith(current, ">") then ">" + to
    else to
  }

  function BumpDeclared(r: Range, to: string): Range {
    match r
    case NotText => Text(to)
    case Text(current) => Text(BumpRange(current, to))
  }

  function FixSections(sections: Sections, package: string, to: string): Sections {
    match FirstSection(sections, SECTIONS, package)
    case None => sections
    case Some(s) =>
      if s in sections && package in sections[s]
      then sections[s := sections[s][package := BumpDeclared(sections[s][package], to)]]
      else sections
  }

  lemma {:induction false} FirstSectionDeclares(sections: Sections, order: seq<Section>, package: string)
    ensures var s := FirstSection(sections, order, package);
      if s.None? then forall t | t in order :: !(t in sections && package in sections[t])
      else s.value in order && s.value in sections && package in sections[s.value]
  {
    if order != [] { FirstSectionDeclares(sections, order[1..], package); }
  }

  lemma {:induction false} AllSectionsListed(t: Section)
    ensures t in SECTIONS
  {
    match t
    case Dependencies => assert SECTIONS[0] == t;
    case DevDependencies => assert SECTIONS[1] == t;
    case OptionalDependencies => assert SECTIONS[2] == t;
    case PeerDependencies => assert SECTIONS[3] == t;
  }

  // ---- package-lock.json ----

  predicate Matches(packages: Packages, key: string, fix: Fix) {
    && key in packages && packages[key].Object?
    && FixerName(key) == Some(fix.package)
    && packages[key].entry.version == Some(fix.fromVersion)
  }

  function FixedEntry(e: Entry, to: string, tarball: string, integrity: string): Entry {
    e.(version := Some(to), resolved := Some(tarball), integrity := Some(integrity))
  }

  function FixedRoot(n: Node, fix: Fix): Node {
    match n
    case NotObject => n
    case Object(e) =>
      if fix.package in e.deps && e.deps[fix.package] == Text(fix.fromVersion)
      then Object(e.(deps := e.deps[fix.package := Text(fix.toVersion)])) else n
  }

  function FixedNode(packages: Packages, key: string, fix: Fix, tarball: string, integrity: string): Node
    requires key in packages
  {
    if Matches(packages, key, fix) then Object(FixedEntry(packages[key].entry, fix.toVersion, tarball, integrity))
    else if key == "" then FixedRoot(packages[key], fix)
    else packages[key]
  }

  function FixPackages(packages: Packages, fix: Fix, tarball: string, integrity: string): Packages {
    map key | key in packages :: FixedNode(packages, key, fix, tarball, integrity)
  }

  function Entries(packages: Packages, fix: Fix): set<string> {
    set key | key in packages && Matches(packages, key, fix)
  }

  // ---- The in-place edit ----

  predicate Lists(sections: Sections, s: Section, package: string) {
    s in sections && package in sections[s]
  }

  /** There is a first section exactly when some section lists the package. */
  lemma {:induction false} SomeSectionLists(sections: Sections, package: string)
    ensures FirstSection(sections, SECTIONS, package).Some? <==> exists s :: Lists(sections, s, package)
  {
    FirstSectionDeclares(sections, SECTIONS, package);
    forall s { AllSectionsListed(s); }
    if FirstSection(sections, SECTIONS, package).Some? {
      assert Lists(sections, FirstSection(sections, SECTIONS, package).value, package);
    }
  }

  /** `classify_dep_position(...) == "direct"` */
  method ClassifyDepPosition(package: string, pj: PackageJsonDoc) returns (direct: bool)
    ensures direct <==> exists s :: Lists(pj.sections, s, package)
    ensures direct <==> FirstSection(pj.sections, SECTIONS, package).Some?
  {
    SomeSectionLists(pj.sections, package);
    var i := 0;
    while i < |SECTIONS|
      invariant 0 <= i <= |SECTIONS|
      invariant FirstSection(pj.sections, SECTIONS, package) == FirstSection(pj.sections, SECTIONS[i..], package)
    {
      if SECTIONS[i] in pj.sections && package in pj.sections[SECTIONS[i]] { return true; }
      i := i + 1;
    }
    direct := false;
  }

  /** `_update_package_json_version`; `found` is false where the source raises ValueError. */
  method UpdatePackageJsonVersion(pj: PackageJsonDoc, package: string, to: string) returns (found: bool)
    modifies pj
    ensures found <==> FirstSection(old(pj.sections), SECTIONS, package).Some?
    ensures pj.sections == FixSections(old(pj.sections), package, to)
  {
    var i := 0;
    while i < |SECTIONS|
      invariant 0 <= i <= |SECTIONS| && pj.sections == old(pj.sections)
      invariant FirstSection(pj.sections, SECTIONS, package) == FirstSection(pj.sections, SECTIONS[i..], package)
    {
      var s := SECTIONS[i];
      if s in pj.sections && package in pj.sections[s] {
        var bumped := BumpDeclared(pj.sections[s][package], to);
        pj.sections := pj.sections[s := pj.sections[s][package := bumped]];
        return true;
      }
      i := i + 1;
    }
    found := false;
  }

  /** The document is one the fixer accepts and the registry answered in full. */
  predicate Applicable(version: Option<int>, packages: Option<Packages>, fix: Fix, meta: Metadata) {
    && version == Some(3) && packages.Some? && Entries(packages.value, fix) != {}
    && meta.Dist? && meta.tarball.Some? && meta.integrity.Some?
  }

  /** `apply_fix_to_lockfile`: either both documents get the whole fix, or neither is touched. */
  method ApplyFixToLockfile(doc: LockfileDoc, pj: PackageJsonDoc, fix: Fix, meta: Metadata) returns (r: FixResult)
    modifies doc, pj
    ensures doc.lockfileVersion == old(doc.lockfileVersion)
    ensures r.Applied? <==> Applicable(old(doc.lockfileVersion), old(doc.packages), fix, meta)
    ensures !r.Applied? ==> doc.packages == old(doc.packages) && pj.sections == old(pj.sections)
    ensures var supported := old(doc.lockfileVersion) == Some(3) && old(doc.packages).Some?;
      var found := supported && Entries(old(doc.packages).value, fix) != {};
      && (r.Unsupported? <==> !supported)
      && (r == Skipped(NoEntry) <==> supported && !found)
      && (r == Skipped(FetchFailed) <==> found && meta.RegistryError?)
      && (r == Skipped(MissingDist) <==> found && meta.NoDist?)
      && (r == Skipped(IncompleteDist) <==> found && meta.Dist? && (meta.tarball.None? || meta.integrity.None?))
    ensures r.Applied? ==>
      && r.entries == Entries(old(doc.packages).value, fix)
      && doc.packages == Some(FixPackages(old(doc.packages).value, fix, meta.tarball.value, meta.integrity.value))
      && pj.sections == FixSections(old(pj.sections), fix.package, fix.toVersion)
      && (r.packageJsonModified <==> FirstSection(old(pj.sections), SECTIONS, fix.package).Some?)
    ensures r.Applied? ==>
      && doc.packages.Some? && doc.packages.value.Keys == old(doc.packages).value.Keys
      && forall key | key in r.entries ::
           && key in doc.packages.value && doc.packages.value[key].Object?
           && doc.packages.value[key].entry.version == Some(fix.toVersion)
           && doc.packages.value[key].entry.resolved == meta.tarball
           && doc.packages.value[key].entry.integrity == meta.integrity
  {
    if doc.lockfileVersion != Some(3) || doc.packages.None? { return Unsupported; }
    var before := doc.packages.value;
    var direct := ClassifyDepPosition(fix.package, pj);
    var entries := Entries(before, fix);
    if entries == {} { return Skipped(NoEntry); }
    match meta {
      case RegistryError => return Skipped(FetchFailed);
      case NoDist => return Skipped(MissingDist);
      case Dist(_, _) =>
    }
    if meta.tarball.None? || meta.integrity.None? { return Skipped(IncompleteDist); }
    if direct {
      var found := UpdatePackageJsonVersion(pj, fix.package, fix.toVersion);
      if !found { assert false; } // the ValueError exit
    }
    WriteEntries(doc, entries, fix, meta.tarball.value, meta.integrity.value);
    UpdateRootLockfileDep(doc, fix);
    assert doc.packages.value == FixPackages(before, fix, meta.tarball.value, meta.integrity.value);
    r := Applied(entries, direct);
  }

  /** The `for entry_key in entries` loop. */
  method WriteEntries(doc: LockfileDoc, entries: set<string>, fix: Fix, tarball: string, integrity: string)
    requires doc.packages.Some? && forall key | key in entries ::
        key in doc.packages.value && doc.packages.value[key].Object?
    modifies doc`packages
    ensures doc.packages.Some? && doc.packages.value.Keys == old(doc.packages.value.Keys)
    ensures forall key | key in old(doc.packages.value) && key !in entries ::
        doc.packages.value[key] == old(doc.packages.value[key])
    ensures forall key | key in entries ::
        doc.packages.value[key] == Object(old(doc.packages.value[key].entry).(
            version := Some(fix.toVersion), resolved := Some(tarball), integrity := Some(integrity)))
  {
    ghost var before := doc.packages.value;
    var todo := entries;
    while todo != {}
      invariant todo <= entries && doc.packages.Some? && doc.packages.value.Keys == before.Keys
      invariant forall key | key in before && key !in entries - todo :: doc.packages.value[key] == before[key]
      invariant forall key | key in entries - todo ::
        doc.packages.value[key] == Object(FixedEntry(before[key].entry, fix.toVersion, tarball, integrity))
      decreases todo
    {
      var key :| key in todo;
      var node := doc.packages.value[key];
      if node.NotObject? { assert false; } // the corrupt-entry exit
      var e := FixedEntry(node.entry, fix.toVersion, tarball, integrity);
      doc.packages := Some(doc.packages.value[key := Object(e)]);
      todo := todo - {key};
    }
  }

  /** `_update_root_lockfile_dep` */
  method UpdateRootLockfileDep(doc: LockfileDoc, fix: Fix)
    requires doc.packages.Some?
    modifies doc`packages
    ensures doc.packages.Some? && doc.packages.value.Keys == old(doc.packages.value.Keys)
    ensures forall key | key in doc.packages.value ::
      doc.packages.value[key] ==
        if key == "" then FixedRoot(old(doc.packages.value[key]), fix) else old(doc.packages.value[key])
  {
    var packages := doc.packages.value;
    if "" !in packages || packages[""].NotObject? { return; }
    var root := packages[""].entry;
    if fix.package !in root.deps { return; }
    if root.deps[fix.package] == Text(fix.fromVersion) {
      var synced := root.(deps := root.deps[fix.package := Text(fix.toVersion)]);
      doc.packages := Some(packages["" := Object(synced)]);
    }
  }

  // ---- The resolved graph survives ----

  lemma {:induction false} FixKeepsReading(packages: Packages, fix: Fix, tarball: string, integrity: string,
      key: string)
    requires fix.fromVersion != "" && fix.toVersion != ""
    ensures var after := FixPackages(packages, fix, tarball, integrity);
      && (Live(after, key) <==> Live(packages, key))
      && (Installed(after, key) <==> Installed(packages, key))
      && (key in packages ==> Declared(after, key) == Declared(packages, key)
                              && (after[key].Object? <==> packages[key].Object?))
  {
    var after := FixPackages(packages, fix, tarball, integrity);
    if key in packages && packages[key].Object? && key == "" {
      var e := packages[key].entry;
      if fix.package in e.deps { assert e.deps[fix.package := Text(fix.toVersion)].Keys == e.deps.Keys; }
    }
  }

  lemma {:induction false} FixKeepsFirstLive(packages: Packages, fix: Fix, tarball: string, integrity: string,
      scopes: seq<string>, child: string)
    requires fix.fromVersion != "" && fix.toVersion != ""
    ensures FirstLive(FixPackages(packages, fix, tarball, integrity), scopes, child) ==
        FirstLive(packages, scopes, child)
  {
    if scopes != [] {
      FixKeepsReading(packages, fix, tarball, integrity, Child(scopes[0], child));
      FixKeepsFirstLive(packages, fix, tarball, integrity, scopes[1..], child);
    }
  }

  lemma {:induction false} FixKeepsEdges(packages: Packages, fix: Fix, tarball: string, integrity: string, level: Level)
    requires fix.fromVersion != "" && fix.toVersion != ""
    ensures Edges(level, FixPackages(packages, fix, tarball, integrity)) == Edges(level, packages)
  {
    var after := FixPackages(packages, fix, tarball, integrity);
    FixKeepsNames(packages, fix, tarball, integrity);
    assert Declarations(after) == Declarations(packages);
    forall key, child ensures EdgeFor(level, after, key, child) == EdgeFor(level, packages, key, child) {
      FixKeepsFirstLive(packages, fix, tarball, integrity, Ancestors(key), child);
      var target := Resolve(packages, key, child);
      if target.Some? { FixKeepsReading(packages, fix, tarball, integrity, target.value); }
    }
  }

  lemma {:induction false} FixKeepsNames(packages: Packages, fix: Fix, tarball: string, integrity: string)
    requires fix.fromVersion != "" && fix.toVersion != ""
    ensures var after := FixPackages(packages, fix, tarball, integrity);
      && after.Keys == packages.Keys
      && Declarations(after) == Declarations(packages)
      && DirectNames(after) == DirectNames(packages)
      && InstalledNames(after) == InstalledNames(packages)
      && InstalledKeys(after) == InstalledKeys(packages)
      && (Malformed(after) <==> Malformed(packages))
  {
    var after := FixPackages(packages, fix, tarball, integrity);
    forall key { FixKeepsReading(packages, fix, tarball, integrity, key); }
    forall key | key in packages ensures Declared(after, key) == Declared(packages, key) {}
    forall key, child ensures (key, child) in Declarations(after) <==> (key, child) in Declarations(packages) {}
  }

  lemma {:induction false} FixKeepsAccepted(lockfile: Lockfile, fix: Fix, tarball: string, integrity: string)
    requires fix.fromVersion != "" && fix.toVersion != ""
    ensures Accepted(lockfile.(packages := FixPackages(lockfile.packages, fix, tarball, integrity))) <==>
        Accepted(lockfile)
  {
    FixKeepsNames(lockfile.packages, fix, tarball, integrity);
    forall key { FixKeepsReading(lockfile.packages, fix, tarball, integrity, key); }
  }

  lemma {:induction false} PredIsUnique(g: Graph, pred: map<string, string>, pred': map<string, string>)
    requires IsShortestPred(g, pred) && IsShortestPred(g, pred')
    ensures pred == pred'
  {
    forall v ensures v in pred <==> v in pred' {}
    forall v | v in pred ensures pred[v] == pred'[v] {
      assert OnShortest(g, pred[v], v) && OnShortest(g, pred'[v], v);
      assert AtMost(pred[v], pred'[v]) && AtMost(pred'[v], pred[v]);
      if pred[v] != pred'[v] { LessAsymmetric(pred[v], pred'[v]); }
    }
  }

  /** What the parser reads at a key once the fix is in. */
  function Upgraded(d: Dependency, fix: Fix): Dependency {
    if FixerName(d.installKey) == Some(fix.package) && d.version == fix.fromVersion
    then d.(version := fix.toVersion)
    else d
  }

  /**
   Re-parsing the edited lockfile gives the same installs with the same names, direct flags,
   parents and display paths; only the fixed installs change, and only their version.
   */
  lemma {:induction false} FixPreservesResolvedGraph(lockfile: Lockfile, fix: Fix, tarball: string,
      integrity: string, deps: map<string, Dependency>, deps': map<string, Dependency>)
    requires fix.fromVersion != "" && fix.toVersion != ""
    requires Parses(lockfile, deps)
    requires Parses(lockfile.(packages := FixPackages(lockfile.packages, fix, tarball, integrity)), deps')
    ensures UpgradedRows(deps, deps', fix)
  {
    var packages := lockfile.packages;
    var after := FixPackages(packages, fix, tarball, integrity);
    FixKeepsNames(packages, fix, tarball, integrity);
    var g, pred :| RoutedBy(packages, deps, g, pred);
    var g', pred' :| RoutedBy(after, deps', g', pred');
    FixKeepsRoutes(packages, fix, tarball, integrity, g, pred, g', pred');
    forall key | key in deps ensures deps'[key] == Upgraded(deps[key], fix) {
      FixKeepsDep(packages, fix, tarball, integrity, key, pred);
    }
  }

  lemma {:induction false} FixKeepsRoutes(packages: Packages, fix: Fix, tarball: string, integrity: string, g: Graph,
      pred: map<string, string>, g': Graph, pred': map<string, string>)
    requires fix.fromVersion != "" && fix.toVersion != ""
    requires IsNameGraph(g, packages) && IsShortestPred(g, pred)
    requires IsNameGraph(g', FixPackages(packages, fix, tarball, integrity)) && IsShortestPred(g', pred')
    ensures pred == pred'
  {
    FixKeepsEdges(packages, fix, tarball, integrity, NameLevel);
    GroupedIsUnique(g, g', Flip(Edges(NameLevel, packages)));
    PredIsUnique(g, pred, pred');
  }

  lemma {:induction false} FixKeepsDep(packages: Packages, fix: Fix, tarball: string, integrity: string, key: string,
      pred: map<string, string>)
    requires fix.fromVersion != "" && fix.toVersion != "" && Installed(packages, key)
    ensures var after := FixPackages(packages, fix, tarball, integrity);
      Installed(after, key) && Dep(after, key, pred) == Upgraded(Dep(packages, key, pred), fix)
  {
    FixKeepsReading(packages, fix, tarball, integrity, key);
    FixKeepsNames(packages, fix, tarball, integrity);
    FixKeepsEdges(packages, fix, tarball, integrity, Physical);
  }

  // ---- Nothing of the old version remains ----

  lemma {:induction false} CanonicalNamesAgree(packages: Packages, key: string)
    requires Canonical(packages) && Installed(packages, key)
    ensures FixerName(key) == Some(InstalledName(key))
  {
    var chain :| chain != [] && ValidChain(chain) && key == Encode(chain);
    DecodeEncode(chain);
  }

  /** Some row is an install of package@version. */
  ghost predicate Has(deps: map<string, Dependency>, package: string, version: string) {
    exists key | key in deps :: deps[key].name == package && deps[key].version == version
  }

  ghost predicate UpgradedRows(deps: map<string, Dependency>, deps': map<string, Dependency>, fix: Fix) {
    deps'.Keys == deps.Keys && forall key | key in deps :: deps'[key] == Upgraded(deps[key], fix)
  }

  ghost predicate FixerReadsName(deps: map<string, Dependency>, fix: Fix) {
    forall key | key in deps && deps[key].name == fix.package && deps[key].version == fix.fromVersion ::
      FixerName(deps[key].installKey) == Some(fix.package)
  }

  lemma {:induction false} UpgradedRowsClear(deps: map<string, Dependency>, deps': map<string, Dependency>, fix: Fix)
    requires UpgradedRows(deps, deps', fix) && fix.fromVersion != fix.toVersion
    ensures !Has(deps', fix.package, fix.fromVersion) <==> FixerReadsName(deps, fix)
  {
    forall key | key in deps ensures deps'[key] == Upgraded(deps[key], fix) {}
  }

  lemma {:induction false} ParsedRowsAreCanonical(lockfile: Lockfile, deps: map<string, Dependency>, fix: Fix)
    requires Canonical(lockfile.packages) && Parses(lockfile, deps)
    ensures FixerReadsName(deps, fix)
  {
    forall key | key in deps ensures FixerName(deps[key].installKey) == Some(deps[key].name) {
      CanonicalNamesAgree(lockfile.packages, key);
    }
  }

  /**
   No package@from install remains exactly when the fixer reads the package's name off every
   affected install key, as the parser does. On the keys npm writes it always does; on the keys of
   DoubledScopeIsReadTwoWays it does not.
   */
  lemma {:induction false} FixClearsOldVersion(lockfile: Lockfile, fix: Fix, tarball: string, integrity: string,
      deps: map<string, Dependency>, deps': map<string, Dependency>)
    requires fix.fromVersion != "" && fix.toVersion != "" && fix.fromVersion != fix.toVersion
    requires Parses(lockfile, deps)
    requires Parses(lockfile.(packages := FixPackages(lockfile.packages, fix, tarball, integrity)), deps')
    ensures !Has(deps', fix.package, fix.fromVersion) <==> FixerReadsName(deps, fix)
    ensures Canonical(lockfile.packages) ==> !Has(deps', fix.package, fix.fromVersion)
  {
    FixPreservesResolvedGraph(lockfile, fix, tarball, integrity, deps, deps');
    UpgradedRowsClear(deps, deps', fix);
    if Canonical(lockfile.packages) { ParsedRowsAreCanonical(lockfile, deps, fix); }
  }

  // ---- A fix that is applied and leaves the old version ----

  /** `n` at version 1, installed at the top and below a directory of npm's own name. */
  function DoubledLockfile(n: string): Lockfile {
    var plain := Object(Entry(Some("1"), None, None, false, false, map[], map[]));
    Lockfile(Some(3), map[PREFIX + n := plain, PREFIX + PREFIX + n := plain])
  }

  /** The fixer finds the top install and passes over the one below. */
  lemma {:induction false} DoubledKeyIsMissed(n: string, tarball: string, integrity: string)
    requires ValidName(n)
    ensures var packages, fix, below := DoubledLockfile(n).packages, Fix(n, "1", "2"), PREFIX + PREFIX + n;
      && PREFIX + n in Entries(packages, fix) && below in packages
      && FixPackages(packages, fix, tarball, integrity)[below] == packages[below]
  {
    hide FixerName, ParsePackagePath, Encode, ValidName;
    TopLevelKey(n);
    SingleIsValid(n);
    DecodeEncode([n]);
    DoubledScopeIsReadTwoWays(n);
    assert |PREFIX + n| != |n|;
  }

  /** The parser reads the install below as one of `n`. */
  lemma {:induction false} DoubledKeyIsInstalled(packages: Packages, n: string)
    requires ValidName(n) && Live(packages, PREFIX + PREFIX + n)
    ensures Installed(packages, PREFIX + PREFIX + n) && InstalledName(PREFIX + PREFIX + n) == n
  {
    hide ParsePackagePath, FixerName, Live, ValidName;
    DoubledScopeIsReadTwoWays(n);
    KeyShape(PREFIX + PREFIX + n, PREFIX + n);
  }

  /** On this lockfile the fix of n@1 is applied, and a parse of the result still shows n@1. */
  lemma {:induction false} DoubledKeySurvivesFix(n: string, tarball: string, integrity: string,
      deps': map<string, Dependency>)
    requires ValidName(n)
    ensures var lockfile, fix := DoubledLockfile(n), Fix(n, "1", "2");
      && Applicable(Some(3), Some(lockfile.packages), fix, Dist(Some(tarball), Some(integrity)))
      && (Parses(lockfile.(packages := FixPackages(lockfile.packages, fix, tarball, integrity)), deps') ==>
            Has(deps', n, "1"))
  {
    hide Installed, InstalledName, Matches, FixedNode, Parses, ValidName, FixPackages, Entries;
    var lockfile, fix, below := DoubledLockfile(n), Fix(n, "1", "2"), PREFIX + PREFIX + n;
    DoubledKeyIsMissed(n, tarball, integrity);
    var after := FixPackages(lockfile.packages, fix, tarball, integrity);
    FixKeepsKeys(lockfile.packages, fix, tarball, integrity);
    assert Live(after, below);
    DoubledKeyIsInstalled(after, n);
    if Parses(lockfile.(packages := after), deps') { ParsedRowIs(lockfile.(packages := after), deps', below); }
  }

  lemma {:induction false} FixKeepsKeys(packages: Packages, fix: Fix, tarball: string, integrity: string)
    ensures FixPackages(packages, fix, tarball, integrity).Keys == packages.Keys
  {
  }

  /** The parser accepts such a lockfile, before and after. */
  lemma {:induction false} DoubledLockfileIsAccepted(tarball: string, integrity: string)
    ensures var lockfile, fix := DoubledLockfile("x"), Fix("x", "1", "2");
      && ValidName("x") && Accepted(lockfile)
      && Accepted(lockfile.(packages := FixPackages(lockfile.packages, fix, tarball, integrity)))
  {
    hide ForbiddenKey, Plain, ParsePackagePath, FixPackages, ValidName;
    var lockfile, fix := DoubledLockfile("x"), Fix("x", "1", "2");
    LetterIsPlain("x");
    PlainUnderPrefix("x");
    PlainUnderPrefix(PREFIX + "x");
    assert PREFIX + (PREFIX + "x") == PREFIX + PREFIX + "x";
    PlainIsAllowed(PREFIX + "x");
    PlainIsAllowed(PREFIX + PREFIX + "x");
    FixKeepsAccepted(lockfile, fix, tarball, integrity);
  }

  // ---- Applying twice, and two fixes in either order ----

  /** A second application finds nothing to fix and so, by ApplyFixToLockfile, changes nothing. */
  lemma {:induction false} SecondApplicationIsSkipped(packages: Packages, fix: Fix, tarball: string,
      integrity: string, version: Option<int>, meta: Metadata)
    requires fix.fromVersion != fix.toVersion
    ensures Entries(FixPackages(packages, fix, tarball, integrity), fix) == {}
    ensures !Applicable(version, Some(FixPackages(packages, fix, tarball, integrity)), fix, meta)
  {
    var after := FixPackages(packages, fix, tarball, integrity);
    forall key | key in after ensures !Matches(after, key, fix) { assert FixerName("") == None; }
  }

  /** The root entry pins the package to the old version. */
  predicate PinsOld(packages: Packages, key: string, fix: Fix) {
    && key == "" && key in packages && packages[key].Object?
    && fix.package in packages[key].entry.deps && packages[key].entry.deps[fix.package] == Text(fix.fromVersion)
  }

  /**
   The entries that change are exactly those of package@from and a root entry that pins it; the former keep all
   but three fields, the latter all but that pin. In the manifest no other package's range and no section's
   list of packages changes.
   */
  lemma {:induction false} ExactlyTheseChange(packages: Packages, sections: Sections, fix: Fix, tarball: string,
      integrity: string, key: string, s: Section, other: string)
    requires key in packages && fix.fromVersion != fix.toVersion
    ensures var after := FixPackages(packages, fix, tarball, integrity);
      && (after[key] != packages[key] <==> key in Entries(packages, fix) || PinsOld(packages, key, fix))
      && (key in Entries(packages, fix) ==>
            var e, e' := packages[key].entry, after[key].entry;
            e' == e.(version := e'.version, resolved := e'.resolved, integrity := e'.integrity))
      && (PinsOld(packages, key, fix) ==>
            var e, e' := packages[key].entry, after[key].entry;
            e' == e.(deps := e'.deps) && e'.deps - {fix.package} == e.deps - {fix.package})
    ensures var sections' := FixSections(sections, fix.package, fix.toVersion);
      && (s in sections' <==> s in sections) && (s in sections ==> sections'[s].Keys == sections[s].Keys)
      && (Lists(sections, s, other) && other != fix.package ==> sections'[s][other] == sections[s][other])
  {
    assert FixerName("") == None;
    if PinsOld(packages, key, fix) {
      var deps := packages[key].entry.deps;
      assert deps[fix.package := Text(fix.toVersion)][fix.package] != deps[fix.package];
    }
    var t := FirstSection(sections, SECTIONS, fix.package);
    if t.Some? && Lists(sections, t.value, fix.package) {
      var d := sections[t.value];
      assert d[fix.package := BumpDeclared(d[fix.package], fix.toVersion)].Keys == d.Keys;
    }
  }

  /** What is written: version, tarball and integrity of the entries, and the new version over a root pin of the old. */
  lemma {:induction false} WrittenFields(packages: Packages, fix: Fix, tarball: string, integrity: string, key: string)
    requires key in packages
    ensures var after := FixPackages(packages, fix, tarball, integrity);
      && (key in Entries(packages, fix) ==>
            after[key] == Object(packages[key].entry.(
                version := Some(fix.toVersion), resolved := Some(tarball), integrity := Some(integrity))))
      && (PinsOld(packages, key, fix) ==>
            && after[key].Object? && fix.package in after[key].entry.deps
            && after[key].entry.deps[fix.package] == Text(fix.toVersion))
  {
    assert FixerName("") == None;
  }

  /** On npm's keys: the entries are those of the package at exactly the old version. */
  lemma {:induction false} EntriesAre(packages: Packages, fix: Fix, chain: seq<string>)
    requires chain != [] && ValidChain(chain)
    ensures Encode(chain) in Entries(packages, fix) <==>
      && Encode(chain) in packages && packages[Encode(chain)].Object? && chain[|chain| - 1] == fix.package
      && packages[Encode(chain)].entry.version == Some(fix.fromVersion)
  {
    hide Encode, FixerName, ParsePackagePath, ValidChain;
    DecodeEncode(chain);
  }

  /** The range an edited manifest holds: the operator is kept if it is one of four, and otherwise dropped. */
  lemma {:induction false} BumpedRange(rest: string, to: string)
    ensures BumpRange("^" + rest, to) == "^" + to && BumpRange("~" + rest, to) == "~" + to
    ensures BumpRange(">=" + rest, to) == ">=" + to
    ensures !StartsWith(rest, "=") ==> BumpRange(">" + rest, to) == ">" + to
    ensures (rest == "" || rest[0] !in {'^', '~', '>'}) ==> BumpRange(rest, to) == to
  {
    assert ("^" + rest)[..1] == "^" && ("~" + rest)[..1] == "~";
    assert (">=" + rest)[..2] == ">=" && (">" + rest)[..1] == ">";
    assert ("^" + rest)[0] == '^' && ("~" + rest)[0] == '~' && (">" + rest)[0] == '>' && (">=" + rest)[0] == '>';
    if StartsWith(">" + rest, ">=") { assert (">" + rest)[..2][1] == '=' && rest[..1] == "="; }
    if rest != "" { assert rest[..1][0] == rest[0]; }
    if |rest| >= 2 { assert rest[..2][0] == rest[0]; }
  }

  /** The edited manifest: the package's range in the first section listing it, by the order they are tried in. */
  lemma {:induction false} BumpedSection(sections: Sections, package: string, to: string, s: Section)
    requires Lists(sections, s, package)
    requires forall t | Lists(sections, t, package) && t != s :: Place(s) < Place(t)
    ensures var sections' := FixSections(sections, package, to);
      && s in sections'
      && (forall current | sections[s][package] == Text(current) ::
            sections'[s] == sections[s][package := Text(BumpRange(current, to))])
      && (sections[s][package].NotText? ==> sections'[s] == sections[s][package := Text(to)])
      && forall t | t in sections && t != s :: t in sections' && sections'[t] == sections[t]
  {
    hide BumpRange, FirstSection;
    assert SECTIONS[Place(s)] == s;
    forall i | 0 <= i < Place(s) ensures !Lists(sections, SECTIONS[i], package) { assert Place(SECTIONS[i]) == i; }
    FirstSectionIs(sections, SECTIONS, package, Place(s));
  }

  lemma {:induction false} FirstSectionIs(sections: Sections, order: seq<Section>, package: string, j: nat)
    requires j < |order| && Lists(sections, order[j], package)
    requires forall i | 0 <= i < j :: !Lists(sections, order[i], package)
    ensures FirstSection(sections, order, package) == Some(order[j])
  {
    if j > 0 {
      assert !Lists(sections, order[0], package);
      FirstSectionIs(sections, order[1..], package, j - 1);
    }
  }

  function Place(s: Section): nat {
    match s
    case Dependencies => 0
    case DevDependencies => 1
    case OptionalDependencies => 2
    case PeerDependencies => 3
  }

  lemma {:induction false} FixesKeepEachOthersEntries(packages: Packages, a: Fix, t: string, i: string, b: Fix,
      key: string)
    requires a.package != b.package && key in packages
    ensures Matches(FixPackages(packages, a, t, i), key, b) <==> Matches(packages, key, b)
  {
    assert FixerName("") == None;
  }

  /** Fixes of two different packages commute on both documents. */
  lemma {:induction false} FixesCommute(packages: Packages, sections: Sections, a: Fix, ta: string, ia: string,
      b: Fix, tb: string, ib: string)
    requires a.package != b.package
    ensures FixPackages(FixPackages(packages, a, ta, ia), b, tb, ib) ==
        FixPackages(FixPackages(packages, b, tb, ib), a, ta, ia)
    ensures Entries(FixPackages(packages, a, ta, ia), b) == Entries(packages, b)
    ensures FixSections(FixSections(sections, a.package, a.toVersion), b.package, b.toVersion)
      == FixSections(FixSections(sections, b.package, b.toVersion), a.package, a.toVersion)
  {
    var pa, pb := FixPackages(packages, a, ta, ia), FixPackages(packages, b, tb, ib);
    forall key | key in packages
      ensures FixedNode(pa, key, b, tb, ib) == FixedNode(pb, key, a, ta, ia)
      ensures Matches(pa, key, b) <==> Matches(packages, key, b)
    {
      FixesKeepEachOthersEntries(packages, a, ta, ia, b, key);
      FixesKeepEachOthersEntries(packages, b, tb, ib, a, key);
      if key == "" { RootPinsCommute(packages[key], a, b); }
    }
    SectionsCommute(sections, a, b);
  }

  lemma {:induction false} RootPinsCommute(n: Node, a: Fix, b: Fix)
    requires a.package != b.package
    ensures FixedRoot(FixedRoot(n, a), b) == FixedRoot(FixedRoot(n, b), a)
  {
    hide BumpDeclared;
    if n.Object? && a.package in n.entry.deps && b.package in n.entry.deps {
      var d := n.entry.deps;
      assert d[a.package := Text(a.toVersion)][b.package := Text(b.toVersion)]
          == d[b.package := Text(b.toVersion)][a.package := Text(a.toVersion)];
    }
  }

  lemma {:induction false} FixKeepsFirstSection(sections: Sections, order: seq<Section>, package: string, to: string,
      other: string)
    ensures FirstSection(FixSections(sections, package, to), order, other) == FirstSection(sections, order, other)
  {
    if order != [] {
      FixKeepsFirstSection(sections, order[1..], package, to, other);
      var s := FirstSection(sections, SECTIONS, package);
      if s.Some? && s.value in sections && package in sections[s.value] {
        var d := sections[s.value];
        assert d[package := BumpDeclared(d[package], to)].Keys == d.Keys;
      }
    }
  }

  lemma {:induction false} SectionsCommute(sections: Sections, a: Fix, b: Fix)
    requires a.package != b.package
    ensures FixSections(FixSections(sections, a.package, a.toVersion), b.package, b.toVersion)
      == FixSections(FixSections(sections, b.package, b.toVersion), a.package, a.toVersion)
  {
    FixKeepsFirstSection(sections, SECTIONS, a.package, a.toVersion, b.package);
    FixKeepsFirstSection(sections, SECTIONS, b.package, b.toVersion, a.package);
    FirstSectionDeclares(sections, SECTIONS, a.package);
    FirstSectionDeclares(sections, SECTIONS, b.package);
    var s, t := FirstSection(sections, SECTIONS, a.package), FirstSection(sections, SECTIONS, b.package);
    if s.Some? && t.Some? {
      var ra := BumpDeclared(sections[s.value][a.package], a.toVersion);
      var rb := BumpDeclared(sections[t.value][b.package], b.toVersion);
      if s == t {
        var d := sections[s.value];
        assert d[a.package := ra][b.package := rb] == d[b.package := rb][a.package := ra];
      }
    }
  }
}
