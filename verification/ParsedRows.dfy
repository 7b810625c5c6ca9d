/**
 What a parsed row says, in terms of the lockfile's own entries (arguss/core/parser.py): which keys give rows, their
 version and direct flag, who their parents are, and the edges of the graph their routes are searched in.
 */
module ParsedRows {
  import opened Basics
  import opened InstallKeys
  import opened DisplayRoutes
  import opened LockfileParser

  /** An entry with a version that is neither a link nor extraneous. */
  predicate IsInstall(packages: Packages, key: string) {
    && key in packages && packages[key].Object?
    && packages[key].entry.version.Some? && packages[key].entry.version.value != ""
    && !packages[key].entry.link && !packages[key].entry.extraneous
  }

  /** The entry lists the name among its dependencies or, for the root, its development dependencies. */
  predicate ListsDependency(packages: Packages, key: string, name: string) {
    && key in packages && packages[key].Object?
    && (name in packages[key].entry.deps || (key == "" && name in packages[key].entry.devDeps))
  }

  lemma {:induction false} DeclaredIsListed(packages: Packages, key: string, name: string)
    ensures key in packages && name in Declared(packages, key) <==> ListsDependency(packages, key, name)
    ensures name in DirectNames(packages) <==> ListsDependency(packages, "", name)
    ensures Live(packages, key) <==> IsInstall(packages, key)
  {
  }

  /** The name an entry declares under: that of its install, or `root`. */
  function Declarer(chain: seq<string>): string {
    if chain == [] then "root" else chain[|chain| - 1]
  }

  lemma {:induction false} DeclarerIsParent(chain: seq<string>)
    requires ValidChain(chain)
    ensures LogicalParent(Encode(chain)) == Some(Declarer(chain))
  {
    hide ParsePackagePath, FixerName, ValidChain;
    if chain != [] { DecodeEncode(chain); }
  }

  /** On npm's keys: one row for each install, with its name, version and key, direct exactly if the root lists it. */
  lemma {:induction false} ParsedRowSays(lockfile: Lockfile, deps: map<string, Dependency>, chain: seq<string>)
    requires Parses(lockfile, deps) && chain != [] && ValidChain(chain)
    ensures var key := Encode(chain);
      && (key in deps <==> IsInstall(lockfile.packages, key))
      && (key in deps ==>
            && deps[key].name == chain[|chain| - 1] && deps[key].installKey == key
            && Some(deps[key].version) == lockfile.packages[key].entry.version
            && (deps[key].direct <==> ListsDependency(lockfile.packages, "", chain[|chain| - 1])))
  {
    hide ParsePackagePath, FixerName, ValidChain, IsNameGraph, IsShortestPred, ParentsOf, DisplayPath, Encode, Accepted;
    var key, packages := Encode(chain), lockfile.packages;
    DecodeEncode(chain);
    DeclaredIsListed(packages, key, chain[|chain| - 1]);
    var g, pred :| RoutedBy(packages, deps, g, pred);
    if key in deps { assert deps[key] == Dep(packages, key, pred); }
  }

  /**
   The entry of `chain` lists `child`, and of the installs of that name in scope there the one at `install` is the
   deepest.
   */
  ghost predicate ServesListed(packages: Packages, chain: seq<string>, child: string, install: string) {
    && ValidChain(chain) && ListsDependency(packages, Encode(chain), child)
    && exists n: nat :: n <= |chain| && IsDeepest(packages, chain, child, n) && install == Encode(chain[..n] + [child])
  }

  predicate IsDeepest(packages: Packages, chain: seq<string>, child: string, n: nat)
    requires n <= |chain|
  {
    && IsInstall(packages, Encode(chain[..n] + [child]))
    && forall m: nat | n < m <= |chain| :: !IsInstall(packages, Encode(chain[..m] + [child]))
  }

  lemma {:induction false} ResolvesIffServed(packages: Packages, chain: seq<string>, child: string, install: string)
    requires ValidChain(chain)
    ensures ListsDependency(packages, Encode(chain), child) && Resolve(packages, Encode(chain), child) == Some(install)
      <==> ServesListed(packages, chain, child, install)
  {
    hide Resolve, Encode, ValidChain, IsInstall, Live, ListsDependency;
    NearestAncestorIsExact(packages, chain, child);
    forall n: nat | n <= |chain| ensures ServedAt(packages, chain, child, n)
      <==> IsInstall(packages, Encode(chain[..n] + [child])) {
      DeclaredIsListed(packages, Encode(chain[..n] + [child]), child);
    }
    if ServesListed(packages, chain, child, install) {
      var n: nat :| n <= |chain| && IsDeepest(packages, chain, child, n) && install == Encode(chain[..n] + [child]);
      assert ServedAt(packages, chain, child, n);
      var m: nat :| m <= |chain| && Resolve(packages, Encode(chain), child).value == Encode(chain[..m] + [child])
        && ServedAt(packages, chain, child, m)
        && forall j: nat | m < j <= |chain| :: !ServedAt(packages, chain, child, j);
      assert m == n;
    }
  }

  // ---- Parents ----

  /** Some entry whose declarer is `p` lists a dependency that this install serves. */
  ghost predicate IsListedBy(packages: Packages, install: string, p: string) {
    exists chain, child :: ServesListed(packages, chain, child, install) && p == Declarer(chain)
  }

  lemma {:induction false} EdgeIffListed(packages: Packages, install: string, p: string)
    requires Canonical(packages)
    ensures (install, p) in Edges(Physical, packages) <==> IsListedBy(packages, install, p)
  {
    hide Edges, Resolve, LogicalParent, Canonical, ListsDependency, ServesListed, Encode, ValidChain;
    EdgeIffDeclared(packages, install, p);
    if exists key, child :: DeclaredEdge(packages, key, child, p, install) {
      var key, child :| DeclaredEdge(packages, key, child, p, install);
      var chain := KeyIsChain(packages, key);
      DeclaredIsListed(packages, key, child);
      DeclarerIsParent(chain);
      ResolvesIffServed(packages, chain, child, install);
      assert ServesListed(packages, chain, child, install) && p == Declarer(chain);
    }
    if IsListedBy(packages, install, p) {
      var chain, child :| ServesListed(packages, chain, child, install) && p == Declarer(chain);
      assert ValidChain(chain) by { ServedIsValid(packages, chain, child, install); }
      DeclaredIsListed(packages, Encode(chain), child);
      DeclarerIsParent(chain);
      ResolvesIffServed(packages, chain, child, install);
      assert DeclaredEdge(packages, Encode(chain), child, p, install);
    }
  }

  lemma {:induction false} ServedIsValid(packages: Packages, chain: seq<string>, child: string, install: string)
    requires ServesListed(packages, chain, child, install)
    ensures ValidChain(chain)
  {
  }

  /** The recorded parents of an install: whoever lists a dependency it serves, or the root if nobody does. */
  lemma {:induction false} ParentsAreListers(lockfile: Lockfile, deps: map<string, Dependency>, key: string, p: string)
    requires Parses(lockfile, deps) && Canonical(lockfile.packages) && key in deps
    ensures p in deps[key].parents <==>
      IsListedBy(lockfile.packages, key, p)
      || (p == "root" && forall q :: !IsListedBy(lockfile.packages, key, q))
  {
    hide Edges, Canonical, IsNameGraph, IsShortestPred, DisplayPath, IsListedBy, Accepted, Installed;
    var packages := lockfile.packages;
    var g, pred :| RoutedBy(packages, deps, g, pred);
    assert deps[key] == Dep(packages, key, pred) by { assert key in InstalledKeys(packages); }
    forall q { EdgeIffListed(packages, key, q); }
    var ps := set e | e in Edges(Physical, packages) && e.0 == key :: e.1;
    forall q ensures q in ps <==> IsListedBy(packages, key, q) {
      if (key, q) in Edges(Physical, packages) { assert (key, q).1 in ps; }
      if q in ps {
        var e :| e in Edges(Physical, packages) && e.0 == key && e.1 == q;
        assert e == (key, q);
      }
    }
    if ps == {} { assert forall q :: q !in ps; }
  }

  // ---- Routes ----

  /** The graph searched for routes: an edge from each entry's declarer to each name it lists that is installed. */
  lemma {:induction false} RouteEdgesAreListings(lockfile: Lockfile, deps: map<string, Dependency>, g: Graph,
      pred: map<string, string>, p: string, name: string)
    requires Canonical(lockfile.packages) && deps.Keys == InstalledKeys(lockfile.packages)
    requires RoutedBy(lockfile.packages, deps, g, pred)
    ensures Edge(g, p, name) <==>
      && (exists chain :: ValidChain(chain) && ListsDependency(lockfile.packages, Encode(chain), name)
                          && p == Declarer(chain))
      && exists key | key in deps :: deps[key].name == name
  {
    hide Canonical, IsShortestPred, LogicalParent, Encode, ValidChain, Installed, InstalledName, Declared,
        ListsDependency, ParentsOf, DisplayPath;
    var packages := lockfile.packages;
    NameEdgeIff(packages, name, p);
    assert Edge(g, p, name) <==> (p, name) in Flip(Edges(NameLevel, packages));
    assert (p, name) in Flip(Edges(NameLevel, packages)) <==> (name, p) in Edges(NameLevel, packages)
      by { FlippedPair(Edges(NameLevel, packages), name, p); }
    NamesAreRows(packages, deps, g, pred, name);
  }

  lemma {:induction false} NamesAreRows(packages: Packages, deps: map<string, Dependency>, g: Graph,
      pred: map<string, string>, name: string)
    requires deps.Keys == InstalledKeys(packages) && RoutedBy(packages, deps, g, pred)
    ensures name in InstalledNames(packages) <==> exists key | key in deps :: deps[key].name == name
  {
    hide IsNameGraph, IsShortestPred, ParsePackagePath, Live, ParentsOf, DisplayPath;
    forall key | key in deps ensures Installed(packages, key) && deps[key].name == InstalledName(key) {
      assert deps[key] == Dep(packages, key, pred);
    }
    if name in InstalledNames(packages) {
      var key :| key in packages && Installed(packages, key) && InstalledName(key) == name;
      assert key in deps;
    }
  }

  lemma {:induction false} FlippedPair(pairs: set<(string, string)>, a: string, b: string)
    ensures (b, a) in Flip(pairs) <==> (a, b) in pairs
  {
    if (b, a) in Flip(pairs) {
      var e :| e in pairs && (e.1, e.0) == (b, a);
      assert e == (a, b);
    }
    if (a, b) in pairs { assert ((a, b).1, (a, b).0) in Flip(pairs); }
  }

  lemma {:induction false} NameEdgeIff(packages: Packages, name: string, p: string)
    requires Canonical(packages)
    ensures (name, p) in Edges(NameLevel, packages) <==>
      && (exists chain :: ValidChain(chain) && ListsDependency(packages, Encode(chain), name) && p == Declarer(chain))
      && name in InstalledNames(packages)
  {
    hide Canonical, LogicalParent, Encode, ValidChain, InstalledNames, Declared, ListsDependency;
    if (name, p) in Edges(NameLevel, packages) {
      var d :| d in Declarations(packages) && EdgeFor(NameLevel, packages, d.0, d.1) == Some((name, p));
      var chain := KeyIsChain(packages, d.0);
      DeclarerIsParent(chain);
      DeclaredIsListed(packages, d.0, d.1);
      assert ListsDependency(packages, Encode(chain), name) && p == Declarer(chain);
    }
    if name in InstalledNames(packages) {
      forall chain | ValidChain(chain) && ListsDependency(packages, Encode(chain), name) && p == Declarer(chain)
        ensures (name, p) in Edges(NameLevel, packages) {
        DeclarerIsParent(chain);
        DeclaredIsListed(packages, Encode(chain), name);
        assert (Encode(chain), name) in Declarations(packages);
        assert EdgeFor(NameLevel, packages, Encode(chain), name) == Some((name, p));
      }
    }
  }

  /** Any row, whatever its key: its version is its entry's, and it is direct exactly if the root lists its name. */
  lemma {:induction false} DirectIffListed(lockfile: Lockfile, deps: map<string, Dependency>, key: string)
    requires Parses(lockfile, deps) && key in deps
    ensures IsInstall(lockfile.packages, key) && deps[key].installKey == key
    ensures Some(deps[key].version) == lockfile.packages[key].entry.version
    ensures deps[key].direct <==> ListsDependency(lockfile.packages, "", deps[key].name)
  {
    hide ParsePackagePath, IsNameGraph, IsShortestPred, ParentsOf, DisplayPath, Accepted;
    var g, pred :| RoutedBy(lockfile.packages, deps, g, pred);
    assert deps[key] == Dep(lockfile.packages, key, pred);
    DeclaredIsListed(lockfile.packages, key, deps[key].name);
  }

  /** The returned list is ordered by name and then by version. */
  lemma {:induction false} RowsInOrder(rows: seq<Dependency>, deps: map<string, Dependency>, i: nat)
    requires ListsRows(rows, deps) && 0 < i < |rows|
    ensures !Less(rows[i].name, rows[i - 1].name)
    ensures rows[i].name == rows[i - 1].name ==> !Less(rows[i].version, rows[i - 1].version)
  {
    assert !RowBefore(rows[i], rows[i - 1]);
    LessIrreflexive(rows[i].name);
  }

  // ---- Which lockfiles are accepted ----

  ghost predicate HasFragment(s: string, t: string) {
    exists a, b :: s == a + t + b
  }

  lemma {:induction false} ContainsIsFragment(s: string, t: string)
    ensures Contains(s, t) <==> HasFragment(s, t)
  {
    if Contains(s, t) {
      var i :| 0 <= i <= |s| && StartsWith(s[i..], t);
      StartIsFragment(s, i, t);
    }
    if HasFragment(s, t) {
      var a, b :| s == a + t + b;
      assert s[|a|..] == t + b;
      assert (t + b)[..|t|] == t;
      assert StartsWith(s[|a|..], t);
    }
  }

  lemma {:induction false} StartIsFragment(s: string, i: nat, t: string)
    requires i <= |s| && StartsWith(s[i..], t)
    ensures HasFragment(s, t)
  {
    var rest := s[i..];
    assert rest == t + rest[|t|..] && s == s[..i] + rest;
    assert s == s[..i] + t + rest[|t|..];
  }

  /** A key that gives away a path of the machine, whatever the case of its letters, or a URL. */
  ghost predicate LooksLocal(key: string) {
    || HasFragment(key, "://")
    || exists t | t in {"/tmp/", "/var/folders/", "/private/var/folders/", "\\temp\\"} ::
         HasFragment(LowerAscii(key), t)
  }

  /** The parser raises on versions other than 2 and 3, on entries that are no objects and on keys of local paths. */
  lemma {:induction false} AcceptedSays(lockfile: Lockfile)
    ensures Accepted(lockfile) <==>
      && (lockfile.lockfileVersion == Some(2) || lockfile.lockfileVersion == Some(3))
      && (forall key | key in lockfile.packages && (key == "" || StartsWith(key, "node_modules/")) ::
            lockfile.packages[key].Object?)
      && forall key | key in lockfile.packages && StartsWith(key, "node_modules/") && IsInstall(lockfile.packages, key)
                      && ParsePackagePath(key) != [] :: !LooksLocal(key)
  {
    hide Contains, HasFragment, LowerAscii, ParsePackagePath;
    forall key ensures ForbiddenKey(key) <==> LooksLocal(key) {
      var low := LowerAscii(key);
      ContainsIsFragment(key, "://");
      ContainsIsFragment(low, "/tmp/");
      ContainsIsFragment(low, "/var/folders/");
      ContainsIsFragment(low, "/private/var/folders/");
      ContainsIsFragment(low, "\\temp\\");
    }
    forall key ensures Live(lockfile.packages, key) <==> IsInstall(lockfile.packages, key) {
      DeclaredIsListed(lockfile.packages, key, "");
    }
  }

  lemma {:induction false} LowerAsciiSays(s: string, i: nat)
    requires i < |s|
    ensures |LowerAscii(s)| == |s|
    ensures 'A' <= s[i] <= 'Z' ==> LowerAscii(s)[i] as int == s[i] as int + 32
    ensures !('A' <= s[i] <= 'Z') ==> LowerAscii(s)[i] == s[i]
  {
  }
}
