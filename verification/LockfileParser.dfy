/**
 Lockfile parsing (arguss/core/parser.py): which physical install serves each declared
 dependency, who declares it, and the route shown for it. Dictionaries are maps; the order in
 which a dictionary is iterated is left open.
 */
module LockfileParser {
  import opened Basics
  import opened InstallKeys
  import opened DisplayRoutes
  import opened Sorting

  /** A declared range; manifests may hold something other than text. */
  datatype Range = Text(text: string) | NotText

  datatype Entry = Entry(
    version: Option<string>, resolved: Option<string>, integrity: Option<string>,
    link: bool, extraneous: bool, deps: map<string, Range>, devDeps: map<string, Range>)

  datatype Node = Object(entry: Entry) | NotObject

  type Packages = map<string, Node>

  datatype Lockfile = Lockfile(lockfileVersion: Option<int>, packages: Packages)

  datatype Dependency = Dependency(
    name: string, version: string, direct: bool, installKey: string, path: seq<string>, parents: set<string>)

  // ---- What an entry says ----

  /** An entry that resolution may land on: an object with a version, not a link, not extraneous. */
  predicate Live(packages: Packages, key: string) {
    && key in packages && packages[key].Object?
    && var e := packages[key].entry;
       !e.link && !e.extraneous && e.version.Some? && e.version.value != ""
  }

  /** Pass 1 keeps this key. */
  predicate Installed(packages: Packages, key: string) {
    StartsWith(key, PREFIX) && Live(packages, key) && ParsePackagePath(key) != []
  }

  function InstalledName(key: string): string
    requires ParsePackagePath(key) != []
  {
    var chain := ParsePackagePath(key); chain[|chain| - 1]
  }

  /** `_logical_parent_name_for_pkg_path` */
  function LogicalParent(key: string): Option<string> {
    if key == "" then Some(ROOT)
    else if !StartsWith(key, PREFIX) || ParsePackagePath(key) == [] then None
    else Some(InstalledName(key))
  }

  /** `_child_dep_keys_for_packages_entry` */
  function Declared(packages: Packages, key: string): set<string>
    requires key in packages
  {
    match packages[key]
    case NotObject => {}
    case Object(e) => if key == "" then e.deps.Keys + e.devDeps.Keys else e.deps.Keys
  }

  /** `_extract_direct_dep_names` */
  function DirectNames(packages: Packages): set<string> {
    if "" in packages then Declared(packages, "") else {}
  }

  /** An entry whose `.get` raises: it is looked at but is not an object. */
  predicate Malformed(packages: Packages) {
    exists key | key in packages :: (key == "" || StartsWith(key, PREFIX)) && packages[key].NotObject?
  }

  function LowerAscii(s: string): string {
    seq(|s|, i requires 0 <= i < |s| => if 'A' <= s[i] <= 'Z' then s[i] - 'A' + 'a' else s[i])
  }

  predicate Contains(s: string, t: string) {
    exists i | 0 <= i <= |s| :: StartsWith(s[i..], t)
  }

  /** `_assert_install_key_is_lockfile_relative` raises (the key is known to begin with the prefix). */
  predicate ForbiddenKey(key: string) {
    || Contains(key, "://")
    || Contains(LowerAscii(key), "/tmp/") || Contains(LowerAscii(key), "/var/folders/")
    || Contains(LowerAscii(key), "/private/var/folders/") || Contains(LowerAscii(key), "\\temp\\")
  }

  // ---- Nearest-ancestor resolution ----

  function FirstLive(packages: Packages, scopes: seq<string>, child: string): Option<string> {
    if scopes == [] then None
    else if Live(packages, Child(scopes[0], child)) then Some(Child(scopes[0], child))
    else FirstLive(packages, scopes[1..], child)
  }

  function Resolve(packages: Packages, declarer: string, child: string): Option<string> {
    FirstLive(packages, Ancestors(declarer), child)
  }

  /** `_resolve_physical_install_key` */
  method ResolvePhysicalInstallKey(declarer: string, child: string, packages: Packages) returns (k: Option<string>)
    ensures k == Resolve(packages, declarer, child)
  {
    hide Ancestors, Child;
    var prefixes := AncestorNodeModulesPrefixes(declarer);
    var i := 0;
    while i < |prefixes|
      invariant 0 <= i <= |prefixes|
      invariant Resolve(packages, declarer, child) == FirstLive(packages, prefixes[i..], child)
    {
      assert prefixes[i..][1..] == prefixes[i + 1..];
      var candidate := Child(prefixes[i], child);
      if candidate in packages && packages[candidate].Object? {
        var e := packages[candidate].entry;
        if !(e.link || e.extraneous) && e.version.Some? && e.version.value != "" {
          return Some(candidate);
        }
      }
      i := i + 1;
    }
    k := None;
  }

  lemma {:induction false} FirstLiveIsFirst(packages: Packages, scopes: seq<string>, child: string)
    ensures var k := FirstLive(packages, scopes, child);
      if k.None? then forall i | 0 <= i < |scopes| :: !Live(packages, Child(scopes[i], child))
      else exists i | 0 <= i < |scopes| ::
        && k.value == Child(scopes[i], child) && Live(packages, k.value)
        && forall j | 0 <= j < i :: !Live(packages, Child(scopes[j], child))
  {
    if scopes != [] && !Live(packages, Child(scopes[0], child)) {
      FirstLiveIsFirst(packages, scopes[1..], child);
      var k := FirstLive(packages, scopes[1..], child);
      if k.Some? {
        var i :| 0 <= i < |scopes[1..]| && k.value == Child(scopes[1..][i], child) && Live(packages, k.value)
              && forall j | 0 <= j < i :: !Live(packages, Child(scopes[1..][j], child));
        forall j | 0 <= j < i + 1 ensures !Live(packages, Child(scopes[j], child)) {
          if j > 0 { assert scopes[j] == scopes[1..][j - 1]; }
        }
        assert scopes[i + 1] == scopes[1..][i];
      } else {
        forall i | 0 <= i < |scopes| ensures !Live(packages, Child(scopes[i], child)) {
          if i > 0 { assert scopes[i] == scopes[1..][i - 1]; }
        }
      }
    }
  }

  /** `child`, declared at `chain`, is served by a copy installed `n` scopes deep. */
  predicate ServedAt(packages: Packages, chain: seq<string>, child: string, n: nat)
    requires n <= |chain|
  {
    Live(packages, Encode(chain[..n] + [child]))
  }

  lemma {:induction false} EncodeChild(chain: seq<string>, n: nat, child: string)
    requires n <= |chain|
    ensures Encode(chain[..n] + [child]) == Child(Encode(chain[..n]), child)
  {
    var c := chain[..n] + [child];
    assert c[..|c| - 1] == chain[..n];
  }

  /** Resolution returns the deepest live copy in scope, and fails only when there is none. */
  lemma {:induction false} NearestAncestorIsExact(packages: Packages, chain: seq<string>, child: string)
    requires ValidChain(chain)
    ensures var k := Resolve(packages, Encode(chain), child);
      if k.None? then forall n: nat | n <= |chain| :: !ServedAt(packages, chain, child, n)
      else exists n: nat | n <= |chain| ::
        && k.value == Encode(chain[..n] + [child]) && ServedAt(packages, chain, child, n)
        && forall m: nat | n < m <= |chain| :: !ServedAt(packages, chain, child, m)
  {
    hide Live, Ancestors, Child, Encode, FirstLive, ValidChain;
    var scopes := Ancestors(Encode(chain));
    AncestorsAreEnclosingScopes(chain);
    FirstLiveIsFirst(packages, scopes, child);
    forall n: nat | n <= |chain| ensures Encode(chain[..n] + [child]) == Child(scopes[|chain| - n], child) {
      EncodeChild(chain, n, child);
      assert scopes[|chain| - n] == Encode(chain[..|chain| - (|chain| - n)]);
    }
    var k := FirstLive(packages, scopes, child);
    if k.Some? {
      var i :| 0 <= i < |scopes| && k.value == Child(scopes[i], child) && Live(packages, k.value)
            && forall j | 0 <= j < i :: !Live(packages, Child(scopes[j], child));
      var n: nat := |chain| - i;
      assert ServedAt(packages, chain, child, n);
    } else {
      forall n: nat | n <= |chain| ensures !ServedAt(packages, chain, child, n) {
        assert !Live(packages, Child(scopes[|chain| - n], child));
      }
    }
  }

  /** Keys and declared names are those npm writes: chains of package names. */
  ghost predicate Canonical(packages: Packages) {
    && (forall key | key in packages && StartsWith(key, PREFIX) ::
          exists chain :: chain != [] && ValidChain(chain) && key == Encode(chain))
    && (forall key, child | key in packages && child in Declared(packages, key) :: ValidName(child))
  }

  lemma {:induction false} KeyIsChain(packages: Packages, key: string) returns (chain: seq<string>)
    requires Canonical(packages) && key in packages && LogicalParent(key).Some?
    ensures ValidChain(chain) && key == Encode(chain)
  {
    hide ValidChain, ParsePackagePath;
    if key == "" {
      chain := [];
      assert ValidChain(chain) by { NoNames(); }
    } else {
      chain :| chain != [] && ValidChain(chain) && key == Encode(chain);
    }
  }

  lemma {:induction false} NoNames()
    ensures ValidChain([])
  {
  }

  /** The `target_key not in install_keys` guard never drops an edge that resolved. */
  lemma {:induction false} ResolvedIsInstalled(packages: Packages, key: string, child: string)
    requires Canonical(packages) && key in packages && LogicalParent(key).Some? && child in Declared(packages, key)
    requires Resolve(packages, key, child).Some?
    ensures Installed(packages, Resolve(packages, key, child).value)
    ensures InstalledName(Resolve(packages, key, child).value) == child
  {
    hide Resolve, Encode, ParsePackagePath, LogicalParent, StartsWith, ValidName;
    var chain := KeyIsChain(packages, key);
    NearestAncestorIsExact(packages, chain, child);
    var k := Resolve(packages, key, child).value;
    var n: nat :| n <= |chain| && k == Encode(chain[..n] + [child]) && ServedAt(packages, chain, child, n);
    DecodeEncode(chain[..n] + [child]);
  }

  // ---- Maps of sets, filled by `setdefault(k, set()).add(v)` ----

  type Groups = map<string, set<string>>

  function AddTo(m: Groups, k: string, v: string): Groups {
    m[k := (if k in m then m[k] else {}) + {v}]
  }

  ghost predicate Grouped(m: Groups, pairs: set<(string, string)>) {
    && (forall k | k in m :: m[k] != {})
    && (forall k, v :: (k in m && v in m[k]) <==> (k, v) in pairs)
  }

  lemma {:induction false} AddToGrouped(m: Groups, pairs: set<(string, string)>, k: string, v: string)
    requires Grouped(m, pairs)
    ensures Grouped(AddTo(m, k, v), pairs + {(k, v)})
  {
    var m' := AddTo(m, k, v);
    forall a, b ensures (a in m' && b in m'[a]) <==> (a, b) in pairs + {(k, v)} {
      assert (a in m && b in m[a]) <==> (a, b) in pairs;
    }
  }

  lemma {:induction false} GroupedIsUnique(m: Groups, m': Groups, pairs: set<(string, string)>)
    requires Grouped(m, pairs) && Grouped(m', pairs)
    ensures m == m'
  {
    forall k ensures k in m <==> k in m' {
      if k in m { var v :| v in m[k]; assert (k, v) in pairs; }
      if k in m' { var v :| v in m'[k]; assert (k, v) in pairs; }
    }
    forall k | k in m ensures m[k] == m'[k] {
      forall v ensures v in m[k] <==> v in m'[k] { assert v in m[k] <==> (k, v) in pairs; }
    }
  }

  // ---- The two declarer relations ----

  /** Physical edges follow resolution; name-level edges only feed the display route. */
  datatype Level = Physical | NameLevel

  function InstalledNames(packages: Packages): set<string> {
    set key | key in packages && Installed(packages, key) :: InstalledName(key)
  }

  /** What one declaration adds: (install key or name served, declarer). */
  function EdgeFor(level: Level, packages: Packages, key: string, child: string): Option<(string, string)> {
    var parent := LogicalParent(key);
    if parent.None? then None
    else match level
      case Physical =>
        var target := Resolve(packages, key, child);
        if target.Some? && Installed(packages, target.value) then Some((target.value, parent.value)) else None
      case NameLevel =>
        if child in InstalledNames(packages) then Some((child, parent.value)) else None
  }

  /** All (entry key, declared name) pairs. */
  function Declarations(packages: Packages): set<(string, string)> {
    set key, child | key in packages && child in Declared(packages, key) :: (key, child)
  }

  function EdgesFrom(level: Level, packages: Packages, seen: set<(string, string)>): set<(string, string)> {
    set d | d in seen && EdgeFor(level, packages, d.0, d.1).Some? :: EdgeFor(level, packages, d.0, d.1).value
  }

  function Edges(level: Level, packages: Packages): set<(string, string)> {
    EdgesFrom(level, packages, Declarations(packages))
  }

  lemma {:induction false} SeeDeclaration(level: Level, packages: Packages, m: Groups, seen: set<(string, string)>,
      key: string, child: string)
    requires Grouped(m, EdgesFrom(level, packages, seen))
    ensures var e := EdgeFor(level, packages, key, child);
      Grouped(if e.Some? then AddTo(m, e.value.0, e.value.1) else m,
          EdgesFrom(level, packages, seen + {(key, child)}))
  {
    var e := EdgeFor(level, packages, key, child);
    EdgesFromOneMore(level, packages, seen, (key, child));
    if e.Some? {
      AddToGrouped(m, EdgesFrom(level, packages, seen), e.value.0, e.value.1);
      assert e.value == (e.value.0, e.value.1);
    }
  }

  lemma {:induction false} EdgesFromOneMore(level: Level, packages: Packages, seen: set<(string, string)>,
      d: (string, string))
    ensures var e := EdgeFor(level, packages, d.0, d.1);
      EdgesFrom(level, packages, seen + {d}) ==
          EdgesFrom(level, packages, seen) + if e.Some? then {e.value} else {}
  {}

  /** `_build_install_parents_map` and `_build_name_level_parents_map`: one declaration at a time. */
  method BuildParentsMap(level: Level, packages: Packages) returns (parents: Groups)
    ensures Grouped(parents, Edges(level, packages))
  {
    parents := map[];
    ghost var seen: set<(string, string)> := {};
    var keys := packages.Keys;
    while keys != {}
      invariant keys <= packages.Keys
      invariant Grouped(parents, EdgesFrom(level, packages, seen))
      invariant forall k, c :: (k, c) in seen <==> k in packages && k !in keys && c in Declared(packages, k)
      decreases keys
    {
      var key :| key in keys;
      var children := Declared(packages, key);
      while children != {}
        invariant children <= Declared(packages, key)
        invariant Grouped(parents, EdgesFrom(level, packages, seen))
        invariant forall k, c :: (k, c) in seen <==>
          k in packages && c in Declared(packages, k) && (k !in keys || (k == key && c !in children))
        decreases children
      {
        var child :| child in children;
        SeeDeclaration(level, packages, parents, seen, key, child);
        parents := AddEdge(level, packages, parents, key, child);
        seen := seen + {(key, child)};
        children := children - {child};
      }
      keys := keys - {key};
    }
    assert seen == Declarations(packages);
  }

  /** Body of the innermost loop of both builders. */
  method AddEdge(level: Level, packages: Packages, m: Groups, key: string, child: string) returns (m': Groups)
    ensures var e := EdgeFor(level, packages, key, child);
      m' == if e.Some? then AddTo(m, e.value.0, e.value.1) else m
  {
    m' := m;
    var parent := LogicalParent(key);
    if parent.None? { return; }
    match level
    case Physical =>
      var target := ResolvePhysicalInstallKey(key, child, packages);
      if target.None? || !Installed(packages, target.value) { return; }
      m' := AddTo(m, target.value, parent.value);
    case NameLevel =>
      if child !in InstalledNames(packages) { return; }
      m' := AddTo(m, child, parent.value);
  }

  /** `declarer`'s entry at `key` declares `child`, and resolution lands on `install`. */
  ghost predicate DeclaredEdge(packages: Packages, key: string, child: string, declarer: string, install: string) {
    && key in packages && child in Declared(packages, key)
    && LogicalParent(key) == Some(declarer) && Resolve(packages, key, child) == Some(install)
  }

  lemma {:induction false} EdgeIffDeclared(packages: Packages, install: string, declarer: string)
    requires Canonical(packages)
    ensures (install, declarer) in Edges(Physical, packages) <==>
      exists key, child :: DeclaredEdge(packages, key, child, declarer, install)
  {
    hide Resolve, LogicalParent, Installed, ParsePackagePath, Declared, Canonical;
    if exists key, child :: DeclaredEdge(packages, key, child, declarer, install) {
      var key, child :| DeclaredEdge(packages, key, child, declarer, install);
      ResolvedIsInstalled(packages, key, child);
      assert (key, child) in Declarations(packages) &&
          EdgeFor(Physical, packages, key, child) == Some((install, declarer));
      assert (install, declarer) in Edges(Physical, packages);
    }
    if (install, declarer) in Edges(Physical, packages) {
      var d :| d in Declarations(packages) && EdgeFor(Physical, packages, d.0, d.1) == Some((install, declarer));
      assert DeclaredEdge(packages, d.0, d.1, declarer, install);
    }
  }

  /** An install's recorded parents are exactly its resolved declarers. */
  lemma {:induction false} ParentsAreExactlyResolvedDeclarers(packages: Packages, parents: Groups, install: string,
      declarer: string)
    requires Canonical(packages) && Grouped(parents, Edges(Physical, packages))
    ensures (install in parents && declarer in parents[install]) <==>
      exists key, child :: DeclaredEdge(packages, key, child, declarer, install)
  {
    hide Edges, DeclaredEdge;
    EdgeIffDeclared(packages, install, declarer);
  }

  function Flip(pairs: set<(string, string)>): set<(string, string)> {
    set e | e in pairs :: (e.1, e.0)
  }

  /** `_children_from_parents_map` */
  method ChildrenFromParentsMap(parents: Groups, ghost pairs: set<(string, string)>) returns (children: Groups)
    requires Grouped(parents, pairs)
    ensures Grouped(children, Flip(pairs))
  {
    children := map[];
    ghost var seen: set<(string, string)> := {};
    var todo := parents.Keys;
    while todo != {}
      invariant todo <= parents.Keys && Grouped(children, seen)
      invariant forall p, c :: (p, c) in seen <==> c in parents && c !in todo && p in parents[c]
      decreases todo
    {
      var child :| child in todo;
      var ps := parents[child];
      while ps != {}
        invariant ps <= parents[child] && Grouped(children, seen)
        invariant forall p, c :: (p, c) in seen <==>
          c in parents && p in parents[c] && (c !in todo || (c == child && p !in ps))
        decreases ps
      {
        var p :| p in ps;
        AddToGrouped(children, seen, p, child);
        children := AddTo(children, p, child);
        seen := seen + {(p, child)};
        ps := ps - {p};
      }
      todo := todo - {child};
    }
    forall e ensures e in seen <==> e in Flip(pairs) {
      assert e == (e.0, e.1) && ((e.1, e.0).1, (e.1, e.0).0) == e;
      assert e in Flip(pairs) <==> (e.1, e.0) in pairs by {
        if e in Flip(pairs) { var f :| f in pairs && (f.1, f.0) == e; assert f == (e.1, e.0); }
      }
    }
    assert seen == Flip(pairs);
  }

  // ---- Parsing ----

  /** Value of `_canonical_display_path`: lex-first parent, then its display route. */
  ghost function DisplayPath(parents: set<string>, child: string, pred: map<string, string>): seq<string> {
    if parents == {} then [ROOT, child] else Ending(LogicalPath(Least(parents), pred), child)
  }

  function Ending(base: seq<string>, child: string): seq<string> {
    if base != [] && base[|base| - 1] == child then base else base + [child]
  }

  ghost function Least(s: set<string>): (x: string)
    requires s != {}
    ensures x in s && forall y | y in s :: AtMost(x, y)
  {
    assert exists x :: x in s && forall y | y in s :: AtMost(x, y) by { var x := LeastString(s); }
    var x :| x in s && forall y | y in s :: AtMost(x, y);
    x
  }

  /**
   What a displayed route is: it leads from root to the child over the first declarer, by a shortest walk to
   that declarer when the name graph reaches it, and else straight through it.
   */
  ghost predicate ShowsRoute(g: Graph, parents: set<string>, child: string, path: seq<string>) {
    && path != [] && path[0] == ROOT && path[|path| - 1] == child
    && if parents == {} then path == [ROOT, child]
       else
         var first := Least(parents);
         var lead := if first == child then path else path[..|path| - 1];
         && (Reachable(g, first) ==> IsShortestWalk(g, lead, first))
         && (!Reachable(g, first) ==> lead == [ROOT, first])
  }

  lemma {:induction false} DisplayPathShowsRoute(g: Graph, parents: set<string>, child: string,
      pred: map<string, string>)
    requires IsShortestPred(g, pred)
    ensures ShowsRoute(g, parents, child, DisplayPath(parents, child, pred))
  {
    hide IsShortestPred, Reachable, IsDist, LogicalPath;
    if parents != {} {
      var base := LogicalPath(Least(parents), pred);
      LogicalPathIsShortest(g, pred, Least(parents));
      assert (base + [child])[..|base|] == base;
    }
  }

  function ParentsOf(level: Level, packages: Packages, key: string): (parents: set<string>)
    ensures parents != {}
  {
    var ps := set e | e in Edges(level, packages) && e.0 == key :: e.1;
    if ps == {} then {ROOT} else ps
  }

  ghost function Dep(packages: Packages, key: string, pred: map<string, string>): Dependency
    requires Installed(packages, key)
  {
    var name := InstalledName(key);
    var parents := ParentsOf(Physical, packages, key);
    Dependency(name, packages[key].entry.version.value, name in DirectNames(packages), key,
        DisplayPath(parents, name, pred), parents)
  }

  ghost predicate Accepted(lockfile: Lockfile) {
    && lockfile.lockfileVersion in {Some(2), Some(3)}
    && !Malformed(lockfile.packages)
    && forall key | key in lockfile.packages && Installed(lockfile.packages, key) :: !ForbiddenKey(key)
  }

  /** The name-level graph searched for display routes. */
  ghost predicate IsNameGraph(g: Graph, packages: Packages) {
    Grouped(g, Flip(Edges(NameLevel, packages)))
  }

  /** `parse_lockfile` returned these rows, keyed by install key. */
  ghost predicate Parses(lockfile: Lockfile, deps: map<string, Dependency>) {
    && Accepted(lockfile)
    && deps.Keys == InstalledKeys(lockfile.packages)
    && exists g, pred :: RoutedBy(lockfile.packages, deps, g, pred)
  }

  /** The rows show the routes of a breadth-first search of the name graph. */
  ghost predicate RoutedBy(packages: Packages, deps: map<string, Dependency>, g: Graph, pred: map<string, string>)
    requires deps.Keys == InstalledKeys(packages)
  {
    && IsNameGraph(g, packages) && IsShortestPred(g, pred)
    && forall key | key in deps :: deps[key] == Dep(packages, key, pred)
  }

  function InstalledKeys(packages: Packages): set<string> {
    set key | key in packages && Installed(packages, key)
  }

  /** `_canonical_display_path` */
  method CanonicalDisplayPath(g: Graph, parents: set<string>, child: string, pred: map<string, string>)
    returns (path: seq<string>)
    requires IsShortestPred(g, pred)
    ensures path == DisplayPath(parents, child, pred) && ShowsRoute(g, parents, child, path)
  {
    DisplayPathShowsRoute(g, parents, child, pred);
    if parents == {} { return [ROOT, child]; }
    ghost var least := LeastString(parents);
    var canon :| canon in parents && forall y | y in parents :: AtMost(canon, y);
    LeastIsUnique(parents, canon);
    var base := LogicalPathFromPred(g, canon, pred);
    path := Ending(base, child);
  }

  lemma {:induction false} LeastIsUnique(s: set<string>, x: string)
    requires x in s && forall y | y in s :: AtMost(x, y)
    ensures x == Least(s)
  {
    if x != Least(s) { LessAsymmetric(x, Least(s)); }
  }

  /** The order of the returned list: by name, then version. */
  predicate RowBefore(a: Dependency, b: Dependency) {
    if a.name != b.name then Less(a.name, b.name) else Less(a.version, b.version)
  }

  /** Every row once, in that order. */
  ghost predicate ListsRows(rows: seq<Dependency>, deps: map<string, Dependency>) {
    && Distinct(rows) && InOrder(RowBefore, rows)
    && forall d :: d in rows <==> d.installKey in deps && deps[d.installKey] == d
  }

  /** `list(by_install_key.values())`, sorted. */
  method SortedRows(deps: map<string, Dependency>) returns (rows: seq<Dependency>)
    requires forall key | key in deps :: deps[key].installKey == key
    ensures ListsRows(rows, deps)
  {
    var listed: seq<Dependency> := [];
    var todo := deps.Keys;
    while todo != {}
      invariant todo <= deps.Keys && Distinct(listed)
      invariant forall d :: d in listed <==> d.installKey in deps && d.installKey !in todo && deps[d.installKey] == d
      decreases todo
    {
      var key :| key in todo;
      listed := listed + [deps[key]];
      todo := todo - {key};
    }
    rows := Sort(RowBefore, listed);
    SortKeepsElements(RowBefore, listed);
    SortKeepsDistinct(RowBefore, listed);
    RowBeforeIsAsymmetric();
    SortIsInOrder(RowBefore, listed);
  }

  lemma {:induction false} RowBeforeIsAsymmetric()
    ensures forall a, b | RowBefore(a, b) :: !RowBefore(b, a)
  {
    forall x, y | Less(x, y) ensures !Less(y, x) { LessAsymmetric(x, y); }
  }

  datatype ParseResult = Parsed(deps: map<string, Dependency>, rows: seq<Dependency>) | ParserError

  /** `parse_lockfile` on an already loaded document; a non-object entry raises. */
  method ParseLockfile(lockfile: Lockfile) returns (r: ParseResult)
    ensures r.ParserError? <==> !Accepted(lockfile)
    ensures r.Parsed? ==> Parses(lockfile, r.deps) && ListsRows(r.rows, r.deps)
  {
    var packages := lockfile.packages;
    if lockfile.lockfileVersion !in {Some(2), Some(3)} || Malformed(packages) { return ParserError; }
    var keys := packages.Keys;
    var kept: set<string> := {};
    while keys != {}
      invariant keys <= packages.Keys
      invariant kept == set key | key in packages && key !in keys && Installed(packages, key)
      invariant forall key | key in kept :: !ForbiddenKey(key)
      decreases keys
    {
      var key :| key in keys;
      if Installed(packages, key) {
        if ForbiddenKey(key) { return ParserError; }
        kept := kept + {key};
      }
      keys := keys - {key};
    }
    var deps := ResolveLogicalRelationships(lockfile, kept);
    RowsKnowTheirKeys(lockfile, deps);
    var rows := SortedRows(deps);
    r := Parsed(deps, rows);
  }

  lemma {:induction false} RowsKnowTheirKeys(lockfile: Lockfile, deps: map<string, Dependency>)
    requires Parses(lockfile, deps)
    ensures forall key | key in deps :: deps[key].installKey == key
  {
    hide IsNameGraph, IsShortestPred, ParentsOf, DisplayPath, Installed;
    var g, pred :| RoutedBy(lockfile.packages, deps, g, pred);
    forall key | key in deps ensures deps[key].installKey == key {
      assert Installed(lockfile.packages, key) && deps[key] == Dep(lockfile.packages, key, pred);
    }
  }

  /** `_resolve_logical_relationships_per_install` */
  method ResolveLogicalRelationships(lockfile: Lockfile, kept: set<string>) returns (deps: map<string, Dependency>)
    requires Accepted(lockfile)
    requires kept == InstalledKeys(lockfile.packages)
    ensures Parses(lockfile, deps)
  {
    hide Edges, Grouped, IsShortestPred, Malformed, ForbiddenKey, ParentsOf, DisplayPath;
    var packages := lockfile.packages;
    var parentsOf := BuildParentsMap(Physical, packages);
    var nameParents := BuildParentsMap(NameLevel, packages);
    var g := ChildrenFromParentsMap(nameParents, Edges(NameLevel, packages));
    var pred := BfsShortestPred(g);
    deps := map[];
    var todo := kept;
    while todo != {}
      invariant todo <= kept && deps.Keys == kept - todo
      invariant forall key | key in deps :: deps[key] == Dep(packages, key, pred)
      decreases todo
    {
      var key :| key in todo;
      var parents := if key in parentsOf then parentsOf[key] else {ROOT};
      GroupIsParents(packages, parentsOf, key);
      var name := InstalledName(key);
      var path := CanonicalDisplayPath(g, parents, name, pred);
      var dep := Dependency(name, packages[key].entry.version.value, name in DirectNames(packages), key, path, parents);
      deps := deps[key := dep];
      todo := todo - {key};
    }
    assert RoutedBy(packages, deps, g, pred);
  }

  lemma {:induction false} GroupIsParents(packages: Packages, groups: Groups, key: string)
    requires Grouped(groups, Edges(Physical, packages))
    ensures (if key in groups then groups[key] else {ROOT}) == ParentsOf(Physical, packages, key)
  {
    var ps := set e | e in Edges(Physical, packages) && e.0 == key :: e.1;
    forall p ensures (key in groups && p in groups[key]) <==> p in ps {
      if p in ps { var e :| e in Edges(Physical, packages) && e.0 == key && e.1 == p; assert e == (key, p); }
    }
    if key in groups {
      assert groups[key] == ps;
    } else {
      assert ps == {};
    }
  }

  // ---- What a parsed row's path shows ----

  /** Some declared edge resolves to this install. */
  ghost predicate HasDeclarer(packages: Packages, install: string) {
    exists key, child, declarer :: DeclaredEdge(packages, key, child, declarer, install)
  }

  lemma {:induction false} RecordedParentIsEdge(packages: Packages, install: string, parent: string)
    requires Canonical(packages) && HasDeclarer(packages, install) && parent in ParentsOf(Physical, packages, install)
    ensures (install, parent) in Edges(Physical, packages)
  {
    hide Resolve, LogicalParent, Installed, ParsePackagePath, Declared, Canonical;
    var key, child, declarer :| DeclaredEdge(packages, key, child, declarer, install);
    ResolvedIsInstalled(packages, key, child);
    assert (key, child) in Declarations(packages) &&
        EdgeFor(Physical, packages, key, child) == Some((install, declarer));
    var edges := Edges(Physical, packages);
    assert (install, declarer) in edges;
    var ps := set e | e in edges && e.0 == install :: e.1;
    assert (install, declarer).1 in ps;
    var e :| e in edges && e.0 == install && e.1 == parent;
    assert e == (install, parent);
  }

  /** A resolved edge is also one between names. */
  lemma {:induction false} ResolvedEdgeIsNamed(packages: Packages, install: string, parent: string)
    requires Canonical(packages) && Installed(packages, install) && (install, parent) in Edges(Physical, packages)
    ensures (InstalledName(install), parent) in Edges(NameLevel, packages)
  {
    hide Resolve, LogicalParent, ParsePackagePath, Declared, Canonical;
    var d :| d in Declarations(packages) && EdgeFor(Physical, packages, d.0, d.1) == Some((install, parent));
    ResolvedIsInstalled(packages, d.0, d.1);
    assert InstalledName(install) == d.1;
    assert d.1 in InstalledNames(packages);
    assert EdgeFor(NameLevel, packages, d.0, d.1) == Some((d.1, parent));
  }

  /** Every recorded parent of a declared install has a name-level edge to the install's name. */
  lemma {:induction false} RecordedParentsDeclare(packages: Packages, g: Graph, install: string, parent: string)
    requires Canonical(packages) && IsNameGraph(g, packages) && HasDeclarer(packages, install)
    requires Installed(packages, install) && parent in ParentsOf(Physical, packages, install)
    ensures Edge(g, parent, InstalledName(install))
  {
    hide Edges, ParentsOf, Canonical, HasDeclarer, ParsePackagePath, Live;
    RecordedParentIsEdge(packages, install, parent);
    ResolvedEdgeIsNamed(packages, install, parent);
    var e := (InstalledName(install), parent);
    assert e in Edges(NameLevel, packages) && (e.1, e.0) in Flip(Edges(NameLevel, packages));
  }

  /**
   The path of a parsed row leads from root to the row's name. If anything declares the install, the path is a
   walk of the name graph exactly when its first declarer is reachable there, and shortest up to that declarer;
   otherwise it is `[root, declarer, name]`, which is no walk.
   */
  lemma {:induction false} ParsedPathIsWalkIff(packages: Packages, deps: map<string, Dependency>, g: Graph,
      pred: map<string, string>, key: string)
    requires Canonical(packages) && deps.Keys == InstalledKeys(packages) && RoutedBy(packages, deps, g, pred)
    requires key in deps
    ensures deps[key].parents != {} && ShowsRoute(g, deps[key].parents, deps[key].name, deps[key].path)
    ensures HasDeclarer(packages, key) ==> (IsWalk(g, deps[key].path) <==> Reachable(g, Least(deps[key].parents)))
  {
    hide IsShortestPred, IsNameGraph, ParentsOf, DisplayPath, Canonical, HasDeclarer, Installed, Reachable,
        ShowsRoute;
    var d := deps[key];
    assert Installed(packages, key);
    assert d == Dep(packages, key, pred);
    DisplayPathShowsRoute(g, d.parents, d.name, pred);
    if HasDeclarer(packages, key) {
      RecordedParentsDeclare(packages, g, key, Least(d.parents));
      WalkOverFirst(g, d.parents, d.name, d.path);
    }
  }

  lemma {:induction false} LeadIsWalkIff(g: Graph, first: string, lead: seq<string>)
    requires Reachable(g, first) ==> IsShortestWalk(g, lead, first)
    requires !Reachable(g, first) ==> lead == [ROOT, first]
    ensures lead != [] && lead[|lead| - 1] == first && (IsWalk(g, lead) <==> Reachable(g, first))
  {
    hide Reach, IsDist;
    if IsWalk(g, lead) { WalkReaches(g, lead); }
  }

  lemma {:induction false} WalkOverFirst(g: Graph, parents: set<string>, child: string, path: seq<string>)
    requires parents != {} && ShowsRoute(g, parents, child, path) && Edge(g, Least(parents), child)
    ensures IsWalk(g, path) <==> Reachable(g, Least(parents))
  {
    hide Reachable, IsDist, Edge, IsWalk, IsShortestWalk, Least;
    var first := Least(parents);
    var lead := if first == child then path else path[..|path| - 1];
    LeadIsWalkIff(g, first, lead);
    if first != child {
      assert path == lead + [child];
      WalkGrows(g, lead, child);
    }
  }

  lemma {:induction false} ParsedRowIs(lockfile: Lockfile, deps: map<string, Dependency>, key: string)
    requires Parses(lockfile, deps) && Installed(lockfile.packages, key)
    ensures key in deps && deps[key].name == InstalledName(key)
    ensures deps[key].version == lockfile.packages[key].entry.version.value
  {
    hide IsNameGraph, IsShortestPred, ParentsOf, DisplayPath, ParsePackagePath;
    var g, pred :| RoutedBy(lockfile.packages, deps, g, pred);
    assert key in InstalledKeys(lockfile.packages);
    assert deps[key] == Dep(lockfile.packages, key, pred);
  }

  // ---- Keys surely allowed ----

  /** Lower-case letters, underscores and slashes, no slash before the start of a forbidden fragment. */
  predicate Plain(key: string) {
    && (forall i | 0 <= i < |key| :: key[i] == '/' || key[i] == '_' || 'a' <= key[i] <= 'z')
    && forall i | 0 < i < |key| && key[i - 1] == '/' :: key[i] == 'n' || key[i] == 'x'
  }

  lemma {:induction false} PlainUnderPrefix(rest: string)
    requires Plain(rest) && rest != "" && (rest[0] == 'n' || rest[0] == 'x')
    ensures Plain(PREFIX + rest) && (PREFIX + rest)[0] == 'n'
  {
    assert Plain(PREFIX);
    var key := PREFIX + rest;
    forall i | 0 < i < |key| && key[i - 1] == '/' ensures key[i] == 'n' || key[i] == 'x' {
      if i > |PREFIX| { assert key[i - 1] == rest[i - 1 - |PREFIX|] && key[i] == rest[i - |PREFIX|]; }
    }
  }

  lemma {:induction false} PlainIsAllowed(key: string)
    requires Plain(key)
    ensures !ForbiddenKey(key)
  {
    forall i | 0 <= i < |key| ensures LowerAscii(key)[i] == key[i] {}
    assert LowerAscii(key) == key;
    PlainHoldsNot(key, "://");
    PlainHoldsNot(key, "/tmp/");
    PlainHoldsNot(key, "/var/folders/");
    PlainHoldsNot(key, "/private/var/folders/");
    PlainHoldsNot(key, "\\temp\\");
  }

  lemma {:induction false} FirstTwo(key: string, i: nat, t: string)
    requires i <= |key| && |t| > 1 && StartsWith(key[i..], t)
    ensures i + 1 < |key| && key[i] == t[0] && key[i + 1] == t[1]
  {
    assert key[i..][..|t|][0] == key[i] && key[i..][..|t|][1] == key[i + 1];
  }

  lemma {:induction false} PlainHoldsNot(key: string, t: string)
    requires Plain(key) && |t| > 1 && (t[0] in {':', '\\'} || (t[0] == '/' && t[1] != 'n' && t[1] != 'x'))
    ensures !Contains(key, t)
  {
    forall i | 0 <= i <= |key| ensures !StartsWith(key[i..], t) {
      if StartsWith(key[i..], t) { FirstTwo(key, i, t); }
    }
  }

  lemma {:induction false} LetterIsPlain(n: string)
    requires |n| == 1 && n[0] in {'n', 'x'}
    ensures Plain(n) && ValidName(n)
  {
  }
}
