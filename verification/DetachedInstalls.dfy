/**
 A lockfile whose display paths are not all walks (arguss/core/parser.py). The parser reads only two of the
 root's dependency sections, so what an optional or peer dependency brings in is installed and not reachable.
 */
module DetachedInstalls {
  import opened Basics
  import opened InstallKeys
  import opened DisplayRoutes
  import opened LockfileParser

  function Plainly(deps: map<string, Range>): Node {
    Object(Entry(Some("1"), None, None, false, false, deps, map[]))
  }

  /** `a`, which the root does not declare in a section that is read, and `c`, which `a` declares. */
  function DetachedLockfile(a: string, c: string): Lockfile {
    var declaring := Plainly(map[c := Text("1")]);
    Lockfile(Some(3), map["" := Plainly(map[]), PREFIX + a := declaring, PREFIX + c := Plainly(map[])])
  }

  lemma {:induction false} TopIsInstalled(packages: Packages, n: string)
    requires ValidName(n) && Live(packages, PREFIX + n)
    ensures Installed(packages, PREFIX + n) && InstalledName(PREFIX + n) == n
    ensures LogicalParent(PREFIX + n) == Some(n)
  {
    hide ParsePackagePath, Encode, Live, ValidName, FixerName;
    TopLevelKey(n);
    SingleIsValid(n);
    DecodeEncode([n]);
  }

  lemma {:induction false} TopKeysDiffer(a: string, c: string)
    requires ValidName(a) && ValidName(c) && a != c
    ensures PREFIX + a != PREFIX + c && PREFIX + a != "" && PREFIX + c != ""
    ensures Encode([a] + [c]) !in {"", PREFIX + a, PREFIX + c}
  {
    hide Encode, ValidName;
    TopLevelKey(a);
    TopLevelKey(c);
    SingleIsValid(a);
    SingleIsValid(c);
    assert ValidChain([a] + [c]) by { PairIsValid(a, c); }
    assert PREFIX + a != "" && PREFIX + c != "";
    if PREFIX + a == PREFIX + c { EncodeIsInjective([a], [c]); }
    if Encode([a] + [c]) == PREFIX + a { EncodeIsInjective([a] + [c], [a]); }
    if Encode([a] + [c]) == PREFIX + c { EncodeIsInjective([a] + [c], [c]); }
    DecodeEncode([a] + [c]);
  }

  lemma {:induction false} PairIsValid(a: string, c: string)
    requires ValidName(a) && ValidName(c)
    ensures ValidChain([a] + [c])
  {
  }

  lemma {:induction false} DetachedIsCanonical(a: string, c: string)
    requires ValidName(a) && ValidName(c)
    ensures Canonical(DetachedLockfile(a, c).packages)
  {
    hide Encode, ValidName;
    TopLevelKey(a);
    TopLevelKey(c);
    SingleIsValid(a);
    SingleIsValid(c);
  }

  /** The one declaration resolves to the top copy of `c`. */
  lemma {:induction false} ChildResolvesToTop(a: string, c: string)
    requires ValidName(a) && ValidName(c) && a != c
    ensures Resolve(DetachedLockfile(a, c).packages, PREFIX + a, c) == Some(PREFIX + c)
  {
    hide Encode, ValidName, Resolve, ValidChain;
    var packages := DetachedLockfile(a, c).packages;
    TopKeysDiffer(a, c);
    TopLevelKey(a);
    TopLevelKey(c);
    SingleIsValid(a);
    NearestAncestorIsExact(packages, [a], c);
    assert [a][..0] + [c] == [c] && [a][..1] + [c] == [a] + [c];
    assert ServedAt(packages, [a], c, 0) && !ServedAt(packages, [a], c, 1);
  }

  /** So `c` is declared, by `a` alone; and at both levels that is the only edge there is. */
  lemma {:induction false} OneEdge(a: string, c: string)
    requires ValidName(a) && ValidName(c) && a != c
    ensures var packages := DetachedLockfile(a, c).packages;
      && HasDeclarer(packages, PREFIX + c) && ParentsOf(Physical, packages, PREFIX + c) == {a}
      && Edges(NameLevel, packages) == {(c, a)}
  {
    hide Resolve, ParsePackagePath, ValidName, InstalledName, LogicalParent, Installed;
    var packages := DetachedLockfile(a, c).packages;
    TopKeysDiffer(a, c);
    TopIsInstalled(packages, a);
    TopIsInstalled(packages, c);
    ChildResolvesToTop(a, c);
    assert DeclaredEdge(packages, PREFIX + a, c, a, PREFIX + c);
    assert Declarations(packages) == {(PREFIX + a, c)};
    assert EdgeFor(Physical, packages, PREFIX + a, c) == Some((PREFIX + c, a));
    assert c in InstalledNames(packages);
    assert EdgeFor(NameLevel, packages, PREFIX + a, c) == Some((c, a));
    OnlyEdge(Physical, packages, (PREFIX + a, c));
    OnlyEdge(NameLevel, packages, (PREFIX + a, c));
    OneParent(packages, PREFIX + c, a);
  }

  lemma {:induction false} OneParent(packages: Packages, install: string, parent: string)
    requires Edges(Physical, packages) == {(install, parent)}
    ensures ParentsOf(Physical, packages, install) == {parent}
  {
    hide Edges;
    var ps := set e | e in Edges(Physical, packages) && e.0 == install :: e.1;
    assert (install, parent) in Edges(Physical, packages) && (install, parent).1 in ps;
    assert ps == {parent};
  }

  lemma {:induction false} OnlyEdge(level: Level, packages: Packages, d: (string, string))
    requires Declarations(packages) == {d} && EdgeFor(level, packages, d.0, d.1).Some?
    ensures Edges(level, packages) == {EdgeFor(level, packages, d.0, d.1).value}
  {
    hide EdgeFor;
  }

  /** Nothing leads to `a`. */
  lemma {:induction false} DeclarerIsUnreachable(g: Graph, a: string, c: string)
    requires Grouped(g, Flip({(c, a)})) && a != c && a != ROOT
    ensures !Reachable(g, a)
  {
    assert Flip({(c, a)}) == {(a, c)};
    forall p ensures !Edge(g, p, a) { assert Edge(g, p, a) <==> (p, a) in Flip({(c, a)}); }
    forall k: nat ensures !Reach(g, k, a) {}
  }

  lemma {:induction false} UnreachableIsShown(g: Graph, a: string, c: string, path: seq<string>)
    requires ShowsRoute(g, {a}, c, path) && !Reachable(g, a) && a != c
    ensures path == [ROOT, a, c]
  {
    hide Reachable, IsShortestWalk;
    assert Least({a}) == a;
    assert path == path[..|path| - 1] + [c];
  }

  /** Whatever parse of it: the path shown for `c` is `[root, a, c]`, and that is no walk of the name graph. */
  lemma {:induction false} DetachedPathIsNoWalk(a: string, c: string, deps: map<string, Dependency>, g: Graph,
      pred: map<string, string>)
    requires ValidName(a) && ValidName(c) && a != c && a != ROOT
    requires deps.Keys == InstalledKeys(DetachedLockfile(a, c).packages)
    requires RoutedBy(DetachedLockfile(a, c).packages, deps, g, pred)
    ensures PREFIX + c in deps && deps[PREFIX + c].path == [ROOT, a, c] && !IsWalk(g, deps[PREFIX + c].path)
  {
    hide IsShortestPred, Canonical, HasDeclarer, Reachable, ValidName, Edges, IsWalk, ShowsRoute, RoutedBy;
    var packages := DetachedLockfile(a, c).packages;
    DetachedIsCanonical(a, c);
    OneEdge(a, c);
    DetachedRow(a, c, deps, g, pred);
    NameGraphIsOneEdge(packages, deps, g, pred, a, c);
    DeclarerIsUnreachable(g, a, c);
    ParsedPathIsWalkIff(packages, deps, g, pred, PREFIX + c);
    assert Least({a}) == a;
    UnreachableIsShown(g, a, c, deps[PREFIX + c].path);
  }

  lemma {:induction false} NameGraphIsOneEdge(packages: Packages, deps: map<string, Dependency>, g: Graph,
      pred: map<string, string>, a: string, c: string)
    requires deps.Keys == InstalledKeys(packages) && RoutedBy(packages, deps, g, pred)
    requires Edges(NameLevel, packages) == {(c, a)}
    ensures Grouped(g, Flip({(c, a)}))
  {
    hide IsShortestPred, Edges, Grouped;
  }

  lemma {:induction false} DetachedRow(a: string, c: string, deps: map<string, Dependency>, g: Graph,
      pred: map<string, string>)
    requires ValidName(a) && ValidName(c) && a != c
    requires deps.Keys == InstalledKeys(DetachedLockfile(a, c).packages)
    requires RoutedBy(DetachedLockfile(a, c).packages, deps, g, pred)
    ensures PREFIX + c in deps && deps[PREFIX + c].name == c && deps[PREFIX + c].parents == {a}
  {
    hide IsShortestPred, IsNameGraph, ParentsOf, DisplayPath, Installed, InstalledName, ValidName, HasDeclarer;
    var packages := DetachedLockfile(a, c).packages;
    TopKeysDiffer(a, c);
    TopIsInstalled(packages, c);
    OneEdge(a, c);
    assert PREFIX + c in InstalledKeys(packages);
    assert deps[PREFIX + c] == Dep(packages, PREFIX + c, pred);
  }

  /** The parser accepts such a lockfile. */
  lemma {:induction false} DetachedLockfileIsAccepted()
    ensures ValidName("x") && ValidName("n") && Accepted(DetachedLockfile("x", "n"))
  {
    hide ForbiddenKey, Plain, ParsePackagePath, ValidName;
    LetterIsPlain("x");
    LetterIsPlain("n");
    PlainUnderPrefix("x");
    PlainUnderPrefix("n");
    PlainIsAllowed(PREFIX + "x");
    PlainIsAllowed(PREFIX + "n");
  }
}
