/** Dependency rows as cached with a scan (arguss/web/url_scan.py), and what parsed ones are worth. */
module DepRows {
  import opened Basics
  import opened InstallKeys
  import opened Sorting
  import opened DisplayRoutes
  import opened LockfileParser

  /** A serialised row; hand-built rows may have no install key and no parents at all. */
  datatype DepRow = DepRow(
    package: string, version: string, isDirect: bool, installKey: Option<string>, parents: Option<seq<string>>)

  ghost predicate Serialises(r: DepRow, d: Dependency) {
    && r.package == d.name && r.version == d.version && r.isDirect == d.direct && r.installKey == Some(d.installKey)
    && r.parents.Some? && forall p :: p in r.parents.value <==> p in d.parents
  }

  /** `serialize_lockfile_deps`: the parsed list, row by row. */
  ghost predicate SerialisedFrom(rows: seq<DepRow>, lockfile: Lockfile, deps: map<string, Dependency>,
      list: seq<Dependency>)
  {
    && Parses(lockfile, deps) && ListsRows(list, deps)
    && |rows| == |list| && forall i | 0 <= i < |list| :: Serialises(rows[i], list[i])
  }

  lemma {:induction false} NonEmptyParts(parts: seq<string>)
    ensures forall i | 0 <= i < |NonEmpty(parts)| :: NonEmpty(parts)[i] != ""
  {
    if parts != [] { NonEmptyParts(parts[1..]); }
  }

  /** A parsed row has a name, a version and an install key. */
  lemma {:induction false} ParsedRowsAreNamed(lockfile: Lockfile, deps: map<string, Dependency>, key: string)
    requires Parses(lockfile, deps) && key in deps
    ensures key != "" && deps[key].installKey == key && deps[key].name != "" && deps[key].version != ""
  {
    hide IsNameGraph, IsShortestPred, LockfileParser.ParentsOf, DisplayPath, NonEmpty, Split;
    var g, pred :| RoutedBy(lockfile.packages, deps, g, pred);
    assert Installed(lockfile.packages, key) && deps[key] == Dep(lockfile.packages, key, pred);
    var parts := Split(key);
    var head := if StartsWith(parts[0], PREFIX) then parts[0][13..] else parts[0];
    NonEmptyParts([head] + parts[1..]);
  }

  /** Serialised rows carry pairwise distinct, non-empty install keys, and every parsed node is among them. */
  lemma {:induction false} SerialisedRowsAreSound(rows: seq<DepRow>, lockfile: Lockfile,
      deps: map<string, Dependency>, list: seq<Dependency>)
    requires SerialisedFrom(rows, lockfile, deps, list)
    ensures forall i | 0 <= i < |rows| :: rows[i].installKey.Some? && rows[i].installKey != Some("")
    ensures forall i, j | 0 <= i < j < |rows| :: rows[i].installKey != rows[j].installKey
    ensures forall key | key in deps :: exists r | r in rows :: Serialises(r, deps[key])
  {
    hide Parses, InOrder;
    forall i | 0 <= i < |rows|
      ensures list[i].installKey in deps && deps[list[i].installKey] == list[i] && list[i].installKey != ""
    {
      assert list[i] in list;
      ParsedRowsAreNamed(lockfile, deps, list[i].installKey);
    }
    forall i, j | 0 <= i < j < |rows| ensures rows[i].installKey != rows[j].installKey { assert list[i] != list[j]; }
    forall key | key in deps ensures exists r | r in rows :: Serialises(r, deps[key]) {
      ParsedRowsAreNamed(lockfile, deps, key);
      assert deps[key] in list;
      var i :| 0 <= i < |list| && list[i] == deps[key];
      assert rows[i] in rows;
    }
  }
}
