/**
 The subgraph of everything that pulls in one package (arguss/web/graph_data.py). A dependency row that is
 not a dictionary is skipped by the source and absent here; texts are trimmed.
 */
module BlastRadius {
  import opened Basics
  import opened Sorting
  import opened DepRows

  const ROOT_ID: string := "root"

  datatype Meta = Meta(version: string, isDirect: bool, parents: seq<string>)

  // ---- One entry per package name ----

  function ParentsIn(r: DepRow): set<string> {
    if r.parents.Some? then set p | p in r.parents.value && p != "" else {}
  }

  /** Everything any row of the package names as a parent. */
  function ParentsOf(rows: seq<DepRow>, name: string): set<string> {
    if rows == [] then {}
    else
      var last := rows[|rows| - 1];
      ParentsOf(rows[..|rows| - 1], name) + (if last.package == name then ParentsIn(last) else {})
  }

  /** The first version a row of the package states. */
  function VersionOf(rows: seq<DepRow>, name: string): string {
    if rows == [] then ""
    else
      var earlier, last := VersionOf(rows[..|rows| - 1], name), rows[|rows| - 1];
      if earlier == "" && last.package == name then last.version else earlier
  }

  predicate Names(rows: seq<DepRow>, name: string) {
    exists r | r in rows :: r.package == name
  }

  predicate DirectIn(rows: seq<DepRow>, name: string) {
    exists r | r in rows :: r.package == name && r.isDirect
  }

  datatype Draft = Draft(version: string, isDirect: bool, parents: set<string>)

  function DraftOf(rows: seq<DepRow>, name: string): Draft {
    Draft(VersionOf(rows, name), DirectIn(rows, name), ParentsOf(rows, name))
  }

  ghost predicate Drafts(rows: seq<DepRow>, index: map<string, Draft>) {
    && (forall name :: name in index <==> name != "" && Names(rows, name))
    && forall name | name in index :: index[name] == DraftOf(rows, name)
  }

  lemma {:induction false} RowsGrow(rows: seq<DepRow>, r: DepRow, name: string)
    ensures ParentsOf(rows + [r], name) == ParentsOf(rows, name) + (if r.package == name then ParentsIn(r) else {})
    ensures var earlier := VersionOf(rows, name);
      VersionOf(rows + [r], name) == if earlier == "" && r.package == name then r.version else earlier
    ensures Names(rows + [r], name) <==> Names(rows, name) || r.package == name
    ensures DirectIn(rows + [r], name) <==> DirectIn(rows, name) || (r.package == name && r.isDirect)
  {
    assert (rows + [r])[..|rows|] == rows;
    assert forall x :: x in rows + [r] <==> x in rows || x == r;
    assert r in rows + [r];
  }

  lemma {:induction false} NothingOfUnnamed(rows: seq<DepRow>, name: string)
    requires !Names(rows, name)
    ensures ParentsOf(rows, name) == {} && VersionOf(rows, name) == "" && !DirectIn(rows, name)
  {
    if rows != [] {
      var init := rows[..|rows| - 1];
      assert rows == init + [rows[|rows| - 1]];
      NothingOfUnnamed(init, name);
    }
  }

  /** One more row: the entry of its package is created or widened. */
  function WithRow(index: map<string, Draft>, r: DepRow): map<string, Draft> {
    if r.package == "" then index
    else if r.package !in index then index[r.package := Draft(r.version, r.isDirect, ParentsIn(r))]
    else
      var entry := index[r.package];
      index[r.package := Draft(if r.version != "" && entry.version == "" then r.version else entry.version,
          entry.isDirect || r.isDirect, entry.parents + ParentsIn(r))]
  }

  lemma {:induction false} DraftsGrow(rows: seq<DepRow>, index: map<string, Draft>, r: DepRow)
    requires Drafts(rows, index)
    ensures Drafts(rows + [r], WithRow(index, r))
  {
    hide Names, DirectIn, ParentsOf, VersionOf, ParentsIn;
    RowsGrow(rows, r, r.package);
    if r.package !in index && r.package != "" { NothingOfUnnamed(rows, r.package); }
    forall name ensures name in WithRow(index, r) <==> name != "" && Names(rows + [r], name) {
      RowsGrow(rows, r, name);
    }
    forall name | name in WithRow(index, r)
      ensures WithRow(index, r)[name] == DraftOf(rows + [r], name)
    {
      RowsGrow(rows, r, name);
    }
  }

  /** `sorted(entry["parents"])` */
  method SortedParents(parents: set<string>) returns (sorted: seq<string>)
    ensures (forall p :: p in sorted <==> p in parents) && Distinct(sorted) && InOrder(Less, sorted)
  {
    var listed: seq<string> := [];
    var rest := parents;
    while rest != {}
      invariant rest <= parents && Distinct(listed)
      invariant forall p :: p in listed <==> p in parents && p !in rest
      decreases rest
    {
      var p :| p in rest;
      listed := listed + [p];
      rest := rest - {p};
    }
    sorted := Sort(Less, listed);
    SortKeepsElements(Less, listed);
    SortKeepsDistinct(Less, listed);
    forall a, b | Less(a, b) ensures !Less(b, a) { LessAsymmetric(a, b); }
    SortIsInOrder(Less, listed);
    forall p ensures p in sorted <==> p in listed { assert p in multiset(sorted) <==> p in multiset(listed); }
  }

  ghost predicate Finished(d: Draft, m: Meta) {
    && m.version == d.version && m.isDirect == d.isDirect
    && (forall p :: p in m.parents <==> p in d.parents) && Distinct(m.parents) && InOrder(Less, m.parents)
  }

  lemma {:induction false} Finish(d: Draft, m: Meta)
    requires m.version == d.version && m.isDirect == d.isDirect
    requires (forall p :: p in m.parents <==> p in d.parents) && Distinct(m.parents) && InOrder(Less, m.parents)
    ensures Finished(d, m)
  {
  }

  lemma {:induction false} NoRows()
    ensures Drafts([], map[])
  {
  }

  ghost predicate Indexes(rows: seq<DepRow>, name: string, m: Meta) {
    && m.version == VersionOf(rows, name) && m.isDirect == DirectIn(rows, name)
    && (forall p :: p in m.parents <==> p in ParentsOf(rows, name))
    && Distinct(m.parents) && InOrder(Less, m.parents)
  }

  lemma {:induction false} DraftsFinished(rows: seq<DepRow>, index: map<string, Draft>, merged: map<string, Meta>)
    requires Drafts(rows, index) && merged.Keys == index.Keys
    requires forall name | name in merged :: Finished(index[name], merged[name])
    ensures forall name :: name in merged <==> name != "" && Names(rows, name)
    ensures forall name | name in merged :: Indexes(rows, name, merged[name])
  {
    hide Names, DirectIn, ParentsOf, VersionOf, Distinct, InOrder;
    forall name ensures name in merged <==> name != "" && Names(rows, name) {
      assert name in merged.Keys <==> name in index;
    }
  }

  /** `_deps_index` */
  method DepsIndex(rows: seq<DepRow>) returns (merged: map<string, Meta>)
    ensures forall name :: name in merged <==> name != "" && exists r | r in rows :: r.package == name
    ensures forall name | name in merged :: Indexes(rows, name, merged[name])
  {
    hide DirectIn, ParentsOf, VersionOf, WithRow, Drafts, Finished, Distinct, InOrder, Indexes;
    var index: map<string, Draft> := map[];
    NoRows();
    var i := 0;
    while i < |rows|
      invariant 0 <= i <= |rows| && Drafts(rows[..i], index)
    {
      assert rows[..i + 1] == rows[..i] + [rows[i]];
      DraftsGrow(rows[..i], index, rows[i]);
      index := WithRow(index, rows[i]);
      i := i + 1;
    }
    assert rows[..i] == rows;
    merged := map[];
    var names := index.Keys;
    while names != {}
      invariant names <= index.Keys && merged.Keys == index.Keys - names
      invariant forall name | name in merged :: Finished(index[name], merged[name])
      decreases names
    {
      var name :| name in names;
      var sorted := SortedParents(index[name].parents);
      var entry := Meta(index[name].version, index[name].isDirect, sorted);
      assert Finished(index[name], entry) by { Finish(index[name], entry); }
      merged := merged[name := entry];
      names := names - {name};
    }
    DraftsFinished(rows, index, merged);
  }

  /** The `i`-th row is of this package and the first one of it to state a version. */
  predicate FirstVersionAt(rows: seq<DepRow>, name: string, i: int) {
    && 0 <= i < |rows| && rows[i].package == name && rows[i].version != ""
    && forall j | 0 <= j < i && rows[j].package == name :: rows[j].version == ""
  }

  /** An entry read off the rows: any row's parents, any row's directness, the first version that one states. */
  lemma {:induction false} IndexSays(rows: seq<DepRow>, name: string, m: Meta, p: string)
    requires Indexes(rows, name, m)
    ensures p in m.parents <==>
        p != "" && exists r | r in rows :: r.package == name && r.parents.Some? && p in r.parents.value
    ensures m.isDirect <==> exists r | r in rows :: r.package == name && r.isDirect
    ensures forall i | FirstVersionAt(rows, name, i) :: m.version == rows[i].version
    ensures (forall r | r in rows && r.package == name :: r.version == "") ==> m.version == ""
  {
    hide Distinct, InOrder, ParentsOf, VersionOf;
    ParentsAre(rows, name, p);
    forall i | FirstVersionAt(rows, name, i) ensures m.version == rows[i].version { VersionIsFirst(rows, name, i); }
    if forall r | r in rows && r.package == name :: r.version == "" { NoVersion(rows, name); }
  }

  lemma {:induction false} ParentsAre(rows: seq<DepRow>, name: string, p: string)
    ensures p in ParentsOf(rows, name) <==>
        p != "" && exists r | r in rows :: r.package == name && r.parents.Some? && p in r.parents.value
  {
    if rows != [] {
      var init, last := rows[..|rows| - 1], rows[|rows| - 1];
      assert rows == init + [last];
      ParentsAre(init, name, p);
    }
  }

  lemma {:induction false} NoVersion(rows: seq<DepRow>, name: string)
    requires forall r | r in rows && r.package == name :: r.version == ""
    ensures VersionOf(rows, name) == ""
  {
    if rows != [] { NoVersion(rows[..|rows| - 1], name); }
  }

  lemma {:induction false} VersionIsFirst(rows: seq<DepRow>, name: string, i: int)
    requires FirstVersionAt(rows, name, i)
    ensures VersionOf(rows, name) == rows[i].version
  {
    var init := rows[..|rows| - 1];
    if i < |init| {
      VersionIsFirst(init, name, i);
    } else {
      forall r | r in init && r.package == name ensures r.version == "" {
        var j :| 0 <= j < |init| && init[j] == r;
        assert rows[j] == r;
      }
      NoVersion(init, name);
    }
  }

  // ---- The walk ----

  /** Where the walk goes on from: every indexed package but the root. */
  predicate Expandable(index: map<string, Meta>, node: string) {
    node != ROOT_ID && node in index
  }

  ghost predicate ParentsWithin(index: map<string, Meta>, node: string, nodes: set<string>)
    requires node in index
  {
    forall p | p in index[node].parents && p != "" :: p in nodes
  }

  /** Closed under parents, the root never expanded. */
  ghost predicate Closed(index: map<string, Meta>, nodes: set<string>) {
    forall n | n in nodes && Expandable(index, n) :: ParentsWithin(index, n, nodes)
  }

  predicate ParentEdge(index: map<string, Meta>, e: (string, string)) {
    Expandable(index, e.1) && e.0 != "" && e.0 in index[e.1].parents
  }

  /** Every parent of `n`, and the edge to it, is collected. */
  ghost predicate Expanded(index: map<string, Meta>, n: string, nodes: set<string>, edges: set<(string, string)>) {
    n in index && forall p | p in index[n].parents && p != "" :: p in nodes && (p, n) in edges
  }

  /** Members outside the current path are expanded, and every edge is one of a member. */
  ghost predicate PathInvariant(index: map<string, Meta>, visiting: set<string>, nodes: set<string>,
      edges: set<(string, string)>) {
    && visiting <= nodes
    && (forall n | n in nodes && n !in visiting && Expandable(index, n) :: Expanded(index, n, nodes, edges))
    && forall e | e in edges :: ParentEdge(index, e) && e.1 in nodes
  }

  /** From `was` to `nodes` only members of every closed set around `node` were added. */
  ghost predicate AddsOnlyNeeded(index: map<string, Meta>, node: string, was: set<string>, nodes: set<string>) {
    was <= nodes && forall least | node in least && Closed(index, least) :: nodes <= was + least
  }

  lemma {:induction false} ParentsAreNeeded(index: map<string, Meta>, node: string, parent: string, was: set<string>,
      now: set<string>, nodes: set<string>)
    requires Expandable(index, node) && parent in index[node].parents && parent != ""
    requires AddsOnlyNeeded(index, node, was, now) && AddsOnlyNeeded(index, parent, now, nodes)
    ensures AddsOnlyNeeded(index, node, was, nodes)
  {
    forall least | node in least && Closed(index, least) ensures nodes <= was + least {
      assert ParentsWithin(index, node, least);
      assert now <= was + least && nodes <= now + least;
    }
  }

  /** With all its parents walked, a node may leave the path. */
  lemma {:induction false} PathShrinks(index: map<string, Meta>, visiting: set<string>, node: string,
      nodes: set<string>, edges: set<(string, string)>)
    requires PathInvariant(index, visiting + {node}, nodes, edges)
    requires Expandable(index, node) ==> Expanded(index, node, nodes, edges)
    ensures PathInvariant(index, visiting, nodes, edges)
  {
  }

  lemma {:induction false} PathGrows(index: map<string, Meta>, visiting: set<string>, node: string,
      nodes: set<string>, edges: set<(string, string)>)
    requires PathInvariant(index, visiting, nodes, edges)
    ensures PathInvariant(index, visiting + {node}, nodes + {node}, edges)
  {
    hide Expandable, ParentEdge;
    forall n | n in nodes + {node} && n !in visiting + {node} && Expandable(index, n)
      ensures Expanded(index, n, nodes + {node}, edges)
    {
      assert Expanded(index, n, nodes, edges);
    }
  }

  lemma {:induction false} EdgeAdded(index: map<string, Meta>, visiting: set<string>, e: (string, string),
      nodes: set<string>, edges: set<(string, string)>)
    requires PathInvariant(index, visiting, nodes, edges) && ParentEdge(index, e) && e.1 in nodes
    ensures PathInvariant(index, visiting, nodes, edges + {e})
  {
    hide Expandable;
    forall n | n in nodes && n !in visiting && Expandable(index, n) ensures Expanded(index, n, nodes, edges + {e}) {
      assert Expanded(index, n, nodes, edges);
    }
  }

  class Collector {
    var nodes: set<string>
    var edges: set<(string, string)>

    constructor ()
      ensures nodes == {} && edges == {}
    {
      nodes, edges := {}, {};
    }

    /**
     The inner `walk`. The guard looks at the current path only, so a package may be walked many times; the
     walk ends because the indexed packages not yet on the path become fewer.
     */
    method Walk(index: map<string, Meta>, node: string, visiting: set<string>)
      requires PathInvariant(index, visiting, nodes, edges)
      modifies this
      ensures PathInvariant(index, visiting, nodes, edges) && node in nodes
      ensures old(edges) <= edges && AddsOnlyNeeded(index, node, old(nodes), nodes)
      decreases index.Keys - visiting
    {
      hide Closed, Expanded;
      if node in visiting { assert PathInvariant(index, visiting, nodes, edges); return; }
      PathGrows(index, visiting, node, nodes, edges);
      nodes := nodes + {node};
      if node == ROOT_ID || node !in index {
        PathShrinks(index, visiting, node, nodes, edges);
        return;
      }
      hide PathInvariant, AddsOnlyNeeded;
      var parents := index[node].parents;
      var i := 0;
      while i < |parents|
        invariant 0 <= i <= |parents| && PathInvariant(index, visiting + {node}, nodes, edges)
        invariant node in nodes && old(edges) <= edges && AddsOnlyNeeded(index, node, old(nodes), nodes)
        invariant forall p | p in parents[..i] && p != "" :: p in nodes && (p, node) in edges
      {
        assert parents[..i + 1] == parents[..i] + [parents[i]];
        var parent := parents[i];
        if parent != "" {
          EdgeAdded(index, visiting + {node}, (parent, node), nodes, edges);
          edges := edges + {(parent, node)};
          ghost var now := nodes;
          Walk(index, parent, visiting + {node});
          ParentsAreNeeded(index, node, parent, old(nodes), now, nodes);
          NeededKeeps(index, parent, now, nodes);
        }
        i := i + 1;
      }
      assert parents[..i] == parents;
      AllExpanded(index, node, nodes, edges);
      PathShrinks(index, visiting, node, nodes, edges);
    }
  }

  lemma {:induction false} NeededKeeps(index: map<string, Meta>, node: string, was: set<string>, nodes: set<string>)
    requires AddsOnlyNeeded(index, node, was, nodes)
    ensures was <= nodes
  {
  }

  lemma {:induction false} AllExpanded(index: map<string, Meta>, node: string, nodes: set<string>,
      edges: set<(string, string)>)
    requires node in index && forall p | p in index[node].parents && p != "" :: p in nodes && (p, node) in edges
    ensures Expanded(index, node, nodes, edges)
  {
  }

  /** `_collect_nodes_and_edges` */
  method CollectNodesAndEdges(target: string, index: map<string, Meta>) returns (nodes: set<string>,
      edges: set<(string, string)>)
    ensures target in nodes && Closed(index, nodes)
    ensures forall least | target in least && Closed(index, least) :: nodes <= least
    ensures forall e :: e in edges <==>
        e.1 in nodes && e.1 in index && e.1 != "root" && e.0 != "" && e.0 in index[e.1].parents
    ensures forall e | e in edges :: e.0 in nodes
  {
    var c := new Collector();
    c.Walk(index, target, {});
    nodes, edges := c.nodes, c.edges;
  }

  // ---- What was collected ----

  /** Each package of a chain names the next one as a parent; the root is only ever last. */
  predicate Chain(index: map<string, Meta>, chain: seq<string>) {
    chain != [] && forall i | 0 < i < |chain| :: ParentEdge(index, (chain[i], chain[i - 1]))
  }

  ghost predicate PullsIn(index: map<string, Meta>, n: string, target: string) {
    exists chain :: Chain(index, chain) && chain[0] == target && chain[|chain| - 1] == n
  }

  lemma {:induction false} ChainStaysInside(index: map<string, Meta>, nodes: set<string>, chain: seq<string>)
    requires Closed(index, nodes) && Chain(index, chain) && chain[0] in nodes
    ensures chain[|chain| - 1] in nodes
  {
    if |chain| > 1 {
      var init := chain[..|chain| - 1];
      ChainStaysInside(index, nodes, init);
      assert ParentEdge(index, (chain[|chain| - 1], chain[|chain| - 2]));
      assert ParentsWithin(index, chain[|chain| - 2], nodes);
    }
  }

  /**
   The least closed set is exactly the packages a chain of parents leads to from the target, so the result
   depends on the edges alone and on no order of the walk.
   */
  lemma {:induction false} CollectedIffPullsIn(index: map<string, Meta>, target: string, nodes: set<string>, n: string)
    requires target in nodes && Closed(index, nodes)
    requires forall least | target in least && Closed(index, least) :: nodes <= least
    ensures n in nodes <==> PullsIn(index, n, target)
  {
    if PullsIn(index, n, target) {
      var chain :| Chain(index, chain) && chain[0] == target && chain[|chain| - 1] == n;
      ChainStaysInside(index, nodes, chain);
    }
    var reached := set m | m in nodes && PullsIn(index, m, target);
    assert Chain(index, [target]);
    assert target in reached;
    forall m | m in reached && Expandable(index, m) ensures ParentsWithin(index, m, reached) {
      var chain :| Chain(index, chain) && chain[0] == target && chain[|chain| - 1] == m;
      assert ParentsWithin(index, m, nodes);
      forall p | p in index[m].parents && p != "" ensures p in reached {
        assert Chain(index, chain + [p]);
      }
    }
    assert Closed(index, reached);
  }

  /** `_all_graph_edges` */
  method AllGraphEdges(index: map<string, Meta>) returns (edges: set<(string, string)>)
    ensures forall e :: e in edges <==> e.1 in index && e.0 != "" && e.0 in index[e.1].parents
  {
    edges := {};
    var names := index.Keys;
    while names != {}
      invariant names <= index.Keys
      invariant forall e :: e in edges <==> e.1 in index && e.1 !in names && e.0 != "" && e.0 in index[e.1].parents
      decreases names
    {
      var name :| name in names;
      var parents := index[name].parents;
      ghost var before := edges;
      var i := 0;
      while i < |parents|
        invariant 0 <= i <= |parents|
        invariant forall e :: e in edges <==> e in before || (e.1 == name && e.0 != "" && e.0 in parents[..i])
      {
        assert parents[..i + 1] == parents[..i] + [parents[i]];
        if parents[i] != "" { edges := edges + {(parents[i], name)}; }
        i := i + 1;
      }
      assert parents[..i] == parents;
      names := names - {name};
    }
  }

  /** Some chain of parents from the target takes this edge last. */
  ghost predicate LastStep(index: map<string, Meta>, target: string, e: (string, string)) {
    exists chain :: Chain(index, chain) && |chain| > 1 && chain[0] == target &&
        (chain[|chain| - 1], chain[|chain| - 2]) == e
  }

  /**
   The subgraph's edges are those of the full graph into members other than the root, and they are exactly the
   steps of the chains of parents that lead away from the target.
   */
  lemma {:induction false} EdgesAreChainSteps(index: map<string, Meta>, target: string, nodes: set<string>,
      edges: set<(string, string)>, all: set<(string, string)>, e: (string, string))
    requires target in nodes && Closed(index, nodes)
    requires forall least | target in least && Closed(index, least) :: nodes <= least
    requires forall d :: d in edges <==> ParentEdge(index, d) && d.1 in nodes
    requires forall d :: d in all <==> d.1 in index && d.0 != "" && d.0 in index[d.1].parents
    ensures e in edges <==> e in all && e.1 in nodes && e.1 != ROOT_ID
    ensures e in edges <==> LastStep(index, target, e)
  {
    hide Closed;
    CollectedIffPullsIn(index, target, nodes, e.1);
    if e in edges {
      var chain :| Chain(index, chain) && chain[0] == target && chain[|chain| - 1] == e.1;
      var longer := chain + [e.0];
      assert Chain(index, longer) && (longer[|longer| - 1], longer[|longer| - 2]) == e;
    }
    if LastStep(index, target, e) {
      var chain :| Chain(index, chain) && |chain| > 1 && chain[0] == target &&
          (chain[|chain| - 1], chain[|chain| - 2]) == e;
      var shorter := chain[..|chain| - 1];
      assert Chain(index, shorter) && shorter[0] == target && shorter[|shorter| - 1] == e.1;
    }
  }
}
