/**
 Display routes (arguss/core/parser.py): breadth-first search over the name-level graph from
 `root`, and the walk back along the chosen predecessors.
 */
module DisplayRoutes {
  import opened Basics

  /** parent name -> names it declares. */
  type Graph = map<string, set<string>>

  const ROOT := "root"

  predicate Edge(g: Graph, p: string, v: string) {
    p in g && v in g[p]
  }

  /** A walk of `k` edges leads from root to `v`. */
  ghost predicate Reach(g: Graph, k: nat, v: string)
    decreases k
  {
    if k == 0 then v == ROOT
    else exists p | p in g :: Edge(g, p, v) && Reach(g, k - 1, p)
  }

  ghost predicate Reachable(g: Graph, v: string) {
    exists k: nat :: Reach(g, k, v)
  }

  /** `d` is the length of a shortest walk from root to `v`. */
  ghost predicate IsDist(g: Graph, v: string, d: nat) {
    && Reach(g, d, v)
    && forall k: nat | Reach(g, k, v) :: d <= k
  }

  /** `p` is the last stop but one of some shortest walk to `v`. */
  ghost predicate OnShortest(g: Graph, p: string, v: string) {
    Edge(g, p, v) && exists d: nat :: IsDist(g, p, d) && IsDist(g, v, d + 1)
  }

  /** What the search promises about its predecessor map. */
  ghost predicate IsShortestPred(g: Graph, pred: map<string, string>) {
    && (forall v :: v in pred <==> v != ROOT && Reachable(g, v))
    && (forall v | v in pred :: OnShortest(g, pred[v], v))
    && (forall v, p | v in pred && OnShortest(g, p, v) :: AtMost(pred[v], p))
  }

  // ---- The state of the search ----

  /** Every recorded distance is realised, and a predecessor is an edge one level up. */
  ghost predicate Sound(g: Graph, dist: map<string, nat>, pred: map<string, string>) {
    && ROOT in dist && dist[ROOT] == 0
    && pred.Keys == dist.Keys - {ROOT}
    && (forall v {:trigger dist[v]} | v in dist :: Reach(g, dist[v], v))
    && (forall v {:trigger pred[v]} | v in pred ::
        pred[v] in dist && Edge(g, pred[v], v) && dist[v] == dist[pred[v]] + 1)
  }

  /** The queue is ordered by distance and spans at most two levels. */
  ghost predicate Ordered(dist: map<string, nat>, queue: seq<string>, level: nat) {
    && (forall v | v in queue :: v in dist && level <= dist[v])
    && (forall v | v in dist :: dist[v] <= level + 1)
    && (forall i, j | 0 <= i < j < |queue| :: dist[queue[i]] <= dist[queue[j]] && queue[i] != queue[j])
  }

  /** The edge `p -> v` has been looked at. */
  ghost predicate Seen(dist: map<string, nat>, pred: map<string, string>, p: string, v: string) {
    && p in dist && v in dist && dist[v] <= dist[p] + 1
    && (dist[v] == dist[p] + 1 ==> v in pred && AtMost(pred[v], p))
  }

  ghost predicate Done(g: Graph, dist: map<string, nat>, pred: map<string, string>, p: string) {
    forall v | Edge(g, p, v) :: Seen(dist, pred, p, v)
  }

  ghost predicate AllDoneBut(g: Graph, dist: map<string, nat>, pred: map<string, string>, open: seq<string>) {
    forall p | p in dist && p !in open :: Done(g, dist, pred, p)
  }

  lemma {:induction false} ClosedIsShortest(g: Graph, dist: map<string, nat>, pred: map<string, string>, k: nat,
      v: string)
    requires Sound(g, dist, pred) && AllDoneBut(g, dist, pred, [])
    requires Reach(g, k, v)
    ensures v in dist && dist[v] <= k
    decreases k
  {
    if k > 0 {
      var p :| p in g && Edge(g, p, v) && Reach(g, k - 1, p);
      ClosedIsShortest(g, dist, pred, k - 1, p);
      assert Done(g, dist, pred, p) && Seen(dist, pred, p, v);
    }
  }

  lemma {:induction false} ClosedIsDist(g: Graph, dist: map<string, nat>, pred: map<string, string>)
    requires Sound(g, dist, pred) && AllDoneBut(g, dist, pred, [])
    ensures forall v :: v in dist <==> Reachable(g, v)
    ensures forall v | v in dist :: IsDist(g, v, dist[v])
    ensures forall v, d: nat | IsDist(g, v, d) :: v in dist && dist[v] == d
  {
    forall k: nat, v | Reach(g, k, v) ensures v in dist && dist[v] <= k {
      ClosedIsShortest(g, dist, pred, k, v);
    }
  }

  lemma {:induction false} SearchResult(g: Graph, dist: map<string, nat>, pred: map<string, string>)
    requires Sound(g, dist, pred) && AllDoneBut(g, dist, pred, [])
    ensures IsShortestPred(g, pred)
  {
    ClosedIsDist(g, dist, pred);
    forall v | v in pred ensures OnShortest(g, pred[v], v) {
      assert IsDist(g, pred[v], dist[pred[v]]) && IsDist(g, v, dist[pred[v]] + 1);
    }
    forall v, p | v in pred && OnShortest(g, p, v) ensures AtMost(pred[v], p) {
      assert Done(g, dist, pred, p) && Seen(dist, pred, p, v);
    }
  }

  // ---- One look along an edge ----

  datatype Search = Search(dist: map<string, nat>, pred: map<string, string>, queue: seq<string>)

  /** Loop invariant while the children `todo` of `p` are still to be looked at. */
  ghost predicate Visiting(g: Graph, s: Search, p: string, todo: set<string>) {
    && Sound(g, s.dist, s.pred) && p in s.dist && p !in s.queue
    && Ordered(s.dist, s.queue, s.dist[p])
    && AllDoneBut(g, s.dist, s.pred, [p] + s.queue)
    && forall v | Edge(g, p, v) && v !in todo :: Seen(s.dist, s.pred, p, v)
  }

  /** Effect of looking from `p` at `v`: discover it, or improve the tie-break. */
  function Look(s: Search, p: string, v: string): Search
    requires p in s.dist
  {
    var nd := s.dist[p] + 1;
    if v !in s.dist || nd < s.dist[v] then Search(s.dist[v := nd], s.pred[v := p], s.queue + [v])
    else if nd == s.dist[v] && (v !in s.pred || Less(p, s.pred[v])) then s.(pred := s.pred[v := p])
    else s
  }

  lemma {:induction false} LookKeepsSound(g: Graph, s: Search, p: string, v: string)
    requires Sound(g, s.dist, s.pred) && p in s.dist && Edge(g, p, v)
    requires forall w | w in s.dist :: s.dist[w] <= s.dist[p] + 1
    ensures Sound(g, Look(s, p, v).dist, Look(s, p, v).pred)
  {
    var t := Look(s, p, v);
    if v !in s.dist {
      assert Reach(g, s.dist[p], p) && Reach(g, s.dist[p] + 1, v);
      forall w | w in t.dist ensures Reach(g, t.dist[w], w) { if w != v { assert t.dist[w] == s.dist[w]; } }
    }
    assert t.pred.Keys == t.dist.Keys - {ROOT};
    forall w | w in t.pred ensures t.pred[w] in t.dist && Edge(g, t.pred[w], w) && t.dist[w] == t.dist[t.pred[w]] + 1 {
      if w != v { assert t.pred[w] == s.pred[w]; }
    }
  }

  lemma {:induction false} LookKeepsSeen(g: Graph, s: Search, p: string, v: string, q: string, w: string)
    requires Sound(g, s.dist, s.pred) && p in s.dist && Edge(g, p, v)
    requires forall w | w in s.dist :: s.dist[w] <= s.dist[p] + 1
    requires Seen(s.dist, s.pred, q, w)
    ensures Seen(Look(s, p, v).dist, Look(s, p, v).pred, q, w)
  {
    if w == v && v in s.pred && Less(p, s.pred[v]) && Less(s.pred[v], q) { LessTransitive(p, s.pred[v], q); }
  }

  lemma {:induction false} LookSees(g: Graph, s: Search, p: string, v: string)
    requires Sound(g, s.dist, s.pred) && p in s.dist && Edge(g, p, v)
    ensures Seen(Look(s, p, v).dist, Look(s, p, v).pred, p, v)
  {
    if v in s.pred { LessTotal(p, s.pred[v]); }
  }

  lemma {:induction false} LookKeepsVisiting(g: Graph, s: Search, p: string, todo: set<string>, v: string)
    requires Visiting(g, s, p, todo) && Edge(g, p, v) && v in todo
    ensures Visiting(g, Look(s, p, v), p, todo - {v})
  {
    var t := Look(s, p, v);
    LookKeepsSound(g, s, p, v);
    LookSees(g, s, p, v);
    forall w | Edge(g, p, w) && w !in todo - {v} ensures Seen(t.dist, t.pred, p, w) {
      if w != v { LookKeepsSeen(g, s, p, v, p, w); }
    }
    forall q | q in t.dist && q !in [p] + t.queue ensures Done(g, t.dist, t.pred, q) {
      assert q in s.dist && q !in [p] + s.queue;
      forall w | Edge(g, q, w) ensures Seen(t.dist, t.pred, q, w) {
        assert Done(g, s.dist, s.pred, q);
        LookKeepsSeen(g, s, p, v, q, w);
      }
    }
    LookKeepsOrdered(s, p, v);
  }

  lemma {:induction false} LookKeepsOrdered(s: Search, p: string, v: string)
    requires p in s.dist && p !in s.queue && Ordered(s.dist, s.queue, s.dist[p])
    ensures var t := Look(s, p, v); t.dist[p] == s.dist[p] && p !in t.queue && Ordered(t.dist, t.queue, s.dist[p])
  {
    if v !in s.dist {
      assert v !in s.queue;
    }
  }

  /** Outer loop invariant: all but the queued nodes have been expanded. */
  ghost predicate Between(g: Graph, s: Search) {
    && Sound(g, s.dist, s.pred)
    && (exists level: nat :: Ordered(s.dist, s.queue, level))
    && AllDoneBut(g, s.dist, s.pred, s.queue)
  }

  lemma {:induction false} StartSearch(g: Graph)
    ensures Between(g, Search(map[ROOT := 0], map[], [ROOT]))
  {
    var s := Search(map[ROOT := 0], map[], [ROOT]);
    assert Reach(g, 0, ROOT);
    assert Ordered(s.dist, s.queue, 0);
  }

  lemma {:induction false} StartVisit(g: Graph, s: Search)
    requires Between(g, s) && s.queue != []
    ensures Visiting(g, s.(queue := s.queue[1..]), s.queue[0], Kids(g, s.queue[0]))
  {
    assert [s.queue[0]] + s.queue[1..] == s.queue;
  }

  lemma {:induction false} EndVisit(g: Graph, s: Search, p: string)
    requires Visiting(g, s, p, {})
    ensures Between(g, s)
  {}

  ghost function Rank(g: Graph, s: Search): int {
    2 * (|Names(g)| - |s.dist|) + |s.queue|
  }

  function Kids(g: Graph, p: string): set<string> {
    if p in g then g[p] else {}
  }

  ghost function Names(g: Graph): set<string> {
    {ROOT} + set p, v | p in g && v in g[p] :: v
  }

  lemma {:induction false} KeysAreNames(g: Graph, s: Search)
    requires Sound(g, s.dist, s.pred)
    ensures |s.dist| <= |Names(g)| && Rank(g, s) >= 0
  {
    assert s.dist.Keys <= Names(g) by {
      forall v | v in s.dist ensures v in Names(g) { if v != ROOT { assert Edge(g, s.pred[v], v); } }
    }
    SubsetSize(s.dist.Keys, Names(g));
  }

  lemma {:induction false} SubsetSize<T>(a: set<T>, b: set<T>)
    requires a <= b
    ensures |a| <= |b|
  {
    if a != {} {
      var x :| x in a;
      SubsetSize(a - {x}, b - {x});
    }
  }

  lemma {:induction false} VisitStep(g: Graph, s: Search, p: string, todo: set<string>, v: string, t: Search)
    requires Visiting(g, s, p, todo) && Edge(g, p, v) && v in todo && t == Look(s, p, v)
    ensures Visiting(g, t, p, todo - {v}) && 0 <= Rank(g, t) <= Rank(g, s)
  {
    LookKeepsVisiting(g, s, p, todo, v);
    KeysAreNames(g, t);
  }

  /** `_bfs_shortest_pred`. The order in which children are visited is left open. */
  method BfsShortestPred(g: Graph) returns (pred: map<string, string>)
    ensures IsShortestPred(g, pred)
  {
    var s := Search(map[ROOT := 0], map[], [ROOT]);
    StartSearch(g);
    KeysAreNames(g, s);
    while s.queue != []
      invariant Between(g, s) && 0 <= Rank(g, s)
      decreases Rank(g, s)
    {
      StartVisit(g, s);
      KeysAreNames(g, s.(queue := s.queue[1..]));
      s := VisitChildren(g, s.queue[0], s.(queue := s.queue[1..]));
    }
    SearchResult(g, s.dist, s.pred);
    pred := s.pred;
  }

  /** The inner `for` loop: look from the dequeued `p` at each of its children. */
  method VisitChildren(g: Graph, p: string, s0: Search) returns (s: Search)
    requires Visiting(g, s0, p, Kids(g, p)) && 0 <= Rank(g, s0)
    ensures Between(g, s) && 0 <= Rank(g, s) <= Rank(g, s0)
  {
    s := s0;
    var todo := Kids(g, p);
    while todo != {}
      invariant todo <= Kids(g, p) && Visiting(g, s, p, todo) && 0 <= Rank(g, s) <= Rank(g, s0)
      decreases todo
    {
      var child :| child in todo;
      ghost var before := s;
      var nd := s.dist[p] + 1;
      if child !in s.dist || nd < s.dist[child] {
        s := Search(s.dist[child := nd], s.pred[child := p], s.queue + [child]);
      } else if nd == s.dist[child] {
        if child !in s.pred || Less(p, s.pred[child]) {
          s := s.(pred := s.pred[child := p]);
        }
      }
      VisitStep(g, before, p, todo, child, s);
      todo := todo - {child};
    }
    EndVisit(g, s, p);
  }

  // ---- Walking back along the predecessors ----

  /** Predecessors of `v` back to root; `unseen` guards against cycles in an arbitrary map. */
  function Route(pred: map<string, string>, v: string, unseen: set<string>): seq<string>
    decreases |unseen|
  {
    if v == ROOT then [ROOT]
    else if v in pred && v in unseen then Route(pred, pred[v], unseen - {v}) + [v]
    else [ROOT, v]
  }

  /** Value of `_logical_path_from_pred`. */
  function LogicalPath(name: string, pred: map<string, string>): seq<string> {
    if name !in pred && name != ROOT then [ROOT, name] else Route(pred, name, pred.Keys)
  }

  /** A walk from root along declared edges. */
  predicate IsWalk(g: Graph, path: seq<string>) {
    path != [] && path[0] == ROOT && forall i | 0 < i < |path| :: Edge(g, path[i - 1], path[i])
  }

  /** A walk from root to `v`, and none is shorter. */
  ghost predicate IsShortestWalk(g: Graph, path: seq<string>, v: string) {
    IsWalk(g, path) && path[|path| - 1] == v && IsDist(g, v, |path| - 1)
  }

  lemma {:induction false} WalkReaches(g: Graph, path: seq<string>)
    requires IsWalk(g, path)
    ensures Reach(g, |path| - 1, path[|path| - 1])
  {
    if |path| > 1 {
      var init := path[..|path| - 1];
      WalkReaches(g, init);
      assert Edge(g, path[|path| - 2], path[|path| - 1]);
    }
  }

  /** One more declared edge prolongs a walk; a path whose last step is no edge is none. */
  lemma {:induction false} WalkGrows(g: Graph, path: seq<string>, v: string)
    requires path != []
    ensures IsWalk(g, path + [v]) <==> IsWalk(g, path) && Edge(g, path[|path| - 1], v)
  {
    var grown := path + [v];
    if IsWalk(g, grown) {
      forall i | 0 < i < |path| ensures Edge(g, path[i - 1], path[i]) {
        assert grown[i - 1] == path[i - 1] && grown[i] == path[i];
      }
      assert grown[|path| - 1] == path[|path| - 1] && grown[|path|] == v;
    }
  }

  lemma {:induction false} DistIsUnique(g: Graph, v: string, d: nat, e: nat)
    requires IsDist(g, v, d) && IsDist(g, v, e)
    ensures d == e
  {}

  lemma {:induction false} PredIsOneCloser(g: Graph, pred: map<string, string>, v: string, d: nat)
    requires IsShortestPred(g, pred) && v in pred && IsDist(g, v, d)
    ensures d > 0 && Edge(g, pred[v], v) && IsDist(g, pred[v], d - 1) && (pred[v] == ROOT || pred[v] in pred)
  {
    assert OnShortest(g, pred[v], v);
    var e: nat :| IsDist(g, pred[v], e) && IsDist(g, v, e + 1);
    DistIsUnique(g, v, d, e + 1);
    assert Reach(g, e, pred[v]);
  }

  /** `unseen` still holds every name the way back from `v` can meet. */
  ghost predicate Covers(g: Graph, pred: map<string, string>, v: string, d: nat, unseen: set<string>) {
    && (v == ROOT || v in pred)
    && IsDist(g, v, d)
    && forall w, k: nat | w in pred && IsDist(g, w, k) && k <= d :: w in unseen
  }

  lemma {:induction false} CoversStep(g: Graph, pred: map<string, string>, v: string, d: nat, unseen: set<string>)
    requires IsShortestPred(g, pred) && Covers(g, pred, v, d, unseen) && v != ROOT
    ensures v in pred && v in unseen && d > 0 && Edge(g, pred[v], v)
    ensures Covers(g, pred, pred[v], d - 1, unseen - {v})
    ensures Route(pred, v, unseen) == Route(pred, pred[v], unseen - {v}) + [v]
  {
    PredIsOneCloser(g, pred, v, d);
    forall w, k: nat | w in pred && IsDist(g, w, k) && k <= d - 1 ensures w in unseen - {v} {
      if w == v { DistIsUnique(g, v, d, k); }
    }
  }

  lemma {:induction false} RouteIsShortest(g: Graph, pred: map<string, string>, v: string, d: nat, unseen: set<string>)
    requires IsShortestPred(g, pred) && Covers(g, pred, v, d, unseen)
    ensures IsShortestWalk(g, Route(pred, v, unseen), v)
    decreases d
  {
    if v == ROOT {
      assert Reach(g, 0, ROOT);
    } else {
      CoversStep(g, pred, v, d, unseen);
      RouteIsShortest(g, pred, pred[v], d - 1, unseen - {v});
      var r := Route(pred, pred[v], unseen - {v});
      DistIsUnique(g, pred[v], d - 1, |r| - 1);
    }
  }

  /** Every reachable name is displayed with a shortest route from the project root. */
  lemma {:induction false} LogicalPathIsShortest(g: Graph, pred: map<string, string>, name: string)
    requires IsShortestPred(g, pred)
    ensures Reachable(g, name) ==> IsShortestWalk(g, LogicalPath(name, pred), name)
    ensures !Reachable(g, name) ==> LogicalPath(name, pred) == [ROOT, name]
  {
    if Reachable(g, name) {
      var k: nat :| Reach(g, k, name);
      var d := ShortestReach(g, name, k);
      RouteIsShortest(g, pred, name, d, pred.Keys);
    } else {
      assert Reach(g, 0, ROOT);
    }
  }

  lemma {:induction false} ShortestReach(g: Graph, v: string, k: nat) returns (d: nat)
    requires Reach(g, k, v)
    ensures IsDist(g, v, d)
    decreases k
  {
    if e: nat :| e < k && Reach(g, e, v) {
      d := ShortestReach(g, v, e);
    } else {
      d := k;
    }
  }

  lemma {:induction false} CoversAll(g: Graph, pred: map<string, string>, name: string) returns (d: nat)
    requires IsShortestPred(g, pred) && (name == ROOT || name in pred)
    ensures Covers(g, pred, name, d, pred.Keys)
  {
    assert Reach(g, 0, ROOT);
    var k: nat :| Reach(g, k, name);
    d := ShortestReach(g, name, k);
  }

  /** Taking the next name of the way back off the route and onto `parts` loses nothing. */
  lemma {:induction false} PartsGrow(pred: map<string, string>, cur: string, unseen: set<string>, parts: seq<string>)
    requires cur != ROOT ==> cur in pred && cur in unseen
    ensures var ahead := if cur == ROOT then [] else Route(pred, pred[cur], unseen - {cur});
      Route(pred, cur, unseen) + Reverse(parts) == ahead + Reverse(parts + [cur])
  {
    ReverseAppend(parts, cur);
    var ahead := if cur == ROOT then [] else Route(pred, pred[cur], unseen - {cur});
    assert Route(pred, cur, unseen) == ahead + [cur];
    assert (ahead + [cur]) + Reverse(parts) == ahead + ([cur] + Reverse(parts));
  }

  /** `_logical_path_from_pred`: the loop ends, and its inner fallback is never taken. */
  method LogicalPathFromPred(g: Graph, name: string, pred: map<string, string>) returns (path: seq<string>)
    requires IsShortestPred(g, pred)
    ensures path == LogicalPath(name, pred)
  {
    hide IsShortestPred, Covers, Edge;
    if name !in pred && name != ROOT { return [ROOT, name]; }
    var parts := [];
    var cur := name;
    ghost var unseen := pred.Keys;
    ghost var d := CoversAll(g, pred, name);
    assert Route(pred, cur, unseen) + Reverse(parts) == Route(pred, cur, unseen);
    hide LogicalPath, Route, Reverse;
    while cur != ROOT
      invariant Covers(g, pred, cur, d, unseen)
      invariant LogicalPath(name, pred) == Route(pred, cur, unseen) + Reverse(parts)
      decreases d
    {
      CoversStep(g, pred, cur, d, unseen);
      PartsGrow(pred, cur, unseen, parts);
      parts := parts + [cur];
      if cur !in pred { assert false; }
      cur, unseen, d := pred[cur], unseen - {cur}, d - 1;
    }
    PartsGrow(pred, ROOT, unseen, parts);
    parts := parts + [ROOT];
    path := Reverse(parts);
  }
}
