/**
 Typosquat distance (arguss/lenses/trust.py). The reference is the sequential notion of editing:
 a script of single-character insertions, deletions and replacements. `Distance` is the
 textbook recurrence; the two-row loop refines it and the recurrence is proved to be the
 length of a shortest script.
 */
module EditDistance {
  import opened Basics

  datatype Edit =
    | Insert(at: nat, c: char)
    | Delete(at: nat)
    | Replace(at: nat, c: char)

  predicate Fits(e: Edit, s: string) {
    if e.Insert? then e.at <= |s| else e.at < |s|
  }

  function Apply(e: Edit, s: string): string
    requires Fits(e, s)
  {
    match e
    case Insert(i, c) => s[..i] + [c] + s[i..]
    case Delete(i) => s[..i] + s[i + 1..]
    case Replace(i, c) => s[..i] + [c] + s[i + 1..]
  }

  /** The script turns `a` into `b`, one edit at a time. */
  predicate Rewrites(script: seq<Edit>, a: string, b: string) {
    if script == [] then a == b
    else Fits(script[0], a) && Rewrites(script[1..], Apply(script[0], a), b)
  }

  function Min3(x: nat, y: nat, z: nat): nat {
    if x <= y && x <= z then x else if y <= z then y else z
  }

  function Cost(x: char, y: char): nat {
    if x == y then 0 else 1
  }

  function Init<T>(s: seq<T>): seq<T>
    requires s != []
  {
    s[..|s| - 1]
  }

  function Last<T>(s: seq<T>): T
    requires s != []
  {
    s[|s| - 1]
  }

  function Distance(a: string, b: string): nat
    decreases |a| + |b|
  {
    if a == "" then |b|
    else if b == "" then |a|
    else Min3(Distance(a, Init(b)) + 1, Distance(Init(a), b) + 1,
        Distance(Init(a), Init(b)) + Cost(Last(a), Last(b)))
  }

  // ---- Scripts compose and ignore a common last character ----

  lemma {:induction false} ScriptsCompose(p: seq<Edit>, q: seq<Edit>, a: string, b: string, c: string)
    requires Rewrites(p, a, b) && Rewrites(q, b, c)
    ensures Rewrites(p + q, a, c)
  {
    hide Fits, Apply;
    if p == [] {
      assert p + q == q;
    } else {
      var next := Apply(p[0], a);
      assert (p + q)[0] == p[0] && (p + q)[1..] == p[1..] + q;
      ScriptsCompose(p[1..], q, next, b, c);
    }
  }

  lemma {:induction false} EditUnderSuffix(e: Edit, a: string, x: char)
    requires Fits(e, a)
    ensures Fits(e, a + [x]) && Apply(e, a + [x]) == Apply(e, a) + [x]
  {
  }

  lemma {:induction false} ScriptUnderSuffix(p: seq<Edit>, a: string, b: string, x: char)
    requires Rewrites(p, a, b)
    ensures Rewrites(p, a + [x], b + [x])
  {
    hide Fits, Apply;
    if p != [] {
      EditUnderSuffix(p[0], a, x);
      ScriptUnderSuffix(p[1..], Apply(p[0], a), b, x);
    }
  }

  // ---- A script of length Distance exists ----

  lemma {:induction false} NothingToDo(a: string) returns (script: seq<Edit>)
    ensures script == [] && Rewrites(script, a, a)
  {
    script := [];
  }

  lemma {:induction false} DistanceIsAchieved(a: string, b: string) returns (script: seq<Edit>)
    ensures Rewrites(script, a, b) && |script| == Distance(a, b)
    decreases |a| + |b|
  {
    hide Rewrites;
    if a == "" && b == "" {
      script := NothingToDo(a);
    } else if a == "" || (b != "" && Distance(a, b) == Distance(a, Init(b)) + 1) {
      var p := DistanceIsAchieved(a, Init(b));
      script := ThenOne(p, a, Init(b), b, Insert(|b| - 1, Last(b)));
    } else if b == "" || Distance(a, b) == Distance(Init(a), b) + 1 {
      var p := DistanceIsAchieved(Init(a), b);
      script := OneThen(Delete(|a| - 1), p, a, Init(a), b);
    } else {
      var p := DistanceIsAchieved(Init(a), Init(b));
      script := EditLast(p, a, b);
    }
  }

  lemma {:induction false} ThenOne(p: seq<Edit>, a: string, mid: string, b: string, e: Edit) returns (script: seq<Edit>)
    requires Rewrites(p, a, mid) && Fits(e, mid) && Apply(e, mid) == b
    ensures Rewrites(script, a, b) && |script| == |p| + 1
  {
    assert [e][1..] == [];
    ScriptsCompose(p, [e], a, mid, b);
    script := p + [e];
  }

  lemma {:induction false} OneThen(e: Edit, p: seq<Edit>, a: string, mid: string, b: string) returns (script: seq<Edit>)
    requires Fits(e, a) && Apply(e, a) == mid && Rewrites(p, mid, b)
    ensures Rewrites(script, a, b) && |script| == |p| + 1
  {
    script := [e] + p;
    assert script[1..] == p;
  }

  lemma {:induction false} EditLast(p: seq<Edit>, a: string, b: string) returns (script: seq<Edit>)
    requires a != "" && b != "" && Rewrites(p, Init(a), Init(b))
    ensures Rewrites(script, a, b) && |script| == |p| + Cost(Last(a), Last(b))
  {
    hide Rewrites;
    var x, y := Last(a), Last(b);
    ScriptUnderSuffix(p, Init(a), Init(b), x);
    assert a == Init(a) + [x] && b == Init(b) + [y];
    if x == y {
      script := p;
    } else {
      var e := Replace(|b| - 1, y);
      assert Apply(e, Init(b) + [x]) == b;
      script := ThenOne(p, a, Init(b) + [x], b, e);
    }
  }

  // ---- One edit changes Distance by at most one, so no script is shorter ----

  lemma {:induction false} LastCharacterIsOneStep(a: string, u: string, m: string, m': string)
    requires |m| <= 1 && |m'| <= 1
    ensures Distance(a, u + m') <= Distance(a, u + m) + 1
    decreases |a|
  {
    if m == [] || m' == [] {
      assert u + [] == u;
    }
    if m' != [] { assert Init(u + m') == u; }
    if m != [] { assert Init(u + m) == u; }
    if a == "" {
    } else {
      LastCharacterIsOneStep(Init(a), u, m, m');
      LastCharacterIsOneStep(Init(a), u, m, []);
      LastCharacterIsOneStep(Init(a), u, [], m');
      DropLeft(a, u);
      DropLeft(a, u + m');
    }
  }

  lemma {:induction false} DropLeft(a: string, b: string)
    requires a != ""
    ensures Distance(a, b) <= Distance(Init(a), b) + 1
  {
    if b == "" && Init(a) != "" { assert Distance(a, b) == |a|; }
  }

  lemma {:induction false} MiddleIsOneStep(a: string, u: string, m: string, m': string, w: string)
    requires |m| <= 1 && |m'| <= 1
    ensures Distance(a, u + m' + w) <= Distance(a, u + m + w) + 1
    decreases |w|, |a|
  {
    if w == "" {
      LastCharacterIsOneStep(a, u, m, m');
      assert u + m + w == u + m && u + m' + w == u + m';
    } else {
      var s, s' := u + m + w, u + m' + w;
      assert Init(s) == u + m + Init(w) && Init(s') == u + m' + Init(w);
      MiddleIsOneStep(a, u, m, m', Init(w));
      if a != "" {
        MiddleIsOneStep(Init(a), u, m, m', w);
        MiddleIsOneStep(Init(a), u, m, m', Init(w));
      }
    }
  }

  lemma {:induction false} OneEditIsOneStep(a: string, b: string, e: Edit)
    requires Fits(e, b)
    ensures Distance(a, b) <= Distance(a, Apply(e, b)) + 1
  {
    var i := e.at;
    match e
    case Insert(_, c) =>
      assert b == b[..i] + [] + b[i..];
      MiddleIsOneStep(a, b[..i], [c], [], b[i..]);
    case Delete(_) =>
      assert b == b[..i] + [b[i]] + b[i + 1..];
      assert Apply(e, b) == b[..i] + [] + b[i + 1..];
      MiddleIsOneStep(a, b[..i], [], [b[i]], b[i + 1..]);
    case Replace(_, c) =>
      assert b == b[..i] + [b[i]] + b[i + 1..];
      MiddleIsOneStep(a, b[..i], [c], [b[i]], b[i + 1..]);
  }

  lemma {:induction false} DistanceToSelf(a: string)
    ensures Distance(a, a) == 0
  {
    if a != "" { DistanceToSelf(Init(a)); }
  }

  /** Scripts that end in `b` are at least Distance long: each edit gains at most one. */
  lemma {:induction false} NoScriptIsShorter(script: seq<Edit>, a: string, b: string)
    requires Rewrites(script, a, b)
    ensures Distance(b, a) <= |script|
  {
    if script == [] {
      DistanceToSelf(a);
    } else {
      NoScriptIsShorter(script[1..], Apply(script[0], a), b);
      OneEditIsOneStep(b, a, script[0]);
    }
  }

  // ---- The metric laws, all from the script reading ----

  lemma {:induction false} DistanceIsSymmetric(a: string, b: string)
    ensures Distance(a, b) == Distance(b, a)
  {
    var p := DistanceIsAchieved(a, b);
    var q := DistanceIsAchieved(b, a);
    NoScriptIsShorter(p, a, b);
    NoScriptIsShorter(q, b, a);
  }

  /** `Distance` is the length of a shortest edit script. */
  ghost predicate IsShortestScriptLength(d: nat, a: string, b: string) {
    && (exists script :: Rewrites(script, a, b) && |script| == d)
    && forall script :: Rewrites(script, a, b) ==> d <= |script|
  }

  lemma {:induction false} DistanceIsShortest(a: string, b: string)
    ensures IsShortestScriptLength(Distance(a, b), a, b)
  {
    var p := DistanceIsAchieved(a, b);
    forall script | Rewrites(script, a, b) ensures Distance(a, b) <= |script| {
      NoScriptIsShorter(script, a, b);
      DistanceIsSymmetric(a, b);
    }
  }

  lemma {:induction false} DistanceZeroIffEqual(a: string, b: string)
    ensures Distance(a, b) == 0 <==> a == b
  {
    if Distance(a, b) == 0 {
      var p := DistanceIsAchieved(a, b);
    } else if a == b {
      DistanceToSelf(a);
    }
  }

  lemma {:induction false} DistanceTriangle(a: string, b: string, c: string)
    ensures Distance(a, c) <= Distance(a, b) + Distance(b, c)
  {
    var p := DistanceIsAchieved(a, b);
    var q := DistanceIsAchieved(b, c);
    ScriptsCompose(p, q, a, b, c);
    DistanceIsShortest(a, c);
  }

  // ---- The two-row loop ----

  /** `row` lists the distances from the first `i` characters of `a` to the prefixes of `b`. */
  ghost predicate IsRow(row: seq<nat>, a: string, i: nat, b: string) {
    && i <= |a|
    && |row| <= |b| + 1
    && forall j | 0 <= j < |row| :: row[j] == Distance(a[..i], b[..j])
  }

  lemma {:induction false} FirstRow(row: seq<nat>, a: string, b: string)
    requires |row| == |b| + 1 && forall j | 0 <= j < |row| :: row[j] == j
    ensures IsRow(row, a, 0, b)
  {}

  lemma {:induction false} StartRow(a: string, i: nat, b: string)
    requires 1 <= i <= |a|
    ensures IsRow([i], a, i, b)
  {}

  lemma {:induction false} ExtendRow(row: seq<nat>, cur: seq<nat>, a: string, i: nat, b: string, j: nat)
    requires 1 <= i <= |a| && 1 <= j <= |b|
    requires IsRow(row, a, i - 1, b) && |row| == |b| + 1
    requires IsRow(cur, a, i, b) && |cur| == j
    ensures IsRow(cur + [Min3(cur[j - 1] + 1, row[j] + 1, row[j - 1] + Cost(a[i - 1], b[j - 1]))], a, i, b)
  {
    assert Init(a[..i]) == a[..i - 1] && Init(b[..j]) == b[..j - 1];
    assert Last(a[..i]) == a[i - 1] && Last(b[..j]) == b[j - 1];
    assert cur[j - 1] == Distance(a[..i], b[..j - 1]);
    assert row[j] == Distance(a[..i - 1], b[..j]) && row[j - 1] == Distance(a[..i - 1], b[..j - 1]);
  }

  lemma {:induction false} LastOfLastRow(row: seq<nat>, a: string, b: string)
    requires IsRow(row, a, |a|, b) && |row| == |b| + 1
    ensures row[|b|] == Distance(a, b)
  {
    assert a[..|a|] == a && b[..|b|] == b;
  }

  /** `_levenshtein`: only the previous and the current row are kept. */
  method Levenshtein(a: string, b: string) returns (d: nat)
    ensures d == Distance(a, b) && IsShortestScriptLength(d, a, b)
  {
    hide IsShortestScriptLength;
    DistanceIsShortest(a, b);
    DistanceZeroIffEqual(a, b);
    if a == b { return 0; }
    if |a| == 0 { return |b|; }
    if |b| == 0 { return |a|; }
    var row: seq<nat> := seq(|b| + 1, j requires 0 <= j => j);
    FirstRow(row, a, b);
    var i := 1;
    while i <= |a|
      invariant 1 <= i <= |a| + 1 && |row| == |b| + 1
      invariant IsRow(row, a, i - 1, b)
    {
      var cur: seq<nat> := [i];
      StartRow(a, i, b);
      var j := 1;
      while j <= |b|
        invariant 1 <= j <= |b| + 1 && |cur| == j
        invariant IsRow(cur, a, i, b)
      {
        var cost := if a[i - 1] == b[j - 1] then 0 else 1;
        ExtendRow(row, cur, a, i, b, j);
        cur := cur + [Min3(cur[j - 1] + 1, row[j] + 1, row[j - 1] + cost)];
        j := j + 1;
      }
      row := cur;
      i := i + 1;
    }
    LastOfLastRow(row, a, b);
    d := row[|b|];
  }

  // ---- Nearest popular name ----

  /** `m` is the name of `top` nearest to `name`, ties going to the least name. */
  ghost predicate IsNearest(name: string, top: set<string>, m: string) {
    && m in top
    && forall c | c in top :: Distance(name, m) < Distance(name, c)
                           || (Distance(name, m) == Distance(name, c) && AtMost(m, c))
  }

  lemma {:induction false} NearestIsUnique(name: string, top: set<string>, m: string, m': string)
    requires IsNearest(name, top, m) && IsNearest(name, top, m')
    ensures m == m'
  {
    if m != m' { LessAsymmetric(m, m'); }
  }

  lemma {:induction false} NameIsNearestToItself(name: string, top: set<string>)
    requires name in top
    ensures Distance(name, name) == 0 && IsNearest(name, top, name)
  {
    forall c ensures Distance(name, c) == 0 <==> name == c { DistanceZeroIffEqual(name, c); }
  }

  /** The loop's candidate test keeps the nearest of the names seen so far. */
  lemma {:induction false} NearestSoFar(name: string, seen: set<string>, candidate: string, best: string, after: string)
    requires seen != {} ==> IsNearest(name, seen, best)
    requires after == if seen == {} || Distance(name, candidate) < Distance(name, best)
         || (Distance(name, candidate) == Distance(name, best) && Less(candidate, best))
      then candidate else best
    ensures IsNearest(name, seen + {candidate}, after)
  {
    if seen != {} {
      LessTotal(candidate, best);
      forall c | c in seen && Less(candidate, best) && Less(best, c) ensures Less(candidate, c) {
        LessTransitive(candidate, best, c);
      }
    }
  }

  /** `_typosquat_distance`: the scan order of the set is left open and does not matter. */
  method TyposquatDistance(name: string, top: set<string>) returns (r: Option<(nat, string)>)
    ensures r.None? <==> top == {}
    ensures r.Some? ==> r.value.0 == Distance(name, r.value.1) && IsNearest(name, top, r.value.1)
  {
    if top == {} { return None; }
    if name in top {
      NameIsNearestToItself(name, top);
      return Some((0, name));
    }
    var candidate :| candidate in top;
    var todo := top - {candidate};
    var bestD := Levenshtein(name, candidate);
    var bestName := candidate;
    NearestSoFar(name, {}, candidate, candidate, bestName);
    assert top - todo == {} + {candidate};
    while todo != {}
      invariant todo < top && bestD == Distance(name, bestName)
      invariant IsNearest(name, top - todo, bestName)
      decreases |todo|
    {
      candidate :| candidate in todo;
      var d := Levenshtein(name, candidate);
      ghost var before := bestName;
      if d < bestD || (d == bestD && Less(candidate, bestName)) {
        bestD, bestName := d, candidate;
      }
      NearestSoFar(name, top - todo, candidate, before, bestName);
      assert top - (todo - {candidate}) == top - todo + {candidate};
      todo := todo - {candidate};
    }
    assert top - todo == top;
    r := Some((bestD, bestName));
  }

  /** The reported distance is zero exactly for a popular name itself. */
  lemma {:induction false} ZeroDistanceIffPopular(name: string, top: set<string>, nearest: string)
    requires IsNearest(name, top, nearest)
    ensures Distance(name, nearest) == 0 <==> name in top
  {
    DistanceZeroIffEqual(name, nearest);
    if name in top { NameIsNearestToItself(name, top); }
  }
}
