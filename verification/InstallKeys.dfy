/**
 Lockfile install keys (arguss/core/parser.py, arguss/web/lockfile_fix.py): strings such as
 `node_modules/a/node_modules/@s/b`, read as chains of package names.
 */
module InstallKeys {
  import opened Basics

  const SEP := "/node_modules/"
  const PREFIX := "node_modules/"

  predicate StartsWith(s: string, p: string) {
    |p| <= |s| && s[..|p|] == p
  }

  predicate SepAt(s: string, p: int) {
    0 <= p && p + 14 <= |s| && s[p..p + 14] == SEP
  }

  /** Position of the first separator at or after `i`, or |s|. */
  function FirstSep(s: string, i: nat): (p: nat)
    ensures i <= |s| ==> i <= p <= |s| && (p < |s| ==> SepAt(s, p))
    decreases |s| - i
  {
    if i >= |s| then |s| else if SepAt(s, i) then i else FirstSep(s, i + 1)
  }

  /** `s.split("/node_modules/")` */
  function Split(s: string): (parts: seq<string>)
    ensures parts != []
    decreases |s|
  {
    var p := FirstSep(s, 0);
    if p == |s| then [s] else [s[..p]] + Split(s[p + 14..])
  }

  /** Position of the last separator starting before `i`, as `rsplit` finds it. */
  function LastSep(s: string, i: nat): (p: Option<nat>)
    ensures p.Some? ==> SepAt(s, p.value) && p.value < i
  {
    if i == 0 then None else if SepAt(s, i - 1) then Some(i - 1) else LastSep(s, i - 1)
  }

  function NonEmpty(parts: seq<string>): seq<string> {
    if parts == [] then []
    else (if parts[0] == "" then [] else [parts[0]]) + NonEmpty(parts[1..])
  }

  /** `_parse_package_path` */
  function ParsePackagePath(key: string): seq<string> {
    if !StartsWith(key, PREFIX) then []
    else
      var parts := Split(key);
      var head := if StartsWith(parts[0], PREFIX) then parts[0][13..] else parts[0];
      NonEmpty([head] + parts[1..])
  }

  /** Last segment as `_entry_key_matches_package` sees it. */
  function FixerName(key: string): Option<string> {
    if !StartsWith(key, PREFIX) then None
    else var parts := Split(key[13..]); Some(parts[|parts| - 1])
  }

  /** Key of `name` installed directly under `scope`. */
  function Child(scope: string, name: string): string {
    if scope != "" then scope + SEP + name else PREFIX + name
  }

  function Encode(chain: seq<string>): string {
    if chain == [] then "" else Child(Encode(chain[..|chain| - 1]), chain[|chain| - 1])
  }

  /** A package name: not empty, and no `node_modules` path segment in it. */
  ghost predicate ValidName(n: string) {
    n != "" && forall p :: !SepAt("/" + n + "/", p)
  }

  ghost predicate ValidChain(chain: seq<string>) {
    forall i | 0 <= i < |chain| :: ValidName(chain[i])
  }

  // ---- Where separators can be ----

  /** No separator begins inside `w`, whatever separator follows it. */
  ghost predicate Clean(w: string) {
    forall p :: !SepAt(w + "/", p)
  }

  lemma {:induction false} SepShift(a: string, b: string, k: nat)
    ensures SepAt(a + b, |a| + k) <==> SepAt(b, k)
  {
    if k + 14 <= |b| { assert (a + b)[|a| + k..|a| + k + 14] == b[k..k + 14]; }
  }

  lemma {:induction false} SepPrefix(a: string, b: string, p: nat)
    requires p + 14 <= |a|
    ensures SepAt(a + b, p) <==> SepAt(a, p)
  {
    assert (a + b)[p..p + 14] == a[p..p + 14];
  }

  lemma {:induction false} NoSepWithoutSlash(s: string, p: nat)
    requires p < |s| && s[p] != '/'
    ensures !SepAt(s, p)
  {
    if p + 14 <= |s| { assert s[p] == s[p..p + 14][0]; }
  }

  /** An occurrence of the separator has no slash strictly inside it. */
  lemma {:induction false} NoInnerSlash(s: string, p: int, o: int)
    requires SepAt(s, p) && 0 < o < 13
    ensures s[p + o] != '/'
  {
    assert s[p + o] == s[p..p + 14][o] == SEP[o];
  }

  lemma {:induction false} CleanName(n: string)
    requires ValidName(n)
    ensures Clean(n) && Clean(PREFIX + n)
  {
    forall p ensures !SepAt(n + "/", p) {
      if p >= 0 { SepShift("/", n + "/", p); }
      assert "/" + (n + "/") == "/" + n + "/";
    }
    var w := PREFIX + n + "/";
    assert w == "node_modules" + ("/" + n + "/");
    forall p ensures !SepAt(w, p) {
      if p >= 12 {
        SepShift("node_modules", "/" + n + "/", p - 12);
      } else if p >= 0 {
        NoSepWithoutSlash(w, p);
      }
    }
  }

  lemma {:induction false} NoSepInsideClean(w: string, t: string, p: nat)
    requires Clean(w) && p < |w|
    ensures !SepAt(w + SEP + t, p)
  {
    var s := w + SEP + t;
    assert s == (w + "/") + (SEP[1..] + t) && s[|w|] == '/';
    if p + 14 <= |w| + 1 {
      SepPrefix(w + "/", SEP[1..] + t, p);
    } else if SepAt(s, p) {
      NoInnerSlash(s, p, |w| - p);
    }
  }

  lemma {:induction false} FirstSepAfterClean(w: string, t: string)
    requires Clean(w)
    ensures FirstSep(w + SEP + t, 0) == |w|
  {
    var s := w + SEP + t;
    assert s[|w|..|w| + 14] == SEP;
    forall p | 0 <= p < |w| ensures !SepAt(s, p) { NoSepInsideClean(w, t, p); }
    FirstSepIs(s, 0, |w|);
  }

  lemma {:induction false} FirstSepIs(s: string, i: nat, p: nat)
    requires i <= p < |s| && SepAt(s, p) && forall j | i <= j < p :: !SepAt(s, j)
    ensures FirstSep(s, i) == p
    decreases p - i
  {
    if i < p { FirstSepIs(s, i + 1, p); }
  }

  lemma {:induction false} NoSepInClean(w: string, p: nat)
    requires Clean(w)
    ensures !SepAt(w, p)
  {
    if p + 14 <= |w| { SepPrefix(w, "/", p); }
  }

  lemma {:induction false} CleanHasNoSep(w: string)
    requires Clean(w)
    ensures FirstSep(w, 0) == |w|
  {
    NoSepInClean(w, FirstSep(w, 0));
  }

  lemma {:induction false} LastSepIs(s: string, i: nat, p: nat)
    requires p < i && SepAt(s, p) && forall j | p < j < i :: !SepAt(s, j)
    ensures LastSep(s, i) == Some(p)
  {
    if p < i - 1 { LastSepIs(s, i - 1, p); }
  }

  lemma {:induction false} NoSepInName(x: string, n: string, j: nat)
    requires ValidName(n) && |x| < j < |x + SEP + n|
    ensures !SepAt(x + SEP + n, j)
  {
    var s := x + SEP + n;
    if j < |x| + 13 {
      assert s[j] == SEP[j - |x|];
      NoSepWithoutSlash(s, j);
    } else {
      assert s == (x + SEP[..13]) + ("/" + n);
      SepShift(x + SEP[..13], "/" + n, j - |x| - 13);
      if j - |x| + 1 <= |n| + 1 {
        SepPrefix("/" + n, "/", j - |x| - 13);
      }
    }
  }

  lemma {:induction false} LastSepBeforeName(x: string, n: string)
    requires ValidName(n)
    ensures LastSep(x + SEP + n, |x + SEP + n|) == Some(|x|)
  {
    var s := x + SEP + n;
    assert s[|x|..|x| + 14] == SEP;
    forall j | |x| < j < |s| ensures !SepAt(s, j) { NoSepInName(x, n, j); }
    LastSepIs(s, |s|, |x|);
  }

  lemma {:induction false} LastSepNone(s: string, i: nat)
    requires Clean(s)
    ensures LastSep(s, i) == None
  {
    if i > 0 {
      NoSepInClean(s, i - 1);
      LastSepNone(s, i - 1);
    }
  }

  // ---- Encoding and decoding ----

  function Join(chain: seq<string>): string
    requires chain != []
  {
    if |chain| == 1 then chain[0] else chain[0] + SEP + Join(chain[1..])
  }

  lemma {:induction false} JoinAppend(chain: seq<string>, n: string)
    requires chain != []
    ensures Join(chain + [n]) == Join(chain) + SEP + n
  {
    if |chain| == 1 {
      assert (chain + [n])[1..] == [n];
    } else {
      assert (chain + [n])[1..] == chain[1..] + [n];
      JoinAppend(chain[1..], n);
    }
  }

  lemma {:induction false} EncodeIsJoin(chain: seq<string>)
    requires chain != []
    ensures Encode(chain) == PREFIX + Join(chain)
  {
    var init, n := chain[..|chain| - 1], chain[|chain| - 1];
    if init != [] {
      EncodeIsJoin(init);
      JoinAppend(init, n);
      assert chain == init + [n];
    }
  }

  lemma {:induction false} SplitJoin(chain: seq<string>)
    requires chain != [] && ValidChain(chain)
    ensures Split(Join(chain)) == chain
  {
    CleanName(chain[0]);
    if |chain| == 1 {
      CleanHasNoSep(chain[0]);
    } else {
      var s := Join(chain);
      FirstSepAfterClean(chain[0], Join(chain[1..]));
      assert s[..|chain[0]|] == chain[0] && s[|chain[0]| + 14..] == Join(chain[1..]);
      SplitJoin(chain[1..]);
    }
  }

  lemma {:induction false} SplitEncode(chain: seq<string>)
    requires chain != [] && ValidChain(chain)
    ensures Split(Encode(chain)) == [PREFIX + chain[0]] + chain[1..]
  {
    EncodeIsJoin(chain);
    CleanName(chain[0]);
    var w, s := PREFIX + chain[0], Encode(chain);
    if |chain| == 1 {
      CleanHasNoSep(w);
    } else {
      assert s == w + SEP + Join(chain[1..]);
      FirstSepAfterClean(w, Join(chain[1..]));
      assert s[..|w|] == w && s[|w| + 14..] == Join(chain[1..]);
      SplitJoin(chain[1..]);
    }
  }

  lemma {:induction false} NonEmptyKeepsValid(chain: seq<string>)
    requires ValidChain(chain)
    ensures NonEmpty(chain) == chain
  {
    if chain != [] { NonEmptyKeepsValid(chain[1..]); }
  }

  lemma {:induction false} DecodeSplit(key: string, chain: seq<string>)
    requires StartsWith(key, PREFIX) && chain != [] && ValidChain(chain)
    requires Split(key) == [PREFIX + chain[0]] + chain[1..]
    ensures ParsePackagePath(key) == chain
  {
    var head := PREFIX + chain[0];
    assert head[..13] == PREFIX && head[13..] == chain[0];
    assert [chain[0]] + Split(key)[1..] == chain;
    NonEmptyKeepsValid(chain);
  }

  /** Decoding inverts encoding, for the parser and for the lockfile fixer alike. */
  lemma {:induction false} DecodeEncode(chain: seq<string>)
    requires chain != [] && ValidChain(chain)
    ensures StartsWith(Encode(chain), PREFIX)
    ensures ParsePackagePath(Encode(chain)) == chain
    ensures FixerName(Encode(chain)) == Some(chain[|chain| - 1])
  {
    EncodeIsJoin(chain);
    KeyShape(Encode(chain), Join(chain));
    SplitEncode(chain);
    DecodeSplit(Encode(chain), chain);
    SplitJoin(chain);
  }

  lemma {:induction false} KeyShape(key: string, rest: string)
    requires key == PREFIX + rest
    ensures StartsWith(key, PREFIX) && key[13..] == rest
  {}

  lemma {:induction false} SingleIsValid(n: string)
    requires ValidName(n)
    ensures ValidChain([n])
  {
  }

  lemma {:induction false} TopLevelKey(n: string)
    ensures Encode([n]) == PREFIX + n
  {
    assert [n][..0] == [];
  }

  lemma {:induction false} EncodeIsInjective(c: seq<string>, d: seq<string>)
    requires ValidChain(c) && ValidChain(d) && Encode(c) == Encode(d)
    ensures c == d
  {
    if c != [] { DecodeEncode(c); }
    if d != [] { DecodeEncode(d); }
  }

  /** Why no name may be `node_modules`: such a key is read one way by the parser, another by the fixer. */
  lemma {:induction false} DoubledScopeIsReadTwoWays(n: string)
    requires ValidName(n)
    ensures ParsePackagePath(PREFIX + PREFIX + n) == ["node_modules", n]
    ensures FixerName(PREFIX + PREFIX + n) == Some(PREFIX + n)
  {
    var scope := "node_modules";
    var key := PREFIX + PREFIX + n;
    KeyShape(key, PREFIX + n);
    CleanName(n);
    CleanHasNoSep(PREFIX + n);
    CleanHasNoSep(n);
    assert key == scope + SEP + n;
    FirstSepAfterClean(scope, n);
    assert key[..12] == scope && key[26..] == n;
    assert Split(key) == [scope] + [n] == [scope, n];
    assert [scope, n][1..] == [n] && [n][1..] == [];
    assert NonEmpty([n]) == [n];
    assert NonEmpty([scope, n]) == [scope, n];
    assert [scope] + Split(key)[1..] == [scope, n];
  }

  // ---- Enclosing scopes ----

  /** `_ancestor_node_modules_prefixes`: the key, then each enclosing scope outward. */
  function Ancestors(cur: string): (scopes: seq<string>)
    ensures scopes != [] && scopes[0] == cur
    decreases |cur|
  {
    if cur == "" then [cur]
    else
      var p := LastSep(cur, |cur|);
      if p.Some? then [cur] + Ancestors(cur[..p.value])
      else if StartsWith(cur, PREFIX) then [cur] + Ancestors("")
      else [cur]
  }

  method AncestorNodeModulesPrefixes(declarer: string) returns (prefixes: seq<string>)
    ensures prefixes == Ancestors(declarer)
  {
    prefixes := [];
    var cur := declarer;
    while true
      invariant Ancestors(declarer) == prefixes + Ancestors(cur)
      decreases |cur|
    {
      prefixes := prefixes + [cur];
      if cur == "" { break; }
      var p := LastSep(cur, |cur|);
      if p.Some? {
        cur := cur[..p.value];
      } else if StartsWith(cur, PREFIX) {
        cur := "";
      } else {
        break;
      }
    }
  }

  lemma {:induction false} AncestorsOfChild(scope: string, n: string)
    requires ValidName(n)
    ensures Ancestors(Child(scope, n)) == [Child(scope, n)] + Ancestors(scope)
  {
    var key := Child(scope, n);
    if scope == "" {
      CleanName(n);
      LastSepNone(key, |key|);
      assert key[..13] == PREFIX;
    } else {
      LastSepBeforeName(scope, n);
      assert key[..|scope|] == scope;
    }
  }

  /** The walk lists every enclosing scope, deepest first, ending at the project root. */
  lemma {:induction false} AncestorsAreEnclosingScopes(chain: seq<string>)
    requires ValidChain(chain)
    ensures |Ancestors(Encode(chain))| == |chain| + 1
    ensures forall i | 0 <= i <= |chain| :: Ancestors(Encode(chain))[i] == Encode(chain[..|chain| - i])
  {
    assert chain[..|chain|] == chain;
    if chain != [] {
      var init := chain[..|chain| - 1];
      AncestorsAreEnclosingScopes(init);
      AncestorsOfChild(Encode(init), chain[|chain| - 1]);
      forall i | 0 < i <= |chain| ensures Ancestors(Encode(chain))[i] == Encode(chain[..|chain| - i]) {
        assert init[..|init| - (i - 1)] == chain[..|chain| - i];
      }
    }
  }
}
