/** Shared vocabulary: optional values, the code-point order on strings and least elements. */
module Basics {

  datatype Option<+T> = None | Some(value: T)

  /** Lexicographic order by code point, as Python's `<` on `str`. */
  predicate Less(a: string, b: string) {
    if b == "" then false
    else if a == "" then true
    else a[0] < b[0] || (a[0] == b[0] && Less(a[1..], b[1..]))
  }

  predicate AtMost(a: string, b: string) {
    a == b || Less(a, b)
  }

  /** The strings agree up to some place, where one ends or has the smaller character. */
  predicate DifferAt(a: string, b: string, i: int) {
    0 <= i <= |a| && i < |b| && a[..i] == b[..i] && (i < |a| ==> a[i] < b[i])
  }

  lemma {:induction false} LessIsFirstDifference(a: string, b: string)
    ensures Less(a, b) <==> exists i :: DifferAt(a, b, i)
  {
    if b == "" {
    } else if a == "" || a[0] != b[0] {
      if Less(a, b) { assert DifferAt(a, b, 0); }
      if i :| DifferAt(a, b, i) { assert i > 0 ==> a[..i][0] == b[..i][0]; }
    } else {
      LessIsFirstDifference(a[1..], b[1..]);
      if i :| DifferAt(a[1..], b[1..], i) {
        assert a[..i + 1] == [a[0]] + a[1..][..i] && b[..i + 1] == [b[0]] + b[1..][..i];
        assert DifferAt(a, b, i + 1);
      }
      if i :| DifferAt(a, b, i) {
        assert a[1..][..i - 1] == a[..i][1..] && b[1..][..i - 1] == b[..i][1..];
        assert DifferAt(a[1..], b[1..], i - 1);
      }
    }
  }

  lemma {:induction false} LessIrreflexive(a: string)
    ensures !Less(a, a)
  {
    if a != "" { LessIrreflexive(a[1..]); }
  }

  lemma {:induction false} LessTransitive(a: string, b: string, c: string)
    requires Less(a, b) && Less(b, c)
    ensures Less(a, c)
  {
    if a != "" && a[0] == b[0] == c[0] { LessTransitive(a[1..], b[1..], c[1..]); }
  }

  lemma {:induction false} LessTotal(a: string, b: string)
    ensures Less(a, b) || a == b || Less(b, a)
  {
    if a != "" && b != "" && a[0] == b[0] {
      LessTotal(a[1..], b[1..]);
      if a[1..] == b[1..] { assert a == [a[0]] + a[1..] == b; }
    }
  }

  lemma {:induction false} LessAsymmetric(a: string, b: string)
    requires Less(a, b)
    ensures !Less(b, a)
  {
    if Less(b, a) {
      LessTransitive(a, b, a);
      LessIrreflexive(a);
    }
  }

  /** `sorted(s)[0]`: every non-empty set of strings has one least element. */
  lemma {:induction false} LeastString(s: set<string>) returns (least: string)
    requires s != {}
    ensures least in s && forall x | x in s :: AtMost(least, x)
    decreases |s|
  {
    var x :| x in s;
    if s == {x} {
      least := x;
    } else {
      var rest := LeastString(s - {x});
      LessTotal(x, rest);
      least := if Less(x, rest) then x else rest;
      forall y | y in s ensures AtMost(least, y) {
        if y != x {
          assert y in s - {x};
          if Less(x, rest) && y != rest { LessTransitive(x, rest, y); }
        }
      }
    }
  }

  function Reverse<T>(s: seq<T>): (r: seq<T>)
    ensures |r| == |s|
  {
    if s == [] then [] else Reverse(s[1..]) + [s[0]]
  }

  lemma {:induction false} ReverseAppend<T>(s: seq<T>, x: T)
    ensures Reverse(s + [x]) == [x] + Reverse(s)
  {
    if s == [] {
      assert Reverse([x]) == [x];
    } else {
      assert (s + [x])[1..] == s[1..] + [x];
      ReverseAppend(s[1..], x);
    }
  }
}
