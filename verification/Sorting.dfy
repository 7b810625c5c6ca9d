/** `sorted`: a stable insertion sort, and the distinct elements of a list. */
module Sorting {

  function Insert<T>(before: (T, T) -> bool, x: T, s: seq<T>): seq<T> {
    if s != [] && before(s[0], x) then [s[0]] + Insert(before, x, s[1..]) else [x] + s
  }

  function Sort<T>(before: (T, T) -> bool, s: seq<T>): seq<T> {
    if s == [] then [] else Insert(before, s[0], Sort(before, s[1..]))
  }

  /** No element comes strictly before its left neighbour. */
  ghost predicate InOrder<T>(before: (T, T) -> bool, s: seq<T>) {
    forall i | 0 < i < |s| :: !before(s[i], s[i - 1])
  }

  lemma {:induction false} InsertKeepsElements<T>(before: (T, T) -> bool, x: T, s: seq<T>)
    ensures multiset(Insert(before, x, s)) == multiset{x} + multiset(s)
  {
    if s != [] && before(s[0], x) {
      InsertKeepsElements(before, x, s[1..]);
      assert s == [s[0]] + s[1..];
    }
  }

  /** Sorting permutes. */
  lemma {:induction false} SortKeepsElements<T>(before: (T, T) -> bool, s: seq<T>)
    ensures multiset(Sort(before, s)) == multiset(s)
    ensures |Sort(before, s)| == |s|
    ensures forall x :: x in Sort(before, s) <==> x in s
  {
    if s != [] {
      SortKeepsElements(before, s[1..]);
      InsertKeepsElements(before, s[0], Sort(before, s[1..]));
      assert s == [s[0]] + s[1..];
    }
    SameElements(Sort(before, s), s);
  }

  lemma {:induction false} SameElements<T>(s: seq<T>, t: seq<T>)
    requires multiset(s) == multiset(t)
    ensures |s| == |t| && forall x :: x in s <==> x in t
  {
    assert |multiset(s)| == |multiset(t)|;
    forall x ensures x in s <==> x in t { assert x in multiset(s) <==> x in multiset(t); }
  }

  lemma {:induction false} InsertKeepsOrder<T>(before: (T, T) -> bool, x: T, s: seq<T>)
    requires forall a, b | before(a, b) :: !before(b, a)
    requires InOrder(before, s)
    ensures InOrder(before, Insert(before, x, s))
    ensures Insert(before, x, s)[0] == x || (s != [] && Insert(before, x, s)[0] == s[0])
  {
    if s != [] && before(s[0], x) {
      assert InOrder(before, s[1..]) by {
        forall i | 0 < i < |s[1..]| ensures !before(s[1..][i], s[1..][i - 1]) { assert s[1..][i] == s[i + 1]; }
      }
      InsertKeepsOrder(before, x, s[1..]);
      var r := Insert(before, x, s[1..]);
      assert !before(r[0], s[0]);
    }
  }

  /** Sorting orders. */
  lemma {:induction false} SortIsInOrder<T>(before: (T, T) -> bool, s: seq<T>)
    requires forall a, b | before(a, b) :: !before(b, a)
    ensures InOrder(before, Sort(before, s))
  {
    if s != [] {
      SortIsInOrder(before, s[1..]);
      InsertKeepsOrder(before, s[0], Sort(before, s[1..]));
    }
  }

  ghost predicate Distinct<T>(s: seq<T>) {
    forall i, j | 0 <= i < j < |s| :: s[i] != s[j]
  }

  /** Distinct elements in order of first appearance, as the keys of a dictionary filled from `s`. */
  function Dedup<T(==)>(s: seq<T>): seq<T> {
    if s == [] then []
    else
      var init := Dedup(s[..|s| - 1]);
      if s[|s| - 1] in init then init else init + [s[|s| - 1]]
  }

  lemma {:induction false} DedupIsDistinct<T>(s: seq<T>)
    ensures Distinct(Dedup(s)) && forall x :: x in Dedup(s) <==> x in s
  {
    if s != [] {
      DedupIsDistinct(s[..|s| - 1]);
      assert s == s[..|s| - 1] + [s[|s| - 1]];
    }
  }

  /** Repeats are exactly what makes the list of distinct elements shorter. */
  lemma {:induction false} DedupIsShorterIff<T>(s: seq<T>)
    ensures |Dedup(s)| <= |s| && (|Dedup(s)| == |s| <==> Distinct(s))
    ensures Distinct(s) ==> Dedup(s) == s
  {
    if s != [] {
      var init, last := s[..|s| - 1], s[|s| - 1];
      assert s == init + [last];
      DedupIsShorterIff(init);
      DedupIsDistinct(init);
      if Distinct(s) {
        assert Distinct(init);
        forall i | 0 <= i < |init| ensures init[i] != last { assert s[i] != s[|s| - 1]; }
        assert last !in init;
      }
      if Distinct(init) && last !in init {
        forall i, j | 0 <= i < j < |s| ensures s[i] != s[j] {
          if j == |init| { assert init[i] in init; } else { assert init[i] != init[j]; }
        }
      }
    }
  }

  lemma {:induction false} DistinctFromMultiset<T>(s: seq<T>)
    ensures Distinct(s) <==> forall x | x in s :: multiset(s)[x] == 1
  {
    if s != [] {
      var rest := s[1..];
      assert s == [s[0]] + rest;
      DistinctFromMultiset(rest);
      if Distinct(s) {
        assert Distinct(rest);
        assert s[0] !in rest;
        forall x | x in s ensures multiset(s)[x] == 1 { assert x == s[0] || x in rest; }
      }
      if forall x | x in s :: multiset(s)[x] == 1 {
        assert multiset(s)[s[0]] == 1 + multiset(rest)[s[0]];
        assert s[0] !in rest;
        forall x | x in rest ensures multiset(rest)[x] == 1 { assert x in s; }
      }
    }
  }

  lemma {:induction false} SortKeepsDistinct<T>(before: (T, T) -> bool, s: seq<T>)
    requires Distinct(s)
    ensures Distinct(Sort(before, s))
  {
    SortKeepsElements(before, s);
    DistinctFromMultiset(s);
    DistinctFromMultiset(Sort(before, s));
  }

  lemma {:induction false} DedupHas<T>(s: seq<T>, i: nat)
    requires i < |Dedup(s)|
    ensures Dedup(s)[i] in s
  {
    var init := s[..|s| - 1];
    if i < |Dedup(init)| { DedupHas(init, i); }
  }

  /** Repeats are dropped and the rest stands in the order of first appearance. */
  lemma {:induction false} DedupIsFirstSeen<T>(s: seq<T>, i: nat, j: nat) returns (p: nat)
    requires i < j < |Dedup(s)|
    ensures p < |s| && s[p] == Dedup(s)[i] && Dedup(s)[j] !in s[..p]
  {
    var init := s[..|s| - 1];
    var before := Dedup(init);
    DedupIsDistinct(init);
    if j < |before| {
      p := DedupIsFirstSeen(init, i, j);
      assert s[..p] == init[..p];
    } else {
      var x := before[i];
      DedupHas(init, i);
      p :| 0 <= p < |init| && init[p] == x;
      assert forall y | y in s[..p] :: y in init;
    }
  }

  // ---- Ties keep their order ----

  ghost predicate Ties<T(!new)>(before: (T, T) -> bool) {
    && (forall a, b | before(a, b) :: !before(b, a))
    && forall a, b, c | before(a, c) :: before(a, b) || before(b, c)
  }

  /** The elements neither before nor after `a`, in their order. */
  function TiedWith<T>(before: (T, T) -> bool, a: T, s: seq<T>): seq<T> {
    if s == [] then []
    else (if !before(a, s[0]) && !before(s[0], a) then [s[0]] else []) + TiedWith(before, a, s[1..])
  }

  lemma {:induction false} InsertIsStable<T(!new)>(before: (T, T) -> bool, x: T, s: seq<T>, a: T)
    requires Ties(before)
    ensures TiedWith(before, a, Insert(before, x, s)) == TiedWith(before, a, [x] + s)
  {
    assert ([x] + s)[1..] == s;
    if s != [] && before(s[0], x) {
      InsertIsStable(before, x, s[1..], a);
      assert ([x] + s[1..])[1..] == s[1..];
      assert before(s[0], a) || before(a, x);
    }
  }

  /** Sorting keeps the order of tied elements, as Python's does. */
  lemma {:induction false} SortIsStable<T(!new)>(before: (T, T) -> bool, s: seq<T>, a: T)
    requires Ties(before)
    ensures TiedWith(before, a, Sort(before, s)) == TiedWith(before, a, s)
  {
    if s != [] {
      SortIsStable(before, s[1..], a);
      InsertIsStable(before, s[0], Sort(before, s[1..]), a);
      assert ([s[0]] + Sort(before, s[1..]))[1..] == Sort(before, s[1..]);
    }
  }
}
