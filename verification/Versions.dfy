/** Relaxed semantic versions (arguss/engine/fix_kind.py). Digits are the ASCII digits. */
module Versions {
  import opened Basics

  datatype Triplet = Triplet(major: nat, minor: nat, patch: nat)

  datatype FixKind = Patch | Minor | Major

  predicate IsDigit(c: char) {
    '0' <= c <= '9'
  }

  // ---- Reading a triplet ----

  function FirstDigitIndex(s: string): (i: Option<nat>)
    ensures i.Some? ==> i.value < |s|
  {
    if s == "" then None
    else if IsDigit(s[0]) then Some(0)
    else var i := FirstDigitIndex(s[1..]); if i.None? then None else Some(i.value + 1)
  }

  /** Length of the leading run of digits. */
  function DigitRun(s: string): (n: nat)
    ensures n <= |s| && forall i | 0 <= i < n :: IsDigit(s[i])
    ensures n < |s| ==> !IsDigit(s[n])
  {
    if s != "" && IsDigit(s[0]) then 1 + DigitRun(s[1..]) else 0
  }

  /** `int(s)` on digits. */
  function Decimal(s: string): nat
    requires forall i | 0 <= i < |s| :: IsDigit(s[i])
  {
    if s == "" then 0
    else
      assert IsDigit(s[|s| - 1]);
      Decimal(s[..|s| - 1]) * 10 + (s[|s| - 1] as int - '0' as int)
  }

  function LeadingInt(segment: string): Option<nat> {
    var n := DigitRun(segment);
    if n == 0 then None else Some(Decimal(segment[..n]))
  }

  /** `_leading_nonnegative_int` */
  method LeadingNonnegativeInt(segment: string) returns (n: Option<nat>)
    ensures n == LeadingInt(segment)
  {
    if segment == "" { return None; }
    var end := 0;
    while end < |segment| && IsDigit(segment[end])
      invariant 0 <= end <= |segment|
      invariant DigitRun(segment) == end + DigitRun(segment[end..])
    {
      assert segment[end..][1..] == segment[end + 1..];
      end := end + 1;
    }
    if end == 0 { return None; }
    n := Some(Decimal(segment[..end]));
  }

  /** `s.split(".", 1)`: the part before the first dot, and what follows it if there is one. */
  function Cut(s: string): (r: (string, Option<string>))
    ensures r.1.Some? ==> |r.1.value| < |s|
  {
    if s == "" then ("", None)
    else if s[0] == '.' then ("", Some(s[1..]))
    else var (head, tail) := Cut(s[1..]); ([s[0]] + head, tail)
  }

  /** The third part of `core.split(".", 2)` is everything after the second dot. */
  function ParseCore(core: string): Option<Triplet> {
    var (a, rest) := Cut(core);
    var major := LeadingInt(a);
    if major.None? then None
    else if rest.None? then Some(Triplet(major.value, 0, 0))
    else
      var (b, c) := Cut(rest.value);
      var minor := LeadingInt(b);
      if minor.None? then None
      else if c.None? then Some(Triplet(major.value, minor.value, 0))
      else
        var patch := LeadingInt(c.value);
        if patch.None? then None else Some(Triplet(major.value, minor.value, patch.value))
  }

  /** `_parse_semver_triplet` */
  function ParseTriplet(version: string): Option<Triplet> {
    var i := FirstDigitIndex(version);
    if i.None? then None else ParseCore(version[i.value..])
  }

  // ---- Printing, and the round trip ----

  function Print(n: nat): (s: string)
    ensures s != "" && forall i | 0 <= i < |s| :: IsDigit(s[i])
    ensures Decimal(s) == n
  {
    var d: string := [(n % 10 + '0' as int) as char];
    if n < 10 then assert d[..0] == ""; d
    else
      var s := Print(n / 10) + d;
      assert s[..|s| - 1] == Print(n / 10);
      s
  }

  function PrintTriplet(t: Triplet): string {
    Print(t.major) + "." + Print(t.minor) + "." + Print(t.patch)
  }

  predicate DigitFree(s: string) {
    forall i | 0 <= i < |s| :: !('0' <= s[i] <= '9')
  }

  predicate StartsNonDigit(s: string) {
    s != "" ==> !('0' <= s[0] <= '9')
  }

  lemma {:induction false} DigitRunThenOther(ds: string, rest: string)
    requires (forall i | 0 <= i < |ds| :: IsDigit(ds[i])) && StartsNonDigit(rest)
    ensures DigitRun(ds + rest) == |ds|
  {
    if ds != "" {
      assert (ds + rest)[1..] == ds[1..] + rest;
      DigitRunThenOther(ds[1..], rest);
    } else {
      assert ds + rest == rest;
    }
  }

  lemma {:induction false} LeadingIntOfPrint(n: nat, rest: string)
    requires StartsNonDigit(rest)
    ensures LeadingInt(Print(n) + rest) == Some(n)
  {
    DigitRunThenOther(Print(n), rest);
    assert (Print(n) + rest)[..|Print(n)|] == Print(n);
  }

  lemma {:induction false} CutAtDot(a: string, rest: string)
    requires forall i | 0 <= i < |a| :: a[i] != '.'
    ensures Cut(a + "." + rest) == (a, Some(rest))
  {
    var s := a + "." + rest;
    if a != "" {
      assert s[1..] == a[1..] + "." + rest;
      CutAtDot(a[1..], rest);
      assert [a[0]] + a[1..] == a;
    } else {
      assert s[1..] == rest;
    }
  }

  lemma {:induction false} FirstDigitAfter(prefix: string, s: string)
    requires DigitFree(prefix) && s != "" && IsDigit(s[0])
    ensures FirstDigitIndex(prefix + s) == Some(|prefix|)
  {
    if prefix != "" {
      assert (prefix + s)[1..] == prefix[1..] + s;
      FirstDigitAfter(prefix[1..], s);
    } else {
      assert prefix + s == s;
    }
  }

  /** The two cuts of a printed triplet. */
  lemma {:induction false} CutPrinted(t: Triplet, suffix: string)
    ensures var a, b, c := Print(t.major), Print(t.minor), Print(t.patch);
      && PrintTriplet(t) + suffix == a + "." + (b + "." + (c + suffix))
      && Cut(PrintTriplet(t) + suffix) == (a, Some(b + "." + (c + suffix)))
      && Cut(b + "." + (c + suffix)) == (b, Some(c + suffix))
  {
    hide Print, Cut;
    var a, b, c := Print(t.major), Print(t.minor), Print(t.patch);
    assert PrintTriplet(t) + suffix == a + "." + (b + "." + (c + suffix));
    CutAtDot(a, b + "." + (c + suffix));
    CutAtDot(b, c + suffix);
  }

  lemma {:induction false} PrintedIsParsed(t: Triplet, suffix: string)
    requires StartsNonDigit(suffix)
    ensures ParseCore(PrintTriplet(t) + suffix) == Some(t)
    ensures PrintTriplet(t) + suffix != "" && IsDigit((PrintTriplet(t) + suffix)[0])
  {
    hide Print, Cut, LeadingInt, PrintTriplet;
    var a, b := Print(t.major), Print(t.minor);
    CutPrinted(t, suffix);
    LeadingIntOfPrint(t.major, "");
    LeadingIntOfPrint(t.minor, "");
    LeadingIntOfPrint(t.patch, suffix);
    assert a + "" == a && b + "" == b;
    assert (PrintTriplet(t) + suffix)[0] == a[0];
  }

  /** Parsing inverts printing under any digit-free prefix and any suffix that is not more digits. */
  lemma {:induction false} ParseInvertsPrint(prefix: string, t: Triplet, suffix: string)
    requires DigitFree(prefix) && StartsNonDigit(suffix)
    ensures ParseTriplet(prefix + PrintTriplet(t) + suffix) == Some(t)
  {
    hide PrintTriplet, ParseCore, FirstDigitIndex;
    var core := PrintTriplet(t) + suffix;
    PrintedIsParsed(t, suffix);
    FirstDigitAfter(prefix, core);
    assert prefix + PrintTriplet(t) + suffix == prefix + core;
    assert (prefix + core)[|prefix|..] == core;
  }

  // ---- Which versions are read, and as what ----

  /** A number in base ten: a further digit multiplies by ten and adds its value, '9' being 9. */
  lemma {:induction false} DecimalIsBaseTen(s: string, d: char)
    requires (forall i | 0 <= i < |s| :: IsDigit(s[i])) && IsDigit(d)
    ensures Decimal(s + [d]) == 10 * Decimal(s) + (d as int - 48) && Decimal("9") == 9
  {
    assert (s + [d])[..|s|] == s && "9"[..0] == "";
  }

  /** A segment that starts with digits, which spell `n`. */
  ghost predicate SpellsInt(segment: string, n: nat) {
    exists ds, rest :: DigitsThen(segment, ds, rest, n)
  }

  ghost predicate DigitsThen(segment: string, ds: string, rest: string, n: nat) {
    && segment == ds + rest && ds != "" && StartsNonDigit(rest)
    && (forall i | 0 <= i < |ds| :: '0' <= ds[i] <= '9') && Decimal(ds) == n
  }

  lemma {:induction false} LeadingIntIsSpelled(segment: string, n: nat)
    ensures LeadingInt(segment) == Some(n) <==> SpellsInt(segment, n)
  {
    var k := DigitRun(segment);
    if LeadingInt(segment) == Some(n) { assert DigitsThen(segment, segment[..k], segment[k..], n); }
    if SpellsInt(segment, n) {
      var ds, rest :| DigitsThen(segment, ds, rest, n);
      DigitRunThenOther(ds, rest);
      assert segment[..|ds|] == ds;
    }
  }

  predicate DotFree(s: string) {
    forall i | 0 <= i < |s| :: s[i] != '.'
  }

  lemma {:induction false} CutIs(s: string)
    ensures var (head, tail) := Cut(s);
      && DotFree(head) && (tail.None? ==> s == head) && (tail.Some? ==> s == head + "." + tail.value)
  {
    if s != "" && s[0] != '.' {
      CutIs(s[1..]);
      assert s == [s[0]] + s[1..];
    } else if s != "" {
      assert s == "" + "." + s[1..];
    }
  }

  lemma {:induction false} NothingToCut(s: string)
    requires DotFree(s)
    ensures Cut(s) == (s, None)
  {
    if s != "" {
      NothingToCut(s[1..]);
      assert s == [s[0]] + s[1..];
    }
  }

  /** One, two or three numbers between dots; whatever follows the digits of each is passed over. */
  ghost predicate SpellsCore(core: string, t: Triplet) {
    || (DotFree(core) && SpellsInt(core, t.major) && t.minor == 0 && t.patch == 0)
    || (exists a, b :: TwoParts(core, a, b, t))
    || (exists a, b, c :: ThreeParts(core, a, b, c, t))
  }

  ghost predicate TwoParts(core: string, a: string, b: string, t: Triplet) {
    && core == a + "." + b && DotFree(a) && DotFree(b)
    && SpellsInt(a, t.major) && SpellsInt(b, t.minor) && t.patch == 0
  }

  ghost predicate ThreeParts(core: string, a: string, b: string, c: string, t: Triplet) {
    && core == a + "." + (b + "." + c) && DotFree(a) && DotFree(b)
    && SpellsInt(a, t.major) && SpellsInt(b, t.minor) && SpellsInt(c, t.patch)
  }

  lemma {:induction false} CoreIsSpelled(core: string, t: Triplet)
    ensures ParseCore(core) == Some(t) <==> SpellsCore(core, t)
  {
    hide Cut, LeadingInt, SpellsInt, DotFree;
    CutIs(core);
    var (a, rest) := Cut(core);
    LeadingIntIsSpelled(a, t.major);
    if rest.Some? {
      CutIs(rest.value);
      var (b, c) := Cut(rest.value);
      LeadingIntIsSpelled(b, t.minor);
      if c.Some? { LeadingIntIsSpelled(c.value, t.patch); }
      if ParseCore(core) == Some(t) {
        if c.None? { assert TwoParts(core, a, b, t); } else { assert ThreeParts(core, a, b, c.value, t); }
      }
    }
    if SpellsCore(core, t) { SpelledIsParsed(core, t); }
  }

  lemma {:induction false} SpelledIsParsed(core: string, t: Triplet)
    requires SpellsCore(core, t)
    ensures ParseCore(core) == Some(t)
  {
    hide Cut, LeadingInt, SpellsInt;
    if DotFree(core) && SpellsInt(core, t.major) && t.minor == 0 && t.patch == 0 {
      NothingToCut(core);
      LeadingIntIsSpelled(core, t.major);
    } else if a, b :| TwoParts(core, a, b, t) {
      CutAtDot(a, b);
      NothingToCut(b);
      LeadingIntIsSpelled(a, t.major);
      LeadingIntIsSpelled(b, t.minor);
    } else {
      var a, b, c :| ThreeParts(core, a, b, c, t);
      CutAtDot(a, b + "." + c);
      CutAtDot(b, c);
      LeadingIntIsSpelled(a, t.major);
      LeadingIntIsSpelled(b, t.minor);
      LeadingIntIsSpelled(c, t.patch);
    }
  }

  ghost predicate Spells(version: string, t: Triplet) {
    exists prefix, core :: CoreAfter(version, prefix, core) && SpellsCore(core, t)
  }

  predicate CoreAfter(version: string, prefix: string, core: string) {
    version == prefix + core && DigitFree(prefix) && core != "" && '0' <= core[0] <= '9'
  }

  lemma {:induction false} FirstDigitIs(s: string)
    ensures var i := FirstDigitIndex(s);
      if i.None? then DigitFree(s) else DigitFree(s[..i.value]) && IsDigit(s[i.value])
  {
    if s != "" && !IsDigit(s[0]) {
      FirstDigitIs(s[1..]);
      var i := FirstDigitIndex(s);
      if i.Some? { assert s[..i.value] == [s[0]] + s[1..][..i.value - 1]; }
    }
  }

  /** A version is read as a triplet exactly when, after some junk without digits, it spells it. */
  lemma {:induction false} ParsedIffSpelled(version: string, t: Triplet)
    ensures ParseTriplet(version) == Some(t) <==> Spells(version, t)
  {
    hide ParseCore, SpellsCore, FirstDigitIndex;
    FirstDigitIs(version);
    var i := FirstDigitIndex(version);
    if i.Some? {
      var prefix, core := version[..i.value], version[i.value..];
      assert CoreAfter(version, prefix, core);
      CoreIsSpelled(core, t);
    }
    if Spells(version, t) {
      var prefix, core :| CoreAfter(version, prefix, core) && SpellsCore(core, t);
      FirstDigitAfter(prefix, core);
      assert version[|prefix|..] == core;
      CoreIsSpelled(core, t);
    }
  }

  // ---- Comparing ----

  predicate Below(a: Triplet, b: Triplet) {
    || a.major < b.major
    || (a.major == b.major && (a.minor < b.minor || (a.minor == b.minor && a.patch < b.patch)))
  }

  /** `compare_versions` */
  function CompareVersions(left: string, right: string): Option<int> {
    var a, b := ParseTriplet(left), ParseTriplet(right);
    if a.None? || b.None? then None
    else if Below(a.value, b.value) then Some(-1)
    else if Below(b.value, a.value) then Some(1)
    else Some(0)
  }

  predicate Older(left: string, right: string) {
    CompareVersions(left, right) == Some(-1)
  }

  /** Comparison is defined exactly on parseable strings, and there it is a total preorder. */
  lemma {:induction false} CompareIsTotalPreorder(x: string, y: string, z: string)
    ensures CompareVersions(x, y).Some? <==> ParseTriplet(x).Some? && ParseTriplet(y).Some?
    ensures CompareVersions(x, y).Some? ==> CompareVersions(y, x) == Some(-CompareVersions(x, y).value)
    ensures ParseTriplet(x).Some? ==> CompareVersions(x, x) == Some(0)
    ensures CompareVersions(x, y).Some? && CompareVersions(y, z).Some?
      && CompareVersions(x, y).value <= 0 && CompareVersions(y, z).value <= 0
      ==> CompareVersions(x, z).Some? && CompareVersions(x, z).value <= 0
          && (CompareVersions(x, z) == Some(0) ==> CompareVersions(x, y) == CompareVersions(y, z) == Some(0))
  {}

  /** Release versions order by major, then minor, then patch (section 11 of SemVer 2.0.0). */
  lemma {:induction false} ReleasePrecedence(a: Triplet, b: Triplet)
    ensures CompareVersions(PrintTriplet(a), PrintTriplet(b)) ==
      Some(if a == b then 0
          else if a.major != b.major then (if a.major < b.major then -1 else 1)
          else if a.minor != b.minor then (if a.minor < b.minor then -1 else 1)
          else if a.patch < b.patch then -1 else 1)
  {
    hide PrintTriplet, ParseTriplet;
    ParseInvertsPrint("", a, "");
    ParseInvertsPrint("", b, "");
    assert "" + PrintTriplet(a) + "" == PrintTriplet(a) && "" + PrintTriplet(b) + "" == PrintTriplet(b);
  }

  // ---- Lowest fix above a version ----

  function Eligible(from: string, candidates: seq<string>): seq<string> {
    if candidates == [] then []
    else (if Older(from, candidates[0]) then [candidates[0]] else []) + Eligible(from, candidates[1..])
  }

  function LowestFrom(lowest: string, rest: seq<string>): string
    decreases |rest|
  {
    if rest == [] then lowest
    else LowestFrom(if Older(rest[0], lowest) then rest[0] else lowest, rest[1..])
  }

  function LowestAbove(from: string, candidates: seq<string>): Option<string> {
    var eligible := Eligible(from, candidates);
    if eligible == [] then None else Some(LowestFrom(eligible[0], eligible[1..]))
  }

  lemma {:induction false} NoneEligible(from: string)
    ensures Eligible(from, []) == []
  {
  }

  lemma {:induction false} EligibleGrows(from: string, candidates: seq<string>, v: string)
    ensures Eligible(from, candidates + [v]) == Eligible(from, candidates) + (if Older(from, v) then [v] else [])
  {
    hide CompareVersions;
    if candidates == [] {
      assert [] + [v] == [v] && [v][1..] == [];
    } else {
      assert (candidates + [v])[1..] == candidates[1..] + [v];
      EligibleGrows(from, candidates[1..], v);
    }
  }

  /** The first loop of `pick_lowest_version_gt`. */
  method EligibleVersions(from: string, candidates: seq<string>) returns (eligible: seq<string>)
    ensures eligible == Eligible(from, candidates)
  {
    hide CompareVersions, Eligible;
    eligible := [];
    var i := 0;
    assert candidates[..0] == [];
    NoneEligible(from);
    while i < |candidates|
      invariant 0 <= i <= |candidates|
      invariant eligible == Eligible(from, candidates[..i])
    {
      EligibleGrows(from, candidates[..i], candidates[i]);
      assert candidates[..i + 1] == candidates[..i] + [candidates[i]];
      if CompareVersions(from, candidates[i]) == Some(-1) { eligible := eligible + [candidates[i]]; }
      i := i + 1;
    }
    assert candidates[..i] == candidates;
  }

  /** `pick_lowest_version_gt` */
  method PickLowestVersionGt(from: string, candidates: seq<string>) returns (v: Option<string>)
    ensures v == LowestAbove(from, candidates)
  {
    hide CompareVersions, Eligible;
    var eligible := EligibleVersions(from, candidates);
    if eligible == [] { return None; }
    var lowest := eligible[0];
    var i := 1;
    while i < |eligible|
      invariant 1 <= i <= |eligible|
      invariant LowestAbove(from, candidates) == Some(LowestFrom(lowest, eligible[i..]))
    {
      assert eligible[i..][1..] == eligible[i + 1..];
      if CompareVersions(eligible[i], lowest) == Some(-1) { lowest := eligible[i]; }
      i := i + 1;
    }
    v := Some(lowest);
  }

  lemma {:induction false} EligibleAre(from: string, candidates: seq<string>, v: string)
    ensures v in Eligible(from, candidates) <==> v in candidates && Older(from, v)
  {
    if candidates != [] {
      EligibleAre(from, candidates[1..], v);
      assert candidates == [candidates[0]] + candidates[1..];
    }
  }

  lemma {:induction false} LowestFromIsLeast(lowest: string, rest: seq<string>)
    requires ParseTriplet(lowest).Some? && forall r | r in rest :: ParseTriplet(r).Some?
    ensures var v := LowestFrom(lowest, rest);
      (v == lowest || v in rest) && !Older(lowest, v) && forall r | r in rest :: !Older(r, v)
    decreases |rest|
  {
    if rest != [] {
      var next := if Older(rest[0], lowest) then rest[0] else lowest;
      LowestFromIsLeast(next, rest[1..]);
      var v := LowestFrom(lowest, rest);
      forall r | r in rest ensures !Older(r, v) { assert r == rest[0] || r in rest[1..]; }
    }
  }

  /** The pick is a least published version above `from`, and is absent only if there is none. */
  lemma {:induction false} LowestAboveIsLeast(from: string, candidates: seq<string>)
    ensures var v := LowestAbove(from, candidates);
      if v.None? then forall c | c in candidates :: !Older(from, c)
      else v.value in candidates && Older(from, v.value)
           && forall c | c in candidates && Older(from, c) :: !Older(c, v.value)
  {
    var eligible := Eligible(from, candidates);
    forall c ensures c in eligible <==> c in candidates && Older(from, c) { EligibleAre(from, candidates, c); }
    if eligible != [] {
      assert eligible == [eligible[0]] + eligible[1..];
      forall c | c in eligible ensures ParseTriplet(c).Some? { assert Older(from, c); }
      LowestFromIsLeast(eligible[0], eligible[1..]);
    }
  }

  lemma {:induction false} FirstOfLowest(lowest: string, rest: seq<string>) returns (k: nat)
    requires ParseTriplet(lowest).Some? && forall r | r in rest :: ParseTriplet(r).Some?
    ensures var all := [lowest] + rest;
      && k < |all| && LowestFrom(lowest, rest) == all[k]
      && forall j | 0 <= j < k :: Older(all[k], all[j])
    decreases |rest|
  {
    hide ParseTriplet;
    k := 0;
    if rest != [] {
      var next := if Older(rest[0], lowest) then rest[0] else lowest;
      assert rest == [rest[0]] + rest[1..] && rest[0] in rest;
      var k' := FirstOfLowest(next, rest[1..]);
      var all, v := [lowest] + rest, LowestFrom(lowest, rest);
      var inner := [next] + rest[1..];
      if next == rest[0] && Older(rest[0], lowest) {
        k := k' + 1;
        LowestFromIsLeast(rest[0], rest[1..]);
        forall j | 0 <= j < k ensures Older(v, all[j]) {
          if j > 0 { assert all[j] == inner[j - 1]; } else { NotNewerThanOlder(v, rest[0], lowest); }
        }
      } else {
        k := if k' == 0 then 0 else k' + 1;
        forall j | 0 <= j < k ensures Older(v, all[j]) {
          assert Older(inner[k'], inner[0]);
          if j == 1 { OlderThanLowest(v, lowest, rest[0]); }
          if j > 1 { assert all[j] == inner[j - 1]; }
        }
      }
    }
  }

  lemma {:induction false} NotNewerThanOlder(v: string, mid: string, top: string)
    requires !Older(mid, v) && Older(mid, top) && ParseTriplet(v).Some?
    ensures Older(v, top)
  {
  }

  lemma {:induction false} OlderThanLowest(v: string, lowest: string, other: string)
    requires Older(v, lowest) && !Older(other, lowest) && ParseTriplet(other).Some?
    ensures Older(v, other)
  {
  }

  lemma {:induction false} PlaceOfEligible(from: string, candidates: seq<string>, k: nat) returns (i: nat)
    requires k < |Eligible(from, candidates)|
    ensures i < |candidates| && candidates[i] == Eligible(from, candidates)[k]
    ensures forall j | 0 <= j < i && Older(from, candidates[j]) :: candidates[j] in Eligible(from, candidates)[..k]
  {
    hide CompareVersions;
    var eligible := Eligible(from, candidates);
    if Older(from, candidates[0]) && k == 0 {
      i := 0;
    } else {
      var skip := if Older(from, candidates[0]) then 1 else 0;
      var rest := PlaceOfEligible(from, candidates[1..], k - skip);
      i := rest + 1;
      forall j | 0 <= j < i && Older(from, candidates[j]) ensures candidates[j] in eligible[..k] {
        if j == 0 {
          assert eligible[..k][0] == candidates[0];
        } else {
          assert candidates[j] == candidates[1..][j - 1];
          assert eligible[skip..] == Eligible(from, candidates[1..]);
          assert eligible[..k] == eligible[..skip] + eligible[skip..][..k - skip];
        }
      }
    }
  }

  /** Of equally low versions above `from` the pick is the one published first. */
  lemma {:induction false} FirstOfEquallyLow(from: string, candidates: seq<string>) returns (i: nat)
    requires LowestAbove(from, candidates).Some?
    ensures i < |candidates| && LowestAbove(from, candidates) == Some(candidates[i])
    ensures forall j | 0 <= j < i && Older(from, candidates[j]) :: Older(candidates[i], candidates[j])
  {
    hide LowestFrom, ParseTriplet;
    var eligible := Eligible(from, candidates);
    forall c | c in eligible ensures ParseTriplet(c).Some? {
      EligibleAre(from, candidates, c);
    }
    assert eligible == [eligible[0]] + eligible[1..];
    var k := FirstOfLowest(eligible[0], eligible[1..]);
    i := PlaceOfEligible(from, candidates, k);
  }

  // ---- Kind of change ----

  /** `classify_fix_kind` */
  function ClassifyFixKind(from: string, to: string): FixKind {
    var a, b := ParseTriplet(from), ParseTriplet(to);
    if a.None? || b.None? || a.value.major != b.value.major then Major
    else if a.value.minor != b.value.minor then Minor
    else Patch
  }

  function KindRank(k: FixKind): nat {
    match k case Patch => 0 case Minor => 1 case Major => 2
  }

  /** Going further up from the same version is never a lesser kind of change. */
  lemma {:induction false} FurtherIsNoLesserKind(from: string, near: string, far: string)
    requires Older(from, near) && CompareVersions(near, far).Some? && CompareVersions(near, far).value <= 0
    ensures KindRank(ClassifyFixKind(from, near)) <= KindRank(ClassifyFixKind(from, far))
  {}

  /** Which kind a change is: by the first number that differs, and major when a version cannot be read. */
  lemma {:induction false} KindIsFirstDifference(from: string, to: string)
    ensures var a, b := ParseTriplet(from), ParseTriplet(to); var kind := ClassifyFixKind(from, to);
      && (kind == Patch <==> a.Some? && b.Some? && a.value.major == b.value.major && a.value.minor == b.value.minor)
      && (kind == Minor <==> a.Some? && b.Some? && a.value.major == b.value.major && a.value.minor != b.value.minor)
  {
  }
}
