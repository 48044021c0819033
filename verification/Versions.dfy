/** The version orders of the launcher's gates and of the packager's. */
module Versions {
  import opened Basics
  import opened Text

  // ----- parsing -----

  function ParseParts(parts: seq<string>): Option<seq<nat>> {
    if |parts| == 0 then Some([])
    else
      match Atoi(parts[0])
      case None => None
      case Some(n) =>
        if n < 0 then None
        else match ParseParts(parts[1..])
          case None => None
          case Some(rest) => Some([n] + rest)
  }

  function StripV(s: string): string {
    var t := TrimSpace(s);
    if t != "" && t[0] == 'v' then t[1..] else t
  }

  /** The components of a dotted version, if every one is a number. */
  function Parse(s: string): Option<seq<nat>> {
    if StripV(s) == "" then None else ParseParts(Split(StripV(s), '.'))
  }

  lemma {:induction false} ParsePartsAppend(parts: seq<string>, p: string)
    ensures ParseParts(parts + [p]) ==
            match ParseParts(parts)
            case None => None
            case Some(ns) => (match Atoi(p) case None => None case Some(n) => if n < 0 then None else Some(ns + [n]))
  {
    if |parts| == 0 {
      assert parts + [p] == [p] && [p][1..] == [];
      if Atoi(p).Some? && Atoi(p).value >= 0 {
        assert [Atoi(p).value as nat] + [] == [] + [Atoi(p).value as nat];
      }
    } else {
      assert (parts + [p])[1..] == parts[1..] + [p];
      ParsePartsAppend(parts[1..], p);
      match (Atoi(parts[0]), ParseParts(parts[1..]), Atoi(p))
      case (Some(n), Some(rest), Some(m)) => {
        if n >= 0 && m >= 0 { assert [n as nat] + (rest + [m]) == [n] + rest + [m]; }
      }
      case _ => {}
    }
  }

  lemma {:induction false} ParsePartsPrefix(parts: seq<string>, k: nat)
    requires k <= |parts| && ParseParts(parts[..k]).None?
    ensures ParseParts(parts).None?
    decreases |parts| - k
  {
    if k < |parts| {
      assert parts[..k + 1] == parts[..k] + [parts[k]];
      ParsePartsAppend(parts[..k], parts[k]);
      ParsePartsPrefix(parts, k + 1);
    } else {
      assert parts[..k] == parts;
    }
  }

  /** A version is read exactly if every part between its dots is a number of 64 bits
      that is not negative, and then as those numbers. */
  lemma ParsedExactlyWhen(s: string)
    ensures var parts := Split(StripV(s), '.');
      && (Parse(s).Some? <==> StripV(s) != "" && forall p <- parts :: Atoi(p).Some? && Atoi(p).value >= 0)
      && (Parse(s).Some? ==>
            && |Parse(s).value| == |parts|
            && forall i | 0 <= i < |parts| :: Atoi(parts[i]) == Some(Parse(s).value[i] as int))
  {
    PartsExactlyWhen(Split(StripV(s), '.'));
  }

  lemma {:induction false} PartsExactlyWhen(parts: seq<string>)
    ensures ParseParts(parts).Some? <==> forall p <- parts :: Atoi(p).Some? && Atoi(p).value >= 0
    ensures ParseParts(parts).Some? ==>
      && |ParseParts(parts).value| == |parts|
      && forall i | 0 <= i < |parts| :: Atoi(parts[i]) == Some(ParseParts(parts).value[i] as int)
  {
    if |parts| > 0 {
      PartsExactlyWhen(parts[1..]);
      assert parts == [parts[0]] + parts[1..];
      hide Atoi;
    }
  }

  /** White space around a version and one leading v are no part of it. */
  lemma VAndSpaceAreIgnored(s: string)
    requires s != "" && !IsSpace(s[0]) && !IsSpace(s[|s| - 1])
    ensures StripV("v" + s) == s && StripV(" " + s) == StripV(s) && StripV(s + "\n") == StripV(s)
    ensures s[0] != 'v' ==> StripV(s) == s && Parse("v" + s) == Parse(s)
  {
    var v := "v" + s;
    assert !IsSpace(v[0]) && v[|v| - 1] == s[|s| - 1] && v[1..] == s;
    assert (" " + s)[1..] == s;
    assert (s + "\n")[0] == s[0] && (s + "\n")[..|s|] == s;
  }

  method ParseVersion(s: string) returns (out: seq<nat>, ok: bool)
    ensures ok <==> Parse(s).Some?
    ensures ok ==> Parse(s) == Some(out)
  {
    out := [];
    var t := StripV(s);
    if t == "" { return [], false; }
    var parts := Split(t, '.');
    for i := 0 to |parts|
      invariant ParseParts(parts[..i]) == Some(out)
    {
      assert parts[..i + 1] == parts[..i] + [parts[i]];
      ParsePartsAppend(parts[..i], parts[i]);
      var n := Atoi(parts[i]);
      if n.None? || n.value < 0 {
        ParsePartsPrefix(parts, i + 1);
        return [], false;
      }
      out := out + [n.value];
    }
    assert parts[..|parts|] == parts;
    return out, true;
  }

  // ----- comparing -----

  /** A missing component is zero. */
  function Component(v: seq<nat>, i: nat): nat { if i < |v| then v[i] else 0 }

  ghost predicate Agree(a: seq<nat>, b: seq<nat>, n: nat) {
    forall i: nat :: i < n ==> Component(a, i) == Component(b, i)
  }

  ghost predicate Same(a: seq<nat>, b: seq<nat>) {
    forall i: nat :: Component(a, i) == Component(b, i)
  }

  ghost predicate FirstDifference(a: seq<nat>, b: seq<nat>, i: nat) {
    Agree(a, b, i) && Component(a, i) < Component(b, i)
  }

  /** `a` is smaller than `b` at the first component where they differ. */
  ghost predicate Before(a: seq<nat>, b: seq<nat>) {
    exists i: nat :: FirstDifference(a, b, i)
  }

  function Order(a: seq<nat>, b: seq<nat>, i: nat): int
    decreases |a| + |b| - i
  {
    if i >= |a| && i >= |b| then 0
    else if Component(a, i) < Component(b, i) then -1
    else if Component(a, i) > Component(b, i) then 1
    else Order(a, b, i + 1)
  }

  function Compare(a: string, b: string): int {
    match (Parse(a), Parse(b))
    case (None, None) => 0
    case (None, Some(_)) => -1
    case (Some(_), None) => 1
    case (Some(x), Some(y)) => Order(x, y, 0)
  }

  lemma {:induction false} OrderMeans(a: seq<nat>, b: seq<nat>, i: nat)
    requires Agree(a, b, i)
    ensures Order(a, b, i) < 0 <==> Before(a, b)
    ensures Order(a, b, i) > 0 <==> Before(b, a)
    ensures Order(a, b, i) == 0 <==> Same(a, b)
    decreases |a| + |b| - i
  {
    if i >= |a| && i >= |b| {
    } else if Component(a, i) < Component(b, i) {
      assert FirstDifference(a, b, i);
      assert forall j: nat :: FirstDifference(b, a, j) ==> j < i || i < j || j == i;
    } else if Component(a, i) > Component(b, i) {
      assert FirstDifference(b, a, i);
    } else {
      OrderMeans(a, b, i + 1);
    }
  }

  method CompareVersions(a: string, b: string) returns (c: int)
    ensures c == Compare(a, b)
  {
    var x, xok := ParseVersion(a);
    var y, yok := ParseVersion(b);
    if !xok && !yok { return 0; }
    if !xok { return -1; }
    if !yok { return 1; }
    var i := 0;
    while i < |x| || i < |y|
      invariant Order(x, y, i) == Order(x, y, 0)
      decreases |x| + |y| - i
    {
      var av, bv := 0, 0;
      if i < |x| { av := x[i]; }
      if i < |y| { bv := y[i]; }
      if av != bv {
        if av < bv { return -1; }
        return 1;
      }
      i := i + 1;
    }
    return 0;
  }

  // ----- release identifiers -----

  predicate ValidRelease(s: string) {
    var parts := Split(s, '.');
    && |parts| == 3 && |parts[0]| == 4 && |parts[1]| == 2
    && forall p <- parts :: p != "" && AllDigits(p)
  }

  predicate ReleaseNewer(a: string, b: string) {
    ValidRelease(a) && (!ValidRelease(b) || Compare(a, b) > 0)
  }

  /** The launcher_min gate: no floor, or a readable floor the launcher reaches. */
  predicate FloorMet(floor: string, launcher: string) {
    TrimSpace(floor) == "" || (Parse(floor).Some? && Compare(launcher, floor) >= 0)
  }

  // ----- the launcher's order is a total preorder, equal up to trailing zeros -----

  lemma BeforeIsStrict(a: seq<nat>, b: seq<nat>)
    ensures !(Before(a, b) && Before(b, a)) && !Before(a, a)
  {}

  lemma BeforeTransitive(a: seq<nat>, b: seq<nat>, c: seq<nat>)
    requires Before(a, b) && Before(b, c)
    ensures Before(a, c)
  {
    var i: nat :| FirstDifference(a, b, i);
    var j: nat :| FirstDifference(b, c, j);
    assert FirstDifference(a, c, if i < j then i else j);
  }

  /** compareVersions on parseable versions: the sign of a total preorder that
      looks at the first differing component. */
  lemma CompareMeans(a: string, b: string)
    requires Parse(a).Some? && Parse(b).Some?
    ensures Compare(a, b) == -1 <==> Before(Parse(a).value, Parse(b).value)
    ensures Compare(a, b) == 1 <==> Before(Parse(b).value, Parse(a).value)
    ensures Compare(a, b) == 0 <==> Same(Parse(a).value, Parse(b).value)
    ensures Compare(a, b) in {-1, 0, 1} && Compare(b, a) == -Compare(a, b)
  {
    var x, y := Parse(a).value, Parse(b).value;
    OrderMeans(x, y, 0);
    OrderMeans(y, x, 0);
    BeforeIsStrict(x, y);
    OrderIsSign(x, y, 0);
    OrderIsSign(y, x, 0);
    assert Same(x, y) <==> Same(y, x);
  }

  lemma {:induction false} OrderIsSign(a: seq<nat>, b: seq<nat>, i: nat)
    ensures Order(a, b, i) in {-1, 0, 1}
    decreases |a| + |b| - i
  {
    if (i < |a| || i < |b|) && Component(a, i) == Component(b, i) { OrderIsSign(a, b, i + 1); }
  }

  function DropZeros(v: seq<nat>): seq<nat> {
    if |v| > 0 && v[|v| - 1] == 0 then DropZeros(v[..|v| - 1]) else v
  }

  lemma {:induction false} DropZerosSame(v: seq<nat>)
    ensures Same(DropZeros(v), v) && |DropZeros(v)| <= |v|
    ensures |DropZeros(v)| > 0 ==> DropZeros(v)[|DropZeros(v)| - 1] != 0
  {
    if |v| > 0 && v[|v| - 1] == 0 {
      DropZerosSame(v[..|v| - 1]);
      var d := DropZeros(v);
      forall i: nat ensures Component(d, i) == Component(v, i) {
        assert Component(d, i) == Component(v[..|v| - 1], i);
      }
    }
  }

  lemma SameIsEqualUpToZeros(a: seq<nat>, b: seq<nat>)
    ensures Same(a, b) <==> DropZeros(a) == DropZeros(b)
  {
    DropZerosSame(a);
    DropZerosSame(b);
    var x, y := DropZeros(a), DropZeros(b);
    if x == y {
      forall i: nat ensures Component(a, i) == Component(b, i) {
        assert Component(x, i) == Component(a, i) && Component(y, i) == Component(b, i);
      }
    }
    if Same(a, b) {
      forall i: nat ensures Component(x, i) == Component(y, i) {
        assert Component(x, i) == Component(a, i) && Component(y, i) == Component(b, i);
      }
      var last := (if |x| > |y| then |x| else |y|) - 1;
      if last >= 0 { assert Component(x, last) == Component(y, last); }
      forall i | 0 <= i < |x| ensures x[i] == y[i] { assert Component(x, i) == Component(y, i); }
    }
  }

  /** Two parseable versions compare equal exactly when they differ by trailing
      zero components. */
  lemma CompareEqualUpToZeros(a: string, b: string)
    requires Parse(a).Some? && Parse(b).Some?
    ensures Compare(a, b) == 0 <==> DropZeros(Parse(a).value) == DropZeros(Parse(b).value)
  {
    CompareMeans(a, b);
    SameIsEqualUpToZeros(Parse(a).value, Parse(b).value);
  }

  // ----- ReleaseNewer is a strict weak order -----

  /** Transitive, for every string whatsoever. */
  lemma CompareTransitive(a: string, b: string, c: string)
    requires Compare(a, b) >= 0 && Compare(b, c) >= 0
    ensures Compare(a, c) >= 0
    ensures Compare(a, b) > 0 || Compare(b, c) > 0 ==> Compare(a, c) > 0
  {
    if Parse(a).Some? && Parse(b).Some? && Parse(c).Some? {
      var x, y, z := Parse(a).value, Parse(b).value, Parse(c).value;
      CompareMeans(a, b);
      CompareMeans(b, c);
      CompareMeans(a, c);
      if Before(y, x) && Before(z, y) { BeforeTransitive(z, y, x); }
      else if Same(x, y) && Before(z, y) { SameBefore(z, y, x); }
      else if Before(y, x) && Same(y, z) { SameAfter(y, z, x); }
      else { assert forall i: nat {:trigger Component(x, i)} :: Component(x, i) == Component(y, i) == Component(z, i); }
    }
  }

  lemma SameBefore(a: seq<nat>, b: seq<nat>, c: seq<nat>)
    requires Before(a, b) && Same(c, b)
    ensures Before(a, c)
  {
    var i: nat :| FirstDifference(a, b, i);
    assert FirstDifference(a, c, i);
  }

  lemma SameAfter(a: seq<nat>, b: seq<nat>, c: seq<nat>)
    requires Before(a, c) && Same(a, b)
    ensures Before(b, c)
  {
    var i: nat :| FirstDifference(a, c, i);
    assert FirstDifference(b, c, i);
  }

  lemma CompareSymmetric(a: string, b: string)
    ensures Compare(b, a) == -Compare(a, b) && Compare(a, a) == 0
  {
    if Parse(a).Some? && Parse(b).Some? { CompareMeans(a, b); }
    if Parse(a).Some? { CompareMeans(a, a); }
  }

  ghost predicate Incomparable(a: string, b: string) {
    !ReleaseNewer(a, b) && !ReleaseNewer(b, a)
  }

  /** Irreflexive, transitive, and incomparability is transitive: a chain of
      updates, each newer than the last, never comes back. */
  lemma ReleaseNewerIsStrictWeakOrder(a: string, b: string, c: string)
    ensures !ReleaseNewer(a, a)
    ensures ReleaseNewer(a, b) && ReleaseNewer(b, c) ==> ReleaseNewer(a, c)
    ensures Incomparable(a, b) && Incomparable(b, c) ==> Incomparable(a, c)
  {
    CompareSymmetric(a, a);
    CompareSymmetric(a, b);
    CompareSymmetric(b, c);
    CompareSymmetric(a, c);
    if Compare(a, b) >= 0 && Compare(b, c) >= 0 { CompareTransitive(a, b, c); }
    if Compare(c, b) >= 0 && Compare(b, a) >= 0 { CompareTransitive(c, b, a); }
  }

  ghost predicate UpdateChain(releases: seq<string>) {
    forall i | 0 < i < |releases| :: ReleaseNewer(releases[i], releases[i - 1])
  }

  lemma {:induction false} UpdateChainsNeverCycle(releases: seq<string>, i: nat, j: nat)
    requires UpdateChain(releases) && i < j < |releases|
    ensures ReleaseNewer(releases[j], releases[i]) && releases[i] != releases[j]
  {
    ReleaseNewerIsStrictWeakOrder(releases[j], releases[j], releases[j]);
    if i + 1 < j {
      UpdateChainsNeverCycle(releases, i, j - 1);
      ReleaseNewerIsStrictWeakOrder(releases[j], releases[j - 1], releases[i]);
    }
  }

  // ----- the packager's comparator and its gate -----

  datatype Semver = Semver(major: nat, minor: nat, patch: nat)

  /** splitSemver: exactly three numeric components, no leading v. */
  function SplitSemver(s: string): Option<Semver> {
    var parts := Split(TrimSpace(s), '.');
    if |parts| != 3 then None
    else match (Atoi(parts[0]), Atoi(parts[1]), Atoi(parts[2]))
      case (Some(x), Some(y), Some(z)) => if x >= 0 && y >= 0 && z >= 0 then Some(Semver(x, y, z)) else None
      case _ => None
  }

  function Components(v: Semver): seq<nat> { [v.major, v.minor, v.patch] }

  method CompareSemver(a: string, b: string) returns (c: int, ok: bool)
    ensures ok <==> SplitSemver(a).Some? && SplitSemver(b).Some?
    ensures ok ==> c == Order(Components(SplitSemver(a).value), Components(SplitSemver(b).value), 0)
    ensures !ok ==> c == 0
  {
    var x, y := SplitSemver(a), SplitSemver(b);
    if x.None? || y.None? { return 0, false; }
    var xs, ys := Components(x.value), Components(y.value);
    for i := 0 to 3
      invariant Order(xs, ys, i) == Order(xs, ys, 0)
    {
      if xs[i] != ys[i] {
        if xs[i] < ys[i] { return -1, true; }
        return 1, true;
      }
    }
    return 0, true;
  }

  lemma NumberFirst(t: string)
    requires Atoi(Split(t, '.')[0]).Some? && |Split(t, '.')| == 3
    ensures t != "" && t[0] != 'v'
  {
    var parts := Split(t, '.');
    JoinSplit(t, '.');
    assert t == parts[0] + ['.'] + Join(parts[1..], '.');
    assert t[0] == parts[0][0] && parts[0][0] in parts[0] && !IsDigit('v');
  }

  lemma ParseThree(parts: seq<string>, v: Semver)
    requires |parts| == 3
    requires Atoi(parts[0]) == Some(v.major) && Atoi(parts[1]) == Some(v.minor) && Atoi(parts[2]) == Some(v.patch)
    ensures ParseParts(parts) == Some(Components(v))
  {
    ParsePartsAppend([], parts[0]);
    ParsePartsAppend([parts[0]], parts[1]);
    ParsePartsAppend([parts[0], parts[1]], parts[2]);
    assert [] + [parts[0]] == [parts[0]];
    assert [parts[0]] + [parts[1]] == [parts[0], parts[1]];
    assert [parts[0], parts[1]] + [parts[2]] == parts;
    assert [] + [v.major] + [v.minor] + [v.patch] == Components(v);
  }

  /** What the packager can read, the launcher reads as the same components. */
  lemma SemverIsParseable(s: string)
    requires SplitSemver(s).Some?
    ensures Parse(s) == Some(Components(SplitSemver(s).value))
  {
    NumberFirst(TrimSpace(s));
    ParseThree(Split(TrimSpace(s), '.'), SplitSemver(s).value);
  }

  /** The two comparators agree on every pair the packager can read. */
  lemma ComparatorsAgree(a: string, b: string)
    requires SplitSemver(a).Some? && SplitSemver(b).Some?
    ensures Compare(a, b) == Order(Components(SplitSemver(a).value), Components(SplitSemver(b).value), 0)
  {
    SemverIsParseable(a);
    SemverIsParseable(b);
  }

  /** The launcher is no older than the floor, component by component. */
  ghost predicate Reaches(launcher: string, floor: string) {
    Parse(launcher).Some? && Parse(floor).Some? && !Before(Parse(launcher).value, Parse(floor).value)
  }

  /** The gate lets through no floor, or a readable launcher no older than a readable
      floor, and nothing else. */
  lemma FloorMetExactlyWhen(floor: string, launcher: string)
    ensures FloorMet(floor, launcher) <==> TrimSpace(floor) == "" || Reaches(launcher, floor)
  {
    if Parse(launcher).Some? && Parse(floor).Some? { CompareMeans(launcher, floor); }
  }

  /** A floor the packager's gate accepts for launcher `built` is met by `built`
      and by every launcher that is not older. */
  lemma PublishedFloorIsMet(floor: string, built: string, running: string)
    requires SplitSemver(floor).Some? && SplitSemver(built).Some?
    requires Order(Components(SplitSemver(floor).value), Components(SplitSemver(built).value), 0) <= 0
    requires Compare(running, built) >= 0
    ensures FloorMet(floor, running)
  {
    SemverIsParseable(floor);
    ComparatorsAgree(floor, built);
    CompareSymmetric(floor, built);
    CompareTransitive(running, built, floor);
  }

  /** A release id whose counter overflows the integer type is valid but not
      readable: it ranks below every readable one, whatever its digits say. */
  lemma OverflowingReleaseRanksLowest(a: string, b: string)
    requires ValidRelease(a) && ValidRelease(b) && Parse(a).None? && Parse(b).Some?
    ensures ReleaseNewer(b, a) && !ReleaseNewer(a, b)
  {
    CompareSymmetric(a, b);
  }
}
