/** The packager's order on release identifiers against the launcher's. */
module ReleaseOrders {
  import opened Basics
  import opened Text
  import opened Versions

  /** What strconv.Atoi returns beside the error its caller drops: zero for what is no
      number, the nearest 64-bit number for what does not fit. */
  function AtoiValue(s: string): int {
    var signed := s != "" && (s[0] == '+' || s[0] == '-');
    var digits := if signed then s[1..] else s;
    if digits == "" || !AllDigits(digits) then 0
    else Clamp(if signed && s[0] == '-' then 0 - Digits(digits) else Digits(digits))
  }

  function Clamp(n: int): int {
    if n < -INT64_LIMIT then -INT64_LIMIT else if n >= INT64_LIMIT then INT64_LIMIT - 1 else n
  }

  function OrderParts(a: seq<string>, b: seq<string>, i: nat): int
    decreases |a| - i
  {
    if i >= |a| || i >= |b| then |a| - |b|
    else if AtoiValue(a[i]) < AtoiValue(b[i]) then -1
    else if AtoiValue(a[i]) > AtoiValue(b[i]) then 1
    else OrderParts(a, b, i + 1)
  }

  /** compareReleases. */
  function ReleaseOrder(a: string, b: string): int { OrderParts(Split(a, '.'), Split(b, '.'), 0) }

  method CompareReleases(a: string, b: string) returns (c: int)
    ensures c == ReleaseOrder(a, b)
  {
    var xs, ys := Split(a, '.'), Split(b, '.');
    var i := 0;
    while i < |xs| && i < |ys|
      invariant OrderParts(xs, ys, i) == OrderParts(xs, ys, 0)
      decreases |xs| - i
    {
      var x, y := AtoiValue(xs[i]), AtoiValue(ys[i]);
      if x != y { return if x < y then -1 else 1; }
      i := i + 1;
    }
    return |xs| - |ys|;
  }

  /** What a part counts as: the number it is, the nearest 64-bit one if it is none of
      those, and zero if it is no number at all. */
  lemma PartsCountAs(p: string)
    ensures Atoi(p).Some? ==> AtoiValue(p) == Atoi(p).value
    ensures p != "" && AllDigits(p) && Atoi(p).None? ==> AtoiValue(p) == INT64_LIMIT - 1
    ensures p != "" && AllDigits(p) && Atoi("-" + p).None? ==> AtoiValue("-" + p) == -INT64_LIMIT
    ensures (forall c <- p :: !IsDigit(c)) ==> AtoiValue(p) == 0
  {
    assert ("-" + p)[1..] == p;
    if p != "" { assert p[0] in p && p[|p| - 1] in p; }
    if |p| > 1 { assert p[1..][0] == p[1] && p[1] in p; }
  }

  /** Of two identifiers that agree as far as the shorter goes, the longer comes later,
      by as many parts as it has more. */
  lemma {:induction false} LongerComesLater(parts: seq<string>, more: seq<string>, i: nat)
    requires i <= |parts|
    ensures OrderParts(parts + more, parts, i) == |more|
    ensures OrderParts(parts, parts + more, i) == -|more|
    decreases |parts| - i
  {
    if i < |parts| {
      assert (parts + more)[i] == parts[i];
      LongerComesLater(parts, more, i + 1);
    }
  }

  // ----- valid identifiers -----

  /** The number in the `i`-th part of a valid release. */
  function Part(s: string, i: nat): nat
    requires ValidRelease(s) && i < 3
  {
    assert Split(s, '.')[i] in Split(s, '.');
    Digits(Split(s, '.')[i])
  }

  /** The counter is no 64-bit number. */
  predicate Overflows(s: string)
    requires ValidRelease(s)
  {
    Part(s, 2) >= INT64_LIMIT
  }

  predicate MonthBefore(a: string, b: string)
    requires ValidRelease(a) && ValidRelease(b)
  {
    Part(a, 0) < Part(b, 0) || (Part(a, 0) == Part(b, 0) && Part(a, 1) < Part(b, 1))
  }

  predicate SameMonth(a: string, b: string)
    requires ValidRelease(a) && ValidRelease(b)
  {
    Part(a, 0) == Part(b, 0) && Part(a, 1) == Part(b, 1)
  }

  lemma {:induction false} DigitsBound(s: string)
    requires AllDigits(s) && |s| <= 4
    ensures Digits(s) < 10000
    ensures |s| <= 3 ==> Digits(s) < 1000
    ensures |s| <= 2 ==> Digits(s) < 100
    ensures |s| <= 1 ==> Digits(s) < 10
  {
    if s != "" {
      assert IsDigit(s[|s| - 1]);
      DigitsBound(s[..|s| - 1]);
    }
  }

  lemma Unsigned(p: string)
    requires p != "" && AllDigits(p)
    ensures AtoiValue(p) == Clamp(Digits(p))
    ensures Atoi(p) == if Digits(p) < INT64_LIMIT then Some(Digits(p) as int) else None
  {
    assert IsDigit(p[0]);
  }

  lemma PartsRead(s: string)
    requires ValidRelease(s)
    ensures var parts := Split(s, '.');
      && |parts| == 3 && Part(s, 0) < 10000 && Part(s, 1) < 10000
      && (forall i | 0 <= i < 3 :: AtoiValue(parts[i]) == Clamp(Part(s, i)))
      && (forall i | 0 <= i < 3 :: Atoi(parts[i]) == if Part(s, i) < INT64_LIMIT then Some(Part(s, i) as int) else None)
  {
    var parts := Split(s, '.');
    forall i | 0 <= i < 3
      ensures AtoiValue(parts[i]) == Clamp(Part(s, i))
      ensures Atoi(parts[i]) == if Part(s, i) < INT64_LIMIT then Some(Part(s, i) as int) else None
    {
      assert parts[i] in parts;
      Unsigned(parts[i]);
    }
    assert parts[0] in parts && parts[1] in parts;
    DigitsBound(parts[0]);
    DigitsBound(parts[1]);
  }

  lemma {:induction false} NoSpace(s: string)
    requires s != "" && !IsSpace(s[0]) && !IsSpace(s[|s| - 1])
    ensures TrimSpace(s) == s
  {}

  /** A release has neither spaces around it nor a v before it. */
  lemma ReleaseIsBare(s: string)
    requires ValidRelease(s)
    ensures StripV(s) == s && s != ""
  {
    var parts := Split(s, '.');
    JoinSplit(s, '.');
    assert s == parts[0] + ['.'] + (parts[1] + ['.'] + parts[2]) by {
      assert parts[1..][1..] == parts[2..] == [parts[2]] && parts[1..][0] == parts[1];
      assert Join(parts[1..], '.') == parts[1] + ['.'] + Join([parts[2]], '.');
    }
    assert parts[0] in parts && parts[2] in parts;
    assert s[0] == parts[0][0] && s[|s| - 1] == parts[2][|parts[2]| - 1];
    assert IsDigit(s[0]) && IsDigit(s[|s| - 1]);
    NoSpace(s);
  }

  /** The launcher reads a valid release exactly when its counter does not overflow. */
  lemma ReleaseParses(s: string)
    requires ValidRelease(s)
    ensures Parse(s) == if Overflows(s) then None else Some([Part(s, 0), Part(s, 1), Part(s, 2)])
  {
    hide TrimSpace, Digits, Part, StripV, ParseParts, Atoi;
    var parts := Split(s, '.');
    ReleaseIsBare(s);
    PartsRead(s);
    assert parts == [parts[0], parts[1], parts[2]];
    ThreeParse(parts[0], parts[1], parts[2]);
  }

  lemma ThreeParse(x: string, y: string, z: string)
    requires Atoi(x).Some? && Atoi(x).value >= 0 && Atoi(y).Some? && Atoi(y).value >= 0
    requires Atoi(z).Some? ==> Atoi(z).value >= 0
    ensures ParseParts([x, y, z])
         == if Atoi(z).Some? then Some([Atoi(x).value as nat, Atoi(y).value as nat, Atoi(z).value as nat]) else None
  {
    hide Atoi;
    assert [x, y, z][1..] == [y, z] && [y, z][1..] == [z] && [z][1..] == [];
    LastParse(z);
    match Atoi(z) {
      case None =>
      case Some(n) =>
        assert [Atoi(y).value as nat] + [n as nat] == [Atoi(y).value as nat, n as nat];
        assert [Atoi(x).value as nat] + [Atoi(y).value as nat, n as nat]
            == [Atoi(x).value as nat, Atoi(y).value as nat, n as nat];
    }
  }

  lemma LastParse(z: string)
    requires Atoi(z).Some? ==> Atoi(z).value >= 0
    ensures ParseParts([z]) == if Atoi(z).Some? then Some([Atoi(z).value as nat]) else None
  {
    hide Atoi;
    assert [z][1..] == [] && ParseParts([]) == Some([]);
    match Atoi(z) {
      case None =>
      case Some(n) => assert [n as nat] + [] == [n as nat];
    }
  }

  // ----- the two orders -----

  predicate OrdersAgree(a: string, b: string) {
    (ReleaseNewer(a, b) <==> ReleaseOrder(a, b) > 0) && (ReleaseNewer(b, a) <==> ReleaseOrder(a, b) < 0)
  }

  lemma ReleaseOrderIs(a: string, b: string)
    requires ValidRelease(a) && ValidRelease(b)
    ensures ReleaseOrder(a, b) < 0 <==> MonthBefore(a, b) || (SameMonth(a, b) && Clamp(Part(a, 2)) < Clamp(Part(b, 2)))
    ensures ReleaseOrder(a, b) > 0 <==> MonthBefore(b, a) || (SameMonth(a, b) && Clamp(Part(a, 2)) > Clamp(Part(b, 2)))
  {
    hide Split, AtoiValue, Part;
    PartsRead(a);
    PartsRead(b);
    PartsInOrder(Split(a, '.'), Split(b, '.'));
  }

  lemma PartsInOrder(a: seq<string>, b: seq<string>)
    requires |a| == 3 && |b| == 3
    ensures OrderParts(a, b, 0) ==
      if AtoiValue(a[0]) != AtoiValue(b[0]) then (if AtoiValue(a[0]) < AtoiValue(b[0]) then -1 else 1)
      else if AtoiValue(a[1]) != AtoiValue(b[1]) then (if AtoiValue(a[1]) < AtoiValue(b[1]) then -1 else 1)
      else if AtoiValue(a[2]) != AtoiValue(b[2]) then (if AtoiValue(a[2]) < AtoiValue(b[2]) then -1 else 1)
      else 0
  {
    hide AtoiValue;
    assert OrderParts(a, b, 3) == 0;
    assert OrderParts(a, b, 2) ==
      if AtoiValue(a[2]) != AtoiValue(b[2]) then (if AtoiValue(a[2]) < AtoiValue(b[2]) then -1 else 1) else 0;
  }

  lemma OrderOfThree(x: seq<nat>, y: seq<nat>)
    requires |x| == 3 && |y| == 3
    ensures Order(x, y, 0) > 0 <==>
      x[0] > y[0] || (x[0] == y[0] && (x[1] > y[1] || (x[1] == y[1] && x[2] > y[2])))
  {
    assert Order(x, y, 3) == 0;
    assert Order(x, y, 2) == if x[2] < y[2] then -1 else if x[2] > y[2] then 1 else 0;
  }

  lemma NewerIs(a: string, b: string)
    requires ValidRelease(a) && ValidRelease(b)
    ensures ReleaseNewer(a, b) <==>
      !Overflows(a) && (Overflows(b) || MonthBefore(b, a) || (SameMonth(a, b) && Part(a, 2) > Part(b, 2)))
  {
    hide Part, Split;
    ReleaseParses(a);
    ReleaseParses(b);
    if !Overflows(a) && !Overflows(b) {
      OrderOfThree([Part(a, 0), Part(a, 1), Part(a, 2)], [Part(b, 0), Part(b, 1), Part(b, 2)]);
    }
  }

  /** Of two valid releases the packager and the launcher see the same as newer, or
      neither, exactly when neither counter overflows, or both do in one month, or the
      one that does is of an earlier month: the launcher ranks an overflowing counter
      below every other, the packager above its month's. */
  lemma OrdersAgreeExactlyWhen(a: string, b: string)
    requires ValidRelease(a) && ValidRelease(b)
    ensures OrdersAgree(a, b) <==>
      || (!Overflows(a) && !Overflows(b))
      || (Overflows(a) && Overflows(b) && SameMonth(a, b))
      || (Overflows(a) && !Overflows(b) && MonthBefore(a, b))
      || (!Overflows(a) && Overflows(b) && MonthBefore(b, a))
  {
    hide Part, ReleaseNewer, ReleaseOrder;
    ReleaseOrderIs(a, b);
    NewerIs(a, b);
    NewerIs(b, a);
  }
}
