/** That the decimal written for a float64 has the fewest significant digits of all
    that are read back as it, and that no other of those is as near. */
module ShortestDigits {
  import opened Basics
  import opened Floats
  import opened Shortest

  /** `m` can be written with `s` digits before its zeros. */
  ghost predicate InDigits(m: nat, s: nat) { exists k: nat :: EndsIn(m, k) && m < Pow10(s + k) }

  /** However few digits a number read as `x` has, the decimal written has no more. */
  lemma FewestDigits(x: nat, m: nat, s: nat)
    requires Rounded(x) == x && Rounded(m) == x && m > 0 && InDigits(m, s)
    ensures Rounded(Decimal(x)) == x && InDigits(Decimal(x), s)
  {
    var k: nat :| EndsIn(m, k) && m < Pow10(s + k);
    hide Rounded, Decimal;
    var d := Decimal(x);
    DecimalReads(x);
    DecimalIsShortest(x, m, k);
    if d >= Pow10(s + k) {
      var p := Pow10(s + k);
      if s == 0 { PositiveMultiple(m, Pow10(k)); }
      RoundedMonotone(m, p);
      RoundedMonotone(p, d);
      PowerEndsIn(s + k);
      DecimalIsShortest(x, p, s + k);
      BelowTenTimes(x, p, d);
      assert Pow10(1 + (s + k)) == 10 * p;
      PowersOrdered(1 + (s + k), s + (s + k));
    }
  }

  lemma PowerEndsIn(k: nat)
    ensures EndsIn(Pow10(k), k)
  {
    hide Pow10;
    MultipleDivides(1, Pow10(k));
  }

  lemma {:induction false} PowersOrdered(j: nat, k: nat)
    requires j <= k
    ensures Pow10(j) <= Pow10(k)
  {
    if j < k { PowersOrdered(j, k - 1); }
  }

  lemma BelowTenTimes(x: nat, p: nat, d: nat)
    requires Rounded(x) == x && Rounded(p) == x && Rounded(d) == x && p > 0
    ensures d < 10 * p
  {
    AtMostTwice(p);
    hide Rounded;
    OneIsHeld();
    RoundedMonotone(1, p);
    TwiceIsHeld(x);
    if d >= 10 * p { RoundedMonotone(2 * x, d); }
  }

  lemma AtMostTwice(p: nat)
    requires p > 0
    ensures Rounded(p) <= 2 * p
  {
    if p <= EXACT {
      SmallIsHeld(p);
    } else {
      UnitFills(p, 1);
      NearestAround(p, Unit(p));
    }
  }

  // ----- no two are as near -----

  /** Of the numbers read as `x` that end in as many zeros as the decimal written, it
      is the one nearest. */
  lemma NoOtherIsAsNear(x: nat, m: nat)
    requires Rounded(x) == x && Rounded(m) == x && m > 0 && EndsIn(m, Zeros(x)) && m != Decimal(x)
    ensures Distance(Decimal(x), x) < Distance(m, x)
  {
    hide Rounded, Decimal, Zeros, Pow10;
    var d, z := Decimal(x), Zeros(x);
    DecimalReads(x);
    DecimalIsShortest(x, m, z);
    if Distance(d, x) == Distance(m, x) {
      var low, high := if d < m then d else m, if d < m then m else d;
      assert low + high == 2 * x;
      NotAsFar(x, low, high, z);
      DecimalIsShortest(x, x, z);
    }
  }

  /** Two multiples of 10^k that are read as their middle have a multiple of 10^k for
      their middle. */
  lemma NotAsFar(x: nat, low: nat, high: nat, k: nat)
    requires Rounded(x) == x && Rounded(low) == x && low < x && low + high == 2 * x
    requires EndsIn(low, k) && EndsIn(high, k)
    ensures EndsIn(x, k) && x > 0
  {
    HalfAUnit(x, low);
    HeldIsMultiple(x, Unit(x));
    UnitDoubles(x, 1);
    hide Unit, Rounded, Nearest, Doubles, Pow10;
    MiddleEndsIn(x, low, high, k, x / Unit(x), Unit(x));
  }

  lemma MiddleEndsIn(x: nat, low: nat, high: nat, k: nat, q: nat, u: nat)
    requires low + high == 2 * x && 0 < high - low <= u && Doubles(1, u) && x == q * u
    requires EndsIn(low, k) && EndsIn(high, k)
    ensures EndsIn(x, k)
  {
    var p := Pow10(k);
    hide Pow10, Doubles;
    var c := WholeMiddle(x, low, high, p);
    if c % 2 == 1 {
      NoHalfway(c, k, q, u);
    } else {
      Halves(x, c, p);
      MultipleDivides(c / 2, p);
    }
  }

  lemma WholeMiddle(x: nat, low: nat, high: nat, p: nat) returns (c: nat)
    requires p > 0 && low + high == 2 * x && low < high && low % p == 0 && high % p == 0
    ensures c * p == 2 * x && high - low >= p
  {
    var a, b := low / p, high / p;
    assert low == a * p && high == b * p;
    c := a + b;
    SumOfMultiples(a, b, p);
    Apart(b, a, p);
    if b <= a { AtLeast(b, a, p); }
  }

  lemma SumOfMultiples(a: nat, b: nat, p: nat)
    ensures (a + b) * p == a * p + b * p
  {}

  lemma Halves(x: nat, c: nat, p: nat)
    requires c * p == 2 * x && c % 2 == 0
    ensures x == c / 2 * p
  {
    assert c == 2 * (c / 2);
    TwoTimes(c / 2, p);
    Regroup(2, c / 2, p);
  }

  /** What is rounded up is at most half a unit away. */
  lemma HalfAUnit(x: nat, low: nat)
    requires Rounded(x) == x && Rounded(low) == x && low < x
    ensures 2 * (x - low) <= Unit(x)
  {
    RoundedUp(low, Unit(low));
    UnitsOrdered(low, x, 1);
  }

  lemma RoundedUp(n: nat, u: nat)
    requires u > 0 && Nearest(n, u) > n
    ensures 2 * (Nearest(n, u) - n) <= u
  {
    var q, r := n / u, n % u;
    assert n == q * u + r;
    NextMultiple(q, u);
  }

  /** An odd multiple of 10^k is not twice a multiple of as large a power of two. */
  lemma {:induction false} NoHalfway(c: nat, k: nat, q: nat, u: nat)
    requires c % 2 == 1 && Doubles(1, u) && u >= Pow10(k)
    ensures c * Pow10(k) != 2 * (q * u)
    decreases k
  {
    if k > 0 {
      assert Doubles(1, u / 2) && u == 2 * (u / 2);
      NoHalfway(5 * c, k - 1, q, u / 2);
      HalveBoth(c, Pow10(k - 1), q, u / 2);
    } else {
      assert c * Pow10(k) == c;
    }
  }

  lemma HalveBoth(c: nat, p: nat, q: nat, v: nat)
    ensures c * (10 * p) == 2 * ((5 * c) * p) && q * (2 * v) == 2 * (q * v)
  {
    TwoTimes(q, v);
    Regroup(c, 10, p);
    Regroup(2, 5 * c, p);
  }
}
