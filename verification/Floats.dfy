/** Whole numbers as a float64 holds them: 53 significant bits, rounded to nearest,
    ties to even. */
module Floats {
  const EXACT: nat := 0x20_0000_0000_0000

  /** The least doubling of `unit` that counts `n` in 53 bits. */
  function UnitFrom(n: nat, unit: nat): (u: nat)
    requires unit > 0
    ensures u >= unit && n < u * EXACT
    decreases n - unit * EXACT
  {
    if n < unit * EXACT then unit else UnitFrom(n, 2 * unit)
  }

  function Unit(n: nat): (u: nat)
    ensures u > 0
  {
    UnitFrom(n, 1)
  }

  function Nearest(n: nat, unit: nat): nat
    requires unit > 0
  {
    var q, r := n / unit, n % unit;
    if 2 * r > unit || (2 * r == unit && q % 2 == 1) then (q + 1) * unit else q * unit
  }

  function Rounded(n: nat): nat { Nearest(n, Unit(n)) }

  function Float(n: int): int { if n < 0 then 0 - Rounded(-n) else Rounded(n) }

  // ----- what is held exactly -----

  /** `b` is `a` doubled some number of times. */
  predicate Doubles(a: nat, b: nat) { a == b || (b > a && b % 2 == 0 && Doubles(a, b / 2)) }

  lemma {:induction false} DoublesDivides(a: nat, b: nat) returns (c: nat)
    requires Doubles(a, b)
    ensures b == c * a
  {
    if a == b {
      c := 1;
    } else {
      c := DoublesDivides(a, b / 2);
      assert b == 2 * (c * a) == (2 * c) * a;
      c := 2 * c;
    }
  }

  lemma {:induction false} DoublesOnce(a: nat, b: nat)
    requires Doubles(a, b) && a != b && a > 0
    ensures Doubles(2 * a, b)
  {
    if b / 2 != a { DoublesOnce(a, b / 2); } else { assert b == 2 * a; }
  }

  /** The search passes only doublings of where it starts. */
  lemma {:induction false} UnitDoubles(n: nat, unit: nat)
    requires unit > 0
    ensures Doubles(unit, UnitFrom(n, unit))
    decreases n - unit * EXACT
  {
    if n >= unit * EXACT {
      UnitDoubles(n, 2 * unit);
      DoublesBack(unit, UnitFrom(n, 2 * unit));
    }
  }

  lemma {:induction false} DoublesBack(a: nat, b: nat)
    requires Doubles(2 * a, b) && a > 0
    ensures Doubles(a, b)
  {
    if 2 * a != b { DoublesBack(a, b / 2); }
  }

  lemma {:induction false} UnitIsLeast(n: nat, unit: nat, u: nat)
    requires unit > 0 && Doubles(unit, u) && n < u * EXACT
    ensures Doubles(UnitFrom(n, unit), u)
    decreases n - unit * EXACT
  {
    if n >= unit * EXACT {
      DoublesOnce(unit, u);
      UnitIsLeast(n, 2 * unit, u);
    }
  }

  lemma OneQuotient(k: nat, q: nat, r: nat, unit: nat)
    requires k * unit == q * unit + r && r < unit
    ensures k == q && r == 0
  {
    Apart(k, q, unit);
    Apart(q, k, unit);
  }

  lemma {:induction false} Apart(a: nat, b: nat, unit: nat)
    ensures a > b ==> a * unit >= b * unit + unit
    decreases a
  {
    if a > b {
      assert a * unit == (a - 1) * unit + unit;
      Apart(a - 1, b, unit);
    }
  }

  lemma MultipleDivides(k: nat, unit: nat)
    requires unit > 0
    ensures k * unit / unit == k && k * unit % unit == 0
  {
    var n := k * unit;
    assert n == (n / unit) * unit + n % unit;
    OneQuotient(k, n / unit, n % unit, unit);
  }

  lemma NearestOfMultiple(k: nat, unit: nat)
    requires unit > 0
    ensures Nearest(k * unit, unit) == k * unit
  {
    MultipleDivides(k, unit);
  }

  /** Fewer than 2^53 of a unit are held exactly. */
  lemma MultipleIsHeld(k: nat, u: nat)
    requires Doubles(1, u) && u > 0 && k < EXACT
    ensures Rounded(k * u) == k * u
  {
    var n := k * u;
    assert n < u * EXACT by { Times(k, EXACT, u); }
    UnitIsLeast(n, 1, u);
    var v := Unit(n);
    var c := DoublesDivides(v, u);
    Regroup(k, c, v);
    NearestOfMultiple(k * c, v);
  }

  lemma Times(a: nat, b: nat, c: nat)
    requires a < b && c > 0
    ensures a * c < c * b
  {}

  lemma Regroup(a: nat, b: nat, c: nat)
    ensures a * (b * c) == (a * b) * c
  {}

  lemma SmallIsHeld(n: nat)
    requires n <= EXACT
    ensures Float(n) == n
  {
    if n < EXACT {
      MultipleIsHeld(n, 1);
    } else {
      MultipleIsHeld(EXACT / 2, 2);
    }
  }

  lemma QuotientFits(n: nat, u: nat)
    requires u > 0 && n < u * EXACT
    ensures n / u < EXACT
  {
    var q := n / u;
    assert n == q * u + n % u;
    if q >= EXACT { AtLeast(EXACT, q, u); }
  }

  lemma AtLeast(a: nat, b: nat, c: nat)
    requires a <= b
    ensures c * a <= b * c
  {}

  /** Rounding twice is rounding once. */
  lemma RoundedIsHeld(n: nat)
    ensures Rounded(Rounded(n)) == Rounded(n)
  {
    var u := Unit(n);
    var q := n / u;
    UnitDoubles(n, 1);
    QuotientFits(n, u);
    if Rounded(n) == q * u {
      MultipleIsHeld(q, u);
    } else if q + 1 < EXACT {
      MultipleIsHeld(q + 1, u);
    } else {
      assert Rounded(n) == EXACT * u == EXACT / 2 * (2 * u);
      assert Doubles(1, 2 * u);
      MultipleIsHeld(EXACT / 2, 2 * u);
    }
  }

  lemma FloatIsHeld(n: int)
    ensures Float(Float(n)) == Float(n)
  {
    RoundedIsHeld(if n < 0 then -n else n);
  }

  // ----- rounding keeps the order -----

  /** A larger number has the same unit or a doubled one, and then fills half of it. */
  lemma {:induction false} UnitsOrdered(a: nat, b: nat, unit: nat)
    requires a <= b && unit > 0
    ensures var u, v := UnitFrom(a, unit), UnitFrom(b, unit);
      u == v || (2 * u <= v && v * EXACT <= 2 * b)
    decreases b - unit * EXACT
  {
    if b >= unit * EXACT {
      UnitFills(b, 2 * unit);
      if a >= unit * EXACT { UnitsOrdered(a, b, 2 * unit); }
    }
  }

  lemma {:induction false} UnitFills(b: nat, unit: nat)
    requires unit > 0 && unit * EXACT <= 2 * b
    ensures UnitFrom(b, unit) * EXACT <= 2 * b
    decreases b - unit * EXACT
  {
    if b >= unit * EXACT { UnitFills(b, 2 * unit); }
  }

  lemma NearestAround(n: nat, u: nat)
    requires u > 0
    ensures n / u * u <= n && n / u * u <= Nearest(n, u) <= n / u * u + u
  {
    assert n == n / u * u + n % u;
    assert (n / u + 1) * u == n / u * u + u;
  }

  lemma NearestMonotone(a: nat, b: nat, u: nat)
    requires a <= b && u > 0
    ensures Nearest(a, u) <= Nearest(b, u)
  {
    hide Nearest;
    QuotientsOrdered(a, b, u);
    if a / u == b / u { SameQuotient(a, b, u); } else { LaterQuotient(a, b, u); }
  }

  lemma QuotientsOrdered(a: nat, b: nat, u: nat)
    requires a <= b && u > 0
    ensures a / u <= b / u && (a / u == b / u ==> a % u <= b % u)
  {
    OrderedParts(a / u, a % u, b / u, b % u, u);
  }

  lemma OrderedParts(p: nat, r: nat, q: nat, s: nat, u: nat)
    requires r < u && s < u && p * u + r <= q * u + s
    ensures p <= q && (p == q ==> r <= s)
  {
    if p > q { Apart(p, q, u); }
  }

  lemma SameQuotient(a: nat, b: nat, u: nat)
    requires u > 0 && a / u == b / u && a % u <= b % u
    ensures Nearest(a, u) <= Nearest(b, u)
  {
    var q := a / u;
    Apart(q + 1, q, u);
  }

  lemma LaterQuotient(a: nat, b: nat, u: nat)
    requires u > 0 && a / u < b / u
    ensures Nearest(a, u) <= Nearest(b, u)
  {
    NearestAround(a, u);
    NearestAround(b, u);
    hide Nearest;
    OneApart(Nearest(a, u), Nearest(b, u), a / u, b / u, u);
  }

  lemma OneApart(x: nat, y: nat, p: nat, q: nat, u: nat)
    requires p < q && x <= p * u + u && q * u <= y
    ensures x <= y
  {
    Apart(q, p, u);
  }

  lemma NearestAtMost(n: nat, u: nat, most: nat)
    requires u > 0 && n < most * u
    ensures Nearest(n, u) <= most * u
  {
    NearestAround(n, u);
    hide Nearest;
    BelowProduct(n / u, n % u, most, u);
  }

  lemma BelowProduct(q: nat, r: nat, most: nat, u: nat)
    requires r < u && q * u + r < most * u
    ensures q * u + u <= most * u
  {
    if q >= most { AtLeast(most, q, u); } else { Apart(most, q, u); }
  }

  lemma NearestAtLeast(n: nat, u: nat, least: nat)
    requires u > 0 && n >= least * u
    ensures Nearest(n, u) >= least * u
  {
    NearestAround(n, u);
    hide Nearest;
    AboveProduct(n / u, n % u, least, u);
  }

  lemma AboveProduct(q: nat, r: nat, least: nat, u: nat)
    requires r < u && q * u + r >= least * u
    ensures q * u >= least * u
  {
    if q < least { Apart(least, q, u); } else { AtLeast(least, q, u); }
  }

  lemma RoundedMonotone(a: nat, b: nat)
    requires a <= b
    ensures Rounded(a) <= Rounded(b)
  {
    var u, v := Unit(a), Unit(b);
    UnitsOrdered(a, b, 1);
    if u == v {
      NearestMonotone(a, b, u);
    } else {
      NearestAtMost(a, u, EXACT);
      NearestAtLeast(b, v, EXACT / 2);
    }
  }

  /** Twice a held number is held. */
  lemma TwiceIsHeld(x: nat)
    requires Rounded(x) == x
    ensures Rounded(2 * x) == 2 * x
  {
    var u := Unit(x);
    UnitDoubles(x, 1);
    assert Doubles(1, 2 * u);
    HeldIsMultiple(x, u);
    QuotientFits(x, u);
    hide Unit, UnitFrom, Nearest, Doubles;
    MultipleIsHeld(x / u, 2 * u);
    TwoTimes(x / u, u);
  }

  lemma HeldIsMultiple(x: nat, u: nat)
    requires u > 0 && Nearest(x, u) == x
    ensures x == x / u * u
  {
    var q, r := x / u, x % u;
    assert x == q * u + r;
    Apart(q + 1, q, u);
    assert (q + 1) * u == q * u + u;
  }

  lemma TwoTimes(q: nat, u: nat)
    ensures q * (2 * u) == 2 * (q * u)
  {}

  // ----- the top of the 64-bit range -----

  const TOP: nat := 0x8000_0000_0000_0000

  lemma UnitOf(n: nat)
    requires n < 2 * TOP
    ensures Unit(n) ==
      if n < EXACT then 1 else if n < 2 * EXACT then 2 else if n < 4 * EXACT then 4
      else if n < 8 * EXACT then 8 else if n < 16 * EXACT then 16 else if n < 32 * EXACT then 32
      else if n < 64 * EXACT then 64 else if n < 128 * EXACT then 128 else if n < 256 * EXACT then 256
      else if n < 512 * EXACT then 512 else if n < 1024 * EXACT then 1024 else 2048
  {
    Unfolds(n, 1);
    Unfolds(n, 2);
    Unfolds(n, 4);
    Unfolds(n, 8);
    Unfolds(n, 16);
    Unfolds(n, 32);
    Unfolds(n, 64);
    Unfolds(n, 128);
    Unfolds(n, 256);
    Unfolds(n, 512);
    Unfolds(n, 1024);
    Unfolds(n, 2048);
    hide UnitFrom;
  }

  lemma Unfolds(n: nat, unit: nat)
    requires unit > 0
    ensures UnitFrom(n, unit) == if n < unit * EXACT then unit else UnitFrom(n, 2 * unit)
  {}

  /** A 64-bit number rounds out of the 64-bit range exactly from 2^63 - 512 on. */
  lemma FloatFitsExactlyWhen(n: nat)
    requires n < TOP
    ensures 0 <= Float(n) && (Float(n) < TOP <==> n < TOP - 512)
  {
    UnitOf(n);
    hide UnitFrom, Unit;
    var u := Unit(n);
    if n < TOP / 2 { NearestBelow(n, u); }
  }

  lemma NearestBelow(n: nat, u: nat)
    requires 0 < u <= 512 && n < TOP / 2
    ensures Nearest(n, u) < TOP
  {
    var q := n / u;
    assert n == q * u + n % u;
    assert (q + 1) * u == q * u + u;
  }

  /** The number after 2^53 is not held, and the largest 64-bit number rounds to 2^63. */
  lemma FirstRounded()
    ensures Float(EXACT + 1) == EXACT && Float(TOP - 1) == TOP
  {
    UnitOf(EXACT + 1);
    UnitOf(TOP - 1);
    hide UnitFrom;
  }
}
