/** Whole numbers as encoding/json writes a float64: the shortest decimal that is read
    back as it, the nearest of those, padded with zeros. */
module Shortest {
  import opened Basics
  import opened Floats

  function Pow10(k: nat): (p: nat)
    ensures p > 0
  {
    if k == 0 then 1 else 10 * Pow10(k - 1)
  }

  /** How many digits a number has. */
  function Length(x: nat): nat { if x < 10 then 1 else 1 + Length(x / 10) }

  /** The last multiple of 10^k up to `x`. */
  function Low(x: nat, k: nat): nat { Down(x, Pow10(k)) }

  function Down(x: nat, p: nat): nat
    requires p > 0
  {
    x / p * p
  }

  /** The multiple of 10^k nearest to `x` of the two around it that are read as `x`. */
  function Candidate(x: nat, k: nat): Option<nat> {
    var low := Low(x, k);
    var high := low + Pow10(k);
    var lowReads, highReads := Rounded(low) == x, Rounded(high) == x;
    if lowReads && (!highReads || x - low <= high - x) then Some(low)
    else if highReads then Some(high)
    else None
  }

  /** The most zeros, up to `k`, a number read as `x` ends in. */
  function ZerosFrom(x: nat, k: nat): (z: nat)
    ensures z <= k
    ensures Candidate(x, z).Some? || z == 0
    ensures forall j | z < j <= k :: Candidate(x, j).None?
  {
    if k == 0 || Candidate(x, k).Some? then k else ZerosFrom(x, k - 1)
  }

  function Zeros(x: nat): nat { ZerosFrom(x, Length(x)) }

  /** The decimal written for the float64 that holds `x`. */
  function Decimal(x: nat): nat {
    match Candidate(x, Zeros(x))
    case Some(c) => c
    case None => x
  }

  /** What becomes of a whole number read into a float64 and written out. */
  function Shown(n: int): int { if n < 0 then 0 - Decimal(Rounded(-n)) else Decimal(Rounded(n)) }

  // ----- powers of ten -----

  /** `m` ends in `k` zeros. */
  predicate EndsIn(m: nat, k: nat) { m % Pow10(k) == 0 }

  lemma {:induction false} LengthBounds(x: nat)
    ensures x < Pow10(Length(x))
  {
    if x >= 10 { LengthBounds(x / 10); }
  }

  lemma {:induction false} PowersDivide(j: nat, k: nat) returns (c: nat)
    requires j <= k
    ensures Pow10(k) == c * Pow10(j) && c > 0
  {
    if j == k {
      c := 1;
    } else {
      c := PowersDivide(j, k - 1);
      Regroup(10, c, Pow10(j));
      c := 10 * c;
    }
  }

  lemma EndsInFewer(m: nat, j: nat, k: nat)
    requires EndsIn(m, k) && j <= k
    ensures EndsIn(m, j)
  {
    var c := PowersDivide(j, k);
    FewerFactors(m, c, Pow10(j), Pow10(k));
  }

  lemma FewerFactors(m: nat, c: nat, d: nat, p: nat)
    requires d > 0 && p > 0 && p == c * d && m % p == 0
    ensures m % d == 0
  {
    var q := m / p;
    assert m == q * p;
    Regroup(q, c, d);
    MultipleDivides(q * c, d);
  }

  /** No multiple of 10^k lies between `Low(x, k)` and the next. */
  lemma Neighbours(x: nat, k: nat, m: nat)
    requires EndsIn(m, k)
    ensures var low, high := Low(x, k), Low(x, k) + Pow10(k);
      low <= x < high && EndsIn(low, k) && EndsIn(high, k) && (m <= low || m >= high)
  {
    hide Pow10;
    Between(x, Pow10(k), m);
  }

  lemma Between(x: nat, p: nat, m: nat)
    requires p > 0 && m % p == 0
    ensures var low := x / p * p;
      low <= x < low + p && low % p == 0 && (low + p) % p == 0 && (m <= low || m >= low + p)
  {
    var q, j := x / p, m / p;
    assert x == q * p + x % p && m == j * p;
    MultipleDivides(q, p);
    MultipleDivides(q + 1, p);
    NextMultiple(q, p);
    if j > q { Apart(j, q, p); } else { AtLeast(j, q, p); }
  }

  lemma NextMultiple(q: nat, p: nat)
    ensures (q + 1) * p == q * p + p
  {}

  lemma PositiveMultiple(m: nat, p: nat)
    requires p > 0 && m > 0 && m % p == 0
    ensures m >= p
  {}

  // ----- the decimal is read back, and is the shortest -----

  function Distance(a: nat, b: nat): nat { if a <= b then b - a else a - b }

  /** Where some multiple of 10^k is read as `x`, one of the two around `x` is, and the
      nearer of those is nearest of all. */
  lemma CandidateIsNearest(x: nat, k: nat, m: nat)
    requires Rounded(x) == x && Rounded(m) == x && EndsIn(m, k)
    ensures Candidate(x, k).Some?
    ensures Distance(Candidate(x, k).value, x) <= Distance(m, x)
  {
    var low, high := Low(x, k), Low(x, k) + Pow10(k);
    Neighbours(x, k, m);
    hide Rounded, Low, Pow10;
    if m <= low {
      RoundedMonotone(m, low);
      RoundedMonotone(low, x);
    } else {
      RoundedMonotone(x, high);
      RoundedMonotone(high, m);
    }
  }

  lemma CandidateReads(x: nat, k: nat)
    requires Candidate(x, k).Some?
    ensures Rounded(Candidate(x, k).value) == x && EndsIn(Candidate(x, k).value, k)
  {
    hide Rounded;
    Neighbours(x, k, 0);
  }

  lemma UnitCandidate(x: nat)
    requires Rounded(x) == x
    ensures Candidate(x, 0).Some?
  {
    assert Pow10(0) == 1 && EndsIn(x, 0);
    CandidateIsNearest(x, 0, x);
  }

  /** The decimal written is read back as the float64 it was written for. */
  lemma DecimalReads(x: nat)
    requires Rounded(x) == x
    ensures Rounded(Decimal(x)) == x && EndsIn(Decimal(x), Zeros(x)) && Candidate(x, Zeros(x)) == Some(Decimal(x))
  {
    hide Rounded, Candidate, Length;
    UnitCandidate(x);
    CandidateReads(x, Zeros(x));
  }

  lemma TooLongReadsElse(x: nat, k: nat, m: nat)
    requires 0 < m && EndsIn(m, k) && k > Length(x) && Rounded(x) == x
    ensures Rounded(m) != x
  {
    var l := Length(x);
    EndsInFewer(m, l + 1, k);
    LengthBounds(x);
    PositiveMultiple(m, Pow10(l + 1));
    assert Pow10(l + 1) == 10 * Pow10(l);
    hide Rounded, Pow10;
    TwiceIsHeld(x);
    RoundedMonotone(2 * x, m);
    if x == 0 {
      OneIsHeld();
      RoundedMonotone(1, m);
    }
  }

  lemma OneIsHeld()
    ensures Rounded(1) == 1
  {
    SmallIsHeld(1);
  }

  /** No number read as `x` ends in more zeros than the decimal written, and of those
      that end in as many none is nearer. */
  lemma DecimalIsShortest(x: nat, m: nat, k: nat)
    requires Rounded(x) == x && Rounded(m) == x && EndsIn(m, k) && m > 0
    ensures k <= Zeros(x) && EndsIn(Decimal(x), k)
    ensures EndsIn(m, Zeros(x)) ==> Distance(Decimal(x), x) <= Distance(m, x)
  {
    hide Rounded, Candidate, Length;
    if k > Length(x) { TooLongReadsElse(x, k, m); }
    CandidateIsNearest(x, k, m);
    DecimalReads(x);
    EndsInFewer(Decimal(x), k, Zeros(x));
    if EndsIn(m, Zeros(x)) { CandidateIsNearest(x, Zeros(x), m); }
  }

  // ----- what is shown -----

  /** The number shown is read as the float64 the number itself is read as. */
  lemma ShownReads(n: nat)
    ensures Shown(n) >= 0 && Rounded(Shown(n)) == Rounded(n)
  {
    hide Decimal;
    RoundedIsHeld(n);
    DecimalReads(Rounded(n));
  }

  lemma ShownIsStable(n: int)
    ensures Shown(Shown(n)) == Shown(n)
  {
    hide Decimal, Rounded;
    var m := if n < 0 then -n else n;
    ShownReads(m);
    if n < 0 && Shown(m) == 0 { ZeroIsShown(); }
  }

  lemma ZeroIsShown()
    ensures Shown(0) == 0
  {
    SmallIsShown(0);
  }

  /** Whole numbers up to 2^53 are shown as they are. */
  lemma SmallIsShown(n: nat)
    requires n <= EXACT
    ensures Shown(n) == n
  {
    SmallIsHeld(n);
    if n == EXACT {
      EdgeIsShown();
    } else {
      hide Rounded, Decimal;
      ShownReads(n);
      var m: int := Shown(n);
      if m < EXACT {
        SmallIsHeld(m);
      } else {
        SmallIsHeld(EXACT);
        RoundedMonotone(EXACT, m);
      }
    }
  }

  lemma EdgeIsShown()
    ensures Decimal(EXACT) == EXACT && Rounded(EXACT) == EXACT
  {
    hide Rounded, Decimal, Zeros, Pow10;
    SmallIsHeld(EXACT);
    NextHeld();
    Powers();
    DecimalReads(EXACT);
    var d := Decimal(EXACT);
    if d < EXACT { SmallIsHeld(d); }
    if d >= EXACT + 2 { RoundedMonotone(EXACT + 2, d); }
    if Zeros(EXACT) > 0 {
      EndsInFewer(d, 1, Zeros(EXACT));
    }
    DecimalIsShortest(EXACT, EXACT, 0);
  }

  lemma NextHeld()
    ensures Rounded(EXACT + 2) == EXACT + 2
  {
    UnitOf(EXACT + 2);
  }

  // ----- the top of the 64-bit range, and examples -----

  /** A number read as `x` is shown, if the numbers read as `x` that end in as many
      zeros are no nearer and none ends in one more. */
  lemma ShownIs(x: nat, m: nat, k: nat)
    requires Rounded(x) == x && Rounded(m) == x && EndsIn(m, k) && m > 0
    requires forall d: nat | Rounded(d) == x && EndsIn(d, k) ::
               !EndsIn(d, k + 1) && (d == m || Distance(d, x) > Distance(m, x))
    ensures Decimal(x) == m
  {
    hide Rounded, Decimal;
    DecimalReads(x);
    DecimalIsShortest(x, m, k);
    var d := Decimal(x);
    if Zeros(x) > k { EndsInFewer(d, k + 1, Zeros(x)); }
  }

  /** What is read as a held number lies between the held numbers beside it. */
  lemma ReadBetween(d: nat, x: nat, below: nat, above: nat)
    requires Rounded(d) == x && below < x < above && Rounded(below) < x && Rounded(above) > x
    ensures below < d < above
  {
    hide Rounded;
    if d <= below { RoundedMonotone(d, below); }
    if d >= above { RoundedMonotone(above, d); }
  }

  lemma Powers()
    ensures Pow10(0) == 1 && Pow10(1) == 10 && Pow10(2) == 100 && Pow10(3) == 1000 && Pow10(4) == 10000
  {
    assert Pow10(2) == 10 * Pow10(1);
    assert Pow10(3) == 10 * Pow10(2);
    assert Pow10(4) == 10 * Pow10(3);
  }

  const TWO_60: nat := 1152921504606846976

  /** 2^60, which a float64 holds exactly, is not shown as it is; the number shown for
      it is shown as it is and held by none. */
  lemma Power60()
    ensures Float(TWO_60) == TWO_60 && Shown(TWO_60) == 1152921504606847000
    ensures Shown(1152921504606847000) == 1152921504606847000 && Float(1152921504606847000) != 1152921504606847000
  {
    Power60Reads();
    hide Rounded, Decimal;
    Powers();
    forall d: nat | Rounded(d) == TWO_60 && EndsIn(d, 3) ensures !EndsIn(d, 4) && d == 1152921504606847000 {
      ReadBetween(d, TWO_60, 1152921504606846000, 1152921504606848000);
      ThousandsBetween(d);
    }
    ShownIs(TWO_60, 1152921504606847000, 3);
  }

  lemma Power60Reads()
    ensures Rounded(TWO_60) == TWO_60 == Rounded(1152921504606847000)
    ensures Rounded(1152921504606846000) < TWO_60 < Rounded(1152921504606848000)
  {
    UnitOf(TWO_60);
    UnitOf(1152921504606847000);
    UnitOf(1152921504606846000);
    UnitOf(1152921504606848000);
    hide Unit;
  }

  lemma ThousandsBetween(d: nat)
    requires d % 1000 == 0 && 1152921504606846000 < d < 1152921504606848000
    ensures d == 1152921504606847000
  {}

  /** The nearest of the shortest, not the number held. */
  lemma ManyDigits()
    ensures Float(1234567890123456789) == 1234567890123456768 && Shown(1234567890123456789) == 1234567890123456800
  {
    ManyDigitsRead();
    hide Rounded, Decimal;
    Powers();
    forall d: nat | Rounded(d) == 1234567890123456768 && EndsIn(d, 2)
      ensures !EndsIn(d, 3)
      ensures d == 1234567890123456800 || Distance(d, 1234567890123456768) > 32
    {
      ReadBetween(d, 1234567890123456768, 1234567890123456600, 1234567890123456900);
      HundredsBetween(d);
    }
    ShownIs(1234567890123456768, 1234567890123456800, 2);
  }

  lemma ManyDigitsRead()
    ensures Rounded(1234567890123456789) == 1234567890123456768 == Rounded(1234567890123456768)
    ensures Rounded(1234567890123456800) == 1234567890123456768
    ensures Rounded(1234567890123456600) < 1234567890123456768 < Rounded(1234567890123456900)
  {
    UnitOf(1234567890123456789);
    UnitOf(1234567890123456768);
    UnitOf(1234567890123456800);
    UnitOf(1234567890123456600);
    UnitOf(1234567890123456900);
    hide Unit;
  }

  lemma HundredsBetween(d: nat)
    requires d % 100 == 0 && 1234567890123456600 < d < 1234567890123456900
    ensures d == 1234567890123456700 || d == 1234567890123456800
  {}

  /** The number after 2^53 is shown as 2^53, and the largest 64-bit number leaves the
      64-bit range. */
  lemma ShownAtTheEdges()
    ensures Shown(EXACT + 1) == EXACT && Shown(TOP - 1) >= TOP
  {
    FirstRounded();
    hide Rounded, Decimal;
    EdgeIsShown();
    ShownFitsExactlyWhen(TOP - 1);
  }

  lemma TopIsShown()
    ensures Rounded(TOP) == TOP && Decimal(TOP) >= TOP
  {
    hide Rounded, Decimal;
    TopReads();
    Powers();
    DecimalReads(TOP);
    DecimalIsShortest(TOP, 9223372036854776000, 3);
    if Decimal(TOP) <= TOP - 513 { RoundedMonotone(Decimal(TOP), TOP - 513); }
  }

  lemma TopReads()
    ensures Rounded(TOP) == TOP && Rounded(9223372036854776000) == TOP && Rounded(TOP - 513) < TOP
  {
    UnitOf(TOP);
    UnitOf(9223372036854776000);
    hide Unit;
    FloatFitsExactlyWhen(TOP - 513);
  }

  /** A 64-bit number is shown as one exactly when it is below 2^63 - 512. */
  lemma ShownFitsExactlyWhen(n: nat)
    requires n < TOP
    ensures 0 <= Shown(n) && (Shown(n) < TOP <==> n < TOP - 512)
  {
    hide Rounded, Decimal;
    assert Rounded(n) < TOP <==> n < TOP - 512 by { FloatFitsExactlyWhen(n); }
    ShownReads(n);
    TopIsShown();
    RoundedMonotone(n, TOP);
    var m: int := Shown(n);
    if n < TOP - 512 && m >= TOP { RoundedMonotone(TOP, m); }
  }

  lemma LargeShowsLarge(n: nat)
    requires n >= EXACT
    ensures Shown(n) >= EXACT
  {
    SmallIsHeld(EXACT);
    hide Rounded, Decimal;
    ShownReads(n);
    RoundedMonotone(EXACT, n);
    var m: int := Shown(n);
    if m < EXACT { SmallIsHeld(m); }
  }
}
