/** Decimal numerals, as strconv writes and reads them, and 64-bit sums. */
module Numerals {
  import opened Basics
  import T = Text

  function Decimal(n: nat): (s: string)
    ensures s != "" && T.AllDigits(s)
  {
    var last := [('0' as int + n % 10) as char];
    if n < 10 then last else Decimal(n / 10) + last
  }

  function IntText(n: int): string { if n < 0 then "-" + Decimal(-n) else Decimal(n) }

  /** A 64-bit integer. */
  predicate Fits(n: int) { -T.INT64_LIMIT <= n < T.INT64_LIMIT }

  /** A 64-bit sum wraps around. */
  function Wrap(n: int): int {
    var m := n % (2 * T.INT64_LIMIT);
    if m < T.INT64_LIMIT then m else m - 2 * T.INT64_LIMIT
  }

  lemma {:induction false} DecimalReads(n: nat)
    ensures T.Digits(Decimal(n)) == n
    ensures n > 0 ==> Decimal(n)[0] != '0'
    ensures n == 0 ==> Decimal(n) == "0"
  {
    if n >= 10 {
      DecimalReads(n / 10);
      assert Decimal(n)[..|Decimal(n)| - 1] == Decimal(n / 10);
    }
  }

  lemma IntTextReads(n: int)
    requires Fits(n)
    ensures T.Atoi(IntText(n)) == Some(n)
  {
    var m := if n < 0 then -n else n;
    DecimalReads(m);
    if n < 0 { assert IntText(n)[1..] == Decimal(m); }
    else { assert Decimal(m)[0] in Decimal(m); }
  }
}
