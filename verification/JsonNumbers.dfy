/** Integers as JSON number literals. */
module JsonNumbers {
  import opened Basics
  import opened Json
  import opened Numerals
  import T = Text

  lemma {:induction false} DecimalCounts(n: nat)
    ensures CountDigits(Decimal(n)) == |Decimal(n)|
  {
    if n >= 10 {
      DecimalCounts(n / 10);
      CountAppends(Decimal(n / 10), Decimal(n)[|Decimal(n)| - 1]);
    }
  }

  lemma {:induction false} CountAppends(s: string, c: char)
    requires T.AllDigits(s) && T.IsDigit(c) && CountDigits(s) == |s|
    ensures CountDigits(s + [c]) == |s| + 1
  {
    if s != "" {
      assert (s + [c])[1..] == s[1..] + [c];
      CountAppends(s[1..], c);
    }
  }

  lemma IntTextIsNumber(n: int)
    ensures IsNumber(IntText(n))
  {
    var m := if n < 0 then -n else n;
    var digits := Decimal(m);
    DecimalIsUnsigned(m);
    hide UnsignedSpan;
    if n < 0 { assert IntText(n)[1..] == digits; }
    else { assert digits[0] in digits; }
  }

  lemma DecimalIsUnsigned(n: nat)
    ensures UnsignedSpan(Decimal(n)) == Span(|Decimal(n)|)
  {
    var digits := Decimal(n);
    DecimalReads(n);
    DecimalCounts(n);
    assert digits[0] in digits && digits[|digits|..] == "";
    assert DecimalSpan("") == Span(0);
  }

  /** The 64-bit integer a literal without fraction and exponent stands for. */
  function Literal(lit: string): Option<int> { if IsNumber(lit) then T.Atoi(lit) else None }

  lemma LiteralReads(n: int)
    requires Fits(n)
    ensures Literal(IntText(n)) == Some(n)
  {
    IntTextIsNumber(n);
    IntTextReads(n);
  }

  lemma LiteralFits(lit: string)
    ensures Literal(lit).Some? ==> Fits(Literal(lit).value)
  {}
}
