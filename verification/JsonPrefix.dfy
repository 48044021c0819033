/** What the decoder has accepted does not depend on what comes later, so a text
    cut short is never read as another value. */
module JsonPrefix {
  import opened Json
  import T = Text

  lemma {:induction false} SkipExtends(p: string, x: string)
    requires Skip(p) != ""
    ensures Skip(p + x) == Skip(p) + x
  {
    assert (p + x)[1..] == p[1..] + x;
    if IsBlank(p[0]) { SkipExtends(p[1..], x); }
  }

  lemma {:induction false} CountExtends(p: string, x: string)
    requires CountDigits(p) < |p|
    ensures CountDigits(p + x) == CountDigits(p)
  {
    assert (p + x)[1..] == p[1..] + x;
    if T.IsDigit(p[0]) { CountExtends(p[1..], x); }
  }

  lemma FractionExtends(p: string, x: string)
    requires FractionSpan(p).Span? && FractionSpan(p).length < |p|
    ensures FractionSpan(p + x) == FractionSpan(p)
  {
    assert (p + x)[1..] == p[1..] + x;
    if p[0] == '.' { CountExtends(p[1..], x); }
  }

  lemma ExponentExtends(p: string, x: string)
    requires ExponentSpan(p).Span? && ExponentSpan(p).length < |p|
    ensures ExponentSpan(p + x) == ExponentSpan(p)
  {
    if p[0] == 'e' || p[0] == 'E' {
      var sign := if |p| > 1 && (p[1] == '+' || p[1] == '-') then 2 else 1;
      assert sign < |p|;
      assert (p + x)[sign..] == p[sign..] + x;
      CountExtends(p[sign..], x);
    }
  }

  lemma DecimalExtends(p: string, x: string)
    requires DecimalSpan(p).Span? && DecimalSpan(p).length < |p|
    ensures DecimalSpan(p + x) == DecimalSpan(p)
  {
    var fraction := FractionSpan(p).length;
    FractionExtends(p, x);
    assert (p + x)[fraction..] == p[fraction..] + x;
    ExponentExtends(p[fraction..], x);
  }

  lemma UnsignedExtends(p: string, x: string)
    requires UnsignedSpan(p).Span? && UnsignedSpan(p).length < |p|
    ensures UnsignedSpan(p + x) == UnsignedSpan(p)
  {
    var whole := IntSpan(p).length;
    if p[0] != '0' { CountExtends(p, x); }
    assert (p + x)[whole..] == p[whole..] + x;
    DecimalExtends(p[whole..], x);
  }

  lemma NumberExtends(p: string, x: string)
    requires ParseNumber(p).Good? && ParseNumber(p).rest != ""
    ensures ParseNumber(p + x) == Good(ParseNumber(p).value, ParseNumber(p).rest + x)
  {
    hide NumberSpan;
    var n := NumberSpan(p).length;
    SpanExtends(p, x);
    assert (p + x)[..n] == p[..n] && (p + x)[n..] == p[n..] + x;
  }

  lemma SpanExtends(p: string, x: string)
    requires NumberSpan(p).Span? && NumberSpan(p).length < |p|
    ensures NumberSpan(p + x) == NumberSpan(p)
  {
    if p[0] == '-' {
      assert (p + x)[1..] == p[1..] + x;
      UnsignedExtends(p[1..], x);
    } else {
      UnsignedExtends(p, x);
    }
  }

  lemma {:induction false} CharsExtend(p: string, x: string)
    requires ParseChars(p).Good?
    ensures ParseChars(p + x) == Good(ParseChars(p).value, ParseChars(p).rest + x)
    decreases |p|
  {
    var t := p + x;
    if p[0] == '"' { assert t[1..] == p[1..] + x; }
    else if p[0] == '\\' {
      if IsEscape(p[1]) {
        assert t[2..] == p[2..] + x;
        CharsExtend(p[2..], x);
      } else {
        EscapeExtends(p, x);
      }
    } else {
      assert t[1..] == p[1..] + x;
      CharsExtend(p[1..], x);
    }
  }

  lemma {:induction false} EscapeExtends(p: string, x: string)
    requires ParseChars(p).Good? && p[0] == '\\' && !IsEscape(p[1])
    ensures ParseChars(p + x) == Good(ParseChars(p).value, ParseChars(p).rest + x)
    decreases |p|, 0
  {
    var t := p + x;
    assert t[2..6] == p[2..6] && t[6..] == p[6..] + x;
    if IsHigh(Hex4(p[2..6])) && |p| >= 12 && p[6..8] == "\\u" && IsHex4(p[8..12]) && IsLow(Hex4(p[8..12])) {
      assert t[6..8] == p[6..8] && t[8..12] == p[8..12] && t[12..] == p[12..] + x;
      CharsExtend(p[12..], x);
    } else {
      CharsExtend(p[6..], x);
      if IsHigh(Hex4(p[2..6])) && |t| >= 12 && t[6..8] == "\\u" {
        assert p[6] == t[6] == t[6..8][0] && p[6..][0] == '\\' && p[6..][1] == t[6..8][1];
        assert |p| >= 12 && t[8..12] == p[8..12] && p[6..8] == t[6..8];
      }
    }
  }

  /** Only a number at the very end of the text could still grow. */
  predicate Settled(r: Parsed<Value>) { r.Good? && (r.rest == "" ==> !r.value.Num?) }

  lemma {:induction false} ValueExtends(p: string, x: string)
    requires Settled(ParseValue(p))
    ensures ParseValue(p + x) == Good(ParseValue(p).value, ParseValue(p).rest + x)
    decreases |p|, 1
  {
    SkipExtends(p, x);
    AtExtends(Skip(p), x);
  }

  lemma {:induction false} AtExtends(s: string, x: string)
    requires s != "" && Settled(ParseAt(s))
    ensures ParseAt(s + x) == Good(ParseAt(s).value, ParseAt(s).rest + x)
    decreases |s|, 0
  {
    var r := ParseAt(s);
    assert (s + x)[1..] == s[1..] + x;
    if s[0] == 'n' { WordExtends(s, x, "null", Null); }
    else if s[0] == 't' { WordExtends(s, x, "true", Bool(true)); }
    else if s[0] == 'f' { WordExtends(s, x, "false", Bool(false)); }
    else if s[0] == '"' { CharsExtend(s[1..], x); }
    else if s[0] == '[' { ArrayExtends(s[1..], x); }
    else if s[0] == '{' { ObjectExtends(s[1..], x); }
    else {
      NumberFirst(s);
      NumberExtends(s, x);
    }
  }

  lemma NumberFirst(s: string)
    requires ParseNumber(s).Good?
    ensures s != "" && ParseNumber(s).value.Num?
  {}

  lemma WordExtends(s: string, x: string, word: string, v: Value)
    requires word != "" && ParseWord(s, word, v).Good?
    ensures ParseWord(s + x, word, v) == Good(v, ParseWord(s, word, v).rest + x)
  {
    assert (s + x)[..|word|] == s[..|word|] && (s + x)[|word|..] == s[|word|..] + x;
  }

  lemma {:induction false} ArrayExtends(p: string, x: string)
    requires ParseArray(p).Good?
    ensures ParseArray(p + x) == Good(ParseArray(p).value, ParseArray(p).rest + x)
    decreases |p|, 3
  {
    if Skip(p) == "" { ParseItemsNonEmpty(p); }
    SkipExtends(p, x);
    assert (Skip(p) + x)[1..] == Skip(p)[1..] + x;
    if Skip(p)[0] != ']' { ItemsExtend(p, x); }
  }

  lemma ParseItemsNonEmpty(p: string)
    requires ParseItems(p).Good?
    ensures Skip(p) != ""
  {}

  lemma {:induction false} ItemsExtend(p: string, x: string)
    requires ParseItems(p).Good?
    ensures ParseItems(p + x) == Good(ParseItems(p).value, ParseItems(p).rest + x)
    decreases |p|, 2
  {
    ValueExtends(p, x);
    var rest := ParseValue(p).rest;
    SkipExtends(rest, x);
    var s := Skip(rest);
    assert (s + x)[1..] == s[1..] + x;
    if s[0] == ',' { ItemsExtend(s[1..], x); }
  }

  lemma {:induction false} ObjectExtends(p: string, x: string)
    requires ParseObject(p).Good?
    ensures ParseObject(p + x) == Good(ParseObject(p).value, ParseObject(p).rest + x)
    decreases |p|, 3
  {
    SkipExtends(p, x);
    assert (Skip(p) + x)[1..] == Skip(p)[1..] + x;
    if Skip(p)[0] != '}' { MembersExtend(p, x); }
  }

  lemma {:induction false} MembersExtend(p: string, x: string)
    requires ParseMembers(p).Good?
    ensures ParseMembers(p + x) == Good(ParseMembers(p).value, ParseMembers(p).rest + x)
    decreases |p|, 2
  {
    var s := Skip(p);
    SkipExtends(p, x);
    assert (s + x)[1..] == s[1..] + x;
    CharsExtend(s[1..], x);
    var u := Skip(ParseChars(s[1..]).rest);
    RestExtends(ParseChars(s[1..]).rest, x);
    ValueExtends(u[1..], x);
    var e := Skip(ParseValue(u[1..]).rest);
    RestExtends(ParseValue(u[1..]).rest, x);
    if e[0] == ',' { MembersExtend(e[1..], x); }
  }

  lemma RestExtends(rest: string, x: string)
    requires Skip(rest) != ""
    ensures Skip(rest + x) == Skip(rest) + x && (Skip(rest) + x)[1..] == Skip(rest)[1..] + x
  {
    SkipExtends(rest, x);
  }

  /** The text of an object cut inside the object is not a value at all. */
  lemma CutObjectIsBad(t: string, n: nat)
    requires ParseValue(t).Good? && ParseValue(t).value.Obj?
    requires n < |t| - |ParseValue(t).rest|
    ensures ParseValue(t[..n]).Bad?
  {
    var p, x := t[..n], t[n..];
    assert t == p + x;
    if ParseValue(p).Good? {
      SkipExtends(p, x);
      ObjectsOpen(Skip(t));
      ObjectsOpen(Skip(p));
      ValueExtends(p, x);
    }
  }

  lemma ObjectsOpen(s: string)
    requires s != "" && ParseAt(s).Good?
    ensures ParseAt(s).value.Obj? <==> s[0] == '{'
  {}
}
