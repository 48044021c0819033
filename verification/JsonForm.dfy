/** What canonical texts look like: nothing is escaped that need not be, nothing that
    has to be is left as it is, and there is no white space. */
module JsonForm {
  import opened Basics
  import opened Json
  import opened JsonText
  import opened JsonCanonical
  import opened Order
  import T = Text

  /** Written as it is. */
  predicate Ordinary(c: char) { c >= ' ' && c != '"' && c != '\\' && c !in "<>&\U{2028}\U{2029}" }

  /** Control characters and what a page could take for markup never stand for
      themselves. */
  predicate Safe(s: string) { forall c <- s :: c >= ' ' && c !in "<>&\U{2028}\U{2029}" }

  lemma SafeTogether(a: string, b: string)
    requires Safe(a) && Safe(b)
    ensures Safe(a + b)
  {}

  // ----- strings -----

  lemma {:induction false} OrdinaryText(s: string)
    requires forall c <- s :: Ordinary(c)
    ensures GlyphsText(SpellAll(s)) == s
  {
    if s != "" {
      OrdinaryText(s[1..]);
      assert Ordinary(s[0]) && Spell(s[0]) == Plain(s[0]);
      assert SpellAll(s)[1..] == SpellAll(s[1..]);
      assert s == [s[0]] + s[1..];
    }
  }

  /** A string of ordinary characters is written as itself. */
  lemma OrdinaryIsWrittenAsItself(s: string)
    requires forall c <- s :: Ordinary(c)
    ensures Encode(Str(s)) == "\"" + s + "\""
  {
    OrdinaryText(s);
  }

  /** Every other character is written by its short escape, or by the code of four
      lower-case hex digits where it has none. */
  lemma OthersAreEscaped(c: char)
    requires !Ordinary(c)
    ensures Encode(Str([c])) ==
      var short := if c == '"' || c == '\\' then Some(c)
                   else if c == '\U{8}' then Some('b') else if c == '\U{C}' then Some('f')
                   else if c == '\n' then Some('n') else if c == '\r' then Some('r')
                   else if c == '\t' then Some('t') else None;
      var code := c as int;
      if short.Some? then "\"\\" + [short.value] + "\""
      else "\"\\u" + [HEX[code / 0x1000], HEX[code / 0x100 % 16], HEX[code / 0x10 % 16], HEX[code % 16]] + "\""
  {
    OneCharacter(c);
    if Spell(c).Unit? { CodeText(c as int); }
    hide SpellAll, GlyphsText, HexOf;
  }

  lemma OneCharacter(c: char)
    ensures Encode(Str([c])) == "\"" + GlyphText(Spell(c)) + "\""
  {
    hide Spell, GlyphText;
    assert SpellAll("") == [] && [c][1..] == "";
    assert SpellAll([c]) == [Spell(c)];
    assert [Spell(c)][1..] == [];
    assert GlyphsText([Spell(c)]) == GlyphText(Spell(c));
  }

  lemma CodeText(code: nat)
    requires code < 0x10000
    ensures "\"" + ("\\u" + HexOf(code)) + "\""
         == "\"\\u" + [HEX[code / 0x1000], HEX[code / 0x100 % 16], HEX[code / 0x10 % 16], HEX[code % 16]] + "\""
  {
    Sixteens(code);
  }

  lemma Sixteens(n: nat)
    ensures n / 16 / 16 / 16 == n / 0x1000 && n / 16 / 16 == n / 0x100
  {}

  lemma HexIsSafe(n: nat)
    requires n < 0x10000
    ensures Safe("\\u" + HexOf(n)) && ' ' !in "\\u" + HexOf(n)
  {
    assert forall d | 0 <= d < 16 :: HEX[d] > ' ' && HEX[d] !in "<>&\U{2028}\U{2029}";
    var h := HexOf(n);
    assert forall i | 0 <= i < 4 :: h[i] > ' ' && h[i] !in "<>&\U{2028}\U{2029}";
    hide HexOf;
  }

  lemma SpelledIsSafe(c: char)
    ensures Safe(GlyphText(Spell(c))) && (c != ' ' ==> ' ' !in GlyphText(Spell(c)))
  {
    hide HexOf;
    if Spell(c).Unit? { HexIsSafe(c as int); }
  }

  lemma {:induction false} SpelledAllIsSafe(s: string)
    ensures Safe(GlyphsText(SpellAll(s)))
  {
    if s != "" {
      hide Spell, GlyphText, Safe;
      SpelledIsSafe(s[0]);
      SpelledAllIsSafe(s[1..]);
      assert SpellAll(s)[1..] == SpellAll(s[1..]);
      SafeTogether(GlyphText(Spell(s[0])), GlyphsText(SpellAll(s[1..])));
    } else {
      assert GlyphsText(SpellAll(s)) == "";
    }
  }

  // ----- numbers -----

  predicate Numeric(s: string) { forall c <- s :: T.IsDigit(c) || c in ".eE+-" }

  lemma {:induction false} DigitsAreNumeric(t: string)
    ensures Numeric(t[..CountDigits(t)])
  {
    if t != "" && T.IsDigit(t[0]) {
      DigitsAreNumeric(t[1..]);
      assert t[..CountDigits(t)] == [t[0]] + t[1..][..CountDigits(t[1..])];
    }
  }

  lemma NumericTogether(a: string, b: string)
    requires Numeric(a) && Numeric(b)
    ensures Numeric(a + b)
  {}

  lemma ExponentIsNumeric(t: string)
    requires ExponentSpan(t).Span?
    ensures Numeric(t[..ExponentSpan(t).length])
  {
    if t != "" && (t[0] == 'e' || t[0] == 'E') {
      var sign := if |t| > 1 && (t[1] == '+' || t[1] == '-') then 2 else 1;
      DigitsAreNumeric(t[sign..]);
      assert t[..ExponentSpan(t).length] == t[..sign] + t[sign..][..CountDigits(t[sign..])];
      assert forall c <- t[..sign] :: c == t[0] || c == t[sign - 1];
    }
  }

  lemma FractionIsNumeric(t: string)
    requires FractionSpan(t).Span?
    ensures Numeric(t[..FractionSpan(t).length])
  {
    if t != "" && t[0] == '.' {
      DigitsAreNumeric(t[1..]);
      assert t[..FractionSpan(t).length] == "." + t[1..][..CountDigits(t[1..])];
    }
  }

  lemma UnsignedIsNumeric(t: string)
    requires UnsignedSpan(t).Span?
    ensures Numeric(t[..UnsignedSpan(t).length])
  {
    hide FractionSpan, ExponentSpan, Numeric;
    var whole, u := IntSpan(t).length, t[IntSpan(t).length..];
    var f, v := FractionSpan(u).length, u[FractionSpan(u).length..];
    WholeIsNumeric(t);
    FractionIsNumeric(u);
    ExponentIsNumeric(v);
    var e := ExponentSpan(v).length;
    NumericTogether(t[..whole], u[..f]);
    NumericTogether(t[..whole] + u[..f], v[..e]);
    assert t[..whole + f + e] == t[..whole] + u[..f] + v[..e];
  }

  lemma WholeIsNumeric(t: string)
    requires IntSpan(t).Span?
    ensures Numeric(t[..IntSpan(t).length])
  {
    if t[0] == '0' { assert t[..1] == "0"; } else { DigitsAreNumeric(t); }
  }

  lemma NumberIsNumeric(lit: string)
    requires IsNumber(lit)
    ensures Numeric(lit)
  {
    hide UnsignedSpan;
    if lit[0] == '-' {
      UnsignedIsNumeric(lit[1..]);
      assert lit[1..][..|lit| - 1] == lit[1..] && lit == "-" + lit[1..];
    } else {
      UnsignedIsNumeric(lit);
      assert lit[..|lit|] == lit;
    }
  }

  // ----- values -----

  /** No key and no string of the value holds a blank. */
  predicate Unspaced(v: Value) {
    match v
    case Str(s) => ' ' !in s
    case Arr(items) => forall i | 0 <= i < |items| :: Unspaced(items[i])
    case Obj(fields) => forall k <- fields :: ' ' !in k && Unspaced(fields[k])
    case _ => true
  }

  /** Safe, and without a blank if `tight`. */
  predicate Neat(s: string, tight: bool) { Safe(s) && (tight ==> ' ' !in s) }

  lemma {:induction false} SpelledIsNeat(s: string, tight: bool)
    requires tight ==> ' ' !in s
    ensures Neat(GlyphsText(SpellAll(s)), tight)
  {
    SpelledAllIsSafe(s);
    if tight { SpelledIsTight(s); }
  }

  lemma {:induction false} SpelledIsTight(s: string)
    requires ' ' !in s
    ensures ' ' !in GlyphsText(SpellAll(s))
  {
    if s != "" {
      assert s[0] in s;
      SpelledIsSafe(s[0]);
      hide Spell, GlyphText;
      SpelledIsTight(s[1..]);
      assert SpellAll(s)[1..] == SpellAll(s[1..]);
    }
  }

  lemma NumericIsNeat(s: string)
    requires Numeric(s)
    ensures Neat(s, true)
  {
    forall c <- s ensures c > ' ' && c !in "<>&\U{2028}\U{2029}" {}
  }

  /** A canonical text holds no control character and no markup, and outside strings
      no white space either. */
  lemma {:induction false} CanonicalIsNeat(v: Value, tight: bool)
    requires WellFormed(v) && (tight ==> Unspaced(v))
    ensures Neat(Encode(v), tight)
    decreases v, 1
  {
    hide Neat, SpellAll, IsNumber, LayoutItems, LayoutMembers, ItemsText, MembersText;
    match v
    case Null => WordsAreNeat();
    case Bool(_) => WordsAreNeat();
    case Num(lit) => NumberIsNumeric(lit); NumericIsNeat(lit); NeatEitherWay(lit, tight);
    case Str(s) => SpelledIsNeat(s, tight); QuotedIsNeat(GlyphsText(SpellAll(s)), "\"", "\"", tight);
    case Arr(items) =>
      ItemsAreNeat(items, tight);
      QuotedIsNeat(ItemsText(LayoutItems(items)), "[", "]", tight);
      QuotedIsNeat("", "[", "]", tight);
    case Obj(fields) =>
      MembersAreNeat(v, Sorted(fields.Keys), tight);
      QuotedIsNeat(MembersText(LayoutMembers(v, Sorted(fields.Keys))), "{", "}", tight);
      QuotedIsNeat("", "{", "}", tight);
  }

  lemma NeatEitherWay(s: string, tight: bool)
    requires Neat(s, true)
    ensures Neat(s, tight)
  {}

  lemma WordsAreNeat()
    ensures forall tight :: Neat("null", tight) && Neat("true", tight) && Neat("false", tight)
  {}

  lemma QuotedIsNeat(s: string, open: string, close: string, tight: bool)
    requires s == "" || Neat(s, tight)
    requires (open, close) in {("\"", "\""), ("[", "]"), ("{", "}")}
    ensures Neat(open + s + close, tight)
  {}

  lemma {:induction false} ItemsAreNeat(items: seq<Value>, tight: bool)
    requires forall i | 0 <= i < |items| :: WellFormed(items[i]) && (tight ==> Unspaced(items[i]))
    ensures Neat(ItemsText(LayoutItems(items)), tight)
    decreases items, 2
  {
    if |items| == 0 {
      EmptyIsNeat(tight);
    } else {
      hide Neat, Unspaced, WellFormed, LayoutOf, Text;
      CanonicalIsNeat(items[0], tight);
      ItemsAreNeat(items[1..], tight);
      var i, more := Item("", LayoutOf(items[0]), ""), LayoutItems(items[1..]);
      assert LayoutItems(items)[1..] == more && ItemText(i) == Encode(items[0]);
      CommaIsNeat(Encode(items[0]), ItemsText(more), tight);
      if |items| > 1 { assert |more| > 0; }
    }
  }

  lemma EmptyIsNeat(tight: bool)
    ensures Neat("", tight)
  {}

  lemma CommaIsNeat(a: string, b: string, tight: bool)
    requires Neat(a, tight) && Neat(b, tight)
    ensures Neat(a + "," + b, tight)
  {}

  lemma {:induction false} MembersAreNeat(v: Value, keys: seq<string>, tight: bool)
    requires v.Obj? && WellFormed(v) && (tight ==> Unspaced(v)) && forall k <- keys :: k in v.fields
    ensures Neat(MembersText(LayoutMembers(v, keys)), tight)
    decreases v, 0, |keys|
  {
    match v
    case Obj(fields) =>
      if |keys| == 0 {
        EmptyIsNeat(tight);
      } else {
        assert keys[0] in keys && fields[keys[0]] == v.fields[keys[0]];
        hide Neat, LayoutOf, Text, SpellAll;
        CanonicalIsNeat(fields[keys[0]], tight);
        MembersAreNeat(v, keys[1..], tight);
        SpelledIsNeat(keys[0], tight);
        var m, more := Member("", SpellAll(keys[0]), "", "", LayoutOf(fields[keys[0]]), ""),
          LayoutMembers(v, keys[1..]);
        assert LayoutMembers(v, keys)[1..] == more;
        MemberIsNeat(m, GlyphsText(SpellAll(keys[0])), Encode(fields[keys[0]]), tight);
        CommaIsNeat(MemberText(m), MembersText(more), tight);
        if |keys| > 1 { assert |more| > 0; }
      }
  }

  lemma MemberIsNeat(m: Member, key: string, value: string, tight: bool)
    requires Neat(key, tight) && Neat(value, tight)
    requires m.pre == m.mid == m.gap == m.post == "" && GlyphsText(m.key) == key && Text(m.value) == value
    ensures Neat(MemberText(m), tight)
  {
    assert MemberText(m) == "\"" + key + "\"" + ":" + value;
  }
}
