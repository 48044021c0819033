/** The decoder accepts nothing but JSON: whatever it reads is one of the ways to
    write the value it gives. */
module JsonSound {
  import opened Basics
  import opened Json
  import opened JsonText
  import opened JsonCanonical
  import T = Text

  // ----- strings -----

  lemma {:induction false} CharsAreWritten(t: string) returns (gs: seq<Glyph>)
    requires ParseChars(t).Good?
    ensures ValidGlyphs(gs) && Chars(gs) == ParseChars(t).value
    ensures t == GlyphsText(gs) + "\"" + ParseChars(t).rest
    decreases |t|
  {
    if t[0] == '"' {
      gs := [];
      assert t == "" + "\"" + t[1..];
    } else {
      var g := FirstGlyph(t);
      var more := CharsAreWritten(t[|GlyphText(g)|..]);
      gs := [g] + more;
      Prepended(t, g, more);
    }
  }

  /** The glyph at the start of a string that is read. */
  lemma FirstGlyph(t: string) returns (g: Glyph)
    requires ParseChars(t).Good? && t[0] != '"'
    ensures ValidGlyph(g) && GlyphText(g) <= t && (g.Half? && IsHigh(Hex4(g.hex)) ==> !LowNext(t[|GlyphText(g)|..]))
    ensures ParseChars(t) == Push(GlyphChar(g), ParseChars(t[|GlyphText(g)|..])) && |GlyphText(g)| > 0
  {
    if t[0] != '\\' {
      g := Plain(t[0]);
    } else if IsEscape(t[1]) {
      g := Short(t[1]);
    } else {
      g := FirstUnit(t);
    }
  }

  lemma FirstUnit(t: string) returns (g: Glyph)
    requires ParseChars(t).Good? && t[0] == '\\' && !IsEscape(t[1])
    ensures ValidGlyph(g) && GlyphText(g) <= t && (g.Half? && IsHigh(Hex4(g.hex)) ==> !LowNext(t[|GlyphText(g)|..]))
    ensures ParseChars(t) == Push(GlyphChar(g), ParseChars(t[|GlyphText(g)|..])) && |GlyphText(g)| > 0
  {
    hide IsHex4, Hex4, Combine, Push;
    var hex := t[2..6];
    assert t[..2] == "\\u" && t[..6] == "\\u" + hex;
    if !IsSurrogate(Hex4(hex)) {
      g := Unit(hex);
    } else if |t| >= 12 && IsHigh(Hex4(hex)) && t[6..8] == "\\u" && IsHex4(t[8..12]) && IsLow(Hex4(t[8..12])) {
      g := Pair(hex, t[8..12]);
      assert t[..12] == "\\u" + hex + "\\u" + t[8..12];
    } else {
      g := Half(hex);
      var tail := t[6..];
      if LowNext(tail) { assert tail[..2] == t[6..8] && tail[2..6] == t[8..12]; }
    }
  }

  lemma Prepended(t: string, g: Glyph, more: seq<Glyph>)
    requires ValidGlyph(g) && GlyphText(g) <= t && ValidGlyphs(more) && |GlyphText(g)| > 0
    requires var tail := t[|GlyphText(g)|..];
      && ParseChars(t) == Push(GlyphChar(g), ParseChars(tail)) && ParseChars(tail).Good?
      && Chars(more) == ParseChars(tail).value && tail == GlyphsText(more) + "\"" + ParseChars(tail).rest
      && (g.Half? && IsHigh(Hex4(g.hex)) ==> !LowNext(tail))
    ensures ValidGlyphs([g] + more) && Chars([g] + more) == ParseChars(t).value
    ensures t == GlyphsText([g] + more) + "\"" + ParseChars(t).rest
  {
    hide ParseChars, LowNext, IsHex4, Hex4, GlyphChar, GlyphText;
    var tail, gs := t[|GlyphText(g)|..], [g] + more;
    assert gs[0] == g && gs[1..] == more && t == GlyphText(g) + tail;
    if |more| > 0 {
      assert gs[1] == more[0];
      if Joins(g, more[0]) {
        var rest := GlyphsText(more[1..]) + "\"" + ParseChars(tail).rest;
        assert tail == GlyphText(more[0]) + rest;
        LowHalfStarts(more[0], rest);
      }
    }
  }

  lemma LowHalfStarts(g: Glyph, rest: string)
    requires ValidGlyph(g) && g.Half? && IsLow(Hex4(g.hex))
    ensures LowNext(GlyphText(g) + rest)
  {
    hide Hex4;
    var t := GlyphText(g) + rest;
    assert |g.hex| == 4 && t[..2] == "\\u" && t[2..6] == g.hex;
  }

  // ----- values -----

  /** White space and what follows it. */
  lemma {:induction false} Skipped(t: string) returns (pre: string)
    ensures Blank(pre) && t == pre + Skip(t)
  {
    pre := "";
    if t != "" && IsBlank(t[0]) {
      var more := Skipped(t[1..]);
      pre := [t[0]] + more;
      assert t == [t[0]] + t[1..];
    }
  }

  lemma {:induction false} ValueIsWritten(t: string) returns (pre: string, l: Layout)
    requires ParseValue(t).Good?
    ensures Blank(pre) && Valid(l) && Meaning(l) == ParseValue(t).value && t == pre + Text(l) + ParseValue(t).rest
    decreases |t|, 1
  {
    hide ParseAt, Text, Valid, Meaning;
    pre := Skipped(t);
    l := ValueAtIsWritten(Skip(t));
    assert pre + (Text(l) + ParseValue(t).rest) == pre + Text(l) + ParseValue(t).rest;
  }

  lemma {:induction false} ValueAtIsWritten(s: string) returns (l: Layout)
    requires s != "" && ParseAt(s).Good?
    ensures Valid(l) && Meaning(l) == ParseAt(s).value && s == Text(l) + ParseAt(s).rest
    decreases |s|, 0
  {
    hide ParseArray, ParseObject, ParseString, ParseNumber, ParseWord;
    if s[0] == 'n' { l := LNull; WordIsWritten(s, "null", Null); }
    else if s[0] == 't' { l := LBool(true); WordIsWritten(s, "true", Bool(true)); }
    else if s[0] == 'f' { l := LBool(false); WordIsWritten(s, "false", Bool(false)); }
    else if s[0] == '"' { l := StringIsWritten(s); }
    else if s[0] == '[' { l := ArrayIsWritten(s[1..]); assert s == "[" + s[1..]; }
    else if s[0] == '{' { l := ObjectIsWritten(s[1..]); assert s == "{" + s[1..]; }
    else { l := NumberIsWritten(s); }
  }

  lemma WordIsWritten(s: string, word: string, v: Value)
    requires word != "" && ParseWord(s, word, v).Good?
    ensures ParseWord(s, word, v).value == v && s == word + ParseWord(s, word, v).rest
  {}

  lemma NumberIsWritten(s: string) returns (l: Layout)
    requires ParseNumber(s).Good?
    ensures Valid(l) && Meaning(l) == ParseNumber(s).value && s == Text(l) + ParseNumber(s).rest
  {
    hide NumberSpan;
    NumberPrefix(s);
    l := LNum(s[..NumberSpan(s).length]);
  }

  lemma StringIsWritten(s: string) returns (l: Layout)
    requires s != "" && s[0] == '"' && ParseString(s).Good?
    ensures Valid(l) && Meaning(l) == ParseString(s).value && s == Text(l) + ParseString(s).rest
  {
    hide ParseChars, GlyphsText, ValidGlyphs, Chars;
    var gs := CharsAreWritten(s[1..]);
    l := LStr(gs);
    assert s == "\"" + s[1..];
    Regroup("\"", GlyphsText(gs), "\"", ParseString(s).rest);
  }

  lemma Closed(t: string, pad: string, close: string)
    requires t == pad + Skip(t) && Skip(t) != "" && close == [Skip(t)[0]]
    ensures t == pad + close + Skip(t)[1..]
  {
    hide Skip;
    var u := Skip(t);
    assert u == close + u[1..];
  }

  lemma {:induction false} ArrayIsWritten(t: string) returns (l: Layout)
    requires ParseArray(t).Good?
    ensures Valid(l) && Meaning(l) == ParseArray(t).value && "[" + t == Text(l) + ParseArray(t).rest
    decreases |t|, 4
  {
    hide ParseItems, ItemsText, ValidItems, ItemsMeaning, Blank;
    var u := Skip(t);
    if u != "" && u[0] == ']' {
      var pad := Skipped(t);
      l := LEmptyArr(pad);
      Closed(t, pad, "]");
      Regroup("[", pad, "]", u[1..]);
    } else {
      var items := ItemsAreWritten(t);
      l := LArr(items);
      Regroup("[", ItemsText(items), "]", ParseItems(t).rest);
    }
  }

  lemma {:induction false} ObjectIsWritten(t: string) returns (l: Layout)
    requires ParseObject(t).Good?
    ensures Valid(l) && Meaning(l) == ParseObject(t).value && "{" + t == Text(l) + ParseObject(t).rest
    decreases |t|, 4
  {
    hide ParseMembers, MembersText, ValidMembers, MembersMeaning, Blank;
    var u := Skip(t);
    if u != "" && u[0] == '}' {
      var pad := Skipped(t);
      l := LEmptyObj(pad);
      Closed(t, pad, "}");
      Regroup("{", pad, "}", u[1..]);
    } else {
      var members := MembersAreWritten(t);
      l := LObj(members);
      Regroup("{", MembersText(members), "}", ParseMembers(t).rest);
    }
  }

  /** An item and the separator after it. */
  lemma {:induction false} ItemIsWritten(t: string) returns (i: Item)
    requires ParseValue(t).Good?
    ensures Blank(i.pre) && Blank(i.post) && Valid(i.value) && Meaning(i.value) == ParseValue(t).value
    ensures t == ItemText(i) + Skip(ParseValue(t).rest)
    decreases |t|, 2
  {
    hide ParseValue, Text, Valid, Meaning;
    var pre, l := ValueIsWritten(t);
    var post := Skipped(ParseValue(t).rest);
    i := Item(pre, l, post);
    ItemSplit(i, Skip(ParseValue(t).rest));
  }

  lemma {:induction false} ItemsAreWritten(t: string) returns (items: seq<Item>)
    requires ParseItems(t).Good?
    ensures |items| > 0 && ValidItems(items) && ItemsMeaning(items) == ParseItems(t).value
    ensures t == ItemsText(items) + "]" + ParseItems(t).rest
    decreases |t|, 3
  {
    hide ParseValue, Valid, Meaning, ItemText, Blank, Skip;
    var i := ItemIsWritten(t);
    var s := Skip(ParseValue(t).rest);
    if s[0] == ']' {
      items := [i];
      assert s == "]" + s[1..] && items[1..] == [];
      assert t == ItemText(i) + "]" + s[1..];
    } else {
      var more := ItemsAreWritten(s[1..]);
      items := [i] + more;
      assert items[1..] == more && s == "," + s[1..];
      Regroup3(ItemText(i), ItemsText(more), "]", ParseItems(t).rest);
    }
  }

  lemma {:induction false} MemberIsWritten(t: string) returns (m: Member)
    requires Skip(t) != "" && Skip(t)[0] == '"' && ParseChars(Skip(t)[1..]).Good?
    requires var u := Skip(ParseChars(Skip(t)[1..]).rest); u != "" && u[0] == ':' && ParseValue(u[1..]).Good?
    ensures Blank(m.pre) && Blank(m.mid) && Blank(m.gap) && Blank(m.post) && ValidGlyphs(m.key) && Valid(m.value)
    ensures var u := Skip(ParseChars(Skip(t)[1..]).rest);
      && Chars(m.key) == ParseChars(Skip(t)[1..]).value && Meaning(m.value) == ParseValue(u[1..]).value
      && t == MemberText(m) + Skip(ParseValue(u[1..]).rest)
    decreases |t|, 2
  {
    hide ParseValue, ParseChars, Text, Valid, Meaning, GlyphsText, ValidGlyphs, Chars, MemberText, Blank;
    var s := Skip(t);
    var key := CharsAreWritten(s[1..]);
    var afterKey := ParseChars(s[1..]).rest;
    var u := Skip(afterKey);
    var gap, l := ValueIsWritten(u[1..]);
    var pre := Skipped(t);
    var mid := Skipped(afterKey);
    var e := Skip(ParseValue(u[1..]).rest);
    var post := Skipped(ParseValue(u[1..]).rest);
    m := Member(pre, key, mid, gap, l, post);
    assert u == ":" + AfterColon(m, e) by { assert u == ":" + u[1..]; }
    assert s == "\"" + (GlyphsText(key) + "\"" + AfterKey(m, e)) by { assert s == "\"" + s[1..]; }
    MemberSplit(m, e);
  }

  lemma {:induction false} MembersAreWritten(t: string) returns (members: seq<Member>)
    requires ParseMembers(t).Good?
    ensures |members| > 0 && ValidMembers(members) && MembersMeaning(members) == ParseMembers(t).value
    ensures t == MembersText(members) + "}" + ParseMembers(t).rest
    decreases |t|, 3
  {
    hide ParseValue, ParseChars, Valid, Meaning, ValidGlyphs, Chars, MemberText, Blank, Skip;
    var m := MemberIsWritten(t);
    var e := Skip(ParseValue(Skip(ParseChars(Skip(t)[1..]).rest)[1..]).rest);
    if e[0] == '}' {
      members := [m];
      assert e == "}" + e[1..] && members[1..] == [];
      assert t == MemberText(m) + "}" + e[1..];
      assert map[Chars(m.key) := Meaning(m.value)] + map[] == map[Chars(m.key) := Meaning(m.value)];
    } else {
      var more := MembersAreWritten(e[1..]);
      members := [m] + more;
      assert members[1..] == more && e == "," + e[1..];
      Regroup3(MemberText(m), MembersText(more), "}", ParseMembers(t).rest);
    }
  }

  // ----- what is accepted -----

  /** `t` starts, after white space, with a way to write `v`, and goes on with `rest`. */
  ghost predicate StartsWith(t: string, v: Value, rest: string) {
    exists pre: string, l: Layout :: Blank(pre) && Valid(l) && Meaning(l) == v && t == pre + Text(l) + rest
  }

  /** `t` is a way to write `v`, in white space. */
  ghost predicate Writes(t: string, v: Value) {
    exists post: string :: Blank(post) && StartsWith(t, v, post)
  }

  /** Whatever is read is there: the decoder accepts no text that does not start with
      a way to write the value it gives. */
  lemma AcceptedIsWritten(t: string)
    requires ParseValue(t).Good?
    ensures StartsWith(t, ParseValue(t).value, ParseValue(t).rest)
  {
    var pre, l := ValueIsWritten(t);
  }

  /** So a whole text is read as a value exactly when it is a way to write it. */
  lemma ReadExactlyWhenWritten(t: string, v: Value)
    ensures (ParseValue(t).Good? && ParseValue(t).value == v && Blank(ParseValue(t).rest)) <==> Writes(t, v)
  {
    if ParseValue(t).Good? { AcceptedIsWritten(t); }
    if Writes(t, v) {
      var post: string :| Blank(post) && StartsWith(t, v, post);
      var pre: string, l: Layout :| Blank(pre) && Valid(l) && Meaning(l) == v && t == pre + Text(l) + post;
      assert post != "" ==> post[0] in post;
      ReadsBack(pre, l, post);
    }
  }

  /** A text has a canonical form only if it starts with a value, and it is that of
      the value. */
  lemma CanonicalOnlyOfValues(raw: string)
    ensures Canonical(raw).Some? ==>
      exists v: Value, rest: string :: StartsWith(raw, v, rest) && WellFormed(v) && Canonical(raw) == Some(Encode(v))
  {
    if Canonical(raw).Some? {
      AcceptedIsWritten(raw);
      ParsedIsWellFormed(raw);
    }
  }

  // ----- white space and numbers -----

  /** White space is what section 2 of RFC 8259 lists, and nothing else. */
  lemma WhiteSpaceExactly(c: char)
    ensures IsBlank(c) <==> c as int in {0x20, 0x09, 0x0A, 0x0D}
  {}

  predicate IsWhole(s: string) { s == "0" || (s != "" && T.AllDigits(s) && s[0] != '0') }

  predicate IsFraction(s: string) { s == "" || (|s| > 1 && s[0] == '.' && T.AllDigits(s[1..])) }

  predicate IsExponent(s: string) {
    || s == ""
    || (|s| > 1 && s[0] in "eE" && T.AllDigits(s[1..]))
    || (|s| > 2 && s[0] in "eE" && s[1] in "+-" && T.AllDigits(s[2..]))
  }

  /** Section 6 of RFC 8259: a sign, a whole number without leading zeros, a fraction
      and an exponent, all but the second optional. */
  ghost predicate IsNumberText(lit: string) {
    exists sign: string, whole: string, fraction: string, exponent: string ::
      && sign in {"", "-"} && IsWhole(whole) && IsFraction(fraction) && IsExponent(exponent)
      && lit == sign + whole + fraction + exponent
  }

  lemma {:induction false} CountsTo(digits: string, rest: string)
    requires T.AllDigits(digits) && (rest == "" || !T.IsDigit(rest[0]))
    ensures CountDigits(digits + rest) == |digits|
  {
    if digits == "" {
      assert digits + rest == rest;
    } else {
      assert (digits + rest)[1..] == digits[1..] + rest;
      CountsTo(digits[1..], rest);
    }
  }

  lemma {:induction false} CountedAreDigits(t: string)
    ensures T.AllDigits(t[..CountDigits(t)])
  {
    if t != "" && T.IsDigit(t[0]) {
      CountedAreDigits(t[1..]);
      assert t[..CountDigits(t)] == [t[0]] + t[1..][..CountDigits(t[1..])];
    }
  }

  lemma ExponentExactly(t: string)
    ensures ExponentSpan(t) == Span(|t|) <==> IsExponent(t)
  {
    if t != "" && t[0] in "eE" {
      var sign := if |t| > 1 && (t[1] == '+' || t[1] == '-') then 2 else 1;
      CountedAreDigits(t[sign..]);
      if T.AllDigits(t[sign..]) { CountsTo(t[sign..], ""); assert t[sign..] + "" == t[sign..]; }
      if sign == 2 { assert t[1] == t[1..][0] && !T.IsDigit(t[1]) && t[1] in t[1..]; }
      if CountDigits(t[sign..]) == |t[sign..]| { assert t[sign..][..|t[sign..]|] == t[sign..]; }
    }
  }

  /** Nothing an exponent starts with, and no exponent, is a digit or a point. */
  lemma FractionEnds(fraction: string, exponent: string)
    requires IsFraction(fraction) && IsExponent(exponent)
    ensures FractionSpan(fraction + exponent) == Span(|fraction|)
  {
    if fraction != "" {
      assert (fraction + exponent)[1..] == fraction[1..] + exponent;
      CountsTo(fraction[1..], exponent);
    }
  }

  lemma WholeEnds(whole: string, rest: string)
    requires IsWhole(whole) && (rest == "" || !T.IsDigit(rest[0]))
    ensures IntSpan(whole + rest) == Span(|whole|)
  {
    assert (whole + rest)[0] == whole[0] && whole[0] in whole;
    if whole != "0" { CountsTo(whole, rest); }
  }

  lemma UnsignedReads(whole: string, fraction: string, exponent: string)
    requires IsWhole(whole) && IsFraction(fraction) && IsExponent(exponent)
    ensures UnsignedSpan(whole + fraction + exponent) == Span(|whole| + |fraction| + |exponent|)
  {
    var decimal := fraction + exponent;
    assert whole + fraction + exponent == whole + decimal;
    WholeEnds(whole, decimal);
    assert (whole + decimal)[|whole|..] == decimal;
    FractionEnds(fraction, exponent);
    assert decimal[|fraction|..] == exponent;
    ExponentExactly(exponent);
    hide IsWhole, IsFraction, IsExponent, IntSpan, FractionSpan, ExponentSpan;
  }

  lemma UnsignedSplits(t: string) returns (whole: string, fraction: string, exponent: string)
    requires UnsignedSpan(t) == Span(|t|)
    ensures IsWhole(whole) && IsFraction(fraction) && IsExponent(exponent) && t == whole + fraction + exponent
  {
    hide IsWhole, IsFraction, IsExponent, IntSpan, FractionSpan, ExponentSpan;
    var i := IntSpan(t).length;
    var decimal := t[i..];
    var f := FractionSpan(decimal).length;
    whole, fraction, exponent := t[..i], decimal[..f], decimal[f..];
    WholeSplits(t);
    FractionSplits(decimal);
    ExponentExactly(exponent);
    Rejoined(t, i, f);
  }

  lemma Rejoined(t: string, i: nat, f: nat)
    requires i + f <= |t|
    ensures t == t[..i] + t[i..][..f] + t[i..][f..]
  {}

  lemma WholeSplits(t: string)
    requires IntSpan(t).Span?
    ensures IsWhole(t[..IntSpan(t).length])
  {
    if t[0] == '0' { assert t[..1] == "0"; } else { CountedAreDigits(t); }
  }

  lemma FractionSplits(t: string)
    requires FractionSpan(t).Span?
    ensures IsFraction(t[..FractionSpan(t).length])
  {
    if t != "" && t[0] == '.' {
      CountedAreDigits(t[1..]);
      assert t[..FractionSpan(t).length][1..] == t[1..][..CountDigits(t[1..])];
    }
  }

  lemma NumberSplits(lit: string)
    requires IsNumber(lit)
    ensures IsNumberText(lit)
  {
    hide UnsignedSpan, IsFraction, IsExponent, IsWhole;
    NumberStarts(lit);
    var sign := if lit[0] == '-' then "-" else "";
    var whole, fraction, exponent := UnsignedSplits(lit[|sign|..]);
    assert lit == sign + whole + fraction + exponent;
  }

  lemma NumberJoins(lit: string)
    requires IsNumberText(lit)
    ensures IsNumber(lit)
  {
    hide UnsignedSpan, IsFraction, IsExponent;
    var sign: string, whole: string, fraction: string, exponent: string :|
      && sign in {"", "-"} && IsWhole(whole) && IsFraction(fraction) && IsExponent(exponent)
      && lit == sign + whole + fraction + exponent;
    UnsignedReads(whole, fraction, exponent);
    assert lit == sign + (whole + fraction + exponent);
    assert lit[|sign|..] == whole + fraction + exponent;
    if sign == "" { assert lit[0] == whole[0] && whole[0] in whole; }
  }

  /** The literals read as numbers are those of the grammar. */
  lemma NumberExactlyWhen(lit: string)
    ensures IsNumber(lit) <==> IsNumberText(lit)
  {
    if IsNumber(lit) { NumberSplits(lit); }
    if IsNumberText(lit) { NumberJoins(lit); }
  }
}
