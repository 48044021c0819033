/** canonicaliseJSON: sorted keys, no white space, the escapes encoding/json uses. */
module JsonCanonical {
  import opened Basics
  import opened Json
  import T = Text
  import opened JsonText
  import opened Order

  // ----- strings -----

  const HEX := "0123456789abcdef"

  function HexOf(n: nat): (h: string)
    requires n < 0x10000
  {
    [HEX[n / 16 / 16 / 16], HEX[n / 16 / 16 % 16], HEX[n / 16 % 16], HEX[n % 16]]
  }

  lemma HexChars()
    ensures forall d | 0 <= d < 16 :: HexDigit(HEX[d]) == d
  {}

  lemma HexOfMeans(n: nat)
    requires n < 0x10000
    ensures IsHex4(HexOf(n)) && Hex4(HexOf(n)) == n
  {
    HexChars();
  }

  /** How encoding/json writes one character. */
  function Spell(c: char): Glyph {
    if c == '"' || c == '\\' then Short(c)
    else if c == '\U{8}' then Short('b')
    else if c == '\U{C}' then Short('f')
    else if c == '\n' then Short('n')
    else if c == '\r' then Short('r')
    else if c == '\t' then Short('t')
    else if c < ' ' || c in "<>&\U{2028}\U{2029}" then Unit(HexOf(c as int))
    else Plain(c)
  }

  lemma SpellMeans(c: char)
    ensures ValidGlyph(Spell(c)) && GlyphChar(Spell(c)) == c
  {
    hide HexOf, IsHex4, Hex4;
    if Spell(c).Unit? {
      HexOfMeans(c as int);
      assert c as int < 0x10000 && !IsSurrogate(c as int);
    }
  }

  function SpellAll(s: string): seq<Glyph> {
    if s == "" then [] else [Spell(s[0])] + SpellAll(s[1..])
  }

  lemma {:induction false} SpellAllMeans(s: string)
    ensures ValidGlyphs(SpellAll(s)) && Chars(SpellAll(s)) == s
  {
    if s != "" {
      SpellMeans(s[0]);
      SpellAllMeans(s[1..]);
      assert SpellAll(s)[1..] == SpellAll(s[1..]);
    }
  }

  // ----- values -----

  /** Every number in the value is a number literal. */
  predicate WellFormed(v: Value) {
    match v
    case Num(lit) => IsNumber(lit)
    case Arr(items) => forall i | 0 <= i < |items| :: WellFormed(items[i])
    case Obj(fields) => forall k <- fields :: WellFormed(fields[k])
    case _ => true
  }

  ghost function LayoutOf(v: Value): Layout
    decreases v, 0
  {
    match v
    case Null => LNull
    case Bool(b) => LBool(b)
    case Num(lit) => LNum(lit)
    case Str(s) => LStr(SpellAll(s))
    case Arr(items) => if |items| == 0 then LEmptyArr("") else LArr(LayoutItems(items))
    case Obj(fields) => if fields.Keys == {} then LEmptyObj("") else LObj(LayoutMembers(v, Sorted(fields.Keys)))
  }

  ghost function LayoutItems(items: seq<Value>): seq<Item>
    decreases items, 1
  {
    if |items| == 0 then [] else [Item("", LayoutOf(items[0]), "")] + LayoutItems(items[1..])
  }

  ghost function LayoutMembers(v: Value, keys: seq<string>): seq<Member>
    requires v.Obj? && forall k <- keys :: k in v.fields
    decreases v, 0, |keys|
  {
    match v
    case Obj(fields) =>
      if |keys| == 0 then []
      else
        assert keys[0] in keys;
        [Member("", SpellAll(keys[0]), "", "", LayoutOf(fields[keys[0]]), "")] + LayoutMembers(v, keys[1..])
  }

  /** The canonical text of a value. */
  ghost function Encode(v: Value): string { Text(LayoutOf(v)) }

  // ----- the canonical layout means the value -----

  lemma {:induction false} LayoutMeans(v: Value)
    requires WellFormed(v)
    ensures Valid(LayoutOf(v)) && Meaning(LayoutOf(v)) == v
    decreases v, 0
  {
    hide ValidItems, ValidMembers, ItemsMeaning, MembersMeaning, LayoutItems, LayoutMembers, SpellAll, IsNumber, Sorted;
    match v
    case Str(s) => SpellAllMeans(s);
    case Arr(items) =>
      LayoutItemsMean(items);
      ArrLayout(items);
    case Obj(fields) =>
      SortedAllDistinct(fields.Keys);
      LayoutMembersMean(v, Sorted(fields.Keys));
      AllKeys(fields);
      ObjLayout(fields);
    case _ =>
  }

  lemma ArrLayout(items: seq<Value>)
    requires ValidItems(LayoutItems(items)) && ItemsMeaning(LayoutItems(items)) == items
      && |LayoutItems(items)| == |items|
    ensures Valid(LayoutOf(Arr(items))) && Meaning(LayoutOf(Arr(items))) == Arr(items)
  {}

  lemma ObjLayout(fields: map<string, Value>)
    requires var members := LayoutMembers(Obj(fields), Sorted(fields.Keys));
      && ValidMembers(members) && MembersMeaning(members) == fields && |members| == |fields.Keys|
    requires fields.Keys == {} ==> fields == map[]
    ensures Valid(LayoutOf(Obj(fields))) && Meaning(LayoutOf(Obj(fields))) == Obj(fields)
  {
    hide ValidMembers, MembersMeaning, LayoutMembers;
  }

  lemma AllKeys(fields: map<string, Value>)
    ensures (map k | k in Sorted(fields.Keys) :: fields[k]) == fields
    ensures fields.Keys == {} ==> fields == map[]
  {}

  lemma {:induction false} LayoutItemsMean(items: seq<Value>)
    requires forall i | 0 <= i < |items| :: WellFormed(items[i])
    ensures ValidItems(LayoutItems(items)) && ItemsMeaning(LayoutItems(items)) == items
    ensures |LayoutItems(items)| == |items|
    decreases items, 1
  {
    if |items| > 0 {
      LayoutMeans(items[0]);
      LayoutItemsMean(items[1..]);
      assert LayoutItems(items)[1..] == LayoutItems(items[1..]);
    }
  }

  lemma {:induction false} LayoutMembersMean(v: Value, keys: seq<string>)
    requires v.Obj? && WellFormed(v) && (forall k <- keys :: k in v.fields)
    requires forall i, j | 0 <= i < j < |keys| :: keys[i] != keys[j]
    ensures ValidMembers(LayoutMembers(v, keys)) && |LayoutMembers(v, keys)| == |keys|
    ensures MembersMeaning(LayoutMembers(v, keys)) == map k | k in keys :: v.fields[k]
    decreases v, 0, |keys|
  {
    match v
    case Obj(fields) =>
      if |keys| > 0 {
        assert keys[0] in keys;
        SpellAllMeans(keys[0]);
        LayoutMeans(fields[keys[0]]);
        LayoutMembersMean(v, keys[1..]);
        assert LayoutMembers(v, keys)[1..] == LayoutMembers(v, keys[1..]);
        PickHead(fields, keys);
      }
  }

  lemma PickHead(fields: map<string, Value>, keys: seq<string>)
    requires |keys| > 0 && (forall k <- keys :: k in fields) && forall j | 0 < j < |keys| :: keys[0] != keys[j]
    ensures map[keys[0] := fields[keys[0]]] + (map k | k in keys[1..] :: fields[k]) == map k | k in keys :: fields[k]
  {
    assert keys == [keys[0]] + keys[1..];
  }

  /** Decoding the canonical text gives back the value, and stops at its end. */
  lemma DecodeEncode(v: Value, rest: string)
    requires WellFormed(v) && (v.Num? ==> Boundary(rest))
    ensures ParseValue(Encode(v) + rest) == Good(v, rest)
  {
    LayoutMeans(v);
    ReadsBack("", LayoutOf(v), rest);
    assert "" + Encode(v) == Encode(v);
  }

  /** So different values have different canonical texts. */
  lemma EncodeInjective(v: Value, u: Value)
    requires WellFormed(v) && WellFormed(u) && Encode(v) == Encode(u)
    ensures v == u
  {
    DecodeEncode(v, "");
    DecodeEncode(u, "");
    assert Encode(v) + "" == Encode(v) && Encode(u) + "" == Encode(u);
  }

  // ----- whatever the decoder accepts is well formed -----

  lemma CountsPrefix(t: string, n: nat)
    requires CountDigits(t) <= n <= |t|
    ensures CountDigits(t[..n]) == CountDigits(t)
  {
    if t != "" && T.IsDigit(t[0]) {
      assert t[..n][1..] == t[1..][..n - 1];
      CountsPrefix(t[1..], n - 1);
    }
  }

  lemma ExponentPrefix(t: string)
    requires ExponentSpan(t).Span?
    ensures ExponentSpan(t[..ExponentSpan(t).length]) == ExponentSpan(t)
  {
    if t != "" && (t[0] == 'e' || t[0] == 'E') {
      var n := ExponentSpan(t).length;
      var sign := if |t| > 1 && (t[1] == '+' || t[1] == '-') then 2 else 1;
      assert sign < n;
      assert t[..n][sign..] == t[sign..][..n - sign];
      CountsPrefix(t[sign..], n - sign);
    }
  }

  lemma DecimalPrefix(t: string)
    requires DecimalSpan(t).Span?
    ensures DecimalSpan(t[..DecimalSpan(t).length]) == DecimalSpan(t)
  {
    var n, f := DecimalSpan(t).length, FractionSpan(t).length;
    ExponentPrefix(t[f..]);
    assert t[..n][f..] == t[f..][..n - f];
    if t != "" && t[0] == '.' {
      assert t[..n][1..] == t[1..][..n - 1];
      CountsPrefix(t[1..], n - 1);
    } else if f < n {
      assert t[..n][0] == t[0];
    }
  }

  lemma UnsignedPrefix(t: string)
    requires UnsignedSpan(t).Span?
    ensures UnsignedSpan(t[..UnsignedSpan(t).length]) == UnsignedSpan(t)
  {
    hide DecimalSpan;
    var n, whole := UnsignedSpan(t).length, IntSpan(t).length;
    if t[0] != '0' { CountsPrefix(t, n); }
    assert t[..n][0] == t[0];
    DecimalPrefix(t[whole..]);
    assert t[..n][whole..] == t[whole..][..n - whole];
  }

  /** The literal read is itself a number literal. */
  lemma NumberPrefix(t: string)
    requires NumberSpan(t).Span?
    ensures IsNumber(t[..NumberSpan(t).length])
  {
    hide UnsignedSpan;
    if t[0] == '-' {
      UnsignedPrefix(t[1..]);
      var n := NumberSpan(t).length;
      assert t[..n][1..] == t[1..][..n - 1];
    } else {
      UnsignedPrefix(t);
    }
  }

  lemma {:induction false} ParsedIsWellFormed(t: string)
    ensures ParseValue(t).Good? ==> WellFormed(ParseValue(t).value)
    decreases |t|, 1
  {
    hide Skip, ParseAt;
    if Skip(t) != "" { AtIsWellFormed(Skip(t)); }
  }

  lemma {:induction false} AtIsWellFormed(s: string)
    requires s != ""
    ensures ParseAt(s).Good? ==> WellFormed(ParseAt(s).value)
    decreases |s|, 0
  {
    hide ParseArray, ParseObject, ParseChars, NumberSpan, IsNumber;
    if s[0] == '[' { ArrayIsWellFormed(s[1..]); }
    else if s[0] == '{' { ObjectIsWellFormed(s[1..]); }
    else if NumberSpan(s).Span? { NumberPrefix(s); }
  }

  lemma {:induction false} ArrayIsWellFormed(t: string)
    ensures ParseArray(t).Good? ==> WellFormed(ParseArray(t).value)
    decreases |t|, 3
  {
    if ParseItems(t).Good? { ItemsAreWellFormed(t); }
  }

  lemma {:induction false} ItemsAreWellFormed(t: string)
    requires ParseItems(t).Good?
    ensures forall v <- ParseItems(t).value :: WellFormed(v)
    decreases |t|, 2
  {
    ParsedIsWellFormed(t);
    var s := Skip(ParseValue(t).rest);
    if s[0] == ',' { ItemsAreWellFormed(s[1..]); }
  }

  lemma {:induction false} ObjectIsWellFormed(t: string)
    ensures ParseObject(t).Good? ==> WellFormed(ParseObject(t).value)
    decreases |t|, 3
  {
    if ParseMembers(t).Good? { MembersAreWellFormed(t); }
  }

  lemma {:induction false} MembersAreWellFormed(t: string)
    requires ParseMembers(t).Good?
    ensures forall k <- ParseMembers(t).value :: WellFormed(ParseMembers(t).value[k])
    decreases |t|, 2
  {
    var u := Skip(ParseChars(Skip(t)[1..]).rest);
    ParsedIsWellFormed(u[1..]);
    var e := Skip(ParseValue(u[1..]).rest);
    if e[0] == ',' { MembersAreWellFormed(e[1..]); }
  }

  // ----- canonicaliseJSON -----

  /** The canonical form of a text, if it starts with a JSON value. */
  ghost function Canonical(raw: string): Option<string> {
    match ParseValue(raw)
    case Bad => None
    case Good(v, _) => Some(Encode(v))
  }

  /** Canonicalising twice is canonicalising once. */
  lemma CanonicalIdempotent(raw: string)
    requires Canonical(raw).Some?
    ensures Canonical(Canonical(raw).value) == Canonical(raw)
  {
    ParsedIsWellFormed(raw);
    var v := ParseValue(raw).value;
    DecodeEncode(v, "");
    assert Encode(v) + "" == Encode(v);
  }

  /** Two ways of writing one value have one canonical form, and two values
      have two: white space, spelling and member order do not matter, anything
      else does. */
  lemma CanonicalIgnoresLayout(a: Layout, b: Layout)
    requires Valid(a) && Valid(b)
    ensures Canonical(Text(a)).Some? && Canonical(Text(b)).Some?
    ensures Canonical(Text(a)) == Canonical(Text(b)) <==> Meaning(a) == Meaning(b)
  {
    ReadsBack("", a, "");
    ReadsBack("", b, "");
    assert "" + Text(a) + "" == Text(a) && "" + Text(b) + "" == Text(b);
    ParsedIsWellFormed(Text(a));
    ParsedIsWellFormed(Text(b));
    if Canonical(Text(a)) == Canonical(Text(b)) { EncodeInjective(Meaning(a), Meaning(b)); }
  }

  lemma MembersCommute(before: seq<Member>, m: Member, n: Member, after: seq<Member>)
    requires ValidMembers(before + [m, n] + after) && ValidMembers(before + [n, m] + after)
    requires ValidGlyphs(m.key) && ValidGlyphs(n.key) && Chars(m.key) != Chars(n.key)
    ensures MembersMeaning(before + [m, n] + after) == MembersMeaning(before + [n, m] + after)
    decreases |before|
  {
    hide ValidGlyphs, Chars, Meaning, Valid, Blank;
    var x, y := before + [m, n] + after, before + [n, m] + after;
    if |before| > 0 {
      assert x[1..] == before[1..] + [m, n] + after && y[1..] == before[1..] + [n, m] + after;
      MembersCommute(before[1..], m, n, after);
    } else {
      assert x[1..] == [n] + after && y[1..] == [m] + after;
      assert x[1..][1..] == after && y[1..][1..] == after;
    }
  }

  /** Members with different keys may be written in either order: the canonical
      form is the same. */
  lemma MemberOrderIsLayout(before: seq<Member>, m: Member, n: Member, after: seq<Member>)
    requires ValidMembers(before + [m, n] + after) && ValidMembers(before + [n, m] + after)
    requires ValidGlyphs(m.key) && ValidGlyphs(n.key) && Chars(m.key) != Chars(n.key)
    ensures Canonical(Text(LObj(before + [m, n] + after))) == Canonical(Text(LObj(before + [n, m] + after)))
  {
    hide Canonical, Text, ValidMembers, MembersMeaning;
    MembersCommute(before, m, n, after);
    CanonicalIgnoresLayout(LObj(before + [m, n] + after), LObj(before + [n, m] + after));
  }
}
