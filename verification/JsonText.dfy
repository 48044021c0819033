/** Every way a JSON value can be written, and the proof that the parser reads
    each of them back as the value it means. */
module JsonText {
  import opened Json
  import T = Text

  /** One way to write one character of a string. Half of a surrogate pair stands for
      the replacement character. */
  datatype Glyph =
    | Plain(c: char)
    | Short(letter: char)
    | Unit(hex: string)
    | Pair(hi: string, lo: string)
    | Half(hex: string)

  predicate ValidGlyph(g: Glyph) {
    match g
    case Plain(c) => c >= ' ' && c != '"' && c != '\\'
    case Short(letter) => IsEscape(letter)
    case Unit(hex) => IsHex4(hex) && !IsSurrogate(Hex4(hex))
    case Pair(hi, lo) => IsHex4(hi) && IsHex4(lo) && IsHigh(Hex4(hi)) && IsLow(Hex4(lo))
    case Half(hex) => IsHex4(hex) && IsSurrogate(Hex4(hex))
  }

  /** Two halves that would be read as one pair. */
  predicate Joins(g: Glyph, h: Glyph)
    requires ValidGlyph(g) && ValidGlyph(h)
  {
    g.Half? && h.Half? && IsHigh(Hex4(g.hex)) && IsLow(Hex4(h.hex))
  }

  function GlyphText(g: Glyph): string {
    match g
    case Plain(c) => [c]
    case Short(letter) => ['\\', letter]
    case Unit(hex) => "\\u" + hex
    case Pair(hi, lo) => "\\u" + hi + "\\u" + lo
    case Half(hex) => "\\u" + hex
  }

  function GlyphChar(g: Glyph): char
    requires ValidGlyph(g)
  {
    match g
    case Plain(c) => c
    case Short(letter) => Unescape(letter)
    case Unit(hex) => Hex4(hex) as char
    case Pair(hi, lo) => Combine(Hex4(hi), Hex4(lo))
    case Half(_) => REPLACEMENT
  }

  predicate ValidGlyphs(gs: seq<Glyph>) {
    |gs| == 0 || (ValidGlyph(gs[0]) && ValidGlyphs(gs[1..]) && (|gs| > 1 ==> ValidGlyph(gs[1]) && !Joins(gs[0], gs[1])))
  }

  function GlyphsText(gs: seq<Glyph>): string {
    if |gs| == 0 then "" else GlyphText(gs[0]) + GlyphsText(gs[1..])
  }

  function Chars(gs: seq<Glyph>): string
    requires ValidGlyphs(gs)
  {
    if |gs| == 0 then "" else [GlyphChar(gs[0])] + Chars(gs[1..])
  }

  /** The escape of a low surrogate comes next. */
  predicate LowNext(t: string) {
    |t| >= 6 && t[..2] == "\\u" && IsHex4(t[2..6]) && IsLow(Hex4(t[2..6]))
  }

  lemma ParsesGlyph(g: Glyph, tail: string)
    requires ValidGlyph(g) && (g.Half? && IsHigh(Hex4(g.hex)) ==> !LowNext(tail))
    ensures ParseChars(GlyphText(g) + tail) == Push(GlyphChar(g), ParseChars(tail))
  {
    var t := GlyphText(g) + tail;
    match g
    case Plain(c) => assert t[1..] == tail;
    case Short(letter) => assert t[2..] == tail;
    case Unit(hex) => ParsesUnit(hex, tail);
    case Pair(hi, lo) => ParsesPair(hi, lo, tail);
    case Half(hex) => ParsesHalf(hex, tail);
  }

  lemma ParsesHalf(hex: string, tail: string)
    requires ValidGlyph(Half(hex)) && (IsHigh(Hex4(hex)) ==> !LowNext(tail))
    ensures ParseChars(GlyphText(Half(hex)) + tail) == Push(REPLACEMENT, ParseChars(tail))
  {
    assert |hex| == 4;
    hide IsHex4, Hex4;
    var t := GlyphText(Half(hex)) + tail;
    assert t[2..6] == hex && t[6..] == tail;
    if |t| >= 12 { assert t[6..8] == tail[..2] && t[8..12] == tail[2..6]; }
  }

  /** After a high half no low one follows. */
  lemma NothingToJoin(gs: seq<Glyph>, rest: string)
    requires ValidGlyphs(gs) && |gs| > 0 && gs[0].Half? && IsHigh(Hex4(gs[0].hex))
    ensures !LowNext(GlyphsText(gs[1..]) + "\"" + rest)
  {
    hide LowNext, GlyphText, IsHex4, Hex4;
    if |gs| > 1 {
      var g, more := gs[1], GlyphsText(gs[1..][1..]) + "\"" + rest;
      assert gs[1..][0] == g;
      assert GlyphsText(gs[1..]) + "\"" + rest == GlyphText(g) + more;
      StartsLow(g, more);
    } else {
      QuoteStarts(rest);
      assert GlyphsText(gs[1..]) + "\"" + rest == "\"" + rest;
    }
  }

  lemma QuoteStarts(rest: string)
    ensures !LowNext("\"" + rest)
  {
    var t := "\"" + rest;
    if |t| >= 2 { assert t[..2][0] == '"'; }
  }

  /** Of all ways to write a character only a low half starts with the escape of one. */
  lemma StartsLow(g: Glyph, more: string)
    requires ValidGlyph(g)
    ensures LowNext(GlyphText(g) + more) ==> g.Half? && IsLow(Hex4(g.hex))
  {
    var t := GlyphText(g) + more;
    if |t| >= 6 { assert t[0] == t[..2][0] && t[1] == t[..2][1]; }
    match g
    case Plain(_) =>
    case Short(_) =>
    case Unit(hex) => assert t[2..6] == hex;
    case Pair(hi, lo) => assert t[2..6] == hi;
    case Half(hex) => assert t[2..6] == hex;
  }

  lemma ParsesUnit(hex: string, tail: string)
    requires ValidGlyph(Unit(hex))
    ensures ParseChars(GlyphText(Unit(hex)) + tail) == Push(Hex4(hex) as char, ParseChars(tail))
  {
    assert |hex| == 4;
    hide IsHex4, Hex4;
    var t := GlyphText(Unit(hex)) + tail;
    assert t[2..6] == hex && t[6..] == tail;
  }

  lemma ParsesPair(hi: string, lo: string, tail: string)
    requires ValidGlyph(Pair(hi, lo))
    ensures ParseChars(GlyphText(Pair(hi, lo)) + tail) == Push(Combine(Hex4(hi), Hex4(lo)), ParseChars(tail))
  {
    hide Combine;
    var t := GlyphText(Pair(hi, lo)) + tail;
    assert t[2..6] == hi && t[6..8] == "\\u" && t[8..12] == lo && t[12..] == tail;
  }

  lemma StringCloses(rest: string)
    ensures ParseChars("\"" + rest) == Good("", rest)
  {
    assert ("\"" + rest)[1..] == rest;
  }

  lemma {:induction false} ParsesString(gs: seq<Glyph>, rest: string)
    requires ValidGlyphs(gs)
    ensures ParseChars(GlyphsText(gs) + "\"" + rest) == Good(Chars(gs), rest)
  {
    hide ParseChars, GlyphText, GlyphChar, LowNext;
    if |gs| == 0 {
      StringCloses(rest);
      assert GlyphsText(gs) + "\"" + rest == "\"" + rest;
    } else {
      var tail := GlyphsText(gs[1..]) + "\"" + rest;
      ParsesString(gs[1..], rest);
      if gs[0].Half? && IsHigh(Hex4(gs[0].hex)) { NothingToJoin(gs, rest); }
      ParsesGlyph(gs[0], tail);
      assert GlyphsText(gs) + "\"" + rest == GlyphText(gs[0]) + tail;
    }
  }

  // ----- white space and numbers -----

  lemma {:induction false} SkipsBlank(pre: string, rest: string)
    requires Blank(pre)
    ensures Skip(pre + rest) == Skip(rest)
  {
    if pre != "" {
      assert pre[0] in pre;
      assert (pre + rest)[1..] == pre[1..] + rest;
      SkipsBlank(pre[1..], rest);
    } else {
      assert pre + rest == rest;
    }
  }

  /** Nothing that could continue a number. */
  predicate Boundary(rest: string) {
    rest == "" || !(T.IsDigit(rest[0]) || rest[0] in ".eE+-")
  }

  lemma {:induction false} CountsSame(t: string, rest: string)
    requires Boundary(rest)
    ensures CountDigits(t + rest) == CountDigits(t)
  {
    if t == "" {
      assert t + rest == rest;
    } else {
      assert (t + rest)[1..] == t[1..] + rest;
      CountsSame(t[1..], rest);
    }
  }

  lemma FractionSame(t: string, rest: string)
    requires Boundary(rest)
    ensures FractionSpan(t + rest) == FractionSpan(t)
  {
    if t == "" { assert t + rest == rest; }
    else { assert (t + rest)[1..] == t[1..] + rest; CountsSame(t[1..], rest); }
  }

  lemma ExponentSame(t: string, rest: string)
    requires Boundary(rest) && ExponentSpan(t).Span?
    ensures ExponentSpan(t + rest) == ExponentSpan(t)
  {
    if t == "" { assert t + rest == rest; }
    else if t[0] == 'e' || t[0] == 'E' {
      var sign := if |t| > 1 && (t[1] == '+' || t[1] == '-') then 2 else 1;
      assert sign < |t|;
      assert (t + rest)[sign..] == t[sign..] + rest;
      CountsSame(t[sign..], rest);
    }
  }

  lemma DecimalSame(t: string, rest: string)
    requires Boundary(rest) && DecimalSpan(t).Span?
    ensures DecimalSpan(t + rest) == DecimalSpan(t)
  {
    FractionSame(t, rest);
    var fraction := FractionSpan(t).length;
    assert (t + rest)[fraction..] == t[fraction..] + rest;
    ExponentSame(t[fraction..], rest);
  }

  lemma UnsignedSame(t: string, rest: string)
    requires Boundary(rest) && UnsignedSpan(t).Span?
    ensures UnsignedSpan(t + rest) == UnsignedSpan(t)
  {
    CountsSame(t, rest);
    var whole := IntSpan(t).length;
    assert (t + rest)[whole..] == t[whole..] + rest;
    DecimalSame(t[whole..], rest);
  }

  /** A number literal is read to its end and no further. */
  lemma NumberEnds(lit: string, rest: string)
    requires IsNumber(lit) && Boundary(rest)
    ensures NumberSpan(lit + rest) == Span(|lit|)
  {
    if lit[0] == '-' {
      assert (lit + rest)[1..] == lit[1..] + rest;
      UnsignedSame(lit[1..], rest);
    } else {
      UnsignedSame(lit, rest);
    }
  }

  lemma NumberStarts(lit: string)
    requires IsNumber(lit)
    ensures lit != "" && (lit[0] == '-' || T.IsDigit(lit[0]))
  {}

  // ----- layouts -----

  /** A value as written: white space, member order and spelling included. */
  datatype Layout =
    | LNull
    | LBool(b: bool)
    | LNum(lit: string)
    | LStr(glyphs: seq<Glyph>)
    | LEmptyArr(pad: string)
    | LArr(items: seq<Item>)
    | LEmptyObj(pad: string)
    | LObj(members: seq<Member>)

  datatype Item = Item(pre: string, value: Layout, post: string)
  datatype Member = Member(pre: string, key: seq<Glyph>, mid: string, gap: string, value: Layout, post: string)

  predicate Valid(l: Layout) {
    match l
    case LNull => true
    case LBool(_) => true
    case LNum(lit) => IsNumber(lit)
    case LStr(glyphs) => ValidGlyphs(glyphs)
    case LEmptyArr(pad) => Blank(pad)
    case LArr(items) => |items| > 0 && ValidItems(items)
    case LEmptyObj(pad) => Blank(pad)
    case LObj(members) => |members| > 0 && ValidMembers(members)
  }

  predicate ValidItems(items: seq<Item>) {
    |items| == 0 || (Blank(items[0].pre) && Blank(items[0].post) && Valid(items[0].value) && ValidItems(items[1..]))
  }

  predicate ValidMembers(members: seq<Member>) {
    |members| == 0 ||
    (var m := members[0];
     && Blank(m.pre) && Blank(m.mid) && Blank(m.gap) && Blank(m.post) && ValidGlyphs(m.key) && Valid(m.value)
     && ValidMembers(members[1..]))
  }

  function Text(l: Layout): string {
    match l
    case LNull => "null"
    case LBool(b) => if b then "true" else "false"
    case LNum(lit) => lit
    case LStr(glyphs) => "\"" + GlyphsText(glyphs) + "\""
    case LEmptyArr(pad) => "[" + pad + "]"
    case LArr(items) => "[" + ItemsText(items) + "]"
    case LEmptyObj(pad) => "{" + pad + "}"
    case LObj(members) => "{" + MembersText(members) + "}"
  }

  function ItemText(i: Item): string { i.pre + Text(i.value) + i.post }

  function ItemsText(items: seq<Item>): string {
    if |items| == 0 then ""
    else if |items| == 1 then ItemText(items[0])
    else ItemText(items[0]) + "," + ItemsText(items[1..])
  }

  function MemberText(m: Member): string {
    m.pre + "\"" + GlyphsText(m.key) + "\"" + m.mid + ":" + m.gap + Text(m.value) + m.post
  }

  function MembersText(members: seq<Member>): string {
    if |members| == 0 then ""
    else if |members| == 1 then MemberText(members[0])
    else MemberText(members[0]) + "," + MembersText(members[1..])
  }

  function Meaning(l: Layout): Value
    requires Valid(l)
  {
    match l
    case LNull => Null
    case LBool(b) => Bool(b)
    case LNum(lit) => Num(lit)
    case LStr(glyphs) => Str(Chars(glyphs))
    case LEmptyArr(_) => Arr([])
    case LArr(items) => Arr(ItemsMeaning(items))
    case LEmptyObj(_) => Obj(map[])
    case LObj(members) => Obj(MembersMeaning(members))
  }

  function ItemsMeaning(items: seq<Item>): seq<Value>
    requires ValidItems(items)
  {
    if |items| == 0 then [] else [Meaning(items[0].value)] + ItemsMeaning(items[1..])
  }

  /** Of two members with one key the later wins. */
  function MembersMeaning(members: seq<Member>): map<string, Value>
    requires ValidMembers(members)
  {
    if |members| == 0 then map[]
    else map[Chars(members[0].key) := Meaning(members[0].value)] + MembersMeaning(members[1..])
  }

  // ----- the round trip -----

  lemma {:induction false} TextStarts(l: Layout)
    requires Valid(l)
    ensures Text(l) != "" && !IsBlank(Text(l)[0])
  {
    if l.LNum? { NumberStarts(l.lit); }
  }

  lemma SkipsTo(pre: string, l: Layout, rest: string)
    requires Blank(pre) && Valid(l)
    ensures Skip(pre + Text(l) + rest) == Text(l) + rest
  {
    TextStarts(l);
    assert pre + Text(l) + rest == pre + (Text(l) + rest);
    SkipsBlank(pre, Text(l) + rest);
  }

  /** What may follow a value without changing how it is read. */
  predicate Follows(l: Layout, rest: string) { l.LNum? ==> Boundary(rest) }

  lemma ParsesNumber(lit: string, rest: string)
    requires IsNumber(lit) && Boundary(rest)
    ensures ParseNumber(lit + rest) == Good(Num(lit), rest)
  {
    NumberEnds(lit, rest);
    assert (lit + rest)[..|lit|] == lit && (lit + rest)[|lit|..] == rest;
  }

  lemma ParsesWord(word: string, v: Value, rest: string)
    requires word != ""
    ensures ParseWord(word + rest, word, v) == Good(v, rest)
  {
    assert (word + rest)[..|word|] == word && (word + rest)[|word|..] == rest;
  }

  /** After a value come white space and a separator. */
  lemma AfterValue(post: string, end: string)
    requires Blank(post) && end != "" && !IsBlank(end[0]) && !T.IsDigit(end[0]) && end[0] !in ".eE+-"
    ensures Boundary(post + end) && Skip(post + end) == end
  {
    if post != "" { assert post[0] in post; assert (post + end)[0] == post[0]; }
    SkipsBlank(post, end);
  }

  lemma ReadsString(glyphs: seq<Glyph>, rest: string)
    requires ValidGlyphs(glyphs)
    ensures ParseString("\"" + GlyphsText(glyphs) + "\"" + rest) == Good(Str(Chars(glyphs)), rest)
  {
    hide ParseChars, GlyphsText, Chars;
    ParsesString(glyphs, rest);
    Regroup("\"", GlyphsText(glyphs), "\"", rest);
    Rest("\"", GlyphsText(glyphs) + "\"" + rest);
  }

  lemma ReadsEmpty(pad: string, rest: string)
    requires Blank(pad)
    ensures ParseArray(pad + "]" + rest) == Good(Arr([]), rest)
    ensures ParseObject(pad + "}" + rest) == Good(Obj(map[]), rest)
  {
    AfterValue(pad, "]" + rest);
    AfterValue(pad, "}" + rest);
    assert pad + "]" + rest == pad + ("]" + rest) && pad + "}" + rest == pad + ("}" + rest);
    assert ("]" + rest)[1..] == rest && ("}" + rest)[1..] == rest;
  }

  /** No value starts with a closing bracket or brace. */
  lemma FirstChar(l: Layout)
    requires Valid(l)
    ensures Text(l) != "" && Text(l)[0] != ']' && Text(l)[0] != '}'
  {
    if l.LNum? { NumberStarts(l.lit); }
  }

  /** The texts, regrouped the way the parser meets them. */
  lemma ItemSplit(i: Item, tail: string)
    ensures ItemText(i) + tail == i.pre + Text(i.value) + (i.post + tail)
  {}

  function AfterColon(m: Member, tail: string): string { m.gap + Text(m.value) + (m.post + tail) }

  function AfterKey(m: Member, tail: string): string { m.mid + (":" + AfterColon(m, tail)) }

  lemma Sevenfold(a: string, b: string, c: string, d: string, e: string, f: string, g: string)
    ensures a + "\"" + b + "\"" + c + ":" + d + e + f + g == a + ("\"" + (b + "\"" + (c + (":" + (d + e + (f + g))))))
  {
    var right := d + e + (f + g);
    assert d + e + f + g == right;
    assert c + ":" + d + e + f + g == c + (":" + right);
  }

  lemma MemberSplit(m: Member, tail: string)
    ensures MemberText(m) + tail == m.pre + ("\"" + (GlyphsText(m.key) + "\"" + AfterKey(m, tail)))
  {
    Sevenfold(m.pre, GlyphsText(m.key), m.mid, m.gap, Text(m.value), m.post, tail);
  }

  function ItemsTail(items: seq<Item>, end: string): string
    requires |items| > 0
  {
    if |items| == 1 then end else "," + (ItemsText(items[1..]) + end)
  }

  function MembersTail(members: seq<Member>, end: string): string
    requires |members| > 0
  {
    if |members| == 1 then end else "," + (MembersText(members[1..]) + end)
  }

  lemma ItemsSplit(items: seq<Item>, end: string)
    requires |items| > 0
    ensures ItemsText(items) + end == ItemText(items[0]) + ItemsTail(items, end)
  {
    hide ItemText;
  }

  lemma MembersSplit(members: seq<Member>, end: string)
    requires |members| > 0
    ensures MembersText(members) + end == MemberText(members[0]) + MembersTail(members, end)
  {
    hide MemberText;
  }

  lemma ItemsStart(items: seq<Item>, end: string)
    requires |items| > 0 && ValidItems(items)
    ensures var u := Skip(ItemsText(items) + end); u != "" && u[0] != ']'
  {
    var i := items[0];
    ItemsSplit(items, end);
    ItemSplit(i, ItemsTail(items, end));
    SkipsTo(i.pre, i.value, i.post + ItemsTail(items, end));
    FirstChar(i.value);
  }

  lemma MembersStart(members: seq<Member>, end: string)
    requires |members| > 0 && ValidMembers(members)
    ensures var u := Skip(MembersText(members) + end); u != "" && u[0] == '"'
  {
    var m := members[0];
    MembersSplit(members, end);
    MemberSplit(m, MembersTail(members, end));
    SkipsBlank(m.pre, "\"" + (GlyphsText(m.key) + "\"" + AfterKey(m, MembersTail(members, end))));
  }

  /** Reading any layout of a value gives back its meaning and what follows it. */
  lemma {:induction false} ReadsBack(pre: string, l: Layout, rest: string)
    requires Blank(pre) && Valid(l) && Follows(l, rest)
    ensures ParseValue(pre + Text(l) + rest) == Good(Meaning(l), rest)
    decreases l, 1
  {
    SkipsTo(pre, l, rest);
    TextStarts(l);
    ReadsAt(l, rest);
  }

  lemma AtString(body: string)
    ensures ParseAt("\"" + body) == ParseString("\"" + body)
  {}

  lemma AtArray(body: string)
    ensures ParseAt("[" + body) == ParseArray(body)
  {
    assert ("[" + body)[1..] == body;
  }

  lemma AtObject(body: string)
    ensures ParseAt("{" + body) == ParseObject(body)
  {
    assert ("{" + body)[1..] == body;
  }

  lemma AtWord(word: string, v: Value, rest: string)
    requires (word == "null" && v == Null) || (word == "true" && v == Bool(true))
      || (word == "false" && v == Bool(false))
    ensures ParseAt(word + rest) == Good(v, rest)
  {
    ParsesWord(word, v, rest);
  }

  lemma AtNumber(lit: string, rest: string)
    requires IsNumber(lit) && Boundary(rest)
    ensures ParseAt(lit + rest) == Good(Num(lit), rest)
  {
    NumberStarts(lit);
    NumberFirst(lit + rest);
    ParsesNumber(lit, rest);
  }

  lemma NumberFirst(t: string)
    requires t != "" && (t[0] == '-' || T.IsDigit(t[0]))
    ensures ParseAt(t) == ParseNumber(t)
  {
    var c := t[0];
    assert c != 'n' && c != 't' && c != 'f' && c != '"' && c != '[' && c != '{';
  }

  lemma Regroup(open: string, body: string, close: string, rest: string)
    ensures open + body + close + rest == open + (body + close + rest)
  {}

  lemma {:induction false} ReadsAt(l: Layout, rest: string)
    requires Valid(l) && Follows(l, rest) && Text(l) != ""
    ensures ParseAt(Text(l) + rest) == Good(Meaning(l), rest)
    decreases l, 0
  {
    match l
    case LNull => AtWord("null", Null, rest);
    case LBool(b) => AtWord(if b then "true" else "false", Bool(b), rest);
    case LNum(lit) => AtNumber(lit, rest);
    case LStr(glyphs) =>
      ReadsString(glyphs, rest);
      Regroup("\"", GlyphsText(glyphs), "\"", rest);
      AtString(GlyphsText(glyphs) + "\"" + rest);
    case LEmptyArr(pad) =>
      ReadsEmpty(pad, rest);
      Regroup("[", pad, "]", rest);
      AtArray(pad + "]" + rest);
    case LArr(items) =>
      ReadsArray(items, rest);
      Regroup("[", ItemsText(items), "]", rest);
      AtArray(ItemsText(items) + "]" + rest);
    case LEmptyObj(pad) =>
      ReadsEmpty(pad, rest);
      Regroup("{", pad, "}", rest);
      AtObject(pad + "}" + rest);
    case LObj(members) =>
      ReadsObject(members, rest);
      Regroup("{", MembersText(members), "}", rest);
      AtObject(MembersText(members) + "}" + rest);
  }

  lemma {:induction false} ReadsArray(items: seq<Item>, rest: string)
    requires |items| > 0 && ValidItems(items)
    ensures ParseArray(ItemsText(items) + "]" + rest) == Good(Arr(ItemsMeaning(items)), rest)
    decreases items, 2
  {
    assert ItemsText(items) + "]" + rest == ItemsText(items) + ("]" + rest);
    ItemsStart(items, "]" + rest);
    ReadsItems(items, rest);
  }

  lemma {:induction false} ReadsObject(members: seq<Member>, rest: string)
    requires |members| > 0 && ValidMembers(members)
    ensures ParseObject(MembersText(members) + "}" + rest) == Good(Obj(MembersMeaning(members)), rest)
    decreases members, 2
  {
    assert MembersText(members) + "}" + rest == MembersText(members) + ("}" + rest);
    MembersStart(members, "}" + rest);
    ReadsMembers(members, rest);
  }

  lemma {:induction false} ReadsItem(i: Item, end: string)
    requires Blank(i.pre) && Blank(i.post) && Valid(i.value)
    requires end != "" && (end[0] == ',' || end[0] == ']')
    ensures var r := ParseValue(ItemText(i) + end);
      r.Good? && r.value == Meaning(i.value) && Skip(r.rest) == end
    decreases i, 0
  {
    ItemSplit(i, end);
    AfterValue(i.post, end);
    ReadsBack(i.pre, i.value, i.post + end);
  }

  lemma Rest(head: string, tail: string)
    requires |head| == 1
    ensures (head + tail)[1..] == tail && (head + tail)[0] == head[0]
  {}

  lemma {:induction false} ReadsItems(items: seq<Item>, rest: string)
    requires |items| > 0 && ValidItems(items)
    ensures ParseItems(ItemsText(items) + "]" + rest) == Good(ItemsMeaning(items), rest)
    decreases items, 1
  {
    var i, v := items[0], Meaning(items[0].value);
    if |items| == 1 {
      assert ItemsText(items) + "]" + rest == ItemText(i) + ("]" + rest);
      ReadsItem(i, "]" + rest);
      Rest("]", rest);
      assert items[1..] == [] && [v] + [] == [v];
    } else {
      var more := ItemsText(items[1..]) + "]" + rest;
      Regroup3(ItemText(i), ItemsText(items[1..]), "]", rest);
      ReadsItem(i, "," + more);
      Rest(",", more);
      ReadsItems(items[1..], rest);
    }
  }

  lemma Regroup3(a: string, b: string, close: string, rest: string)
    ensures a + "," + b + close + rest == a + ("," + (b + close + rest))
  {}

  lemma {:induction false} ReadsMember(m: Member, end: string)
    requires Blank(m.pre) && Blank(m.mid) && Blank(m.gap) && Blank(m.post) && ValidGlyphs(m.key) && Valid(m.value)
    requires end != "" && (end[0] == ',' || end[0] == '}')
    ensures var t := Skip(MemberText(m) + end);
      && t != "" && t[0] == '"' && ParseChars(t[1..]) == Good(Chars(m.key), AfterKey(m, end))
      && Skip(AfterKey(m, end)) == ":" + AfterColon(m, end)
    ensures var r := ParseValue(AfterColon(m, end));
      r.Good? && r.value == Meaning(m.value) && Skip(r.rest) == end
    decreases m, 0
  {
    MemberSplit(m, end);
    KeyRead(m, end);
    AfterValue(m.post, end);
    ReadsBack(m.gap, m.value, m.post + end);
  }

  lemma {:induction false} ReadsMembers(members: seq<Member>, rest: string)
    requires |members| > 0 && ValidMembers(members)
    ensures ParseMembers(MembersText(members) + "}" + rest) == Good(MembersMeaning(members), rest)
    decreases members, 1
  {
    var m := members[0];
    if |members| == 1 {
      assert MembersText(members) + "}" + rest == MemberText(m) + ("}" + rest);
      ReadsMember(m, "}" + rest);
      Rest("}", rest);
      Rest(":", AfterColon(m, "}" + rest));
      assert members[1..] == [] && map[Chars(m.key) := Meaning(m.value)] + map[]
          == map[Chars(m.key) := Meaning(m.value)];
    } else {
      var more := MembersText(members[1..]) + "}" + rest;
      Regroup3(MemberText(m), MembersText(members[1..]), "}", rest);
      ReadsMember(m, "," + more);
      Rest(",", more);
      Rest(":", AfterColon(m, "," + more));
      ReadsMembers(members[1..], rest);
    }
  }

  lemma KeyRead(m: Member, tail: string)
    requires Blank(m.pre) && Blank(m.mid) && ValidGlyphs(m.key)
    ensures var t := m.pre + ("\"" + (GlyphsText(m.key) + "\"" + AfterKey(m, tail)));
      Skip(t) != "" && Skip(t)[0] == '"' && ParseChars(Skip(t)[1..]) == Good(Chars(m.key), AfterKey(m, tail))
    ensures Skip(AfterKey(m, tail)) == ":" + AfterColon(m, tail)
  {
    var quoted := GlyphsText(m.key) + "\"" + AfterKey(m, tail);
    SkipsBlank(m.pre, "\"" + quoted);
    assert ("\"" + quoted)[1..] == quoted;
    ParsesString(m.key, AfterKey(m, tail));
    AfterValue(m.mid, ":" + AfterColon(m, tail));
  }
}
