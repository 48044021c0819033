/** The canonical encoder as it runs: it appends to one string builder. */
module JsonEncoder {
  import opened Basics
  import opened Json
  import opened JsonText
  import opened JsonCanonical
  import opened Order

  class Builder {
    var text: string

    constructor ()
      ensures text == ""
    {
      text := "";
    }

    method Write(s: string)
      modifies this
      ensures text == old(text) + s
    {
      text := text + s;
    }

    method WriteString(s: string)
      modifies this
      ensures text == old(text) + Text(LStr(SpellAll(s)))
    {
      Write("\"" + GlyphsText(SpellAll(s)) + "\"");
    }
  }

  function Comma(i: nat): string { if i > 0 then "," else "" }

  /** What is still to be written before the closing bracket, from element `i`. */
  ghost function ItemsLeft(items: seq<Value>, i: nat): string
    requires i <= |items|
  {
    if i == |items| then "" else Comma(i) + ItemsText(LayoutItems(items[i..]))
  }

  lemma {:induction false} LayoutItemsLength(items: seq<Value>)
    ensures |LayoutItems(items)| == |items|
  {
    if |items| > 0 { LayoutItemsLength(items[1..]); }
  }

  lemma ItemsSplit(items: seq<Value>)
    requires |items| > 0
    ensures ItemsText(LayoutItems(items)) == Encode(items[0]) + ItemsLeft(items, 1)
  {
    var layouts := LayoutItems(items);
    assert layouts[1..] == LayoutItems(items[1..]);
    LayoutItemsLength(items);
    assert ItemText(layouts[0]) == Encode(items[0]);
  }

  lemma NextItem(items: seq<Value>, i: nat, t: string, goal: string)
    requires i < |items| && t + ItemsLeft(items, i) == goal
    ensures t + Comma(i) + Encode(items[i]) + ItemsLeft(items, i + 1) == goal
  {
    ItemsSplit(items[i..]);
    assert items[i..][1..] == items[i + 1..];
    Regrouped(t, Comma(i), Encode(items[i]), ItemsLeft(items, i + 1));
  }

  lemma Regrouped(a: string, b: string, c: string, d: string)
    ensures a + b + c + d == a + (b + (c + d))
  {}

  ghost function MembersLeft(v: Value, keys: seq<string>, i: nat): string
    requires v.Obj? && (forall k <- keys :: k in v.fields) && i <= |keys|
  {
    if i == |keys| then "" else Comma(i) + MembersText(LayoutMembers(v, keys[i..]))
  }

  ghost function EncodeMember(v: Value, key: string): string
    requires v.Obj? && key in v.fields
  {
    Text(LStr(SpellAll(key))) + ":" + Encode(v.fields[key])
  }

  lemma {:induction false} LayoutMembersLength(v: Value, keys: seq<string>)
    requires v.Obj? && forall k <- keys :: k in v.fields
    ensures |LayoutMembers(v, keys)| == |keys|
    decreases |keys|
  {
    if |keys| > 0 { LayoutMembersLength(v, keys[1..]); }
  }

  lemma MemberPlain(key: seq<Glyph>, value: Layout)
    ensures MemberText(Member("", key, "", "", value, "")) == Text(LStr(key)) + ":" + Text(value)
  {
    var head := "\"" + GlyphsText(key) + "\"";
    assert "" + "\"" + GlyphsText(key) + "\"" + "" == head;
    assert head + ":" + "" == head + ":";
    var all := head + ":" + Text(value);
    assert all + "" == all;
  }

  lemma MembersSplit(v: Value, keys: seq<string>)
    requires v.Obj? && (forall k <- keys :: k in v.fields) && |keys| > 0
    ensures MembersText(LayoutMembers(v, keys)) == EncodeMember(v, keys[0]) + MembersLeft(v, keys, 1)
  {
    var layouts := LayoutMembers(v, keys);
    assert layouts[1..] == LayoutMembers(v, keys[1..]);
    LayoutMembersLength(v, keys);
    assert keys[0] in keys;
    MemberPlain(SpellAll(keys[0]), LayoutOf(v.fields[keys[0]]));
    MemberAndRest(layouts);
  }

  lemma MemberAndRest(layouts: seq<Member>)
    requires |layouts| > 0
    ensures MembersText(layouts)
         == MemberText(layouts[0]) + if |layouts| == 1 then "" else "," + MembersText(layouts[1..])
  {}

  lemma NextMember(v: Value, keys: seq<string>, i: nat, t: string, goal: string)
    requires v.Obj? && (forall k <- keys :: k in v.fields) && i < |keys|
    requires t + MembersLeft(v, keys, i) == goal
    ensures t + Comma(i) + EncodeMember(v, keys[i]) + MembersLeft(v, keys, i + 1) == goal
  {
    MembersSplit(v, keys[i..]);
    assert keys[i..][1..] == keys[i + 1..];
    Regrouped(t, Comma(i), EncodeMember(v, keys[i]), MembersLeft(v, keys, i + 1));
  }

  lemma Bracketed(a: string, open: string, body: string, close: string)
    ensures a + open + body + close == a + (open + body + close)
  {}

  lemma ItemsWhole(items: seq<Value>)
    ensures Encode(Arr(items)) == "[" + ItemsLeft(items, 0) + "]"
  {
    assert items[0..] == items;
    if |items| > 0 { LayoutItemsLength(items); }
  }

  lemma MembersWhole(v: Value)
    requires v.Obj?
    ensures Encode(v) == "{" + MembersLeft(v, Sorted(v.fields.Keys), 0) + "}"
  {
    var keys := Sorted(v.fields.Keys);
    assert keys[0..] == keys;
    LayoutMembersLength(v, keys);
  }

  method EncodeCanonical(b: Builder, v: Value)
    modifies b
    ensures b.text == old(b.text) + Encode(v)
    decreases v, 1
  {
    match v
    case Null => b.Write("null");
    case Bool(t) => b.Write(if t then "true" else "false");
    case Num(lit) => b.Write(lit);
    case Str(s) => b.WriteString(s);
    case Arr(items) =>
      ItemsWhole(items);
      b.Write("[");
      EncodeItems(b, items);
      b.Write("]");
      Bracketed(old(b.text), "[", ItemsLeft(items, 0), "]");
    case Obj(fields) =>
      MembersWhole(v);
      b.Write("{");
      ghost var keys := EncodeMembers(b, v);
      b.Write("}");
      Bracketed(old(b.text), "{", MembersLeft(v, keys, 0), "}");
  }

  method EncodeItems(b: Builder, items: seq<Value>)
    modifies b
    ensures b.text == old(b.text) + ItemsLeft(items, 0)
    decreases items, 2
  {
    var i := 0;
    ghost var goal := b.text + ItemsLeft(items, 0);
    while i < |items|
      invariant i <= |items|
      invariant b.text + ItemsLeft(items, i) == goal
    {
      NextItem(items, i, b.text, goal);
      b.Write(Comma(i));
      EncodeCanonical(b, items[i]);
      i := i + 1;
    }
    assert b.text + "" == b.text;
  }

  lemma NoneLeft(v: Value, keys: seq<string>)
    requires v.Obj? && forall k <- keys :: k in v.fields
    ensures MembersLeft(v, keys, |keys|) == ""
  {}

  method EncodeMembers(b: Builder, v: Value) returns (keys: seq<string>)
    requires v.Obj?
    modifies b
    ensures keys == Sorted(v.fields.Keys)
    ensures b.text == old(b.text) + MembersLeft(v, keys, 0)
    decreases v, 0
  {
    hide MembersLeft, EncodeMember, Encode, LayoutMembers, MembersText, Sorted;
    match v
    case Obj(fields) =>
      keys := SortKeys(fields.Keys);
      NoneLeft(v, keys);
      var i := 0;
      ghost var goal := b.text + MembersLeft(v, keys, 0);
      while i < |keys|
        invariant i <= |keys|
        invariant b.text + MembersLeft(v, keys, i) == goal
      {
        NextMember(v, keys, i, b.text, goal);
        assert keys[i] in keys;
        EncodeOne(b, v, i, keys[i]);
        i := i + 1;
      }
      assert b.text + "" == b.text;
  }

  method EncodeOne(b: Builder, v: Value, i: nat, key: string)
    requires v.Obj? && key in v.fields
    modifies b
    ensures b.text == old(b.text) + Comma(i) + EncodeMember(v, key)
    decreases v, 0, 0
  {
    match v
    case Obj(fields) =>
      b.Write(Comma(i));
      b.WriteString(key);
      b.Write(":");
      EncodeCanonical(b, fields[key]);
  }

  /** canonicaliseJSON: None where the decoder reports an error. */
  method CanonicaliseJson(raw: string) returns (text: Option<string>)
    ensures text == Canonical(raw)
  {
    match ParseValue(raw)
    case Bad => text := None;
    case Good(v, _) =>
      var b := new Builder();
      EncodeCanonical(b, v);
      assert b.text == Encode(v);
      text := Some(b.text);
  }
}
