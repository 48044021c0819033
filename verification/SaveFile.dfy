/** The save file: an envelope of header members around the payload, read back
    member by member, the payload kept as its own text. `sha` stands for the hex
    SHA-256 digest of a text. */
module SaveFile {
  import opened Basics
  import opened Json
  import opened JsonText
  import opened JsonCanonical
  import opened JsonNumbers
  import opened Order
  import opened Numerals
  import JsonPrefix
  import T = Text

  const SCHEMA := "kobra.save/1"

  // ----- writing -----

  /** What the engine stamps on one write besides payload and revision. */
  datatype Stamp = Stamp(saveVersion: int, gameVersion: string, release: string, created: string,
                         modified: string, compression: string, playtime: Option<int>)

  function Required(s: Stamp, revision: int, checksum: string, payload: Value): map<string, Value> {
    map["schema" := Str(SCHEMA)]["save_version" := Num(IntText(s.saveVersion))]["game_version" := Str(s.gameVersion)]
       ["created" := Str(s.created)]["modified" := Str(s.modified)]["revision" := Num(IntText(revision))]
       ["checksum" := Str(checksum)]["payload" := payload]
  }

  function Optional(f: map<string, Value>, s: Stamp): map<string, Value> {
    var g := if s.release != "" then f["release" := Str(s.release)] else f;
    var h := if s.compression != "" then g["compression" := Str(s.compression)] else g;
    if s.playtime.Some? then h["playtime_seconds" := Num(IntText(s.playtime.value))] else h
  }

  function Envelope(s: Stamp, revision: int, checksum: string, payload: Value): Value {
    Obj(Optional(Required(s, revision, checksum, payload), s))
  }

  function Checksum(sha: string -> string, canonical: string): string { "sha256:" + sha(canonical) }

  /** The bytes WriteSave stores for a payload. */
  ghost function Body(sha: string -> string, s: Stamp, revision: int, payload: Value): string {
    Encode(Envelope(s, revision, Checksum(sha, Encode(payload)), payload)) + "\n"
  }

  // ----- reading -----

  datatype Header = Header(schema: string, saveVersion: int, gameVersion: string, release: string, created: string,
                           modified: string, revision: int, playtime: Option<int>, checksum: string,
                           compression: string, payload: string)

  /** None: the member has the wrong type. An absent or null member is empty. */
  function StringField(fields: map<string, Value>, key: string): Option<string> {
    if key !in fields || fields[key].Null? then Some("")
    else if fields[key].Str? then Some(fields[key].s)
    else None
  }

  function IntField(fields: map<string, Value>, key: string): Option<Option<int>> {
    if key !in fields || fields[key].Null? then Some(None)
    else if fields[key].Num? && T.Atoi(fields[key].lit).Some? then Some(T.Atoi(fields[key].lit))
    else None
  }

  function OrZero(n: Option<int>): int { if n.Some? then n.value else 0 }

  /** The text of the value at `t`, without the white space before it. */
  function RawValue(t: string): string
    requires ParseValue(t).Good?
  {
    var s := Skip(t);
    s[..|s| - |ParseValue(t).rest|]
  }

  /** The text of the last member named `key`, json.RawMessage's view of it. */
  function RawMember(t: string, key: string): Option<string>
    requires ParseMembers(t).Good?
    decreases |t|
  {
    var name := ParseChars(Skip(t)[1..]).value;
    var u := Skip(ParseChars(Skip(t)[1..]).rest)[1..];
    var e := Skip(ParseValue(u).rest);
    var later := if e[0] == ',' then RawMember(e[1..], key) else None;
    if later.Some? then later
    else if name == key then Some(RawValue(u))
    else None
  }

  function RawField(t: string, key: string): Option<string>
  {
    if ParseMembers(t).Good? then RawMember(t, key) else None
  }

  /** parseSave: None for anything that is not a save. */
  function ParseSave(raw: string): Option<Header> {
    match ParseValue(raw)
    case Bad => None
    case Good(v, rest) =>
      if !Blank(rest) || !v.Obj? then None else HeaderOf(v.fields, RawField(Skip(raw)[1..], "payload"))
  }

  function HeaderOf(f: map<string, Value>, payload: Option<string>): Option<Header> {
    var schema, gameVersion, release := StringField(f, "schema"), StringField(f, "game_version"),
      StringField(f, "release");
    var created, modified := StringField(f, "created"), StringField(f, "modified");
    var checksum, compression := StringField(f, "checksum"), StringField(f, "compression");
    var saveVersion, revision, playtime := IntField(f, "save_version"), IntField(f, "revision"),
      IntField(f, "playtime_seconds");
    if schema.None? || gameVersion.None? || release.None? || created.None? || modified.None? || checksum.None?
       || compression.None? || saveVersion.None? || revision.None? || playtime.None? then None
    else if schema.value != SCHEMA || OrZero(saveVersion.value) < 1 || payload.None? || payload.value == "" then None
    else Some(Header(schema.value, OrZero(saveVersion.value), gameVersion.value, release.value, created.value,
                     modified.value, OrZero(revision.value), playtime.value, checksum.value, compression.value,
                     payload.value))
  }

  /** verifyChecksum: a save without a checksum passes. */
  ghost predicate Verified(sha: string -> string, h: Header) {
    || h.checksum == ""
    || (Canonical(h.payload).Some? && h.checksum == Checksum(sha, Canonical(h.payload).value))
  }

  // ----- the round trip -----

  predicate AllWellFormed(f: map<string, Value>) { forall k <- f :: WellFormed(f[k]) }

  lemma RequiredWellFormed(s: Stamp, revision: int, checksum: string, payload: Value)
    requires WellFormed(payload)
    ensures AllWellFormed(Required(s, revision, checksum, payload))
  {
    IntTextIsNumber(s.saveVersion);
    IntTextIsNumber(revision);
    hide IntText, IsNumber;
  }

  lemma OptionalWellFormed(f: map<string, Value>, s: Stamp)
    requires AllWellFormed(f)
    ensures AllWellFormed(Optional(f, s))
  {
    if s.playtime.Some? { IntTextIsNumber(s.playtime.value); }
  }

  lemma EnvelopeWellFormed(s: Stamp, revision: int, checksum: string, payload: Value)
    requires WellFormed(payload)
    ensures WellFormed(Envelope(s, revision, checksum, payload))
  {
    RequiredWellFormed(s, revision, checksum, payload);
    OptionalWellFormed(Required(s, revision, checksum, payload), s);
  }

  /** The header a written save is read back as. */
  function Stamped(s: Stamp, revision: int, checksum: string, payload: string): Header {
    Header(SCHEMA, s.saveVersion, s.gameVersion, s.release, s.created, s.modified, revision, s.playtime, checksum,
           s.compression, payload)
  }

  lemma FieldsRead(s: Stamp, revision: int, checksum: string, payload: Value)
    ensures var f := Required(s, revision, checksum, payload);
      && StringField(f, "schema") == Some(SCHEMA) && StringField(f, "game_version") == Some(s.gameVersion)
      && StringField(f, "created") == Some(s.created) && StringField(f, "modified") == Some(s.modified)
      && StringField(f, "checksum") == Some(checksum)
      && "save_version" in f && f["save_version"] == Num(IntText(s.saveVersion))
      && "revision" in f && f["revision"] == Num(IntText(revision))
      && "payload" in f && f["payload"] == payload
      && "release" !in f && "compression" !in f && "playtime_seconds" !in f
  {}

  lemma OptionalRead(f: map<string, Value>, s: Stamp)
    requires "release" !in f && "compression" !in f && "playtime_seconds" !in f
    ensures var g := Optional(f, s);
      && StringField(g, "release") == Some(s.release) && StringField(g, "compression") == Some(s.compression)
      && ("playtime_seconds" in g <==> s.playtime.Some?)
      && (s.playtime.Some? ==> g["playtime_seconds"] == Num(IntText(s.playtime.value)))
      && (forall k <- f :: k in g && g[k] == f[k])
      && (forall k <- g :: k in f || k in {"release", "compression", "playtime_seconds"})
  {}

  /** The members of a save that is written, and no others. */
  lemma EnvelopeMembers(s: Stamp, revision: int, checksum: string, payload: Value)
    ensures Envelope(s, revision, checksum, payload).fields.Keys
         == {"schema", "save_version", "game_version", "created", "modified", "revision", "checksum", "payload"}
            + (if s.release != "" then {"release"} else {})
            + (if s.compression != "" then {"compression"} else {})
            + (if s.playtime.Some? then {"playtime_seconds"} else {})
  {}

  predicate Storable(s: Stamp, revision: int) {
    1 <= s.saveVersion && Fits(s.saveVersion) && Fits(revision) && (s.playtime.Some? ==> Fits(s.playtime.value))
  }

  lemma EnvelopeRead(s: Stamp, revision: int, checksum: string, payload: Value, raw: string)
    requires Storable(s, revision) && raw != ""
    ensures HeaderOf(Envelope(s, revision, checksum, payload).fields, Some(raw))
         == Some(Stamped(s, revision, checksum, raw))
  {
    var f := Required(s, revision, checksum, payload);
    FieldsRead(s, revision, checksum, payload);
    OptionalRead(f, s);
    IntTextReads(s.saveVersion);
    IntTextReads(revision);
    if s.playtime.Some? { IntTextReads(s.playtime.value); }
    SameField(f, Optional(f, s));
  }

  lemma SameField(f: map<string, Value>, g: map<string, Value>)
    requires forall k <- f :: k in g && g[k] == f[k]
    ensures forall k <- f :: StringField(g, k) == StringField(f, k) && IntField(g, k) == IntField(f, k)
  {}

  /** What the object parser keeps of a member is the text written for it. */
  function LastText(members: seq<Member>, key: string): Option<string>
    requires ValidMembers(members)
  {
    if |members| == 0 then None
    else
      var later := LastText(members[1..], key);
      if later.Some? then later
      else if Chars(members[0].key) == key then Some(Text(members[0].value))
      else None
  }

  lemma RawOfLayout(m: Member, end: string)
    requires Blank(m.gap) && Blank(m.post) && Valid(m.value) && end != "" && (end[0] == ',' || end[0] == '}')
    ensures ParseValue(AfterColon(m, end)) == Good(Meaning(m.value), m.post + end)
    ensures RawValue(AfterColon(m, end)) == Text(m.value)
  {
    AfterValue(m.post, end);
    ReadsBack(m.gap, m.value, m.post + end);
    assert m.gap + Text(m.value) + (m.post + end) == AfterColon(m, end);
    SkipsTo(m.gap, m.value, m.post + end);
  }

  lemma {:induction false} RawReads(members: seq<Member>, rest: string, key: string)
    requires |members| > 0 && ValidMembers(members)
    ensures ParseMembers(MembersText(members) + "}" + rest).Good?
    ensures RawMember(MembersText(members) + "}" + rest, key) == LastText(members, key)
  {
    hide ParseChars, ParseValue, RawValue, Skip, ValidGlyphs, Chars, Text, Meaning, MemberText;
    ReadsMembers(members, rest);
    var m := members[0];
    if |members| == 1 {
      assert MembersText(members) + "}" + rest == MemberText(m) + ("}" + rest);
      OneRaw(m, "}" + rest, rest);
      RawStep(MemberText(m) + ("}" + rest), key, m, "}" + rest);
    } else {
      var more := MembersText(members[1..]) + "}" + rest;
      Regroup3(MemberText(m), MembersText(members[1..]), "}", rest);
      OneRaw(m, "," + more, more);
      RawReads(members[1..], rest, key);
      RawStep(MemberText(m) + ("," + more), key, m, "," + more);
    }
  }

  lemma RawStep(t: string, key: string, m: Member, end: string)
    requires ParseMembers(t).Good? && Skip(t) != "" && ParseChars(Skip(t)[1..]).Good?
    requires var u := Skip(ParseChars(Skip(t)[1..]).rest); u != "" && u[1..] == AfterColon(m, end)
    requires ParseValue(AfterColon(m, end)).Good? && RawValue(AfterColon(m, end)) == Text(m.value)
    requires end != "" && Skip(ParseValue(AfterColon(m, end)).rest) == end
    requires end[0] == ',' ==> ParseMembers(end[1..]).Good?
    ensures RawMember(t, key) ==
      var later := if end[0] == ',' then RawMember(end[1..], key) else None;
      if later.Some? then later
      else if ParseChars(Skip(t)[1..]).value == key then Some(Text(m.value)) else None
  {}

  lemma OneRaw(m: Member, end: string, more: string)
    requires Blank(m.pre) && Blank(m.mid) && Blank(m.gap) && Blank(m.post) && ValidGlyphs(m.key) && Valid(m.value)
    requires end != "" && (end[0] == ',' || end[0] == '}') && end[1..] == more
    ensures var t := Skip(MemberText(m) + end);
      && t != "" && ParseChars(t[1..]).Good? && ParseChars(t[1..]).value == Chars(m.key)
      && var u := Skip(ParseChars(t[1..]).rest);
      && u != "" && u[1..] == AfterColon(m, end)
    ensures ParseValue(AfterColon(m, end)).Good? && RawValue(AfterColon(m, end)) == Text(m.value)
    ensures Skip(ParseValue(AfterColon(m, end)).rest) == end
  {
    ReadsMember(m, end);
    RawOfLayout(m, end);
    Rest(":", AfterColon(m, end));
  }

  lemma {:induction false} LastOfCanonical(v: Value, keys: seq<string>, key: string)
    requires v.Obj? && WellFormed(v) && (forall k <- keys :: k in v.fields)
    requires forall i, j | 0 <= i < j < |keys| :: keys[i] != keys[j]
    ensures ValidMembers(LayoutMembers(v, keys))
    ensures LastText(LayoutMembers(v, keys), key) == if key in keys then Some(Encode(v.fields[key])) else None
    decreases |keys|
  {
    LayoutMembersMean(v, keys);
    if |keys| > 0 {
      assert keys[0] in keys;
      SpellAllMeans(keys[0]);
      assert LayoutMembers(v, keys)[1..] == LayoutMembers(v, keys[1..]);
      LastOfCanonical(v, keys[1..], key);
    }
  }

  lemma PayloadText(v: Value, key: string, rest: string)
    requires v.Obj? && WellFormed(v) && key in v.fields
    ensures RawField(Skip(Encode(v) + rest)[1..], key) == Some(Encode(v.fields[key]))
  {
    var keys := Sorted(v.fields.Keys);
    LayoutMeans(v);
    var members := LayoutMembers(v, keys);
    SortedAllDistinct(v.fields.Keys);
    LastOfCanonical(v, keys, key);
    AfterBrace(members, rest);
    RawReads(members, rest, key);
  }

  lemma AfterBrace(members: seq<Member>, rest: string)
    requires |members| > 0
    ensures Skip(Text(LObj(members)) + rest)[1..] == MembersText(members) + "}" + rest
  {
    var body := MembersText(members) + "}" + rest;
    assert Text(LObj(members)) + rest == "{" + body;
  }

  lemma EnvelopeText(sha: string -> string, s: Stamp, revision: int, payload: Value, rest: string)
    requires WellFormed(payload) && Storable(s, revision) && Blank(rest)
    ensures var sum := Checksum(sha, Encode(payload));
      ParseSave(Encode(Envelope(s, revision, sum, payload)) + rest)
        == Some(Stamped(s, revision, sum, Encode(payload)))
  {
    var sum := Checksum(sha, Encode(payload));
    var env := Envelope(s, revision, sum, payload);
    EnvelopeWellFormed(s, revision, sum, payload);
    DecodeEncode(env, rest);
    FieldsRead(s, revision, sum, payload);
    OptionalRead(Required(s, revision, sum, payload), s);
    PayloadText(env, "payload", rest);
    LayoutMeans(payload);
    TextStarts(LayoutOf(payload));
    EnvelopeRead(s, revision, sum, payload, Encode(payload));
  }

  /** A save written is a save read: the header comes back, the payload is the
      canonical text, and the integrity check passes. */
  lemma WrittenReadsBack(sha: string -> string, s: Stamp, revision: int, payload: Value)
    requires WellFormed(payload) && Storable(s, revision)
    ensures var h := ParseSave(Body(sha, s, revision, payload));
      && h == Some(Stamped(s, revision, Checksum(sha, Encode(payload)), Encode(payload)))
      && Verified(sha, h.value)
  {
    EnvelopeText(sha, s, revision, payload, "\n");
    DecodeEncode(payload, "");
    assert Encode(payload) + "" == Encode(payload);
  }

  /** A prefix of a save is no save at all, except for the final newline. */
  lemma CutSaveIsNoSave(sha: string -> string, s: Stamp, revision: int, payload: Value, n: nat)
    requires WellFormed(payload) && Storable(s, revision) && n <= |Body(sha, s, revision, payload)|
    ensures var body := Body(sha, s, revision, payload);
      ParseSave(body[..n]) == if n < |body| - 1 then None else ParseSave(body)
  {
    var body := Body(sha, s, revision, payload);
    var sum := Checksum(sha, Encode(payload));
    var env := Envelope(s, revision, sum, payload);
    EnvelopeText(sha, s, revision, payload, "\n");
    EnvelopeText(sha, s, revision, payload, "");
    if n < |body| - 1 {
      EnvelopeWellFormed(s, revision, sum, payload);
      DecodeEncode(env, "\n");
      JsonPrefix.CutObjectIsBad(body, n);
    } else if n == |body| - 1 {
      assert body[..n] == Encode(env) == Encode(env) + "";
    } else {
      assert body[..n] == body;
    }
  }
}
