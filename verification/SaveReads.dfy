/** What counts as a save, when its checksum catches a change, and which file a
    reader is served. */
module SaveReads {
  import opened Basics
  import opened Json
  import opened JsonText
  import opened JsonCanonical
  import opened JsonSound
  import opened SaveFile
  import opened SaveSpec
  import opened SaveProofs
  import opened SaveTheorems
  import opened SaveRevisions
  import T = Text

  // ----- what is a save -----

  /** Members a save may leave out, or set to null. */
  const TEXTS := {"game_version", "release", "created", "modified", "checksum", "compression"}
  const NUMBERS := {"revision", "playtime_seconds"}

  predicate IsInteger(v: Value) { v.Num? && T.Atoi(v.lit).Some? }

  /** The members a save has to have, and the types of the others. */
  predicate IsSave(f: map<string, Value>) {
    && "schema" in f && f["schema"] == Str(SCHEMA) && "payload" in f
    && "save_version" in f && IsInteger(f["save_version"]) && T.Atoi(f["save_version"].lit).value >= 1
    && (forall k <- TEXTS :: k in f ==> f[k].Null? || f[k].Str?)
    && (forall k <- NUMBERS :: k in f ==> f[k].Null? || IsInteger(f[k]))
  }

  lemma TextsAndNumbers(f: map<string, Value>)
    ensures (forall k <- TEXTS :: k in f ==> f[k].Null? || f[k].Str?) <==>
      && StringField(f, "game_version").Some? && StringField(f, "release").Some? && StringField(f, "created").Some?
      && StringField(f, "modified").Some? && StringField(f, "checksum").Some? && StringField(f, "compression").Some?
    ensures (forall k <- NUMBERS :: k in f ==> f[k].Null? || IsInteger(f[k])) <==>
      IntField(f, "revision").Some? && IntField(f, "playtime_seconds").Some?
  {
    assert "game_version" in TEXTS && "release" in TEXTS && "created" in TEXTS;
    assert "modified" in TEXTS && "checksum" in TEXTS && "compression" in TEXTS;
    assert "revision" in NUMBERS && "playtime_seconds" in NUMBERS;
  }

  lemma HeaderExactlyWhen(f: map<string, Value>, payload: Option<string>)
    requires payload.Some? <==> "payload" in f
    requires payload.Some? ==> payload.value != ""
    ensures HeaderOf(f, payload).Some? <==> IsSave(f)
    ensures HeaderOf(f, payload).Some? ==> payload.Some? && HeaderOf(f, payload).value.payload == payload.value
  {
    TextsAndNumbers(f);
    hide TEXTS, NUMBERS;
  }

  /** The text kept for a member is there exactly if the member is, and means it. */
  lemma {:induction false} RawMeans(t: string, key: string)
    requires ParseMembers(t).Good?
    ensures RawMember(t, key).Some? <==> key in ParseMembers(t).value
    ensures key in ParseMembers(t).value ==>
      RawMember(t, key).value != "" && ParseValue(RawMember(t, key).value) == Good(ParseMembers(t).value[key], "")
    decreases |t|
  {
    hide ParseChars, ParseValue, RawValue, Skip;
    var u := Skip(ParseChars(Skip(t)[1..]).rest)[1..];
    var e := Skip(ParseValue(u).rest);
    RawIsTheValue(u);
    if e[0] == ',' { RawMeans(e[1..], key); }
  }

  lemma RawIsTheValue(u: string)
    requires ParseValue(u).Good?
    ensures RawValue(u) != "" && ParseValue(RawValue(u)) == Good(ParseValue(u).value, "")
  {
    hide ParseValue, Text, Valid, Meaning, Blank;
    var pre, l := ValueIsWritten(u);
    SkipsTo(pre, l, ParseValue(u).rest);
    TextStarts(l);
    assert RawValue(u) == Text(l);
    ReadsBack("", l, "");
    assert "" + Text(l) + "" == Text(l);
  }

  lemma ObjectStarts(raw: string)
    requires ParseValue(raw).Good? && ParseValue(raw).value.Obj?
    ensures Skip(raw) != "" && Skip(raw)[0] == '{' && ParseObject(Skip(raw)[1..]) == ParseValue(raw)
  {
    hide ParseObject, ParseArray, ParseString, ParseNumber, Skip;
    var s := Skip(raw);
    if s[0] != '{' { NotAnObject(s); }
  }

  lemma NotAnObject(s: string)
    requires s != "" && s[0] != '{' && ParseAt(s).Good?
    ensures !ParseAt(s).value.Obj?
  {
    hide ParseObject, ParseChars, ParseItems, NumberSpan;
  }

  /** A file is a save exactly if it is the text of an object with the members of one,
      and its payload is that of the object. */
  lemma SaveExactlyWhen(raw: string)
    ensures ParseSave(raw).Some? <==> exists f :: Writes(raw, Obj(f)) && IsSave(f)
    ensures forall f | Writes(raw, Obj(f)) && ParseSave(raw).Some? ::
      IsSave(f) && ParseValue(ParseSave(raw).value.payload) == Good(f["payload"], "")
  {
    hide Writes, HeaderOf, RawField, IsSave;
    forall f | Writes(raw, Obj(f)) ensures ParseSave(raw).Some? <==> IsSave(f)
      ensures ParseSave(raw).Some? ==>
        "payload" in f && ParseValue(ParseSave(raw).value.payload) == Good(f["payload"], "")
    {
      ReadExactlyWhenWritten(raw, Obj(f));
      ObjectStarts(raw);
      FieldsMean(raw, f);
      HeaderExactlyWhen(f, RawField(Skip(raw)[1..], "payload"));
    }
    if ParseSave(raw).Some? {
      var v := ParseValue(raw).value;
      ReadExactlyWhenWritten(raw, v);
      assert v == Obj(v.fields) && Writes(raw, Obj(v.fields));
    }
  }

  lemma FieldsMean(raw: string, f: map<string, Value>)
    requires Skip(raw) != "" && ParseObject(Skip(raw)[1..]).Good? && ParseObject(Skip(raw)[1..]).value == Obj(f)
    ensures var p := RawField(Skip(raw)[1..], "payload");
      (p.Some? <==> "payload" in f)
        && (p.Some? ==> p.value != "" && ParseValue(p.value) == Good(f["payload"], ""))
  {
    hide ParseMembers, ParseValue, RawMember, Skip;
    var t := Skip(raw)[1..];
    if ParseMembers(t).Good? {
      MembersStartTheObject(t);
      RawMeans(t, "payload");
    }
  }

  lemma MembersStartTheObject(t: string)
    requires ParseMembers(t).Good?
    ensures Skip(t) != "" && Skip(t)[0] == '"'
      && ParseObject(t) == Good(Obj(ParseMembers(t).value), ParseMembers(t).rest)
  {}

  // ----- the checksum -----

  /** Where the digest tells `v` from whatever the payload has become, a save that
      carries the checksum of `v` passes its check exactly if `v` is its payload. */
  lemma ChangedPayloadIsCaught(sha: string -> string, h: Header, v: Value)
    requires h.checksum == Checksum(sha, Encode(v)) && WellFormed(v)
    requires Canonical(h.payload).Some? && sha(Canonical(h.payload).value) == sha(Encode(v)) ==>
      Canonical(h.payload).value == Encode(v)
    ensures Verified(sha, h) <==> ParseValue(h.payload).Good? && ParseValue(h.payload).value == v
  {
    hide Encode, WellFormed;
    if Canonical(h.payload).Some? {
      var u, c := ParseValue(h.payload).value, Canonical(h.payload).value;
      ParsedIsWellFormed(h.payload);
      assert "sha256:" + sha(c) == "sha256:" + sha(Encode(v)) ==> sha(c) == sha(Encode(v)) by {
        assert ("sha256:" + sha(c))[7..] == sha(c) && ("sha256:" + sha(Encode(v)))[7..] == sha(Encode(v));
      }
      if Encode(u) == Encode(v) { EncodeInjective(u, v); }
    }
  }

  /** Exactly these pass: a save without a checksum, and one whose checksum is the digest
      of the canonical form of its payload. */
  lemma VerifiedExactlyWhen(sha: string -> string, h: Header)
    ensures Verified(sha, h) <==> (h.checksum == "" || exists v, rest ::
      StartsWith(h.payload, v, rest) && Canonical(h.payload) == Some(Encode(v))
        && h.checksum == "sha256:" + sha(Encode(v)))
  {
    CanonicalOnlyOfValues(h.payload);
    hide StartsWith, Encode;
  }

  // ----- the file that is served -----

  /** A slot is readable exactly if its live file passes its check, or its backup does,
      or its backup is a save and its live file is none. The live file comes first, and
      only a slot without one is not found. */
  lemma ReadableExactlyWhen(sha: string -> string, files: Files, slot: string)
    ensures var live, bak, r := Live(slot), Bak(Live(slot)), ReadSave(sha, files, slot);
      var sound := live in files && Checked(sha, files[live]);
      var spare := bak in files && (Checked(sha, files[bak])
                     || (ParseSave(files[bak]).Some? && live in files && ParseSave(files[live]).None?));
      && (r.Payload? <==> sound || spare)
      && (sound ==> r == Payload(PayloadOf(files[live])))
      && (!sound && spare ==> r == Payload(PayloadOf(files[bak])))
      && (r == NotFound ==> live !in files) && (r == Unreadable ==> live in files)
  {
    hide ParseSave, Verified;
  }

  /** So a backup that passes its check is never out of reach. */
  lemma GoodBackupIsServed(sha: string -> string, files: Files, slot: string)
    requires Bak(Live(slot)) in files && Checked(sha, files[Bak(Live(slot))])
    ensures var sound := Live(slot) in files && Checked(sha, files[Live(slot)]);
      ReadSave(sha, files, slot) == Payload(PayloadOf(files[if sound then Live(slot) else Bak(Live(slot))]))
  {
    hide ParseSave, Verified;
    ReadableExactlyWhen(sha, files, slot);
  }

  // ----- deleting -----

  /** A deletion that answers success has taken the live file, and the slot is gone for
      a reader exactly if its backup went too or does not pass its check; other slots
      read as before. */
  lemma DeletedIsGone(sha: string -> string, e: Engine, slot: string, other: string)
    requires DeleteSave(e, slot).Deleted? && other != slot
    ensures var g := DeleteSave(e, slot).engine; var f, bak := g.store.files, Bak(Live(slot));
      && Live(slot) !in f && RevisionOf(g.revisions, slot) == 0
      && (ReadSave(sha, f, slot) == NotFound <==> bak !in f || !Checked(sha, f[bak]))
      && (Calm(e.store) ==> ReadSave(sha, f, slot) == NotFound)
      && ReadSave(sha, f, other) == ReadSave(sha, e.store.files, other)
  {
    hide ParseSave, Verified, Checked;
    FilesApart(slot, other, 0);
    FilesApart(other, slot, 0);
    FilesApart(slot, slot, 0);
    ReadingDependsOn(sha, e.store.files, DeleteSave(e, slot).engine.store.files, other);
  }
}
