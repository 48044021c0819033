/** The settings file of the save engine: top-level keys merged into what is there,
    through the same atomic write as saves. A document is modelled by its value;
    the bytes written are its canonical text. */
module ConfigStore {
  import opened Basics
  import opened Json
  import opened JsonCanonical
  import opened JsonSound
  import opened SaveSpec
  import opened SaveProofs
  import opened SaveRevisions
  import opened SaveTheorems
  import R = SaveRuns

  type Fields = map<string, Value>

  /** readConfigBytes: the live file, whatever it holds, else the backup. */
  function ReadBytes(files: Files, target: string): string {
    if target in files then files[target]
    else if Bak(target) in files then files[Bak(target)]
    else "{}\n"
  }

  /** A document that does not parse counts as empty. */
  function Decode(raw: string): Fields {
    match ParseValue(raw)
    case Good(v, rest) => if v.Obj? && Blank(rest) then v.fields else map[]
    case Bad => map[]
  }

  function Config(files: Files, target: string): Fields { Decode(ReadBytes(files, target)) }

  ghost function Document(fields: Fields): string { Encode(Obj(fields)) + "\n" }

  /** The document `null`, which leaves no map to merge into. */
  predicate IsNull(raw: string) {
    match ParseValue(raw)
    case Good(v, rest) => v.Null? && Blank(rest)
    case Bad => false
  }

  /** Writing a key into no map stops the program. */
  predicate Stuck(raw: string, merge: Fields) { IsNull(raw) && merge != map[] }

  ghost function Body(raw: string, merge: Fields): string {
    if IsNull(raw) then "null\n" else Document(Decode(raw) + merge)
  }

  /** MergeConfig after its revision check. */
  ghost function Merge(w: Store, target: string, merge: Fields, tmp: string): Store {
    var raw := ReadBytes(w.files, target);
    if Stuck(raw, merge) then w.(err := Io) else WriteAtomic(w, target, Body(raw, merge), tmp)
  }

  const SETTINGS := "config/settings.json"

  datatype Outcome = Outcome(engine: Engine, result: Result)

  /** MergeConfig. Without a check the write is unconditional. */
  ghost function MergeConfig(e: Engine, ifRevision: Option<int>, merge: Fields, tmp: string): Outcome {
    var current := RevisionOf(e.revisions, SETTINGS);
    if ifRevision.Some? && ifRevision.value != current then Outcome(e, Conflict(current))
    else if Stuck(ReadBytes(e.store.files, SETTINGS), merge) then Outcome(e, Panicked)
    else
      var w := Merge(e.store, SETTINGS, merge, tmp);
      if w.err != Ok then Outcome(e.(store := w), Failed)
      else Outcome(Engine(w, e.revisions[SETTINGS := current + 1]), Saved(current + 1))
  }

  ghost predicate Plain(fields: Fields) { WellFormed(Obj(fields)) }

  lemma DocumentDecodes(fields: Fields)
    requires Plain(fields)
    ensures Decode(Document(fields)) == fields && !IsNull(Document(fields))
  {
    DecodeEncode(Obj(fields), "\n");
  }

  lemma DecodedIsPlain(raw: string)
    ensures Plain(Decode(raw))
  {
    ParsedIsWellFormed(raw);
  }

  lemma MergedIsPlain(a: Fields, b: Fields)
    requires Plain(a) && Plain(b)
    ensures Plain(a + b)
  {}

  lemma ConfigAfterRotation(f: Files, g: Files, target: string, data: string)
    requires Rotated(f, g, target, data, true)
    ensures ReadBytes(g, target) in {ReadBytes(f, target), data}
  {}

  /** What is read as settings: the members of the object the whole text is a way to
      write, and none of any other text; and it is null exactly if it writes null. */
  lemma SettingsReadExactly(raw: string, fields: Fields)
    ensures Writes(raw, Obj(fields)) ==> Decode(raw) == fields
    ensures (forall f :: !Writes(raw, Obj(f))) ==> Decode(raw) == map[]
    ensures IsNull(raw) <==> Writes(raw, Null)
  {
    hide Writes;
    ReadExactlyWhenWritten(raw, Obj(fields));
    ReadExactlyWhenWritten(raw, Null);
    if ParseValue(raw).Good? { ReadExactlyWhenWritten(raw, ParseValue(raw).value); }
  }

  /** On one device a merge stopped anywhere leaves the settings as they were or
      with the merged keys on top, and a successful one the latter. */
  lemma MergeKeepsOrApplies(w: Store, target: string, merge: Fields, tmp: string)
    requires Names3(target, tmp) && OneDevice(w) && Plain(merge)
    ensures var g := Merge(w, target, merge, tmp);
      var before := Config(w.files, target);
      && Config(g.files, target) in {before, before + merge} && OneDevice(g)
      && (g.err == Ok ==> Config(g.files, target) == before + merge)
  {
    hide WriteAtomic, Decode, Document, IsNull;
    var raw := ReadBytes(w.files, target);
    if !Stuck(raw, merge) {
      BodyDecodes(raw, merge);
      WriteLeaves(w, target, Body(raw, merge), tmp);
      ConfigAfterRotation(w.files, Merge(w, target, merge, tmp).files, target, Body(raw, merge));
    }
  }

  lemma BodyDecodes(raw: string, merge: Fields)
    requires Plain(merge) && !Stuck(raw, merge)
    ensures Decode(Body(raw, merge)) == Decode(raw) + merge
    ensures IsNull(Body(raw, merge)) <==> IsNull(raw)
  {
    if IsNull(raw) {
      NullDecodes(raw);
      NullDecodes("null\n");
      assert map[] + merge == map[];
    } else {
      DecodedIsPlain(raw);
      MergedIsPlain(Decode(raw), merge);
      DocumentDecodes(Decode(raw) + merge);
    }
  }

  lemma NullDecodes(raw: string)
    ensures IsNull("null\n")
    ensures IsNull(raw) ==> Decode(raw) == map[]
  {
    assert "null\n"[..4] == "null" && "null\n"[4..] == "\n";
  }

  // ----- any number of merges -----

  /** One merge of one process, and what it meets. */
  datatype Attempt = Attempt(merge: Fields, tmp: string, script: nat -> Turn)

  ghost function Run(files: Files, target: string, attempts: seq<Attempt>): Files
    decreases |attempts|
  {
    if |attempts| == 0 then files
    else
      var a := attempts[0];
      Run(Merge(Store(files, a.script, 0, true, Ok), target, a.merge, a.tmp).files, target, attempts[1..])
  }

  ghost predicate Proper(target: string, a: Attempt) {
    Names3(target, a.tmp) && Plain(a.merge) && forall i :: a.script(i).kind != OtherDevice
  }

  function Lookup(fields: Fields, k: string): Option<Value> { if k in fields then Some(fields[k]) else None }

  /** Through any run of merges on one device, each refused or cut short anywhere,
      a setting holds its first value or one some merge gave it; so a setting no
      merge mentions never changes. */
  lemma {:induction false} SettingsSurvive(files: Files, target: string, attempts: seq<Attempt>, k: string)
    requires forall i | 0 <= i < |attempts| :: Proper(target, attempts[i])
    ensures var now := Lookup(Config(Run(files, target, attempts), target), k);
      || now == Lookup(Config(files, target), k)
      || exists i | 0 <= i < |attempts| :: k in attempts[i].merge && now == Some(attempts[i].merge[k])
    decreases |attempts|
  {
    if |attempts| > 0 {
      hide Merge, Config, Proper;
      var a := attempts[0];
      var w := Store(files, a.script, 0, true, Ok);
      var g := Merge(w, target, a.merge, a.tmp).files;
      assert Proper(target, a);
      OneMerge(w, target, a, k);
      SettingsSurvive(g, target, attempts[1..], k);
      var now := Lookup(Config(Run(g, target, attempts[1..]), target), k);
      if i :| 0 <= i < |attempts[1..]| && k in attempts[1..][i].merge && now == Some(attempts[1..][i].merge[k]) {
        assert attempts[i + 1] == attempts[1..][i];
      }
    }
  }

  lemma OneMerge(w: Store, target: string, a: Attempt, k: string)
    requires Proper(target, a) && w.script == a.script
    ensures var now := Lookup(Config(Merge(w, target, a.merge, a.tmp).files, target), k);
      now == Lookup(Config(w.files, target), k) || (k in a.merge && now == Some(a.merge[k]))
  {
    MergeKeepsOrApplies(w, target, a.merge, a.tmp);
  }

  /** A settings file that holds `null` is never repaired by a merge, every merge of
      any key stops at it, and no run of merges makes one of a file that did not. */
  lemma {:induction false} NullIsForGood(files: Files, target: string, attempts: seq<Attempt>)
    requires forall i | 0 <= i < |attempts| :: Proper(target, attempts[i])
    ensures IsNull(ReadBytes(Run(files, target, attempts), target)) <==> IsNull(ReadBytes(files, target))
    decreases |attempts|
  {
    if |attempts| > 0 {
      hide Merge, Proper, IsNull, ReadBytes;
      var a := attempts[0];
      var w := Store(files, a.script, 0, true, Ok);
      assert Proper(target, a);
      OneNull(w, target, a);
      NullIsForGood(Merge(w, target, a.merge, a.tmp).files, target, attempts[1..]);
    }
  }

  lemma OneNull(w: Store, target: string, a: Attempt)
    requires Proper(target, a) && w.script == a.script
    ensures IsNull(ReadBytes(Merge(w, target, a.merge, a.tmp).files, target)) <==> IsNull(ReadBytes(w.files, target))
  {
    hide WriteAtomic, Decode, Document, IsNull;
    var raw := ReadBytes(w.files, target);
    if !Stuck(raw, a.merge) {
      BodyDecodes(raw, a.merge);
      WriteLeaves(w, target, Body(raw, a.merge), a.tmp);
      ConfigAfterRotation(w.files, Merge(w, target, a.merge, a.tmp).files, target, Body(raw, a.merge));
    }
  }

  // ----- across devices -----

  /** Across devices it fails: a copy cut short leaves a live file that does not
      parse, the good backup is not looked at, and the next merge starts from an
      empty document, losing every setting it does not mention. */
  lemma TornConfigForgets(files: Files, target: string, merge: Fields, again: Fields, tmp: string)
    requires target != "" && target[0] != '.' && TempName(tmp) && tmp !in files && target in files
    requires Plain(merge) && Plain(again) && !Stuck(files[target], merge)
    ensures var torn := Merge(Store(files, TornCopy(), 0, true, Ok), target, merge, tmp).files;
      && Get(torn, Bak(target)) == Get(files, target)
      && forall tmp2, w: Store | w.files == torn && Calm(w) && TempName(tmp2) && tmp2 !in torn ::
           Config(Merge(w, target, again, tmp2).files, target) == again
  {
    hide Document, Decode, IsNull, WriteAtomic;
    var torn := Merge(Store(files, TornCopy(), 0, true, Ok), target, merge, tmp).files;
    assert Bak(target)[0] == target[0] && target != Bak(target);
    TornWrite(files, target, Body(files[target], merge), tmp);
    forall tmp2, w: Store | w.files == torn && Calm(w) && TempName(tmp2) && tmp2 !in torn
      ensures Config(Merge(w, target, again, tmp2).files, target) == again
    {
      MergeOverNothing(w, target, again, tmp2);
    }
  }

  /** An empty file is an empty document. */
  lemma MergeOverNothing(w: Store, target: string, merge: Fields, tmp: string)
    requires target != "" && target[0] != '.' && TempName(tmp) && tmp !in w.files && Calm(w) && Plain(merge)
    requires target in w.files && w.files[target] == ""
    ensures Config(Merge(w, target, merge, tmp).files, target) == merge
  {
    hide WriteAtomic, Document;
    assert Bak(target)[0] == target[0];
    assert Decode("") == map[] && !IsNull("") && map[] + merge == merge;
    CalmWrite(w, target, Document(merge), tmp);
    WriteLeaves(w, target, Document(merge), tmp);
    DocumentDecodes(merge);
  }

  // ----- what a merge answers -----

  /** A settings merge answers a stale revision, stops in a document that is null, and
      is otherwise attempted, as the next revision; undisturbed it succeeds. */
  lemma MergeAnswersExactly(e: Engine, ifRevision: Option<int>, merge: Fields, tmp: string)
    ensures var o, current := MergeConfig(e, ifRevision, merge, tmp), RevisionOf(e.revisions, SETTINGS);
      var stale := ifRevision.Some? && ifRevision.value != current;
      && (o.result.Conflict? <==> stale) && (o.result.Conflict? ==> o.result.current == current)
      && (o.result == Panicked <==> !stale && IsNull(ReadBytes(e.store.files, SETTINGS)) && merge != map[])
      && (o.result.Conflict? || o.result == Panicked ==> o.engine == e)
      && (o.result.Saved? ==> o.result.revision == current + 1 == RevisionOf(o.engine.revisions, SETTINGS))
      && (Calm(e.store) && TempName(tmp) && tmp !in e.store.files ==> o.result.Saved? || o.engine == e)
  {
    hide WriteAtomic, IsNull, Body, ReadBytes;
    var raw := ReadBytes(e.store.files, SETTINGS);
    if Calm(e.store) && TempName(tmp) && tmp !in e.store.files && !Stuck(raw, merge) {
      assert SETTINGS[0] == 'c' && Bak(SETTINGS)[0] == 'c';
      CalmWrite(e.store, SETTINGS, Body(raw, merge), tmp);
    }
  }

  /** A merge leaves every slot's files as they were. */
  lemma MergeKeepsSaves(sha: string -> string, e: Engine, ifRevision: Option<int>, merge: Fields, tmp: string,
                        slot: string)
    requires ValidSlot(slot) && TempName(tmp)
    ensures ReadSave(sha, MergeConfig(e, ifRevision, merge, tmp).engine.store.files, slot)
         == ReadSave(sha, e.store.files, slot)
  {
    hide WriteAtomic, IsNull, Body, ReadBytes, ReadSave;
    var raw := ReadBytes(e.store.files, SETTINGS);
    SettingsApart(slot);
    assert SETTINGS[0] == 'c' && Bak(SETTINGS)[0] == 'c';
    R.OtherWriteKeepsReading(sha, e.store, SETTINGS, Body(raw, merge), tmp, slot);
  }

  /** No slot has a path. */
  lemma SettingsApart(slot: string)
    requires ValidSlot(slot)
    ensures SETTINGS !in {Live(slot), Bak(Live(slot))} && Bak(SETTINGS) !in {Live(slot), Bak(Live(slot))}
  {
    assert SETTINGS[6] == '/' && Bak(SETTINGS)[6] == '/';
    assert '/' !in slot;
    assert '/' !in Live(slot) && '/' !in Bak(Live(slot));
  }
}
