/** The save engine as it runs, proved call by call against SaveSpec. */
module SaveEngine {
  import opened Basics
  import opened Json
  import opened JsonCanonical
  import opened JsonEncoder
  import opened Numerals
  import opened SaveFile
  import opened SaveSpec
  import opened Order
  import CS = ConfigStore
  import SP = SaveSpec
  import T = Text

  class Saves {
    const sha: string -> string
    const config: Config
    const script: nat -> Turn
    var files: Files
    var clock: nat
    var up: bool
    var err: Errno
    var revisions: map<string, int>

    function Disk(): Store
      reads this
    {
      Store(files, script, clock, up, err)
    }

    function State(): SP.Engine
      reads this
    {
      SP.Engine(Disk(), revisions)
    }

    constructor (sha: string -> string, config: Config, script: nat -> Turn, files: Files)
      ensures this.sha == sha && this.config == config
      ensures State() == SP.Engine(Store(files, script, 0, true, Ok), map[])
    {
      this.sha, this.config, this.script, this.files := sha, config, script, files;
      clock, up, err, revisions := 0, true, Ok, map[];
    }

    /** The file system performs a call whose outcome is `w`. */
    method Do(w: Store)
      requires w.script == script
      modifies this`files, this`clock, this`up, this`err
      ensures Disk() == w
    {
      files, clock, up, err := w.files, w.clock, w.up, w.err;
    }

    // ----- writing a file -----

    method RenameCrossDevice(src: string, dst: string)
      modifies this`files, this`clock, this`up, this`err
      ensures Disk() == CopyOver(old(Disk()), src, dst)
    {
      hide Call;
      CallsKeepScript();
      Do(Quiet(Disk()));
      if err != Ok { return; }
      Do(Truncate(Disk(), dst));
      if err != Ok { return; }
      Do(Fill(Disk(), dst, if src in files then files[src] else ""));
      if err == Ok { Do(Quiet(Disk())); }
      if err != Ok {
        Do(Remove(Disk(), dst));
        err := Io;
        return;
      }
      Do(Quiet(Disk()));
      if err != Ok { return; }
      Do(Remove(Disk(), src));
    }

    static lemma CallsKeepScript()
      ensures forall w, whole, partial :: Call(w, whole, partial).script == w.script
    {}

    method Abandon(tmp: string)
      modifies this`files, this`clock, this`up, this`err
      ensures Disk() == GiveUp(old(Disk()), tmp)
    {
      Do(Remove(Disk(), tmp));
      err := Io;
    }

    method MoveIntoPlace(target: string, tmp: string)
      modifies this`files, this`clock, this`up, this`err
      ensures Disk() == Install(old(Disk()), target, tmp)
    {
      Do(Rename(Disk(), tmp, target));
      if err == CrossDevice { RenameCrossDevice(tmp, target); }
      if err != Ok { Abandon(tmp); return; }
      Do(Quiet(Disk()));
      if up { err := Ok; }
    }

    method WriteAtomic(target: string, data: string, tmp: string)
      modifies this`files, this`clock, this`up, this`err
      ensures Disk() == SP.WriteAtomic(old(Disk()), target, data, tmp)
    {
      Do(Quiet(Disk()));
      if err != Ok { return; }
      Do(CreateNew(Disk(), tmp));
      if err != Ok { return; }
      Do(Fill(Disk(), tmp, data));
      if err == Ok { Do(Quiet(Disk())); }
      if err != Ok { Abandon(tmp); return; }
      RotateAside(target, tmp);
    }

    /** Keep the previous revision as the backup, then move the new one in. */
    method RotateAside(target: string, tmp: string)
      modifies this`files, this`clock, this`up, this`err
      ensures Disk() == Rotate(old(Disk()), target, tmp)
    {
      if target in files {
        Do(Remove(Disk(), Bak(target)));
        Do(Rename(Disk(), target, Bak(target)));
        if err != Ok { Abandon(tmp); return; }
      }
      MoveIntoPlace(target, tmp);
    }

    // ----- revisions -----

    /** The revisions of the sidecars a directory listing shows. */
    method ScanSidecars(slot: string) returns (revs: seq<int>)
      ensures revs == SidecarRevs(Sorted(files.Keys), Live(slot) + ".")
    {
      hide OneRev, Sorted, Live;
      var names := SortKeys(files.Keys);
      var prefix := Live(slot) + ".";
      revs := [];
      var i := 0;
      while i < |names|
        invariant i <= |names|
        invariant revs + SidecarRevs(names[i..], prefix) == SidecarRevs(names, prefix)
      {
        NextName(names, i, prefix, revs);
        revs := revs + OneRev(names[i], prefix);
        i := i + 1;
      }
    }

    static lemma NextName(names: seq<string>, i: nat, prefix: string, revs: seq<int>)
      requires i < |names|
      ensures revs + SidecarRevs(names[i..], prefix)
        == revs + OneRev(names[i], prefix) + SidecarRevs(names[i + 1..], prefix)
    {
      hide OneRev;
      assert names[i..][1..] == names[i + 1..];
    }

    method PruneRevisions(slot: string)
      modifies this`files, this`clock, this`up, this`err
      ensures Disk() == Prune(old(Disk()), slot, config.keep)
    {
      hide RemoveSidecars, Ascending;
      RemovesNone(Disk(), slot);
      if config.keep <= 0 { return; }
      var revs := ScanSidecars(slot);
      LengthKept(revs);
      if |revs| <= config.keep { return; }
      var sorted := Ascending(revs);
      Evict(slot, sorted[..|sorted| - config.keep]);
    }

    method Evict(slot: string, revs: seq<int>)
      modifies this`files, this`clock, this`up, this`err
      ensures Disk() == RemoveSidecars(old(Disk()), slot, revs)
    {
      hide Remove, Sidecar;
      var i := 0;
      while i < |revs|
        invariant i <= |revs|
        invariant RemoveSidecars(Disk(), slot, revs[i..]) == RemoveSidecars(old(Disk()), slot, revs)
      {
        assert revs[i..][1..] == revs[i + 1..];
        KeepsScript(Disk(), Sidecar(slot, revs[i]));
        Do(Remove(Disk(), Sidecar(slot, revs[i])));
        i := i + 1;
      }
    }

    static lemma RemovesNone(w: Store, slot: string)
      ensures RemoveSidecars(w, slot, []) == w
    {}

    static lemma KeepsScript(w: Store, name: string)
      ensures Remove(w, name).script == w.script
    {}

    static lemma {:induction false} LengthKept(revs: seq<int>)
      ensures |Ascending(revs)| == |revs|
    {
      if |revs| > 0 {
        LengthKept(revs[1..]);
        InsertGrows(revs[0], Ascending(revs[1..]));
      }
    }

    static lemma {:induction false} InsertGrows(n: int, s: seq<int>)
      ensures |Insert(n, s)| == |s| + 1
    {
      if |s| > 0 && n > s[0] { InsertGrows(n, s[1..]); }
    }

    /** The revision of one slot at the start of a process. */
    method RebuildRevision(slot: string) returns (rev: int)
      requires Live(slot) in files
      ensures rev == Rebuilt(files, slot)
    {
      var revs := ScanSidecars(slot);
      rev := 0;
      var i := 0;
      while i < |revs|
        invariant i <= |revs|
        invariant Highest(revs[i..], rev) == Highest(revs, 0)
      {
        assert revs[i..][1..] == revs[i + 1..];
        if revs[i] > rev { rev := revs[i]; }
        i := i + 1;
      }
      if rev == 0 {
        var h := ParseSave(files[Live(slot)]);
        rev := if h.Some? && h.value.revision > 0 then h.value.revision else 1;
      }
    }

    method InitRevisions()
      modifies this`revisions
      ensures revisions == SP.InitRevisions(files)
    {
      hide Rebuilt, ValidSlot, Sorted;
      var names := SortKeys(files.Keys);
      revisions := map[];
      SlotFiles(files);
      assert forall n :: n in names <==> n in files by { Listed(files.Keys); }
      var i := 0;
      while i < |names|
        invariant i <= |names|
        invariant forall s :: s in revisions <==> ValidSlot(s) && Live(s) in names[..i]
        invariant forall s <- revisions :: Live(s) in files && revisions[s] == Rebuilt(files, s)
      {
        assert names[..i + 1] == names[..i] + [names[i]];
        if IsSlotFile(names[i]) {
          var slot := SlotOf(names[i]);
          var rev := RebuildRevision(slot);
          revisions := revisions[slot := rev];
        }
        i := i + 1;
      }
    }

    static lemma Listed(names: set<string>)
      ensures forall n :: n in Sorted(names) <==> n in names
    {}

    // ----- saves -----

    method Marshal(s: Stamp, rev: int, payload: Value) returns (body: string)
      ensures body == Body(sha, s, rev, payload)
    {
      hide Encode, Envelope;
      var canonical := new Builder();
      EncodeCanonical(canonical, payload);
      assert canonical.text == Encode(payload);
      var b := new Builder();
      EncodeCanonical(b, Envelope(s, rev, Checksum(sha, canonical.text), payload));
      b.Write("\n");
      body := b.text;
    }

    method WriteSave(q: Request) returns (result: Result)
      modifies this
      ensures Written(State(), result) == SP.WriteSave(sha, config, old(State()), q)
    {
      if !ValidSlot(q.slot) { return BadSlot; }
      var current := RevisionOf(revisions, q.slot);
      if q.ifRevision.Some? && q.ifRevision.value != current { return Conflict(current); }
      var parsed := ParseValue(q.payload);
      if parsed.Bad? { return Malformed; }
      var rev := current + 1;
      var body := Marshal(StampOf(config, files, q), rev, parsed.value);
      result := Keep(q, body, rev);
    }

    method Keep(q: Request, body: string, rev: int) returns (result: Result)
      modifies this
      ensures Written(State(), result) == StoreSave(config, old(State()), q, body, rev)
    {
      WriteAtomic(Live(q.slot), body, q.tmp);
      if err != Ok { return Failed; }
      revisions := revisions[q.slot := rev];
      PruneRevisions(q.slot);
      WriteAtomic(Sidecar(q.slot, rev), IntText(rev) + "\n", q.tmp2);
      result := if up then Saved(rev) else Failed;
    }

    method Verify(h: Header) returns (ok: bool)
      ensures ok == Verified(sha, h)
    {
      if h.checksum == "" { return true; }
      var canonical := CanonicaliseJson(h.payload);
      ok := canonical.Some? && h.checksum == Checksum(sha, canonical.value);
    }

    /** The payload of a file that parses and, if asked to, verifies. */
    method ReadBackup(name: string, checked: bool) returns (text: Option<string>)
      ensures text == if name in files && ParseSave(files[name]).Some? && (checked ==> Checked(sha, files[name]))
                      then Some(PayloadOf(files[name])) else None
    {
      if name !in files { return None; }
      var h := ParseSave(files[name]);
      if h.None? { return None; }
      if checked {
        var ok := Verify(h.value);
        if !ok { return None; }
      }
      return Some(h.value.payload);
    }

    method ReadSave(slot: string) returns (r: Read)
      ensures r == SP.ReadSave(sha, files, slot)
    {
      var live := Live(slot);
      if live !in files {
        var bak := ReadBackup(Bak(live), true);
        return if bak.Some? then Payload(bak.value) else NotFound;
      }
      var h := ParseSave(files[live]);
      var ok := false;
      if h.Some? { ok := Verify(h.value); }
      if ok { return Payload(h.value.payload); }
      var bak := ReadBackup(Bak(live), h.Some?);
      return if bak.Some? then Payload(bak.value) else Unreadable;
    }

    method ReadSettings() returns (raw: string)
      ensures raw == CS.ReadBytes(files, CS.SETTINGS)
    {
      if CS.SETTINGS in files { return files[CS.SETTINGS]; }
      if Bak(CS.SETTINGS) in files { return files[Bak(CS.SETTINGS)]; }
      return "{}\n";
    }

    method Render(fields: CS.Fields) returns (text: string)
      ensures text == CS.Document(fields)
    {
      var b := new Builder();
      EncodeCanonical(b, Obj(fields));
      b.Write("\n");
      text := b.text;
    }

    method MergeConfig(ifRevision: Option<int>, merge: CS.Fields, tmp: string) returns (result: Result)
      modifies this
      ensures CS.Outcome(State(), result) == CS.MergeConfig(old(State()), ifRevision, merge, tmp)
    {
      hide CS.Document, CS.Decode, CS.IsNull, CS.ReadBytes, SP.WriteAtomic;
      var current := RevisionOf(revisions, CS.SETTINGS);
      if ifRevision.Some? && ifRevision.value != current { return Conflict(current); }
      var raw := ReadSettings();
      var text;
      if CS.IsNull(raw) {
        if merge != map[] { return Panicked; }
        text := "null\n";
      } else {
        text := Render(CS.Decode(raw) + merge);
      }
      WriteAtomic(CS.SETTINGS, text, tmp);
      if err != Ok { return Failed; }
      revisions := revisions[CS.SETTINGS := current + 1];
      return Saved(current + 1);
    }

    method DeleteSave(slot: string) returns (found: bool, done: bool)
      modifies this
      ensures var d := SP.DeleteSave(old(State()), slot);
        && found == !d.NoSuchSave? && done == d.Deleted?
        && State() == if found then d.engine else old(State())
    {
      if !ValidSlot(slot) || Live(slot) !in files { return false, false; }
      Do(Remove(Disk(), Live(slot)));
      if err != Ok { return true, false; }
      if Bak(Live(slot)) in files { Do(Remove(Disk(), Bak(Live(slot)))); }
      revisions := revisions[slot := 0];
      return true, true;
    }
  }
}
