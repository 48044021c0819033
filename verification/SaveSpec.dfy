/** The save engine: the files of the saves directory, the calls it makes on them,
    and its operations as functions from one state to the next. */
module SaveSpec {
  import opened Basics
  import opened Json
  import opened JsonCanonical
  import opened Numerals
  import opened SaveFile
  import opened Order
  import Names
  import T = Text

  type Files = map<string, string>

  /** What one call meets. `cut` is how much a stopped write leaves behind. */
  datatype Kind = Works | Refused | OtherDevice | Dies
  datatype Turn = Turn(kind: Kind, cut: nat)

  datatype Store = Store(files: Files, script: nat -> Turn, clock: nat, up: bool, err: Errno)

  // ----- system calls -----

  /** One call: its effect, and what it leaves when refused or interrupted. */
  function Call(w: Store, whole: Files, partial: Files): Store {
    if !w.up then w.(err := Io)
    else match w.script(w.clock).kind
      case Works => w.(files := whole, clock := w.clock + 1, err := Ok)
      case Refused => w.(files := partial, clock := w.clock + 1, err := Io)
      case OtherDevice => w.(files := partial, clock := w.clock + 1, err := CrossDevice)
      case Dies => w.(files := partial, up := false, err := Io)
  }

  /** A call that changes nothing a reader sees. */
  function Quiet(w: Store): Store { Call(w, w.files, w.files) }

  function Take(s: string, n: nat): string { if n < |s| then s[..n] else s }

  function Fill(w: Store, name: string, data: string): Store {
    Call(w, w.files[name := data], w.files[name := Take(data, w.script(w.clock).cut)])
  }

  function CreateNew(w: Store, name: string): Store {
    if name in w.files then Quiet(w).(err := Io) else Call(w, w.files[name := ""], w.files)
  }

  function Truncate(w: Store, name: string): Store { Call(w, w.files[name := ""], w.files) }

  function Remove(w: Store, name: string): Store { Call(w, w.files - {name}, w.files) }

  function Rename(w: Store, src: string, dst: string): Store {
    if src !in w.files then Quiet(w).(err := Io)
    else Call(w, (w.files - {src})[dst := w.files[src]], w.files)
  }

  // ----- writeAtomic -----

  function Bak(target: string): string { target + ".bak" }

  function WriteAtomic(w: Store, target: string, data: string, tmp: string): Store {
    var a := Quiet(w);
    if a.err != Ok then a else
    var b := CreateNew(a, tmp);
    if b.err != Ok then b else WriteTemp(b, target, data, tmp)
  }

  function WriteTemp(w: Store, target: string, data: string, tmp: string): Store {
    var a := Fill(w, tmp, data);
    if a.err != Ok then GiveUp(a, tmp) else
    var b := Quiet(a);
    if b.err != Ok then GiveUp(b, tmp) else Rotate(b, target, tmp)
  }

  function GiveUp(w: Store, tmp: string): Store { Remove(w, tmp).(err := Io) }

  function Rotate(w: Store, target: string, tmp: string): Store {
    if target !in w.files then Install(w, target, tmp) else
    var a := Rename(Remove(w, Bak(target)), target, Bak(target));
    if a.err != Ok then GiveUp(a, tmp) else Install(a, target, tmp)
  }

  function Install(w: Store, target: string, tmp: string): Store {
    var a := Rename(w, tmp, target);
    if a.err == Ok then SyncDir(a)
    else if a.err != CrossDevice then GiveUp(a, tmp)
    else
      var b := CopyOver(a, tmp, target);
      if b.err != Ok then GiveUp(b, tmp) else SyncDir(b)
  }

  /** Errors of the directory sync are ignored. */
  function SyncDir(w: Store): Store {
    var a := Quiet(w);
    if a.up then a.(err := Ok) else a
  }

  /** renameCrossDevice. */
  function CopyOver(w: Store, src: string, dst: string): Store {
    var a := Quiet(w);
    if a.err != Ok then a else
    var b := Truncate(a, dst);
    if b.err != Ok then b else CopyInto(b, src, dst)
  }

  function CopyInto(w: Store, src: string, dst: string): Store {
    var a := Fill(w, dst, if src in w.files then w.files[src] else "");
    var b := if a.err == Ok then Quiet(a) else a;
    if b.err != Ok then Remove(b, dst).(err := Io) else
    var c := Quiet(b);
    if c.err != Ok then c else Remove(c, src)
  }

  // ----- slots -----

  predicate SlotChar(c: char) { 'a' <= c <= 'z' || '0' <= c <= '9' || c in "._-" }

  predicate ReservedSlot(s: string) {
    (forall c <- s :: c == '.' || c == ' ') || Names.Device(Names.Upper(Names.TrimRightOf(Names.BeforeDot(s), " ")))
  }

  /** ValidateIdentifier. */
  predicate ValidSlot(s: string) {
    && 1 <= |s| <= 64 && (forall c <- s :: SlotChar(c)) && s[0] !in "._-"
    && !ReservedSlot(s) && !Names.EndsIn(s, '.')
  }

  function Live(slot: string): string { slot + ".json" }

  function Sidecar(slot: string, rev: int): string { Live(slot) + "." + IntText(rev) }

  // ----- reading -----

  datatype Read = Payload(text: string) | NotFound | Unreadable

  ghost predicate Checked(sha: string -> string, raw: string) {
    ParseSave(raw).Some? && Verified(sha, ParseSave(raw).value)
  }

  function PayloadOf(raw: string): string
    requires ParseSave(raw).Some?
  {
    ParseSave(raw).value.payload
  }

  /** ReadSave. A backup standing in for an unparseable save is not verified. */
  ghost function ReadSave(sha: string -> string, files: Files, slot: string): Read {
    var live, bak := Live(slot), Bak(Live(slot));
    if live !in files then
      if bak in files && Checked(sha, files[bak]) then Payload(PayloadOf(files[bak])) else NotFound
    else if ParseSave(files[live]).None? then
      if bak in files && ParseSave(files[bak]).Some? then Payload(PayloadOf(files[bak])) else Unreadable
    else if !Checked(sha, files[live]) then
      if bak in files && Checked(sha, files[bak]) then Payload(PayloadOf(files[bak])) else Unreadable
    else Payload(PayloadOf(files[live]))
  }

  // ----- the revision store -----

  /** Revisions of the sidecars among `names`, in their order. */
  function SidecarRevs(names: seq<string>, prefix: string): seq<int> {
    if |names| == 0 then []
    else OneRev(names[0], prefix) + SidecarRevs(names[1..], prefix)
  }

  function OneRev(name: string, prefix: string): seq<int> {
    if prefix <= name && T.Atoi(name[|prefix|..]).Some? then [T.Atoi(name[|prefix|..]).value] else []
  }

  function Insert(n: int, s: seq<int>): seq<int> {
    if |s| == 0 || n <= s[0] then [n] + s else [s[0]] + Insert(n, s[1..])
  }

  function Ascending(s: seq<int>): seq<int> {
    if |s| == 0 then [] else Insert(s[0], Ascending(s[1..]))
  }

  function RemoveSidecars(w: Store, slot: string, revs: seq<int>): Store
    decreases |revs|
  {
    if |revs| == 0 then w else RemoveSidecars(Remove(w, Sidecar(slot, revs[0])), slot, revs[1..])
  }

  /** The revisions pruneRevisions evicts. */
  ghost function Evicted(files: Files, slot: string, keep: int): seq<int> {
    var revs := Ascending(SidecarRevs(Sorted(files.Keys), Live(slot) + "."));
    if keep <= 0 || |revs| <= keep then [] else revs[..|revs| - keep]
  }

  ghost function Prune(w: Store, slot: string, keep: int): Store {
    RemoveSidecars(w, slot, Evicted(w.files, slot, keep))
  }

  function Highest(revs: seq<int>, least: int): int {
    if |revs| == 0 then least else Highest(revs[1..], if revs[0] > least then revs[0] else least)
  }

  /** What InitRevisions makes of one slot. */
  ghost function Rebuilt(files: Files, slot: string): int
    requires Live(slot) in files
  {
    var high := Highest(SidecarRevs(Sorted(files.Keys), Live(slot) + "."), 0);
    if high != 0 then high
    else match ParseSave(files[Live(slot)])
      case Some(h) => if h.revision > 0 then h.revision else 1
      case None => 1
  }

  predicate IsSlotFile(name: string) {
    |name| >= 5 && name[|name| - 5..] == ".json" && ValidSlot(name[..|name| - 5])
  }

  // ----- the engine -----

  datatype Config = Config(keep: int, saveVersion: int, gameVersion: string, release: string)

  datatype Engine = Engine(store: Store, revisions: map<string, int>)

  function RevisionOf(revisions: map<string, int>, slot: string): int {
    if slot in revisions then revisions[slot] else 0
  }

  /** `now`: the clock reading, `tmp` and `tmp2`: names for the temporary files. */
  datatype Request = Request(slot: string, ifRevision: Option<int>, payload: string, compression: string,
                             playtime: Option<int>, now: string, tmp: string, tmp2: string)

  datatype Result = Saved(revision: int) | BadSlot | Conflict(current: int) | Malformed | Failed | Panicked

  function Created(files: Files, slot: string, now: string): string {
    if Live(slot) in files && ParseSave(files[Live(slot)]).Some? && ParseSave(files[Live(slot)]).value.created != ""
    then ParseSave(files[Live(slot)]).value.created else now
  }

  function StampOf(c: Config, files: Files, q: Request): Stamp {
    Stamp(c.saveVersion, c.gameVersion, c.release, Created(files, q.slot, q.now), q.now, q.compression, q.playtime)
  }

  datatype Written = Written(engine: Engine, result: Result)

  ghost function WriteSave(sha: string -> string, c: Config, e: Engine, q: Request): Written {
    var current := RevisionOf(e.revisions, q.slot);
    if !ValidSlot(q.slot) then Written(e, BadSlot)
    else if q.ifRevision.Some? && q.ifRevision.value != current then Written(e, Conflict(current))
    else match ParseValue(q.payload)
      case Bad => Written(e, Malformed)
      case Good(v, _) => StoreSave(c, e, q, Body(sha, StampOf(c, e.store.files, q), current + 1, v), current + 1)
  }

  ghost function StoreSave(c: Config, e: Engine, q: Request, body: string, rev: int): Written {
    var w := WriteAtomic(e.store, Live(q.slot), body, q.tmp);
    if w.err != Ok then Written(e.(store := w), Failed) else Commit(c, e.(store := w), q, rev)
  }

  /** After the write: bump, prune, and the sidecar, whose failure is ignored. */
  ghost function Commit(c: Config, e: Engine, q: Request, rev: int): Written {
    var a := Prune(e.store, q.slot, c.keep);
    var b := WriteAtomic(a, Sidecar(q.slot, rev), IntText(rev) + "\n", q.tmp2);
    Written(Engine(b, e.revisions[q.slot := rev]), if b.up then Saved(rev) else Failed)
  }

  /** A new process over the files it finds. */
  ghost function Restart(e: Engine): Engine {
    Engine(e.store.(clock := e.store.clock + 1, up := true, err := Ok), InitRevisions(e.store.files))
  }

  function SlotOf(name: string): string
    requires IsSlotFile(name)
  {
    name[..|name| - 5]
  }

  /** The slots a directory listing shows: those with a live file. */
  ghost function Slots(files: Files): (slots: set<string>)
    ensures forall s :: s in slots <==> ValidSlot(s) && Live(s) in files
  {
    SlotFiles(files);
    set name | name in files && IsSlotFile(name) :: SlotOf(name)
  }

  lemma SlotFiles(files: Files)
    ensures forall name | name in files && IsSlotFile(name) :: Live(SlotOf(name)) == name
    ensures forall s: string | ValidSlot(s) :: IsSlotFile(Live(s)) && SlotOf(Live(s)) == s
  {
    forall name | name in files && IsSlotFile(name) ensures Live(SlotOf(name)) == name {
      assert name == name[..|name| - 5] + name[|name| - 5..];
    }
  }

  ghost function InitRevisions(files: Files): map<string, int> {
    map slot | slot in Slots(files) :: Rebuilt(files, slot)
  }

  datatype Deletion = Deleted(engine: Engine) | NoSuchSave | DeletionFailed(engine: Engine)

  /** DeleteSave. Moving a file to the trash is one call; the sidecars stay. */
  function DeleteSave(e: Engine, slot: string): Deletion {
    if !ValidSlot(slot) || Live(slot) !in e.store.files then NoSuchSave
    else
      var a := Remove(e.store, Live(slot));
      if a.err != Ok then DeletionFailed(e.(store := a))
      else
        var b := if Bak(Live(slot)) in a.files then Remove(a, Bak(Live(slot))) else a;
        Deleted(Engine(b, e.revisions[slot := 0]))
  }
}
