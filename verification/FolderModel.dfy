/** The game folder and its machine-local update directory, and the system calls
    the update code makes on them.

    A directory tree is absent, torn (a removal, copy or extraction stopped part
    way) or whole. Every call consumes one fate from an adversary's script; once
    the process has died, calls do nothing. Renames and the small marker files
    are atomic. */
module FolderModel {
  import opened Basics

  type Release = string

  /** `declared`: the tree carries release.manifest.json naming its release. */
  datatype Tree = Absent | Torn | Whole(release: Release, declared: bool) {
    predicate Present() { !Absent? }
  }

  datatype Copies = NoCopy | Copy(top: Tree, rest: Copies)

  datatype Step = Begin | Promoted

  /** launcher.new/: the files a release wants to put into launcher/. */
  datatype Bundle = NoBundle | TornBundle | Bundle(files: seq<string>, release: Release)

  datatype Pending = Pending(schema: string, from: Release, target: Release, manifestUrl: string,
                             archiveUrl: string, archiveSize: int, archiveHash: string, retries: int)

  datatype Started = Started(release: Release, count: int)

  datatype Disk = Disk(
    game: Tree,                       // game/
    backup: Tree,                     // game.old/
    staged: Tree,                     // game.new/
    copies: Copies,                   // .game.promote-*, newest first
    marker: Option<Step>,             // update.state
    notes: Notes)

  datatype Notes = Notes(
    launcher: map<string, Release>,   // launcher/: whose copy of each file is live
    bundle: Bundle,                   // launcher.new/
    pending: Option<Pending>,         // pending.json
    cancel: bool,                     // cancel
    started: Option<Started>)         // started.json

  /** What holds of the machine. `split`: the update directory is on another
      volume than the game folder. `wholeDrop`: on such a machine the removal of
      game.new/ is all or nothing. `sureMarks`: removing or rewriting a marker
      file is never refused. `calmRecovery`: no call inside recovery is refused.
      `keepsSidecar`: every start finds the update directory. */
  datatype Machine = Machine(split: bool, wholeDrop: bool, sureMarks: bool,
                             calmRecovery: bool, keepsSidecar: bool)

  /** `recovering` is set while Recover runs; `err` is the outcome of the last
      call or operation. */
  datatype World = World(machine: Machine, disk: Disk, script: nat -> Fate, clock: nat,
                         recovering: bool, up: bool, err: Errno)

  /** What happens to the next call: a `sure` marker, or any call of a calm
      recovery, is never refused. */
  function Meet(w: World, sure: bool): Fate {
    var fate := w.script(w.clock);
    if (fate == Fail || fate == FailTorn) && (sure || NeverRefused(w)) then Done else fate
  }

  predicate NeverRefused(w: World) { w.recovering && w.machine.calmRecovery }

  /** One system call: `refusal` is the error it reports before it touches
      anything, `whole` its effect, `partial` what it leaves when stopped half
      way. */
  function Attempt(w: World, refusal: Errno, whole: Disk, partial: Disk, sure: bool): World {
    if !w.up then w.(err := Io)
    else if refusal != Ok then w.(clock := w.clock + 1, err := refusal)
    else match Meet(w, sure)
      case Done => w.(disk := whole, clock := w.clock + 1, err := Ok)
      case Fail => w.(clock := w.clock + 1, err := Io)
      case FailTorn => w.(disk := partial, clock := w.clock + 1, err := Io)
      case Crash => w.(up := false, err := Io)
      case CrashTorn => w.(disk := partial, up := false, err := Io)
  }

  /** A call that is atomic and has nothing to refuse. */
  function Write(w: World, whole: Disk): World {
    Attempt(w, Ok, whole, w.disk, false)
  }

  function Mark(w: World, whole: Disk): World {
    Attempt(w, Ok, whole, w.disk, w.machine.sureMarks)
  }

  function Noting(d: Disk, notes: Notes): Disk { d.(notes := notes) }

  // ----- directory trees -----

  datatype Dir = Game | Backup | Staged

  function At(d: Disk, dir: Dir): Tree {
    match dir
    case Game => d.game
    case Backup => d.backup
    case Staged => d.staged
  }

  function Set(d: Disk, dir: Dir, t: Tree): Disk {
    match dir
    case Game => d.(game := t)
    case Backup => d.(backup := t)
    case Staged => d.(staged := t)
  }

  function Tear(t: Tree): Tree {
    if t.Present() then Torn else Absent
  }

  function RemoveTree(w: World, dir: Dir): World {
    var d := w.disk;
    Attempt(w, Ok, Set(d, dir, Absent),
            if dir == Staged && w.machine.split && w.machine.wholeDrop then d else Set(d, dir, Tear(At(d, dir))),
            false)
  }

  function RenameTree(w: World, src: Dir, dst: Dir): World {
    var d := w.disk;
    Attempt(w,
            if !At(d, src).Present() || At(d, dst).Present() then Io
            else if w.machine.split && (src == Staged) != (dst == Staged) then CrossDevice
            else Ok,
            Set(Set(d, dst, At(d, src)), src, Absent), d, false)
  }

  // ----- the copy promoteDir makes beside game/ -----

  function MakeCopy(w: World): World {
    Write(w, w.disk.(copies := Copy(Torn, w.disk.copies)))
  }

  function FillCopy(w: World, src: Dir): World {
    var d := w.disk;
    if d.copies.NoCopy? || !At(d, src).Present() then Attempt(w, Io, d, d, false)
    else Attempt(w, Ok, d.(copies := Copy(At(d, src), d.copies.rest)), d.(copies := Copy(Torn, d.copies.rest)), false)
  }

  function PromoteCopy(w: World): World {
    var d := w.disk;
    if d.copies.NoCopy? || d.game.Present() then Attempt(w, Io, d, d, false)
    else Write(w, d.(game := d.copies.top, copies := d.copies.rest))
  }

  function DropCopy(w: World): World {
    var d := w.disk;
    if d.copies.NoCopy? then Write(w, d)
    else Attempt(w, Ok, d.(copies := d.copies.rest), d.(copies := Copy(Torn, d.copies.rest)), false)
  }

  function SweepCopies(w: World): World {
    Attempt(w, Ok, w.disk.(copies := NoCopy), w.disk.(copies := Copy(Torn, NoCopy)), false)
  }

  // ----- the staged launcher and the live launcher/ -----

  function RemoveBundle(w: World): World {
    var d := w.disk;
    Attempt(w, Ok, Noting(d, d.notes.(bundle := NoBundle)),
            Noting(d, d.notes.(bundle := if d.notes.bundle.NoBundle? then NoBundle else TornBundle)), false)
  }

  /** Extraction of an archive of `release` into game.new/ and launcher.new/. */
  function Unpack(w: World, release: Release, files: seq<string>, accepted: bool): World {
    var d := w.disk;
    var torn := d.(staged := Torn, notes := d.notes.(bundle := TornBundle));
    if accepted then
      Attempt(w, Ok, d.(staged := Whole(release, false), notes := d.notes.(bundle := Bundle(files, release))), torn,
        false)
    else
      Attempt(w, Ok, torn, torn, false).(err := Io)
  }

  function PrepareLauncher(w: World): World { Write(w, w.disk) }

  function CopyTemp(w: World): World { Write(w, w.disk) }

  function PutFile(w: World, name: string, release: Release): World {
    Write(w, Noting(w.disk, w.disk.notes.(launcher := w.disk.notes.launcher[name := release])))
  }

  function RenameFile(w: World, name: string, to: string): World {
    var d := w.disk;
    var files := d.notes.launcher;
    if name !in files then Attempt(w, Io, d, d, false)
    else Write(w, Noting(d, d.notes.(launcher := (files - {name})[to := files[name]])))
  }

  function RemoveFile(w: World, name: string): World {
    Write(w, Noting(w.disk, w.disk.notes.(launcher := w.disk.notes.launcher - {name})))
  }

  // ----- marker files -----

  function PutMarker(w: World, step: Step): World { Write(w, w.disk.(marker := Some(step))) }

  function DropMarker(w: World): World { Mark(w, w.disk.(marker := None)) }

  function PutProgress(w: World): World { Write(w, w.disk) }

  function PutPending(w: World, p: Pending): World { Mark(w, Noting(w.disk, w.disk.notes.(pending := Some(p)))) }

  function DropPending(w: World): World { Mark(w, Noting(w.disk, w.disk.notes.(pending := None))) }

  function PutCancel(w: World): World { Mark(w, Noting(w.disk, w.disk.notes.(cancel := true))) }

  function DropCancel(w: World): World { Mark(w, Noting(w.disk, w.disk.notes.(cancel := false))) }

  function PutStarted(w: World, s: Started): World { Write(w, Noting(w.disk, w.disk.notes.(started := Some(s)))) }

  function DropStarted(w: World): World { Write(w, Noting(w.disk, w.disk.notes.(started := None))) }
}
