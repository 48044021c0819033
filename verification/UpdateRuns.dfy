/** Runs of the whole update life: starts, heartbeats, requests and cancellations,
    each cut short by a crash at any call, and the exact machines on which they
    are safe. */
module UpdateRuns {
  import opened Basics
  import opened FolderModel
  import opened SwapSpec
  import opened SwapProofs
  import opened RecoveryTheorems
  import opened UpdateSpec
  import opened UpdateProofs
  import Versions

  datatype Event =
    | Start(script: nat -> Fate, sidecar: bool, attempt: Attempt)
    | Heartbeat(script: nat -> Fate)
    | Request(script: nat -> Fate, running: Release, latest: Release, url: string, manifest: Manifest)
    | CancelRequest(script: nat -> Fate)

  /** The launcher serves, so only a live process with a game/ can be asked. */
  predicate Serving(w: World) { w.up && w.disk.game.Present() }

  function Next(w: World, ev: Event): World {
    match ev
    case Start(script, sidecar, attempt) => Startup(Reboot(w, script), sidecar, attempt).world
    case Heartbeat(script) => if Serving(w) then NoteSuccessfulStart(Reboot(w, script)) else w
    case Request(script, running, latest, url, manifest) =>
      if Serving(w) then Record(Reboot(w, script), running, latest, url, manifest) else w
    case CancelRequest(script) => if Serving(w) then RequestCancel(Reboot(w, script)) else w
  }

  function Run(w: World, events: seq<Event>): World
    decreases |events|
  {
    if |events| == 0 then w else Next(Run(w, events[..|events| - 1]), events[|events| - 1])
  }

  ghost predicate Legal(m: Machine, events: seq<Event>) {
    forall i | 0 <= i < |events| :: m.keepsSidecar && events[i].Start? ==> events[i].sidecar
  }

  /** What every reachable world satisfies. */
  ghost predicate Safe(w: World) {
    Inv(w.disk) && Honest(w.disk)
  }

  ghost predicate RunInv(w: World) {
    Safe(w) && (w.up ==> Resting(w.disk))
  }

  // ----- one start -----

  lemma HonestAfter(d: Disk, e: Disk)
    requires Honest(d) && Only(e, Chosen(d), Spare(d)) && e.notes.launcher == d.notes.launcher
      && e.notes.pending == d.notes.pending
    ensures Honest(e)
  {}

  lemma EndedIsSafe(e: Ending, w: World, p: Pending, k: bool)
    requires Ready(w, p) && Honest(w.disk) && Ended(e, w, p, k)
    ensures Safe(e.world)
  {
    var q := e.world.disk.notes.pending;
    if q.Some? { assert Forward(q.value) == Forward(p) && ValidPending(q.value) == ValidPending(p); }
  }

  lemma ApplyEnds(w: World, a: Attempt)
    requires Sound(w.machine) && Settled(w.disk) && w.disk.notes.pending.Some?
    ensures Apply(w, a).result.outcome != Skipped ==> Ended(Apply(w, a), w, w.disk.notes.pending.value, MayCancel(a))
    ensures Apply(w, a).result.outcome == Skipped ==> Apply(w, a).world == w
  {
    PendingEnds(w, a, w.disk.notes.pending.value);
  }

  ghost predicate Inert(e: Ending, w: World) {
    !e.world.up && e.world.disk == w.disk && e.world.machine == w.machine
  }

  lemma DeadEndings(w: World, p: Pending, outcome: Outcome, reason: string)
    requires !w.up
    ensures Inert(Drop(w, outcome, reason), w) && Inert(Terminal(w, reason), w)
    ensures Inert(Retry(w, p, reason), w) && Inert(HonourCancel(w), w)
  {}

  lemma DeadArchive(w: World, a: Attempt, p: Pending)
    requires !w.up
    ensures Inert(ApplyArchive(w, a, p), w)
  {}

  lemma DeadManifest(w: World, a: Attempt, p: Pending, m: Manifest)
    requires !w.up
    ensures Inert(ApplyManifest(w, a, p, m), w)
  {
    hide ApplyArchive, Retry, Terminal, HonourCancel, Reconcile, Versions.FloorMet, RequiredBytes, ResolveArchiveUrl;
    var e := ApplyManifest(w, a, p, m);
    DeadEndings(w, p, e.result.outcome, e.result.reason);
    DeadEndings(w, p, Unapplied, "download_failed");
    DeadEndings(w, p, Unapplied, "verify_failed");
    DeadArchive(w, a, p);
  }

  /** A dead process applies nothing. */
  lemma DeadApply(w: World, a: Attempt, p: Pending)
    requires !w.up
    ensures Inert(ApplyPending(w, a, p), w)
  {
    var e := ApplyPending(w, a, p);
    DeadEndings(w, p, e.result.outcome, e.result.reason);
    if a.manifest.Some? { DeadManifest(w, a, p, a.manifest.value); }
  }

  /** The world after the recovery half of a start. */
  function RecoveredWorld(w: World): World {
    var r := Recover(w, true);
    if r.action.RolledBack? then DropStarted(r.world) else r.world
  }

  lemma RecoveredWorldKeeps(w: World)
    requires Sound(w.machine) && Safe(w) && !w.recovering
    ensures var v := RecoveredWorld(w);
      && v.machine == w.machine && !v.recovering && Safe(v) && v.disk.notes.pending == w.disk.notes.pending
      && v.disk.notes.launcher == w.disk.notes.launcher && v.disk.notes.cancel == w.disk.notes.cancel
      && (v.up ==> Settled(v.disk) && v.disk.staged.Absent?)
  {
    RecoverKeeps(w);
    var r := Recover(w, true);
    HonestAfter(w.disk, r.world.disk);
    assert DropStarted(r.world).disk == r.world.disk
        || DropStarted(r.world).disk == Noting(r.world.disk, r.world.disk.notes.(started := None));
  }

  /** A start that survives to its end. */
  lemma StartKeeps(w: World, script: nat -> Fate, a: Attempt)
    requires Sound(w.machine) && Safe(w)
    ensures RunInv(Startup(Reboot(w, script), true, a).world)
    ensures Startup(Reboot(w, script), true, a).world.machine == w.machine
  {
    var u := Reboot(w, script);
    var v := RecoveredWorld(u);
    RecoveredWorldKeeps(u);
    if v.disk.notes.pending.Some? {
      if v.up {
        ApplyEnds(v, a);
        if Apply(v, a).result.outcome != Skipped {
          EndedIsSafe(Apply(v, a), v, v.disk.notes.pending.value, MayCancel(a));
        }
      } else { DeadApply(v, a, v.disk.notes.pending.value); }
    }
  }

  // ----- the other events -----

  ghost predicate Keeps(v: World, w: World) { RunInv(v) && v.machine == w.machine }

  /** Only records changed, and the marker at most went away. */
  ghost predicate NotesOnly(v: World, w: World) {
    && v.machine == w.machine && (v.up ==> w.up)
    && v.disk == Noting(w.disk, v.disk.notes) && v.disk.notes.launcher == w.disk.notes.launcher
    && (v.disk.notes.pending == w.disk.notes.pending || v.disk.notes.pending.None?)
  }

  lemma NotesOnlyKeeps(v: World, w: World)
    requires RunInv(w) && NotesOnly(v, w)
    ensures Keeps(v, w)
  {}

  lemma NoteCalls(w: World, started: Started)
    ensures NotesOnly(DropPending(w), w) && NotesOnly(DropCancel(w), w) && NotesOnly(PutCancel(w), w)
    ensures NotesOnly(PutProgress(w), w) && NotesOnly(PutStarted(w, started), w) && NotesOnly(DropStarted(w), w)
  {}

  lemma HeartbeatKeeps(w: World)
    requires RunInv(w) && Serving(w)
    ensures Keeps(NoteSuccessfulStart(w), w)
  {
    var release := InstalledRelease(w.disk);
    var prev := w.disk.notes.started;
    var count := if prev.Some? && prev.value.release == release && prev.value.count > 0
                 then prev.value.count + 1 else 1;
    var a := PutStarted(w, Started(release, count));
    NoteCalls(w, Started(release, count));
    NotesOnlyKeeps(a, w);
    RetireKeeps(a);
    var b := RemoveTree(a, Backup);
    NoteCalls(b, Started(release, count));
    NotesOnlyKeeps(DropStarted(b), b);
  }

  lemma RetireKeeps(w: World)
    requires RunInv(w) && w.disk.marker.None? && w.disk.game.Present()
    ensures Keeps(RemoveTree(w, Backup), w)
  {}

  /** A request that is no step forward from the reported release is never applied,
      so one that is is never already reported. */
  lemma PutPendingKeeps(w: World, p: Pending)
    requires RunInv(w) && w.disk.marker.None? && InstalledRelease(w.disk) in {"", p.from}
    ensures Keeps(PutPending(w, p), w)
  {
    Versions.ReleaseNewerIsStrictWeakOrder(p.target, p.target, p.from);
  }

  lemma RequestKeeps(w: World, running: Release, latest: Release, url: string, m: Manifest)
    requires RunInv(w) && Serving(w)
    ensures Keeps(Record(w, running, latest, url, m), w)
  {
    var p := Pending(PENDING_SCHEMA, Current(w.disk, running), m.release, url,
                     m.archiveUrl, m.archiveSize, m.archiveHash, 0);
    WritePendingKeeps(w, p);
  }

  lemma WritePendingKeeps(w: World, p: Pending)
    requires RunInv(w) && w.disk.marker.None? && InstalledRelease(w.disk) in {"", p.from}
    ensures Keeps(WritePending(w, p), w)
  {
    var a := PutProgress(w);
    var b := DropCancel(a);
    NoteCalls(w, Started("", 0));
    NotesOnlyKeeps(a, w);
    NoteCalls(a, Started("", 0));
    NotesOnlyKeeps(b, a);
    PutPendingKeeps(b, p);
  }

  lemma CancelKeeps(w: World)
    requires RunInv(w)
    ensures Keeps(RequestCancel(w), w)
  {
    var a := DropPending(w);
    var b := DropCancel(a);
    NoteCalls(w, Started("", 0));
    NotesOnlyKeeps(a, w);
    NoteCalls(a, Started("", 0));
    NotesOnlyKeeps(b, a);
    NoteCalls(b, Started("", 0));
    NotesOnlyKeeps(PutCancel(b), b);
  }

  // ----- every run -----

  lemma NextKeeps(w: World, ev: Event)
    requires Sound(w.machine) && RunInv(w) && (ev.Start? ==> ev.sidecar)
    ensures RunInv(Next(w, ev)) && Next(w, ev).machine == w.machine
  {
    match ev
    case Start(script, _, attempt) => StartKeeps(w, script, attempt);
    case Heartbeat(script) => if Serving(w) { HeartbeatKeeps(Reboot(w, script)); }
    case Request(script, running, latest, url, m) =>
      if Serving(w) { RequestKeeps(Reboot(w, script), running, latest, url, m); }
    case CancelRequest(script) => if Serving(w) { CancelKeeps(Reboot(w, script)); }
  }

  /** Over every run, whatever calls are refused or die: some whole release can
      be recovered, and no pending request is mistaken for an installed one. */
  lemma {:induction false} EveryRunIsSafe(w: World, events: seq<Event>)
    requires Sound(w.machine) && RunInv(w) && Legal(w.machine, events)
    ensures RunInv(Run(w, events)) && Run(w, events).machine == w.machine
    decreases |events|
  {
    if |events| > 0 {
      EveryRunIsSafe(w, events[..|events| - 1]);
      NextKeeps(Run(w, events[..|events| - 1]), events[|events| - 1]);
    }
  }
}
