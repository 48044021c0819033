/** The ordered apply pipeline, the launcher merge, retention and the start-up
    pass, as functions from one world to the next. */
module UpdateSpec {
  import opened Basics
  import opened FolderModel
  import opened SwapSpec
  import N = Numerals
  import Versions

  const RETRY_BUDGET := 3
  const STARTED_RETIRE_COUNT := 2
  const PENDING_SCHEMA := "kobra.update-pending/1"
  const CONFIG := "launcher.config.json"
  const ASIDE := ".replaced"

  // ----- what the folder reports -----

  function ConfigRelease(d: Disk): Release {
    if CONFIG in d.notes.launcher then d.notes.launcher[CONFIG] else ""
  }

  /** The release a folder with `tree` as game/ reports: the tree's own manifest,
      else launcher.config.json. */
  function ReportedFor(tree: Tree, d: Disk): Release {
    if tree.Whole? && tree.declared && tree.release != "" then tree.release else ConfigRelease(d)
  }

  function InstalledRelease(d: Disk): Release { ReportedFor(d.game, d) }

  function HasRetainedBackup(d: Disk): bool { d.backup.Present() && d.game.Present() }

  // ----- MergeLauncherInto -----

  /** copyFilePreservingMode: rename over the live file, or move it aside first. */
  function ReplaceFile(w: World, name: string, release: Release): World {
    var a := CopyTemp(w);
    if a.err != Ok then a else
    var b := PutFile(a, name, release);
    if b.err == Ok || name !in b.disk.notes.launcher then b else ReplaceAside(b, name, release)
  }

  function ReplaceAside(w: World, name: string, release: Release): World {
    var a := RenameFile(RemoveFile(w, name + ASIDE), name, name + ASIDE);
    if a.err != Ok then a else
    var b := PutFile(a, name, release);
    if b.err != Ok then RenameFile(b, name + ASIDE, name).(err := Io)
    else RemoveFile(b, name + ASIDE).(err := Ok)
  }

  function ReplaceFiles(w: World, files: seq<string>, release: Release): World
    decreases |files|
  {
    if |files| == 0 then w.(err := Ok) else
    var a := ReplaceFile(w, files[0], release);
    if a.err != Ok then a else ReplaceFiles(a, files[1..], release)
  }

  /** A torn launcher.new/ never gets here: the pipeline merges only what a
      completed extraction of the same attempt left. */
  function MergeLauncher(w: World): World {
    match w.disk.notes.bundle
    case NoBundle => w.(err := Ok)
    case TornBundle => w.(err := Io)
    case Bundle(files, release) =>
      var a := PrepareLauncher(w);
      if a.err != Ok then a else ReplaceFiles(a, files, release)
  }

  // ----- Apply -----

  datatype Outcome = NoPending | Applied | AlreadyCurrent | Skipped | Cancelled | Unapplied

  datatype Result = Result(outcome: Outcome, reason: string, retryable: bool)

  datatype Ending = Ending(world: World, result: Result)

  datatype Manifest = Manifest(release: Release, archiveSize: int, archiveHash: string, archiveUrl: string,
                               totalSize: int, launcherMin: string)

  datatype Lock = LockFree | LockHeld | LockBroken

  /** Download refusals that no retry will fix, and the reason Apply gives. */
  datatype Policy = InsecureScheme | ArchiveTooLarge | NoArchiveSize {
    function Reason(): string {
      match this
      case InsecureScheme => "insecure_scheme"
      case ArchiveTooLarge => "archive_too_large"
      case NoArchiveSize => "no_archive_size"
    }
  }

  datatype Download = Fetched | DownloadCancelled | DownloadRefused(policy: Policy) | DownloadFailed

  /** What the world outside the folder answers during one Apply. */
  datatype Attempt = Attempt(
    dirReady: bool, lock: Lock, manifest: Option<Manifest>, resolve: (string, string) -> Option<string>,
    launcherVersion: string, freeSpace: Option<int>, download: Download, verified: bool,
    accepted: bool, files: seq<string>, dataTouched: bool, configValid: bool, cancelArrives: bool)

  predicate ValidPending(p: Pending) {
    p.schema == PENDING_SCHEMA && Versions.ValidRelease(p.target) && p.manifestUrl != ""
  }

  /** The marker moves the folder forward, or nothing says it does not. */
  predicate Forward(p: Pending) {
    p.from == "" || Versions.ReleaseNewer(p.target, p.from)
  }

  function ResolveArchiveUrl(p: Pending, m: Manifest, resolve: (string, string) -> Option<string>): string {
    var named := if p.archiveUrl != "" then p.archiveUrl else m.archiveUrl;
    if named == "" then ""
    else match resolve(p.manifestUrl, named)
      case Some(url) => url
      case None => named
  }

  /** reconcilePending: the first field of the marker the manifest contradicts. */
  function Reconcile(p: Pending, m: Manifest, resolve: (string, string) -> Option<string>): Option<string> {
    if p.target != m.release then Some("release")
    else if p.archiveSize > 0 && m.archiveSize != p.archiveSize then Some("archive_size")
    else if p.archiveHash != "" && m.archiveHash != p.archiveHash then Some("archive_hash")
    else if p.archiveUrl != "" then
      var want := match resolve(p.manifestUrl, p.archiveUrl) case Some(url) => url case None => p.archiveUrl;
      var got := ResolveArchiveUrl(p, m, resolve);
      if got != "" && want != got then Some("archive_url") else None
    else None
  }

  const HEADROOM := 0x400_0000

  /** Peak disk need: the archive, the staged copy, the backup copy and slack, as
      64-bit arithmetic has it. */
  function RequiredBytes(archiveSize: int, totalSize: int): int {
    var archive := if archiveSize < 0 then 0 else archiveSize;
    var total := if totalSize < 0 then 0 else totalSize;
    N.Wrap(N.Wrap(archive + total + total) + if total / 20 > HEADROOM then total / 20 else HEADROOM)
  }

  function Apply(w: World, a: Attempt): Ending {
    if !a.dirReady then Ending(w, Result(Skipped, "sidecar_unwritable", false))
    else match a.lock
      case LockHeld => Ending(w, Result(Skipped, "locked", false))
      case LockBroken => Ending(w, Result(Skipped, "lock_failed", false))
      case LockFree =>
        match w.disk.notes.pending
        case None => Ending(w, Result(NoPending, "", false))
        case Some(p) => ApplyPending(w, a, p)
  }

  function Drop(w: World, outcome: Outcome, reason: string): Ending {
    Ending(DropPending(w), Result(outcome, reason, false))
  }

  function HonourCancel(w: World): Ending {
    Ending(DropCancel(DropPending(w)), Result(Cancelled, "cancelled", false))
  }

  /** failTerminal after the marker was already dropped once. */
  function Terminal(w: World, reason: string): Ending {
    Drop(DropPending(w), Unapplied, reason)
  }

  /** failRetryable: count the failure, give up when the budget is spent. */
  function Retry(w: World, p: Pending, reason: string): Ending {
    var a := PutPending(w, p.(retries := p.retries + 1));
    if p.retries + 1 >= RETRY_BUDGET then Ending(DropPending(a), Result(Unapplied, reason, false))
    else Ending(a, Result(Unapplied, reason, true))
  }

  function ApplyPending(w: World, a: Attempt, p: Pending): Ending {
    if !ValidPending(p) then Drop(w, Unapplied, "invalid_marker")
    else if !Forward(p) then Drop(w, Unapplied, "not_newer")
    else if w.disk.notes.cancel then HonourCancel(w)
    else if p.retries >= RETRY_BUDGET then Drop(w, Unapplied, "retries_exhausted")
    else if InstalledRelease(w.disk) != "" && InstalledRelease(w.disk) == p.target then
      Drop(w, AlreadyCurrent, "already_current")
    else match a.manifest
      case None => Retry(w, p, "manifest_unreachable")
      case Some(m) => ApplyManifest(w, a, p, m)
  }

  function ApplyManifest(w: World, a: Attempt, p: Pending, m: Manifest): Ending {
    if Reconcile(p, m, a.resolve).Some? then Drop(w, Unapplied, "manifest_drift")
    else if !Versions.FloorMet(m.launcherMin, a.launcherVersion) then Drop(w, Unapplied, "launcher_min")
    else if a.freeSpace.Some? && a.freeSpace.value < RequiredBytes(m.archiveSize, m.totalSize) then
      Ending(w, Result(Unapplied, "insufficient_space", true))
    else if m.archiveSize <= 0 then Drop(w, Unapplied, "no_archive_size")
    else if ResolveArchiveUrl(p, m, a.resolve) == "" then Drop(w, Unapplied, "no_archive_url")
    else match a.download
      case DownloadCancelled => HonourCancel(w)
      case DownloadRefused(policy) => Drop(w, Unapplied, policy.Reason())
      case DownloadFailed => Retry(w, p, "download_failed")
      case Fetched => if !a.verified then Terminal(w, "verify_failed") else ApplyArchive(w, a, p)
  }

  /** Drop the debris of an earlier attempt. */
  function ClearStaging(w: World): World {
    var a := if w.disk.staged.Present() then RemoveTree(w, Staged) else w.(err := Ok);
    if a.err != Ok || a.disk.notes.bundle.NoBundle? then a else RemoveBundle(a)
  }

  function ApplyArchive(w: World, a: Attempt, p: Pending): Ending {
    var b := ClearStaging(w);
    if b.err != Ok then Retry(b, p, "staging_unwritable") else ApplyExtract(b, a, p)
  }

  function ApplyExtract(w: World, a: Attempt, p: Pending): Ending {
    var b := Unpack(w, p.target, a.files, a.accepted);
    if b.err != Ok then Terminal(Discard(b), "extract_failed") else ApplyStaged(b, a, p)
  }

  function Discard(w: World): World { RemoveBundle(RemoveTree(w, Staged)) }

  function ApplyStaged(w: World, a: Attempt, p: Pending): Ending {
    if a.dataTouched then Terminal(Discard(w), "data_touched")
    else if !a.configValid then Terminal(Discard(w), "config_merge_failed")
    else
      var b := if w.up && a.cancelArrives then w.(disk := Noting(w.disk, w.disk.notes.(cancel := true))) else w;
      if b.disk.notes.cancel then HonourCancel(Discard(b)) else ApplySwap(b, p)
  }

  function ApplySwap(w: World, p: Pending): Ending {
    var a := Swap(w);
    if a.err != Ok then Drop(a, Unapplied, "swap_failed") else ApplyMerge(a, p)
  }

  function ApplyMerge(w: World, p: Pending): Ending {
    var a := MergeLauncher(w);
    if a.err != Ok then Retry(RemoveBundle(a), p, "launcher_merge_failed")
    else Ending(DropCancel(DropPending(RemoveBundle(a))), Result(Applied, "applied", false))
  }

  // ----- the other operations on the folder -----

  function WritePending(w: World, p: Pending): World {
    var a := PutProgress(w);
    if a.err != Ok then a else PutPending(DropCancel(a), p)
  }

  /** The release an update starts from: what the folder reports, or else the one the
      server was started with. */
  function Current(d: Disk, running: Release): Release {
    if InstalledRelease(d) != "" then InstalledRelease(d) else running
  }

  /** RecordUpdateIntent, `m` being the manifest latest.json names. */
  function Record(w: World, running: Release, latest: Release, url: string, m: Manifest): World {
    var from := Current(w.disk, running);
    if !Versions.ReleaseNewer(latest, from) || !Versions.ValidRelease(m.release) then w.(err := Ok)
    else WritePending(w, Pending(PENDING_SCHEMA, from, m.release, url, m.archiveUrl, m.archiveSize, m.archiveHash, 0))
  }

  /** CancelUpdateIntent: clear the request, then leave a flag for a running apply. */
  function RequestCancel(w: World): World { PutCancel(DropCancel(DropPending(w))) }

  /** NoteSuccessfulStart for the release the folder reports. */
  function NoteSuccessfulStart(w: World): World {
    var release := InstalledRelease(w.disk);
    if release == "" || !HasRetainedBackup(w.disk) then w.(err := Ok)
    else
      var prev := w.disk.notes.started;
      var count := if prev.Some? && prev.value.release == release && prev.value.count > 0
                   then prev.value.count + 1 else 1;
      var a := PutStarted(w, Started(release, count));
      if a.err != Ok || count < STARTED_RETIRE_COUNT then a
      else
        var b := RemoveTree(a, Backup);
        if b.err != Ok then b else DropStarted(b)
  }

  datatype StartResult = StartResult(world: World, action: Action, result: Result)

  function Startup(w: World, sidecar: bool, a: Attempt): StartResult {
    var r := Recover(w, sidecar);
    var v := if r.action.RolledBack? && sidecar then DropStarted(r.world) else r.world;
    if !sidecar then StartResult(v, r.action, Result(Skipped, "no_sidecar", false))
    else if v.disk.notes.pending.None? then StartResult(v, r.action, Result(NoPending, "", false))
    else
      var e := Apply(v, a);
      StartResult(e.world, r.action, e.result)
  }
}
