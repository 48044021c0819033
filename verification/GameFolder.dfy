/** The update code as it runs: methods that call the file system one call at a
    time, each proved against its specification function. `err` is the error an
    operation returned. */
module GameFolder {
  import opened Basics
  import opened FolderModel
  import opened SwapSpec
  import opened UpdateSpec
  import SS = SwapSpec
  import US = UpdateSpec
  import Versions

  class Folder {
    var machine: Machine
    var script: nat -> Fate
    var disk: Disk
    var clock: nat
    var recovering: bool
    var up: bool
    var err: Errno

    function State(): World
      reads this
    {
      World(machine, disk, script, clock, recovering, up, err)
    }

    constructor (m: Machine, d: Disk, s: nat -> Fate)
      ensures State() == World(m, d, s, 0, false, true, Ok)
    {
      machine, script, disk, clock, recovering, up, err := m, s, d, 0, false, true, Ok;
    }

    /** The file system performs a call whose outcome is `v`. */
    method Do(v: World)
      modifies this
      ensures State() == v
    {
      machine, script := v.machine, v.script;
      disk, clock, recovering, up, err := v.disk, v.clock, v.recovering, v.up, v.err;
    }

    // ----- movedir.go, swap.go -----

    method PromoteDir(src: Dir)
      modifies this
      ensures State() == SS.Promote(old(State()), src)
    {
      Do(RenameTree(State(), src, Game));
      if err != CrossDevice { return; }
      Do(MakeCopy(State()));
      if err != Ok { return; }
      Do(FillCopy(State(), src));
      if err == Ok { Do(PromoteCopy(State())); }
      if err != Ok {
        Do(DropCopy(State()));
        err := Io;
        return;
      }
      Do(RemoveTree(State(), src));
      err := Ok;
    }

    method Swap()
      modifies this
      ensures State() == SS.Swap(old(State()))
    {
      if !disk.staged.Present() || !disk.game.Present() { err := Io; return; }
      Do(PutMarker(State(), Begin));
      if err != Ok { return; }
      if disk.backup.Present() { Do(RemoveTree(State(), Backup)); }
      if err == Ok { Do(RenameTree(State(), Game, Backup)); }
      if err != Ok {
        Do(DropMarker(State()));
        err := Io;
        return;
      }
      PromoteDir(Staged);
      if err != Ok {
        Do(RenameTree(State(), Backup, Game));
        if err == Ok { Do(DropMarker(State())); }
        err := Io;
        return;
      }
      Do(PutMarker(State(), Promoted));
      Do(DropMarker(State()));
      err := Ok;
    }

    method RollForward() returns (action: Action)
      modifies this
      ensures Recovery(State(), action) == SS.RollForward(old(State()))
    {
      Do(RemoveTree(State(), Backup));
      if err == Ok { Do(RenameTree(State(), Game, Backup)); }
      if err != Ok { err := Io; return NoAction; }
      PromoteDir(Staged);
      if err != Ok {
        Do(RenameTree(State(), Backup, Game));
        err := Io;
        return NoAction;
      }
      Do(DropMarker(State()));
      err := Ok;
      return RolledForward;
    }

    method RollBack() returns (action: Action)
      modifies this
      ensures Recovery(State(), action) == SS.RollBack(old(State()))
    {
      Do(RemoveTree(State(), Game));
      if err == Ok { PromoteDir(Backup); }
      if err != Ok { err := Io; return NoAction; }
      Do(DropMarker(State()));
      err := Ok;
      return RolledBack;
    }

    method Recover(sidecar: bool) returns (action: Action)
      modifies this
      ensures Recovery(State(), action) == SS.Recover(old(State()), sidecar)
    {
      recovering := true;
      action := RecoverSwap(sidecar);
      recovering := false;
    }

    method RecoverSwap(sidecar: bool) returns (action: Action)
      modifies this
      ensures Recovery(State(), action) == SS.Decide(SweepCopies(old(State())), sidecar)
    {
      hide SweepCopies, SS.Promote, SS.RollForward, SS.RollBack;
      Do(SweepCopies(State()));
      var marked, gameOk, stagedOk, backupOk :=
        disk.marker.Some?, disk.game.Present(), sidecar && disk.staged.Present(), disk.backup.Present();
      if stagedOk && !gameOk {
        PromoteDir(Staged);
        if err != Ok { err := Io; return NoAction; }
        Do(DropMarker(State()));
        action := RolledForward;
      } else if backupOk && !gameOk {
        PromoteDir(Backup);
        if err != Ok { err := Io; return NoAction; }
        Do(DropMarker(State()));
        action := RolledBack;
      } else if gameOk && backupOk && marked {
        if stagedOk {
          action := RollForward();
          return;
        } else if disk.marker == Some(Promoted) {
          Do(DropMarker(State()));
          action := RolledForward;
        } else {
          action := RollBack();
          return;
        }
      } else if marked && !gameOk {
        err := Io;
        return NoAction;
      } else {
        action := NoAction;
        if stagedOk {
          Do(RemoveTree(State(), Staged));
          if err != Ok { err := Io; return; }
          action := CleanedStray;
        }
        if marked { Do(DropMarker(State())); }
      }
      err := Ok;
    }

    // ----- extract.go: the launcher merge -----

    method CopyFilePreservingMode(name: string, release: Release)
      modifies this
      ensures State() == US.ReplaceFile(old(State()), name, release)
    {
      Do(CopyTemp(State()));
      if err != Ok { return; }
      Do(PutFile(State(), name, release));
      if err == Ok || name !in disk.notes.launcher { return; }
      MoveAside(name, release);
    }

    method MoveAside(name: string, release: Release)
      modifies this
      ensures State() == US.ReplaceAside(old(State()), name, release)
    {
      var aside := name + ASIDE;
      Do(RemoveFile(State(), aside));
      Do(RenameFile(State(), name, aside));
      if err != Ok { return; }
      Do(PutFile(State(), name, release));
      if err != Ok {
        Do(RenameFile(State(), aside, name));
        err := Io;
        return;
      }
      Do(RemoveFile(State(), aside));
      err := Ok;
    }

    method MergeLauncherInto()
      modifies this
      ensures State() == US.MergeLauncher(old(State()))
    {
      match disk.notes.bundle
      case NoBundle => err := Ok;
      case TornBundle => err := Io;
      case Bundle(files, release) =>
        Do(PrepareLauncher(State()));
        if err != Ok { return; }
        ghost var merged := ReplaceFiles(State(), files, release);
        var i := 0;
        while i < |files|
          invariant 0 <= i <= |files| && err == Ok
          invariant ReplaceFiles(State(), files[i..], release) == merged
        {
          assert files[i..][0] == files[i] && files[i..][1..] == files[i + 1..];
          CopyFilePreservingMode(files[i], release);
          if err != Ok { return; }
          i := i + 1;
        }
    }

    // ----- apply.go -----

    method FailRetryable(p: Pending, reason: string) returns (r: Result)
      modifies this
      ensures Ending(State(), r) == US.Retry(old(State()), p, reason)
    {
      var retries := p.retries + 1;
      Do(PutPending(State(), p.(retries := retries)));
      var exhausted := retries >= RETRY_BUDGET;
      if exhausted { Do(DropPending(State())); }
      r := Result(Unapplied, reason, !exhausted);
    }

    method FailTerminal(reason: string) returns (r: Result)
      modifies this
      ensures Ending(State(), r) == US.Drop(old(State()), Unapplied, reason)
    {
      Do(DropPending(State()));
      r := Result(Unapplied, reason, false);
    }

    method Cancel() returns (r: Result)
      modifies this
      ensures Ending(State(), r) == US.HonourCancel(old(State()))
    {
      Do(DropPending(State()));
      Do(DropCancel(State()));
      r := Result(Cancelled, "cancelled", false);
    }

    method DiscardStaging()
      modifies this
      ensures State() == US.Discard(old(State()))
    {
      Do(RemoveTree(State(), Staged));
      Do(RemoveBundle(State()));
    }

    method ClearStaging()
      modifies this
      ensures State() == US.ClearStaging(old(State()))
    {
      err := Ok;
      if disk.staged.Present() { Do(RemoveTree(State(), Staged)); }
      if err == Ok && !disk.notes.bundle.NoBundle? { Do(RemoveBundle(State())); }
    }

    method Apply(a: Attempt) returns (r: Result)
      modifies this
      ensures Ending(State(), r) == US.Apply(old(State()), a)
    {
      if !a.dirReady { return Result(Skipped, "sidecar_unwritable", false); }
      if a.lock == LockHeld { return Result(Skipped, "locked", false); }
      if a.lock == LockBroken { return Result(Skipped, "lock_failed", false); }
      if disk.notes.pending.None? { return Result(NoPending, "", false); }
      var p := disk.notes.pending.value;
      if !ValidPending(p) { r := FailTerminal("invalid_marker"); return; }
      if p.from != "" && !Versions.ReleaseNewer(p.target, p.from) { r := FailTerminal("not_newer"); return; }
      if disk.notes.cancel { r := Cancel(); return; }
      if p.retries >= RETRY_BUDGET { r := FailTerminal("retries_exhausted"); return; }
      var installed := InstalledRelease(disk);
      if installed != "" && installed == p.target {
        Do(DropPending(State()));
        return Result(AlreadyCurrent, "already_current", false);
      }
      if a.manifest.None? { r := FailRetryable(p, "manifest_unreachable"); return; }
      var m := a.manifest.value;
      if Reconcile(p, m, a.resolve).Some? { r := FailTerminal("manifest_drift"); return; }
      if !Versions.FloorMet(m.launcherMin, a.launcherVersion) { r := FailTerminal("launcher_min"); return; }
      if a.freeSpace.Some? && a.freeSpace.value < RequiredBytes(m.archiveSize, m.totalSize) {
        return Result(Unapplied, "insufficient_space", true);
      }
      if m.archiveSize <= 0 { r := FailTerminal("no_archive_size"); return; }
      if ResolveArchiveUrl(p, m, a.resolve) == "" { r := FailTerminal("no_archive_url"); return; }
      match a.download
      case DownloadCancelled => r := Cancel();
      case DownloadRefused(policy) => r := FailTerminal(policy.Reason());
      case DownloadFailed => r := FailRetryable(p, "download_failed");
      case Fetched =>
        if !a.verified {
          Do(DropPending(State()));
          r := FailTerminal("verify_failed");
        } else {
          r := Install(a, p);
        }
    }

    /** Apply from the extraction on. */
    method Install(a: Attempt, p: Pending) returns (r: Result)
      modifies this
      ensures Ending(State(), r) == US.ApplyArchive(old(State()), a, p)
    {
      ClearStaging();
      if err != Ok { r := FailRetryable(p, "staging_unwritable"); return; }
      r := Stage(a, p);
    }

    method Stage(a: Attempt, p: Pending) returns (r: Result)
      modifies this
      ensures Ending(State(), r) == US.ApplyExtract(old(State()), a, p)
    {
      Do(Unpack(State(), p.target, a.files, a.accepted));
      if err != Ok {
        DiscardStaging();
        Do(DropPending(State()));
        r := FailTerminal("extract_failed");
        return;
      }
      if a.dataTouched || !a.configValid {
        DiscardStaging();
        Do(DropPending(State()));
        r := FailTerminal(if a.dataTouched then "data_touched" else "config_merge_failed");
        return;
      }
      if up && a.cancelArrives { disk := disk.(notes := disk.notes.(cancel := true)); }
      if disk.notes.cancel {
        DiscardStaging();
        r := Cancel();
        return;
      }
      r := Replace(p);
    }

    /** Apply from the swap on: past this point a cancellation is not honoured. */
    method Replace(p: Pending) returns (r: Result)
      modifies this
      ensures Ending(State(), r) == US.ApplySwap(old(State()), p)
    {
      Swap();
      if err != Ok { r := FailTerminal("swap_failed"); return; }
      MergeLauncherInto();
      var merged := err == Ok;
      Do(RemoveBundle(State()));
      if !merged { r := FailRetryable(p, "launcher_merge_failed"); return; }
      Do(DropPending(State()));
      Do(DropCancel(State()));
      r := Result(Applied, "applied", false);
    }

    // ----- runtime.go, intent.go, retention.go, startup.go -----

    method WritePending(p: Pending)
      modifies this
      ensures State() == US.WritePending(old(State()), p)
    {
      Do(PutProgress(State()));
      if err != Ok { return; }
      Do(DropCancel(State()));
      Do(PutPending(State(), p));
    }

    method RecordUpdateIntent(running: Release, latest: Release, url: string, m: Manifest) returns (recorded: bool)
      modifies this
      ensures State() == US.Record(old(State()), running, latest, url, m)
      ensures recorded <==>
        err == Ok && Versions.ReleaseNewer(latest, Current(old(disk), running)) && Versions.ValidRelease(m.release)
    {
      var from := running;
      var declared := InstalledRelease(disk);
      if declared != "" { from := declared; }
      if !Versions.ReleaseNewer(latest, from) || !Versions.ValidRelease(m.release) { err := Ok; return false; }
      WritePending(Pending(PENDING_SCHEMA, from, m.release, url, m.archiveUrl, m.archiveSize, m.archiveHash, 0));
      recorded := err == Ok;
    }

    method CancelUpdateIntent()
      modifies this
      ensures State() == US.RequestCancel(old(State()))
    {
      Do(DropPending(State()));
      Do(DropCancel(State()));
      Do(PutCancel(State()));
    }

    method NoteSuccessfulStart()
      modifies this
      ensures State() == US.NoteSuccessfulStart(old(State()))
    {
      var release := InstalledRelease(disk);
      if release == "" || !HasRetainedBackup(disk) { err := Ok; return; }
      var prev, count := disk.notes.started, 1;
      if prev.Some? && prev.value.release == release && prev.value.count > 0 { count := prev.value.count + 1; }
      Do(PutStarted(State(), Started(release, count)));
      if err != Ok || count < STARTED_RETIRE_COUNT { return; }
      Do(RemoveTree(State(), Backup));
      if err == Ok { Do(DropStarted(State())); }
    }

    method Startup(sidecar: bool, a: Attempt) returns (action: Action, r: Result)
      modifies this
      ensures StartResult(State(), action, r) == US.Startup(old(State()), sidecar, a)
    {
      action := Recover(sidecar);
      if action.RolledBack? && sidecar { Do(DropStarted(State())); }
      if !sidecar { return action, Result(Skipped, "no_sidecar", false); }
      if disk.notes.pending.None? { return action, Result(NoPending, "", false); }
      r := Apply(a);
    }
  }
}
