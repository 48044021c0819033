/** From a request to its installation or its cancellation, and what recovery
    reports. */
module UpdateLife {
  import opened Basics
  import opened FolderModel
  import opened SwapSpec
  import opened SwapProofs
  import opened RecoveryTheorems
  import opened UpdateSpec
  import opened UpdateProofs
  import opened UpdateRuns
  import opened UpdateTheorems
  import opened UpdateDetails
  import opened UpdateAnswers
  import opened UpdateReports
  import N = Numerals
  import T = Text
  import Versions

  // ----- a request -----

  /** The release the server was started with counts only where the folder reports
      none, and both manifests have to move it forward. */
  predicate Wanted(d: Disk, running: Release, latest: Release, m: Manifest) {
    Versions.ReleaseNewer(latest, Current(d, running)) && Versions.ValidRelease(m.release)
  }

  /** A request is recorded exactly when it is wanted. What is recorded holds every
      later manifest to the release, and to the size and the hash where the one it
      was recorded from declares them, and downloads from the address that one names. */
  lemma RecordedHoldsTheManifest(w: World, running: Release, latest: Release, url: string, m: Manifest, other: Manifest,
                                 resolve: (string, string) -> Option<string>)
    requires Undisturbed(w)
    ensures var d := Record(w, running, latest, url, m).disk;
      if Wanted(w.disk, running, latest, m) then
        var p := d.notes.pending;
        && d == Noting(w.disk, w.disk.notes.(pending := p, cancel := false))
        && p.Some? && p.value.from == Current(w.disk, running) && p.value.retries == 0
        && (ValidPending(p.value) <==> url != "")
        && (Reconcile(p.value, other, resolve).None? <==>
              && other.release == m.release && (m.archiveSize > 0 ==> other.archiveSize == m.archiveSize)
              && (m.archiveHash != "" ==> other.archiveHash == m.archiveHash))
        && (m.archiveUrl != "" ==>
              ResolveArchiveUrl(p.value, other, resolve) == ResolveArchiveUrl(p.value, m, resolve)
                == if resolve(url, m.archiveUrl).Some? then resolve(url, m.archiveUrl).value else m.archiveUrl)
      else d == w.disk
  {
    hide Reconcile, Versions.ReleaseNewer, Versions.ValidRelease;
    var p := Record(w, running, latest, url, m).disk.notes.pending;
    if Wanted(w.disk, running, latest, m) { ReconcileHoldsToThreeFields(p.value, other, resolve); }
  }

  /** Nothing outside the folder stands in the way of installing what `m` names. */
  ghost predicate Clear(a: Attempt, m: Manifest, url: string) {
    && a.dirReady && a.lock.LockFree? && a.manifest == Some(m) && m.archiveSize > 0 && m.archiveUrl != ""
    && (forall base, name :: a.resolve(base, name) != Some(""))
    && (T.TrimSpace(m.launcherMin) == "" || Versions.Reaches(a.launcherVersion, m.launcherMin))
    && (a.freeSpace.Some? ==> a.freeSpace.value >= N.Wrap(Peak(m.archiveSize, m.totalSize)))
    && a.download.Fetched? && a.verified && a.accepted && !a.dataTouched && a.configValid && !a.cancelArrives
  }

  lemma ClearPasses(d: Disk, a: Attempt, p: Pending, m: Manifest)
    requires ValidPending(p) && Forward(p) && Agrees(p, m) && p.retries < 3 && !d.notes.cancel
    requires InstalledRelease(d) in {"", p.from} && Clear(a, m, p.manifestUrl)
    ensures NoneStops(Refusals(d, a, p)) && NoneStops(StagingChecks(a))
  {
    hide Versions.Reaches, Peak, Agrees, N.Wrap;
    Versions.ReleaseNewerIsStrictWeakOrder(p.target, p.target, p.target);
    TargetIsNamed(p);
    assert InstalledRelease(d) != p.target;
    hide ValidPending, Versions.ReleaseNewer, InstalledRelease;
  }

  lemma RecoveryIdles(w: World)
    requires Undisturbed(w) && Settled(w.disk)
    ensures var r := Recover(w, true);
      && Undisturbed(r.world) && r.world.disk == w.disk.(copies := NoCopy, staged := Absent)
      && r.action in {NoAction, CleanedStray}
  {}

  /** A request for a release that moves the folder forward, and a start nothing
      disturbs: the release is installed, the old one kept, and the request gone. */
  lemma RequestIsInstalled(w: World, running: Release, latest: Release, url: string, m: Manifest, script: nat -> Fate,
                           a: Attempt)
    requires Undisturbed(w) && Settled(w.disk) && Wanted(w.disk, running, latest, m) && url != ""
    requires Current(w.disk, running) == "" || Versions.ReleaseNewer(m.release, Current(w.disk, running))
    requires Clear(a, m, url) && forall n :: script(n) == Done
    ensures var v := Record(w, running, latest, url, m);
      var s := Startup(Reboot(v, script), true, a);
      && s.result == Result(Applied, "applied", false) && s.world.up
      && s.world.disk.game == Whole(m.release, false) && s.world.disk.backup == w.disk.game
      && s.world.disk.notes == Notes(w.disk.notes.launcher + (map f | f in a.files :: m.release), NoBundle, None, false,
                                     w.disk.notes.started)
  {
    hide Recover, Apply, Record, Refusals, Versions.ReleaseNewer, Versions.ValidRelease, Reconcile, InstalledRelease;
    hide ValidPending, Forward, ResolveArchiveUrl, Versions.Reaches, Peak;
    RecordedHoldsTheManifest(w, running, latest, url, m, m, a.resolve);
    RecordedMovesForward(w, running, latest, url, m);
    var r := Reboot(Record(w, running, latest, url, m), script);
    var p := r.disk.notes.pending.value;
    RecoveryIdles(r);
    var v := Recover(r, true).world;
    assert v.disk.notes == r.disk.notes && v.disk.game == w.disk.game;
    SameReport(v.disk, w.disk);
    ReconcileHoldsToThreeFields(p, m, a.resolve);
    ClearPasses(v.disk, a, p, m);
    assert Reached(v, a, p);
    InstalledExactlyWhenNothingStops(v, a, p);
    assert Startup(r, true, a) == StartResult(Apply(v, a).world, Recover(r, true).action, Apply(v, a).result);
  }

  lemma SameReport(d: Disk, e: Disk)
    requires d.game == e.game && d.notes.launcher == e.notes.launcher
    ensures InstalledRelease(d) == InstalledRelease(e)
  {}

  lemma RecordedMovesForward(w: World, running: Release, latest: Release, url: string, m: Manifest)
    requires Undisturbed(w) && Wanted(w.disk, running, latest, m)
    requires Current(w.disk, running) == "" || Versions.ReleaseNewer(m.release, Current(w.disk, running))
    ensures var p := Record(w, running, latest, url, m).disk.notes.pending;
      p.Some? && Forward(p.value) && p.value.target == m.release && p.value.manifestUrl == url
  {
    hide Versions.ReleaseNewer, Versions.ValidRelease;
  }

  // ----- a cancellation -----

  /** A cancellation that is not cut short leaves no marker, a flag, and everything
      else as it was. */
  lemma CancellationIsRecorded(w: World)
    requires w.machine.sureMarks && RequestCancel(w).up
    ensures RequestCancel(w).disk == Noting(w.disk, w.disk.notes.(pending := None, cancel := true))
  {}

  lemma StartWithoutMarker(w: World, sidecar: bool, a: Attempt)
    requires w.disk.notes.pending.None?
    ensures var s := Startup(w, sidecar, a);
      && s.result.outcome in {NoPending, Skipped} && s.world.disk.notes.pending.None?
      && s.world.disk.notes.launcher == w.disk.notes.launcher
  {
    hide Decide;
    RecoverKeepsNotes(w, sidecar);
  }

  /** No marker, and launcher/ as in `w`. */
  ghost predicate Idle(v: World, w: World) {
    v.disk.notes.pending.None? && v.disk.notes.launcher == w.disk.notes.launcher
  }

  lemma HeartbeatIsIdle(w: World)
    requires w.disk.notes.pending.None?
    ensures Idle(NoteSuccessfulStart(w), w)
  {}

  lemma CancelIsIdle(w: World)
    requires w.disk.notes.pending.None?
    ensures Idle(RequestCancel(w), w)
  {
    hide DropPending, DropCancel, PutCancel;
    NoteCalls(w, Started("", 0));
    NoteCalls(DropPending(w), Started("", 0));
    NoteCalls(DropCancel(DropPending(w)), Started("", 0));
  }

  lemma OtherEventsAreIdle(w: World, ev: Event)
    requires w.disk.notes.pending.None? && (ev.Heartbeat? || ev.CancelRequest?)
    ensures Idle(Next(w, ev), w)
  {
    hide NoteSuccessfulStart, RequestCancel;
    HeartbeatIsIdle(Reboot(w, ev.script));
    CancelIsIdle(Reboot(w, ev.script));
  }

  /** Without a marker no start of any run applies anything, until the next request. */
  lemma {:induction false} NothingIsApplied(w: World, events: seq<Event>, k: nat)
    requires w.disk.notes.pending.None? && NoRequest(events) && k < |events|
    ensures Idle(Run(w, events[..k]), w)
    ensures events[k].Start? ==> StartResultOf(Run(w, events[..k]), events[k]).result.outcome in {NoPending, Skipped}
  {
    hide Startup, NoteSuccessfulStart;
    if k > 0 {
      assert events[..k][..k - 1] == events[..k - 1];
      NothingIsApplied(w, events, k - 1);
      var v, ev := Run(w, events[..k - 1]), events[k - 1];
      if ev.Start? { StartWithoutMarker(Reboot(v, ev.script), ev.sidecar, ev.attempt); }
      else { OtherEventsAreIdle(v, ev); }
    }
    var u, ev := Run(w, events[..k]), events[k];
    if ev.Start? { StartWithoutMarker(Reboot(u, ev.script), ev.sidecar, ev.attempt); }
  }

  /** A cancelled update is not installed by any later start, whatever happens, unless
      it is asked for again. */
  lemma CancelledIsNeverApplied(w: World, script: nat -> Fate, events: seq<Event>, k: nat)
    requires Serving(w) && w.machine.sureMarks && NoRequest(events) && k < |events|
    requires Next(w, CancelRequest(script)).up
    ensures var c := Next(w, CancelRequest(script));
      && Idle(Run(c, events[..k]), w)
      && (events[k].Start? ==> StartResultOf(Run(c, events[..k]), events[k]).result.outcome in {NoPending, Skipped})
  {
    CancellationIsRecorded(Reboot(w, script));
    NothingIsApplied(Next(w, CancelRequest(script)), events, k);
  }

  /** An Apply already staging when the cancellation is recorded ends cancelled, with
      game/ and launcher/ as they were and, undisturbed, nothing staged. */
  lemma RunningApplyIsCancelled(w: World, a: Attempt, p: Pending, canceller: World)
    requires w.machine.sureMarks && canceller.machine.sureMarks && !a.dataTouched && a.configValid
    requires canceller.disk == w.disk && RequestCancel(canceller).up
    ensures var e := ApplyStaged(w.(disk := RequestCancel(canceller).disk), a, p); var d := e.world.disk;
      && e.result == CANCELLATION && d.game == w.disk.game && d.notes.launcher == w.disk.notes.launcher
      && (e.world.up ==> d.notes.pending.None? && !d.notes.cancel)
      && (Undisturbed(w) ==> d.staged.Absent? && d.notes.bundle.NoBundle?)
  {
    CancellationIsRecorded(canceller);
    hide RequestCancel;
    var v := w.(disk := RequestCancel(canceller).disk);
    assert v.disk.notes.cancel;
    StagedIsCancelled(v, a, p);
  }

  lemma StagedIsCancelled(w: World, a: Attempt, p: Pending)
    requires w.machine.sureMarks && w.disk.notes.cancel && !a.dataTouched && a.configValid
    ensures var e := ApplyStaged(w, a, p); var d := e.world.disk;
      && e.result == CANCELLATION && d.game == w.disk.game && d.notes.launcher == w.disk.notes.launcher
      && (e.world.up ==> d.notes.pending.None? && !d.notes.cancel)
      && (Undisturbed(w) ==> d.staged.Absent? && d.notes.bundle.NoBundle?)
  {
    assert w.disk == Noting(w.disk, w.disk.notes.(cancel := true));
    hide Noting;
    assert ApplyStaged(w, a, p) == HonourCancel(Discard(w));
    DiscardKeeps(w);
    hide ApplyStaged, ApplySwap;
    if Undisturbed(w) { DiscardWorks(w); }
    hide Discard;
  }
}
