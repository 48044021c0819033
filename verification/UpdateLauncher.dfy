/** What launcher/ holds after the merge, and when the next start can tell. */
module UpdateLauncher {
  import opened Basics
  import opened FolderModel
  import opened SwapSpec
  import opened SwapProofs
  import opened RecoveryTheorems
  import opened UpdateSpec
  import opened UpdateProofs
  import opened UpdateRuns
  import opened UpdateExactness
  import opened UpdateDetails
  import Text
  import Versions

  /** Every file of the bundle is live in launcher/ at release `t`. */
  ghost predicate Live(d: Disk, files: seq<string>, t: Release) {
    forall f <- files :: f in d.notes.launcher && d.notes.launcher[f] == t
  }

  /** The order of a directory walk: each file once, and before its aside name. */
  ghost predicate Walked(files: seq<string>) {
    forall i, j | 0 <= i < j < |files| :: files[i] != files[j] && files[i] != files[j] + ASIDE
  }

  // ----- one file, all files -----

  lemma AsideDiffers(f: string)
    ensures f + ASIDE != f
  {
    assert |f + ASIDE| > |f|;
  }

  /** Replacing a file touches it and its aside name only. */
  ghost predicate Touches(v: Disk, d: Disk, name: string) {
    forall f | f != name && f != name + ASIDE ::
      (f in v.notes.launcher <==> f in d.notes.launcher)
      && (f in d.notes.launcher ==> v.notes.launcher[f] == d.notes.launcher[f])
  }

  lemma AsideTouches(w: World, name: string, release: Release)
    ensures var v := ReplaceAside(w, name, release);
      Touches(v.disk, w.disk, name) && (v.err == Ok ==> Live(v.disk, [name], release))
  {
    var a := RenameFile(RemoveFile(w, name + ASIDE), name, name + ASIDE);
    assert Touches(a.disk, w.disk, name);
    MovedTouches(a, name, release);
    TouchesChain(a.disk, w.disk, ReplaceAside(w, name, release).disk, name);
  }

  lemma TouchesChain(v: Disk, d: Disk, e: Disk, name: string)
    requires Touches(v, d, name) && Touches(e, v, name)
    ensures Touches(e, d, name)
  {}

  lemma MovedTouches(a: World, name: string, release: Release)
    ensures var b := PutFile(a, name, release);
      var v := if b.err != Ok then RenameFile(b, name + ASIDE, name).(err := Io)
               else RemoveFile(b, name + ASIDE).(err := Ok);
      Touches(v.disk, a.disk, name) && (v.err == Ok ==> Live(v.disk, [name], release))
  {
    AsideDiffers(name);
  }

  lemma FileTouches(w: World, name: string, release: Release)
    ensures var v := ReplaceFile(w, name, release);
      Touches(v.disk, w.disk, name) && (v.err == Ok ==> Live(v.disk, [name], release))
  {
    var b := PutFile(CopyTemp(w), name, release);
    AsideTouches(b, name, release);
    hide ReplaceAside;
  }

  lemma {:induction false} FilesTouch(w: World, files: seq<string>, release: Release, f: string)
    requires forall g <- files :: f != g && f != g + ASIDE
    ensures f in ReplaceFiles(w, files, release).disk.notes.launcher <==> f in w.disk.notes.launcher
    ensures f in w.disk.notes.launcher ==>
      ReplaceFiles(w, files, release).disk.notes.launcher[f] == w.disk.notes.launcher[f]
    decreases |files|
  {
    if |files| > 0 {
      hide ReplaceFile;
      assert forall g <- files[1..] :: g in files;
      FileTouches(w, files[0], release);
      FilesTouch(ReplaceFile(w, files[0], release), files[1..], release, f);
    }
  }

  /** A merge that reports success has put every file in place. */
  lemma {:induction false} FilesLive(w: World, files: seq<string>, release: Release)
    requires Walked(files)
    ensures var v := ReplaceFiles(w, files, release); v.err == Ok ==> Live(v.disk, files, release)
    decreases |files|
  {
    if |files| > 0 {
      hide ReplaceFile;
      var a, rest := ReplaceFile(w, files[0], release), files[1..];
      FileTouches(w, files[0], release);
      FilesLive(a, rest, release);
      FilesTouch(a, rest, release, files[0]);
      assert files == [files[0]] + rest;
      assert files[0] in [files[0]];
    }
  }

  // ----- the configuration goes last -----

  ghost predicate ConfigLast(files: seq<string>) {
    forall i | 0 <= i < |files| - 1 :: files[i] != CONFIG
  }

  /** A folder that reports `t` through its configuration has all of `t`'s launcher. */
  ghost predicate LauncherTrue(d: Disk, files: seq<string>, t: Release) {
    ConfigRelease(d) == t ==> Live(d, files, t)
  }

  lemma ConfigIsNoAside(f: string)
    ensures CONFIG != f + ASIDE
  {
    assert (f + ASIDE)[|f + ASIDE| - 1] == 'd' && CONFIG[|CONFIG| - 1] == 'n';
  }

  lemma {:induction false} FilesTrue(w: World, files: seq<string>, t: Release)
    requires Walked(files) && ConfigLast(files) && t != "" && ConfigRelease(w.disk) != t
    ensures LauncherTrue(ReplaceFiles(w, files, t).disk, files, t)
    decreases |files|
  {
    if |files| > 0 {
      hide ReplaceFile;
      var a, rest := ReplaceFile(w, files[0], t), files[1..];
      FileTouches(w, files[0], t);
      ConfigIsNoAside(files[0]);
      assert files == [files[0]] + rest && files[0] in [files[0]];
      if |files| > 1 {
        assert ConfigRelease(a.disk) == ConfigRelease(w.disk);
        FilesTrue(a, rest, t);
        FilesTouch(a, rest, t, files[0]);
      }
    }
  }

  lemma MergeTrue(w: World, files: seq<string>, t: Release)
    requires Walked(files) && w.disk.notes.bundle == Bundle(files, t)
    ensures MergeLauncher(w).err == Ok ==> Live(MergeLauncher(w).disk, files, t)
    ensures ConfigLast(files) && t != "" && ConfigRelease(w.disk) != t ==> LauncherTrue(MergeLauncher(w).disk, files, t)
  {
    var a := PrepareLauncher(w);
    assert a.disk == w.disk;
    FilesLive(a, files, t);
    if ConfigLast(files) && t != "" && ConfigRelease(w.disk) != t { FilesTrue(a, files, t); }
  }

  // ----- through the pipeline -----

  /** What an ending leaves in launcher/: as found, or what the merge made of it;
      and Applied means the whole bundle. */
  ghost predicate Merged(e: Ending, w: World, files: seq<string>, t: Release) {
    && (e.result.outcome == Applied ==> Live(e.world.disk, files, t))
    && (ConfigLast(files) && t != "" && ConfigRelease(w.disk) != t ==> LauncherTrue(e.world.disk, files, t))
  }

  ghost predicate SameLauncher(v: World, w: World) { v.disk.notes.launcher == w.disk.notes.launcher }

  lemma ShortEndings(w: World, p: Pending, outcome: Outcome, reason: string)
    ensures SameLauncher(Drop(w, outcome, reason).world, w) && SameLauncher(Terminal(w, reason).world, w)
    ensures SameLauncher(Retry(w, p, reason).world, w) && SameLauncher(HonourCancel(w).world, w)
    ensures SameLauncher(DropCancel(DropPending(w)), w)
  {}

  lemma StagingCalls(w: World)
    ensures SameLauncher(Discard(w), w) && SameLauncher(RemoveBundle(w), w) && SameLauncher(ClearStaging(w), w)
  {
    DiscardKeeps(w);
    ClearedKeeps(w);
  }

  lemma MergeMerges(w: World, p: Pending, files: seq<string>)
    requires Walked(files) && w.disk.notes.bundle == Bundle(files, p.target)
    ensures Merged(ApplyMerge(w, p), w, files, p.target)
  {
    hide MergeLauncher;
    MergeTrue(w, files, p.target);
    var a := MergeLauncher(w);
    var b := RemoveBundle(a);
    StagingCalls(a);
    ShortEndings(b, p, Unapplied, "launcher_merge_failed");
  }

  lemma SwapMerges(w: World, p: Pending, files: seq<string>)
    requires Walked(files) && w.disk.notes.bundle == Bundle(files, p.target)
    requires SafePromotion(w.machine) && Settled(w.disk) && w.disk.staged.Whole?
    ensures Merged(ApplySwap(w, p), w, files, p.target)
  {
    hide Swap, ApplyMerge;
    SwapKeeps(w);
    var a := Swap(w);
    ShortEndings(a, p, Unapplied, "swap_failed");
    MergeMerges(a, p, files);
  }

  lemma StagedMerges(w: World, a: Attempt, p: Pending)
    requires Walked(a.files) && w.disk.notes.bundle == Bundle(a.files, p.target)
    requires SafePromotion(w.machine) && Settled(w.disk) && w.disk.staged.Whole?
    ensures Merged(ApplyStaged(w, a, p), w, a.files, p.target)
  {
    hide ApplySwap, Discard, Terminal, HonourCancel;
    var b := if w.up && a.cancelArrives then w.(disk := Noting(w.disk, w.disk.notes.(cancel := true))) else w;
    StagingCalls(w);
    StagingCalls(b);
    ShortEndings(Discard(w), p, Unapplied, "data_touched");
    ShortEndings(Discard(w), p, Unapplied, "config_merge_failed");
    ShortEndings(Discard(b), p, Unapplied, "");
    OutcomesOf(Discard(w));
    OutcomesOf(Discard(b));
    SwapMerges(b, p, a.files);
  }

  lemma OutcomesOf(w: World)
    ensures forall reason :: Terminal(w, reason).result.outcome == Unapplied
    ensures HonourCancel(w).result.outcome == Cancelled
  {}

  lemma MergedEarlier(e: Ending, v: World, w: World, files: seq<string>, t: Release)
    requires SameLauncher(v, w) && Merged(e, v, files, t)
    ensures Merged(e, w, files, t)
  {}

  lemma ArchiveMerges(w: World, a: Attempt, p: Pending)
    requires Walked(a.files) && SafePromotion(w.machine) && Settled(w.disk)
    ensures Merged(ApplyArchive(w, a, p), w, a.files, p.target)
  {
    hide ApplyStaged, Retry, Terminal, Discard, ClearStaging, Unpack;
    var b := ClearStaging(w);
    ClearedKeeps(w);
    var c := Unpack(b, p.target, a.files, a.accepted);
    UnpackKeeps(b, p, a);
    UnpackGives(b, p.target, a.files, a.accepted);
    ShortEndings(b, p, Unapplied, "staging_unwritable");
    StagingCalls(c);
    ShortEndings(Discard(c), p, Unapplied, "extract_failed");
    OutcomesOf(Discard(c));
    RetryOutcome(b, p, "staging_unwritable");
    if c.err == Ok { StagedMerges(c, a, p); }
    if b.err == Ok { MergedEarlier(ApplyExtract(b, a, p), c, b, a.files, p.target); }
    MergedEarlier(ApplyArchive(w, a, p), b, w, a.files, p.target);
  }

  lemma UnpackGives(w: World, t: Release, files: seq<string>, accepted: bool)
    ensures Unpack(w, t, files, accepted).err == Ok ==>
      Unpack(w, t, files, accepted).disk.notes.bundle == Bundle(files, t)
  {}

  lemma RetryOutcome(w: World, p: Pending, reason: string)
    ensures Retry(w, p, reason).result.outcome == Unapplied
  {}

  lemma ManifestMerges(w: World, a: Attempt, p: Pending, m: Manifest)
    requires Walked(a.files) && SafePromotion(w.machine) && Settled(w.disk)
    ensures Merged(ApplyManifest(w, a, p, m), w, a.files, p.target)
  {
    hide ApplyArchive, Retry, Terminal, HonourCancel, Reconcile, Versions.FloorMet, RequiredBytes, ResolveArchiveUrl;
    ArchiveMerges(w, a, p);
    OutcomesOf(w);
    RetryOutcome(w, p, "download_failed");
    ShortEndings(w, p, Unapplied, "download_failed");
    ShortEndings(w, p, Unapplied, "verify_failed");
    var e := ApplyManifest(w, a, p, m);
    ShortEndings(w, p, e.result.outcome, e.result.reason);
  }

  /** Apply, however it ends and wherever it dies: Applied means that every file of
      the bundle is live, and if the bundle has its configuration last or not at all,
      a folder that reports the target has them all. */
  lemma ApplyMerges(w: World, a: Attempt, p: Pending)
    requires Walked(a.files) && SafePromotion(w.machine) && Settled(w.disk)
    ensures Merged(ApplyPending(w, a, p), w, a.files, p.target)
  {
    hide ApplyManifest, Retry, HonourCancel, ValidPending, Forward;
    if a.manifest.Some? { ManifestMerges(w, a, p, a.manifest.value); }
    OutcomesOf(w);
    RetryOutcome(w, p, "manifest_unreachable");
    ShortEndings(w, p, Unapplied, "manifest_unreachable");
    var e := ApplyPending(w, a, p);
    ShortEndings(w, p, e.result.outcome, e.result.reason);
  }

  // ----- over whole runs -----

  /** Which launcher files each release ships. */
  type Bundles = Release -> seq<string>

  /** An archive of a release holds that release's launcher files. */
  predicate Bundled(a: Attempt, bundle: Bundles) {
    a.manifest.Some? ==> a.files == bundle(a.manifest.value.release)
  }

  ghost predicate AllBundled(events: seq<Event>, bundle: Bundles) {
    forall i | 0 <= i < |events| && events[i].Start? :: events[i].sidecar && Bundled(events[i].attempt, bundle)
  }

  ghost predicate WellShipped(bundle: Bundles) {
    forall t | Versions.ValidRelease(t) :: Walked(bundle(t)) && ConfigLast(bundle(t))
  }

  /** A tree that carries its own manifest agrees with launcher/. */
  ghost predicate Consistent(d: Disk) {
    forall tree | tree == Chosen(d) || tree == Spare(d) ::
      tree.Whole? && tree.declared && tree.release != "" ==> tree.release == ConfigRelease(d)
  }

  predicate Applicable(p: Pending) { ValidPending(p) && Forward(p) }

  /** Where the configuration names the requested release, its launcher is complete
      and game/ is settled. */
  ghost predicate RequestTrue(d: Disk, bundle: Bundles) {
    match d.notes.pending
    case None => true
    case Some(p) =>
      Applicable(p) && ConfigRelease(d) == p.target ==>
        Live(d, bundle(p.target), p.target) && Only(d, Target(p), Target(p))
  }

  /** A folder with or without a request that launcher/ does not report yet. */
  ghost predicate Begun(w: World) {
    && Sound(w.machine) && RunInv(w) && Consistent(w.disk)
    && (w.disk.notes.pending.Some? && Applicable(w.disk.notes.pending.value) ==>
          ConfigRelease(w.disk) != w.disk.notes.pending.value.target)
  }

  ghost predicate LauncherInv(w: World, bundle: Bundles) {
    Sound(w.machine) && RunInv(w) && Consistent(w.disk) && RequestTrue(w.disk, bundle)
  }

  /** What the start says of the request `p` it found is true of launcher/. */
  ghost predicate EndIsTrue(w: World, r: Result, p: Pending, bundle: Bundles) {
    w.up && r.outcome in {Applied, AlreadyCurrent} ==> Live(w.disk, bundle(p.target), p.target)
  }

  /** A request that cannot be applied, or is already, leaves the folder alone. */
  lemma NothingLeftToMerge(v: World, a: Attempt, p: Pending)
    requires !Applicable(p) || (InstalledRelease(v.disk) == p.target && p.target != "")
    ensures var e := ApplyPending(v, a, p);
      && e.world.disk == Noting(v.disk, e.world.disk.notes) && e.world.disk.notes.launcher == v.disk.notes.launcher
      && e.result.outcome != Applied && (!Applicable(p) ==> e.result.outcome != AlreadyCurrent)
  {
    hide ValidPending, Forward;
  }

  /** So does a manifest of another release. */
  lemma DriftMergesNothing(v: World, a: Attempt, p: Pending)
    requires a.manifest.None? || a.manifest.value.release != p.target
    ensures var e := ApplyPending(v, a, p);
      e.world.disk.notes.launcher == v.disk.notes.launcher && e.result.outcome != Applied
  {
    hide Versions.FloorMet, RequiredBytes, ApplyArchive, Retry, HonourCancel, ValidPending, Forward, ResolveArchiveUrl;
    RetryOutcome(v, p, "manifest_unreachable");
    OutcomesOf(v);
    ShortEndings(v, p, Unapplied, "manifest_unreachable");
    var e := ApplyPending(v, a, p);
    ShortEndings(v, p, e.result.outcome, e.result.reason);
  }

  lemma ApplyKeepsLauncher(v: World, a: Attempt, bundle: Bundles)
    requires WellShipped(bundle) && Bundled(a, bundle)
    requires LauncherInv(v, bundle) && Settled(v.disk) && v.up && v.disk.notes.pending.Some?
    ensures LauncherInv(Apply(v, a).world, bundle)
    ensures EndIsTrue(Apply(v, a).world, Apply(v, a).result, v.disk.notes.pending.value, bundle)
  {
    var p := v.disk.notes.pending.value;
    ApplyEnds(v, a);
    if Apply(v, a).result.outcome != Skipped {
      EndedIsSafe(Apply(v, a), v, p, MayCancel(a));
      if !Applicable(p) || ConfigRelease(v.disk) == p.target {
        IdleKeepsLauncher(v, a, p, bundle);
      } else {
        MergeKeepsLauncher(v, a, p, bundle);
      }
    }
  }

  lemma IdleKeepsLauncher(v: World, a: Attempt, p: Pending, bundle: Bundles)
    requires LauncherInv(v, bundle) && Settled(v.disk) && v.disk.notes.pending == Some(p)
    requires !Applicable(p) || ConfigRelease(v.disk) == p.target
    requires var e := ApplyPending(v, a, p); Ended(e, v, p, MayCancel(a)) && Safe(e.world)
    ensures var e := ApplyPending(v, a, p); LauncherInv(e.world, bundle) && EndIsTrue(e.world, e.result, p, bundle)
  {
    hide ApplyPending, Sound;
    NothingLeftToMerge(v, a, p);
  }

  lemma MergeKeepsLauncher(v: World, a: Attempt, p: Pending, bundle: Bundles)
    requires WellShipped(bundle) && Bundled(a, bundle)
    requires LauncherInv(v, bundle) && Settled(v.disk) && v.disk.notes.pending == Some(p)
    requires Applicable(p) && ConfigRelease(v.disk) != p.target
    requires var e := ApplyPending(v, a, p); Ended(e, v, p, MayCancel(a)) && Safe(e.world)
    ensures var e := ApplyPending(v, a, p); LauncherInv(e.world, bundle) && EndIsTrue(e.world, e.result, p, bundle)
  {
    hide ApplyPending;
    if a.manifest.None? || a.manifest.value.release != p.target {
      DriftMergesNothing(v, a, p);
    } else {
      assert Walked(a.files) && ConfigLast(a.files);
      ApplyMerges(v, a, p);
    }
  }

  lemma StartKeepsLauncher(w: World, script: nat -> Fate, a: Attempt, bundle: Bundles)
    requires WellShipped(bundle) && Bundled(a, bundle) && LauncherInv(w, bundle)
    ensures var s := Startup(Reboot(w, script), true, a);
      && LauncherInv(s.world, bundle) && s.world.machine == w.machine
      && DropIsTrue(s, w, bundle)
  {
    hide ApplyPending, Live, SafePromotion, WellShipped, Bundled;
    var u := Reboot(w, script);
    var v := RecoveredWorld(u);
    StartKeeps(w, script, a);
    RecoveredKeepsLauncher(w, u, bundle);
    if v.disk.notes.pending.Some? {
      if v.up { ApplyKeepsLauncher(v, a, bundle); } else { DeadApply(v, a, v.disk.notes.pending.value); }
    }
  }

  /** What keeps the trees, launcher/ and at most drops the marker keeps all this. */
  lemma LauncherFrame(v: World, w: World, bundle: Bundles)
    requires LauncherInv(w, bundle) && RunInv(v) && v.machine == w.machine
    requires Only(v.disk, Chosen(w.disk), Spare(w.disk)) && v.disk.notes.launcher == w.disk.notes.launcher
    requires v.disk.notes.pending == w.disk.notes.pending || RequestTrue(v.disk, bundle)
    ensures LauncherInv(v, bundle)
  {
    hide Sound, RunInv;
  }

  lemma RecoveredKeepsLauncher(w: World, u: World, bundle: Bundles)
    requires LauncherInv(w, bundle) && u == Reboot(w, u.script)
    ensures LauncherInv(RecoveredWorld(u), bundle)
    ensures RecoveredWorld(u).disk.notes.pending == w.disk.notes.pending
    ensures RecoveredWorld(u).up ==> Settled(RecoveredWorld(u).disk)
  {
    hide RequestTrue, Consistent;
    RecoveredWorldKeeps(u);
    RecoverKeeps(u);
    var r := Recover(u, true);
    assert RecoveredWorld(u).disk == Noting(r.world.disk, RecoveredWorld(u).disk.notes);
    LauncherFrame(RecoveredWorld(u), w, bundle);
  }

  lemma HeartbeatFrames(w: World)
    requires RunInv(w) && Serving(w)
    ensures var v := NoteSuccessfulStart(w);
      && Only(v.disk, Chosen(w.disk), Spare(w.disk)) && v.disk.notes.launcher == w.disk.notes.launcher
      && v.disk.notes.pending == w.disk.notes.pending
  {
    OnlySecondStartRetires(w);
    HeartbeatKeepsPending(w);
  }

  lemma HeartbeatKeepsPending(w: World)
    ensures NoteSuccessfulStart(w).disk.notes.pending == w.disk.notes.pending
  {}

  lemma CancelFrames(w: World)
    ensures NotesOnly(RequestCancel(w), w)
  {
    var a := DropPending(w);
    NoteCalls(w, Started("", 0));
    NoteCalls(a, Started("", 0));
    NoteCalls(DropCancel(a), Started("", 0));
  }

  /** The marker a request writes. */
  function Asked(d: Disk, running: Release, url: string, m: Manifest): Pending {
    Pending(PENDING_SCHEMA, Current(d, running), m.release, url, m.archiveUrl, m.archiveSize, m.archiveHash, 0)
  }

  lemma RequestFrames(w: World, running: Release, latest: Release, url: string, m: Manifest)
    ensures var v := Record(w, running, latest, url, m);
      && v.disk == Noting(w.disk, v.disk.notes) && v.disk.notes.launcher == w.disk.notes.launcher
      && v.disk.notes.pending in {w.disk.notes.pending, Some(Asked(w.disk, running, url, m))}
  {
    WriteFrames(w, Asked(w.disk, running, url, m));
  }

  lemma WriteFrames(w: World, p: Pending)
    ensures var v := WritePending(w, p);
      && v.disk == Noting(w.disk, v.disk.notes) && v.disk.notes.launcher == w.disk.notes.launcher
      && v.disk.notes.pending in {w.disk.notes.pending, Some(p)}
  {
    var a := PutProgress(w);
    NoteCalls(w, Started("", 0));
    assert a.disk == w.disk;
    DropFrames(a);
  }

  lemma DropFrames(w: World)
    ensures var v := DropCancel(w); v.disk == Noting(w.disk, w.disk.notes.(cancel := v.disk.notes.cancel))
  {}

  /** What launcher/ already reports is no step forward. */
  lemma AskedIsNotReported(d: Disk, running: Release, url: string, m: Manifest)
    requires Consistent(d) && d.marker.None? && d.game.Present()
    ensures var p := Asked(d, running, url, m); Applicable(p) ==> ConfigRelease(d) != p.target
  {
    var p := Asked(d, running, url, m);
    Versions.ReleaseNewerIsStrictWeakOrder(p.target, p.target, p.target);
    assert Chosen(d) == d.game;
  }

  lemma OtherEventsKeepLauncher(w: World, ev: Event, bundle: Bundles)
    requires LauncherInv(w, bundle) && !ev.Start?
    ensures LauncherInv(Next(w, ev), bundle) && Next(w, ev).machine == w.machine
  {
    hide NoteSuccessfulStart, RequestCancel, Record, Consistent, Applicable;
    if Serving(w) {
      var u := Reboot(w, ev.script);
      NextKeeps(w, ev);
      match ev {
        case Heartbeat(_) => HeartbeatFrames(u);
        case CancelRequest(_) => CancelFrames(u);
        case Request(_, running, latest, url, m) =>
          RequestFrames(u, running, latest, url, m);
          AskedIsNotReported(w.disk, running, url, m);
      }
      LauncherFrame(Next(w, ev), w, bundle);
    }
  }

  lemma {:induction false} RunKeepsLauncher(w: World, events: seq<Event>, bundle: Bundles)
    requires WellShipped(bundle) && LauncherInv(w, bundle) && AllBundled(events, bundle)
    ensures LauncherInv(Run(w, events), bundle) && Run(w, events).machine == w.machine
    decreases |events|
  {
    if |events| > 0 {
      hide LauncherInv, Next, Startup, WellShipped, Bundled;
      var init := events[..|events| - 1];
      RunKeepsLauncher(w, init, bundle);
      EventKeepsLauncher(Run(w, init), events[|events| - 1], bundle);
    }
  }

  lemma EventKeepsLauncher(w: World, ev: Event, bundle: Bundles)
    requires WellShipped(bundle) && LauncherInv(w, bundle)
    requires ev.Start? ==> ev.sidecar && Bundled(ev.attempt, bundle)
    ensures LauncherInv(Next(w, ev), bundle) && Next(w, ev).machine == w.machine
  {
    hide LauncherInv, Startup, WellShipped, Bundled;
    match ev
    case Start(script, _, a) => StartKeepsLauncher(w, script, a, bundle);
    case _ => OtherEventsKeepLauncher(w, ev, bundle);
  }

  // ----- when the next start can tell -----

  /** Applied, and nothing less, means that launcher/ holds the whole bundle. */
  lemma AppliedMeansLive(w: World, a: Attempt)
    requires Walked(a.files) && SafePromotion(w.machine) && Settled(w.disk)
    ensures Apply(w, a).result.outcome == Applied ==>
      w.disk.notes.pending.Some? && Live(Apply(w, a).world.disk, a.files, w.disk.notes.pending.value.target)
  {
    if w.disk.notes.pending.Some? { ApplyMerges(w, a, w.disk.notes.pending.value); }
  }

  /** A start that answers applied or already current says so over a complete
      launcher/ of the release it found requested. */
  ghost predicate DropIsTrue(s: StartResult, before: World, bundle: Bundles) {
    s.world.up && s.result.outcome in {Applied, AlreadyCurrent} ==>
      && before.disk.notes.pending.Some?
      && var t := before.disk.notes.pending.value.target; Live(s.world.disk, bundle(t), t)
  }

  /** No run ends in a start that drops its request as done while a file of the
      release's launcher is missing or old. */
  ghost predicate DroppedOnlyWhenLive(bundle: Bundles) {
    forall w: World, events: seq<Event>, script: nat -> Fate, a: Attempt |
      Begun(w) && AllBundled(events, bundle) && Bundled(a, bundle) ::
      DropIsTrue(Startup(Reboot(Run(w, events), script), true, a), Run(w, events), bundle)
  }

  lemma BegunKeeps(w: World, events: seq<Event>, script: nat -> Fate, a: Attempt, bundle: Bundles)
    requires WellShipped(bundle) && Begun(w) && AllBundled(events, bundle) && Bundled(a, bundle)
    ensures DropIsTrue(Startup(Reboot(Run(w, events), script), true, a), Run(w, events), bundle)
  {
    hide Startup, Sound, RunInv, Live, WellShipped, AllBundled, Bundled, Consistent, Applicable;
    assert LauncherInv(w, bundle);
    RunKeepsLauncher(w, events, bundle);
    StartKeepsLauncher(Run(w, events), script, a, bundle);
  }

  // ----- a configuration that is not last -----

  function PutAll(launcher: map<string, Release>, files: seq<string>, t: Release): map<string, Release>
    decreases |files|
  {
    if |files| == 0 then launcher else PutAll(launcher[files[0] := t], files[1..], t)
  }

  /** Some calls later, with another launcher/. */
  function Later(w: World, launcher: map<string, Release>, calls: nat): World {
    w.(disk := Noting(w.disk, w.disk.notes.(launcher := launcher)), clock := w.clock + calls)
  }

  lemma OneMerged(w: World, name: string, t: Release)
    requires w.up && w.err == Ok && w.script(w.clock) == Done && w.script(w.clock + 1) == Done
    ensures ReplaceFile(w, name, t) == Later(w, w.disk.notes.launcher[name := t], 2)
  {
    assert CopyTemp(w) == w.(clock := w.clock + 1);
  }

  /** Undisturbed until some file, the merge has put those before it in place. */
  lemma {:induction false} PrefixMerged(w: World, files: seq<string>, k: nat, t: Release)
    requires w.up && w.err == Ok && k <= |files|
    requires forall c | w.clock <= c < w.clock + 2 * k :: w.script(c) == Done
    ensures ReplaceFiles(w, files, t)
         == ReplaceFiles(Later(w, PutAll(w.disk.notes.launcher, files[..k], t), 2 * k), files[k..], t)
    decreases k
  {
    hide ReplaceFile;
    if k > 0 {
      OneMerged(w, files[0], t);
      PrefixMerged(Later(w, w.disk.notes.launcher[files[0] := t], 2), files[1..], k - 1, t);
      assert files[1..][k - 1..] == files[k..] && files[1..][..k - 1] == files[..k][1..];
    } else {
      assert files[..0] == [] && files[0..] == files;
      assert Later(w, w.disk.notes.launcher, 0) == w;
    }
  }

  lemma {:induction false} PutAllHolds(launcher: map<string, Release>, files: seq<string>, t: Release, f: string)
    ensures f in PutAll(launcher, files, t) <==> f in files || f in launcher
    ensures f in files ==> PutAll(launcher, files, t)[f] == t
    decreases |files|
  {
    if |files| > 0 {
      PutAllHolds(launcher[files[0] := t], files[1..], t, f);
      assert files == [files[0]] + files[1..];
      if f !in files[1..] && f == files[0] { PutAllKeeps(launcher[f := t], files[1..], t, f); }
    }
  }

  lemma {:induction false} PutAllKeeps(launcher: map<string, Release>, files: seq<string>, t: Release, f: string)
    requires f in launcher && f !in files
    ensures f in PutAll(launcher, files, t) && PutAll(launcher, files, t)[f] == launcher[f]
    decreases |files|
  {
    if |files| > 0 {
      assert files == [files[0]] + files[1..];
      PutAllKeeps(launcher[files[0] := t], files[1..], t, f);
    }
  }

  const UNSPLIT := Machine(false, true, true, true, true)

  /** Dies at call `call`. */
  function DiesAt(call: nat): nat -> Fate { n => if n < call then Done else Crash }

  /** The swap takes calls 2 to 6. */
  lemma SwapUndisturbed(o: Release, n: Release, files: seq<string>, call: nat)
    requires call >= 7
    ensures var s := StagingOf(UNSPLIT, o, n, Absent, files, DiesAt(call));
      Swap(s) == s.(disk := s.disk.(game := Whole(n, false), backup := Whole(o, false),
                                    staged := Absent, marker := None),
                    clock := 7)
  {
    var s := StagingOf(UNSPLIT, o, n, Absent, files, DiesAt(call));
    var a := PutMarker(s, Begin);
    assert a == s.(disk := s.disk.(marker := Some(Begin)), clock := 3);
    var c := RenameTree(a, Game, Backup);
    assert c == a.(disk := a.disk.(game := Absent, backup := Whole(o, false)), clock := 4);
    var d := Promote(c, Staged);
    assert d == c.(disk := c.disk.(game := Whole(n, false), staged := Absent), clock := 5);
  }

  /** The merge dies before the file at `k`. */
  lemma MergeDies(w: World, files: seq<string>, k: nat, p: Pending)
    requires w.up && w.err == Ok && k < |files| && w.script == DiesAt(w.clock + 1 + 2 * k)
    requires w.disk.notes.bundle == Bundle(files, p.target)
    ensures var v := ApplyMerge(w, p).world;
      && !v.up && v.machine == w.machine
      && v.disk == Noting(w.disk, w.disk.notes.(launcher := PutAll(w.disk.notes.launcher, files[..k], p.target)))
  {
    hide PutAll, Retry;
    var a := PrepareLauncher(w);
    assert a == w.(clock := w.clock + 1);
    PrefixMerged(a, files, k, p.target);
    var b := Later(a, PutAll(a.disk.notes.launcher, files[..k], p.target), 2 * k);
    FileDies(b, files[k..], p.target);
    DeadEndings(RemoveBundle(MergeLauncher(w)), p, Unapplied, "launcher_merge_failed");
  }

  lemma FileDies(w: World, files: seq<string>, t: Release)
    requires w.up && |files| > 0 && w.script(w.clock) == Crash
    ensures ReplaceFiles(w, files, t) == w.(up := false, err := Io)
  {
    assert ReplaceFile(w, files[0], t) == w.(up := false, err := Io);
  }

  /** Nothing but the launcher of `o` and what the dead merge put over it. */
  lemma StartDies(o: Release, n: Release, files: seq<string>, k: nat)
    requires Ordered(o, n) && k < |files|
    ensures var script := DiesAt(8 + 2 * k);
      var v := Startup(Reboot(Off(UNSPLIT, Folder(o, n, Absent)), script), true, Installs(n, files)).world;
      && !v.up && v.machine == UNSPLIT
      && v.disk.game == Whole(n, false) && v.disk.staged.Absent? && v.disk.marker.None? && v.disk.copies.NoCopy?
      && v.disk.notes.pending == Some(PendingFor(o, n)) && !v.disk.notes.cancel
      && v.disk.notes.launcher == PutAll(map[CONFIG := o], files[..k], n)
  {
    hide Swap, ApplyMerge, PutAll, Startup;
    var script := DiesAt(8 + 2 * k);
    StartReachesSwap(UNSPLIT, o, n, Absent, files, script);
    SwapUndisturbed(o, n, files, 8 + 2 * k);
    var a := Swap(StagingOf(UNSPLIT, o, n, Absent, files, script));
    assert a.script == script && a.clock + 1 + 2 * k == 8 + 2 * k;
    MergeDies(a, files, k, PendingFor(o, n));
    assert ApplySwap(StagingOf(UNSPLIT, o, n, Absent, files, script), PendingFor(o, n))
        == ApplyMerge(a, PendingFor(o, n));
  }

  /** An undisturbed start over a folder whose configuration names the target. */
  lemma StartDrops(v: World, o: Release, n: Release, files: seq<string>)
    requires Ordered(o, n) && v.disk.game == Whole(n, false) && v.disk.staged.Absent? && v.disk.marker.None?
    requires v.disk.copies.NoCopy? && v.disk.notes.pending == Some(PendingFor(o, n)) && !v.disk.notes.cancel
    requires ConfigRelease(v.disk) == n
    ensures var s := Startup(Reboot(v, c => Done), true, Installs(n, files));
      s.world.up && s.result.outcome == AlreadyCurrent && s.world.disk.notes.launcher == v.disk.notes.launcher
  {
    var u := Reboot(v, c => Done);
    RecoverIdles(u);
    assert ValidPending(PendingFor(o, n)) && Forward(PendingFor(o, n));
    hide Recover, ApplyManifest;
  }

  /** The dead merge put the configuration in place and not the last file. */
  lemma MixedLauncher(d: Disk, o: Release, n: Release, files: seq<string>, i: nat)
    requires Walked(files) && i < |files| - 1 && files[i] == CONFIG
    requires d.notes.launcher == PutAll(map[CONFIG := o], files[..i + 1], n)
    ensures ConfigRelease(d) == n && !Live(d, files, n)
  {
    var done, last := files[..i + 1], files[|files| - 1];
    assert done[i] == CONFIG && last !in done;
    PutAllHolds(map[CONFIG := o], done, n, CONFIG);
    PutAllHolds(map[CONFIG := o], done, n, last);
    assert last in files;
  }

  lemma FolderBegins(o: Release, n: Release)
    requires Ordered(o, n)
    ensures Begun(Off(UNSPLIT, Folder(o, n, Absent)))
  {}

  /** The update of `o` to `n` dies in the merge just after the configuration: the
      next start, undisturbed, drops the request and the rest is never merged. */
  lemma MixedLauncherStays(o: Release, n: Release, bundle: Bundles, i: nat)
    requires Ordered(o, n) && Walked(bundle(n)) && i < |bundle(n)| - 1 && bundle(n)[i] == CONFIG
    ensures !DroppedOnlyWhenLive(bundle)
  {
    hide Startup, Begun, Live, Walked, ConfigRelease, PutAll;
    var files := bundle(n);
    var w, script := Off(UNSPLIT, Folder(o, n, Absent)), DiesAt(8 + 2 * (i + 1));
    var events, a := [Start(script, true, Installs(n, files))], Installs(n, files);
    StartDies(o, n, files, i + 1);
    assert events[..0] == [] && Run(w, events[..0]) == w;
    var v := Run(w, events);
    assert v == Startup(Reboot(w, script), true, a).world;
    MixedLauncher(v.disk, o, n, files, i);
    StartDrops(v, o, n, files);
    FolderBegins(o, n);
    LiveFrame(v.disk, Startup(Reboot(v, c => Done), true, a).world.disk, files, n);
    assert AllBundled(events, bundle) && Bundled(a, bundle);
    assert !DropIsTrue(Startup(Reboot(v, c => Done), true, a), v, bundle);
  }

  lemma LiveFrame(d: Disk, e: Disk, files: seq<string>, t: Release)
    requires d.notes.launcher == e.notes.launcher
    ensures Live(d, files, t) <==> Live(e, files, t)
  {}

  /** Whatever is requested, refused, cancelled or dies, no run drops a request as done
      over an incomplete launcher/, exactly when every release ships its
      configuration last or not at all. */
  lemma LauncherIsCompleteExactlyWhen(bundle: Bundles)
    requires forall t :: Walked(bundle(t))
    ensures DroppedOnlyWhenLive(bundle) <==> forall t | Versions.ValidRelease(t) :: ConfigLast(bundle(t))
  {
    if forall t | Versions.ValidRelease(t) :: ConfigLast(bundle(t)) {
      forall w: World, events: seq<Event>, script: nat -> Fate, a: Attempt |
        Begun(w) && AllBundled(events, bundle) && Bundled(a, bundle)
        ensures DropIsTrue(Startup(Reboot(Run(w, events), script), true, a), Run(w, events), bundle)
      {
        BegunKeeps(w, events, script, a, bundle);
      }
    } else {
      var t :| Versions.ValidRelease(t) && !ConfigLast(bundle(t));
      var i :| 0 <= i < |bundle(t)| - 1 && bundle(t)[i] == CONFIG;
      SeedIsOlder(t);
      MixedLauncherStays("seed", t, bundle, i);
    }
  }

  lemma SeedIsOlder(t: Release)
    requires Versions.ValidRelease(t)
    ensures Ordered("seed", t)
  {
    Text.SplitWhole("seed", '.');
    assert !Versions.ValidRelease("seed");
  }
}
