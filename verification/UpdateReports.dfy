/** What recovery reports and start-up does with it, and that one refused call is
    always undone. */
module UpdateReports {
  import opened Basics
  import opened FolderModel
  import opened SwapSpec
  import opened SwapProofs
  import opened RecoveryTheorems
  import opened UpdateSpec
  import opened UpdateProofs
  import opened UpdateDetails
  import opened UpdateAnswers
  import Versions

  // ----- the report -----

  /** A swap was begun and game/ may not be what it should become. */
  ghost predicate InFlight(d: Disk) { d.game.Absent? || (d.backup.Present() && d.marker.Some?) }

  /** The new release was there: staged, or promoted already. */
  ghost predicate Arrived(d: Disk) { d.staged.Present() || (d.game.Present() && d.marker == Some(Promoted)) }

  /** Undisturbed, recovery says what it did, over any disk whatsoever: forward where
      the new release had arrived, back where the old one was put in its place, and
      otherwise only whether it removed something stray. */
  lemma RecoverySaysWhatItDid(w: World)
    requires Undisturbed(w)
    ensures var d, r := w.disk, Recover(w, true); var v := r.world.disk;
      && (r.action == RolledForward <==> InFlight(d) && Arrived(d))
      && (r.action == RolledBack <==> d.backup.Present() && v.backup.Absent?)
      && (r.action == RolledBack ==> InFlight(d) && !Arrived(d) && v.game == d.backup)
      && (r.action == CleanedStray <==> !InFlight(d) && d.staged.Present())
      && (r.world.err != Ok <==> d.game.Absent? && d.staged.Absent? && d.backup.Absent? && d.marker.Some?)
  {
    var a := SweepCopies(w.(recovering := true));
    var d := a.disk;
    assert d == w.disk.(copies := NoCopy) && Undisturbed(a);
    if d.game.Absent? {
      if d.staged.Present() { PromoteWorks(a, Staged); }
      else if d.backup.Present() { PromoteWorks(a, Backup); }
    } else if d.backup.Present() && d.marker.Some? {
      if d.staged.Present() { RollForwardWorks(a); }
      else {
        match d.marker.value
        case Promoted =>
        case Begin => RollBackWorks(a);
      }
    }
  }

  // ----- one refusal -----

  /** Exactly one call is refused, having done part of its work or not. */
  ghost predicate OneRefused(w: World, k: nat) {
    w.up && (w.script(k) == Fail || w.script(k) == FailTorn) && forall n | n != k :: w.script(n) == Done
  }

  /** The tree at `src` is game/, or everything is as it was and the refusal is behind
      us; no copy is left over. */
  ghost predicate PromotedOrUndone(v: World, w: World, k: nat, src: Dir) {
    && v.up && v.script == w.script && v.machine == w.machine && v.disk.marker == w.disk.marker
    && (src == Staged ==> v.disk.backup == w.disk.backup) && (src == Backup ==> v.disk.staged == w.disk.staged)
    && v.disk.copies == w.disk.copies
    && (if v.err == Ok then v.disk.game == At(w.disk, src)
        else v.disk.game.Absent? && At(v.disk, src) == At(w.disk, src) && w.clock <= k < v.clock)
    && (v.err == Ok && v.clock <= k ==> At(v.disk, src).Absent?)
  }

  lemma PromoteOneRefused(w: World, k: nat, src: Dir)
    requires OneRefused(w, k) && src != Game && w.disk.game.Absent? && At(w.disk, src).Present()
    ensures PromotedOrUndone(Promote(w, src), w, k, src)
  {
    hide DropCopy, InstallCopy;
    var a := RenameTree(w, src, Game);
    if a.err == CrossDevice { CopyOneRefused(a, k, src); }
  }

  lemma CopyOneRefused(w: World, k: nat, src: Dir)
    requires OneRefused(w, k) && src != Game && w.disk.game.Absent? && At(w.disk, src).Present()
    ensures PromotedOrUndone(CopyAcross(w, src), w, k, src)
  {
    hide InstallCopy;
    var a := MakeCopy(w);
    if a.err == Ok {
      var b := FillCopy(a, src);
      assert b.up && b.disk.game.Absent? && At(b.disk, src) == At(w.disk, src);
      if b.err == Ok { InstallOneRefused(b, k, src); }
    }
  }

  lemma InstallOneRefused(w: World, k: nat, src: Dir)
    requires OneRefused(w, k) && src != Game && w.disk.game.Absent? && At(w.disk, src).Present()
    requires w.disk.copies.Copy? && w.disk.copies.top == At(w.disk, src)
    ensures PromotedOrUndone(InstallCopy(w, src), w.(disk := w.disk.(copies := w.disk.copies.rest)), k, src)
  {}

  /** The swap went through, or nothing has come of it; either way that is what a
      recovery would choose. */
  ghost predicate SwappedOrUndone(v: World, g: Tree, s: Tree) {
    && v.up && Chosen(v.disk) == v.disk.game
    && (if v.err == Ok then v.disk.game == s && v.disk.backup == g
        else v.disk.game == g && v.disk.staged == s && v.disk.marker.None?)
  }

  lemma UndoOneRefused(w: World, k: nat)
    requires OneRefused(w, k) && k < w.clock && w.disk.game.Absent? && w.disk.backup.Present()
    ensures SwappedOrUndone(SwapUndo(w), w.disk.backup, w.disk.staged) && SwapUndo(w).err != Ok
  {}

  /** A swap in which one call is refused either goes through all the same or is
      undone: game/ is the staged tree or the old one, recovery would leave it there,
      and with the old one the staged tree is still there and no swap is in flight. */
  lemma OneRefusalIsUndone(w: World, k: nat)
    requires OneRefused(w, k) && Settled(w.disk) && w.disk.staged.Whole?
    ensures SwappedOrUndone(Swap(w), w.disk.game, w.disk.staged)
  {
    var a := PutMarker(w, Begin);
    if a.err == Ok { MarkedOneRefused(a, k); }
  }

  lemma MarkedOneRefused(w: World, k: nat)
    requires OneRefused(w, k) && w.disk.game.Whole? && w.disk.staged.Whole? && w.err == Ok
    ensures SwappedOrUndone(SwapMarked(w), w.disk.game, w.disk.staged)
  {
    hide SwapMoved;
    var b := if w.disk.backup.Present() then RemoveTree(w, Backup) else w;
    if b.err == Ok {
      var c := RenameTree(b, Game, Backup);
      if c.err == Ok { MovedOneRefused(c, k); }
    }
  }

  lemma MovedOneRefused(w: World, k: nat)
    requires OneRefused(w, k) && w.disk.game.Absent? && w.disk.backup.Whole? && w.disk.staged.Whole?
    ensures SwappedOrUndone(SwapMoved(w), w.disk.backup, w.disk.staged)
  {
    hide Promote, SwapUndo;
    PromoteOneRefused(w, k, Staged);
    var a := Promote(w, Staged);
    if a.err != Ok { UndoOneRefused(a, k); }
  }

  /** Without both trees a swap does not begin. */
  lemma SwapNeedsBothTrees(w: World)
    requires w.disk.staged.Absent? || w.disk.game.Absent?
    ensures Swap(w).disk == w.disk && Swap(w).clock == w.clock && Swap(w).err != Ok
  {}

  /** A recovery that installs the staged release over an old one never leaves the
      folder without a game/ because one call is refused. */
  lemma OneRefusalKeepsAGame(w: World, k: nat)
    requires OneRefused(w, k) && w.disk.game.Present() && w.disk.backup.Present() && w.disk.staged.Present()
    ensures var v := Recover(w, true).world; v.up && v.disk.game in {w.disk.game, w.disk.staged}
  {
    var a := SweepCopies(w.(recovering := true));
    if a.disk.marker.Some? { RollForwardOneRefused(a, k); }
  }

  lemma RollForwardOneRefused(w: World, k: nat)
    requires OneRefused(w, k) && w.disk.game.Present() && w.disk.staged.Present()
    ensures var v := RollForward(w).world; v.up && v.disk.game in {w.disk.game, w.disk.staged}
  {
    hide Promote;
    var b := RemoveTree(w, Backup);
    if b.err == Ok {
      var c := RenameTree(b, Game, Backup);
      if c.err == Ok { PromoteOneRefused(c, k, Staged); }
    }
  }

  /** What the folder reports: what a game/ that names its release says it is, whatever
      launcher/ says, and what launcher/ says otherwise; after an installation the
      target, where launcher.config.json came with it. */
  lemma FolderReports(d: Disk, a: Attempt, p: Pending)
    ensures d.game.Whole? && d.game.declared && d.game.release != "" ==> InstalledRelease(d) == d.game.release
    ensures (d.game.Whole? ==> !d.game.declared) ==>
      InstalledRelease(d) == if CONFIG in d.notes.launcher then d.notes.launcher[CONFIG] else ""
    ensures CONFIG in a.files ==> InstalledRelease(Updated(d, a, p)) == p.target
  {}

  // ----- the launcher's files -----

  /** File `f` is live, or not, as before. */
  ghost predicate SameFile(v: World, w: World, f: string) {
    var was, now := w.disk.notes.launcher, v.disk.notes.launcher;
    (f in now <==> f in was) && (f in was ==> now[f] == was[f])
  }

  /** A file that cannot be renamed over because that one call is refused is moved aside
      first and replaced all the same, leaving nothing aside; refused otherwise it is
      left as it was. No other file changes. */
  lemma OneRefusalReplacesOrKeeps(w: World, k: nat, name: string, release: Release)
    requires OneRefused(w, k) && !w.recovering
    ensures var v := ReplaceFile(w, name, release); var was, now := w.disk.notes.launcher, v.disk.notes.launcher;
      && v.up
      && (v.err == Ok <==> k != w.clock && (k == w.clock + 1 ==> name in was))
      && (if v.err == Ok then name in now && now[name] == release else SameFile(v, w, name))
      && (if v.err == Ok && k == w.clock + 1 then name + ASIDE !in now else SameFile(v, w, name + ASIDE))
      && (forall f | f !in {name, name + ASIDE} :: SameFile(v, w, f))
  {
    assert |name + ASIDE| > |name|;
    var a := CopyTemp(w);
    if a.err == Ok {
      var b := PutFile(a, name, release);
      if b.err != Ok && name in b.disk.notes.launcher { AsideOneRefused(b, k, name, release); }
    }
  }

  lemma AsideOneRefused(w: World, k: nat, name: string, release: Release)
    requires OneRefused(w, k) && k < w.clock && name in w.disk.notes.launcher
    ensures var v := ReplaceAside(w, name, release); var now := v.disk.notes.launcher;
      && v.up && v.err == Ok && name in now && now[name] == release && name + ASIDE !in now
      && (forall f | f !in {name, name + ASIDE} :: SameFile(v, w, f))
  {
    assert |name + ASIDE| > |name|;
    var a := RenameFile(RemoveFile(w, name + ASIDE), name, name + ASIDE);
    assert a.up && a.err == Ok;
    var b := PutFile(a, name, release);
    assert b.up && b.err == Ok;
  }

  /** The new file is refused its place and everything else works. */
  ghost predicate OnlyPutRefused(w: World) {
    w.up && !w.recovering && forall n :: w.script(n) == if n == w.clock + 2 then Fail else Done
  }

  /** A file moved aside for a new one that then cannot be put in its place is put back. */
  lemma MovedFileIsPutBack(w: World, name: string, release: Release)
    requires OnlyPutRefused(w) && name in w.disk.notes.launcher
    ensures var v := ReplaceAside(w, name, release);
      v.up && v.err != Ok && name + ASIDE !in v.disk.notes.launcher
        && forall f | f != name + ASIDE :: SameFile(v, w, f)
  {
    assert |name + ASIDE| > |name|;
    var a := RenameFile(RemoveFile(w, name + ASIDE), name, name + ASIDE);
    assert a.up && a.err == Ok && a.clock == w.clock + 2;
    var b := PutFile(a, name, release);
    assert b.up && b.err != Ok && b.disk == a.disk;
  }

  /** A torn launcher.new/ is not merged, but dropped, and the request is tried again. */
  lemma TornBundleIsDropped(w: World, p: Pending)
    requires Undisturbed(w) && w.disk.notes.bundle.TornBundle? && p.retries < 2
    ensures var e := ApplyMerge(w, p);
      && e.result == Result(Unapplied, "launcher_merge_failed", true)
      && e.world.disk
           == Noting(w.disk, w.disk.notes.(bundle := NoBundle, pending := Some(p.(retries := p.retries + 1))))
  {}

  // ----- the records -----

  lemma RecoverKeepsNotes(w: World, sidecar: bool)
    ensures Recover(w, sidecar).world.disk.notes == w.disk.notes
  {
    hide Promote, RollForward, RollBack, Clean;
    var a := SweepCopies(w.(recovering := true));
    PromoteKeepsNotes(a, Staged);
    PromoteKeepsNotes(a, Backup);
    RollsKeepNotes(a);
    CleanKeepsNotes(a, sidecar && a.disk.staged.Present());
  }

  lemma PromoteKeepsNotes(w: World, src: Dir)
    ensures Promote(w, src).disk.notes == w.disk.notes
  {}

  lemma RollsKeepNotes(w: World)
    ensures RollForward(w).world.disk.notes == w.disk.notes && RollBack(w).world.disk.notes == w.disk.notes
  {
    hide Promote;
    var b := RenameTree(RemoveTree(w, Backup), Game, Backup);
    PromoteKeepsNotes(b, Staged);
    PromoteKeepsNotes(RemoveTree(w, Game), Backup);
  }

  lemma CleanKeepsNotes(w: World, staged: bool)
    ensures Clean(w, staged).world.disk.notes == w.disk.notes
  {}

  lemma SwapKeepsNotes(w: World)
    ensures Swap(w).disk.notes == w.disk.notes
  {
    hide SwapCleared;
    var a := PutMarker(w, Begin);
    var b := if a.disk.backup.Present() then RemoveTree(a, Backup) else a;
    ClearedKeepsNotes(b);
  }

  lemma ClearedKeepsNotes(w: World)
    ensures SwapCleared(w).disk.notes == w.disk.notes
  {
    hide Promote;
    PromoteKeepsNotes(RenameTree(w, Game, Backup), Staged);
  }

  /** The counter of starts is the same. */
  ghost predicate SameStarts(v: World, w: World) { v.disk.notes.started == w.disk.notes.started }

  lemma EndingsKeepStarts(w: World, p: Pending, outcome: Outcome, reason: string)
    ensures SameStarts(Drop(w, outcome, reason).world, w) && SameStarts(Terminal(w, reason).world, w)
    ensures SameStarts(Retry(w, p, reason).world, w) && SameStarts(HonourCancel(w).world, w)
    ensures SameStarts(DropCancel(DropPending(w)), w)
  {}

  lemma ClearingKeepsStarts(w: World)
    ensures SameStarts(ClearStaging(w), w)
  {}

  lemma StagingKeepsStarts(w: World, a: Attempt, p: Pending)
    ensures SameStarts(Discard(w), w) && SameStarts(Unpack(w, p.target, a.files, a.accepted), w)
  {}

  lemma BundleKeepsStarts(w: World)
    ensures SameStarts(RemoveBundle(w), w)
  {}

  lemma StagedKeepsStarts(w: World, a: Attempt, p: Pending)
    ensures SameStarts(ApplyStaged(w, a, p).world, w)
  {
    hide ApplySwap, Discard, Terminal, HonourCancel;
    var b := if w.up && a.cancelArrives then w.(disk := Noting(w.disk, w.disk.notes.(cancel := true))) else w;
    assert SameStarts(b, w);
    StagingKeepsStarts(w, a, p);
    StagingKeepsStarts(b, a, p);
    EndingsKeepStarts(Discard(w), p, Unapplied, "data_touched");
    EndingsKeepStarts(Discard(w), p, Unapplied, "config_merge_failed");
    EndingsKeepStarts(Discard(b), p, Cancelled, "cancelled");
    SwapKeepsStarts(b, p);
  }

  lemma ArchiveKeepsStarts(w: World, a: Attempt, p: Pending)
    ensures SameStarts(ApplyArchive(w, a, p).world, w)
  {
    hide ApplyStaged, ClearStaging, Unpack, Discard, Terminal, Retry;
    var b := ClearStaging(w);
    var c := Unpack(b, p.target, a.files, a.accepted);
    ClearingKeepsStarts(w);
    StagingKeepsStarts(b, a, p);
    StagingKeepsStarts(c, a, p);
    EndingsKeepStarts(b, p, Unapplied, "staging_unwritable");
    EndingsKeepStarts(Discard(c), p, Unapplied, "extract_failed");
    StagedKeepsStarts(c, a, p);
  }

  lemma ManifestKeepsStarts(w: World, a: Attempt, p: Pending, m: Manifest)
    ensures SameStarts(ApplyManifest(w, a, p, m).world, w)
  {
    hide ApplyArchive, Drop, Terminal, Retry, HonourCancel, Reconcile, Versions.FloorMet, RequiredBytes,
      ResolveArchiveUrl;
    var reason := ApplyManifest(w, a, p, m).result.reason;
    EndingsKeepStarts(w, p, Unapplied, "manifest_drift");
    EndingsKeepStarts(w, p, Unapplied, "launcher_min");
    EndingsKeepStarts(w, p, Unapplied, "no_archive_size");
    EndingsKeepStarts(w, p, Unapplied, "no_archive_url");
    EndingsKeepStarts(w, p, Unapplied, "download_failed");
    EndingsKeepStarts(w, p, Unapplied, "verify_failed");
    if a.download.DownloadRefused? { EndingsKeepStarts(w, p, Unapplied, a.download.policy.Reason()); }
    ArchiveKeepsStarts(w, a, p);
  }

  /** Whatever the calls meet, Apply leaves the counter of starts alone. */
  lemma ApplyKeepsStarts(w: World, a: Attempt)
    ensures SameStarts(Apply(w, a).world, w)
  {
    hide ApplyManifest, Drop, Retry, HonourCancel, ValidPending, Forward, InstalledRelease;
    if w.disk.notes.pending.Some? {
      var p := w.disk.notes.pending.value;
      EndingsKeepStarts(w, p, Unapplied, "invalid_marker");
      EndingsKeepStarts(w, p, Unapplied, "not_newer");
      EndingsKeepStarts(w, p, Unapplied, "retries_exhausted");
      EndingsKeepStarts(w, p, AlreadyCurrent, "already_current");
      EndingsKeepStarts(w, p, Unapplied, "manifest_unreachable");
      if a.manifest.Some? { ManifestKeepsStarts(w, a, p, a.manifest.value); }
    }
  }

  /** After a rollback the starts of the release that was rolled back no longer count:
      the counter is gone, and on any other start it is as it was found. */
  lemma RollbackForgetsStarts(w: World, a: Attempt)
    requires Undisturbed(w)
    ensures var s := Startup(w, true, a);
      && s.action == Recover(w, true).action
      && s.world.disk.notes.started == if s.action == RolledBack then None else w.disk.notes.started
  {
    hide Recover, Apply;
    RecoverKeepsNotes(w, true);
    StillUndisturbed(w);
    var r := Recover(w, true);
    var v := if r.action.RolledBack? then DropStarted(r.world) else r.world;
    ApplyKeepsStarts(v, a);
  }

  lemma StillUndisturbed(w: World)
    requires Undisturbed(w)
    ensures Undisturbed(Recover(w, true).world)
  {
    var a := SweepCopies(w.(recovering := true));
    if a.disk.game.Absent? {
      if a.disk.staged.Present() { PromoteWorks(a, Staged); }
      else if a.disk.backup.Present() { PromoteWorks(a, Backup); }
    } else if a.disk.backup.Present() && a.disk.marker.Some? {
      if a.disk.staged.Present() { RollForwardStays(a); } else if a.disk.marker == Some(Begin) { RollBackStays(a); }
    }
  }

  lemma RollForwardStays(w: World)
    requires Undisturbed(w) && w.disk.game.Present() && w.disk.staged.Present()
    ensures Undisturbed(RollForward(w).world)
  {
    PromoteWorks(RenameTree(RemoveTree(w, Backup), Game, Backup), Staged);
  }

  lemma RollBackStays(w: World)
    requires Undisturbed(w) && w.disk.backup.Present()
    ensures Undisturbed(RollBack(w).world)
  {
    PromoteWorks(RemoveTree(w, Game), Backup);
  }

  lemma SwapKeepsStarts(w: World, p: Pending)
    ensures SameStarts(ApplySwap(w, p).world, w)
  {
    hide Swap, MergeLauncher, Drop, Retry, DropCancel, DropPending, RemoveBundle;
    var a := Swap(w);
    SwapKeepsNotes(w);
    EndingsKeepStarts(a, p, Unapplied, "swap_failed");
    var b := MergeLauncher(a);
    MergeLauncherKeeps(a);
    var c := RemoveBundle(b);
    BundleKeepsStarts(b);
    EndingsKeepStarts(c, p, Applied, "launcher_merge_failed");
  }
}
