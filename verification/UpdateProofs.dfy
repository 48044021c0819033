/** What every ending of Apply leaves, at whatever call it is refused or dies. */
module UpdateProofs {
  import opened Basics
  import opened FolderModel
  import opened SwapSpec
  import opened SwapProofs
  import opened UpdateSpec
  import Versions

  /** A machine on which the protocol keeps its promises; see UpdateRuns. */
  ghost predicate Sound(m: Machine) {
    m.sureMarks && m.calmRecovery && m.keepsSidecar && SafePromotion(m)
  }

  /** A folder with `tree` as game/ claims `target` only if `tree` is `target`. */
  ghost predicate Truthful(tree: Tree, d: Disk, target: Release) {
    ReportedFor(tree, d) == target ==> tree.Whole? && tree.release == target
  }

  /** Whatever tree recovery installs, the pending request is never mistaken for done. */
  ghost predicate Honest(d: Disk) {
    match d.notes.pending
    case None => true
    case Some(p) =>
      ValidPending(p) && Forward(p) ==> Truthful(Chosen(d), d, p.target) && Truthful(Spare(d), d, p.target)
  }

  /** While the process lives on, no swap is in flight, or game/ is gone. */
  ghost predicate Resting(d: Disk) { d.marker.None? || d.game.Absent? }

  function Target(p: Pending): Tree { Whole(p.target, false) }

  /** The failures that use up the retry budget. */
  predicate Counted(r: Result) {
    r.outcome == Unapplied &&
    r.reason in {"manifest_unreachable", "download_failed", "staging_unwritable", "launcher_merge_failed"}
  }

  /** The two endings after which game/ holds the target. */
  predicate Installed(r: Result) {
    r.outcome == Applied || r.reason == "launcher_merge_failed"
  }

  /** The marker afterwards, `p` being the marker before. */
  ghost predicate MarkerAfter(r: Result, after: Option<Pending>, p: Pending) {
    && (r.retryable <==> after.Some?)
    && (after.Some? ==> after == Some(if Counted(r) then p.(retries := p.retries + 1) else p))
    && (Counted(r) ==> p.retries < RETRY_BUDGET && (r.retryable <==> p.retries + 1 < RETRY_BUDGET))
    && (r.retryable && !Counted(r) ==> r.reason == "insufficient_space")
    && (r.outcome == Cancelled ==> !r.retryable)
  }

  ghost predicate GameKept(v: Disk, g: Tree, r: Result) {
    v.game == g || (r.reason == "swap_failed" && v.game.Absent? && v.backup == g && v.marker == Some(Begin))
  }

  /** What an Apply that found marker `p` may leave of the world `w` it found;
      `k` says that the user may cancel while it runs. */
  ghost predicate Ended(e: Ending, w: World, p: Pending, k: bool) {
    var v, r := e.world, e.result;
    && v.machine == w.machine && v.recovering == w.recovering && (v.up ==> w.up)
    && Only(v.disk, w.disk.game, Target(p))
    && (v.disk.notes.pending == Some(p) || v.disk.notes.pending == Some(p.(retries := p.retries + 1))
         || v.disk.notes.pending.None?)
    && (v.disk.notes.launcher == w.disk.notes.launcher || (Chosen(v.disk) == Target(p) && Spare(v.disk) == Target(p)))
    && r.outcome != Skipped
    && (r.outcome == AlreadyCurrent ==> ValidPending(p) && Forward(p) && InstalledRelease(w.disk) == p.target)
    && (v.disk.notes.cancel || r.outcome == Cancelled ==> k || w.disk.notes.cancel)
    && (v.up ==>
          && Resting(v.disk)
          && MarkerAfter(r, v.disk.notes.pending, p)
          && (r.outcome == Cancelled ==> !v.disk.notes.cancel)
          && (if Installed(r) then v.disk.game == Target(p)
              else v.disk.notes.launcher == w.disk.notes.launcher && GameKept(v.disk, w.disk.game, r)))
  }

  /** A recovered folder with marker `p`; the process may be gone. */
  ghost predicate Ready(w: World, p: Pending) {
    Sound(w.machine) && Settled(w.disk) && w.disk.notes.pending == Some(p)
  }

  // ----- endings before the swap -----

  lemma DropEnds(w: World, p: Pending, outcome: Outcome, reason: string, k: bool)
    requires Ready(w, p) && reason != "launcher_merge_failed" && outcome !in {Applied, Cancelled, Skipped}
    requires !Counted(Result(outcome, reason, false))
    requires outcome == AlreadyCurrent ==> ValidPending(p) && Forward(p) && InstalledRelease(w.disk) == p.target
    ensures Ended(Drop(w, outcome, reason), w, p, k)
  {}

  lemma TerminalEnds(w: World, p: Pending, reason: string, k: bool)
    requires Ready(w, p) && reason in {"verify_failed", "extract_failed", "data_touched", "config_merge_failed"}
    ensures Ended(Terminal(w, reason), w, p, k)
  {}

  lemma CancelEnds(w: World, p: Pending, k: bool)
    requires Ready(w, p) && (k || w.disk.notes.cancel)
    ensures Ended(HonourCancel(w), w, p, k)
  {}

  lemma RetryEnds(w: World, p: Pending, reason: string, k: bool)
    requires Ready(w, p) && p.retries < RETRY_BUDGET
    requires reason in {"manifest_unreachable", "download_failed", "staging_unwritable"}
    ensures Ended(Retry(w, p, reason), w, p, k)
  {}

  // ----- staging -----

  /** Only game.new/ and launcher.new/ differ. */
  ghost predicate StagingOnly(v: World, w: World) {
    && v.machine == w.machine && v.recovering == w.recovering && (v.up ==> w.up)
    && v.disk.game == w.disk.game && v.disk.backup == w.disk.backup && v.disk.marker == w.disk.marker
    && v.disk.notes.launcher == w.disk.notes.launcher && v.disk.notes.pending == w.disk.notes.pending
    && v.disk.notes.cancel == w.disk.notes.cancel
  }

  lemma DiscardKeeps(w: World)
    ensures StagingOnly(Discard(w), w)
  {}

  lemma UnpackKeeps(w: World, p: Pending, a: Attempt)
    ensures var b := Unpack(w, p.target, a.files, a.accepted);
      StagingOnly(b, w) && (b.err == Ok ==> b.up && b.disk.staged == Target(p))
  {}

  lemma ClearedKeeps(w: World)
    ensures StagingOnly(ClearStaging(w), w)
  {
    var a := if w.disk.staged.Present() then RemoveTree(w, Staged) else w.(err := Ok);
    assert StagingOnly(a, w);
  }

  // ----- the launcher merge -----

  ghost predicate LauncherOnly(v: World, w: World) {
    && v.machine == w.machine && v.recovering == w.recovering && (v.up ==> w.up)
    && v.disk == Noting(w.disk, w.disk.notes.(launcher := v.disk.notes.launcher))
    && (!w.up ==> v.disk == w.disk)
  }

  lemma LauncherCallsKeep(w: World, name: string, to: string, release: Release)
    ensures LauncherOnly(CopyTemp(w), w) && LauncherOnly(PutFile(w, name, release), w)
    ensures LauncherOnly(RenameFile(w, name, to), w) && LauncherOnly(RemoveFile(w, name), w)
  {}

  lemma LauncherOnlyChain(a: World, b: World, c: World)
    requires LauncherOnly(b, a) && LauncherOnly(c, b)
    ensures LauncherOnly(c, a)
  {}

  lemma ReplaceAsideKeeps(w: World, name: string, release: Release)
    ensures LauncherOnly(ReplaceAside(w, name, release), w)
  {
    var aside := name + ASIDE;
    var r := RemoveFile(w, aside);
    LauncherCallsKeep(w, aside, aside, release);
    LauncherCallsKeep(r, name, aside, release);
    var a := RenameFile(r, name, aside);
    LauncherOnlyChain(w, r, a);
    ReplaceMovedKeeps(a, name, release);
    if a.err == Ok { LauncherOnlyChain(w, a, ReplaceAside(w, name, release)); }
  }

  lemma ReplaceMovedKeeps(a: World, name: string, release: Release)
    ensures var b := PutFile(a, name, release);
      LauncherOnly(if b.err != Ok then RenameFile(b, name + ASIDE, name).(err := Io)
                   else RemoveFile(b, name + ASIDE).(err := Ok), a)
  {
    var b := PutFile(a, name, release);
    LauncherCallsKeep(a, name, name, release);
    LauncherCallsKeep(b, name + ASIDE, name, release);
    LauncherOnlyChain(a, b, RenameFile(b, name + ASIDE, name));
    LauncherOnlyChain(a, b, RemoveFile(b, name + ASIDE));
  }

  lemma ReplaceFileKeeps(w: World, name: string, release: Release)
    ensures LauncherOnly(ReplaceFile(w, name, release), w)
  {
    var a := CopyTemp(w);
    var b := PutFile(a, name, release);
    LauncherCallsKeep(w, name, name, release);
    LauncherCallsKeep(a, name, name, release);
    LauncherOnlyChain(w, a, b);
    ReplaceAsideKeeps(b, name, release);
    LauncherOnlyChain(w, b, ReplaceAside(b, name, release));
  }

  lemma {:induction false} ReplaceFilesKeeps(w: World, files: seq<string>, release: Release)
    ensures LauncherOnly(ReplaceFiles(w, files, release), w)
    decreases |files|
  {
    if |files| > 0 {
      ReplaceFileKeeps(w, files[0], release);
      ReplaceFilesKeeps(ReplaceFile(w, files[0], release), files[1..], release);
    }
  }

  lemma MergeLauncherKeeps(w: World)
    ensures LauncherOnly(MergeLauncher(w), w)
  {
    match w.disk.notes.bundle
    case Bundle(files, release) => ReplaceFilesKeeps(PrepareLauncher(w), files, release);
    case _ =>
  }

  // ----- the swap and what follows it -----

  lemma SwapFailedEnds(a: World, w: World, p: Pending, k: bool)
    requires Ready(w, p) && Swapped(a, w, w.disk.game, Target(p)) && a.err != Ok
    ensures Ended(Drop(a, Unapplied, "swap_failed"), w, p, k)
  {}

  /** The swap is complete and only the merge and the bookkeeping are left. */
  ghost predicate SwapDone(b: World, w: World, p: Pending) {
    && b.machine == w.machine && b.recovering == w.recovering && (b.up ==> w.up)
    && b.disk.notes.pending == Some(p) && b.disk.notes.cancel == w.disk.notes.cancel
    && Only(b.disk, w.disk.game, Target(p))
    && (b.up ==> b.disk.marker.None? && b.disk.game == Target(p))
    && (b.disk.notes.launcher == w.disk.notes.launcher || (b.disk.marker.None? && b.disk.game == Target(p)))
  }

  lemma BundleDropKeeps(b: World, w: World, p: Pending)
    requires SwapDone(b, w, p)
    ensures SwapDone(RemoveBundle(b), w, p)
  {}

  lemma MergeFailedEnds(c: World, w: World, p: Pending, k: bool)
    requires Ready(w, p) && p.retries < RETRY_BUDGET && SwapDone(c, w, p)
    ensures Ended(Retry(c, p, "launcher_merge_failed"), w, p, k)
  {}

  lemma MergeDoneEnds(c: World, w: World, p: Pending, k: bool)
    requires Ready(w, p) && SwapDone(c, w, p)
    ensures Ended(Ending(DropCancel(DropPending(c)), Result(Applied, "applied", false)), w, p, k)
  {}

  lemma MergeEnds(a: World, w: World, p: Pending, k: bool)
    requires Ready(w, p) && p.retries < RETRY_BUDGET && Swapped(a, w, w.disk.game, Target(p)) && a.err == Ok
    ensures Ended(ApplyMerge(a, p), w, p, k)
  {
    MergeLauncherKeeps(a);
    var b := MergeLauncher(a);
    BundleDropKeeps(b, w, p);
    MergeFailedEnds(RemoveBundle(b), w, p, k);
    MergeDoneEnds(RemoveBundle(b), w, p, k);
  }

  lemma SwapEnds(w: World, p: Pending, k: bool)
    requires Ready(w, p) && p.retries < RETRY_BUDGET && w.disk.staged == Target(p)
    ensures Ended(ApplySwap(w, p), w, p, k)
  {
    SwapKeeps(w);
    if Swap(w).err != Ok { SwapFailedEnds(Swap(w), w, p, k); } else { MergeEnds(Swap(w), w, p, k); }
  }

  // ----- the pipeline, from its end to its start -----

  /** Endings carry over from a later world that differs only in staging. */
  lemma EndedEarlier(e: Ending, v: World, w: World, p: Pending, k: bool)
    requires StagingOnly(v, w) && Ended(e, v, p, k)
    ensures Ended(e, w, p, k)
  {}

  predicate MayCancel(a: Attempt) { a.cancelArrives || a.download.DownloadCancelled? }

  ghost predicate Attempting(w: World, p: Pending) {
    Ready(w, p) && p.retries < RETRY_BUDGET
  }

  lemma StagedEnds(w: World, a: Attempt, p: Pending)
    requires Attempting(w, p) && w.disk.staged == Target(p)
    ensures Ended(ApplyStaged(w, a, p), w, p, MayCancel(a))
  {
    var k := MayCancel(a);
    var d := Discard(w);
    DiscardKeeps(w);
    TerminalEnds(d, p, "data_touched", k);
    EndedEarlier(Terminal(d, "data_touched"), d, w, p, k);
    TerminalEnds(d, p, "config_merge_failed", k);
    EndedEarlier(Terminal(d, "config_merge_failed"), d, w, p, k);
    var b := if w.up && a.cancelArrives then w.(disk := Noting(w.disk, w.disk.notes.(cancel := true))) else w;
    var c := Discard(b);
    DiscardKeeps(b);
    if b.disk.notes.cancel {
      CancelEnds(c, p, k);
      EndedEarlier(HonourCancel(c), c, b, p, k);
    } else {
      SwapEnds(b, p, k);
    }
    EndedFlag(ApplyStaged(w, a, p), b, w, p, k);
  }

  /** The cancel flag plays no part in what an ending promises. */
  lemma EndedFlag(e: Ending, v: World, w: World, p: Pending, k: bool)
    requires Ended(e, v, p, k) || Ended(e, w, p, k)
    requires v == w || (k && v == w.(disk := Noting(w.disk, w.disk.notes.(cancel := true))))
    ensures Ended(e, w, p, k)
  {}

  lemma ExtractEnds(w: World, a: Attempt, p: Pending)
    requires Attempting(w, p)
    ensures Ended(ApplyExtract(w, a, p), w, p, MayCancel(a))
  {
    var k := MayCancel(a);
    var b := Unpack(w, p.target, a.files, a.accepted);
    UnpackKeeps(w, p, a);
    if b.err != Ok {
      var d := Discard(b);
      DiscardKeeps(b);
      TerminalEnds(d, p, "extract_failed", k);
      EndedEarlier(Terminal(d, "extract_failed"), d, b, p, k);
    } else {
      StagedEnds(b, a, p);
    }
    EndedEarlier(ApplyExtract(w, a, p), b, w, p, k);
  }

  lemma ArchiveEnds(w: World, a: Attempt, p: Pending)
    requires Attempting(w, p)
    ensures Ended(ApplyArchive(w, a, p), w, p, MayCancel(a))
  {
    var k := MayCancel(a);
    var b := ClearStaging(w);
    ClearedKeeps(w);
    if b.err != Ok { RetryEnds(b, p, "staging_unwritable", k); } else { ExtractEnds(b, a, p); }
    EndedEarlier(ApplyArchive(w, a, p), b, w, p, k);
  }

  lemma SpaceEnds(w: World, p: Pending, k: bool)
    requires Ready(w, p)
    ensures Ended(Ending(w, Result(Unapplied, "insufficient_space", true)), w, p, k)
  {}

  lemma ManifestEnds(w: World, a: Attempt, p: Pending, m: Manifest)
    requires Attempting(w, p)
    ensures Ended(ApplyManifest(w, a, p, m), w, p, MayCancel(a))
  {
    var k := MayCancel(a);
    DropEnds(w, p, Unapplied, "manifest_drift", k);
    DropEnds(w, p, Unapplied, "launcher_min", k);
    DropEnds(w, p, Unapplied, "no_archive_size", k);
    DropEnds(w, p, Unapplied, "no_archive_url", k);
    SpaceEnds(w, p, k);
    match a.download
    case DownloadCancelled => CancelEnds(w, p, k);
    case DownloadRefused(policy) => DropEnds(w, p, Unapplied, policy.Reason(), k);
    case DownloadFailed => RetryEnds(w, p, "download_failed", k);
    case Fetched =>
      TerminalEnds(w, p, "verify_failed", k);
      ArchiveEnds(w, a, p);
  }

  lemma PendingEnds(w: World, a: Attempt, p: Pending)
    requires Ready(w, p)
    ensures Ended(ApplyPending(w, a, p), w, p, MayCancel(a))
  {
    var k := MayCancel(a);
    DropEnds(w, p, Unapplied, "invalid_marker", k);
    DropEnds(w, p, Unapplied, "not_newer", k);
    DropEnds(w, p, Unapplied, "retries_exhausted", k);
    if ValidPending(p) && Forward(p) && InstalledRelease(w.disk) == p.target {
      DropEnds(w, p, AlreadyCurrent, "already_current", k);
    }
    if w.disk.notes.cancel { CancelEnds(w, p, k); }
    if p.retries < RETRY_BUDGET {
      RetryEnds(w, p, "manifest_unreachable", k);
      if a.manifest.Some? { ManifestEnds(w, a, p, a.manifest.value); }
    }
  }
}
