/** What Apply answers, and that an update nothing stands in the way of is
    installed. */
module UpdateAnswers {
  import opened Basics
  import opened FolderModel
  import opened SwapSpec
  import opened SwapProofs
  import opened RecoveryTheorems
  import opened UpdateSpec
  import opened UpdateProofs
  import opened UpdateDetails
  import N = Numerals
  import T = Text
  import Versions

  // ----- what may stop an update -----

  /** One reason not to install, and how Apply answers it. */
  datatype Check = Check(stops: bool, answer: Result)

  function Refusal(reason: string): Result { Result(Unapplied, reason, false) }

  /** Counted against the marker, and tried again as long as it has retries left. */
  function Failure(reason: string, p: Pending): Result { Result(Unapplied, reason, p.retries < 2) }

  const CANCELLATION := Result(Cancelled, "cancelled", false)

  /** What is looked at before the manifest is fetched, in the order of the steps. */
  function MarkerChecks(d: Disk, a: Attempt, p: Pending): seq<Check> {
    [Check(!ValidPending(p), Refusal("invalid_marker")),
     Check(p.from != "" && !Versions.ReleaseNewer(p.target, p.from), Refusal("not_newer")),
     Check(d.notes.cancel, CANCELLATION),
     Check(p.retries >= 3, Refusal("retries_exhausted")),
     Check(InstalledRelease(d) == p.target, Result(AlreadyCurrent, "already_current", false)),
     Check(a.manifest.None?, Failure("manifest_unreachable", p))]
  }

  /** What is looked at once it is. A full disk costs no retry. */
  ghost function ManifestChecks(a: Attempt, p: Pending, m: Manifest): seq<Check> {
    [Check(!Agrees(p, m), Refusal("manifest_drift")),
     Check(T.TrimSpace(m.launcherMin) != "" && !Versions.Reaches(a.launcherVersion, m.launcherMin),
           Refusal("launcher_min")),
     Check(a.freeSpace.Some? && a.freeSpace.value < N.Wrap(Peak(m.archiveSize, m.totalSize)),
           Result(Unapplied, "insufficient_space", true)),
     Check(m.archiveSize <= 0, Refusal("no_archive_size")),
     Check(ResolveArchiveUrl(p, m, a.resolve) == "", Refusal("no_archive_url")),
     Check(a.download.DownloadCancelled?, CANCELLATION),
     Check(a.download.DownloadRefused?, Refusal(PolicyReason(a.download))),
     Check(a.download.DownloadFailed?, Failure("download_failed", p)),
     Check(!a.verified, Refusal("verify_failed"))]
  }

  function PolicyReason(download: Download): string {
    if download.DownloadRefused? then download.policy.Reason() else ""
  }

  /** What is looked at while the update is staged, which needs the folder's calls
      to work. */
  function StagingChecks(a: Attempt): seq<Check> {
    [Check(!a.accepted, Refusal("extract_failed")),
     Check(a.dataTouched, Refusal("data_touched")),
     Check(!a.configValid, Refusal("config_merge_failed")),
     Check(a.cancelArrives, CANCELLATION)]
  }

  /** The first check that stops the update. */
  ghost predicate StoppedAt(checks: seq<Check>, i: nat) {
    i < |checks| && checks[i].stops && forall j | 0 <= j < i :: !checks[j].stops
  }

  ghost predicate NoneStops(checks: seq<Check>) { forall j | 0 <= j < |checks| :: !checks[j].stops }

  /** `r` is the answer of the first check that stops. */
  ghost predicate AnswersFirst(r: Result, checks: seq<Check>) {
    exists i: nat :: StoppedAt(checks, i) && r == checks[i].answer
  }

  /** Apply has the folder to itself and finds a marker. */
  predicate Reached(w: World, a: Attempt, p: Pending) {
    a.dirReady && a.lock.LockFree? && w.disk.notes.pending == Some(p)
  }

  /** Nothing but the request differs. */
  ghost predicate RequestOnly(v: World, w: World) {
    v.disk == Noting(w.disk, w.disk.notes.(pending := v.disk.notes.pending, cancel := v.disk.notes.cancel))
  }

  lemma EndingsTouchTheRequest(w: World, p: Pending, outcome: Outcome, reason: string)
    ensures RequestOnly(Drop(w, outcome, reason).world, w) && RequestOnly(Terminal(w, reason).world, w)
    ensures RequestOnly(Retry(w, p, reason).world, w) && RequestOnly(HonourCancel(w).world, w)
  {}

  lemma MarkerAnswers(w: World, a: Attempt, p: Pending, i: nat)
    requires Reached(w, a, p) && StoppedAt(MarkerChecks(w.disk, a, p), i)
    ensures Apply(w, a).result == MarkerChecks(w.disk, a, p)[i].answer && RequestOnly(Apply(w, a).world, w)
  {
    var r := MarkerChecks(w.disk, a, p)[i].answer;
    EndingsTouchTheRequest(w, p, r.outcome, r.reason);
    hide DropPending, DropCancel, PutPending, ApplyManifest, Reconcile, RequestOnly;
    TargetIsNamed(p);
    hide ValidPending;
    var checks := MarkerChecks(w.disk, a, p);
    assert forall j | 0 <= j < i :: !checks[j].stops;
    assert i > 0 ==> !checks[0].stops;
    assert i > 1 ==> !checks[1].stops;
    assert i > 2 ==> !checks[2].stops;
    assert i > 3 ==> !checks[3].stops;
    assert i > 4 ==> !checks[4].stops;
  }

  lemma TargetIsNamed(p: Pending)
    ensures ValidPending(p) ==> p.target != ""
  {
    if p.target == "" { T.SplitWhole("", '.'); }
  }

  lemma ManifestAnswers(w: World, a: Attempt, p: Pending, m: Manifest, i: nat)
    requires StoppedAt(ManifestChecks(a, p, m), i)
    ensures ApplyManifest(w, a, p, m).result == ManifestChecks(a, p, m)[i].answer
    ensures RequestOnly(ApplyManifest(w, a, p, m).world, w)
  {
    var r := ManifestChecks(a, p, m)[i].answer;
    EndingsTouchTheRequest(w, p, r.outcome, r.reason);
    ReconcileHoldsToThreeFields(p, m, a.resolve);
    Versions.FloorMetExactlyWhen(m.launcherMin, a.launcherVersion);
    RequiredIsPeak(m.archiveSize, m.totalSize);
    hide DropPending, DropCancel, PutPending, ApplyArchive, Reconcile, Agrees, Versions.FloorMet, Versions.Reaches;
    hide RequiredBytes, Peak, ResolveArchiveUrl, RequestOnly;
    var checks := ManifestChecks(a, p, m);
    assert i > 0 ==> !checks[0].stops;
    assert i > 1 ==> !checks[1].stops;
    assert i > 2 ==> !checks[2].stops;
    assert i > 3 ==> !checks[3].stops;
    assert i > 4 ==> !checks[4].stops;
    assert i > 5 ==> !checks[5].stops;
    assert i > 6 ==> !checks[6].stops;
    assert i > 7 ==> !checks[7].stops;
  }

  /** No check on the marker stops: what follows is up to the manifest. */
  lemma MarkerPasses(w: World, a: Attempt, p: Pending)
    requires Reached(w, a, p) && NoneStops(MarkerChecks(w.disk, a, p))
    ensures a.manifest.Some? && Apply(w, a) == ApplyManifest(w, a, p, a.manifest.value)
  {
    hide DropPending, DropCancel, PutPending, ApplyManifest, Reconcile, ValidPending;
    var checks := MarkerChecks(w.disk, a, p);
    assert !checks[0].stops && !checks[1].stops && !checks[2].stops;
    assert !checks[3].stops && !checks[4].stops && !checks[5].stops;
  }

  lemma ManifestPasses(w: World, a: Attempt, p: Pending, m: Manifest)
    requires NoneStops(ManifestChecks(a, p, m))
    ensures ApplyManifest(w, a, p, m) == ApplyArchive(w, a, p)
  {
    ReconcileHoldsToThreeFields(p, m, a.resolve);
    Versions.FloorMetExactlyWhen(m.launcherMin, a.launcherVersion);
    RequiredIsPeak(m.archiveSize, m.totalSize);
    hide DropPending, DropCancel, PutPending, ApplyArchive, Reconcile, Agrees, Versions.FloorMet, Versions.Reaches;
    hide RequiredBytes, Peak, ResolveArchiveUrl;
    var checks := ManifestChecks(a, p, m);
    assert !checks[0].stops && !checks[1].stops && !checks[2].stops && !checks[3].stops && !checks[4].stops;
    assert !checks[5].stops && !checks[6].stops && !checks[7].stops && !checks[8].stops;
  }

  // ----- staging and swapping, undisturbed -----

  /** Only the staging directories may differ. */
  ghost predicate Staged(v: World, w: World) {
    Undisturbed(v) && v.disk == w.disk.(staged := v.disk.staged, notes := w.disk.notes.(bundle := v.disk.notes.bundle))
  }

  lemma ClearingWorks(w: World)
    requires Undisturbed(w)
    ensures var v := ClearStaging(w);
      v.err == Ok && v.disk.staged.Absent? && v.disk.notes.bundle.NoBundle? && Staged(v, w)
  {}

  lemma UnpackingWorks(w: World, a: Attempt, p: Pending)
    requires Undisturbed(w)
    ensures var v := Unpack(w, p.target, a.files, a.accepted);
      && Staged(v, w) && (v.err == Ok <==> a.accepted)
      && (a.accepted ==> v.disk.staged == Target(p) && v.disk.notes.bundle == Bundle(a.files, p.target))
  {}

  /** Nothing is staged, nothing is asked for, and game/, what is kept beside it and
      launcher/ are as they were. */
  ghost predicate CalledOff(v: World, w: World) {
    v.up && v.disk == w.disk.(staged := Absent,
      notes := w.disk.notes.(bundle := NoBundle, pending := None, cancel := false))
  }

  lemma DiscardWorks(w: World)
    requires Undisturbed(w)
    ensures var v := Discard(w);
      Undisturbed(v) && v.disk == w.disk.(staged := Absent, notes := w.disk.notes.(bundle := NoBundle))
  {}

  lemma EndingsCallOff(w: World, reason: string)
    requires Undisturbed(w) && w.disk.staged.Absent? && w.disk.notes.bundle.NoBundle?
    ensures !w.disk.notes.cancel ==> CalledOff(Terminal(w, reason).world, w)
    ensures CalledOff(HonourCancel(w).world, w)
  {}

  lemma StagingAnswers(w: World, a: Attempt, p: Pending, i: nat)
    requires Undisturbed(w) && !w.disk.notes.cancel && StoppedAt(StagingChecks(a), i)
    ensures ApplyArchive(w, a, p).result == StagingChecks(a)[i].answer && CalledOff(ApplyArchive(w, a, p).world, w)
  {
    var b := ClearStaging(w);
    var c := Unpack(b, p.target, a.files, a.accepted);
    ClearingWorks(w);
    UnpackingWorks(b, a, p);
    var d := if a.cancelArrives then c.(disk := Noting(c.disk, c.disk.notes.(cancel := true))) else c;
    DiscardWorks(c);
    DiscardWorks(d);
    EndingsCallOff(Discard(c), StagingChecks(a)[i].answer.reason);
    EndingsCallOff(Discard(d), "cancelled");
    hide DropPending, DropCancel, PutPending, ClearStaging, Unpack, Discard, ApplySwap, Terminal, HonourCancel;
    var checks := StagingChecks(a);
    assert i > 0 ==> !checks[0].stops;
    assert i > 1 ==> !checks[1].stops;
    assert i > 2 ==> !checks[2].stops;
  }

  /** The folder with release `p.target` in it, what it replaces kept, and the request
      done with. */
  ghost function Updated(d: Disk, a: Attempt, p: Pending): Disk {
    Disk(Whole(p.target, false), d.game, Absent, d.copies, None,
         Notes(d.notes.launcher + (map f | f in a.files :: p.target), NoBundle, None, false, d.notes.started))
  }

  lemma SwapWorks(w: World)
    requires Undisturbed(w) && w.disk.game.Present() && w.disk.staged.Present()
    ensures var v := Swap(w);
      && Undisturbed(v) && v.err == Ok
      && v.disk == w.disk.(game := w.disk.staged, backup := w.disk.game, staged := Absent, marker := None)
  {
    var a := PutMarker(w, Begin);
    var b := if a.disk.backup.Present() then RemoveTree(a, Backup) else a;
    var c := RenameTree(b, Game, Backup);
    assert Undisturbed(c) && c.err == Ok;
    PromoteWorks(c, FolderModel.Staged);
  }

  /** Files `files` now come from `release`. */
  function Replaced(d: Disk, files: seq<string>, release: Release): Disk {
    Noting(d, d.notes.(launcher := d.notes.launcher + map f | f in files :: release))
  }

  lemma ReplacedOneByOne(d: Disk, files: seq<string>, release: Release)
    ensures |files| == 0 ==> Replaced(d, files, release) == d
    ensures |files| > 0 ==>
      Replaced(Noting(d, d.notes.(launcher := d.notes.launcher[files[0] := release])), files[1..], release)
        == Replaced(d, files, release)
  {
    var live := d.notes.launcher;
    if |files| == 0 {
      assert live + (map f | f in files :: release) == live;
    } else {
      assert files == [files[0]] + files[1..];
      assert live[files[0] := release] + (map f | f in files[1..] :: release) == live + map f | f in files :: release;
    }
  }

  lemma ReplacingOneWorks(w: World, name: string, release: Release)
    requires Undisturbed(w)
    ensures var v := ReplaceFile(w, name, release);
      && Undisturbed(v) && v.err == Ok
      && v.disk == Noting(w.disk, w.disk.notes.(launcher := w.disk.notes.launcher[name := release]))
  {}

  lemma {:induction false} ReplacingWorks(w: World, files: seq<string>, release: Release)
    requires Undisturbed(w)
    ensures var v := ReplaceFiles(w, files, release);
      Undisturbed(v) && v.err == Ok && v.disk == Replaced(w.disk, files, release)
    decreases |files|
  {
    hide ReplaceFile, Replaced;
    ReplacedOneByOne(w.disk, files, release);
    if |files| > 0 {
      ReplacingOneWorks(w, files[0], release);
      ReplacingWorks(ReplaceFile(w, files[0], release), files[1..], release);
    }
  }

  lemma SwappingInstalls(w: World, a: Attempt, p: Pending)
    requires Undisturbed(w) && w.disk.game.Present() && w.disk.staged == Target(p)
    requires w.disk.notes.bundle == Bundle(a.files, p.target)
    ensures var e := ApplySwap(w, p);
      e.world.up && e.world.disk == Updated(w.disk, a, p) && e.result == Result(Applied, "applied", false)
  {
    SwapWorks(w);
    var v := Swap(w);
    hide Swap;
    ReplacingWorks(PrepareLauncher(v), a.files, p.target);
  }

  lemma ArchiveInstalls(w: World, a: Attempt, p: Pending)
    requires Undisturbed(w) && !w.disk.notes.cancel && w.disk.game.Present() && NoneStops(StagingChecks(a))
    ensures var e := ApplyArchive(w, a, p);
      e.world.up && e.world.disk == Updated(w.disk, a, p) && e.result == Result(Applied, "applied", false)
  {
    ClearingWorks(w);
    UnpackingWorks(ClearStaging(w), a, p);
    var checks := StagingChecks(a);
    assert !checks[0].stops && !checks[1].stops && !checks[2].stops && !checks[3].stops;
    SwappingInstalls(Unpack(ClearStaging(w), p.target, a.files, a.accepted), a, p);
    hide ClearStaging, Unpack, Discard, ApplySwap;
  }

  // ----- the answers -----

  /** What may stop an update before anything is written, and after. */
  ghost function Refusals(d: Disk, a: Attempt, p: Pending): seq<Check> {
    MarkerChecks(d, a, p) + if a.manifest.Some? then ManifestChecks(a, p, a.manifest.value) else []
  }

  lemma {:induction false} FirstStop(checks: seq<Check>) returns (i: nat)
    ensures StoppedAt(checks, i) || NoneStops(checks)
    decreases |checks|
  {
    i := 0;
    if |checks| > 0 && !checks[0].stops {
      var j := FirstStop(checks[1..]);
      i := j + 1;
      assert forall k | 0 < k < |checks| :: checks[k] == checks[1..][k - 1];
    }
  }

  lemma StopsInOne(x: seq<Check>, y: seq<Check>, i: nat)
    requires StoppedAt(x + y, i)
    ensures if i < |x| then StoppedAt(x, i) && (x + y)[i] == x[i]
            else NoneStops(x) && StoppedAt(y, i - |x|) && (x + y)[i] == y[i - |x|]
  {
    assert forall j | 0 <= j < |x| :: (x + y)[j] == x[j];
    assert forall j | 0 <= j < |y| :: (x + y)[|x| + j] == y[j];
  }

  /** Whatever else is wrong, and whatever the folder's calls meet, the first thing
      that is wrong with the marker or the manifest is the answer, and nothing but the
      request is touched. */
  lemma FirstRefusalAnswers(w: World, a: Attempt, p: Pending, i: nat)
    requires Reached(w, a, p) && StoppedAt(Refusals(w.disk, a, p), i)
    ensures Apply(w, a).result == Refusals(w.disk, a, p)[i].answer && RequestOnly(Apply(w, a).world, w)
  {
    hide RequestOnly;
    hide Apply, ApplyManifest, MarkerChecks, ManifestChecks;
    var marker := MarkerChecks(w.disk, a, p);
    if a.manifest.Some? {
      StopsInOne(marker, ManifestChecks(a, p, a.manifest.value), i);
      if i >= |marker| {
        MarkerPasses(w, a, p);
        ManifestAnswers(w, a, p, a.manifest.value, i - |marker|);
      }
    } else {
      assert marker + [] == marker;
    }
    if i < |marker| { MarkerAnswers(w, a, p, i); }
  }

  /** A launcher older than the floor, or either of them unreadable: the request is
      refused for that. */
  lemma OldLauncherIsRefused(w: World, a: Attempt, p: Pending, m: Manifest)
    requires Reached(w, a, p) && NoneStops(MarkerChecks(w.disk, a, p)) && a.manifest == Some(m) && Agrees(p, m)
    requires T.TrimSpace(m.launcherMin) != "" && !Versions.Reaches(a.launcherVersion, m.launcherMin)
    ensures Apply(w, a).result == Refusal("launcher_min") && RequestOnly(Apply(w, a).world, w)
  {
    hide Apply, MarkerChecks, RequestOnly, Versions.Reaches, Agrees;
    var marker, manifest := MarkerChecks(w.disk, a, p), ManifestChecks(a, p, m);
    assert StoppedAt(manifest, 1);
    forall j | 0 <= j < |marker| ensures !(marker + manifest)[j].stops { assert (marker + manifest)[j] == marker[j]; }
    assert (marker + manifest)[|marker|] == manifest[0] && (marker + manifest)[|marker| + 1] == manifest[1];
    assert StoppedAt(marker + manifest, |marker| + 1);
    FirstRefusalAnswers(w, a, p, |marker| + 1);
  }

  /** Without the folder to itself, or without a marker, Apply does nothing and says
      which. */
  lemma NothingToApply(w: World, a: Attempt)
    ensures var e, free := Apply(w, a), a.dirReady && a.lock.LockFree?;
      && (e.result.outcome == Skipped <==> !free)
      && (e.result.outcome == NoPending <==> free && w.disk.notes.pending.None?)
      && (e.result.outcome in {Skipped, NoPending} ==> e.world == w && !e.result.retryable)
  {
    hide ApplyPending;
    if a.dirReady && a.lock.LockFree? && w.disk.notes.pending.Some? {
      var p := w.disk.notes.pending.value;
      OutcomesOfApplying(w, a, p);
    }
  }

  lemma OutcomesOfApplying(w: World, a: Attempt, p: Pending)
    ensures ApplyPending(w, a, p).result.outcome !in {Skipped, NoPending}
  {
    hide DropPending, DropCancel, PutPending, Reconcile, Versions.FloorMet, RequiredBytes, ResolveArchiveUrl,
      ValidPending, Forward, InstalledRelease, ApplyArchive;
    ArchiveOutcomes(w, a, p);
  }

  lemma ArchiveOutcomes(w: World, a: Attempt, p: Pending)
    ensures ApplyArchive(w, a, p).result.outcome in {Unapplied, Cancelled, Applied}
  {
    hide DropPending, DropCancel, PutPending, ClearStaging, Unpack, Discard, Swap, MergeLauncher, RemoveBundle;
  }

  lemma RefusalsPass(w: World, a: Attempt, p: Pending)
    requires Reached(w, a, p) && NoneStops(Refusals(w.disk, a, p))
    ensures a.manifest.Some? && !w.disk.notes.cancel && Apply(w, a) == ApplyArchive(w, a, p)
  {
    var marker := MarkerChecks(w.disk, a, p);
    assert marker[2].stops == w.disk.notes.cancel;
    hide Apply, ApplyManifest, MarkerChecks, ManifestChecks;
    NoneInEither(marker, if a.manifest.Some? then ManifestChecks(a, p, a.manifest.value) else []);
    MarkerPasses(w, a, p);
    ManifestPasses(w, a, p, a.manifest.value);
  }

  lemma NoneInEither(x: seq<Check>, y: seq<Check>)
    requires NoneStops(x + y)
    ensures NoneStops(x) && NoneStops(y)
  {
    forall j | 0 <= j < |x| ensures !x[j].stops { assert x[j] == (x + y)[j]; }
    forall j | 0 <= j < |y| ensures !y[j].stops { assert y[j] == (x + y)[|x| + j]; }
  }

  /** The answers that depend on what the calls of the later steps meet. */
  const LATER := {"staging_unwritable", "extract_failed", "data_touched", "config_merge_failed", "cancelled",
                  "swap_failed", "launcher_merge_failed", "applied"}

  lemma ArchiveAnswers(w: World, a: Attempt, p: Pending)
    ensures ApplyArchive(w, a, p).result.reason in LATER
  {
    hide DropPending, DropCancel, PutPending, ClearStaging, Unpack, Discard, Swap, MergeLauncher, RemoveBundle;
  }

  /** Whatever the calls meet, every answer has its cause: the first thing wrong with
      marker and manifest, or, only if nothing is wrong with them, a later step. */
  lemma EveryAnswerHasItsCause(w: World, a: Attempt, p: Pending)
    requires Reached(w, a, p)
    ensures var r, refusals := Apply(w, a).result, Refusals(w.disk, a, p);
      || AnswersFirst(r, refusals)
      || (NoneStops(refusals) && r.reason in LATER)
  {
    hide Apply, ApplyArchive, Refusals;
    var i := FirstStop(Refusals(w.disk, a, p));
    if StoppedAt(Refusals(w.disk, a, p), i) {
      FirstRefusalAnswers(w, a, p, i);
    } else {
      RefusalsPass(w, a, p);
      ArchiveAnswers(w, a, p);
    }
  }

  /** Undisturbed over a folder with a game/, an update is installed exactly when
      nothing stands in its way, and otherwise the first thing that does is the
      answer. What is installed is the target, with what it replaces kept beside it,
      all its files in launcher/, and nothing left of the request. */
  lemma InstalledExactlyWhenNothingStops(w: World, a: Attempt, p: Pending)
    requires Undisturbed(w) && Reached(w, a, p) && w.disk.game.Present()
    ensures var e, refusals, staging := Apply(w, a), Refusals(w.disk, a, p), StagingChecks(a);
      && (e.result.outcome == Applied <==> NoneStops(refusals) && NoneStops(staging))
      && (e.result.outcome == Applied ==>
            e.result == Result(Applied, "applied", false) && e.world.up && e.world.disk == Updated(w.disk, a, p))
      && (NoneStops(refusals) ==>
            e.result.outcome == Applied || (AnswersFirst(e.result, staging) && CalledOff(e.world, w)))
  {
    hide Apply, ApplyArchive, MarkerChecks, ManifestChecks;
    var refusals, staging := Refusals(w.disk, a, p), StagingChecks(a);
    var i := FirstStop(refusals);
    if StoppedAt(refusals, i) {
      FirstRefusalAnswers(w, a, p, i);
      RefusalsInstallNothing(w.disk, a, p);
    } else {
      RefusalsPass(w, a, p);
      var j := FirstStop(staging);
      if StoppedAt(staging, j) { StagingAnswers(w, a, p, j); } else { ArchiveInstalls(w, a, p); }
    }
  }

  lemma RefusalsInstallNothing(d: Disk, a: Attempt, p: Pending)
    ensures forall i | 0 <= i < |Refusals(d, a, p)| :: Refusals(d, a, p)[i].answer.outcome != Applied
  {
    hide Agrees, Versions.Reaches, Peak, ResolveArchiveUrl, ValidPending;
  }
}
