/** Smaller promises of the update path: what the manifest is held to, which gates
    an installation has passed, and when the old game is retired. */
module UpdateDetails {
  import opened Basics
  import opened FolderModel
  import opened SwapSpec
  import opened RecoveryTheorems
  import opened UpdateProofs
  import opened UpdateSpec
  import N = Numerals
  import T = Text
  import Versions

  /** The fields a confirmed marker holds the manifest to. */
  predicate Agrees(p: Pending, m: Manifest) {
    && p.target == m.release
    && (p.archiveSize > 0 ==> m.archiveSize == p.archiveSize)
    && (p.archiveHash != "" ==> m.archiveHash == p.archiveHash)
  }

  /** Reconciliation accepts exactly the manifests that agree in release, size and
      hash. The comparison of archive addresses never refuses: both sides are the
      marker's own address resolved the same way. */
  lemma ReconcileHoldsToThreeFields(p: Pending, m: Manifest, resolve: (string, string) -> Option<string>)
    ensures Reconcile(p, m, resolve).None? <==> Agrees(p, m)
    ensures Reconcile(p, m, resolve) != Some("archive_url")
  {
    if p.archiveUrl != "" { SameAddress(p, m, resolve); }
  }

  lemma SameAddress(p: Pending, m: Manifest, resolve: (string, string) -> Option<string>)
    requires p.archiveUrl != ""
    ensures ResolveArchiveUrl(p, m, resolve)
         == match resolve(p.manifestUrl, p.archiveUrl) case Some(url) => url case None => p.archiveUrl
  {}

  /** So a manifest that names another archive for the same release is accepted. */
  lemma SwappedAddressIsAccepted(p: Pending, m: Manifest, url: string, resolve: (string, string) -> Option<string>)
    requires Agrees(p, m)
    ensures Reconcile(p, m.(archiveUrl := url), resolve).None?
  {
    ReconcileHoldsToThreeFields(p, m.(archiveUrl := url), resolve);
  }

  /** The counter is of the release that is installed. */
  predicate StartedBefore(d: Disk) {
    d.notes.started.Some? && d.notes.started.value.release == InstalledRelease(d) && d.notes.started.value.count > 0
  }

  /** Whatever is refused or interrupted, a start removes nothing of game.old/
      unless the same release has started before, and never touches game/. */
  lemma OnlySecondStartRetires(w: World)
    ensures var d := NoteSuccessfulStart(w).disk;
      && d.game == w.disk.game && d.notes.launcher == w.disk.notes.launcher && d.marker == w.disk.marker
      && (d.backup == w.disk.backup || (StartedBefore(w.disk) && HasRetainedBackup(w.disk)))
  {
    var release := InstalledRelease(w.disk);
    if release != "" && HasRetainedBackup(w.disk) {
      var count := if StartedBefore(w.disk) then w.disk.notes.started.value.count + 1 else 1;
      var a := PutStarted(w, Started(release, count));
      assert a.disk.backup == w.disk.backup && a.disk.game == w.disk.game;
    }
  }

  /** Undisturbed, the second start does retire it, and the counter with it; the
      first only counts. */
  lemma SecondStartRetires(w: World)
    requires Undisturbed(w) && InstalledRelease(w.disk) != "" && HasRetainedBackup(w.disk)
    ensures var d := NoteSuccessfulStart(w).disk;
      && (d.backup.Absent? <==> StartedBefore(w.disk))
      && d.notes.started == if StartedBefore(w.disk) then None else Some(Started(InstalledRelease(w.disk), 1))
  {
    var release := InstalledRelease(w.disk);
    var count := if StartedBefore(w.disk) then w.disk.notes.started.value.count + 1 else 1;
    var a := PutStarted(w, Started(release, count));
    assert a.up && a.err == Ok;
  }

  function NonNegative(n: int): int { if n < 0 then 0 else n }

  /** What an installation really needs at its peak. */
  function Peak(archiveSize: int, totalSize: int): int {
    var total := NonNegative(totalSize);
    NonNegative(archiveSize) + 2 * total + if total / 20 > 64 * 1024 * 1024 then total / 20 else 64 * 1024 * 1024
  }

  /** What Apply compares the free space with is the peak, cut off to 64 bits. */
  lemma RequiredIsPeak(archiveSize: int, totalSize: int)
    ensures RequiredBytes(archiveSize, totalSize) == N.Wrap(Peak(archiveSize, totalSize))
  {
    var total := NonNegative(totalSize);
    WrapOnce(NonNegative(archiveSize) + total + total, if total / 20 > HEADROOM then total / 20 else HEADROOM);
    hide N.Wrap;
  }

  lemma WrapOnce(x: int, y: int)
    ensures N.Wrap(N.Wrap(x) + y) == N.Wrap(x + y)
  {}

  predicate EnoughSpace(free: int, archiveSize: int, totalSize: int) { free >= RequiredBytes(archiveSize, totalSize) }

  /** The free-space gate keeps out every disk that is too small exactly when the
      need itself fits 64 bits: from a total_size of 2^62 on, the sum wraps and a
      full disk passes. */
  lemma SpaceGateHoldsExactlyWhen(archiveSize: int, totalSize: int)
    requires N.Fits(archiveSize) && N.Fits(totalSize)
    ensures (forall free | EnoughSpace(free, archiveSize, totalSize) :: free >= Peak(archiveSize, totalSize))
       <==> Peak(archiveSize, totalSize) < T.INT64_LIMIT
    ensures totalSize >= 0x4000_0000_0000_0000 ==> Peak(archiveSize, totalSize) >= T.INT64_LIMIT
  {
    var required := RequiredBytes(archiveSize, totalSize);
    RequiredIsPeak(archiveSize, totalSize);
    assert EnoughSpace(required, archiveSize, totalSize) && required < T.INT64_LIMIT;
  }

  /** A release of 2^62 bytes passes the gate on a disk with nothing free. */
  lemma FullDiskPasses()
    ensures RequiredBytes(1, 0x4000_0000_0000_0000) < 0
  {}

  /** Every gate between a marker and its installation. */
  predicate GatesPassed(d: Disk, a: Attempt, p: Pending, m: Manifest) {
    && a.dirReady && a.lock == LockFree && ValidPending(p) && Forward(p) && p.retries < RETRY_BUDGET
    && InstalledRelease(d) != p.target && Agrees(p, m) && Versions.FloorMet(m.launcherMin, a.launcherVersion)
    && (a.freeSpace.Some? ==> EnoughSpace(a.freeSpace.value, m.archiveSize, m.totalSize))
    && m.archiveSize > 0 && ResolveArchiveUrl(p, m, a.resolve) != ""
    && a.download.Fetched? && a.verified && a.accepted && !a.dataTouched && a.configValid
  }

  /** An Apply that installs anything, wholly or all but the launcher, has a marker
      and a manifest that passed every gate, and nobody had cancelled. */
  lemma NothingIsInstalledUnchecked(w: World, a: Attempt)
    ensures Installed(Apply(w, a).result) ==>
      && w.disk.notes.pending.Some? && a.manifest.Some? && !w.disk.notes.cancel
      && GatesPassed(w.disk, a, w.disk.notes.pending.value, a.manifest.value)
  {
    hide ApplyArchive;
    if w.disk.notes.pending.Some? && a.manifest.Some? {
      var p := w.disk.notes.pending.value;
      ReconcileHoldsToThreeFields(p, a.manifest.value, a.resolve);
      InstalledArchivePassed(w, a, p);
    }
  }

  lemma InstalledArchivePassed(w: World, a: Attempt, p: Pending)
    ensures Installed(ApplyArchive(w, a, p).result) ==> a.accepted && !a.dataTouched && a.configValid
  {
    hide ClearStaging, ApplySwap, Discard, Unpack;
    var b := ClearStaging(w);
    UnpackNeedsAcceptance(b, p.target, a.files, a.accepted);
  }

  lemma UnpackNeedsAcceptance(w: World, release: Release, files: seq<string>, accepted: bool)
    ensures Unpack(w, release, files, accepted).err == Ok ==> accepted
  {}
}
