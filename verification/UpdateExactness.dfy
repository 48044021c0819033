/** The assumptions are exact: drop any one of them and some run breaks. */
module UpdateExactness {
  import opened Basics
  import opened FolderModel
  import opened SwapSpec
  import opened SwapProofs
  import opened RecoveryTheorems
  import opened UpdateSpec
  import opened UpdateProofs
  import opened UpdateRuns
  import Versions
  import Text

  /** Every run from every settled, honest folder stays safe. */
  ghost predicate AlwaysSafe(m: Machine) {
    forall w: World, events: seq<Event> ::
      w.machine == m && Settled(w.disk) && Honest(w.disk) && !w.up && Legal(m, events) ==> Safe(Run(w, events))
  }

  /** Two releases an update can go between. */
  ghost predicate Ordered(o: Release, n: Release) {
    Versions.ValidRelease(n) && Versions.ReleaseNewer(n, o) && o != "" && o != n
  }

  lemma ReleaseParts(year: string, month: string, count: string)
    requires |year| == 4 && |month| == 2 && count != ""
    requires Text.AllDigits(year) && Text.AllDigits(month) && Text.AllDigits(count)
    ensures Versions.ValidRelease(year + "." + (month + "." + count))
  {
    Text.SplitFirst(year, month + "." + count, '.');
    Text.SplitFirst(month, count, '.');
    Text.SplitWhole(count, '.');
  }

  lemma ReleasesExist()
    ensures Ordered("seed", "2026.01.1")
  {
    ReleaseParts("2026", "01", "1");
    assert "2026.01.1" == "2026" + "." + ("01" + "." + "1");
    Text.SplitWhole("seed", '.');
    assert !Versions.ValidRelease("seed");
  }

  function PendingFor(o: Release, n: Release): Pending {
    Pending(PENDING_SCHEMA, o, n, "manifest", "", 0, "", 0)
  }

  function ManifestFor(n: Release): Manifest { Manifest(n, 1, "", "archive", 0, "") }

  /** An attempt in which everything outside the folder goes well. */
  function Installs(n: Release, files: seq<string>): Attempt {
    Attempt(true, LockFree, Some(ManifestFor(n)), (base: string, name: string) => None, "", None, Fetched,
            true, true, files, false, true, false)
  }

  /** Release `o` is installed and `n` is requested. */
  function Folder(o: Release, n: Release, backup: Tree): Disk {
    Disk(Whole(o, false), backup, Absent, NoCopy, None,
         Notes(map[CONFIG := o], NoBundle, Some(PendingFor(o, n)), false, None))
  }

  function Off(m: Machine, d: Disk): World { World(m, d, n => Done, 0, false, false, Ok) }

  /** The world in which the first start calls Swap. */
  function Staging(m: Machine, o: Release, n: Release, backup: Tree, script: nat -> Fate): World {
    StagingOf(m, o, n, backup, [CONFIG], script)
  }

  function StagingOf(m: Machine, o: Release, n: Release, backup: Tree, files: seq<string>, script: nat -> Fate): World {
    var d := Folder(o, n, backup);
    World(m, d.(staged := Whole(n, false), notes := d.notes.(bundle := Bundle(files, n))), script, 2, false, true, Ok)
  }

  lemma RecoverIdles(w: World)
    requires w.up && w.err == Ok && !w.recovering && w.script(w.clock) == Done
    requires w.disk.copies.NoCopy? && Settled(w.disk) && w.disk.staged.Absent?
    ensures Recover(w, true) == Recovery(w.(clock := w.clock + 1), NoAction)
  {}

  lemma ApplyReachesArchive(w: World, o: Release, n: Release, files: seq<string>)
    requires Ordered(o, n) && w.up && InstalledRelease(w.disk) != n && !w.disk.notes.cancel
    requires w.disk.notes.pending == Some(PendingFor(o, n))
    ensures Apply(w, Installs(n, files)) == ApplyArchive(w, Installs(n, files), PendingFor(o, n))
  {
    var p := PendingFor(o, n);
    assert ValidPending(p) && Forward(p);
    ManifestPasses(w, o, n, files);
  }

  lemma ManifestPasses(w: World, o: Release, n: Release, files: seq<string>)
    ensures ApplyManifest(w, Installs(n, files), PendingFor(o, n), ManifestFor(n))
         == ApplyArchive(w, Installs(n, files), PendingFor(o, n))
  {
    assert Text.TrimSpace("") == "";
  }

  lemma StartReachesSwap(m: Machine, o: Release, n: Release, backup: Tree, files: seq<string>, script: nat -> Fate)
    requires Ordered(o, n) && script(0) == Done && script(1) == Done
    ensures Startup(Reboot(Off(m, Folder(o, n, backup)), script), true, Installs(n, files)).world
         == ApplySwap(StagingOf(m, o, n, backup, files, script), PendingFor(o, n)).world
  {
    var u := Reboot(Off(m, Folder(o, n, backup)), script);
    var v := u.(clock := 1);
    RecoverIdles(u);
    assert InstalledRelease(v.disk) == o;
    ApplyReachesArchive(v, o, n, files);
    assert Unpack(v, n, files, true) == StagingOf(m, o, n, backup, files, script);
  }

  lemma DeadSwapEnds(w: World, p: Pending)
    requires !Swap(w).up
    ensures ApplySwap(w, p).world.disk == Swap(w).disk && !ApplySwap(w, p).world.up
  {
    var a := Swap(w);
    MergeLauncherKeeps(a);
    DeadEndings(a, p, Unapplied, "swap_failed");
    DeadEndings(RemoveBundle(MergeLauncher(a)), p, Unapplied, "launcher_merge_failed");
  }

  // ----- a torn removal of game.new/ after a copied promotion -----

  function DieAt(call: nat): nat -> Fate { n => if n == call then CrashTorn else Done }

  lemma CopiedPromotionTears(c: World)
    requires c.up && c.machine.split && !c.machine.wholeDrop && c.clock == 4 && c.script == DieAt(8)
    requires c.disk.game.Absent? && c.disk.staged.Present()
    ensures var d := Promote(c, Staged);
      !d.up && d.err == Ok && d.disk.staged.Torn? && d.disk.game == c.disk.staged && d.disk.backup == c.disk.backup
        && d.disk.marker == c.disk.marker
  {
    var a := RenameTree(c, Staged, Game);
    assert a == c.(clock := 5, err := CrossDevice);
    var b := FillCopy(MakeCopy(a), Staged);
    assert b.up && b.clock == 7 && b.err == Ok && b.disk.copies.Copy? && b.disk.copies.top == c.disk.staged;
    var d := PromoteCopy(b);
    assert d.up && d.clock == 8 && d.err == Ok;
  }

  lemma SwapTearsStaging(m: Machine, o: Release, n: Release)
    requires m.split && !m.wholeDrop
    ensures var v := Swap(Staging(m, o, n, Absent, DieAt(8)));
      !v.up && v.disk.staged.Torn? && v.disk.game.Present() && v.disk.backup.Present() && v.disk.marker.Some?
  {
    var s := Staging(m, o, n, Absent, DieAt(8));
    var a := PutMarker(s, Begin);
    assert a == s.(disk := s.disk.(marker := Some(Begin)), clock := 3);
    var c := RenameTree(a, Game, Backup);
    assert c.up && c.err == Ok && c.clock == 4;
    CopiedPromotionTears(c);
  }

  /** Copy-then-rename with a removal that can stop half way: the next recovery
      takes the torn game.new/ for the release to install. */
  lemma TornStagingBreaks(m: Machine, o: Release, n: Release)
    requires m.split && !m.wholeDrop && Ordered(o, n)
    ensures !AlwaysSafe(m)
  {
    var w := Off(m, Folder(o, n, Absent));
    var events := [Start(DieAt(8), true, Installs(n, [CONFIG]))];
    StartReachesSwap(m, o, n, Absent, [CONFIG], DieAt(8));
    SwapTearsStaging(m, o, n);
    DeadSwapEnds(Staging(m, o, n, Absent, DieAt(8)), PendingFor(o, n));
    BreaksAfter(w, events);
  }

  lemma BreaksAfter(w: World, events: seq<Event>)
    requires Settled(w.disk) && Honest(w.disk) && !w.up && Legal(w.machine, events) && |events| == 1
    requires !Safe(Next(w, events[0]))
    ensures !AlwaysSafe(w.machine)
  {
    assert events[..0] == [];
    assert Run(w, events[..0]) == w;
    assert !Safe(Run(w, events));
  }

  lemma BreaksAfterTwo(w: World, events: seq<Event>)
    requires Settled(w.disk) && Honest(w.disk) && !w.up && Legal(w.machine, events) && |events| == 2
    requires !Safe(Next(Next(w, events[0]), events[1]))
    ensures !AlwaysSafe(w.machine)
  {
    var first := events[..1];
    assert first[..0] == [] && Run(w, first[..0]) == w && first[0] == events[0];
    assert Run(w, first) == Next(w, events[0]);
    assert !Safe(Run(w, events));
  }

  // ----- both marker writes at the end of the swap refused -----

  /** The two calls from `call` on are refused; the process dies three calls later. */
  function LoseMarks(call: nat): nat -> Fate {
    n => if n == call || n == call + 1 then Fail else if n == call + 5 then Crash else Done
  }

  function PromotedAt(m: Machine): nat { if m.split then 9 else 5 }

  lemma PromotionSucceeds(c: World)
    requires c.up && c.clock == 4 && c.script == LoseMarks(PromotedAt(c.machine))
    requires c.disk.game.Absent? && c.disk.staged.Present() && c.disk.copies.NoCopy?
    ensures Promote(c, Staged) == c.(disk := c.disk.(game := c.disk.staged, staged := Absent),
      clock := PromotedAt(c.machine), err := Ok)
  {
    var a := RenameTree(c, Staged, Game);
    if c.machine.split {
      assert a == c.(clock := 5, err := CrossDevice);
      var b := FillCopy(MakeCopy(a), Staged);
      assert b == a.(disk := a.disk.(copies := Copy(c.disk.staged, NoCopy)), clock := 7, err := Ok);
    }
  }

  lemma MergeAfterLostMarks(a: World, n: Release, p: Pending)
    requires !a.machine.sureMarks && a.up && !a.recovering
    requires a.script == LoseMarks(PromotedAt(a.machine)) && a.clock == PromotedAt(a.machine) + 2
    requires a.disk.notes.bundle == Bundle([CONFIG], n)
    ensures var v := ApplyMerge(a, p).world;
      !v.up && v.disk == Noting(a.disk, a.disk.notes.(launcher := a.disk.notes.launcher[CONFIG := n]))
  {
    var b := CopyTemp(PrepareLauncher(a));
    var c := PutFile(b, CONFIG, n);
    assert c.up && c.err == Ok && c.clock == a.clock + 3;
    assert [CONFIG][1..] == [];
    assert ReplaceFiles(PrepareLauncher(a), [CONFIG], n) == c.(err := Ok);
  }

  lemma SwapLosesMarks(m: Machine, o: Release, n: Release)
    requires !m.sureMarks
    ensures var s := Staging(m, o, n, Absent, LoseMarks(PromotedAt(m)));
      Swap(s) == s.(disk := s.disk.(game := Whole(n, false), backup := Whole(o, false),
                                    staged := Absent, marker := Some(Begin)),
                    clock := PromotedAt(m) + 2)
  {
    var s := Staging(m, o, n, Absent, LoseMarks(PromotedAt(m)));
    var c := RenameTree(PutMarker(s, Begin), Game, Backup);
    assert c.up && c.err == Ok && c.clock == 4;
    PromotionSucceeds(c);
  }

  /** update.state still says "begin" after a completed update: the next recovery
      undoes it while launcher/ already reports it, and the request is dropped. */
  lemma LostMarkersBreak(m: Machine, o: Release, n: Release)
    requires !m.sureMarks && Ordered(o, n)
    ensures !AlwaysSafe(m)
  {
    hide Swap, MergeLauncher, Unpack, RemoveBundle;
    var script := LoseMarks(PromotedAt(m));
    var w := Off(m, Folder(o, n, Absent));
    StartReachesSwap(m, o, n, Absent, [CONFIG], script);
    SwapLosesMarks(m, o, n);
    var a := Swap(Staging(m, o, n, Absent, script));
    MergeAfterLostMarks(a, n, PendingFor(o, n));
    var d := Next(w, Start(script, true, Installs(n, [CONFIG]))).disk;
    assert Chosen(d) == Whole(o, false) && ReportedFor(Chosen(d), d) == n;
    assert ValidPending(PendingFor(o, n)) && Forward(PendingFor(o, n));
    assert !Honest(d);
    BreaksAfter(w, [Start(script, true, Installs(n, [CONFIG]))]);
  }

  // ----- a start cut short while it drops the previous backup -----

  function StopAt(call: nat, fate: Fate): nat -> Fate { n => if n == call then fate else Done }

  lemma SwapStopsAtBackup(m: Machine, o: Release, n: Release, backup: Tree, fate: Fate)
    requires Ordered(o, n) && backup.Present() && (fate == Crash || fate == CrashTorn)
    ensures var v := Next(Off(m, Folder(o, n, backup)), Start(StopAt(3, fate), true, Installs(n, [CONFIG])));
      var d := Staging(m, o, n, backup, StopAt(3, fate)).disk;
      && v.machine == m && !v.up
      && v.disk == d.(marker := Some(Begin), backup := if fate == Crash then backup else Torn)
  {
    var s := Staging(m, o, n, backup, StopAt(3, fate));
    StartReachesSwap(m, o, n, backup, [CONFIG], StopAt(3, fate));
    var a := PutMarker(s, Begin);
    assert a.up && a.clock == 3;
    var b := RemoveTree(a, Backup);
    assert !b.up && b.err == Io;
    DeadSwapEnds(s, PendingFor(o, n));
  }

  /** The folder restarted where its update directory is not: recovery cannot see
      game.new/ and puts the torn backup in place of a good game/. */
  lemma LostSidecarBreaks(m: Machine, o: Release, n: Release)
    requires !m.keepsSidecar && Ordered(o, n)
    ensures !AlwaysSafe(m)
  {
    var w := Off(m, Folder(o, n, Whole(o, false)));
    var events := [Start(StopAt(3, CrashTorn), true, Installs(n, [CONFIG])),
      Start(k => Done, false, Installs(n, [CONFIG]))];
    SwapStopsAtBackup(m, o, n, Whole(o, false), CrashTorn);
    var u := Reboot(Next(w, events[0]), k => Done);
    var a := SweepCopies(u.(recovering := true));
    assert a.up && a.disk.backup.Torn? && a.disk.game.Present() && a.disk.marker == Some(Begin);
    var b := RemoveTree(a, Game);
    var c := Promote(b, Backup);
    assert c.up && c.err == Ok && c.disk.game.Torn?;
    assert Next(Next(w, events[0]), events[1]).disk.game.Torn?;
    assert Next(Next(w, events[0]), events[1]).disk.marker.None?;
    BreaksAfterTwo(w, events);
  }

  lemma FolderIsHonest(o: Release, n: Release)
    requires o != n && o != ""
    ensures Settled(Folder(o, n, Whole(o, false))) && Honest(Folder(o, n, Whole(o, false)))
  {}

  /** A recovery that reports an I/O error and lets Apply run: the extraction
      tears game.new/ under a standing marker. */
  lemma RefusedRecoveryBreaks(m: Machine, o: Release, n: Release)
    requires !m.calmRecovery && Ordered(o, n)
    ensures !AlwaysSafe(m)
  {
    hide Startup, Chosen, Spare, Honest;
    var w := Off(m, Folder(o, n, Whole(o, false)));
    assert Honest(w.disk) by { FolderIsHonest(o, n); }
    var script: nat -> Fate := k => if k == 1 then Fail else if k == 4 then CrashTorn else Done;
    var events := [Start(StopAt(3, Crash), true, Installs(n, [CONFIG])), Start(script, true, Installs(n, [CONFIG]))];
    SwapStopsAtBackup(m, o, n, Whole(o, false), Crash);
    RefusedStartTears(Next(w, events[0]), o, n, script);
    BreaksAfterTwo(w, events);
  }

  /** The second start of that run. */
  lemma RefusedStartTears(w: World, o: Release, n: Release, script: nat -> Fate)
    requires !w.machine.calmRecovery && Ordered(o, n)
    requires script(0) == Done && script(1) == Fail && script(2) == Done && script(3) == Done && script(4) == CrashTorn
    requires w.disk.game == Whole(o, false) && w.disk.backup.Whole? && w.disk.staged.Whole?
      && w.disk.marker == Some(Begin)
    requires w.disk.notes.launcher == map[CONFIG := o] && w.disk.notes.bundle.Bundle?
    requires w.disk.notes.pending == Some(PendingFor(o, n)) && !w.disk.notes.cancel
    ensures !Inv(Startup(Reboot(w, script), true, Installs(n, [CONFIG])).world.disk)
  {
    var u := Reboot(w, script);
    var a := SweepCopies(u.(recovering := true));
    assert a.up && a.disk == w.disk.(copies := NoCopy) && a.clock == 1;
    var v := u.(disk := a.disk, clock := 2, err := Io);
    assert Recover(u, true) == Recovery(v, NoAction);
    assert InstalledRelease(v.disk) == o;
    ApplyReachesArchive(v, o, n, [CONFIG]);
    TornExtraction(v, n, PendingFor(o, n));
  }

  lemma TornExtraction(v: World, n: Release, p: Pending)
    requires v.up && v.clock == 2 && !v.recovering && p.target == n
    requires v.script(2) == Done && v.script(3) == Done && v.script(4) == CrashTorn
    requires v.disk.staged.Present() && v.disk.notes.bundle.Bundle?
    ensures var e := ApplyArchive(v, Installs(n, [CONFIG]), p).world;
      e.disk.staged.Torn? && e.disk.game == v.disk.game && e.disk.backup == v.disk.backup
        && e.disk.marker == v.disk.marker
  {
    var c := RemoveBundle(RemoveTree(v, Staged));
    assert c.up && c.clock == 4 && c.err == Ok && c.disk.game == v.disk.game && c.disk.backup == v.disk.backup
        && c.disk.marker == v.disk.marker;
  }

  // ----- the exact machines -----

  /** Every run is safe on exactly the machines on which marker files can be
      removed, recovery is not refused a call, every start finds the update
      directory, and either the volumes are not split or the removal of
      game.new/ is all or nothing. */
  lemma SafeMachinesAreExact(m: Machine)
    ensures AlwaysSafe(m) <==> Sound(m)
  {
    ReleasesExist();
    var o, n := "seed", "2026.01.1";
    if Sound(m) {
      forall w: World, events: seq<Event> |
        w.machine == m && Settled(w.disk) && Honest(w.disk) && !w.up && Legal(m, events)
        ensures Safe(Run(w, events))
      {
        EveryRunIsSafe(w, events);
      }
    } else {
      if !m.sureMarks { LostMarkersBreak(m, o, n); }
      else if !m.calmRecovery { RefusedRecoveryBreaks(m, o, n); }
      else if !m.keepsSidecar { LostSidecarBreaks(m, o, n); }
      else { TornStagingBreaks(m, o, n); }
    }
  }
}
