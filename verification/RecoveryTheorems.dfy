/** What recovery is for: any chain of crashes and restarts ends in a runnable folder. */
module RecoveryTheorems {
  import opened Basics
  import opened FolderModel
  import opened SwapSpec
  import opened SwapProofs

  /** A new process over the same disk. */
  function Reboot(w: World, script: nat -> Fate): World {
    w.(script := script, clock := 0, recovering := false, up := true, err := Ok)
  }

  // ----- an undisturbed recovery, from any disk whatsoever -----

  ghost predicate Undisturbed(w: World) {
    w.up && forall n :: w.script(n) == Done
  }

  lemma PromoteWorks(w: World, src: Dir)
    requires Undisturbed(w) && src != Game && w.disk.game.Absent? && At(w.disk, src).Present()
    ensures var v := Promote(w, src);
      && v.up && v.err == Ok && v.script == w.script && v.disk.copies == w.disk.copies
      && v.disk == Set(w.disk, src, Absent).(game := At(w.disk, src))
  {
    var a := RenameTree(w, src, Game);
    if a.err == CrossDevice {
      var c := FillCopy(MakeCopy(a), src);
      assert c.up && c.err == Ok && c.disk == a.disk.(copies := Copy(At(w.disk, src), a.disk.copies));
    }
  }

  lemma RollForwardWorks(w: World)
    requires Undisturbed(w) && w.disk.game.Present() && w.disk.staged.Present()
    ensures var r := RollForward(w);
      r.world.up && r.world.err == Ok
      && r.world.disk == w.disk.(game := w.disk.staged, backup := w.disk.game, staged := Absent, marker := None)
  {
    var b := RenameTree(RemoveTree(w, Backup), Game, Backup);
    PromoteWorks(b, Staged);
  }

  lemma RollBackWorks(w: World)
    requires Undisturbed(w) && w.disk.backup.Present()
    ensures var r := RollBack(w);
      r.world.up && r.world.err == Ok
      && r.world.disk == w.disk.(game := w.disk.backup, backup := Absent, marker := None)
  {
    PromoteWorks(RemoveTree(w, Game), Backup);
  }

  /** Recovery nobody disturbs installs exactly the chosen tree, whatever is on
      disk: so the folder is runnable afterwards if and only if that tree is whole. */
  lemma UndisturbedRecoverInstallsChosen(w: World)
    requires Undisturbed(w)
    ensures var v := Recover(w, true).world;
      && v.up && v.disk.game == Chosen(w.disk) && v.disk.copies.NoCopy? && v.disk.notes == w.disk.notes
      && (v.disk.game.Present() ==> v.err == Ok && v.disk.marker.None? && v.disk.staged.Absent?)
    ensures Recover(w, true).world.disk.game.Whole? <==> Chosen(w.disk).Whole?
  {
    var a := SweepCopies(w.(recovering := true));
    var d := a.disk;
    assert d == w.disk.(copies := NoCopy) && Undisturbed(a);
    if d.game.Absent? {
      if d.staged.Present() { PromoteWorks(a, Staged); }
      else if d.backup.Present() { PromoteWorks(a, Backup); }
    } else if d.backup.Present() && d.marker.Some? {
      if d.staged.Present() { RollForwardWorks(a); }
      else {
        match d.marker.value
        case Promoted =>
        case Begin => RollBackWorks(a);
      }
    }
  }

  /** After a recovery that finished, another one finds nothing to do. */
  lemma RecoverTwiceIsRecoverOnce(w: World, script: nat -> Fate)
    requires Settled(w.disk) && w.disk.staged.Absent?
    ensures var r := Recover(Reboot(w, script), true);
      && r.action == NoAction && r.world.disk == w.disk.(copies := r.world.disk.copies)
  {}

  // ----- any chain of interrupted recoveries -----

  function Recoveries(w: World, scripts: seq<nat -> Fate>): World {
    if |scripts| == 0 then w
    else Recover(Reboot(Recoveries(w, scripts[..|scripts| - 1]), scripts[|scripts| - 1]), true).world
  }

  lemma {:induction false} RecoveriesKeep(w: World, scripts: seq<nat -> Fate>, x: Tree, y: Tree)
    requires SafePromotion(w.machine) && Only(w.disk, x, y) && x.Whole? && y.Whole?
    ensures var v := Recoveries(w, scripts);
      && v.machine == w.machine && Only(v.disk, x, y) && v.disk.notes == w.disk.notes
      && (|scripts| > 0 && v.up && w.machine.calmRecovery ==>
            Settled(v.disk) && v.disk.staged.Absent? && (v.disk.game == x || v.disk.game == y))
  {
    if |scripts| > 0 {
      RecoveriesKeep(w, scripts[..|scripts| - 1], x, y);
      var u := Reboot(Recoveries(w, scripts[..|scripts| - 1]), scripts[|scripts| - 1]);
      RecoverKeeps(u);
    }
  }

  /** An update interrupted anywhere, followed by any number of starts interrupted
      anywhere: game/ can only become the installed or the staged release, and
      as soon as one recovery finishes it is one of them, whole, with no swap in
      flight. */
  lemma SwapThenAnyRecoveries(w: World, scripts: seq<nat -> Fate>)
    requires SafePromotion(w.machine) && Settled(w.disk) && w.disk.staged.Whole?
    ensures var v := Recoveries(Swap(w), scripts);
      && Only(v.disk, w.disk.game, w.disk.staged)
      && (|scripts| > 0 && v.up && w.machine.calmRecovery ==>
            Settled(v.disk) && v.disk.staged.Absent? && (v.disk.game == w.disk.game || v.disk.game == w.disk.staged))
  {
    SwapKeeps(w);
    RecoveriesKeep(Swap(w), scripts, w.disk.game, w.disk.staged);
  }

  // ----- the copy is never a source -----

  /** The same world but for the copies left beside game/. */
  ghost predicate Twins(v: World, w: World) {
    v == w.(disk := w.disk.(copies := v.disk.copies))
  }

  /** Twins whose newest copy is the same. */
  ghost predicate TopTwins(v: World, w: World) {
    Twins(v, w) && v.disk.copies.Copy? && w.disk.copies.Copy? && v.disk.copies.top == w.disk.copies.top
  }

  lemma TreeCallsTwin(v: World, w: World, src: Dir, dst: Dir)
    requires Twins(v, w)
    ensures Twins(RemoveTree(v, src), RemoveTree(w, src)) && Twins(RenameTree(v, src, dst), RenameTree(w, src, dst))
  {}

  lemma MarkerTwins(v: World, w: World)
    requires Twins(v, w)
    ensures Twins(DropMarker(v), DropMarker(w))
  {}

  lemma SweepTwins(v: World, w: World)
    requires Twins(v, w)
    ensures Twins(SweepCopies(v), SweepCopies(w)) && (SweepCopies(v).err == Ok ==> SweepCopies(v) == SweepCopies(w))
  {}

  lemma MakeTwins(v: World, w: World)
    requires Twins(v, w)
    ensures Twins(MakeCopy(v), MakeCopy(w)) && (MakeCopy(v).err == Ok ==> TopTwins(MakeCopy(v), MakeCopy(w)))
  {}

  lemma FillTwins(v: World, w: World, src: Dir)
    requires TopTwins(v, w)
    ensures TopTwins(FillCopy(v, src), FillCopy(w, src)) && Twins(DropCopy(v), DropCopy(w))
  {}

  lemma InstallTwins(v: World, w: World, src: Dir)
    requires TopTwins(v, w)
    ensures Twins(InstallCopy(v, src), InstallCopy(w, src))
  {
    hide RemoveTree;
    var a, b := PromoteCopy(v), PromoteCopy(w);
    assert Twins(a, b) && (a.err != Ok ==> TopTwins(a, b));
    if a.err != Ok { FillTwins(a, b, src); } else { TreeCallsTwin(a, b, src, src); }
  }

  lemma PromoteTwins(v: World, w: World, src: Dir)
    requires Twins(v, w)
    ensures Twins(Promote(v, src), Promote(w, src))
  {
    hide RenameTree, MakeCopy, FillCopy, InstallCopy, DropCopy;
    TreeCallsTwin(v, w, src, Game);
    var a, b := RenameTree(v, src, Game), RenameTree(w, src, Game);
    MakeTwins(a, b);
    if MakeCopy(a).err == Ok {
      FillTwins(MakeCopy(a), MakeCopy(b), src);
      FillTwins(FillCopy(MakeCopy(a), src), FillCopy(MakeCopy(b), src), src);
      InstallTwins(FillCopy(MakeCopy(a), src), FillCopy(MakeCopy(b), src), src);
    }
  }

  lemma CompleteTwins(v: World, w: World, src: Dir, action: Action)
    requires Twins(v, w)
    ensures TwinRecoveries(CompleteFrom(v, src, action), CompleteFrom(w, src, action))
  {
    hide Promote, DropMarker;
    PromoteTwins(v, w, src);
    MarkerTwins(Promote(v, src), Promote(w, src));
  }

  ghost predicate TwinRecoveries(r: Recovery, s: Recovery) { r.action == s.action && Twins(r.world, s.world) }

  lemma RollForwardTwins(v: World, w: World)
    requires Twins(v, w)
    ensures TwinRecoveries(RollForward(v), RollForward(w))
  {
    hide Promote, RenameTree, RemoveTree, DropMarker;
    var a, b := RemoveTree(v, Backup), RemoveTree(w, Backup);
    TreeCallsTwin(v, w, Backup, Backup);
    var c, d := RenameTree(a, Game, Backup), RenameTree(b, Game, Backup);
    TreeCallsTwin(a, b, Game, Backup);
    PromoteTwins(c, d, Staged);
    TreeCallsTwin(Promote(c, Staged), Promote(d, Staged), Backup, Game);
    MarkerTwins(Promote(c, Staged), Promote(d, Staged));
  }

  lemma RollBackTwins(v: World, w: World)
    requires Twins(v, w)
    ensures TwinRecoveries(RollBack(v), RollBack(w))
  {
    hide CompleteFrom, RemoveTree;
    TreeCallsTwin(v, w, Game, Game);
    CompleteTwins(RemoveTree(v, Game), RemoveTree(w, Game), Backup, RolledBack);
  }

  lemma CleanTwins(v: World, w: World, staged: bool)
    requires Twins(v, w)
    ensures TwinRecoveries(Clean(v, staged), Clean(w, staged))
  {
    hide RemoveTree, DropMarker;
    TreeCallsTwin(v, w, Staged, Staged);
    var a := if staged then RemoveTree(v, Staged) else v.(err := Ok);
    var b := if staged then RemoveTree(w, Staged) else w.(err := Ok);
    MarkerTwins(a, b);
  }

  lemma DecideTwins(v: World, w: World)
    requires Twins(v, w)
    ensures TwinRecoveries(Decide(v, true), Decide(w, true))
  {
    hide CompleteFrom, RollForward, RollBack, Clean, DropMarker;
    CompleteTwins(v, w, Staged, RolledForward);
    CompleteTwins(v, w, Backup, RolledBack);
    RollForwardTwins(v, w);
    RollBackTwins(v, w);
    MarkerTwins(v, w);
    CleanTwins(v, w, v.disk.staged.Present());
  }

  /** The copies left beside game/ play no part in what recovery does: whatever is
      refused or dies, two folders that differ in nothing else meet the same calls,
      report the same action and end the same but for the copies; and altogether
      the same where the sweep at the start succeeds. */
  lemma CopiesAreNeverRead(w: World, copies: Copies)
    ensures var r, s := Recover(w, true), Recover(w.(disk := w.disk.(copies := copies)), true);
      && TwinRecoveries(r, s)
      && (SweepCopies(w.(recovering := true)).err == Ok ==> r == s)
  {
    hide Decide, SweepCopies;
    var u := w.(recovering := true);
    var t := u.(disk := u.disk.(copies := copies));
    SweepTwins(u, t);
    DecideTwins(SweepCopies(u), SweepCopies(t));
  }
}
