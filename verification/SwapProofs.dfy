/** The invariant that every step of a swap and of a recovery keeps. */
module SwapProofs {
  import opened Basics
  import opened FolderModel
  import opened SwapSpec

  /** The tree an undisturbed recovery leaves as game/. */
  ghost function Chosen(d: Disk): Tree {
    if d.game.Absent? then (if d.staged.Present() then d.staged else d.backup)
    else if d.marker.None? || d.backup.Absent? then d.game
    else if d.staged.Present() then d.staged
    else if d.marker == Some(Promoted) then d.game
    else d.backup
  }

  /** The only other tree a recovery that is interrupted and restarted can leave. */
  ghost function Spare(d: Disk): Tree {
    if d.marker.None? || d.staged.Absent? then Chosen(d)
    else if d.game.Absent? then d.backup
    else d.game
  }

  ghost predicate Inv(d: Disk) {
    Chosen(d).Whole? && Spare(d).Whole?
  }

  ghost predicate Settled(d: Disk) {
    d.marker.None? && d.game.Whole?
  }

  /** Whatever crashes follow, game/ can only become `x` or `y`. */
  ghost predicate Only(d: Disk, x: Tree, y: Tree) {
    (Chosen(d) == x || Chosen(d) == y) && (Spare(d) == x || Spare(d) == y)
  }

  /** What the tree operations keep of the world around the trees. */
  ghost predicate Frame(v: World, w: World) {
    && v.machine == w.machine && v.recovering == w.recovering && v.disk.notes == w.disk.notes
    && (v.up ==> w.up) && (!w.up ==> v.disk == w.disk)
  }

  ghost predicate SafePromotion(m: Machine) { m.split ==> m.wholeDrop }

  // ----- promotion: one rename or a copy, the same outcome -----

  ghost predicate Placed(v: World, w: World, src: Dir) {
    && Frame(v, w) && v.disk.marker == w.disk.marker
    && (src == Staged ==> v.disk.backup == w.disk.backup)
    && (src == Backup ==> v.disk.staged == w.disk.staged)
    && (v.disk.game.Absent? || v.disk.game == At(w.disk, src))
    && (At(v.disk, src) == At(w.disk, src) || (At(v.disk, src).Absent? && v.disk.game.Present()))
    && (At(v.disk, src) == At(w.disk, src) && v.disk.game.Present() ==> w.machine.split && src == Staged)
    && (v.up && v.err == Ok ==> v.disk.game.Present())
    && (v.up && v.err != Ok ==> v.disk.game.Absent?)
    && (v.up && NeverRefused(w) ==> v.err == Ok && At(v.disk, src).Absent?)
  }

  lemma InstallCopyPlaces(w: World)
    requires SafePromotion(w.machine) && w.machine.split
    requires w.disk.game.Absent? && w.disk.copies.Copy? && w.disk.copies.top == w.disk.staged && w.disk.staged.Present()
    ensures Placed(InstallCopy(w, Staged), w, Staged)
  {}

  lemma CopyAcrossPlaces(w: World)
    requires SafePromotion(w.machine) && w.machine.split
    requires w.disk.game.Absent? && w.disk.staged.Present()
    ensures Placed(CopyAcross(w, Staged), w, Staged)
  {
    var a := MakeCopy(w);
    if a.err == Ok {
      var b := FillCopy(a, Staged);
      if b.err == Ok { InstallCopyPlaces(b); }
    }
  }

  lemma PromotePlaces(w: World, src: Dir)
    requires SafePromotion(w.machine) && src != Game
    requires w.disk.game.Absent? && At(w.disk, src).Present()
    ensures Placed(Promote(w, src), w, src)
  {
    var a := RenameTree(w, src, Game);
    if a.err == CrossDevice { CopyAcrossPlaces(a); }
  }

  // ----- Swap -----

  /** What any run of Swap from a settled folder may leave, `g` being the
      installed tree and `s` the staged one. */
  ghost predicate Swapped(v: World, w: World, g: Tree, s: Tree) {
    && Frame(v, w)
    && Only(v.disk, g, s)
    && (v.up && v.err == Ok ==> v.disk.game == s && v.disk.backup == g)
    && (v.up && v.err != Ok ==>
          || v.disk.game == g
          || (v.disk.game.Absent? && v.disk.backup == g && v.disk.marker == Some(Begin)))
    && (v.up && w.machine.sureMarks ==> v.disk.marker.None? || v.disk.game.Absent?)
  }

  lemma SwapUndoKeeps(w: World, s: Tree)
    requires w.disk.marker == Some(Begin) && w.disk.game.Absent? && w.disk.backup.Whole? && w.disk.staged == s
      && s.Whole?
    ensures Swapped(SwapUndo(w), w, w.disk.backup, s) && SwapUndo(w).err != Ok
  {}

  lemma SwapPromotedKeeps(a: World, w: World)
    requires w.disk.marker == Some(Begin) && w.disk.game.Absent? && w.disk.backup.Whole? && w.disk.staged.Whole?
    requires Placed(a, w, Staged)
    ensures Swapped(if a.err != Ok then SwapUndo(a) else DropMarker(PutMarker(a, Promoted)).(err := Ok),
                    w, w.disk.backup, w.disk.staged)
  {
    if a.err != Ok && a.up { SwapUndoKeeps(a, w.disk.staged); }
  }

  lemma SwapMovedKeeps(w: World)
    requires SafePromotion(w.machine)
    requires w.disk.marker == Some(Begin) && w.disk.game.Absent? && w.disk.backup.Whole? && w.disk.staged.Whole?
    ensures Swapped(SwapMoved(w), w, w.disk.backup, w.disk.staged)
  {
    PromotePlaces(w, Staged);
    SwapPromotedKeeps(Promote(w, Staged), w);
  }

  lemma SwapClearedKeeps(w: World)
    requires SafePromotion(w.machine)
    requires w.disk.marker == Some(Begin) && w.disk.game.Whole? && w.disk.backup.Absent? && w.disk.staged.Whole?
    ensures Swapped(SwapCleared(w), w, w.disk.game, w.disk.staged)
  {
    var a := RenameTree(w, Game, Backup);
    if a.err == Ok { SwapMovedKeeps(a); }
  }

  lemma SwapMarkedKeeps(w: World)
    requires SafePromotion(w.machine)
    requires w.disk.marker == Some(Begin) && w.disk.game.Whole? && w.disk.staged.Whole? && w.err == Ok
    ensures Swapped(SwapMarked(w), w, w.disk.game, w.disk.staged)
  {
    var a := if w.disk.backup.Present() then RemoveTree(w, Backup) else w;
    if a.err == Ok { SwapClearedKeeps(a); }
  }

  lemma SwapKeeps(w: World)
    requires SafePromotion(w.machine)
    requires Settled(w.disk) && w.disk.staged.Whole?
    ensures Swapped(Swap(w), w, w.disk.game, w.disk.staged)
  {
    var a := PutMarker(w, Begin);
    if a.err == Ok { SwapMarkedKeeps(a); }
  }

  // ----- Recover -----

  /** What any run of Recover may leave when the folder could still become `x`
      or `y`, and undisturbed would have become `x`. */
  ghost predicate Recovered(r: Recovery, w: World, x: Tree, y: Tree) {
    var v := r.world;
    && Frame(v, w)
    && Only(v.disk, x, y)
    && (v.up && v.err == Ok ==> v.disk.game == x && (w.machine.sureMarks || NeverRefused(w) ==> v.disk.marker.None?))
    && (v.up && NeverRefused(w) ==> v.err == Ok && v.disk.staged.Absent?)
  }

  ghost predicate Recoverable(w: World) {
    SafePromotion(w.machine) && Inv(w.disk)
  }

  lemma CompletePlacedKeeps(a: World, w: World)
    requires Recoverable(w) && w.disk.game.Absent? && w.disk.staged.Whole?
    requires Placed(a, w, Staged)
    ensures Recovered(if a.err != Ok then Failed(a) else Finish(a, RolledForward), w, w.disk.staged, Spare(w.disk))
  {}

  lemma CompleteStagedKeeps(w: World)
    requires Recoverable(w) && w.disk.game.Absent? && w.disk.staged.Whole?
    ensures Recovered(CompleteFrom(w, Staged, RolledForward), w, w.disk.staged, Spare(w.disk))
  {
    PromotePlaces(w, Staged);
    CompletePlacedKeeps(Promote(w, Staged), w);
  }

  lemma CompleteBackupKeeps(w: World)
    requires Recoverable(w) && w.disk.game.Absent? && w.disk.backup.Whole? && w.disk.staged.Absent?
    ensures Recovered(CompleteFrom(w, Backup, RolledBack), w, w.disk.backup, w.disk.backup)
  {
    PromotePlaces(w, Backup);
  }

  lemma RollBackKeeps(w: World)
    requires Recoverable(w) && w.disk.marker == Some(Begin)
    requires w.disk.game.Present() && w.disk.backup.Present() && w.disk.staged.Absent?
    ensures Recovered(RollBack(w), w, w.disk.backup, w.disk.backup)
  {
    var a := RemoveTree(w, Game);
    if a.err == Ok { CompleteBackupKeeps(a); }
  }

  lemma RollForwardPlacedKeeps(c: World, w: World)
    requires Recoverable(w) && w.disk.marker.Some?
    requires w.disk.game.Absent? && w.disk.backup.Whole? && w.disk.staged.Whole?
    requires Placed(c, w, Staged)
    ensures Recovered(if c.err != Ok then Failed(RenameTree(c, Backup, Game)) else Finish(c, RolledForward),
                      w, w.disk.staged, w.disk.backup)
  {}

  lemma RollForwardMovedKeeps(w: World)
    requires Recoverable(w) && w.disk.marker.Some?
    requires w.disk.game.Absent? && w.disk.backup.Whole? && w.disk.staged.Whole?
    ensures var c := Promote(w, Staged);
      Recovered(if c.err != Ok then Failed(RenameTree(c, Backup, Game)) else Finish(c, RolledForward),
                w, w.disk.staged, w.disk.backup)
  {
    PromotePlaces(w, Staged);
    RollForwardPlacedKeeps(Promote(w, Staged), w);
  }

  lemma RollForwardKeeps(w: World)
    requires Recoverable(w) && w.disk.marker.Some?
    requires w.disk.game.Present() && w.disk.backup.Present() && w.disk.staged.Present()
    ensures Recovered(RollForward(w), w, w.disk.staged, w.disk.game)
  {
    var a := RemoveTree(w, Backup);
    if a.err == Ok {
      var b := RenameTree(a, Game, Backup);
      if b.err == Ok { RollForwardMovedKeeps(b); }
    }
  }

  lemma CleanKeeps(w: World, staged: bool)
    requires Recoverable(w) && w.disk.game.Whole? && (w.disk.marker.None? || w.disk.backup.Absent?)
    requires staged == w.disk.staged.Present()
    ensures Recovered(Clean(w, staged), w, w.disk.game, w.disk.game)
  {}

  lemma PromotedKeeps(w: World)
    requires Recoverable(w) && w.disk.marker == Some(Promoted)
    requires w.disk.game.Whole? && w.disk.backup.Present() && w.disk.staged.Absent?
    ensures Recovered(Finish(w, RolledForward), w, w.disk.game, w.disk.game)
  {}

  lemma DecideWithoutGame(w: World)
    requires Recoverable(w) && w.disk.game.Absent?
    ensures Recovered(Decide(w, true), w, Chosen(w.disk), Spare(w.disk))
  {
    if w.disk.staged.Present() { CompleteStagedKeeps(w); } else { CompleteBackupKeeps(w); }
  }

  lemma DecideWithGame(w: World)
    requires Recoverable(w) && w.disk.game.Present()
    ensures Recovered(Decide(w, true), w, Chosen(w.disk), Spare(w.disk))
  {
    var d := w.disk;
    if d.backup.Absent? || d.marker.None? { CleanKeeps(w, d.staged.Present()); }
    else if d.staged.Present() { RollForwardKeeps(w); }
    else {
      match d.marker.value
      case Promoted => PromotedKeeps(w);
      case Begin => RollBackKeeps(w);
    }
  }

  lemma RecoverKeeps(w: World)
    requires Recoverable(w)
    ensures var r := Recover(w, true);
      Recovered(r.(world := r.world.(recovering := true)), w.(recovering := true), Chosen(w.disk), Spare(w.disk))
  {
    var a := SweepCopies(w.(recovering := true));
    if a.disk.game.Absent? { DecideWithoutGame(a); } else { DecideWithGame(a); }
  }
}
