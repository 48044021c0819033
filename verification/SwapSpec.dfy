/** The directory swap and its recovery, as functions from one world to the next.
    The world's `err` is the outcome of the operation. */
module SwapSpec {
  import opened Basics
  import opened FolderModel

  /** promoteDir(src, game/): one rename, or copy beside game/ and rename the copy. */
  function Promote(w: World, src: Dir): World {
    var a := RenameTree(w, src, Game);
    if a.err != CrossDevice then a else CopyAcross(a, src)
  }

  function CopyAcross(w: World, src: Dir): World {
    var a := MakeCopy(w);
    if a.err != Ok then a else
    var b := FillCopy(a, src);
    if b.err != Ok then DropCopy(b).(err := Io) else InstallCopy(b, src)
  }

  function InstallCopy(w: World, src: Dir): World {
    var a := PromoteCopy(w);
    if a.err != Ok then DropCopy(a).(err := Io) else RemoveTree(a, src).(err := Ok)
  }

  /** Swap(gameFolder, stagingRoot), one function for each durable point it passes. */
  function Swap(w: World): World {
    if !w.disk.staged.Present() || !w.disk.game.Present() then w.(err := Io) else
    var a := PutMarker(w, Begin);
    if a.err != Ok then a else SwapMarked(a)
  }

  function SwapMarked(w: World): World {
    var a := if w.disk.backup.Present() then RemoveTree(w, Backup) else w;
    if a.err != Ok then DropMarker(a).(err := Io) else SwapCleared(a)
  }

  function SwapCleared(w: World): World {
    var a := RenameTree(w, Game, Backup);
    if a.err != Ok then DropMarker(a).(err := Io) else SwapMoved(a)
  }

  function SwapMoved(w: World): World {
    var a := Promote(w, Staged);
    if a.err != Ok then SwapUndo(a) else DropMarker(PutMarker(a, Promoted)).(err := Ok)
  }

  function SwapUndo(w: World): World {
    var a := RenameTree(w, Backup, Game);
    (if a.err == Ok then DropMarker(a) else a).(err := Io)
  }

  datatype Action = NoAction | RolledForward | RolledBack | CleanedStray

  datatype Recovery = Recovery(world: World, action: Action)

  function Failed(w: World): Recovery { Recovery(w.(err := Io), NoAction) }

  function Finish(w: World, action: Action): Recovery {
    Recovery(DropMarker(w).(err := Ok), action)
  }

  /** Recover(gameFolder, stagingRoot). Without a sidecar game.new/ is not seen. */
  function Recover(w: World, sidecar: bool): Recovery {
    var r := Decide(SweepCopies(w.(recovering := true)), sidecar);
    r.(world := r.world.(recovering := false))
  }

  function Decide(w: World, sidecar: bool): Recovery {
    var d := w.disk;
    var game, backup, staged := d.game.Present(), d.backup.Present(), sidecar && d.staged.Present();
    if staged && !game then CompleteFrom(w, Staged, RolledForward)
    else if backup && !game then CompleteFrom(w, Backup, RolledBack)
    else if game && backup && d.marker.Some? then
      if staged then RollForward(w)
      else if d.marker == Some(Promoted) then Finish(w, RolledForward)
      else RollBack(w)
    else if d.marker.Some? && !game then Failed(w)
    else Clean(w, staged)
  }

  function CompleteFrom(w: World, src: Dir, action: Action): Recovery {
    var a := Promote(w, src);
    if a.err != Ok then Failed(a) else Finish(a, action)
  }

  function RollForward(w: World): Recovery {
    var a := RemoveTree(w, Backup);
    if a.err != Ok then Failed(a) else
    var b := RenameTree(a, Game, Backup);
    if b.err != Ok then Failed(b) else
    var c := Promote(b, Staged);
    if c.err != Ok then Failed(RenameTree(c, Backup, Game)) else Finish(c, RolledForward)
  }

  function RollBack(w: World): Recovery {
    var a := RemoveTree(w, Game);
    if a.err != Ok then Failed(a) else CompleteFrom(a, Backup, RolledBack)
  }

  /** The last two branches: game/ stands, drop a stray game.new/ and the marker. */
  function Clean(w: World, staged: bool): Recovery {
    var a := if staged then RemoveTree(w, Staged) else w.(err := Ok);
    if a.err != Ok then Failed(a) else
    var action := if staged then CleanedStray else NoAction;
    if a.disk.marker.Some? then Finish(a, action) else Recovery(a, action)
  }
}
