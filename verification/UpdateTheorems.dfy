/** The promises of the update path, stated for a reader. */
module UpdateTheorems {
  import opened Basics
  import opened FolderModel
  import opened SwapSpec
  import opened SwapProofs
  import opened RecoveryTheorems
  import opened UpdateSpec
  import opened UpdateProofs
  import opened UpdateRuns
  import Versions

  /** An Apply that returns without having installed the target leaves game/ and
      launcher/ as it found them. The one exception is a swap whose restoring
      rename also failed: the installed tree is then in game.old/ and the marker
      stands, so recovery installs the old or the new release. */
  lemma UnappliedLeavesTheFolder(w: World, a: Attempt)
    requires Sound(w.machine) && Settled(w.disk) && w.disk.notes.pending.Some?
    ensures var v, r := Apply(w, a).world, Apply(w, a).result;
      v.up && !Installed(r) ==>
      && v.disk.notes.launcher == w.disk.notes.launcher
      && (v.disk.game == w.disk.game
          || (r.reason == "swap_failed" && v.disk.game.Absent? && v.disk.backup == w.disk.game
              && v.disk.marker == Some(Begin) && Chosen(v.disk).Whole?
              && Only(v.disk, w.disk.game, Target(w.disk.notes.pending.value))))
  {
    ApplyEnds(w, a);
  }

  /** The marker survives an attempted Apply exactly when the result says so. */
  lemma MarkerSurvivesIffRetryable(w: World, a: Attempt)
    requires Sound(w.machine) && Settled(w.disk)
    ensures var v, r := Apply(w, a).world, Apply(w, a).result;
      v.up && r.outcome != Skipped ==> (r.retryable <==> v.disk.notes.pending.Some?)
  {
    if w.disk.notes.pending.Some? { ApplyEnds(w, a); }
  }

  /** A cancelled Apply that nothing else disturbs leaves neither marker nor flag nor
      game.new/, and game/ and launcher/ as it found them. */
  lemma CancellationLeavesNothing(w: World, a: Attempt)
    requires Sound(w.machine) && Settled(w.disk) && Undisturbed(w) && w.disk.staged.Absent?
    requires Apply(w, a).result.outcome == Cancelled
    ensures var d := Apply(w, a).world.disk;
      d.notes.pending.None? && !d.notes.cancel && d.staged.Absent? && d.game == w.disk.game
        && d.notes.launcher == w.disk.notes.launcher
  {
    hide ApplyArchive, Reconcile, ResolveArchiveUrl, RequiredBytes, ValidPending, Forward;
    var p := w.disk.notes.pending.value;
    CancelledSaysSo(w, a, p);
    if a.manifest.Some? && a.download.Fetched? && !w.disk.notes.cancel { CancelledArchive(w, a, p); }
    ApplyEnds(w, a);
  }

  lemma CancelledSaysSo(w: World, a: Attempt, p: Pending)
    ensures var r := ApplyArchive(w, a, p).result; r.outcome == Cancelled ==> r.reason == "cancelled"
  {
    hide Swap, MergeLauncher, ClearStaging, Unpack, Discard, DropPending, PutPending, DropCancel, RemoveBundle;
  }

  lemma CancelledArchive(w: World, a: Attempt, p: Pending)
    requires Undisturbed(w) && w.machine.sureMarks && SafePromotion(w.machine) && Settled(w.disk)
      && w.disk.staged.Absent?
    ensures var e := ApplyArchive(w, a, p);
      e.result.outcome == Cancelled ==> e.world.up && e.world.disk.staged.Absent?
  {
    StagingCleared(w);
    CancelledExtract(ClearStaging(w), a, p);
  }

  lemma StagingCleared(w: World)
    requires Undisturbed(w) && w.disk.staged.Absent?
    ensures var c := ClearStaging(w);
      Undisturbed(c) && c.err == Ok && c.machine == w.machine && c.disk.game == w.disk.game
        && c.disk.marker == w.disk.marker
  {}

  lemma CancelledExtract(w: World, a: Attempt, p: Pending)
    requires Undisturbed(w) && w.machine.sureMarks && SafePromotion(w.machine) && Settled(w.disk)
    ensures var e := ApplyExtract(w, a, p);
      e.result.outcome == Cancelled ==> e.world.up && e.world.disk.staged.Absent?
  {
    var b := Unpack(w, p.target, a.files, a.accepted);
    assert Undisturbed(b) && Settled(b.disk);
    if a.accepted { CancelledStage(b, a, p); }
  }

  lemma CancelledStage(w: World, a: Attempt, p: Pending)
    requires Undisturbed(w) && w.machine.sureMarks && SafePromotion(w.machine) && Settled(w.disk)
      && w.disk.staged == Target(p)
    ensures var e := ApplyStaged(w, a, p);
      e.result.outcome == Cancelled ==> e.world.up && e.world.disk.staged.Absent?
  {}

  /** Apply on a recovered folder: what the short cut says is true, and what it
      leaves is runnable or one rename away from it. */
  lemma ApplyOnRecovered(v: World, a: Attempt)
    requires Sound(v.machine) && Safe(v) && v.up && Settled(v.disk) && v.disk.notes.pending.Some?
    ensures var e := Apply(v, a); var d := e.world.disk;
      && (e.world.up && e.result.outcome == AlreadyCurrent ==>
            d.game.Whole? && d.game.release == v.disk.notes.pending.value.target)
      && (e.world.up ==>
            Settled(d) || (e.result.reason == "swap_failed" && d.game.Absent? && d.backup.Whole? && Inv(d)))
  {
    ApplyEnds(v, a);
    if Apply(v, a).result.outcome != Skipped { EndedIsSafe(Apply(v, a), v, v.disk.notes.pending.value, MayCancel(a)); }
  }

  lemma StartOnRecovered(u: World, a: Attempt)
    requires Sound(u.machine) && Safe(u) && !u.recovering
    ensures var s := Startup(u, true, a); var d := s.world.disk;
      && (s.world.up && s.result.outcome == AlreadyCurrent ==>
            u.disk.notes.pending.Some? && d.game.Whole? && d.game.release == u.disk.notes.pending.value.target)
      && (s.world.up ==>
            Settled(d) || (s.result.reason == "swap_failed" && d.game.Absent? && d.backup.Whole? && Inv(d)))
  {
    var v := RecoveredWorld(u);
    RecoveredWorldKeeps(u);
    if v.disk.notes.pending.Some? {
      if v.up { ApplyOnRecovered(v, a); } else { DeadApply(v, a, v.disk.notes.pending.value); }
    }
  }

  /** The already_current short cut is taken only when game/ really is the target,
      after any run of crashes, starts and requests. */
  lemma ShortCutIsTrue(w: World, events: seq<Event>, script: nat -> Fate, a: Attempt)
    requires Sound(w.machine) && RunInv(w) && Legal(w.machine, events)
    ensures var s := Startup(Reboot(Run(w, events), script), true, a);
      var p := Run(w, events).disk.notes.pending;
      s.result.outcome == AlreadyCurrent && s.world.up ==>
        p.Some? && s.world.disk.game.Whole? && s.world.disk.game.release == p.value.target
  {
    EveryRunIsSafe(w, events);
    StartOnRecovered(Reboot(Run(w, events), script), a);
  }

  /** A start that returns leaves a whole game/ and no swap in flight, except
      after a swap whose restoring rename failed; then game.old/ is whole and
      the next recovery has a whole tree to install. */
  lemma SurvivedStartIsRunnable(w: World, events: seq<Event>, script: nat -> Fate, a: Attempt)
    requires Sound(w.machine) && RunInv(w) && Legal(w.machine, events)
    ensures var s := Startup(Reboot(Run(w, events), script), true, a); var d := s.world.disk;
      s.world.up ==> Settled(d) || (s.result.reason == "swap_failed" && d.game.Absent? && d.backup.Whole? && Inv(d))
  {
    EveryRunIsSafe(w, events);
    StartOnRecovered(Reboot(Run(w, events), script), a);
  }

  // ----- the retry budget -----

  function StartResultOf(w: World, ev: Event): StartResult
    requires ev.Start?
  {
    Startup(Reboot(w, ev.script), ev.sidecar, ev.attempt)
  }

  /** The retryable failures the starts of a run report. */
  function Failures(w: World, events: seq<Event>): nat
    decreases |events|
  {
    if |events| == 0 then 0
    else
      var before := Run(w, events[..|events| - 1]);
      var ev := events[|events| - 1];
      Failures(w, events[..|events| - 1]) +
      (if ev.Start? && StartResultOf(before, ev).world.up && Counted(StartResultOf(before, ev).result) then 1 else 0)
  }

  ghost predicate NoRequest(events: seq<Event>) {
    forall i | 0 <= i < |events| :: !events[i].Request?
  }

  /** How often a marker may still fail. */
  function Allowance(p: Option<Pending>): int {
    if p.Some? && p.value.retries < RETRY_BUDGET then RETRY_BUDGET - p.value.retries else 0
  }

  lemma ApplySpends(v: World, a: Attempt)
    requires Sound(v.machine) && v.up && Settled(v.disk) && v.disk.notes.pending.Some?
    ensures var e := Apply(v, a);
      Allowance(e.world.disk.notes.pending) + (if e.world.up && Counted(e.result) then 1 else 0)
      <= Allowance(v.disk.notes.pending)
  {
    ApplyEnds(v, a);
  }

  lemma StartSpends(w: World, ev: Event)
    requires Sound(w.machine) && Safe(w) && ev.Start? && ev.sidecar
    ensures var s := StartResultOf(w, ev);
      Allowance(s.world.disk.notes.pending) + (if s.world.up && Counted(s.result) then 1 else 0)
      <= Allowance(w.disk.notes.pending)
  {
    var u := Reboot(w, ev.script);
    var v := RecoveredWorld(u);
    RecoveredWorldKeeps(u);
    if v.disk.notes.pending.Some? {
      if v.up { ApplySpends(v, ev.attempt); } else { DeadApply(v, ev.attempt, v.disk.notes.pending.value); }
    }
  }

  lemma OthersSpendNothing(w: World, ev: Event)
    requires ev.Heartbeat? || ev.CancelRequest?
    ensures Allowance(Next(w, ev).disk.notes.pending) <= Allowance(w.disk.notes.pending)
  {
    var u := Reboot(w, ev.script);
    if ev.CancelRequest? {
      NoteCalls(u, Started("", 0));
      NoteCalls(DropPending(u), Started("", 0));
      NoteCalls(DropCancel(DropPending(u)), Started("", 0));
    }
  }

  /** One marker causes at most three retryable failures, over any run of starts,
      crashes, heartbeats and cancellations. */
  lemma {:induction false} RetryBudgetBounds(w: World, events: seq<Event>)
    requires Sound(w.machine) && RunInv(w) && Legal(w.machine, events) && NoRequest(events)
    ensures Failures(w, events) + Allowance(Run(w, events).disk.notes.pending) <= Allowance(w.disk.notes.pending)
    ensures w.disk.notes.pending.Some? && w.disk.notes.pending.value.retries >= 0
      ==> Failures(w, events) <= RETRY_BUDGET
    decreases |events|
  {
    if |events| > 0 {
      var init := events[..|events| - 1];
      RetryBudgetBounds(w, init);
      EveryRunIsSafe(w, init);
      var ev := events[|events| - 1];
      if ev.Start? { StartSpends(Run(w, init), ev); } else { OthersSpendNothing(Run(w, init), ev); }
    }
  }

  // ----- cancellation -----

  /** Recording a request leaves no older cancel flag behind. */
  lemma RecordedRequestIsFresh(w: World, p: Pending)
    requires w.machine.sureMarks && WritePending(w, p).up && WritePending(w, p).err == Ok
    ensures WritePending(w, p).disk.notes.pending == Some(p) && !WritePending(w, p).disk.notes.cancel
  {}

  /** Starts and heartbeats while nobody cancels. */
  ghost predicate NobodyCancels(events: seq<Event>) {
    forall i | 0 <= i < |events| ::
      events[i].Heartbeat? || (events[i].Start? && !MayCancel(events[i].attempt))
  }

  lemma StartKeepsUncancelled(w: World, ev: Event)
    requires Sound(w.machine) && Safe(w) && ev.Start? && ev.sidecar && !MayCancel(ev.attempt) && !w.disk.notes.cancel
    ensures !StartResultOf(w, ev).world.disk.notes.cancel && StartResultOf(w, ev).result.outcome != Cancelled
  {
    var u := Reboot(w, ev.script);
    var v := RecoveredWorld(u);
    RecoveredWorldKeeps(u);
    if v.disk.notes.pending.Some? {
      if v.up { ApplyEnds(v, ev.attempt); }
      else { DeadUncancelled(v, ev.attempt, v.disk.notes.pending.value); }
    }
  }

  lemma DeadUncancelled(w: World, a: Attempt, p: Pending)
    requires !w.up && !MayCancel(a) && !w.disk.notes.cancel
    ensures !ApplyPending(w, a, p).world.disk.notes.cancel && ApplyPending(w, a, p).result.outcome != Cancelled
  {
    DeadApply(w, a, p);
  }

  lemma StepKeepsUncancelled(w: World, ev: Event)
    requires Sound(w.machine) && Safe(w) && !w.disk.notes.cancel
    requires ev.Heartbeat? || (ev.Start? && ev.sidecar && !MayCancel(ev.attempt))
    ensures !Next(w, ev).disk.notes.cancel
    ensures ev.Start? ==> StartResultOf(w, ev).result.outcome != Cancelled
  {
    hide Startup, NoteSuccessfulStart, Sound, Safe;
    match ev
    case Start(_, _, _) => StartKeepsUncancelled(w, ev);
    case Heartbeat(script) => HeartbeatKeepsCancel(Reboot(w, script));
  }

  lemma HeartbeatKeepsCancel(w: World)
    ensures NoteSuccessfulStart(w).disk.notes.cancel == w.disk.notes.cancel
  {}

  /** A cancel flag older than a recorded request never cancels it: from a world
      without the flag, no start of any run reports a cancellation. */
  lemma {:induction false} OldCancelNeverCancels(w: World, events: seq<Event>)
    requires Sound(w.machine) && RunInv(w) && Legal(w.machine, events) && NobodyCancels(events)
    requires !w.disk.notes.cancel
    ensures !Run(w, events).disk.notes.cancel
    ensures |events| > 0 && events[|events| - 1].Start? ==>
      StartResultOf(Run(w, events[..|events| - 1]), events[|events| - 1]).result.outcome != Cancelled
    decreases |events|
  {
    if |events| > 0 {
      hide StartResultOf, Next, Safe;
      var init := events[..|events| - 1];
      OldCancelNeverCancels(w, init);
      EveryRunIsSafe(w, init);
      var ev := events[|events| - 1];
      StepKeepsUncancelled(Run(w, init), ev);
    }
  }
}
