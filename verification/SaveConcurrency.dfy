/** Saves and deletions from any number of threads of one process, interleaved
    between any two reads or writes of the revision store. */
module SaveConcurrency {
  import opened Basics

  datatype Op = Save(slot: string, ifRevision: Option<int>) | Delete(slot: string)

  /** How far a thread is: `Checked` has passed checkRevision, `Numbered` has read
      the counter again and is writing the file. */
  datatype Phase = Idle | Waiting(op: Op) | Holding(op: Op) | Checked(op: Op) | Numbered(op: Op, rev: int)

  datatype Entry = Saved(slot: string, ifRevision: Option<int>, rev: int) | Deleted(slot: string)

  /** `locked`: the write lock is taken. `log` is what was answered, in order. */
  datatype State = State(locked: bool, holder: Option<nat>, phases: map<nat, Phase>, revisions: map<string, int>,
                         log: seq<Entry>)

  datatype Act = Call(thread: nat, op: Op) | Acquire(thread: nat) | Check(thread: nat) | Number(thread: nat)
               | Finish(thread: nat, ok: bool)

  function PhaseOf(s: State, t: nat): Phase { if t in s.phases then s.phases[t] else Idle }

  function RevisionOf(s: State, slot: string): int { if slot in s.revisions then s.revisions[slot] else 0 }

  function Enter(s: State, t: nat, p: Phase): State { s.(phases := s.phases[t := p]) }

  function Leave(s: State, t: nat): State { Enter(s, t, Idle).(holder := None) }

  /** One step of one thread; a step that is not due does nothing. */
  function Step(s: State, a: Act): State {
    var t, p := a.thread, PhaseOf(s, a.thread);
    match a
    case Call(_, op) => if p.Idle? then Enter(s, t, Waiting(op)) else s
    case Acquire(_) =>
      if p.Waiting? && (s.locked ==> s.holder.None?) then Enter(s, t, Holding(p.op)).(holder := Some(t)) else s
    case Check(_) =>
      if !p.Holding? then s
      else if p.op.Save? && p.op.ifRevision.Some? && p.op.ifRevision.value != RevisionOf(s, p.op.slot) then Leave(s, t)
      else Enter(s, t, Checked(p.op))
    case Number(_) =>
      if p.Checked? && p.op.Save? then Enter(s, t, Numbered(p.op, RevisionOf(s, p.op.slot) + 1)) else s
    case Finish(_, ok) =>
      if p.Numbered? then if ok then Record(Leave(s, t), Saved(p.op.slot, IfRevision(p.op), p.rev)) else Leave(s, t)
      else if p.Checked? && p.op.Delete? then if ok then Record(Leave(s, t), Deleted(p.op.slot)) else Leave(s, t)
      else s
  }

  function IfRevision(op: Op): Option<int> { if op.Save? then op.ifRevision else None }

  function Record(s: State, e: Entry): State {
    s.(revisions := s.revisions[e.slot := if e.Saved? then e.rev else 0], log := s.log + [e])
  }

  function Run(s: State, acts: seq<Act>): State
    decreases |acts|
  {
    if |acts| == 0 then s else Run(Step(s, acts[0]), acts[1..])
  }

  // ----- what the answers must look like -----

  /** The revision the log leaves a slot at, counting from `start`. */
  function Replay(log: seq<Entry>, slot: string, start: int): int {
    if |log| == 0 then start
    else
      var e := log[|log| - 1];
      if e.slot != slot then Replay(log[..|log| - 1], slot, start)
      else if e.Saved? then Replay(log[..|log| - 1], slot, start) + 1
      else 0
  }

  /** Every answer is the next revision after those before it, and a conditional
      save was answered only while its condition held. */
  ghost predicate NoLostUpdates(log: seq<Entry>, start: map<string, int>) {
    forall i | 0 <= i < |log| && log[i].Saved? ::
      var before := Replay(log[..i], log[i].slot, Start(start, log[i].slot));
      log[i].rev == before + 1 && (log[i].ifRevision.Some? ==> log[i].ifRevision.value == before)
  }

  function Start(start: map<string, int>, slot: string): int { if slot in start then start[slot] else 0 }

  predicate InSection(p: Phase) { p.Holding? || p.Checked? || p.Numbered? }

  ghost predicate Inv(s: State, start: map<string, int>) {
    && s.locked
    && (forall t: nat :: InSection(PhaseOf(s, t)) ==> s.holder == Some(t))
    && (forall t: nat :: Promised(s, PhaseOf(s, t)))
    && (forall slot :: RevisionOf(s, slot) == Replay(s.log, slot, Start(start, slot)))
    && NoLostUpdates(s.log, start)
  }

  /** What a thread inside the section has read still holds. */
  predicate Promised(s: State, p: Phase) {
    && ((p.Checked? || p.Numbered?) && IfRevision(p.op).Some? ==> p.op.ifRevision.value == RevisionOf(s, p.op.slot))
    && (p.Numbered? ==> p.op.Save? && p.rev == RevisionOf(s, p.op.slot) + 1)
  }

  /** `op` has been answered and thread `t` is out of the section. */
  predicate Answered(g: State, s: State, t: nat, op: Op, ok: bool) {
    var current := RevisionOf(s, op.slot);
    var stale := op.Save? && op.ifRevision.Some? && op.ifRevision.value != current;
    && g.holder.None? && PhaseOf(g, t).Idle?
    && (stale || !ok ==> g.log == s.log && g.revisions == s.revisions)
    && (!stale && ok && op.Save? ==>
          && g.log == s.log + [Saved(op.slot, op.ifRevision, current + 1)]
          && RevisionOf(g, op.slot) == current + 1)
    && (!stale && ok && op.Delete? ==> g.log == s.log + [Deleted(op.slot)] && RevisionOf(g, op.slot) == 0)
  }

  /** A thread that meets no other gets through: its save is answered with the next
      revision, if its condition holds, and its deletion resets the counter; a stale
      condition and a failed write change nothing. In each case the lock is free again. */
  lemma LoneOperationIsAnswered(s: State, t: nat, op: Op, ok: bool)
    requires s.holder.None? && PhaseOf(s, t).Idle?
    ensures Answered(Run(s, [Call(t, op), Acquire(t), Check(t), Number(t), Finish(t, ok)]), s, t, op, ok)
  {
    FiveSteps(s, Call(t, op), Acquire(t), Check(t), Number(t), Finish(t, ok));
    var b := Step(Step(s, Call(t, op)), Acquire(t));
    assert b == Enter(s, t, Holding(op)).(holder := Some(t)) by {
      assert Enter(Enter(s, t, Waiting(op)), t, Holding(op)).phases == Enter(s, t, Holding(op)).phases;
    }
    hide Run;
    HoldingFinishes(b, t, op, ok);
  }

  lemma HoldingFinishes(s: State, t: nat, op: Op, ok: bool)
    requires PhaseOf(s, t) == Holding(op)
    ensures Answered(Step(Step(Step(s, Check(t)), Number(t)), Finish(t, ok)), s, t, op, ok)
  {}

  lemma FiveSteps(s: State, a: Act, b: Act, c: Act, d: Act, e: Act)
    ensures Run(s, [a, b, c, d, e]) == Step(Step(Step(Step(Step(s, a), b), c), d), e)
  {
    hide Step;
    assert [a, b, c, d, e][1..] == [b, c, d, e] && [b, c, d, e][1..] == [c, d, e] && [c, d, e][1..] == [d, e];
    assert [d, e][1..] == [e] && [e][1..] == [];
    var v := Step(Step(Step(s, a), b), c);
    assert Run(s, [a, b, c, d, e]) == Run(Step(s, a), [b, c, d, e]) == Run(Step(Step(s, a), b), [c, d, e]);
    assert Run(Step(Step(s, a), b), [c, d, e]) == Run(v, [d, e]) == Run(Step(v, d), [e]);
    assert Run(Step(v, d), [e]) == Run(Step(Step(v, d), e), []);
  }

  lemma ReplayAppends(log: seq<Entry>, e: Entry, slot: string, start: int)
    ensures Replay(log + [e], slot, start)
      == if e.slot != slot then Replay(log, slot, start) else if e.Saved? then Replay(log, slot, start) + 1 else 0
  {
    assert (log + [e])[..|log|] == log;
  }

  lemma RecordKeeps(s: State, e: Entry, start: map<string, int>)
    requires NoLostUpdates(s.log, start)
      && forall slot :: RevisionOf(s, slot) == Replay(s.log, slot, Start(start, slot))
    requires e.Saved? ==>
      e.rev == RevisionOf(s, e.slot) + 1 && (e.ifRevision.Some? ==> e.ifRevision.value == RevisionOf(s, e.slot))
    ensures NoLostUpdates(Record(s, e).log, start)
    ensures forall slot :: RevisionOf(Record(s, e), slot) == Replay(Record(s, e).log, slot, Start(start, slot))
  {
    var log := s.log + [e];
    forall i | 0 <= i < |log| && log[i].Saved?
      ensures var before := Replay(log[..i], log[i].slot, Start(start, log[i].slot));
        log[i].rev == before + 1 && (log[i].ifRevision.Some? ==> log[i].ifRevision.value == before)
    {
      if i < |s.log| { assert log[..i] == s.log[..i] && log[i] == s.log[i]; } else { assert log[..i] == s.log; }
    }
    forall slot ensures RevisionOf(Record(s, e), slot) == Replay(log, slot, Start(start, slot)) {
      ReplayAppends(s.log, e, slot, Start(start, slot));
    }
  }

  /** One thread moved; what it and the others have read still holds. */
  lemma MoveKeeps(s: State, g: State, t: nat, start: map<string, int>)
    requires Inv(s, start) && g.locked && NoLostUpdates(g.log, start)
    requires forall slot :: RevisionOf(g, slot) == Replay(g.log, slot, Start(start, slot))
    requires g.phases == s.phases[t := PhaseOf(g, t)] && Promised(g, PhaseOf(g, t))
    requires InSection(PhaseOf(g, t)) ==> g.holder == Some(t)
    requires g.revisions == s.revisions || s.holder == Some(t)
    requires g.holder == s.holder || s.holder.None? || s.holder == Some(t)
    ensures Inv(g, start)
  {
    forall u: nat ensures (InSection(PhaseOf(g, u)) ==> g.holder == Some(u)) && Promised(g, PhaseOf(g, u)) {
      if u != t {
        assert PhaseOf(g, u) == PhaseOf(s, u);
        assert Promised(s, PhaseOf(s, u)) && (InSection(PhaseOf(s, u)) ==> s.holder == Some(u));
      }
    }
  }

  lemma FinishKeeps(s: State, t: nat, e: Entry, start: map<string, int>)
    requires Inv(s, start) && InSection(PhaseOf(s, t))
    requires e.Saved? ==>
      e.rev == RevisionOf(s, e.slot) + 1 && (e.ifRevision.Some? ==> e.ifRevision.value == RevisionOf(s, e.slot))
    ensures Inv(Record(Leave(s, t), e), start)
  {
    RecordKeeps(Leave(s, t), e, start);
    MoveKeeps(s, Record(Leave(s, t), e), t, start);
  }

  lemma StepKeeps(s: State, a: Act, start: map<string, int>)
    requires Inv(s, start)
    ensures Inv(Step(s, a), start)
  {
    hide Inv, NoLostUpdates, Replay;
    var t, p := a.thread, PhaseOf(s, a.thread);
    InvAt(s, t, start);
    if a.Finish? && a.ok && p.Numbered? { FinishKeeps(s, t, Saved(p.op.slot, IfRevision(p.op), p.rev), start); }
    else if a.Finish? && a.ok && p.Checked? && p.op.Delete? { FinishKeeps(s, t, Deleted(p.op.slot), start); }
    else if Step(s, a) != s { MoveKeeps(s, Step(s, a), t, start); }
  }

  lemma InvAt(s: State, t: nat, start: map<string, int>)
    requires Inv(s, start)
    ensures s.locked && NoLostUpdates(s.log, start) && Promised(s, PhaseOf(s, t))
    ensures InSection(PhaseOf(s, t)) ==> s.holder == Some(t)
    ensures forall slot :: RevisionOf(s, slot) == Replay(s.log, slot, Start(start, slot))
  {}

  /** A process that has just started. */
  function Fresh(locked: bool, start: map<string, int>): State { State(locked, None, map[], start, []) }

  lemma {:induction false} RunKeeps(s: State, acts: seq<Act>, start: map<string, int>)
    requires Inv(s, start)
    ensures Inv(Run(s, acts), start)
    decreases |acts|
  {
    if |acts| > 0 {
      StepKeeps(s, acts[0], start);
      RunKeeps(Step(s, acts[0]), acts[1..], start);
    }
  }

  ghost predicate EveryInterleavingIsSafe(locked: bool) {
    forall start, acts :: NoLostUpdates(Run(Fresh(locked, start), acts).log, start)
  }

  /** Two threads that both pass the check before either writes. */
  function Race(): seq<Act> {
    var op := Save("a", Some(0));
    [Call(0, op), Call(1, op), Acquire(0), Acquire(1), Check(0), Check(1), Number(0), Number(1), Finish(0, true),
      Finish(1, true)]
  }

  /** Both threads have passed the check. */
  function BothChecked(): State {
    var op := Save("a", Some(0));
    State(false, Some(1), map[0 := Checked(op), 1 := Checked(op)], map[], [])
  }

  lemma RunTwo(s: State, x: Act, y: Act, rest: seq<Act>)
    ensures Run(s, [x, y] + rest) == Run(Step(Step(s, x), y), rest)
  {
    assert ([x, y] + rest)[1..] == [y] + rest && ([y] + rest)[1..] == rest;
  }

  lemma RaceStarts()
    ensures Run(Fresh(false, map[]), Race()) == Run(BothChecked(), Race()[6..])
  {
    hide Run;
    var op, r := Save("a", Some(0)), Race();
    var s2 := Fresh(false, map[]).(phases := map[0 := Waiting(op), 1 := Waiting(op)]);
    assert r == [r[0], r[1]] + r[2..] && r[2..] == [r[2], r[3]] + r[4..] && r[4..] == [r[4], r[5]] + r[6..];
    RunTwo(Fresh(false, map[]), r[0], r[1], r[2..]);
    assert Step(Step(Fresh(false, map[]), r[0]), r[1]) == s2;
    var s4 := s2.(holder := Some(1), phases := map[0 := Holding(op), 1 := Holding(op)]);
    RunTwo(s2, r[2], r[3], r[4..]);
    assert Step(Step(s2, r[2]), r[3]) == s4;
    RunTwo(s4, r[4], r[5], r[6..]);
    assert Step(Step(s4, r[4]), r[5]) == BothChecked();
  }

  lemma RaceEnds()
    ensures Run(BothChecked(), Race()[6..]).log == [Saved("a", Some(0), 1), Saved("a", Some(0), 1)]
  {
    var op, r := Save("a", Some(0)), Race();
    var s8 := BothChecked().(phases := map[0 := Numbered(op, 1), 1 := Numbered(op, 1)]);
    assert r[6..] == [r[6], r[7]] + r[8..] && r[8..] == [r[8], r[9]] + [];
    RunTwo(BothChecked(), r[6], r[7], r[8..]);
    assert Step(Step(BothChecked(), r[6]), r[7]) == s8;
    RunTwo(s8, r[8], r[9], []);
  }

  lemma RaceLoses()
    ensures !NoLostUpdates(Run(Fresh(false, map[]), Race()).log, map[])
  {
    hide Run;
    RaceStarts();
    RaceEnds();
    var log := [Saved("a", Some(0), 1), Saved("a", Some(0), 1)];
    assert log[..1] == [] + [log[0]];
    ReplayAppends([], log[0], "a", 0);
  }

  /** The write lock is exactly what makes every interleaving safe. */
  lemma LockIsNeededAndEnough(locked: bool)
    ensures EveryInterleavingIsSafe(locked) <==> locked
  {
    if locked {
      forall start, acts ensures NoLostUpdates(Run(Fresh(locked, start), acts).log, start) {
        RunKeeps(Fresh(locked, start), acts, start);
      }
    } else {
      RaceLoses();
    }
  }

  // ----- what that means for the clients -----

  predicate NoDeletion(log: seq<Entry>, slot: string, i: nat, j: nat) {
    forall k | i <= k < j && k < |log| :: log[k] != Deleted(slot)
  }

  lemma {:induction false} ReplayOnlyGrows(log: seq<Entry>, slot: string, start: int, i: nat, j: nat)
    requires i <= j <= |log| && NoDeletion(log, slot, i, j)
    ensures Replay(log[..i], slot, start) <= Replay(log[..j], slot, start)
    decreases j
  {
    if i < j {
      ReplayOnlyGrows(log, slot, start, i, j - 1);
      assert log[..j] == log[..j - 1] + [log[j - 1]];
      ReplayAppends(log[..j - 1], log[j - 1], slot, start);
    }
  }

  /** Between deletions of a slot, of all the saves conditional on one revision at
      most one is answered with success. */
  lemma OneWinnerPerRevision(start: map<string, int>, acts: seq<Act>, i: nat, j: nat)
    requires var log := Run(Fresh(true, start), acts).log;
      i < j < |log| && log[i].Saved? && log[j].Saved? && log[i].slot == log[j].slot
      && log[i].ifRevision.Some? && NoDeletion(log, log[i].slot, i, j)
    ensures var log := Run(Fresh(true, start), acts).log; log[i].ifRevision != log[j].ifRevision
  {
    hide Run;
    RunKeeps(Fresh(true, start), acts, start);
    var log := Run(Fresh(true, start), acts).log;
    var slot, at := log[i].slot, Start(start, log[i].slot);
    assert log[..i + 1] == log[..i] + [log[i]];
    ReplayAppends(log[..i], log[i], slot, at);
    ReplayOnlyGrows(log, slot, at, i + 1, j);
  }

  /** Between deletions of a slot its revisions are consecutive. */
  lemma RevisionsAreConsecutive(start: map<string, int>, acts: seq<Act>, i: nat, j: nat)
    requires var log := Run(Fresh(true, start), acts).log;
      i < j < |log| && log[i].Saved? && log[j].Saved? && log[i].slot == log[j].slot
      && forall k | i < k < j :: log[k].slot != log[i].slot
    ensures var log := Run(Fresh(true, start), acts).log; log[j].rev == log[i].rev + 1
  {
    hide Run;
    RunKeeps(Fresh(true, start), acts, start);
    var log := Run(Fresh(true, start), acts).log;
    var slot, at := log[i].slot, Start(start, log[i].slot);
    assert log[..i + 1] == log[..i] + [log[i]];
    ReplayAppends(log[..i], log[i], slot, at);
    ReplayUnmoved(log, slot, at, i + 1, j);
  }

  lemma {:induction false} ReplayUnmoved(log: seq<Entry>, slot: string, start: int, i: nat, j: nat)
    requires i <= j <= |log| && forall k | i <= k < j :: log[k].slot != slot
    ensures Replay(log[..i], slot, start) == Replay(log[..j], slot, start)
    decreases j
  {
    if i < j {
      ReplayUnmoved(log, slot, start, i, j - 1);
      assert log[..j] == log[..j - 1] + [log[j - 1]];
      ReplayAppends(log[..j - 1], log[j - 1], slot, start);
    }
  }
}
