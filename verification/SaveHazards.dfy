/** What a restart makes of an interrupted save, of a slot reduced to its backup,
    and of a deleted slot: exactly when it recovers the revision, and the runs in
    which it does not. */
module SaveHazards {
  import opened Basics
  import opened Json
  import opened JsonCanonical
  import opened Numerals
  import opened SaveFile
  import opened SaveSpec
  import opened SaveProofs
  import opened SaveTheorems
  import opened SaveRuns
  import opened SaveRevisions
  import opened SaveRestarts
  import opened Order

  // ----- the sidecars after a save stopped anywhere -----

  /** Sidecars from before, the newest of them kept, and perhaps the next one. */
  ghost predicate Loose(files: Files, slot: string, lo: int, rev: int) {
    Within(files, slot, lo, rev + 1) && (rev >= 1 ==> Sidecar(slot, rev) in files)
  }

  lemma WithinGrows(files: Files, slot: string, lo: int, hi: int)
    requires Within(files, slot, lo, hi)
    ensures Within(files, slot, lo, hi + 1)
  {
    forall n <- files | IsSidecar(slot, n) ensures exists i :: lo <= i <= hi + 1 && n == Sidecar(slot, i) {
      var i :| lo <= i <= hi && n == Sidecar(slot, i);
    }
  }

  lemma CommitIsLoose(c: Config, e: Engine, q: Request, rev: int)
    requires ValidSlot(q.slot) && TempName(q.tmp2) && 1 <= rev && Fits(rev)
    requires Window(e.store.files, q.slot, Low(rev - 1, c.keep), rev - 1)
    ensures Loose(Commit(c, e, q, rev).engine.store.files, q.slot, Low(rev - 1, c.keep), rev - 1)
  {
    hide Commit;
    var slot, lo, f, g := q.slot, Low(rev - 1, c.keep), e.store.files, Commit(c, e, q, rev).engine.store.files;
    WithinGrows(f, slot, lo, rev - 1);
    forall n <- g | IsSidecar(slot, n) ensures exists i :: lo <= i <= rev && n == Sidecar(slot, i) {
      if n != Sidecar(slot, rev) {
        CommitAndSidecars(c, e, q, rev, n);
        var i :| lo <= i <= rev - 1 && n == Sidecar(slot, i);
      } else {
        assert lo <= rev;
      }
    }
    if rev >= 2 {
      SidecarParses(slot, rev - 1);
      SidecarsDiffer(slot, rev - 1, rev);
      forall v | lo <= v < Low(rev, c.keep) ensures Sidecar(slot, rev - 1) != Sidecar(slot, v) {
        SidecarsDiffer(slot, rev - 1, v);
      }
      CommitAndSidecars(c, e, q, rev, Sidecar(slot, rev - 1));
    }
  }

  lemma NotBeyond(files: Files, slot: string, lo: int, rev: int)
    requires Within(files, slot, lo, rev) && 0 <= lo && Fits(rev + 1)
    ensures Sidecar(slot, rev + 1) !in files
  {
    SidecarParses(slot, rev + 1);
    if Sidecar(slot, rev + 1) in files {
      var i :| lo <= i <= rev && Sidecar(slot, rev + 1) == Sidecar(slot, i);
      SidecarsDiffer(slot, i, rev + 1);
    }
  }

  lemma StoreIsLoose(c: Config, e: Engine, q: Request, body: string)
    requires ValidSlot(q.slot) && TempName(q.tmp) && TempName(q.tmp2) && Tidy(c, e, q.slot)
    ensures var rev := RevisionOf(e.revisions, q.slot);
      && Loose(StoreSave(c, e, q, body, rev + 1).engine.store.files, q.slot, Low(rev, c.keep), rev)
      && (Sidecar(q.slot, rev + 1) in StoreSave(c, e, q, body, rev + 1).engine.store.files
          ==> WriteAtomic(e.store, Live(q.slot), body, q.tmp).err == Ok)
  {
    hide WriteAtomic, Commit;
    var rev, slot := RevisionOf(e.revisions, q.slot), q.slot;
    var w := WriteAtomic(e.store, Live(slot), body, q.tmp);
    WindowAfterLiveWrite(e.store, slot, body, q.tmp, slot, Low(rev, c.keep), rev);
    WithinGrows(w.files, slot, Low(rev, c.keep), rev);
    NotBeyond(w.files, slot, Low(rev, c.keep), rev);
    CommitIsLoose(c, e.(store := w), q, rev + 1);
  }

  // ----- the first save of a slot -----

  function LiveHeader(files: Files, slot: string): Option<Header> {
    if Live(slot) in files then ParseSave(files[Live(slot)]) else None
  }

  /** The revision the save's own header records, 0 if there is none to read. */
  function Recorded(files: Files, slot: string): int {
    if LiveHeader(files, slot).Some? then LiveHeader(files, slot).value.revision else 0
  }

  /** The live file is as before, or the new save, or no save. */
  predicate NewOrOld(f: Files, g: Files, slot: string, rev: int) {
    Get(g, Live(slot)) == Get(f, Live(slot)) || LiveHeader(g, slot).None? || Recorded(g, slot) == rev
  }

  lemma RecordedAfterWrite(sha: string -> string, w: Store, slot: string, s: Stamp, rev: int, v: Value, tmp: string)
    requires Legal(slot, s, rev, v, tmp)
    ensures var g := WriteAtomic(w, Live(slot), Body(sha, s, rev, v), tmp);
      NewOrOld(w.files, g.files, slot, rev) && (g.err == Ok ==> Recorded(g.files, slot) == rev)
  {
    hide WriteAtomic, ParseSave;
    var body := Body(sha, s, rev, v);
    TempApart(slot, rev, tmp);
    WriteLeaves(w, Live(slot), body, tmp);
    WrittenReadsBack(sha, s, rev, v);
    var l := Get(WriteAtomic(w, Live(slot), body, tmp).files, Live(slot));
    if l.Some? && l != Get(w.files, Live(slot)) {
      TakeIsPrefix(body, 0);
      CutSaveIsNoSave(sha, s, rev, v, |l.value|);
    }
  }

  // ----- exactly when a restart recovers the revision -----

  lemma RebuiltWithoutSidecars(files: Files, slot: string, lo: int)
    requires Live(slot) in files && Within(files, slot, lo, 1) && 1 <= lo
    requires Recorded(files, slot) in {0, 1}
    ensures Rebuilt(files, slot) == 1
  {
    hide IsSidecar, SidecarRevs, ParseSave;
    RevsWithin(files, slot, lo, 1);
    if Sidecar(slot, 1) in files && lo == 1 { RebuiltIs(files, slot, lo, 1, 1); }
    else { HighestIs(SidecarRevs(Sorted(files.Keys), Live(slot) + "."), 0, 0); }
  }

  /** Where no sidecar is left a restart takes the revision from the save itself, if it
      names one, and counts from one where it does not or cannot be read. */
  lemma RestartWithoutSidecars(files: Files, slot: string)
    requires ValidSlot(slot) && Live(slot) in files && forall n <- files :: !IsSidecar(slot, n)
    ensures var h := ParseSave(files[Live(slot)]);
      slot in InitRevisions(files)
        && InitRevisions(files)[slot] == if h.Some? && h.value.revision > 0 then h.value.revision else 1
  {
    hide IsSidecar, SidecarRevs, ParseSave;
    RevsWithin(files, slot, 1, 0);
    HighestIs(SidecarRevs(Sorted(files.Keys), Live(slot) + "."), 0, 0);
  }

  lemma LooseRebuilt(files: Files, slot: string, lo: int, rev: int)
    requires Live(slot) in files && Loose(files, slot, lo, rev) && 1 <= lo <= rev && Fits(rev + 1)
    ensures Rebuilt(files, slot) == if Sidecar(slot, rev + 1) in files then rev + 1 else rev
  {
    hide Rebuilt, IsSidecar, Sidecar;
    RebuiltIs(files, slot, lo, rev + 1, if Sidecar(slot, rev + 1) in files then rev + 1 else rev);
  }

  lemma SaveIsLoose(sha: string -> string, c: Config, e: Engine, q: Request, r: Written)
    requires r == WriteSave(sha, c, e, q) && Ready(c, e, q) && ValidSlot(q.slot) && Tidy(c, e, q.slot)
    ensures var rev := RevisionOf(e.revisions, q.slot);
      && Loose(r.engine.store.files, q.slot, Low(rev, c.keep), rev)
      && NewOrOld(e.store.files, r.engine.store.files, q.slot, rev + 1)
      && (Sidecar(q.slot, rev + 1) in r.engine.store.files ==> Recorded(r.engine.store.files, q.slot) == rev + 1)
  {
    hide WriteAtomic, Commit, Body, ParseSave, Loose, Recorded, LiveHeader, ValidSlot;
    var rev := RevisionOf(e.revisions, q.slot);
    if r.engine == e {
      TidyIsLoose(c, e, q.slot);
      NotBeyond(e.store.files, q.slot, Low(rev, c.keep), rev);
    } else {
      var v := ParseValue(q.payload).value;
      var s := StampOf(c, e.store.files, q);
      var body := Body(sha, s, rev + 1, v);
      Stored(sha, c, e, q, r);
      StoreIsLoose(c, e, q, body);
      ParsedIsWellFormed(q.payload);
      RecordedAfterWrite(sha, e.store, q.slot, s, rev + 1, v, q.tmp);
      var w := WriteAtomic(e.store, Live(q.slot), body, q.tmp);
      LiveSurvivesCommit(c, e.(store := w), q, rev + 1, q.slot);
      SameLiveFile(w.files, r.engine.store.files, q.slot);
    }
  }

  lemma TidyIsLoose(c: Config, e: Engine, slot: string)
    requires Tidy(c, e, slot)
    ensures var rev := RevisionOf(e.revisions, slot); Loose(e.store.files, slot, Low(rev, c.keep), rev)
  {
    var rev := RevisionOf(e.revisions, slot);
    WithinGrows(e.store.files, slot, Low(rev, c.keep), rev);
  }

  lemma SameLiveFile(f: Files, g: Files, slot: string)
    requires Get(f, Live(slot)) == Get(g, Live(slot))
    ensures LiveHeader(f, slot) == LiveHeader(g, slot) && Recorded(f, slot) == Recorded(g, slot)
  {}

  /** After one save from a tidy slot, stopped or refused anywhere, a restart sees
      the new revision exactly when its sidecar was written, and none at all when
      only the backup is left. */
  lemma RestartSees(sha: string -> string, c: Config, e: Engine, q: Request)
    requires Ready(c, e, q) && ValidSlot(q.slot) && Tidy(c, e, q.slot)
    ensures var rev, g := RevisionOf(e.revisions, q.slot), WriteSave(sha, c, e, q).engine;
      RevisionOf(Restart(g).revisions, q.slot)
        == if Live(q.slot) !in g.store.files then 0
           else if rev == 0 || Sidecar(q.slot, rev + 1) in g.store.files then rev + 1 else rev
  {
    hide WriteSave, Rebuilt;
    var rev, slot, r := RevisionOf(e.revisions, q.slot), q.slot, WriteSave(sha, c, e, q);
    var f := r.engine.store.files;
    SaveIsLoose(sha, c, e, q, r);
    if Live(slot) in f {
      if rev == 0 { RebuiltWithoutSidecars(f, slot, Low(rev, c.keep)); }
      else { LooseRebuilt(f, slot, Low(rev, c.keep), rev); }
    }
  }

  /** On one device the restart agrees with the header of the save it finds
      exactly unless that is the new save and its sidecar is missing. */
  lemma RestartAgreesExactlyWhen(sha: string -> string, c: Config, e: Engine, q: Request)
    requires Ready(c, e, q) && ValidSlot(q.slot) && Tidy(c, e, q.slot) && OneDevice(e.store)
    requires Sound(sha, e.store.files, q.slot) && Recorded(e.store.files, q.slot) == RevisionOf(e.revisions, q.slot)
    ensures var rev, g := RevisionOf(e.revisions, q.slot), WriteSave(sha, c, e, q).engine;
      var f := g.store.files;
      RevisionOf(Restart(g).revisions, q.slot) == Recorded(f, q.slot)
      <==> (rev >= 1 && Recorded(f, q.slot) == rev + 1 ==> Sidecar(q.slot, rev + 1) in f)
  {
    hide WriteSave, Restart, ParseSave, Verified, ReadSave, Canonical, Sidecar;
    var rev, slot, r := RevisionOf(e.revisions, q.slot), q.slot, WriteSave(sha, c, e, q);
    var f := r.engine.store.files;
    RestartSees(sha, c, e, q);
    SaveIsLoose(sha, c, e, q, r);
    SaveKeepsOrReplaces(sha, c, e, q);
  }

  // ----- the runs that forget -----

  /** Eight calls work, the next two are refused, and then everything works. */
  function SidecarRefused(): nat -> Turn { (i: nat) => Turn(if i in {8, 9} then Refused else Works, 0) }

  lemma EightCalls(w: Store, target: string, data: string, tmp: string)
    requires Names3(target, tmp) && tmp !in w.files && target in w.files
    requires w.up && w.clock == 0 && w.script == SidecarRefused()
    ensures var g := WriteAtomic(w, target, data, tmp);
      g.err == Ok && g.up && g.clock == 8 && g.script == w.script && target in g.files
  {
    var ready := w.(files := w.files[tmp := ""][tmp := data], clock := 4, err := Ok);
    assert WriteAtomic(w, target, data, tmp) == Rotate(ready, target, tmp);
    EightCallsRotate(ready, target, tmp);
  }

  lemma EightCallsRotate(w: Store, target: string, tmp: string)
    requires Names3(target, tmp) && tmp in w.files && target in w.files
    requires w.up && w.clock == 4 && w.script == SidecarRefused()
    ensures var g := Rotate(w, target, tmp);
      g.err == Ok && g.up && g.clock == 8 && g.script == w.script && target in g.files
  {
    var bak := Bak(target);
    var a := Rename(Remove(w, bak), target, bak);
    assert a.clock == 6 && a.err == Ok && tmp in a.files;
  }

  lemma CommitRefused(c: Config, e: Engine, q: Request, rev: int)
    requires e.store.up && e.store.clock == 8 && e.store.script == SidecarRefused()
    requires |Evicted(e.store.files, q.slot, c.keep)| <= 1
    ensures var r := Commit(c, e, q, rev);
      && r.result == Saved(rev) && r.engine.store.files == e.store.files && r.engine.store.script == e.store.script
      && r.engine.store.clock in {9, 10}
  {
    var revs := Evicted(e.store.files, q.slot, c.keep);
    var a := RemoveSidecars(e.store, q.slot, revs);
    if |revs| == 1 {
      assert revs[1..] == [];
      assert RemoveSidecars(Remove(e.store, Sidecar(q.slot, revs[0])), q.slot, revs[1..])
          == Remove(e.store, Sidecar(q.slot, revs[0]));
    }
    assert a.up && a.clock in {8, 9} && a.files == e.store.files && a.script == e.store.script;
    FirstCallRefused(a, Sidecar(q.slot, rev), IntText(rev) + "\n", q.tmp2);
  }

  lemma FirstCallRefused(w: Store, target: string, data: string, tmp: string)
    requires w.up && w.script(w.clock).kind == Refused
    ensures WriteAtomic(w, target, data, tmp) == w.(clock := w.clock + 1, err := Io)
  {}

  /** The save is acknowledged, and the restart is where it was before it. */
  lemma RestartBeforeSave(sha: string -> string, c: Config, e: Engine, q: Request, r: Written)
    requires r == WriteSave(sha, c, e, q)
    requires e.store.up && e.store.clock == 0 && e.store.script == SidecarRefused()
    requires Tidy(c, e, q.slot) && 1 <= RevisionOf(e.revisions, q.slot) && Fits(RevisionOf(e.revisions, q.slot) + 2)
    requires Acceptable(e, q) && FreshNames(e, q)
    ensures var rev, g := RevisionOf(e.revisions, q.slot), Restart(r.engine);
      && r.result == Saved(rev + 1) && g.store.files == r.engine.store.files
      && Tidy(c, g, q.slot) && Calm(g.store) && RevisionOf(g.revisions, q.slot) == rev
  {
    hide Body, WriteAtomic, Commit, Rebuilt, Window, Evicted, WriteSave, IsSidecar, ValidSlot;
    var rev, slot := RevisionOf(e.revisions, q.slot), q.slot;
    var body, _ := WhatIsStored(sha, c, e, q, r);
    var w := WriteAtomic(e.store, Live(slot), body, q.tmp);
    TempApart(slot, rev, q.tmp);
    EightCalls(e.store, Live(slot), body, q.tmp);
    WindowAfterLiveWrite(e.store, slot, body, q.tmp, slot, Low(rev, c.keep), rev);
    EvictsOldest(w.files, slot, rev, c.keep);
    CommitRefused(c, e.(store := w), q, rev + 1);
    WindowRestart(c, r.engine.store.files, slot, rev);
  }

  /** An acknowledged save whose sidecar could not be written is forgotten by a
      restart: a second save conditional on the same revision is accepted too,
      under the same new revision. */
  lemma AcknowledgedSaveForgotten(sha: string -> string, c: Config, e: Engine, q: Request, q2: Request)
    requires e.store.up && e.store.clock == 0 && e.store.script == SidecarRefused()
    requires Tidy(c, e, q.slot) && 1 <= RevisionOf(e.revisions, q.slot) && Fits(RevisionOf(e.revisions, q.slot) + 2)
    requires Acceptable(e, q) && FreshNames(e, q)
    requires q2.slot == q.slot && q2.ifRevision == q.ifRevision && ParseValue(q2.payload).Good?
    ensures var rev, r := RevisionOf(e.revisions, q.slot), WriteSave(sha, c, e, q);
      && r.result == Saved(rev + 1)
      && (FreshNames(r.engine, q2) ==> WriteSave(sha, c, Restart(r.engine), q2).result == Saved(rev + 1))
  {
    hide WriteSave, Restart, Tidy;
    var r := WriteSave(sha, c, e, q);
    RestartBeforeSave(sha, c, e, q, r);
    if FreshNames(r.engine, q2) { CompletedSaveSlides(sha, c, Restart(r.engine), q2); }
  }

  lemma WindowRestart(c: Config, files: Files, slot: string, rev: int)
    requires Live(slot) in files && 1 <= rev && Fits(rev) && Window(files, slot, Low(rev, c.keep), rev)
    ensures Rebuilt(files, slot) == rev
  {
    RebuiltIs(files, slot, Low(rev, c.keep), rev, rev);
  }

  /** A write stopped between its two renames leaves a slot that is still read
      from its backup but that a restart counts from zero. */
  lemma BackupOnlyIsRevisionZero(sha: string -> string, files: Files, slot: string, body: string, tmp: string,
                                 revisions: map<string, int>)
    requires ValidSlot(slot) && TempName(tmp) && tmp !in files && Live(slot) in files && Sound(sha, files, slot)
    ensures var w := WriteAtomic(Store(files, DiesAt(6), 0, true, Ok), Live(slot), body, tmp);
      && ReadSave(sha, w.files, slot) == ReadSave(sha, files, slot)
      && RevisionOf(Restart(Engine(w, revisions)).revisions, slot) == 0
  {
    hide ParseSave, Verified;
    var live, bak := Live(slot), Bak(Live(slot));
    TempApart(slot, 1, tmp);
    FilesApart(slot, slot, 1);
    var ready := Store(files[tmp := ""][tmp := body], DiesAt(6), 4, true, Ok);
    assert WriteAtomic(Store(files, DiesAt(6), 0, true, Ok), live, body, tmp) == Rotate(ready, live, tmp);
    var a := Rename(Remove(ready, bak), live, bak);
    assert a.clock == 6 && a.err == Ok && live !in a.files && Get(a.files, bak) == Get(files, live);
    assert Rotate(ready, live, tmp).files == a.files;
  }

  /** Deleting a slot resets its revision but leaves its sidecars, so after the
      next save a restart brings the old revision back. */
  lemma DeletedRevisionReturns(sha: string -> string, c: Config, e: Engine, q: Request)
    requires Calm(e.store) && Tidy(c, e, q.slot) && 2 <= RevisionOf(e.revisions, q.slot)
      && Fits(RevisionOf(e.revisions, q.slot) + 1)
    requires ValidSlot(q.slot) && ParseValue(q.payload).Good? && q.ifRevision in {None, Some(0)} && FreshNames(e, q)
    ensures DeleteSave(e, q.slot).Deleted?
    ensures var r := WriteSave(sha, c, DeleteSave(e, q.slot).engine, q);
      && r.result == Saved(1)
      && RevisionOf(Restart(r.engine).revisions, q.slot) == RevisionOf(e.revisions, q.slot)
  {
    hide Body, WriteAtomic, Commit, Rebuilt, Within, Evicted, Window, IsSidecar, Tidy;
    var rev, slot := RevisionOf(e.revisions, q.slot), q.slot;
    DeletionKeepsSidecars(c, e, slot);
    var d := DeleteSave(e, slot).engine;
    var r := WriteSave(sha, c, d, q);
    var body, _ := WhatIsStored(sha, c, d, q, r);
    TempApart(slot, 1, q.tmp);
    CalmWrite(d.store, Live(slot), body, q.tmp);
    var w := WriteAtomic(d.store, Live(slot), body, q.tmp);
    WindowAfterLiveWrite(d.store, slot, body, q.tmp, slot, Low(rev, c.keep), rev);
    StillFresh(d, q, body);
    CommitOverOldSidecars(c, d.(store := w), q, rev);
    LiveSurvivesCommit(c, d.(store := w), q, 1, slot);
    RebuiltIs(r.engine.store.files, slot, 1, rev, rev);
  }

  lemma DeletionKeepsSidecars(c: Config, e: Engine, slot: string)
    requires ValidSlot(slot) && Calm(e.store) && Tidy(c, e, slot) && 1 <= RevisionOf(e.revisions, slot)
    ensures var rev, d := RevisionOf(e.revisions, slot), DeleteSave(e, slot);
      && d.Deleted? && Calm(d.engine.store) && Window(d.engine.store.files, slot, Low(rev, c.keep), rev)
      && RevisionOf(d.engine.revisions, slot) == 0
      && d.engine.store.files.Keys <= e.store.files.Keys
  {
    hide ValidSlot;
    var rev, f, g := RevisionOf(e.revisions, slot), e.store.files, DeleteSave(e, slot).engine.store.files;
    assert forall n | n !in {Live(slot), Bak(Live(slot))} :: Get(g, n) == Get(f, n);
    forall n <- g | IsSidecar(slot, n) ensures exists i :: Low(rev, c.keep) <= i <= rev && n == Sidecar(slot, i) {
      assert n in f;
    }
    forall i | Low(rev, c.keep) <= i <= rev ensures Sidecar(slot, i) in g {
      FilesApart(slot, slot, i);
      assert Get(g, Sidecar(slot, i)) == Get(f, Sidecar(slot, i));
    }
  }

  lemma CommitOverOldSidecars(c: Config, e: Engine, q: Request, rev: int)
    requires ValidSlot(q.slot) && TempName(q.tmp2) && q.tmp2 !in e.store.files && 2 <= rev && Fits(rev + 1)
    requires Calm(e.store) && Window(e.store.files, q.slot, Low(rev, c.keep), rev)
    ensures var r := Commit(c, e, q, 1);
      && r.result == Saved(1) && Within(r.engine.store.files, q.slot, 1, rev)
      && Sidecar(q.slot, rev) in r.engine.store.files
  {
    hide WriteAtomic, ValidSlot;
    var slot, lo, f := q.slot, Low(rev, c.keep), e.store.files;
    var a, g := Prune(e.store, slot, c.keep), Commit(c, e, q, 1).engine.store.files;
    EvictsOldest(f, slot, rev, c.keep);
    RemovesAll(e.store, slot, Evicted(f, slot, c.keep));
    RemovesOnly(e.store, slot, Evicted(f, slot, c.keep));
    TempApart(slot, 1, q.tmp2);
    CalmWrite(a, Sidecar(slot, 1), IntText(1) + "\n", q.tmp2);
    forall n <- g | IsSidecar(slot, n) ensures exists i :: 1 <= i <= rev && n == Sidecar(slot, i) {
      if n != Sidecar(slot, 1) {
        SidecarWriteAndSidecars(a, slot, 1, q.tmp2, n);
        assert n in f;
        var i :| lo <= i <= rev && n == Sidecar(slot, i);
      }
    }
    SidecarParses(slot, rev);
    SidecarsDiffer(slot, rev, 1);
    NewestKept(slot, rev, c.keep);
    assert Get(a.files, Sidecar(slot, rev)) == Get(f, Sidecar(slot, rev));
    SidecarWriteAndSidecars(a, slot, 1, q.tmp2, Sidecar(slot, rev));
  }

  lemma NewestKept(slot: string, rev: int, keep: int)
    requires 1 <= rev && Fits(rev + 1)
    ensures forall v <- Range(Low(rev, keep), Low(rev + 1, keep) - 1) :: Sidecar(slot, rev) != Sidecar(slot, v)
  {
    forall v <- Range(Low(rev, keep), Low(rev + 1, keep) - 1) ensures Sidecar(slot, rev) != Sidecar(slot, v) {
      InRange(Low(rev, keep), Low(rev + 1, keep) - 1, v);
      SidecarsDiffer(slot, rev, v);
    }
  }
}
