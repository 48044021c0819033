/** Runs of completed saves keep the sidecars a sliding window from which a
    restart recovers the revision; interrupted saves and deletions do not. */
module SaveRestarts {
  import opened Basics
  import opened Json
  import opened JsonCanonical
  import opened Numerals
  import opened SaveFile
  import opened SaveSpec
  import opened SaveProofs
  import opened SaveTheorems
  import opened SaveRuns
  import opened SaveRevisions
  import opened Order

  // ----- what a restart reads off the sidecars -----

  lemma {:induction false} HighestIs(revs: seq<int>, least: int, m: int)
    requires least <= m && (forall v <- revs :: v <= m) && (least == m || m in revs)
    ensures Highest(revs, least) == m
    decreases |revs|
  {
    if |revs| > 0 {
      assert revs[0] in revs && forall v <- revs[1..] :: v in revs;
      HighestIs(revs[1..], if revs[0] > least then revs[0] else least, m);
    }
  }

  lemma RebuiltIs(files: Files, slot: string, lo: int, hi: int, m: int)
    requires Live(slot) in files && Within(files, slot, lo, hi) && 0 <= lo && Fits(hi)
    requires lo <= m <= hi && 0 < m && Sidecar(slot, m) in files
    requires forall i | m < i <= hi :: Sidecar(slot, i) !in files
    ensures Rebuilt(files, slot) == m
  {
    RevsWithin(files, slot, lo, hi);
    HighestIs(SidecarRevs(Sorted(files.Keys), Live(slot) + "."), 0, m);
  }

  /** A restart between completed saves forgets nothing. */
  lemma RestartRemembers(c: Config, e: Engine, slot: string)
    requires ValidSlot(slot) && Tidy(c, e, slot)
    ensures RevisionOf(Restart(e).revisions, slot) == RevisionOf(e.revisions, slot)
  {
    var rev := RevisionOf(e.revisions, slot);
    if rev > 0 { RebuiltIs(e.store.files, slot, Low(rev, c.keep), rev, rev); }
  }

  // ----- completed saves -----

  lemma SidecarsDiffer(slot: string, i: int, j: int)
    requires Fits(i) && Fits(j) && i != j
    ensures Sidecar(slot, i) != Sidecar(slot, j)
  {
    SidecarParses(slot, i);
    SidecarParses(slot, j);
  }

  lemma WindowAfterLiveWrite(w: Store, slot: string, data: string, tmp: string, t: string, lo: int, hi: int)
    requires ValidSlot(slot) && ValidSlot(t) && TempName(tmp) && 0 <= lo && Fits(hi)
    ensures var f, g := w.files, WriteAtomic(w, Live(slot), data, tmp).files;
      && (Within(f, t, lo, hi) ==> Within(g, t, lo, hi)) && (Window(f, t, lo, hi) ==> Window(g, t, lo, hi))
  {
    var f, g := w.files, WriteAtomic(w, Live(slot), data, tmp).files;
    LiveWriteKeepsSidecars(w, slot, data, tmp, t);
    if Within(f, t, lo, hi) {
      forall n <- g | IsSidecar(t, n) ensures exists i :: lo <= i <= hi && n == Sidecar(t, i) {
        assert Get(g, n) == Get(f, n);
      }
    }
    if Window(f, t, lo, hi) {
      forall i | lo <= i <= hi ensures Sidecar(t, i) in g {
        SidecarParses(t, i);
        assert Get(g, Sidecar(t, i)) == Get(f, Sidecar(t, i));
      }
    }
  }

  lemma InRange(lo: int, hi: int, i: int)
    ensures i in Range(lo, hi) <==> lo <= i <= hi
  {
    if lo <= i <= hi { assert Range(lo, hi)[i - lo] == i; }
  }

  lemma CommitSlides(c: Config, e: Engine, q: Request, rev: int)
    requires ValidSlot(q.slot) && TempName(q.tmp2) && q.tmp2 !in e.store.files && 1 <= rev && Fits(rev)
    requires Calm(e.store) && Window(e.store.files, q.slot, Low(rev - 1, c.keep), rev - 1)
    ensures var r := Commit(c, e, q, rev);
      && r.result == Saved(rev) && RevisionOf(r.engine.revisions, q.slot) == rev
      && Calm(r.engine.store) && q.tmp2 !in r.engine.store.files
      && Window(r.engine.store.files, q.slot, Low(rev, c.keep), rev)
  {
    var slot, lo, lo' := q.slot, Low(rev - 1, c.keep), Low(rev, c.keep);
    var f, a, g := e.store.files, Prune(e.store, slot, c.keep), Commit(c, e, q, rev).engine.store.files;
    EvictsOldest(f, slot, rev - 1, c.keep);
    RemovesAll(e.store, slot, Evicted(f, slot, c.keep));
    RemovesOnly(e.store, slot, Evicted(f, slot, c.keep));
    TempApart(slot, rev, q.tmp2);
    CalmWrite(a, Sidecar(slot, rev), IntText(rev) + "\n", q.tmp2);
    forall n <- g | IsSidecar(slot, n) ensures exists i :: lo' <= i <= rev && n == Sidecar(slot, i) {
      if n != Sidecar(slot, rev) {
        CommitAndSidecars(c, e, q, rev, n);
        var i :| lo <= i <= rev - 1 && n == Sidecar(slot, i);
        SidecarWriteAndSidecars(a, slot, rev, q.tmp2, n);
        InRange(lo, lo' - 1, i);
      }
    }
    forall i | lo' <= i <= rev ensures Sidecar(slot, i) in g {
      if i < rev {
        SidecarParses(slot, i);
        SidecarsDiffer(slot, i, rev);
        forall v | lo <= v < lo' ensures Sidecar(slot, i) != Sidecar(slot, v) { SidecarsDiffer(slot, i, v); }
        CommitAndSidecars(c, e, q, rev, Sidecar(slot, i));
      }
    }
  }

  predicate FreshNames(e: Engine, q: Request) {
    TempName(q.tmp) && TempName(q.tmp2) && q.tmp !in e.store.files && q.tmp2 !in e.store.files
  }

  lemma StillFresh(e: Engine, q: Request, body: string)
    requires ValidSlot(q.slot) && FreshNames(e, q) && Calm(e.store)
    ensures q.tmp2 !in WriteAtomic(e.store, Live(q.slot), body, q.tmp).files
  {
    TempApart(q.slot, 0, q.tmp);
    TempApart(q.slot, 0, q.tmp2);
    CalmWrite(e.store, Live(q.slot), body, q.tmp);
    WriteLeaves(e.store, Live(q.slot), body, q.tmp);
    var w := WriteAtomic(e.store, Live(q.slot), body, q.tmp);
    assert q.tmp2 != q.tmp ==> Get(w.files, q.tmp2) == Get(e.store.files, q.tmp2);
  }

  /** A completed save takes the next revision and slides the window by one. */
  lemma CompletedSaveSlides(sha: string -> string, c: Config, e: Engine, q: Request)
    requires Acceptable(e, q) && FreshNames(e, q) && Calm(e.store) && Tidy(c, e, q.slot)
    requires Fits(RevisionOf(e.revisions, q.slot) + 2)
    ensures var r := WriteSave(sha, c, e, q);
      && r.result == Saved(RevisionOf(e.revisions, q.slot) + 1)
      && RevisionOf(r.engine.revisions, q.slot) == r.result.revision
      && Tidy(c, r.engine, q.slot) && Calm(r.engine.store)
  {
    hide Body, WriteAtomic, Commit, Window;
    var rev, slot := RevisionOf(e.revisions, q.slot) + 1, q.slot;
    var body, _ := WhatIsStored(sha, c, e, q, WriteSave(sha, c, e, q));
    var w := WriteAtomic(e.store, Live(slot), body, q.tmp);
    TempApart(slot, rev, q.tmp);
    TempApart(slot, rev, q.tmp2);
    CalmWrite(e.store, Live(slot), body, q.tmp);
    StillFresh(e, q, body);
    WindowAfterLiveWrite(e.store, slot, body, q.tmp, slot, Low(rev - 1, c.keep), rev - 1);
    CommitSlides(c, e.(store := w), q, rev);
    LiveSurvivesCommit(c, e.(store := w), q, rev, slot);
  }

  lemma PruneKeepsFile(w: Store, slot: string, keep: int, name: string)
    requires forall v :: name != Sidecar(slot, v)
    ensures Get(Prune(w, slot, keep).files, name) == Get(w.files, name)
  {
    RemovesOnly(w, slot, Evicted(w.files, slot, keep));
  }

  lemma SidecarWriteKeepsLive(w: Store, slot: string, rev: int, tmp: string, t: string)
    requires ValidSlot(slot) && TempName(tmp) && ValidSlot(t)
    ensures Get(WriteAtomic(w, Sidecar(slot, rev), IntText(rev) + "\n", tmp).files, Live(t)) == Get(w.files, Live(t))
  {
    FilesApart(slot, t, rev);
    TempApart(slot, rev, tmp);
    TempApart(t, rev, tmp);
    WriteLeaves(w, Sidecar(slot, rev), IntText(rev) + "\n", tmp);
  }

  lemma LiveSurvivesCommit(c: Config, e: Engine, q: Request, rev: int, t: string)
    requires ValidSlot(q.slot) && TempName(q.tmp2) && ValidSlot(t)
    ensures Get(Commit(c, e, q, rev).engine.store.files, Live(t)) == Get(e.store.files, Live(t))
  {
    forall v ensures Live(t) != Sidecar(q.slot, v) { FilesApart(q.slot, t, v); }
    PruneKeepsFile(e.store, q.slot, c.keep, Live(t));
    SidecarWriteKeepsLive(Prune(e.store, q.slot, c.keep), q.slot, rev, q.tmp2, t);
  }

  // ----- the other slots -----

  ghost predicate SameSidecars(f: Files, g: Files, t: string) {
    Get(g, Live(t)) == Get(f, Live(t)) && forall n | IsSidecar(t, n) :: Get(g, n) == Get(f, n)
  }

  lemma TidyDependsOn(c: Config, e: Engine, g: Engine, t: string)
    requires Tidy(c, e, t) && SameSidecars(e.store.files, g.store.files, t)
    requires RevisionOf(g.revisions, t) == RevisionOf(e.revisions, t)
    ensures Tidy(c, g, t)
  {
    var rev := RevisionOf(e.revisions, t);
    forall n <- g.store.files | IsSidecar(t, n) ensures exists i :: Low(rev, c.keep) <= i <= rev && n == Sidecar(t, i) {
      assert Get(g.store.files, n) == Get(e.store.files, n);
    }
    forall i | Low(rev, c.keep) <= i <= rev ensures Sidecar(t, i) in g.store.files {
      SidecarParses(t, i);
      assert Get(g.store.files, Sidecar(t, i)) == Get(e.store.files, Sidecar(t, i));
    }
  }

  lemma CommitKeepsOtherSidecars(c: Config, e: Engine, q: Request, rev: int, t: string)
    requires ValidSlot(q.slot) && TempName(q.tmp2) && ValidSlot(t) && t != q.slot
    ensures SameSidecars(e.store.files, Commit(c, e, q, rev).engine.store.files, t)
  {
    hide WriteAtomic, Prune;
    var a, g := Prune(e.store, q.slot, c.keep), Commit(c, e, q, rev).engine.store;
    LiveSurvivesCommit(c, e, q, rev, t);
    TempApart(q.slot, rev, q.tmp2);
    WriteLeaves(a, Sidecar(q.slot, rev), IntText(rev) + "\n", q.tmp2);
    forall n | IsSidecar(t, n) ensures Get(g.files, n) == Get(e.store.files, n) {
      forall v ensures n != Sidecar(q.slot, v) { SidecarApart(t, n, q.slot, v, q.tmp2); }
      PruneKeepsFile(e.store, q.slot, c.keep, n);
      SidecarApart(t, n, q.slot, rev, q.tmp2);
      assert Get(g.files, n) == Get(a.files, n);
    }
  }

  lemma StoreKeepsOtherSidecars(c: Config, e: Engine, q: Request, body: string, rev: int, t: string)
    requires ValidSlot(q.slot) && TempName(q.tmp) && TempName(q.tmp2) && ValidSlot(t) && t != q.slot
    ensures SameSidecars(e.store.files, StoreSave(c, e, q, body, rev).engine.store.files, t)
  {
    hide WriteAtomic, Commit;
    var w := WriteAtomic(e.store, Live(q.slot), body, q.tmp);
    LiveWriteKeepsSidecars(e.store, q.slot, body, q.tmp, t);
    FilesApart(q.slot, t, rev);
    FilesApart(t, q.slot, rev);
    TempApart(q.slot, rev, q.tmp);
    TempApart(t, rev, q.tmp);
    WriteLeaves(e.store, Live(q.slot), body, q.tmp);
    assert Get(w.files, Live(t)) == Get(e.store.files, Live(t));
    CommitKeepsOtherSidecars(c, e.(store := w), q, rev, t);
  }

  /** A save, stopped anywhere, leaves every other slot tidy. */
  lemma OtherSlotsStayTidy(sha: string -> string, c: Config, e: Engine, q: Request, t: string)
    requires TempName(q.tmp) && TempName(q.tmp2) && ValidSlot(t) && t != q.slot && Tidy(c, e, t)
    ensures Tidy(c, WriteSave(sha, c, e, q).engine, t)
  {
    var r := WriteSave(sha, c, e, q);
    if r.engine != e {
      var body, rev := WhatIsStored(sha, c, e, q, r);
      StoreKeepsOtherSidecars(c, e, q, body, rev, t);
      TidyDependsOn(c, e, r.engine, t);
    }
  }

  // ----- runs of completed saves and restarts -----

  ghost predicate AllTidy(c: Config, e: Engine) { forall t | ValidSlot(t) :: Tidy(c, e, t) }

  ghost predicate CompletedRun(sha: string -> string, c: Config, e: Engine, events: seq<Event>)
    decreases |events|
  {
    |events| > 0 ==>
      && (events[0].Write? ==> var q := events[0].q;
            Acceptable(e, q) && FreshNames(e, q) && Fits(RevisionOf(e.revisions, q.slot) + 2))
      && CompletedRun(sha, c, Next(sha, c, e, events[0]), events[1..])
  }

  lemma RestartStaysTidy(c: Config, e: Engine)
    requires AllTidy(c, e)
    ensures AllTidy(c, Restart(e))
  {
    forall t | ValidSlot(t) ensures Tidy(c, Restart(e), t) {
      RestartRemembers(c, e, t);
    }
  }

  /** Through any run of completed saves and restarts the sidecars of every slot
      are exactly its live revision and the `keep` before it, the revision
      counters survive the restarts, and the live sidecar is never pruned. */
  lemma {:induction false} CompletedRunsStayTidy(sha: string -> string, c: Config, e: Engine, events: seq<Event>)
    requires Calm(e.store) && AllTidy(c, e) && CompletedRun(sha, c, e, events)
    ensures var g := Run(sha, c, e, events);
      && Calm(g.store) && AllTidy(c, g)
      && forall t | ValidSlot(t) :: RevisionOf(Restart(g).revisions, t) == RevisionOf(g.revisions, t)
    decreases |events|
  {
    if |events| > 0 {
      var g := Next(sha, c, e, events[0]);
      match events[0] {
        case Write(q) =>
          CompletedSaveSlides(sha, c, e, q);
          forall t | ValidSlot(t) ensures Tidy(c, g, t) {
            if t != q.slot { OtherSlotsStayTidy(sha, c, e, q, t); }
          }
        case Reboot => RestartStaysTidy(c, e);
      }
      CompletedRunsStayTidy(sha, c, g, events[1..]);
    } else {
      forall t | ValidSlot(t) ensures RevisionOf(Restart(e).revisions, t) == RevisionOf(e.revisions, t) {
        RestartRemembers(c, e, t);
      }
    }
  }
}
