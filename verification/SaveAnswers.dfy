/** What a save answers, and what one that answers success has stored. */
module SaveAnswers {
  import opened Basics
  import opened Json
  import opened JsonCanonical
  import opened JsonSound
  import opened Numerals
  import opened SaveFile
  import opened SaveSpec
  import opened SaveProofs
  import opened SaveTheorems
  import opened SaveRuns
  import opened SaveRevisions

  /** The request names another revision than the slot's. */
  predicate OutOfDate(e: Engine, q: Request) {
    q.ifRevision.Some? && q.ifRevision.value != RevisionOf(e.revisions, q.slot)
  }

  /** A name that is no slot, a revision that is not the slot's and a payload that is
      no JSON are refused in this order, without a trace; any other save is attempted,
      as the next revision. */
  lemma SaveAnswersExactly(sha: string -> string, c: Config, e: Engine, q: Request)
    ensures var r, current := WriteSave(sha, c, e, q), RevisionOf(e.revisions, q.slot);
      && (r.result == BadSlot <==> !ValidSlot(q.slot))
      && (r.result.Conflict? <==> ValidSlot(q.slot) && OutOfDate(e, q))
      && (r.result.Conflict? ==> r.result.current == current)
      && (r.result == Malformed ==> forall v :: !Writes(q.payload, v))
      && (r.result in {Saved(current + 1), Failed} ==>
            ValidSlot(q.slot) && !OutOfDate(e, q) && exists v, rest :: StartsWith(q.payload, v, rest))
      && (r.result !in {Saved(current + 1), Failed} ==> r.engine == e && r.result != Panicked && !r.result.Saved?)
  {
    hide ValidSlot, Body, StampOf, WriteAtomic, Commit;
    if ParseValue(q.payload).Good? {
      AcceptedIsWritten(q.payload);
      var rev, v := RevisionOf(e.revisions, q.slot) + 1, ParseValue(q.payload).value;
      var w := WriteAtomic(e.store, Live(q.slot), Body(sha, StampOf(c, e.store.files, q), rev, v), q.tmp);
      CommitCounts(c, e.(store := w), q, rev);
    } else {
      forall v ensures !Writes(q.payload, v) { ReadExactlyWhenWritten(q.payload, v); }
    }
  }

  // ----- what is stored -----

  /** What follows the write leaves the slot's two files alone. */
  lemma CommitKeepsSlot(c: Config, e: Engine, q: Request, rev: int)
    requires ValidSlot(q.slot) && TempName(q.tmp2)
    ensures var f, g := e.store.files, Commit(c, e, q, rev).engine.store.files;
      Get(g, Live(q.slot)) == Get(f, Live(q.slot)) && Get(g, Bak(Live(q.slot))) == Get(f, Bak(Live(q.slot)))
  {
    hide WriteAtomic, ValidSlot;
    var revs := Evicted(e.store.files, q.slot, c.keep);
    RemovesOnly(e.store, q.slot, revs);
    forall v ensures Sidecar(q.slot, v) !in {Live(q.slot), Bak(Live(q.slot))} { FilesApart(q.slot, q.slot, v); }
    FilesApart(q.slot, q.slot, rev);
    TempApart(q.slot, rev, q.tmp2);
    WriteLeaves(Prune(e.store, q.slot, c.keep), Sidecar(q.slot, rev), IntText(rev) + "\n", q.tmp2);
  }

  /** A save that answers success is in the file, whatever else was refused: with the
      revision it answers, the payload in canonical form and its checksum, the
      modification time of the request and the creation time of the save it replaces,
      if that can be read; and the file it replaces is the backup. */
  lemma SavedIsStored(sha: string -> string, c: Config, e: Engine, q: Request)
    requires Ready(c, e, q) && WriteSave(sha, c, e, q).result.Saved?
    ensures Canonical(q.payload).Some?
    ensures var r, payload := WriteSave(sha, c, e, q), Canonical(q.payload).value;
      var before, after, live := e.store.files, r.engine.store.files, Live(q.slot);
      var was := if live in before then ParseSave(before[live]) else None;
      var created := if was.Some? && was.value.created != "" then was.value.created else q.now;
      && live in after
      && ParseSave(after[live]) == Some(Header("kobra.save/1", c.saveVersion, c.gameVersion, c.release, created, q.now,
                                               r.result.revision, q.playtime, "sha256:" + sha(payload), q.compression,
                                               payload))
      && r.result.revision == RevisionOf(e.revisions, q.slot) + 1 == RevisionOf(r.engine.revisions, q.slot)
      && (live in before ==> Get(after, Bak(live)) == Get(before, live))
  {
    hide WriteAtomic, Body, Commit, ValidSlot, WellFormed;
    var v := ParseValue(q.payload).value;
    ParsedIsWellFormed(q.payload);
    var rev, s := RevisionOf(e.revisions, q.slot) + 1, StampOf(c, e.store.files, q);
    var w := WriteAtomic(e.store, Live(q.slot), Body(sha, s, rev, v), q.tmp);
    assert WriteSave(sha, c, e, q) == Commit(c, e.(store := w), q, rev);
    TempApart(q.slot, rev, q.tmp);
    WriteLeaves(e.store, Live(q.slot), Body(sha, s, rev, v), q.tmp);
    WrittenReadsBack(sha, s, rev, v);
    CommitKeepsSlot(c, e.(store := w), q, rev);
    CommitCounts(c, e.(store := w), q, rev);
  }

  lemma CommitCounts(c: Config, e: Engine, q: Request, rev: int)
    ensures var r := Commit(c, e, q, rev);
      RevisionOf(r.engine.revisions, q.slot) == rev && r.result in {Saved(rev), Failed}
  {}
}
