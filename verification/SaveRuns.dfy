/** Any number of saves and restarts, each save stopped at any call. */
module SaveRuns {
  import opened Basics
  import opened Json
  import opened JsonCanonical
  import opened Numerals
  import opened SaveFile
  import opened SaveSpec
  import opened SaveProofs
  import opened SaveTheorems

  /** The engine's integers fit in 64 bits and the temporary names are its own. */
  predicate Ready(c: Config, e: Engine, q: Request) {
    && 1 <= c.saveVersion && Fits(c.saveVersion) && Fits(RevisionOf(e.revisions, q.slot) + 1)
    && (q.playtime.Some? ==> Fits(q.playtime.value)) && TempName(q.tmp) && TempName(q.tmp2)
  }

  lemma {:induction false} RemovalKeepsReading(sha: string -> string, w: Store, slot: string, revs: seq<int>, t: string)
    ensures var g := RemoveSidecars(w, slot, revs);
      && ReadSave(sha, g.files, t) == ReadSave(sha, w.files, t) && Sound(sha, g.files, t) == Sound(sha, w.files, t)
      && g.script == w.script
    decreases |revs|
  {
    if |revs| > 0 {
      var a := Remove(w, Sidecar(slot, revs[0]));
      FilesApart(slot, t, revs[0]);
      ReadingDependsOn(sha, w.files, a.files, t);
      RemovalKeepsReading(sha, a, slot, revs[1..], t);
    }
  }

  /** Writing another file than the slot's own leaves its reading alone. */
  lemma OtherWriteKeepsReading(sha: string -> string, w: Store, target: string, data: string, tmp: string, t: string)
    requires Names3(target, tmp) && ValidSlot(t) && TempName(tmp)
    requires target !in {Live(t), Bak(Live(t))} && Bak(target) !in {Live(t), Bak(Live(t))}
    ensures var g := WriteAtomic(w, target, data, tmp);
      && ReadSave(sha, g.files, t) == ReadSave(sha, w.files, t) && Sound(sha, g.files, t) == Sound(sha, w.files, t)
      && g.script == w.script
  {
    var g := WriteAtomic(w, target, data, tmp);
    WriteLeaves(w, target, data, tmp);
    TempApart(t, 0, tmp);
    assert Get(g.files, Live(t)) == Get(w.files, Live(t)) && Get(g.files, Bak(Live(t))) == Get(w.files, Bak(Live(t)));
    ReadingDependsOn(sha, w.files, g.files, t);
  }

  /** What follows a successful write does not touch any save. */
  lemma CommitKeepsReading(sha: string -> string, c: Config, e: Engine, q: Request, rev: int, t: string)
    requires ValidSlot(q.slot) && TempName(q.tmp2) && ValidSlot(t)
    ensures var g := Commit(c, e, q, rev).engine.store;
      && ReadSave(sha, g.files, t) == ReadSave(sha, e.store.files, t)
      && Sound(sha, g.files, t) == Sound(sha, e.store.files, t) && g.script == e.store.script
  {
    var revs := Evicted(e.store.files, q.slot, c.keep);
    RemovalKeepsReading(sha, e.store, q.slot, revs, t);
    TempApart(q.slot, rev, q.tmp2);
    FilesApart(q.slot, t, rev);
    OtherWriteKeepsReading(sha, RemoveSidecars(e.store, q.slot, revs), Sidecar(q.slot, rev), IntText(rev) + "\n",
      q.tmp2, t);
  }

  ghost predicate SaveEffect(sha: string -> string, e: Engine, q: Request, r: Written) {
    var before, after := ReadSave(sha, e.store.files, q.slot), ReadSave(sha, r.engine.store.files, q.slot);
    && Sound(sha, r.engine.store.files, q.slot) && OneDevice(r.engine.store)
    && (Canonical(q.payload).None? ==> after == before)
    && (Canonical(q.payload).Some? ==> after in {before, Payload(Canonical(q.payload).value)})
    && (r.result.Saved? ==> Canonical(q.payload).Some? && after == Payload(Canonical(q.payload).value))
  }

  lemma SaveKeepsOrReplaces(sha: string -> string, c: Config, e: Engine, q: Request)
    requires Ready(c, e, q) && OneDevice(e.store) && Sound(sha, e.store.files, q.slot)
    ensures SaveEffect(sha, e, q, WriteSave(sha, c, e, q))
  {
    hide WriteAtomic, Body, Commit, ReadSave, ValidSlot, WellFormed, Sound;
    if ValidSlot(q.slot) && ParseValue(q.payload).Good? {
      var v := ParseValue(q.payload).value;
      ParsedIsWellFormed(q.payload);
      var rev, s := RevisionOf(e.revisions, q.slot) + 1, StampOf(c, e.store.files, q);
      WriteKeepsOrReplaces(sha, e.store, q.slot, s, rev, v, q.tmp);
      var w := WriteAtomic(e.store, Live(q.slot), Body(sha, s, rev, v), q.tmp);
      CommitKeepsReading(sha, c, e.(store := w), q, rev, q.slot);
    }
  }

  lemma StoreKeepsOthers(sha: string -> string, c: Config, e: Engine, q: Request, body: string, rev: int, t: string)
    requires ValidSlot(q.slot) && TempName(q.tmp) && TempName(q.tmp2) && ValidSlot(t) && t != q.slot
    ensures var g := StoreSave(c, e, q, body, rev).engine.store;
      && ReadSave(sha, g.files, t) == ReadSave(sha, e.store.files, t)
      && Sound(sha, g.files, t) == Sound(sha, e.store.files, t) && g.script == e.store.script
  {
    FilesApart(q.slot, t, 0);
    FilesApart(t, q.slot, 0);
    TempApart(q.slot, 0, q.tmp);
    OtherWriteKeepsReading(sha, e.store, Live(q.slot), body, q.tmp, t);
    CommitKeepsReading(sha, c, e.(store := WriteAtomic(e.store, Live(q.slot), body, q.tmp)), q, rev, t);
  }

  /** A save touches no other slot. */
  lemma SlotsAreIndependent(sha: string -> string, c: Config, e: Engine, q: Request, t: string)
    requires TempName(q.tmp) && TempName(q.tmp2) && ValidSlot(t) && t != q.slot
    ensures var g := WriteSave(sha, c, e, q).engine.store;
      && ReadSave(sha, g.files, t) == ReadSave(sha, e.store.files, t)
      && Sound(sha, g.files, t) == Sound(sha, e.store.files, t) && g.script == e.store.script
  {
    var r := WriteSave(sha, c, e, q);
    if r.engine != e {
      var body, rev := WhatIsStored(sha, c, e, q, r);
      StoreKeepsOthers(sha, c, e, q, body, rev, t);
    }
  }

  /** The client knows the revision, and the payload is JSON. */
  predicate Acceptable(e: Engine, q: Request) {
    && ValidSlot(q.slot) && ParseValue(q.payload).Good?
    && (q.ifRevision == None || q.ifRevision == Some(RevisionOf(e.revisions, q.slot)))
  }

  lemma Stored(sha: string -> string, c: Config, e: Engine, q: Request, r: Written)
    requires r == WriteSave(sha, c, e, q) && (r.engine != e || Acceptable(e, q))
    ensures ValidSlot(q.slot) && ParseValue(q.payload).Good?
    ensures var rev := RevisionOf(e.revisions, q.slot) + 1;
      r == StoreSave(c, e, q, Body(sha, StampOf(c, e.store.files, q), rev, ParseValue(q.payload).value), rev)
  {
    hide Body, StoreSave, StampOf, ParseValue, ValidSlot;
  }

  /** The same, with the text of the save as a name. */
  lemma WhatIsStored(sha: string -> string, c: Config, e: Engine, q: Request, r: Written)
    returns (body: string, rev: int)
    requires r == WriteSave(sha, c, e, q) && (r.engine != e || Acceptable(e, q))
    ensures ValidSlot(q.slot) && rev == RevisionOf(e.revisions, q.slot) + 1 && r == StoreSave(c, e, q, body, rev)
  {
    hide Body, StoreSave, StampOf, ParseValue, ValidSlot, WriteSave;
    Stored(sha, c, e, q, r);
    rev := RevisionOf(e.revisions, q.slot) + 1;
    body := Body(sha, StampOf(c, e.store.files, q), rev, ParseValue(q.payload).value);
  }

  // ----- runs -----

  datatype Event = Write(q: Request) | Reboot

  ghost function Next(sha: string -> string, c: Config, e: Engine, ev: Event): Engine {
    match ev
    case Write(q) => WriteSave(sha, c, e, q).engine
    case Reboot => Restart(e)
  }

  ghost function Run(sha: string -> string, c: Config, e: Engine, events: seq<Event>): Engine
    decreases |events|
  {
    if |events| == 0 then e else Run(sha, c, Next(sha, c, e, events[0]), events[1..])
  }

  ghost predicate LegalRun(sha: string -> string, c: Config, e: Engine, events: seq<Event>)
    decreases |events|
  {
    |events| > 0 ==>
      && (events[0].Write? ==> Ready(c, e, events[0].q))
      && LegalRun(sha, c, Next(sha, c, e, events[0]), events[1..])
  }

  /** What may be read of `slot` after one event: an acknowledged save replaces
      everything before it, any other attempt only adds its payload. */
  ghost function Possible(sha: string -> string, c: Config, e: Engine, ev: Event, slot: string,
                          s: set<Read>): set<Read> {
    if ev.Reboot? || ev.q.slot != slot || Canonical(ev.q.payload).None? then s
    else
      var latest := Payload(Canonical(ev.q.payload).value);
      if WriteSave(sha, c, e, ev.q).result.Saved? then {latest} else s + {latest}
  }

  ghost function Candidates(sha: string -> string, c: Config, e: Engine, events: seq<Event>, slot: string, s: set<Read>)
    : set<Read>
    decreases |events|
  {
    if |events| == 0 then s
    else Candidates(sha, c, Next(sha, c, e, events[0]), events[1..], slot, Possible(sha, c, e, events[0], slot, s))
  }

  /** On one device, whatever is written, refused or cut short, a reader finds
      the last acknowledged payload or one attempted after it. */
  lemma {:induction false} EveryRunReadsACandidate(sha: string -> string, c: Config, e: Engine, events: seq<Event>,
                                                   slot: string, s: set<Read>)
    requires ValidSlot(slot) && OneDevice(e.store) && LegalRun(sha, c, e, events)
    requires Sound(sha, e.store.files, slot) && ReadSave(sha, e.store.files, slot) in s
    ensures ReadSave(sha, Run(sha, c, e, events).store.files, slot) in Candidates(sha, c, e, events, slot, s)
    ensures Sound(sha, Run(sha, c, e, events).store.files, slot)
    decreases |events|
  {
    if |events| > 0 {
      var ev := events[0];
      match ev {
        case Write(q) =>
          if q.slot == slot { SaveKeepsOrReplaces(sha, c, e, q); }
          else { SlotsAreIndependent(sha, c, e, q, slot); }
        case Reboot =>
      }
      EveryRunReadsACandidate(sha, c, Next(sha, c, e, ev), events[1..], slot, Possible(sha, c, e, ev, slot, s));
    }
  }

  lemma {:induction false} CandidatesArePayloads(sha: string -> string, c: Config, e: Engine, events: seq<Event>,
                                                 slot: string, s: set<Read>)
    requires forall r <- s :: r.Payload?
    ensures forall r <- Candidates(sha, c, e, events, slot, s) :: r.Payload?
    decreases |events|
  {
    if |events| > 0 {
      CandidatesArePayloads(sha, c, Next(sha, c, e, events[0]), events[1..], slot,
        Possible(sha, c, e, events[0], slot, s));
    }
  }

  /** Once a payload has been readable, no run makes the slot unreadable. */
  lemma NeverLost(sha: string -> string, c: Config, e: Engine, events: seq<Event>, slot: string)
    requires ValidSlot(slot) && OneDevice(e.store) && LegalRun(sha, c, e, events)
    requires Sound(sha, e.store.files, slot) && ReadSave(sha, e.store.files, slot).Payload?
    ensures ReadSave(sha, Run(sha, c, e, events).store.files, slot).Payload?
  {
    var s := {ReadSave(sha, e.store.files, slot)};
    EveryRunReadsACandidate(sha, c, e, events, slot, s);
    CandidatesArePayloads(sha, c, e, events, slot, s);
  }
}
