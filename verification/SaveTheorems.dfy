/** Saves survive: what a reader finds after any number of writes, each stopped
    anywhere. */
module SaveTheorems {
  import opened Basics
  import opened Json
  import opened JsonCanonical
  import opened Numerals
  import opened SaveFile
  import opened SaveSpec
  import opened SaveProofs
  import T = Text

  // ----- file names -----

  lemma IntTextEnds(n: int)
    ensures IntText(n) != "" && T.IsDigit(IntText(n)[|IntText(n)| - 1])
  {
    var d := Decimal(if n < 0 then -n else n);
    assert d[|d| - 1] in d;
  }

  /** The files of one slot are not those of another, and sidecars are neither. */
  lemma FilesApart(s: string, t: string, rev: int)
    ensures Live(s) != Bak(Live(t))
    ensures s != t ==> Live(s) != Live(t) && Bak(Live(s)) != Bak(Live(t))
    ensures Sidecar(s, rev) !in {Live(t), Bak(Live(t))} && Bak(Sidecar(s, rev)) !in {Live(t), Bak(Live(t))}
  {
    LastOf(s, ".json");
    LastOf(t, ".json");
    LastOf(Live(t), ".bak");
    IntTextEnds(rev);
    LastOf(Live(s) + ".", IntText(rev));
    LastOf(Sidecar(s, rev), ".bak");
    if Live(s) == Live(t) { assert Live(s)[..|s|] == s && Live(t)[..|t|] == t; }
    if Bak(Live(s)) == Bak(Live(t)) { Unsuffixed(Live(s), Live(t), ".bak"); }
    if Bak(Sidecar(s, rev)) == Bak(Live(t)) { Unsuffixed(Sidecar(s, rev), Live(t), ".bak"); }
  }

  lemma LastOf(s: string, suffix: string)
    requires suffix != ""
    ensures (s + suffix)[|s + suffix| - 1] == suffix[|suffix| - 1]
  {}

  lemma Unsuffixed(a: string, b: string, suffix: string)
    requires a + suffix == b + suffix
    ensures a == b
  {
    assert (a + suffix)[..|a|] == a && (b + suffix)[..|b|] == b;
  }

  predicate TempName(tmp: string) { tmp != "" && tmp[0] == '.' }

  lemma TempApart(slot: string, rev: int, tmp: string)
    requires ValidSlot(slot) && TempName(tmp)
    ensures Names3(Live(slot), tmp) && Names3(Sidecar(slot, rev), tmp)
  {
    assert Live(slot)[0] == slot[0] && Bak(Live(slot))[0] == slot[0];
    assert Sidecar(slot, rev)[0] == slot[0] && Bak(Sidecar(slot, rev))[0] == slot[0];
  }

  // ----- one write -----

  /** No save, or one that passes its integrity check. */
  ghost predicate Sound(sha: string -> string, files: Files, slot: string) {
    Live(slot) in files ==> Checked(sha, files[Live(slot)])
  }

  lemma ReadingDependsOn(sha: string -> string, f: Files, g: Files, slot: string)
    requires Get(f, Live(slot)) == Get(g, Live(slot)) && Get(f, Bak(Live(slot))) == Get(g, Bak(Live(slot)))
    ensures ReadSave(sha, f, slot) == ReadSave(sha, g, slot) && Sound(sha, f, slot) == Sound(sha, g, slot)
  {}

  predicate Legal(slot: string, s: Stamp, rev: int, v: Value, tmp: string) {
    ValidSlot(slot) && Storable(s, rev) && WellFormed(v) && TempName(tmp)
  }

  lemma RotatedReads(sha: string -> string, f: Files, g: Files, slot: string, s: Stamp, rev: int, v: Value, one: bool)
    requires Storable(s, rev) && WellFormed(v) && Sound(sha, f, slot)
    requires Rotated(f, g, Live(slot), Body(sha, s, rev, v), one)
    requires one || ReadSave(sha, f, slot).Payload?
    ensures ReadSave(sha, g, slot) in {ReadSave(sha, f, slot), Payload(Encode(v))}
    ensures one ==> Sound(sha, g, slot)
  {
    var live, bak, body := Live(slot), Bak(Live(slot)), Body(sha, s, rev, v);
    WrittenReadsBack(sha, s, rev, v);
    var l' := Get(g, live);
    if l' != Get(f, live) && IsPrefix(l', body) {
      CutSaveIsNoSave(sha, s, rev, v, |l'.value|);
    }
  }

  /** One write over a sound save, stopped anywhere, copied or renamed: a reader
      finds the old payload or the new one. */
  lemma WriteKeepsOrReplaces(sha: string -> string, w: Store, slot: string, s: Stamp, rev: int, v: Value, tmp: string)
    requires Legal(slot, s, rev, v, tmp) && Sound(sha, w.files, slot)
    requires OneDevice(w) || ReadSave(sha, w.files, slot).Payload?
    ensures var g := WriteAtomic(w, Live(slot), Body(sha, s, rev, v), tmp);
      && ReadSave(sha, g.files, slot) in {ReadSave(sha, w.files, slot), Payload(Encode(v))}
      && (g.err == Ok ==> ReadSave(sha, g.files, slot) == Payload(Encode(v)) && Sound(sha, g.files, slot))
      && (OneDevice(w) ==> Sound(sha, g.files, slot) && OneDevice(g))
  {
    TempApart(slot, rev, tmp);
    WriteLeaves(w, Live(slot), Body(sha, s, rev, v), tmp);
    WrittenReadsBack(sha, s, rev, v);
    var g := WriteAtomic(w, Live(slot), Body(sha, s, rev, v), tmp);
    RotatedReads(sha, w.files, g.files, slot, s, rev, v, OneDevice(w));
  }

  // ----- exactly when a write is safe -----

  ghost predicate Survives(sha: string -> string, files: Files, slot: string, script: nat -> Turn,
                           s: Stamp, rev: int, v: Value, tmp: string)
  {
    Legal(slot, s, rev, v, tmp) ==>
      ReadSave(sha, WriteAtomic(Store(files, script, 0, true, Ok), Live(slot), Body(sha, s, rev, v), tmp).files, slot)
        in {ReadSave(sha, files, slot), Payload(Encode(v))}
  }

  ghost predicate AlwaysSurvives(sha: string -> string, files: Files, slot: string) {
    forall script, s, rev, v, tmp :: Survives(sha, files, slot, script, s, rev, v, tmp)
  }

  /** Works until call `n`, then dies there. */
  function DiesAt(n: nat): nat -> Turn { (i: nat) => Turn(if i < n then Works else Dies, 0) }

  lemma {:induction false} LongestName(files: Files) returns (n: nat)
    ensures forall name <- files :: |name| <= n
    decreases |files|
  {
    n := 0;
    if files != map[] {
      var name :| name in files;
      var rest := LongestName(files - {name});
      n := if rest > |name| then rest else |name|;
      forall other <- files ensures |other| <= n {
        if other != name { assert other in files - {name}; }
      }
    }
  }

  lemma FreshTemp(files: Files) returns (tmp: string)
    ensures TempName(tmp) && tmp !in files
  {
    var n := LongestName(files);
    tmp := seq(n + 1, _ => '.');
  }

  const PLAIN := Stamp(1, "", "", "", "", "", None)

  /** A save that fails its check is lost when the process dies between removing
      the old backup and renaming the save to be the new one. */
  lemma UnsoundIsLost(sha: string -> string, files: Files, slot: string, v: Value, tmp: string)
    requires ValidSlot(slot) && WellFormed(v) && !Sound(sha, files, slot) && TempName(tmp) && tmp !in files
    ensures ReadSave(sha,
                     WriteAtomic(Store(files, DiesAt(5), 0, true, Ok), Live(slot), Body(sha, PLAIN, 1, v), tmp).files,
                     slot) == Unreadable
  {
    var live, bak, body := Live(slot), Bak(Live(slot)), Body(sha, PLAIN, 1, v);
    TempApart(slot, 1, tmp);
    FilesApart(slot, slot, 1);
    var w := Store(files, DiesAt(5), 0, true, Ok);
    var ready := Store(files[tmp := ""][tmp := body], DiesAt(5), 4, true, Ok);
    assert WriteAtomic(w, live, body, tmp) == Rotate(ready, live, tmp);
    var g := Rotate(ready, live, tmp);
    assert g.files == ready.files - {bak};
    assert Get(g.files, live) == Get(files, live);
  }

  /** A readable save survives every write, wherever it stops, exactly when the
      live file is absent or passes its check. */
  lemma SurvivesExactlyWhenSound(sha: string -> string, files: Files, slot: string)
    requires ValidSlot(slot) && ReadSave(sha, files, slot).Payload?
    ensures AlwaysSurvives(sha, files, slot) <==> Sound(sha, files, slot)
  {
    if Sound(sha, files, slot) {
      forall script, s, rev, v, tmp ensures Survives(sha, files, slot, script, s, rev, v, tmp) {
        if Legal(slot, s, rev, v, tmp) {
          WriteKeepsOrReplaces(sha, Store(files, script, 0, true, Ok), slot, s, rev, v, tmp);
        }
      }
    } else {
      var tmp := FreshTemp(files);
      UnsoundIsLost(sha, files, slot, Null, tmp);
      assert Legal(slot, PLAIN, 1, Null, tmp);
      assert !Survives(sha, files, slot, DiesAt(5), PLAIN, 1, Null, tmp);
    }
  }

  function TornCopy(): nat -> Turn {
    (i: nat) => Turn(if i == 6 then OtherDevice else if i < 9 then Works else Dies, 0)
  }

  /** Two interrupted writes across devices can lose a save one could not: the
      first leaves a torn file over a good backup, the second drops the backup. */
  lemma TwoTornCopiesLose(sha: string -> string, files: Files, slot: string, v: Value)
    requires ValidSlot(slot) && WellFormed(v) && Live(slot) in files && Sound(sha, files, slot)
    ensures exists tmp, tmp2 ::
      && TempName(tmp) && TempName(tmp2)
      && var f := WriteAtomic(Store(files, TornCopy(), 0, true, Ok), Live(slot), Body(sha, PLAIN, 1, v), tmp).files;
      && ReadSave(sha, f, slot) == ReadSave(sha, files, slot)
      && var g := WriteAtomic(Store(f, DiesAt(5), 0, true, Ok), Live(slot), Body(sha, PLAIN, 1, v), tmp2).files;
      && ReadSave(sha, g, slot) == Unreadable
  {
    var tmp := FreshTemp(files);
    var f := WriteAtomic(Store(files, TornCopy(), 0, true, Ok), Live(slot), Body(sha, PLAIN, 1, v), tmp).files;
    TornCopyLeaves(sha, files, slot, v, tmp);
    var tmp2 := FreshTemp(f);
    UnsoundIsLost(sha, f, slot, v, tmp2);
  }

  lemma TornCopyLeaves(sha: string -> string, files: Files, slot: string, v: Value, tmp: string)
    requires ValidSlot(slot) && WellFormed(v) && Live(slot) in files && Sound(sha, files, slot)
    requires TempName(tmp) && tmp !in files
    ensures var f := WriteAtomic(Store(files, TornCopy(), 0, true, Ok), Live(slot), Body(sha, PLAIN, 1, v), tmp).files;
      !Sound(sha, f, slot) && ReadSave(sha, f, slot) == ReadSave(sha, files, slot)
  {
    var live, bak, body := Live(slot), Bak(Live(slot)), Body(sha, PLAIN, 1, v);
    TempApart(slot, 1, tmp);
    FilesApart(slot, slot, 1);
    hide Body, Checked;
    TornWrite(files, live, body, tmp);
    assert ParseSave("") == None;
  }

  /** The old file is the backup, and an empty one stands in its place. */
  lemma TornWrite(files: Files, live: string, body: string, tmp: string)
    requires Names3(live, tmp) && live != Bak(live) && tmp !in files && live in files
    ensures var f := WriteAtomic(Store(files, TornCopy(), 0, true, Ok), live, body, tmp).files;
      Get(f, live) == Some("") && Get(f, Bak(live)) == Get(files, live)
  {
    var ready := Store(files[tmp := ""][tmp := body], TornCopy(), 4, true, Ok);
    assert WriteAtomic(Store(files, TornCopy(), 0, true, Ok), live, body, tmp) == Rotate(ready, live, tmp);
    var a := Rename(Remove(ready, Bak(live)), live, Bak(live));
    assert a.clock == 6 && a.err == Ok && live !in a.files;
    assert Get(a.files, Bak(live)) == Get(files, live) && Get(a.files, tmp) == Some(body);
    TornInstall(a, live, tmp);
  }

  lemma TornInstall(a: Store, live: string, tmp: string)
    requires a.up && a.clock == 6 && a.script == TornCopy() && tmp in a.files && live != tmp && live !in a.files
    ensures Install(a, live, tmp).files == a.files[live := ""]
  {
    var b := Truncate(Quiet(Rename(a, tmp, live)), live);
    assert b.clock == 9 && b.files == a.files[live := ""];
    var c := CopyInto(b, tmp, live);
    assert c.files == b.files;
  }

  // ----- what a reader is served -----

  /** A served payload is that of the live file or its backup, and that file passed
      its integrity check, except a backup standing in for a live file that does
      not parse. */
  lemma ReadsAreChecked(sha: string -> string, files: Files, slot: string)
    requires ReadSave(sha, files, slot).Payload?
    ensures exists name <- {Live(slot), Bak(Live(slot))} ::
      && name in files && ParseSave(files[name]).Some? && PayloadOf(files[name]) == ReadSave(sha, files, slot).text
      && (Checked(sha, files[name])
          || (name != Live(slot) && Live(slot) in files && ParseSave(files[Live(slot)]).None?))
  {
    hide ParseSave, Verified;
    var live, bak := Live(slot), Bak(Live(slot));
    assert live != bak;
    if live in files && Checked(sha, files[live]) { assert live in {live, bak}; } else { assert bak in {live, bak}; }
  }

  /** That exception is real: any backup that parses is served in place of a live
      file cut to nothing, whatever its checksum says, but not once the live file
      is gone. */
  lemma UncheckedBackupIsServed(sha: string -> string, slot: string, backup: string)
    requires ParseSave(backup).Some? && !Checked(sha, backup)
    ensures ReadSave(sha, map[Live(slot) := "", Bak(Live(slot)) := backup], slot) == Payload(PayloadOf(backup))
    ensures ReadSave(sha, map[Bak(Live(slot)) := backup], slot) == NotFound
  {
    assert Live(slot) != Bak(Live(slot));
    assert ParseSave("") == None;
  }
}
