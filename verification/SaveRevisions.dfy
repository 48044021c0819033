/** The revision sidecars: a sliding window, and what a restart makes of it. */
module SaveRevisions {
  import opened Basics
  import opened Json
  import opened JsonCanonical
  import opened Numerals
  import opened SaveFile
  import opened SaveSpec
  import opened SaveProofs
  import opened SaveTheorems
  import opened Order
  import T = Text

  // ----- sorting -----

  predicate Ascends(s: seq<int>) { forall i, j | 0 <= i < j < |s| :: s[i] < s[j] }

  predicate NoRepeats(s: seq<int>) { forall i, j | 0 <= i < j < |s| :: s[i] != s[j] }

  lemma {:induction false} InsertAscends(n: int, s: seq<int>)
    requires Ascends(s) && n !in s
    ensures Ascends(Insert(n, s)) && forall x :: x in Insert(n, s) <==> x == n || x in s
  {
    if |s| > 0 {
      assert s == [s[0]] + s[1..];
      if n > s[0] {
        InsertAscends(n, s[1..]);
        var t := Insert(n, s[1..]);
        forall j | 0 <= j < |t| ensures s[0] < t[j] {
          assert t[j] in t;
        }
      }
    }
  }

  lemma {:induction false} AscendingSorts(s: seq<int>)
    requires NoRepeats(s)
    ensures Ascends(Ascending(s)) && forall x :: x in Ascending(s) <==> x in s
  {
    if |s| > 0 {
      assert s == [s[0]] + s[1..];
      AscendingSorts(s[1..]);
      InsertAscends(s[0], Ascending(s[1..]));
    }
  }

  function Range(lo: int, hi: int): (s: seq<int>)
    ensures |s| == if hi < lo then 0 else hi - lo + 1
    ensures forall i | 0 <= i < |s| :: s[i] == lo + i
    decreases hi - lo
  {
    if hi < lo then [] else [lo] + Range(lo + 1, hi)
  }

  lemma HeadIsIn(s: seq<int>)
    ensures s == [] || s[0] in s
  {}

  lemma {:induction false} AscendsIsRange(s: seq<int>, lo: int, hi: int)
    requires Ascends(s) && forall x :: x in s <==> lo <= x <= hi
    ensures s == Range(lo, hi)
    decreases hi - lo
  {
    if hi < lo {
      HeadIsIn(s);
    } else {
      assert lo in s && s[0] in s;
      assert s == [lo] + s[1..];
      forall x ensures x in s[1..] <==> lo + 1 <= x <= hi {
        if x in s[1..] {
          var j :| 0 <= j < |s[1..]| && s[1..][j] == x;
          assert s[0] < s[j + 1] && s[j + 1] in s;
        }
        if lo + 1 <= x <= hi { assert x in s && x != lo; }
      }
      AscendsIsRange(s[1..], lo + 1, hi);
    }
  }

  // ----- sidecar names -----

  predicate IsSidecar(slot: string, name: string) {
    Live(slot) + "." <= name && T.Atoi(name[|Live(slot)| + 1..]).Some?
  }

  /** The sidecars of a slot are those of the revisions lo to hi, and no others. */
  ghost predicate Window(files: Files, slot: string, lo: int, hi: int) {
    Within(files, slot, lo, hi) && forall i | lo <= i <= hi :: Sidecar(slot, i) in files
  }

  lemma SidecarParses(slot: string, rev: int)
    requires Fits(rev)
    ensures IsSidecar(slot, Sidecar(slot, rev))
    ensures OneRev(Sidecar(slot, rev), Live(slot) + ".") == [rev]
  {
    IntTextReads(rev);
    assert Sidecar(slot, rev)[|Live(slot)| + 1..] == IntText(rev);
  }

  lemma {:induction false} RevsFrom(names: seq<string>, prefix: string, v: int)
    ensures v in SidecarRevs(names, prefix) <==> exists n <- names :: OneRev(n, prefix) == [v]
  {
    if |names| > 0 {
      RevsFrom(names[1..], prefix, v);
      assert names == [names[0]] + names[1..];
    }
  }

  lemma {:induction false} RevsDistinct(names: seq<string>, slot: string, lo: int, hi: int)
    requires 0 <= lo && Fits(hi)
    requires forall i, j | 0 <= i < j < |names| :: names[i] != names[j]
    requires forall n <- names :: IsSidecar(slot, n) ==> exists i :: lo <= i <= hi && n == Sidecar(slot, i)
    ensures NoRepeats(SidecarRevs(names, Live(slot) + "."))
  {
    if |names| > 0 {
      var prefix := Live(slot) + ".";
      var rest := SidecarRevs(names[1..], prefix);
      RevsDistinct(names[1..], slot, lo, hi);
      if IsSidecar(slot, names[0]) {
        var v := OneRev(names[0], prefix)[0];
        if v in rest {
          RevsFrom(names[1..], prefix, v);
          var n :| n in names[1..] && OneRev(n, prefix) == [v];
          Named(slot, lo, hi, n, v);
          Named(slot, lo, hi, names[0], v);
          assert false;
        }
      }
    }
  }

  lemma Named(slot: string, lo: int, hi: int, n: string, v: int)
    requires 0 <= lo && Fits(hi) && OneRev(n, Live(slot) + ".") == [v]
    requires IsSidecar(slot, n) ==> exists i :: lo <= i <= hi && n == Sidecar(slot, i)
    ensures lo <= v <= hi && n == Sidecar(slot, v)
  {
    var i :| lo <= i <= hi && n == Sidecar(slot, i);
    SidecarParses(slot, i);
  }

  /** Every sidecar of the slot is one of lo to hi. */
  ghost predicate Within(files: Files, slot: string, lo: int, hi: int) {
    forall n <- files :: IsSidecar(slot, n) ==> exists i :: lo <= i <= hi && n == Sidecar(slot, i)
  }

  lemma RevsWithin(files: Files, slot: string, lo: int, hi: int)
    requires Within(files, slot, lo, hi) && 0 <= lo && Fits(hi)
    ensures var revs := SidecarRevs(Sorted(files.Keys), Live(slot) + ".");
      NoRepeats(revs) && forall v :: v in revs <==> lo <= v <= hi && Sidecar(slot, v) in files
  {
    var names, prefix := Sorted(files.Keys), Live(slot) + ".";
    SortedAllDistinct(files.Keys);
    RevsDistinct(names, slot, lo, hi);
    forall v ensures v in SidecarRevs(names, prefix) <==> lo <= v <= hi && Sidecar(slot, v) in files {
      RevsFrom(names, prefix, v);
      if n :| n in names && OneRev(n, prefix) == [v] { Named(slot, lo, hi, n, v); }
      if lo <= v <= hi && Sidecar(slot, v) in files { SidecarParses(slot, v); assert Sidecar(slot, v) in names; }
    }
  }

  lemma WindowRevs(files: Files, slot: string, lo: int, hi: int)
    requires Window(files, slot, lo, hi) && 0 <= lo && Fits(hi)
    ensures Ascending(SidecarRevs(Sorted(files.Keys), Live(slot) + ".")) == Range(lo, hi)
  {
    RevsWithin(files, slot, lo, hi);
    var revs := SidecarRevs(Sorted(files.Keys), Live(slot) + ".");
    AscendingSorts(revs);
    AscendsIsRange(Ascending(revs), lo, hi);
  }

  // ----- pruning -----

  /** The oldest sidecar kept at revision `rev`. */
  function Low(rev: int, keep: int): int { if keep > 0 && rev > keep then rev - keep else 1 }

  lemma EvictsOldest(files: Files, slot: string, rev: int, keep: int)
    requires 0 <= rev && Fits(rev) && Window(files, slot, Low(rev, keep), rev)
    ensures Evicted(files, slot, keep) == Range(Low(rev, keep), Low(rev + 1, keep) - 1)
  {
    var lo := Low(rev, keep);
    WindowRevs(files, slot, lo, rev);
    if keep > 0 && rev > keep {
      assert Range(lo, rev)[..1] == Range(lo, lo);
    }
  }

  lemma {:induction false} RemovesOnly(w: Store, slot: string, revs: seq<int>)
    ensures var g := RemoveSidecars(w, slot, revs);
      && (forall n | forall v <- revs :: n != Sidecar(slot, v) :: Get(g.files, n) == Get(w.files, n))
      && g.files.Keys <= w.files.Keys && g.script == w.script
    decreases |revs|
  {
    if |revs| > 0 {
      assert revs == [revs[0]] + revs[1..];
      RemovesOnly(Remove(w, Sidecar(slot, revs[0])), slot, revs[1..]);
    }
  }

  /** Every call works from here on. */
  ghost predicate Calm(w: Store) { w.up && forall i | i >= w.clock :: w.script(i).kind == Works }

  lemma {:induction false} RemovesAll(w: Store, slot: string, revs: seq<int>)
    requires Calm(w)
    ensures var g := RemoveSidecars(w, slot, revs);
      Calm(g) && forall v <- revs :: Sidecar(slot, v) !in g.files
    decreases |revs|
  {
    if |revs| > 0 {
      assert revs == [revs[0]] + revs[1..];
      var a := Remove(w, Sidecar(slot, revs[0]));
      RemovesAll(a, slot, revs[1..]);
      RemovesOnly(a, slot, revs[1..]);
    }
  }

  lemma CalmWrite(w: Store, target: string, data: string, tmp: string)
    requires Calm(w) && Names3(target, tmp) && tmp !in w.files
    ensures var g := WriteAtomic(w, target, data, tmp);
      g.err == Ok && Calm(g) && tmp !in g.files && target in g.files
  {
    hide Rotate;
    var ready := w.(files := w.files[tmp := ""][tmp := data], clock := w.clock + 4, err := Ok);
    assert WriteAtomic(w, target, data, tmp) == Rotate(ready, target, tmp);
    CalmRotate(ready, target, tmp);
  }

  lemma CalmRotate(w: Store, target: string, tmp: string)
    requires Calm(w) && Names3(target, tmp) && tmp in w.files
    ensures var g := Rotate(w, target, tmp);
      g.err == Ok && Calm(g) && tmp !in g.files && target in g.files
  {}

  // ----- sidecars and the other files -----

  lemma SidecarShape(slot: string, name: string)
    requires ValidSlot(slot) && IsSidecar(slot, name)
    ensures name[0] == slot[0] && T.IsDigit(name[|name| - 1]) && '.' !in name[|Live(slot)| + 1..]
  {
    var tail := name[|Live(slot)| + 1..];
    assert name == Live(slot) + "." + tail && name[0] == slot[0];
    var digits := if tail[0] == '+' || tail[0] == '-' then tail[1..] else tail;
    assert digits[|digits| - 1] in digits;
    assert tail[|tail| - 1] == digits[|digits| - 1];
    assert '.' in tail ==> '.' in digits;
  }

  lemma TailAfterLastDot(a: string, b: string, x: string, y: string)
    requires a + "." + x == b + "." + y && '.' !in x && '.' !in y
    ensures a == b
  {
    if |a| < |b| { ShorterHeadHasDot(a, b, x, y); }
    if |b| < |a| { ShorterHeadHasDot(b, a, y, x); }
    assert (a + "." + x)[..|a|] == a && (b + "." + y)[..|b|] == b;
  }

  lemma ShorterHeadHasDot(a: string, b: string, x: string, y: string)
    requires a + "." + x == b + "." + y && |a| < |b|
    ensures '.' in x
  {
    assert (b + "." + y)[|b|] == '.';
    assert x[|b| - |a| - 1] == (a + "." + x)[|b|];
  }

  /** A sidecar is no slot's save, backup or temporary file, and has one owner. */
  lemma SidecarApart(slot: string, name: string, other: string, rev: int, tmp: string)
    requires ValidSlot(slot) && IsSidecar(slot, name) && TempName(tmp)
    ensures name !in {Live(other), Bak(Live(other)), Bak(Sidecar(other, rev)), tmp}
    ensures slot != other ==> name != Sidecar(other, rev)
  {
    SidecarShape(slot, name);
    LastOf(other, ".json");
    LastOf(Live(other), ".bak");
    LastOf(Sidecar(other, rev), ".bak");
    if name == Sidecar(other, rev) {
      var tail := name[|Live(slot)| + 1..];
      assert name == Live(slot) + "." + tail;
      NoDots(rev);
      TailAfterLastDot(Live(slot), Live(other), tail, IntText(rev));
      Unsuffixed(slot, other, ".json");
    }
  }

  lemma NoDots(n: int)
    ensures '.' !in IntText(n)
  {
    var d := Decimal(if n < 0 then -n else n);
    assert forall c <- d :: T.IsDigit(c);
  }

  // ----- one save and the sidecars of its slot -----

  /** The revision counter of `slot` is what its files say, and its sidecars are
      the live revision and the `keep` before it. */
  ghost predicate Tidy(c: Config, e: Engine, slot: string) {
    var rev, files := RevisionOf(e.revisions, slot), e.store.files;
    && 0 <= rev && Fits(rev + 1) && Window(files, slot, Low(rev, c.keep), rev)
    && (Live(slot) in files <==> rev > 0)
  }

  lemma LiveWriteKeepsSidecars(w: Store, slot: string, data: string, tmp: string, t: string)
    requires ValidSlot(slot) && ValidSlot(t) && TempName(tmp)
    ensures var g := WriteAtomic(w, Live(slot), data, tmp);
      forall n | IsSidecar(t, n) :: Get(g.files, n) == Get(w.files, n)
  {
    TempApart(slot, 0, tmp);
    WriteLeaves(w, Live(slot), data, tmp);
    forall n | IsSidecar(t, n) ensures Get(WriteAtomic(w, Live(slot), data, tmp).files, n) == Get(w.files, n) {
      SidecarApart(t, n, slot, 0, tmp);
    }
  }

  lemma PruneAndSidecars(w: Store, slot: string, rev: int, keep: int, n: string)
    requires 1 <= rev && Fits(rev) && Window(w.files, slot, Low(rev - 1, keep), rev - 1)
    ensures var a := Prune(w, slot, keep);
      && (n in a.files ==> n in w.files) && a.script == w.script
      && (n in w.files && (forall v | Low(rev - 1, keep) <= v < Low(rev, keep) :: n != Sidecar(slot, v)) ==>
            n in a.files)
  {
    var revs := Evicted(w.files, slot, keep);
    EvictsOldest(w.files, slot, rev - 1, keep);
    RemovesOnly(w, slot, revs);
    if n in w.files && (forall v | Low(rev - 1, keep) <= v < Low(rev, keep) :: n != Sidecar(slot, v)) {
      NotInRange(slot, n, Low(rev - 1, keep), Low(rev, keep));
      assert Get(Prune(w, slot, keep).files, n) == Get(w.files, n);
    }
  }

  lemma NotInRange(slot: string, n: string, lo: int, hi: int)
    requires forall v | lo <= v < hi :: n != Sidecar(slot, v)
    ensures forall v <- Range(lo, hi - 1) :: n != Sidecar(slot, v)
  {}

  lemma SidecarWriteAndSidecars(w: Store, slot: string, rev: int, tmp: string, n: string)
    requires ValidSlot(slot) && TempName(tmp) && Fits(rev) && IsSidecar(slot, n) && n != Sidecar(slot, rev)
    ensures var g := WriteAtomic(w, Sidecar(slot, rev), IntText(rev) + "\n", tmp);
      Get(g.files, n) == Get(w.files, n)
  {
    TempApart(slot, rev, tmp);
    WriteLeaves(w, Sidecar(slot, rev), IntText(rev) + "\n", tmp);
    SidecarApart(slot, n, slot, rev, tmp);
  }

  /** The steps after the write, as seen by one older sidecar. */
  lemma CommitAndSidecars(c: Config, e: Engine, q: Request, rev: int, n: string)
    requires ValidSlot(q.slot) && TempName(q.tmp2) && 1 <= rev && Fits(rev)
    requires Window(e.store.files, q.slot, Low(rev - 1, c.keep), rev - 1)
    requires IsSidecar(q.slot, n) && n != Sidecar(q.slot, rev)
    ensures var f, g := e.store.files, Commit(c, e, q, rev).engine.store.files;
      && (n in g ==> n in f)
      && (n in f && (forall v | Low(rev - 1, c.keep) <= v < Low(rev, c.keep) :: n != Sidecar(q.slot, v)) ==> n in g)
  {
    PruneAndSidecars(e.store, q.slot, rev, c.keep, n);
    SidecarWriteAndSidecars(Prune(e.store, q.slot, c.keep), q.slot, rev, q.tmp2, n);
  }
}
