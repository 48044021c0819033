/** What an atomic write can leave behind, call by call. */
module SaveProofs {
  import opened Basics
  import opened SaveSpec

  function Get(f: Files, name: string): Option<string> {
    if name in f then Some(f[name]) else None
  }

  /** Nothing outside `touched` differs. */
  ghost predicate Only(f: Files, g: Files, touched: set<string>) {
    forall n | n !in touched :: Get(g, n) == Get(f, n)
  }

  lemma OnlyTrans(f: Files, g: Files, h: Files, a: set<string>, b: set<string>)
    requires Only(f, g, a) && Only(g, h, b)
    ensures Only(f, h, a + b)
  {
    forall n | n !in a + b ensures Get(h, n) == Get(f, n) {
      assert Get(h, n) == Get(g, n) && Get(g, n) == Get(f, n);
    }
  }

  ghost predicate OneDevice(w: Store) { forall i :: w.script(i).kind != OtherDevice }

  /** The three names one write uses. */
  predicate Names3(target: string, tmp: string) {
    tmp != target && tmp != Bak(target)
  }

  predicate IsPrefix(l: Option<string>, data: string) {
    l.Some? && |l.value| <= |data| && l.value == data[..|l.value|]
  }

  lemma TakeIsPrefix(data: string, n: nat)
    ensures IsPrefix(Some(Take(data, n)), data) && IsPrefix(Some(""), data) && IsPrefix(Some(data), data)
  {}

  // ----- the copy -----

  /** What a copy onto `dst` can leave there. */
  predicate CopyState(l: Option<string>, data: string) { l == None || IsPrefix(l, data) }

  lemma CopyIntoLeaves(w: Store, src: string, dst: string, data: string)
    requires src != dst && Get(w.files, src) == Some(data) && IsPrefix(Get(w.files, dst), data)
    ensures var g := CopyInto(w, src, dst);
      && Only(w.files, g.files, {src, dst}) && CopyState(Get(g.files, dst), data) && g.script == w.script
      && (g.err == Ok ==> g.up && Get(g.files, dst) == Some(data))
  {
    TakeIsPrefix(data, w.script(w.clock).cut);
  }

  lemma CopyOverLeaves(w: Store, src: string, dst: string, data: string)
    requires src != dst && Get(w.files, src) == Some(data) && dst !in w.files
    ensures var g := CopyOver(w, src, dst);
      && Only(w.files, g.files, {src, dst}) && CopyState(Get(g.files, dst), data) && g.script == w.script
      && (g.err == Ok ==> g.up && Get(g.files, dst) == Some(data))
  {
    var a := Quiet(w);
    if a.err == Ok {
      var b := Truncate(a, dst);
      if b.err == Ok {
        TakeIsPrefix(data, 0);
        CopyIntoLeaves(b, src, dst, data);
        OnlyTrans(w.files, b.files, CopyInto(b, src, dst).files, {dst}, {src, dst});
        assert {dst} + {src, dst} == {src, dst};
      }
    }
  }

  // ----- the write -----

  /** After the old file has been moved away: absent, new, or half copied. */
  predicate Fresh(l: Option<string>, data: string, oneDevice: bool) {
    l == None || l == Some(data) || (!oneDevice && IsPrefix(l, data))
  }

  lemma InstallLeaves(w: Store, target: string, tmp: string, data: string)
    requires tmp != target && target !in w.files && Get(w.files, tmp) == Some(data)
    ensures var g := Install(w, target, tmp);
      && Only(w.files, g.files, {target, tmp}) && Fresh(Get(g.files, target), data, OneDevice(w))
      && g.script == w.script
      && (g.err == Ok ==> g.up && Get(g.files, target) == Some(data))
  {
    var a := Rename(w, tmp, target);
    if a.err == CrossDevice {
      assert !OneDevice(w);
      CopyOverLeaves(a, tmp, target, data);
      TakeIsPrefix(data, 0);
    }
  }

  /** The old file and its backup through a rotation stopped anywhere. */
  predicate Rotated(f: Files, g: Files, target: string, data: string, oneDevice: bool) {
    var l, b := Get(f, target), Get(f, Bak(target));
    var l', b' := Get(g, target), Get(g, Bak(target));
    || (l' == l && b' == b)
    || (l.Some? && l' == l && b' == None)
    || (b' == (if l.Some? then l else b) && Fresh(l', data, oneDevice))
  }

  /** A successful write leaves the new file and the old one as its backup. */
  predicate Done(f: Files, g: Files, target: string, data: string) {
    && Get(g, target) == Some(data)
    && Get(g, Bak(target)) == (if target in f then Get(f, target) else Get(f, Bak(target)))
  }

  ghost predicate Outcome(w: Store, g: Store, target: string, data: string, tmp: string) {
    && Only(w.files, g.files, {target, Bak(target), tmp})
    && Rotated(w.files, g.files, target, data, OneDevice(w))
    && g.script == w.script
    && (g.err == Ok ==> g.up && Done(w.files, g.files, target, data))
  }

  lemma RotateLeaves(w: Store, target: string, tmp: string, data: string)
    requires Names3(target, tmp) && Get(w.files, tmp) == Some(data)
    ensures Outcome(w, Rotate(w, target, tmp), target, data, tmp)
  {
    var bak := Bak(target);
    if target !in w.files {
      InstallLeaves(w, target, tmp, data);
    } else {
      var a := Rename(Remove(w, bak), target, bak);
      if a.err == Ok {
        assert target !in a.files && Get(a.files, tmp) == Some(data);
        assert Only(w.files, a.files, {target, bak});
        InstallLeaves(a, target, tmp, data);
        OnlyTrans(w.files, a.files, Install(a, target, tmp).files, {target, bak}, {target, tmp});
        assert {target, bak} + {target, tmp} == {target, bak, tmp};
      }
    }
  }

  /** Preparing the temporary file leaves everything else alone. */
  lemma OutcomeAfterTemp(w: Store, v: Store, g: Store, target: string, data: string, tmp: string)
    requires Names3(target, tmp) && Only(w.files, v.files, {tmp}) && v.script == w.script
    requires Outcome(v, g, target, data, tmp)
    ensures Outcome(w, g, target, data, tmp)
  {
    OnlyTrans(w.files, v.files, g.files, {tmp}, {target, Bak(target), tmp});
    assert {tmp} + {target, Bak(target), tmp} == {target, Bak(target), tmp};
    assert Get(v.files, target) == Get(w.files, target) && Get(v.files, Bak(target)) == Get(w.files, Bak(target));
  }

  lemma NothingDone(w: Store, g: Store, target: string, data: string, tmp: string)
    requires Names3(target, tmp) && Only(w.files, g.files, {tmp}) && g.script == w.script && g.err != Ok
    ensures Outcome(w, g, target, data, tmp)
  {
    assert Get(g.files, target) == Get(w.files, target) && Get(g.files, Bak(target)) == Get(w.files, Bak(target));
  }

  lemma WriteTempLeaves(w: Store, target: string, data: string, tmp: string)
    requires Names3(target, tmp)
    ensures Outcome(w, WriteTemp(w, target, data, tmp), target, data, tmp)
  {
    var a := Fill(w, tmp, data);
    var b := if a.err == Ok then Quiet(a) else a;
    if b.err == Ok {
      RotateLeaves(b, target, tmp, data);
      OutcomeAfterTemp(w, b, Rotate(b, target, tmp), target, data, tmp);
    } else {
      NothingDone(w, GiveUp(b, tmp), target, data, tmp);
    }
  }

  lemma WriteLeaves(w: Store, target: string, data: string, tmp: string)
    requires Names3(target, tmp)
    ensures Outcome(w, WriteAtomic(w, target, data, tmp), target, data, tmp)
  {
    hide WriteTemp, Outcome;
    var a := Quiet(w);
    var b := if a.err == Ok then CreateNew(a, tmp) else a;
    if b.err == Ok {
      WriteTempLeaves(b, target, data, tmp);
      OutcomeAfterTemp(w, b, WriteTemp(b, target, data, tmp), target, data, tmp);
    } else {
      NothingDone(w, b, target, data, tmp);
    }
  }
}
