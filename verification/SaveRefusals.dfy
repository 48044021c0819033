/** What one refused call makes of an atomic write, and which names are slots. */
module SaveRefusals {
  import opened Basics
  import opened SaveSpec
  import opened SaveProofs
  import Names
  import T = Text

  // ----- one refused call -----

  /** From here on exactly call `k` is refused and every other works. */
  ghost predicate OneRefused(w: Store, k: nat) {
    w.up && forall n | n >= w.clock :: w.script(n).kind == if n == k then Refused else Works
  }

  /** A write in which one call is refused leaves no temporary file. It fails only if
      that call creates, fills or syncs the temporary file, moves the old file aside or
      moves the new one in, and then the old file is still there, as the backup in the
      last case; a backup that cannot be dropped and a directory that cannot be synced
      do not matter. */
  lemma OneRefusalOfAWrite(w: Store, k: nat, target: string, data: string, tmp: string)
    requires OneRefused(w, k) && k >= w.clock && Names3(target, tmp) && tmp !in w.files && target != Bak(target)
    ensures var g, existed := WriteAtomic(w, target, data, tmp), target in w.files;
      var last := w.clock + if existed then 6 else 4;
      && g.up && tmp !in g.files
      && (g.err == Ok <==> k >= w.clock + 4 && k != last && !(existed && k == w.clock + 5))
      && (g.err != Ok && k != last ==> Get(g.files, target) == Get(w.files, target))
      && (g.err != Ok && k == last ==>
            target !in g.files && Get(g.files, Bak(target)) == Get(w.files, if existed then target else Bak(target)))
  {
    hide Rotate;
    var a := Quiet(w);
    if a.err == Ok {
      var b := CreateNew(a, tmp);
      if b.err == Ok {
        var c := Fill(b, tmp, data);
        if c.err == Ok {
          var d := Quiet(c);
          if d.err == Ok { RotateOneRefused(d, k, target, tmp); }
        }
      }
    }
  }

  lemma RotateOneRefused(w: Store, k: nat, target: string, tmp: string)
    requires OneRefused(w, k) && k >= w.clock && Names3(target, tmp) && tmp in w.files && target != Bak(target)
    ensures var g, existed := Rotate(w, target, tmp), target in w.files;
      var last := w.clock + if existed then 2 else 0;
      && g.up && tmp !in g.files
      && (g.err == Ok <==> k != last && !(existed && k == w.clock + 1))
      && (g.err != Ok && k != last ==> Get(g.files, target) == Get(w.files, target))
      && (g.err != Ok && k == last ==>
            target !in g.files && Get(g.files, Bak(target)) == Get(w.files, if existed then target else Bak(target)))
  {
    hide Install;
    if target in w.files {
      var b := Remove(w, Bak(target));
      var a := Rename(b, target, Bak(target));
      if a.err == Ok { InstallOneRefused(a, k, target, tmp); }
    } else {
      InstallOneRefused(w, k, target, tmp);
    }
  }

  lemma InstallOneRefused(w: Store, k: nat, target: string, tmp: string)
    requires OneRefused(w, k) && tmp in w.files && target !in w.files && tmp != target
    ensures var g := Install(w, target, tmp);
      && g.up && (g.err == Ok <==> k != w.clock)
      && g.files == if g.err == Ok then (w.files - {tmp})[target := w.files[tmp]] else w.files - {tmp}
  {}

  /** The rename meets another device, and of the calls that copy instead one is
      refused. */
  ghost predicate CopyRefused(w: Store, k: nat) {
    && w.up && k > w.clock
    && forall n | n >= w.clock ::
         w.script(n).kind == if n == w.clock then OtherDevice else if n == k then Refused else Works
  }

  /** A copy in place of a rename leaves no torn file when one of its calls is refused:
      the whole file or none, and no temporary one. */
  lemma OneRefusalOfACopy(w: Store, k: nat, target: string, tmp: string)
    requires CopyRefused(w, k) && tmp in w.files && target !in w.files && tmp != target
    ensures var g := Install(w, target, tmp);
      && g.up && tmp !in g.files && Get(g.files, target) in {None, Get(w.files, tmp)}
      && (g.err == Ok ==> Get(g.files, target) == Get(w.files, tmp))
  {
    hide CopyInto;
    var a := Rename(w, tmp, target);
    var b := Quiet(a);
    if b.err == Ok {
      var c := Truncate(b, target);
      if c.err == Ok { CopyIntoOneRefused(c, k, tmp, target); }
    }
  }

  lemma CopyIntoOneRefused(w: Store, k: nat, src: string, dst: string)
    requires OneRefused(w, k) && src in w.files && dst in w.files && src != dst
    ensures var g := CopyInto(w, src, dst);
      && OneRefused(g, k) && (g.err != Ok ==> k < g.clock)
      && Get(g.files, dst) in {None, Get(w.files, src)} && (g.err == Ok ==> src !in g.files)
      && (g.err == Ok ==> Get(g.files, dst) == Get(w.files, src))
  {}

  // ----- slots -----

  /** Device names, as a slot would have to spell them. */
  const DEVICES := {"con", "prn", "aux", "nul",
                    "com1", "com2", "com3", "com4", "com5", "com6", "com7", "com8", "com9",
                    "lpt1", "lpt2", "lpt3", "lpt4", "lpt5", "lpt6", "lpt7", "lpt8", "lpt9"}

  predicate Alphanumeric(c: char) { 'a' <= c <= 'z' || '0' <= c <= '9' }

  /** A slot is named by 1 to 64 lower-case letters, digits, dots, dashes and
      underscores, begins with a letter or digit, does not end with a dot, and is no
      device name up to its first dot: so it is one plain file on any system. */
  lemma SlotExactlyWhen(s: string)
    ensures ValidSlot(s) <==>
      && 1 <= |s| <= 64 && Alphanumeric(s[0]) && s[|s| - 1] != '.'
      && (forall c <- s :: Alphanumeric(c) || c in "._-") && Names.BeforeDot(s) !in DEVICES
  {
    hide DEVICES, ReservedSlot, Names.BeforeDot;
    if s != "" && forall c <- s :: SlotChar(c) {
      assert s[0] in s;
      if Alphanumeric(s[0]) { ReservedExactlyWhen(s); }
    }
  }

  lemma ReservedExactlyWhen(s: string)
    requires s != "" && Alphanumeric(s[0]) && forall c <- s :: SlotChar(c)
    ensures ReservedSlot(s) <==> Names.BeforeDot(s) in DEVICES
  {
    hide DEVICES, Names.Device, Names.Upper, Names.TrimRightOf;
    var head := Names.BeforeDot(s);
    HeadIsPart(s);
    NoTrailingBlank(head);
    DeviceExactlyWhen(head);
    assert s[0] in s;
  }

  lemma {:induction false} HeadIsPart(s: string)
    ensures Names.BeforeDot(s) <= s
  {
    if s != "" && s[0] != '.' {
      HeadIsPart(s[1..]);
      assert s == [s[0]] + s[1..];
    }
  }

  lemma NoTrailingBlank(s: string)
    requires forall c <- s :: SlotChar(c)
    ensures Names.TrimRightOf(s, " ") == s
  {
    if s != "" { assert s[|s| - 1] in s; }
  }

  lemma DeviceExactlyWhen(s: string)
    requires forall c <- s :: SlotChar(c)
    ensures Names.Device(Names.Upper(s)) <==> s in DEVICES
  {
    hide DEVICES;
    Names.UpperAt(s);
    var u := Names.Upper(s);
    DeviceLengths(s);
    if |s| == 3 { ThreeLetters(s, u); } else if |s| == 4 { FourLetters(s, u); } else { NoDevice(u); }
  }

  lemma DeviceLengths(s: string)
    ensures s in DEVICES ==> |s| == 3 || |s| == 4
  {}

  lemma NoDevice(u: string)
    requires |u| != 3 && |u| != 4
    ensures !Names.Device(u)
  {}

  lemma ThreeLetters(s: string, u: string)
    requires |s| == 3 == |u| && (forall c <- s :: SlotChar(c)) && forall i | 0 <= i < 3 :: u[i] == Names.UpperChar(s[i])
    ensures Names.Device(u) <==> s in DEVICES
  {
    assert s[0] in s && s[1] in s && s[2] in s;
    assert u == [u[0], u[1], u[2]] && s == [s[0], s[1], s[2]];
  }

  lemma FourLetters(s: string, u: string)
    requires |s| == 4 == |u| && (forall c <- s :: SlotChar(c)) && forall i | 0 <= i < 4 :: u[i] == Names.UpperChar(s[i])
    ensures Names.Device(u) <==> s in DEVICES
  {
    assert s[0] in s && s[1] in s && s[2] in s && s[3] in s;
    assert u[..3] == [u[0], u[1], u[2]] && s == [s[0], s[1], s[2], s[3]];
  }
}
