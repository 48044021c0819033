/** The two readers of a configuration. A launch decodes the file itself; the merge
    decodes it into untyped values first. They read numbers differently: so the
    merge may refuse, or change, what the launcher runs with. */
module ConfigLaunch {
  import opened Basics
  import opened Json
  import opened ConfigMerge
  import opened ConfigSchema
  import opened ConfigOrigins
  import opened ConfigHistories

  /** One schema as the launch (`t`) and as the merge (`s`) reads it. Only leaves
      neither owned by the release nor omitted when empty may be read differently,
      and what the merge writes both read as written. */
  ghost predicate SameSchema(t: Shape, s: Shape) {
    match (t, s)
    case (Leaf(launch, d, o), Leaf(read, e, p)) =>
      d == e && o == p && (o ==> t == s) && forall w | read(w).Some? :: launch(read(w).value) == read(w)
    case (Table(_, _), Table(_, _)) => t == s
    case (Struct(ts), Struct(ss)) =>
      ts.Keys == ss.Keys && forall k <- ts :: SameSchema(ts[k], ss[k]) && (k in OWNED ==> ts[k] == ss[k])
    case _ => false
  }

  lemma {:induction false} SameAt(t: Shape, s: Shape, p: Path)
    requires SameSchema(t, s)
    ensures ShapeAt(t, p).Some? <==> ShapeAt(s, p).Some?
    ensures ShapeAt(t, p).Some? ==> SameSchema(ShapeAt(t, p).value, ShapeAt(s, p).value)
    decreases |p|
  {
    if |p| > 0 && t.Struct? && p[0] in t.members { SameAt(t.members[p[0]], s.members[p[0]], p[1..]); }
  }

  lemma {:induction false} OwnedIsSame(t: Shape, s: Shape, p: Path)
    requires SameSchema(t, s) && ShapeAt(t, p).Some? && OwnedAt(p)
    ensures ShapeAt(t, p) == ShapeAt(s, p)
    decreases |p|
  {
    if |p| > 1 {
      assert p[1..][|p| - 2] == p[|p| - 1];
      OwnedIsSame(t.members[p[0]], s.members[p[0]], p[1..]);
    } else {
      assert p[1..] == [];
    }
  }

  /** The launch accepts what the merge wrote, as it is written. */
  lemma {:induction false} LaunchReadsWritten(t: Shape, s: Shape, v: Option<Value>)
    requires SameSchema(t, s) && Sound(s) && !Rewrite(s, v).Refused?
    ensures Rewrite(t, Written(Rewrite(s, v))) == Rewrite(s, v)
  {
    RewriteIsStable(s, v);
    match s
    case Leaf(read, default, omitEmpty) =>
    case Table(ok, defaults) =>
    case Struct(members) =>
      var w := Written(Rewrite(s, v));
      var fields := if v.Some? then v.value.fields else map[];
      var again := w.value.fields;
      forall k | k in members
        ensures Given(again, k) == Written(Rewrite(members[k], Given(fields, k)))
        ensures Rewrite(t.members[k], Given(again, k)) == Rewrite(members[k], Given(fields, k))
      {
        LaunchReadsWritten(t.members[k], members[k], Given(fields, k));
      }
      assert Rewrite(t, w).value.fields == again;
  }

  /** After any history with an installed release, the next launch accepts the
      document and runs with exactly what it says. */
  lemma LaunchReadsInstalled(t: Schema, s: Schema, l: Doc, releases: seq<Doc>)
    requires SameSchema(t, s) && Sound(s) && Installed(s, l, releases)
    ensures Rewrite(t, Some(History(s, l, releases))) == Kept(History(s, l, releases))
  {
    InstalledIsStable(s, l, releases);
    LaunchReadsWritten(t, s, Some(History(s, l, releases)));
  }

  // ----- which updates are refused -----

  lemma {:induction false} NothingIsSame(t: Shape, s: Shape)
    requires SameSchema(t, s)
    ensures Rewrite(t, None).Refused? <==> Rewrite(s, None).Refused?
  {
    match t
    case Struct(members) =>
      forall k | k in members ensures Rewrite(members[k], None).Refused? <==> Rewrite(s.members[k], None).Refused? {
        NothingIsSame(members[k], s.members[k]);
      }
    case _ =>
  }

  /** A merge that is accepted could read all of the local file. */
  lemma {:induction false} AcceptedIsReadable(t: Schema, s: Schema, l: Doc, r: Doc)
    requires SameSchema(t, s) && Sound(t) && Sound(s) && Valid(t, l) && Accepted(s, l, r)
    ensures Valid(s, l)
    decreases s
  {
    hide Sound, Merge, MergeAt;
    match s
    case Struct(members) =>
      forall k | k in members ensures !Rewrite(members[k], Given(l.fields, k)).Refused? {
        MemberAccepted(t, l, k);
        match members[k] {
          case Struct(_) =>
            ObjectIsReadable(t, s, l, r, k);
            if Shared(l, r, k) { AcceptedIsReadable(t.members[k], members[k], l.fields[k], r.fields[k]); }
          case _ => LeafIsReadable(t, s, l, r, k);
        }
      }
  }

  lemma LeafIsReadable(t: Schema, s: Schema, l: Doc, r: Doc, k: string)
    requires SameSchema(t, s) && Sound(s) && Valid(t, l) && Accepted(s, l, r) && k in s.members && !s.members[k].Struct?
    ensures !Rewrite(s.members[k], Given(l.fields, k)).Refused?
  {
    MemberAccepted(s, Merge(l, r), k);
    NothingIsSame(t.members[k], s.members[k]);
    hide Merge, Sound;
    if s.members[k].Leaf? && k !in OWNED { LeafChooses(s, l, r, k); }
  }

  lemma ObjectIsReadable(t: Schema, s: Schema, l: Doc, r: Doc, k: string)
    requires SameSchema(t, s) && Sound(t) && Sound(s) && Valid(t, l) && Accepted(s, l, r)
    requires k in s.members && s.members[k].Struct?
    ensures t.members[k].Struct? && SameSchema(t.members[k], s.members[k]) && Sound(t.members[k]) && Sound(s.members[k])
    ensures Shared(l, r, k) ==>
      Valid(t.members[k], l.fields[k]) && Accepted(s.members[k], l.fields[k], r.fields[k])
    ensures !Shared(l, r, k) ==> !Rewrite(s.members[k], Given(l.fields, k)).Refused?
  {
    MemberAccepted(t, l, k);
    MemberAccepted(s, Merge(l, r), k);
    NothingIsSame(t.members[k], s.members[k]);
    StructChooses(s, l, r, k);
    if k in l.fields { KindsAgree(t.members[k], Some(l.fields[k])); }
    hide Merge, Sound;
  }

  /** An update between a local file the launch accepts and a release the merge can
      read is refused for its configuration exactly when the merge cannot read the
      local file. */
  lemma UpdateIsRefusedExactlyWhen(t: Schema, s: Schema, l: Doc, r: Doc)
    requires SameSchema(t, s) && Sound(t) && Sound(s) && Valid(t, l) && Valid(s, r)
    ensures Accepted(s, l, r) <==> Valid(s, l)
  {
    if Valid(s, l) { ValidMergesAreAccepted(s, l, r); }
    if Accepted(s, l, r) { AcceptedIsReadable(t, s, l, r); }
  }

  /** The merge reads every value the document declares. */
  ghost predicate AllRead(s: Shape, v: Value) {
    forall p | LeafAt(s, p) && At(v, p).Some? :: ShapeAt(s, p).value.read(At(v, p).value).Some?
  }

  /** Of a file the launch accepts, the merge can read the whole exactly when it can
      read each declared value. */
  lemma ReadableExactlyWhen(t: Schema, s: Schema, l: Doc)
    requires SameSchema(t, s) && Sound(s) && Valid(t, l)
    ensures Valid(s, l) <==> AllRead(s, l)
  {
    if Valid(s, l) {
      forall p | LeafAt(s, p) && At(l, p).Some? ensures ShapeAt(s, p).value.read(At(l, p).value).Some? {
        RewriteAt(s, Some(l), p);
      }
    }
    if AllRead(s, l) { AllReadIsValid(t, s, Some(l)); }
  }

  lemma AllReadBelow(s: Schema, v: Value, k: string)
    requires AllRead(s, v) && k in s.members && v.Obj? && k in v.fields
    ensures AllRead(s.members[k], v.fields[k])
  {
    forall p | LeafAt(s.members[k], p) && At(v.fields[k], p).Some?
      ensures ShapeAt(s.members[k], p).value.read(At(v.fields[k], p).value).Some?
    {
      assert ([k] + p)[1..] == p;
      assert LeafAt(s, [k] + p) && At(v, [k] + p) == At(v.fields[k], p);
    }
  }

  lemma {:induction false} AllReadIsValid(t: Shape, s: Shape, v: Option<Value>)
    requires SameSchema(t, s) && !Rewrite(t, v).Refused? && (v.Some? ==> AllRead(s, v.value))
    ensures !Rewrite(s, v).Refused?
    decreases s
  {
    match s
    case Leaf(_, _, _) => if v.Some? { assert LeafAt(s, []) && At(v.value, []) == v; }
    case Table(_, _) =>
    case Struct(members) =>
      var fields := if v.Some? then v.value.fields else map[];
      forall k | k in members ensures !Rewrite(members[k], Given(fields, k)).Refused? {
        if k in fields { AllReadBelow(s, v.value, k); }
        assert !Rewrite(t.members[k], Given(fields, k)).Refused?;
        AllReadIsValid(t.members[k], members[k], Given(fields, k));
      }
  }

  // ----- which local settings are safe -----

  /** The merge reads the declared value as the launch does. */
  predicate ReadAlike(t: Schema, s: Schema, l: Doc, p: Path)
    requires LeafAt(t, p) && LeafAt(s, p)
  {
    At(l, p).Some? ==> ShapeAt(s, p).value.read(At(l, p).value) == ShapeAt(t, p).value.read(At(l, p).value)
  }

  /** Both readers accept every release. */
  ghost predicate AllValid(t: Schema, s: Schema, releases: seq<Doc>) {
    forall r <- releases :: Valid(t, r) && Valid(s, r)
  }

  /** What the launch runs with stays through every sequence of valid releases. */
  ghost predicate Safe(t: Schema, s: Schema, l: Doc, p: Path)
    requires LeafAt(t, p)
  {
    forall releases | AllValid(t, s, releases) :: Setting(t, History(s, l, releases), p) == Setting(t, l, p)
  }

  /** After an installed release the launch runs with what the merge reads. */
  lemma SettingAfter(t: Schema, s: Schema, l: Doc, releases: seq<Doc>, p: Path)
    requires SameSchema(t, s) && Sound(s) && Installed(s, l, releases) && LeafAt(t, p) && LeafAt(s, p)
    ensures Setting(t, History(s, l, releases), p) == Setting(s, History(s, l, releases), p)
  {
    var h := History(s, l, releases);
    SameAt(t, s, p);
    SoundAt(s, p);
    InstalledIsStable(s, l, releases);
    hide Sound, SameSchema, History, Installed;
    RewriteAt(s, Some(h), p);
    ReadsAgree(ShapeAt(t, p).value, ShapeAt(s, p).value, At(h, p));
  }

  lemma ReadsAgree(t: Shape, s: Shape, v: Option<Value>)
    requires t.Leaf? && s.Leaf? && SameSchema(t, s) && Sound(s) && v == Written(Rewrite(s, v))
      && !Rewrite(s, v).Refused?
    ensures (if v.Some? then t.read(v.value) else t.default) == (if v.Some? then s.read(v.value) else s.default)
  {}

  lemma {:induction false} NeverInstalled(t: Schema, s: Schema, l: Doc, releases: seq<Doc>)
    requires SameSchema(t, s) && Sound(t) && Sound(s) && Valid(t, l) && !Valid(s, l)
    ensures History(s, l, releases) == l
    decreases |releases|
  {
    if |releases| > 0 {
      var before, last := releases[..|releases| - 1], releases[|releases| - 1];
      NeverInstalled(t, s, l, before);
      if Accepted(s, l, last) { AcceptedIsReadable(t, s, l, last); }
    }
  }

  /** Where both readers agree on a leaf, later settings may be followed with either. */
  lemma SettingsAgree(t: Schema, s: Schema, l: Doc, releases: seq<Doc>, p: Path)
    requires SameSchema(t, s) && Sound(s) && LeafAt(t, p) && LeafAt(s, p) && At(l, p).Some? && ReadAlike(t, s, l, p)
    ensures Setting(t, History(s, l, releases), p) == Setting(s, History(s, l, releases), p)
    ensures Setting(t, l, p) == Setting(s, l, p)
  {
    hide SameSchema, Sound, History;
    if Installed(s, l, releases) { SettingAfter(t, s, l, releases, p); }
    else { NothingInstalled(s, l, releases, ""); }
  }

  lemma MisreadIsChanged(t: Schema, s: Schema, l: Doc, p: Path)
    requires SameSchema(t, s) && Sound(s) && LeafAt(t, p) && LeafAt(s, p) && Valid(t, l) && Valid(s, l)
    requires At(l, p).Some? && !ReadAlike(t, s, l, p)
    ensures Setting(t, Update(s, l, l), p) == ShapeAt(s, p).value.read(At(l, p).value)
    ensures !Safe(t, s, l, p)
  {
    SameAt(t, s, p);
    SoundAt(s, p);
    ValidMergesAreAccepted(s, l, l);
    LeafUpdates(s, l, l, p);
    ShortHistories(s, l, l, l);
    assert AllValid(t, s, [l]) && Setting(t, History(s, l, [l]), p) != Setting(t, l, p);
  }

  lemma ReadAlikeIsSafe(t: Schema, s: Schema, l: Doc, p: Path, releases: seq<Doc>)
    requires SameSchema(t, s) && Sound(s) && LeafAt(t, p) && LeafAt(s, p) && Valid(s, l)
    requires At(l, p).Some? && ReadAlike(t, s, l, p)
    requires (!OwnedAt(p) && !DroppedAsEmpty(t, l, p)) || !Contested(t, l, p)
    ensures Setting(t, History(s, l, releases), p) == Setting(t, l, p)
  {
    SameAt(t, s, p);
    SettingsAgree(t, s, l, releases, p);
    RewriteAt(s, Some(l), p);
    if !OwnedAt(p) && !DroppedAsEmpty(t, l, p) {
      DeclaredStays(s, l, releases, p);
    } else {
      assert !Contested(s, l, p) by { UncontestedBoth(t, s, l, p); }
      UncontestedStays(s, l, releases, p);
    }
  }

  lemma UncontestedBoth(t: Schema, s: Schema, l: Doc, p: Path)
    requires SameSchema(t, s) && LeafAt(t, p) && LeafAt(s, p) && At(l, p).Some? && ReadAlike(t, s, l, p)
    ensures Contested(s, l, p) ==> Contested(t, l, p)
  {
    SameAt(t, s, p);
    if Contested(s, l, p) {
      var w :| ShapeAt(s, p).value.read(w).Some? && ShapeAt(s, p).value.read(w) != Setting(s, l, p);
      var y := ShapeAt(s, p).value.read(w).value;
      assert ShapeAt(t, p).value.read(y) == Some(y);
    }
  }

  lemma OwnedIsContested(t: Schema, s: Schema, l: Doc, p: Path, w: Value)
    requires SameSchema(t, s) && Sound(t) && Sound(s) && LeafAt(t, p) && Valid(t, l) && Valid(s, l) && OwnedAt(p)
    requires ShapeAt(t, p).value.read(w).Some? && ShapeAt(t, p).value.read(w) != Setting(t, l, p)
    ensures !Safe(t, s, l, p)
  {
    OwnedIsSame(t, s, p);
    var r := Merge(l, Lone(p, w));
    Declares(t, l, p, w);
    Declares(s, l, p, w);
    hide Merge, At, ShapeAt, Sound, Valid, SameSchema;
    OwnedIsOverwritten(s, l, r, p);
    ShortHistories(s, l, r, r);
    assert AllValid(t, s, [r]) && Setting(t, History(s, l, [r]), p) != Setting(t, l, p);
  }

  lemma OmittedIsSame(t: Schema, s: Schema, p: Path)
    requires SameSchema(t, s) && LeafAt(t, p) && ShapeAt(t, p).value.omitEmpty
    ensures ShapeAt(t, p) == ShapeAt(s, p)
  {
    SameAt(t, s, p);
  }

  lemma UpdatedIsValid(t: Schema, s: Schema, l: Doc, r: Doc)
    requires SameSchema(t, s) && Sound(s) && Valid(s, l) && Valid(s, r)
    ensures Valid(t, Update(s, l, r))
  {
    ValidMergesAreAccepted(s, l, r);
    LaunchReadsWritten(t, s, Some(Merge(l, r)));
  }

  /** Both readers accept the document that declares `w` besides. */
  lemma BothDeclare(t: Schema, s: Schema, d: Doc, p: Path, w: Value)
    requires Sound(t) && Sound(s) && LeafAt(t, p) && ShapeAt(t, p) == ShapeAt(s, p) && Valid(t, d) && Valid(s, d)
    requires ShapeAt(t, p).value.read(w).Some? && At(d, p).None? && |p| > 0
    ensures var r := Merge(d, Lone(p, w)); Valid(t, r) && Valid(s, r) && At(r, p) == Some(w)
  {
    Declares(t, d, p, w);
    Declares(s, d, p, w);
  }

  lemma EmptyIsContested(t: Schema, s: Schema, l: Doc, p: Path, w: Value)
    requires SameSchema(t, s) && Sound(t) && Sound(s) && LeafAt(t, p) && Valid(t, l) && Valid(s, l)
    requires !OwnedAt(p) && At(l, p).Some? && DroppedAsEmpty(t, l, p)
    requires ShapeAt(t, p).value.read(w).Some? && ShapeAt(t, p).value.read(w) != Setting(t, l, p)
    ensures !Safe(t, s, l, p)
  {
    hide SameSchema, Sound, Valid, At, ShapeAt, History, Update, Merge;
    LeafIsBelow(t, p);
    OmittedIsSame(t, s, p);
    var once := Update(s, l, l);
    UpdatedIsValid(t, s, l, l);
    EmptyIsDropped(s, l, l, p);
    var r := Merge(once, Lone(p, w));
    BothDeclare(t, s, once, p, w);
    EmptyIsLost(s, l, l, r, p);
    ShortHistories(s, l, l, r);
    Unsafe(t, s, l, p, [l, r]);
  }

  lemma Unsafe(t: Schema, s: Schema, l: Doc, p: Path, releases: seq<Doc>)
    requires LeafAt(t, p) && (forall r <- releases :: Valid(t, r) && Valid(s, r))
    requires Setting(t, History(s, l, releases), p) != Setting(t, l, p)
    ensures !Safe(t, s, l, p)
  {
    assert AllValid(t, s, releases);
  }

  /** What the launch runs with at a declared local setting is safe from every
      sequence of valid releases exactly when the merge cannot read the local file at
      all, which refuses every update; or it reads the value as the launch does, and
      the setting is neither release-owned nor an empty member that writing omits, or
      the schema leaves no other value to set. */
  lemma LocalSettingIsSafeExactlyWhen(t: Schema, s: Schema, l: Doc, p: Path)
    requires SameSchema(t, s) && Sound(t) && Sound(s) && LeafAt(t, p) && LeafAt(s, p) && Valid(t, l) && At(l, p).Some?
    ensures Safe(t, s, l, p) <==>
      || !Valid(s, l)
      || (ReadAlike(t, s, l, p) && ((!OwnedAt(p) && !DroppedAsEmpty(t, l, p)) || !Contested(t, l, p)))
    ensures Safe(t, s, l, p) ==> forall releases :: Setting(t, History(s, l, releases), p) == Setting(t, l, p)
  {
    hide Sound, SameSchema, At, ShapeAt, Rewrite, OwnedAt, DroppedAsEmpty, Setting;
    if !Valid(s, l) {
      forall releases ensures Setting(t, History(s, l, releases), p) == Setting(t, l, p) {
        NeverInstalled(t, s, l, releases);
      }
    } else if !ReadAlike(t, s, l, p) {
      MisreadIsChanged(t, s, l, p);
    } else if (!OwnedAt(p) && !DroppedAsEmpty(t, l, p)) || !Contested(t, l, p) {
      forall releases ensures Setting(t, History(s, l, releases), p) == Setting(t, l, p) {
        ReadAlikeIsSafe(t, s, l, p, releases);
      }
    } else {
      var w :| ShapeAt(t, p).value.read(w).Some? && ShapeAt(t, p).value.read(w) != Setting(t, l, p);
      if OwnedAt(p) { OwnedIsContested(t, s, l, p, w); } else { EmptyIsContested(t, s, l, p, w); }
    }
  }
}
