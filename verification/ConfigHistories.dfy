/** What a sequence of releases leaves of the local configuration. Each update
    merges, checks and rewrites the document; a refused one leaves it as it was. */
module ConfigHistories {
  import opened Basics
  import opened Json
  import opened ConfigMerge
  import opened ConfigSchema
  import opened ConfigOrigins

  predicate Accepted(s: Schema, l: Doc, r: Doc) { Valid(s, Merge(l, r)) }

  /** MergeConfigInto: the configuration after an update to the release of `r`. */
  function Update(s: Schema, l: Doc, r: Doc): Doc {
    if Accepted(s, l, r) then Rewrite(s, Some(Merge(l, r))).value else l
  }

  function History(s: Schema, l: Doc, releases: seq<Doc>): Doc {
    if |releases| == 0 then l
    else Update(s, History(s, l, releases[..|releases| - 1]), releases[|releases| - 1])
  }

  /** Some update was not refused. */
  predicate Installed(s: Schema, l: Doc, releases: seq<Doc>) {
    && |releases| > 0
    && var before := releases[..|releases| - 1];
       Installed(s, l, before) || Accepted(s, History(s, l, before), releases[|releases| - 1])
  }

  /** The configuration an update leaves is accepted by the next launch and by
      every later check, and writing it again changes nothing. */
  lemma {:induction false} InstalledIsStable(s: Schema, l: Doc, releases: seq<Doc>)
    requires Sound(s) && Installed(s, l, releases)
    ensures Rewrite(s, Some(History(s, l, releases))) == Kept(History(s, l, releases))
  {
    var before, last := releases[..|releases| - 1], releases[|releases| - 1];
    var h := History(s, l, before);
    if Accepted(s, h, last) { RewriteIsStable(s, Some(Merge(h, last))); } else { InstalledIsStable(s, l, before); }
  }

  // ----- one place through one update -----

  predicate OwnedAt(p: Path) { |p| > 0 && p[|p| - 1] in OWNED }

  /** Which side's value the merge takes at a leaf. */
  function Chosen(l: Option<Value>, r: Option<Value>, p: Path): Option<Value> {
    if OwnedAt(p) then if r.Some? then r else l
    else if l.Some? then l else r
  }

  /** An accepted value of a member that is no table is an object where the schema
      has one and nowhere else. */
  lemma KindsAgree(s: Shape, v: Option<Value>)
    requires Sound(s) && !Rewrite(s, v).Refused? && v.Some? && !s.Table?
    ensures v.value.Obj? <==> s.Struct?
  {}

  lemma MemberAccepted(s: Schema, d: Doc, k: string)
    requires Sound(s) && Valid(s, d) && k in s.members
    ensures Sound(s.members[k]) && (k in OWNED ==> !s.members[k].Struct?)
    ensures !Rewrite(s.members[k], Given(d.fields, k)).Refused?
  {}

  /** What both sides hold under `k` where the schema has an object. */
  lemma StructChooses(s: Schema, l: Doc, r: Doc, k: string)
    requires Sound(s) && Accepted(s, l, r) && k in s.members && s.members[k].Struct?
    ensures Shared(l, r, k) ==> Accepted(s.members[k], l.fields[k], r.fields[k])
    ensures Shared(l, r, k) ==> Given(Merge(l, r).fields, k) == Some(Merge(l.fields[k], r.fields[k]))
    ensures !Shared(l, r, k) && k in l.fields ==>
      l.fields[k].Obj? && (k in r.fields ==> !r.fields[k].Obj?) && Merge(l, r).fields[k] == l.fields[k]
    ensures k !in l.fields ==> Given(Merge(l, r).fields, k) == Given(r.fields, k)
  {
    hide Sound;
    MemberAccepted(s, Merge(l, r), k);
    if k in l.fields || k in r.fields {
      MergedKey(l, r, k);
      KindsAgree(s.members[k], Some(Merge(l, r).fields[k]));
      hide Merge;
    }
  }

  lemma LeafChooses(s: Schema, l: Doc, r: Doc, k: string)
    requires Sound(s) && Accepted(s, l, r) && k in s.members && s.members[k].Leaf?
    ensures Given(Merge(l, r).fields, k) == Chosen(Given(l.fields, k), Given(r.fields, k), [k])
  {
    hide Sound;
    MemberAccepted(s, Merge(l, r), k);
    if k in l.fields || k in r.fields {
      MergedKey(l, r, k);
      KindsAgree(s.members[k], Some(Merge(l, r).fields[k]));
    }
  }

  lemma {:induction false} MergeChooses(s: Schema, l: Doc, r: Doc, p: Path)
    requires Sound(s) && LeafAt(s, p) && Accepted(s, l, r)
    ensures At(Merge(l, r), p) == Chosen(At(l, p), At(r, p), p)
    decreases |p|
  {
    hide Sound, Rewrite, Merge, MergeAt;
    var k, rest := p[0], p[1..];
    MemberAccepted(s, Merge(l, r), k);
    assert ShapeAt(s.members[k], rest) == ShapeAt(s, p);
    if |p| == 1 {
      assert rest == [] && p == [k];
      LeafChooses(s, l, r, k);
    } else {
      assert rest[|rest| - 1] == p[|p| - 1];
      StructChooses(s, l, r, k);
      if Shared(l, r, k) { MergeChooses(s.members[k], l.fields[k], r.fields[k], rest); }
    }
  }

  lemma LeafUpdates(s: Schema, l: Doc, r: Doc, p: Path)
    requires Sound(s) && LeafAt(s, p) && Accepted(s, l, r)
    ensures var leaf := Rewrite(ShapeAt(s, p).value, Chosen(At(l, p), At(r, p), p));
      !leaf.Refused? && At(Update(s, l, r), p) == Written(leaf)
  {
    MergeChooses(s, l, r, p);
    RewriteAt(s, Some(Merge(l, r)), p);
  }

  /** Two accepted documents merge to an accepted one. */
  lemma {:induction false} ValidMergesAreAccepted(s: Schema, l: Doc, r: Doc)
    requires Sound(s) && Valid(s, l) && Valid(s, r)
    ensures Accepted(s, l, r)
    decreases s
  {
    hide Sound, Merge, MergeAt;
    var m := Merge(l, r);
    match s
    case Struct(members) =>
      forall k | k in members ensures !Rewrite(members[k], Given(m.fields, k)).Refused? {
        MemberAccepted(s, l, k);
        MemberAccepted(s, r, k);
        MergesBelow(l, r, k);
        if Shared(l, r, k) {
          if members[k].Struct? { ValidMergesAreAccepted(members[k], l.fields[k], r.fields[k]); }
          else { TablesMerge(members[k], l.fields[k], r.fields[k]); }
        }
      }
  }

  lemma MergesBelow(l: Doc, r: Doc, k: string)
    ensures Shared(l, r, k) ==> Given(Merge(l, r).fields, k) == Some(Merge(l.fields[k], r.fields[k]))
    ensures !Shared(l, r, k) ==> Given(Merge(l, r).fields, k) in [Given(l.fields, k), Given(r.fields, k)]
  {
    if k in l.fields || k in r.fields { MergedKey(l, r, k); }
  }

  lemma TablesMerge(s: Shape, l: Doc, r: Doc)
    requires Sound(s) && !s.Struct? && !Rewrite(s, Some(l)).Refused? && !Rewrite(s, Some(r)).Refused?
    ensures !Rewrite(s, Some(Merge(l, r))).Refused?
  {
    if s.Table? {
      var m := Merge(l, r);
      forall e | e in m.fields ensures s.ok(e, m.fields[e]) { MergesBelow(l, r, e); }
    }
  }

  // ----- what the launcher reads -----

  /** The setting in force at a leaf: the document's, or the default. */
  function Setting(s: Schema, d: Doc, p: Path): Option<Value>
    requires LeafAt(s, p)
  {
    var leaf := ShapeAt(s, p).value;
    if At(d, p).Some? then leaf.read(At(d, p).value) else leaf.default
  }

  /** The local document or else the first release it is merged with decides an
      unowned setting, the default failing both, and no later release changes it:
      not even a setting nobody chose. Only members omitted when empty stay open. */
  lemma {:induction false} FirstMergeDecides(s: Schema, l: Doc, r: Doc, releases: seq<Doc>, p: Path)
    requires Sound(s) && LeafAt(s, p) && !OwnedAt(p) && Accepted(s, l, r)
    requires !ShapeAt(s, p).value.omitEmpty || Setting(s, Update(s, l, r), p) != Some(EMPTY)
    ensures At(History(s, Update(s, l, r), releases), p) == Setting(s, if At(l, p).Some? then l else r, p)
    decreases |releases|
  {
    SoundAt(s, p);
    LeafUpdates(s, l, r, p);
    if |releases| > 0 {
      var before, last := releases[..|releases| - 1], releases[|releases| - 1];
      FirstMergeDecides(s, l, r, before, p);
      var h := History(s, Update(s, l, r), before);
      if Accepted(s, h, last) { LeafUpdates(s, h, last, p); }
    }
  }

  // ----- which local settings are safe -----

  /** The place admits a value that sets something else. */
  ghost predicate Contested(s: Schema, d: Doc, p: Path)
    requires LeafAt(s, p)
  {
    var leaf := ShapeAt(s, p).value;
    exists w :: leaf.read(w).Some? && leaf.read(w) != Setting(s, d, p)
  }

  /** An empty value of a member that is omitted when empty. */
  predicate DroppedAsEmpty(s: Schema, d: Doc, p: Path)
    requires LeafAt(s, p)
  {
    ShapeAt(s, p).value.omitEmpty && Setting(s, d, p) == Some(EMPTY)
  }

  lemma {:induction false} DeclaredStays(s: Schema, d: Doc, releases: seq<Doc>, p: Path)
    requires Sound(s) && LeafAt(s, p) && At(d, p).Some? && Setting(s, d, p).Some?
    requires !OwnedAt(p) && !DroppedAsEmpty(s, d, p)
    ensures At(History(s, d, releases), p).Some? && Setting(s, History(s, d, releases), p) == Setting(s, d, p)
    decreases |releases|
  {
    SoundAt(s, p);
    if |releases| > 0 {
      var before, last := releases[..|releases| - 1], releases[|releases| - 1];
      DeclaredStays(s, d, before, p);
      var h := History(s, d, before);
      if Accepted(s, h, last) { LeafUpdates(s, h, last, p); }
    }
  }

  lemma {:induction false} UncontestedStays(s: Schema, d: Doc, releases: seq<Doc>, p: Path)
    requires Sound(s) && LeafAt(s, p) && Setting(s, d, p).Some? && At(d, p).Some? && !Contested(s, d, p)
    ensures Setting(s, History(s, d, releases), p) == Setting(s, d, p)
    decreases |releases|
  {
    SoundAt(s, p);
    if |releases| > 0 {
      var before, last := releases[..|releases| - 1], releases[|releases| - 1];
      UncontestedStays(s, d, before, p);
      var h := History(s, d, before);
      if Accepted(s, h, last) { LeafUpdates(s, h, last, p); }
    }
  }

  /** The document that declares one value. */
  function Lone(p: Path, w: Value): Doc
    requires |p| > 0
  {
    Obj(map[p[0] := if |p| == 1 then w else Lone(p[1..], w)])
  }

  lemma {:induction false} LoneHolds(p: Path, w: Value)
    requires |p| > 0
    ensures At(Lone(p, w), p) == Some(w)
  {
    if |p| > 1 { LoneHolds(p[1..], w); } else { assert p[1..] == []; }
  }

  lemma MergeWithNothing(d: Doc)
    ensures Merge(Obj(map[]), d) == d && Merge(d, Obj(map[])) == d
  {
    assert Merge(Obj(map[]), d).fields == d.fields;
    assert Merge(d, Obj(map[])).fields == d.fields;
  }

  lemma OneMemberMerged(s: Schema, d: Doc, r: Doc, k: string)
    requires Valid(s, d) && r.fields.Keys == {k} && k in s.members
    requires !Rewrite(s.members[k], Some(MergeAt(d, r, k))).Refused?
    ensures Accepted(s, d, r)
  {
    hide MergeAt;
    var m := Merge(d, r);
    forall j | j in s.members ensures !Rewrite(s.members[j], Given(m.fields, j)).Refused? {
      if j != k { MergedElsewhere(d, r, j); } else { MergedKey(d, r, k); }
    }
  }

  lemma MergedElsewhere(d: Doc, r: Doc, j: string)
    requires j !in r.fields
    ensures Given(Merge(d, r).fields, j) == Given(d.fields, j)
  {
    if j in d.fields { MergedKey(d, r, j); }
  }

  lemma NoObjectIsEmpty(s: Schema, v: Option<Value>)
    requires !Rewrite(s, v).Refused?
    ensures v.Some? ==> v.value.Obj?
    ensures Rewrite(s, Some(if v.Some? then v.value else Obj(map[]))).Kept?
  {}

  lemma Steps(s: Schema, d: Doc, p: Path)
    requires ShapeAt(s, p).Some? && |p| > 0
    ensures p[0] in s.members && ShapeAt(s.members[p[0]], p[1..]) == ShapeAt(s, p)
    ensures At(d, p) == if p[0] in d.fields then At(d.fields[p[0]], p[1..]) else None
    ensures |p| > 1 ==> s.members[p[0]].Struct?
    ensures |p| == 1 ==> ShapeAt(s, p) == Some(s.members[p[0]]) && (At(d, p).None? ==> p[0] !in d.fields)
  {}

  /** An accepted document stays accepted when one readable value is merged in. */
  lemma {:induction false} LoneIsAccepted(s: Schema, d: Doc, p: Path, w: Value)
    requires Sound(s) && LeafAt(s, p) && Valid(s, d) && ShapeAt(s, p).value.read(w).Some?
    requires OwnedAt(p) || At(d, p).None?
    ensures Accepted(s, d, Lone(p, w))
    decreases |p|
  {
    hide Sound, At, ShapeAt, Valid, LeafAt, OwnedAt, Accepted;
    LeafIsBelow(s, p);
    var k, rest := p[0], p[1..];
    if |p| == 1 {
      LoneHere(s, d, p);
      LeafIsAccepted(s, d, k, w);
    } else {
      LoneBelow(s, d, p);
      LoneIsAccepted(s.members[k], Inner(d, k), rest, w);
      ObjectIsAccepted(s, d, k, Lone(rest, w));
    }
  }

  /** The object under `k`, empty where there is none. */
  function Inner(d: Doc, k: string): Value { if k in d.fields then d.fields[k] else Obj(map[]) }

  lemma LeafIsBelow(s: Schema, p: Path)
    requires LeafAt(s, p)
    ensures |p| > 0
  {}

  lemma LoneHere(s: Schema, d: Doc, p: Path)
    requires LeafAt(s, p) && |p| == 1 && (OwnedAt(p) || At(d, p).None?)
    ensures p[0] in s.members && s.members[p[0]].Leaf? && s.members[p[0]] == ShapeAt(s, p).value
    ensures p[0] in OWNED || p[0] !in d.fields
  {
    hide ShapeAt, At;
    Steps(s, d, p);
  }

  lemma LoneBelow(s: Schema, d: Doc, p: Path)
    requires Sound(s) && LeafAt(s, p) && |p| > 1 && Valid(s, d) && (OwnedAt(p) || At(d, p).None?)
    ensures p[0] in s.members && s.members[p[0]].Struct? && Sound(s.members[p[0]])
    ensures ShapeAt(s.members[p[0]], p[1..]) == ShapeAt(s, p) && LeafAt(s.members[p[0]], p[1..])
    ensures Inner(d, p[0]).Obj? && Valid(s.members[p[0]], Inner(d, p[0]))
    ensures OwnedAt(p[1..]) || At(Inner(d, p[0]), p[1..]).None?
  {
    hide Sound, ShapeAt, Rewrite, At;
    Steps(s, d, p);
    MemberAccepted(s, d, p[0]);
    NoObjectIsEmpty(s.members[p[0]], Given(d.fields, p[0]));
    NowhereInNothing(p[1..]);
    assert p[1..][|p| - 2] == p[|p| - 1];
  }

  lemma LeafIsAccepted(s: Schema, d: Doc, k: string, w: Value)
    requires Sound(s) && k in s.members && s.members[k].Leaf? && s.members[k].read(w).Some?
    requires Valid(s, d) && (k in OWNED || k !in d.fields)
    ensures Accepted(s, d, Obj(map[k := w]))
  {
    var r := Obj(map[k := w]);
    MemberAccepted(s, d, k);
    assert MergeAt(d, r, k) == w;
    hide MergeAt, Merge, Sound;
    OneMemberMerged(s, d, r, k);
  }

  lemma ObjectIsAccepted(s: Schema, d: Doc, k: string, v: Doc)
    requires Sound(s) && k in s.members && s.members[k].Struct? && Valid(s, d)
    requires k in d.fields ==> d.fields[k].Obj?
    requires Accepted(s.members[k], if k in d.fields then d.fields[k] else Obj(map[]), v)
    ensures Accepted(s, d, Obj(map[k := v]))
  {
    var r := Obj(map[k := v]);
    MemberAccepted(s, d, k);
    if k !in d.fields { MergeWithNothing(v); }
    assert MergeAt(d, r, k) == if k in d.fields then Merge(d.fields[k], v) else v;
    hide MergeAt, Merge, Sound;
    OneMemberMerged(s, d, r, k);
  }

  lemma NowhereInNothing(p: Path)
    ensures At(Obj(map[]), p).Some? ==> |p| == 0
  {}

  lemma ShortHistories(s: Schema, l: Doc, a: Doc, b: Doc)
    ensures History(s, l, [a]) == Update(s, l, a) && History(s, l, [a, b]) == Update(s, Update(s, l, a), b)
  {
    hide Update;
    assert [a, b][..1] == [a] && [a][..0] == [];
  }

  /** The release-owned setting of a release that declares it is the release's. */
  lemma OwnedIsOverwritten(s: Schema, l: Doc, r: Doc, p: Path)
    requires Sound(s) && LeafAt(s, p) && Valid(s, l) && Valid(s, r) && OwnedAt(p) && At(r, p).Some?
    ensures Setting(s, Update(s, l, r), p) == Setting(s, r, p)
  {
    SoundAt(s, p);
    ValidMergesAreAccepted(s, l, r);
    LeafUpdates(s, l, r, p);
  }

  /** The first update drops an empty member, the second installs the release's. */
  lemma EmptyIsLost(s: Schema, l: Doc, r1: Doc, r2: Doc, p: Path)
    requires Sound(s) && LeafAt(s, p) && Valid(s, l) && Valid(s, r1) && Valid(s, r2)
    requires !OwnedAt(p) && At(l, p).Some? && DroppedAsEmpty(s, l, p) && At(r2, p).Some?
    ensures At(Update(s, l, r1), p) == None
    ensures Setting(s, Update(s, Update(s, l, r1), r2), p) == Setting(s, r2, p)
  {
    EmptyIsDropped(s, l, r1, p);
    var once := Update(s, l, r1);
    ValidMergesAreAccepted(s, once, r2);
    AbsentIsTaken(s, once, r2, p);
  }

  lemma EmptyIsDropped(s: Schema, l: Doc, r: Doc, p: Path)
    requires Sound(s) && LeafAt(s, p) && Valid(s, l) && Valid(s, r)
    requires !OwnedAt(p) && At(l, p).Some? && DroppedAsEmpty(s, l, p)
    ensures Valid(s, Update(s, l, r)) && At(Update(s, l, r), p) == None
  {
    ValidMergesAreAccepted(s, l, r);
    RewriteIsStable(s, Some(Merge(l, r)));
    LeafUpdates(s, l, r, p);
  }

  lemma AbsentIsTaken(s: Schema, d: Doc, r: Doc, p: Path)
    requires Sound(s) && LeafAt(s, p) && Accepted(s, d, r) && At(d, p).None? && At(r, p).Some?
    ensures Setting(s, Update(s, d, r), p) == Setting(s, r, p)
  {
    SoundAt(s, p);
    LeafUpdates(s, d, r, p);
  }

  /** An accepted document that declares `w`. */
  lemma Declares(s: Schema, d: Doc, p: Path, w: Value)
    requires Sound(s) && LeafAt(s, p) && Valid(s, d) && ShapeAt(s, p).value.read(w).Some?
    requires OwnedAt(p) || At(d, p).None?
    ensures var r := Merge(d, Lone(p, w)); Valid(s, r) && At(r, p) == Some(w)
  {
    LoneIsAccepted(s, d, p, w);
    LoneHolds(p, w);
    MergeChooses(s, d, Lone(p, w), p);
  }

  // ----- what the release owns -----

  /** The declaration of the latest installed release that has one, the local one
      failing that. */
  function Latest(s: Schema, l: Doc, releases: seq<Doc>, k: string): Option<Value> {
    if |releases| == 0 then Given(l.fields, k)
    else
      var before, last := releases[..|releases| - 1], releases[|releases| - 1];
      if Accepted(s, History(s, l, before), last) && k in last.fields then Some(last.fields[k])
      else Latest(s, l, before, k)
  }

  /** Once a release is installed, a release-owned member is the latest
      declaration as the launcher reads it: a table holds every default entry the
      declaration does not replace. */
  lemma {:induction false} OwnedFollowsLatest(s: Schema, l: Doc, releases: seq<Doc>, k: string)
    requires Sound(s) && Installed(s, l, releases) && k in OWNED && k in s.members
    ensures var latest, held := Latest(s, l, releases, k), Given(History(s, l, releases).fields, k);
      !Rewrite(s.members[k], latest).Refused? && held == Written(Rewrite(s.members[k], latest))
    decreases |releases|
  {
    var before, last := releases[..|releases| - 1], releases[|releases| - 1];
    var h := History(s, l, before);
    if Installed(s, l, before) {
      OwnedFollowsLatest(s, l, before, k);
      RewriteIsStable(s.members[k], Latest(s, l, before, k));
    } else {
      NothingInstalled(s, l, before, k);
    }
    if Accepted(s, h, last) {
      MemberAccepted(s, Merge(h, last), k);
      if k in h.fields || k in last.fields { MergedKey(h, last, k); }
      assert Given(Merge(h, last).fields, k) == if k in last.fields then Some(last.fields[k]) else Given(h.fields, k);
    }
  }

  lemma {:induction false} NothingInstalled(s: Schema, l: Doc, releases: seq<Doc>, k: string)
    requires !Installed(s, l, releases)
    ensures History(s, l, releases) == l && Latest(s, l, releases, k) == Given(l.fields, k)
    decreases |releases|
  {
    if |releases| > 0 { NothingInstalled(s, l, releases[..|releases| - 1], k); }
  }

  /** Entry by entry: no release can take a default entry out of a table. */
  lemma TableFollowsLatest(s: Schema, l: Doc, releases: seq<Doc>, k: string, e: string)
    requires Sound(s) && Installed(s, l, releases) && k in OWNED && k in s.members && s.members[k].Table?
    ensures var latest := Latest(s, l, releases, k);
      At(History(s, l, releases), [k, e])
      == if latest.Some? && At(latest.value, [e]).Some? then At(latest.value, [e])
         else Given(s.members[k].defaults, e)
  {
    hide Latest, History, Installed, Sound;
    OwnedFollowsLatest(s, l, releases, k);
    var t, latest, h := s.members[k], Latest(s, l, releases, k), History(s, l, releases);
    var declared := if latest.Some? then latest.value.fields else map[];
    assert Rewrite(t, latest) == Kept(Obj(t.defaults + declared));
    assert [k, e][1..] == [e] && [e][1..] == [];
    assert At(h, [k, e]) == At(h.fields[k], [e]) == Given(h.fields[k].fields, e);
  }

  // ----- which keys there are -----

  /** Once a release is installed, the keys of every object are those of the schema
      but for the empty members that writing omits, whatever the releases and the
      local document declared. */
  lemma KeysAreTheSchemas(s: Schema, l: Doc, releases: seq<Doc>, q: Path, k: string)
    requires Sound(s) && Installed(s, l, releases) && ShapeAt(s, q).Some? && ShapeAt(s, q).value.Struct?
    ensures var h, o := History(s, l, releases), At(History(s, l, releases), q);
      && o.Some? && o.value.Obj?
      && (k in o.value.fields <==>
            k in ShapeAt(s, q).value.members && !(LeafAt(s, q + [k]) && DroppedAsEmpty(s, h, q + [k])))
  {
    var h := History(s, l, releases);
    InstalledIsStable(s, l, releases);
    RewriteAt(s, Some(h), q);
    if k in ShapeAt(s, q).value.members {
      PathsExtend(s, h, q, k);
      SoundAt(s, q + [k]);
      RewriteAt(s, Some(h), q + [k]);
      WrittenOrDropped(ShapeAt(s, q + [k]).value, At(h, q + [k]));
    }
  }

  /** A place holds nothing of what was written back only if it was omitted. */
  lemma WrittenOrDropped(t: Shape, v: Option<Value>)
    requires Sound(t) && v == Written(Rewrite(t, v)) && !Rewrite(t, v).Refused?
    ensures v.None? <==> t.Leaf? && t.omitEmpty && (if v.Some? then t.read(v.value) else t.default) == Some(EMPTY)
  {}

  lemma {:induction false} PathsExtend(s: Shape, d: Value, q: Path, k: string)
    requires ShapeAt(s, q).Some? && ShapeAt(s, q).value.Struct? && k in ShapeAt(s, q).value.members
    ensures ShapeAt(s, q + [k]) == Some(ShapeAt(s, q).value.members[k])
    ensures At(d, q).Some? && At(d, q).value.Obj? ==> At(d, q + [k]) == Given(At(d, q).value.fields, k)
    decreases |q|
  {
    if |q| > 0 {
      assert (q + [k])[1..] == q[1..] + [k];
      if d.Obj? && q[0] in d.fields { PathsExtend(s.members[q[0]], d.fields[q[0]], q[1..], k); }
      else { PathsExtend(s.members[q[0]], d, q[1..], k); }
    } else {
      assert q + [k] == [k] && [k][1..] == [];
    }
  }
}
