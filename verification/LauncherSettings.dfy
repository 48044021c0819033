/** What updates leave of the settings of an installed game. */
module LauncherSettings {
  import opened Basics
  import opened Json
  import opened Text
  import N = Numerals
  import opened ConfigMerge
  import opened ConfigSchema
  import opened ConfigHistories
  import opened ConfigLaunch
  import opened LauncherSchema
  import opened LauncherReaders
  import opened JsonNumbers
  import opened Floats
  import opened Shortest
  import opened LauncherConfig

  // ----- what becomes of a number -----

  /** The two readers of the leaf at `p`. */
  lemma LeafIsPaired(number: Decoder, p: Path)
    requires ReadsAsShown(number) && LeafAt(Launch(), p)
    ensures LeafAt(Launcher(number), p)
    ensures Paired(number, ShapeAt(Launch(), p).value, ShapeAt(Launcher(number), p).value)
  {
    hide Launcher, ShapeAt, Identity, Sections, SameSchema, Sound, ReadsAsShown, Rereads, Paired;
    LaunchReaderRereads();
    ShownRereads(number);
    SameLauncher(number);
    SameAt(Launch(), Launcher(number), p);
    SameLeaf(ShapeAt(Launch(), p).value, ShapeAt(Launcher(number), p).value);
    LeafPlaces(LaunchReader(), p);
    LeafPlaces(number, p);
    if |p| == 1 {
      IdentityPairs(number, p[0]);
    } else {
      SectionNames(number);
      SectionsPair(number, p[0]);
    }
  }

  lemma SameLeaf(t: Shape, s: Shape)
    requires SameSchema(t, s) && t.Leaf?
    ensures s.Leaf?
  {}

  /** What the merge makes of a value the launch reads: a number is shown, and
      refused where that leaves the 64-bit range; anything else stays. */
  lemma MergeReads(number: Decoder, t: Shape, s: Shape, w: Value)
    requires ReadsAsShown(number) && Paired(number, t, s) && t.Leaf? && s.Leaf? && t.read(w).Some?
    ensures !w.Num? ==> s.read(w) == t.read(w)
    ensures w.Num? ==> Literal(w.lit).Some? && 0 <= Literal(w.lit).value < TOP
    ensures w.Num? ==> var n := Literal(w.lit).value;
      t.read(w) == Some(Num(N.IntText(n)))
        && s.read(w) == if Shown(n) < TOP then Some(Num(N.IntText(Shown(n)))) else None
  {
    if t != s {
      var least, most :| WholePair(number, t, s, least, most);
      hide Paired;
      WholeReadsNumber(number, t, s, least, most, w);
    }
  }

  lemma WholeReadsNumber(number: Decoder, t: Shape, s: Shape, least: int, most: int, w: Value)
    requires ReadsAsShown(number) && WholePair(number, t, s, least, most) && t.read(w).Some?
    ensures w.Num? && Literal(w.lit).Some? && least <= Literal(w.lit).value <= most
    ensures var n := Literal(w.lit).value;
      t.read(w) == Some(Num(N.IntText(n)))
        && s.read(w) == if Shown(n) < TOP then Some(Num(N.IntText(Shown(n)))) else None
  {
    var n := Literal(w.lit).value;
    hide Shown, Literal;
    if n <= EXACT { SmallIsShown(n); } else { LargeShowsLarge(n); }
  }

  /** Every declared number stays below 2^63 - 512, and so a 64-bit number when it
      is shown. */
  ghost predicate NumbersFit(l: Doc) {
    forall p | LeafAt(Launch(), p) && At(l, p).Some? && At(l, p).value.Num? :: Below(At(l, p).value.lit)
  }

  predicate Below(lit: string) { Literal(lit).Some? && Literal(lit).value < TOP - 512 }

  /** The number is the shortest decimal of the float64 it is read into. */
  predicate ShownAsIs(v: Value) {
    v.Num? ==> Literal(v.lit).Some? && Shown(Literal(v.lit).value) == Literal(v.lit).value
  }

  /** Of a file the launch accepts, the merge can read the whole exactly when no
      declared number is within 512 of 2^63: anything above, as "no limit" may be
      written, and every update is refused. */
  lemma UpdatesGoThroughExactlyWhen(number: Decoder, l: Doc, r: Doc)
    requires ReadsAsShown(number) && Valid(Launch(), l) && Valid(Launcher(number), r)
    ensures Accepted(Launcher(number), l, r) <==> NumbersFit(l)
  {
    hide Launcher, ReadsAsShown, SameSchema, Sound, Valid, Merge;
    SameLauncher(number);
    UpdateIsRefusedExactlyWhen(Launch(), Launcher(number), l, r);
    ReadableExactlyWhenFits(number, l);
  }

  lemma ReadableExactlyWhenFits(number: Decoder, l: Doc)
    requires ReadsAsShown(number) && Valid(Launch(), l)
    ensures Valid(Launcher(number), l) <==> NumbersFit(l)
  {
    hide Launcher, ReadsAsShown, SameSchema, Sound, Valid, Paired, ShapeAt, At;
    var t, s := Launch(), Launcher(number);
    SameLauncher(number);
    ReadableExactlyWhen(t, s, l);
    forall p | LeafAt(t, p) && At(l, p).Some?
      ensures LeafAt(s, p)
      ensures ShapeAt(s, p).value.read(At(l, p).value).Some?
        <==> (At(l, p).value.Num? ==> Below(At(l, p).value.lit))
    {
      ReadAtFits(number, l, p);
    }
    forall p | LeafAt(s, p) ensures LeafAt(t, p) { SameLeafBack(t, s, p); }
  }

  lemma SameLeafBack(t: Schema, s: Schema, p: Path)
    requires SameSchema(t, s) && LeafAt(s, p)
    ensures LeafAt(t, p)
  {
    SameAt(t, s, p);
  }

  lemma ReadAtFits(number: Decoder, l: Doc, p: Path)
    requires ReadsAsShown(number) && Valid(Launch(), l) && LeafAt(Launch(), p) && At(l, p).Some?
    ensures LeafAt(Launcher(number), p)
    ensures var v := At(l, p).value;
      ShapeAt(Launcher(number), p).value.read(v).Some? <==> (v.Num? ==> Below(v.lit))
    ensures LeafAt(Launcher(number), p) && NumbersFit(l) ==>
      (ReadAlike(Launch(), Launcher(number), l, p) <==> ShownAsIs(At(l, p).value))
  {
    hide Launcher, ReadsAsShown, SameSchema, Sound, Paired, ShapeAt, At, Shown, Literal;
    var v := At(l, p).value;
    LeafIsPaired(number, p);
    RewriteAt(Launch(), Some(l), p);
    MergeReads(number, ShapeAt(Launch(), p).value, ShapeAt(Launcher(number), p).value, v);
    if v.Num? {
      var n := Literal(v.lit).value;
      ShownFitsExactlyWhen(n);
      if Below(v.lit) { TextsDiffer(n, Shown(n)); }
    }
  }

  lemma TextsDiffer(m: int, n: int)
    requires N.Fits(m) && N.Fits(n)
    ensures N.IntText(m) == N.IntText(n) <==> m == n
  {
    N.IntTextReads(m);
    N.IntTextReads(n);
  }

  // ----- the settings at risk -----

  /** Of all settings a local configuration declares, what the launch runs with can be
      changed by some sequence of valid releases exactly if the merge can read the
      file, and the setting is one of four the release owns, one of three and empty,
      or a number that is not shown as it is. */
  lemma SettingsAtRisk(number: Decoder, l: Doc, p: Path)
    requires ReadsAsShown(number) && Valid(Launch(), l) && LeafAt(Launch(), p) && At(l, p).Some?
    ensures Safe(Launch(), Launcher(number), l, p) <==>
      || !NumbersFit(l)
      || (p !in RELEASE_SETTINGS && !(p in OPEN_WHEN_EMPTY && At(l, p) == Some(EMPTY)) && ShownAsIs(At(l, p).value))
  {
    hide Launcher, ShapeAt, At, Safe, ReadsAsShown, Rereads, SameSchema, Sound, NumbersFit, ShownAsIs, Valid;
    var t, s := Launch(), Launcher(number);
    LaunchReaderRereads();
    SameLauncher(number);
    ReadAtFits(number, l, p);
    ReadableExactlyWhenFits(number, l);
    LocalSettingIsSafeExactlyWhen(t, s, l, p);
    if p in RELEASE_SETTINGS { OwnedAreContested(l, p); }
    else if p in OPEN_WHEN_EMPTY { OpenAreContested(l, p); }
    else { OtherLeavesAreSafe(LaunchReader(), l, p); }
  }

  lemma OwnedAreContested(l: Doc, p: Path)
    requires LeafAt(Launch(), p) && p in RELEASE_SETTINGS
    ensures OwnedAt(p) && Contested(Launch(), l, p)
  {
    hide Launcher, ShapeAt, At, Setting;
    var v, w := OwnedRivals(LaunchReader(), p);
    var read := ShapeAt(Launch(), p).value.read;
    assert read(v) != Setting(Launch(), l, p) || read(w) != Setting(Launch(), l, p);
  }

  lemma OpenAreContested(l: Doc, p: Path)
    requires LeafAt(Launch(), p) && p in OPEN_WHEN_EMPTY && At(l, p).Some?
    ensures !OwnedAt(p) && (DroppedAsEmpty(Launch(), l, p) <==> At(l, p) == Some(EMPTY))
    ensures At(l, p) == Some(EMPTY) ==> Contested(Launch(), l, p)
  {
    hide Launcher, ShapeAt, At;
    OpenRivals(LaunchReader(), p);
    assert ShapeAt(Launch(), p).value.read(Str("require-corp")) != Some(EMPTY);
  }

  lemma SchemaIsFixed(number: Decoder, l: Doc)
    requires Valid(Launcher(number), l) && At(l, ["schema"]).Some?
    ensures LeafAt(Launcher(number), ["schema"]) && !Contested(Launcher(number), l, ["schema"])
  {
    hide Launcher, ShapeAt, At, Fixed;
    OwnedShapes(number);
    FixedTaken(Str("kobra.launcher-config/1"), None);
    RewriteAt(Launcher(number), Some(l), ["schema"]);
  }

  lemma EntryPathIsNeverEmpty(number: Decoder, l: Doc)
    requires Valid(Launcher(number), l) && At(l, ["server", "entry_path"]).Some?
    ensures LeafAt(Launcher(number), ["server", "entry_path"])
    ensures !DroppedAsEmpty(Launcher(number), l, ["server", "entry_path"])
  {
    hide Launcher, ShapeAt, At, Words;
    OpenShapes(number);
    WordsTaken(IsEntryPath, Some("/index.html"), true, "/");
  }

  lemma OtherLeavesAreSafe(number: Decoder, l: Doc, p: Path)
    requires Rereads(number) && Valid(Launcher(number), l) && LeafAt(Launcher(number), p) && At(l, p).Some?
    requires p !in RELEASE_SETTINGS && p !in OPEN_WHEN_EMPTY
    ensures (!OwnedAt(p) && !DroppedAsEmpty(Launcher(number), l, p)) || !Contested(Launcher(number), l, p)
  {
    hide Launcher, ShapeAt, At, Identity, Sections, Setting, Contested;
    LeafPlaces(number, p);
    if |p| == 1 {
      assert p == [p[0]];
      TopLeaf(p[0]);
      if p == ["schema"] {
        OwnedShapes(number);
        SchemaIsFixed(number, l);
      }
    } else {
      assert p == [p[0], p[1]];
      SectionLeaf(number, p[0], p[1]);
      if p == ["server", "entry_path"] { EntryPathIsNeverEmpty(number, l); }
    }
  }

  // ----- what a release cannot take back -----

  /** A release that lists its own types still installs every default type: between
      any two documents the merge can read. */
  lemma DefaultTypesStay(number: Decoder, l: Doc, r: Doc, e: string)
    requires Rereads(number) && Valid(Launcher(number), l) && Valid(Launcher(number), r)
    requires At(r, ["mime_types"]).Some? && At(r, ["mime_types", e]).None?
    ensures At(Update(Launcher(number), l, r), ["mime_types", e]) == Given(MIME_TYPES, e)
  {
    hide Launcher, Given;
    var s := Launcher(number);
    LauncherSound(number);
    MimeTypesAre(number);
    ValidMergesAreAccepted(s, l, r);
    TableAfter(s, l, r, "mime_types", e);
  }

  lemma MimeTypesAre(number: Decoder)
    ensures "mime_types" in Launcher(number).members
    ensures Launcher(number).members["mime_types"] == Table(IsMimeEntry, MIME_TYPES)
  {
    hide Words, Fixed, ListOf, Port, Server, Updates, Browsers, Diagnostics, DataApi, MIME_TYPES;
  }

  lemma TableAfter(s: Schema, l: Doc, r: Doc, k: string, e: string)
    requires Sound(s) && Accepted(s, l, r) && k in OWNED && k in s.members && s.members[k].Table?
    requires At(r, [k]).Some? && At(r, [k, e]).None?
    ensures At(Update(s, l, r), [k, e]) == Given(s.members[k].defaults, e)
  {
    hide Sound, Rewrite;
    ShortHistories(s, l, r, r);
    assert [r][..0] == [] && Installed(s, l, [r]);
    TableFollowsLatest(s, l, [r], k, e);
    assert [k, e][1..] == [e] && [k][1..] == [] && [e][1..] == [];
    assert Latest(s, l, [r], k) == Some(r.fields[k]);
  }

  /** An empty policy, meant to keep the header off, holds for one update. */
  lemma EmptySettingIsLost(number: Decoder, l: Doc, r1: Doc, r2: Doc, p: Path)
    requires ReadsAsShown(number) && p in OPEN_WHEN_EMPTY && At(l, p) == Some(EMPTY) && At(r2, p).Some?
    requires Valid(Launch(), l) && NumbersFit(l) && Valid(Launcher(number), r1) && Valid(Launcher(number), r2)
    ensures LeafAt(Launch(), p) && At(Update(Launcher(number), l, r1), p).None?
    ensures Setting(Launch(), Update(Launcher(number), Update(Launcher(number), l, r1), r2), p)
         == Setting(Launch(), r2, p)
  {
    hide Launcher, ShapeAt, At, NumbersFit, ReadsAsShown, SameSchema, Sound, Valid, Update;
    SameLauncher(number);
    ReadableExactlyWhenFits(number, l);
    OpenRivals(LaunchReader(), p);
    OpenRivals(number, p);
    OmittedIsSame(Launch(), Launcher(number), p);
    EmptyIsLost(Launcher(number), l, r1, r2, p);
  }

  // ----- numbers that are not shown as they are -----

  /** One update leaves the number shown in the place of the declared one. */
  lemma NumberIsShown(number: Decoder, l: Doc, r: Doc, p: Path)
    requires ReadsAsShown(number) && Valid(Launch(), l) && NumbersFit(l) && Valid(Launcher(number), r)
    requires LeafAt(Launch(), p) && !OwnedAt(p) && At(l, p).Some? && At(l, p).value.Num?
    ensures var n := Literal(At(l, p).value.lit);
      && n.Some? && Setting(Launch(), l, p) == Some(Num(N.IntText(n.value)))
      && At(Update(Launcher(number), l, r), p) == Some(Num(N.IntText(Shown(n.value))))
  {
    hide Launcher, ShapeAt, At, NumbersFit, ReadsAsShown, SameSchema, Sound, Update, Paired, Shown, Literal;
    var t, s := Launch(), Launcher(number);
    SameLauncher(number);
    UpdatesGoThroughExactlyWhen(number, l, r);
    LeafIsPaired(number, p);
    RewriteAt(t, Some(l), p);
    MergeReads(number, ShapeAt(t, p).value, ShapeAt(s, p).value, At(l, p).value);
    LeafUpdates(s, l, r, p);
  }

  const BYTES: Path := ["data_api", "bytes_per_minute"]

  function WithBytes(n: int): Doc { Merge(PLAIN, Lone(BYTES, Num(N.IntText(n)))) }

  /** The plain configuration with another write quota is accepted by a reader of it. */
  lemma WithBytesIsValid(number: Decoder, n: int)
    requires Rereads(number) && number(N.IntText(n)).Some? && 0x10_0000 <= number(N.IntText(n)).value <= NO_BOUND
    ensures LeafAt(Launcher(number), BYTES) && !OwnedAt(BYTES)
    ensures Valid(Launcher(number), WithBytes(n)) && At(WithBytes(n), BYTES) == Some(Num(N.IntText(n)))
  {
    hide Launcher, ShapeAt, At, Merge, Lone, Valid, Sound, Rereads;
    LauncherSound(number);
    PlainIsValid(number);
    BytesShape(number, n);
    BytesAbsent();
    Declares(Launcher(number), PLAIN, BYTES, Num(N.IntText(n)));
  }

  lemma BytesShape(number: Decoder, n: int)
    requires number(N.IntText(n)).Some? && 0x10_0000 <= number(N.IntText(n)).value <= NO_BOUND
    ensures LeafAt(Launcher(number), BYTES) && ShapeAt(Launcher(number), BYTES).value.read(Num(N.IntText(n))).Some?
  {
    var s := Whole(number, 0x10_0000, NO_BOUND, Some(0x400_0000));
    assert s.read(Num(N.IntText(n))).Some?;
    BytesMember(number);
    hide Whole, Sections;
    TwoSteps(Launcher(number), "data_api", "bytes_per_minute");
  }

  lemma BytesMember(number: Decoder)
    ensures Member(MembersOf(Member(Launcher(number).members, "data_api")), "bytes_per_minute")
         == Some(Whole(number, 0x10_0000, NO_BOUND, Some(0x400_0000)))
  {
    hide Whole, Flag, Identity, Port, Server, Browsers, Updates, Diagnostics;
  }

  lemma BytesAbsent()
    ensures At(PLAIN, BYTES) == None
  {}

  lemma LaunchAcceptsBytes(n: int)
    requires 0x10_0000 <= n < TOP
    ensures LeafAt(Launch(), BYTES) && Valid(Launch(), WithBytes(n))
    ensures At(WithBytes(n), BYTES) == Some(Num(N.IntText(n))) && Literal(N.IntText(n)) == Some(n) && !OwnedAt(BYTES)
  {
    hide Launcher, ShapeAt, At, WithBytes, Valid, Rereads;
    LaunchReaderRereads();
    LiteralReads(n);
    WithBytesIsValid(LaunchReader(), n);
  }

  lemma BytesFit(number: Decoder, n: int)
    requires ReadsAsShown(number) && 0x10_0000 <= n < TOP - 512
    ensures Valid(Launch(), WithBytes(n)) && NumbersFit(WithBytes(n))
  {
    hide Launcher, ShapeAt, At, NumbersFit, Valid, Shown, WithBytes, Rereads;
    LaunchAcceptsBytes(n);
    ShownFitsExactlyWhen(n);
    if n <= EXACT { SmallIsShown(n); } else { LargeShowsLarge(n); }
    assert number(N.IntText(n)) == Some(Shown(n));
    ShownRereads(number);
    hide ReadsAsShown;
    WithBytesIsValid(number, n);
    ReadableExactlyWhenFits(number, WithBytes(n));
  }

  /** A declared write quota after any update, and whether it is safe. */
  lemma BytesBecome(number: Decoder, n: int, r: Doc)
    requires ReadsAsShown(number) && 0x10_0000 <= n < TOP - 512 && Valid(Launcher(number), r)
    ensures Valid(Launch(), WithBytes(n)) && LeafAt(Launch(), BYTES)
    ensures Setting(Launch(), WithBytes(n), BYTES) == Some(Num(N.IntText(n)))
    ensures At(Update(Launcher(number), WithBytes(n), r), BYTES) == Some(Num(N.IntText(Shown(n))))
    ensures Safe(Launch(), Launcher(number), WithBytes(n), BYTES) <==> Shown(n) == n
  {
    hide Launcher, ShapeAt, At, NumbersFit, Valid, Update, Shown, WithBytes, Setting, Safe, ReadsAsShown, Literal;
    LaunchAcceptsBytes(n);
    BytesFit(number, n);
    NumberIsShown(number, WithBytes(n), r, BYTES);
    BytesAtRisk(number, n);
  }

  lemma BytesAtRisk(number: Decoder, n: int)
    requires ReadsAsShown(number) && LeafAt(Launch(), BYTES)
    requires Valid(Launch(), WithBytes(n)) && NumbersFit(WithBytes(n))
    requires At(WithBytes(n), BYTES) == Some(Num(N.IntText(n))) && Literal(N.IntText(n)) == Some(n)
    ensures Safe(Launch(), Launcher(number), WithBytes(n), BYTES) <==> Shown(n) == n
  {
    hide Launcher, ShapeAt, At, NumbersFit, Valid, Shown, WithBytes, Safe, ReadsAsShown, Literal;
    assert BYTES !in RELEASE_SETTINGS && BYTES !in OPEN_WHEN_EMPTY;
    hide RELEASE_SETTINGS, OPEN_WHEN_EMPTY, BYTES;
    SettingsAtRisk(number, WithBytes(n), BYTES);
  }

  /** The number after 2^53, which the launch runs with exactly, loses its last bit in
      the first update. */
  lemma LastBitIsLost(number: Decoder, r: Doc)
    requires ReadsAsShown(number) && Valid(Launcher(number), r)
    ensures var l := WithBytes(EXACT + 1);
      && Valid(Launch(), l) && LeafAt(Launch(), BYTES)
      && Setting(Launch(), l, BYTES) == Some(Num(N.IntText(EXACT + 1)))
      && At(Update(Launcher(number), l, r), BYTES) == Some(Num(N.IntText(EXACT)))
  {
    hide Launcher, ShapeAt, At, Valid, Update, Shown, WithBytes, Setting, ReadsAsShown, Safe;
    ShownAtTheEdges();
    BytesBecome(number, EXACT + 1, r);
  }

  /** That a float64 holds a number does not make it safe, nor the contrary unsafe:
      2^60 is held and changed; what it is changed into is not held, and stays. */
  lemma HoldingIsNotEnough(number: Decoder, r: Doc)
    requires ReadsAsShown(number) && Valid(Launcher(number), r)
    ensures LeafAt(Launch(), BYTES) && Float(TWO_60) == TWO_60 && Float(1152921504606847000) != 1152921504606847000
    ensures At(Update(Launcher(number), WithBytes(TWO_60), r), BYTES) == Some(Num(N.IntText(1152921504606847000)))
    ensures !Safe(Launch(), Launcher(number), WithBytes(TWO_60), BYTES)
    ensures Safe(Launch(), Launcher(number), WithBytes(1152921504606847000), BYTES)
  {
    hide Launcher, ShapeAt, At, Valid, Update, Shown, Float, WithBytes, Setting, ReadsAsShown, Safe;
    Power60();
    BytesBecome(number, TWO_60, r);
    BytesBecome(number, 1152921504606847000, r);
  }

  /** A write quota of 2^63 - 1, which the launch accepts, has every update refused. */
  lemma NoLimitStopsUpdates(number: Decoder, r: Doc)
    requires ReadsAsShown(number)
    ensures Valid(Launch(), WithBytes(TOP - 1)) && !Accepted(Launcher(number), WithBytes(TOP - 1), r)
  {
    hide Launcher, ShapeAt, At, Valid, Shown, WithBytes, ReadsAsShown, SameSchema, Sound;
    var l := WithBytes(TOP - 1);
    LaunchAcceptsBytes(TOP - 1);
    assert !Below(N.IntText(TOP - 1)) && !NumbersFit(l);
    ReadableExactlyWhenFits(number, l);
    SameLauncher(number);
    if Accepted(Launcher(number), l, r) { AcceptedIsReadable(Launch(), Launcher(number), l, r); }
  }
}
