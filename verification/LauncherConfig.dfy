/** Where the leaves of the launcher's schema are, that the launch and the merge read
    one schema, and that some document is accepted. */
module LauncherConfig {
  import opened Basics
  import opened Json
  import opened Text
  import N = Numerals
  import Versions
  import opened ConfigMerge
  import opened ConfigSchema
  import opened ConfigHistories
  import opened ConfigLaunch
  import opened LauncherSchema
  import opened LauncherReaders
  import opened Floats

  // ----- where the leaves are -----

  /** A section holds leaves the release does not own; which are required and which
      are omitted when empty. */
  predicate LeavesOnly(members: map<string, Shape>, required: set<string>, omitted: set<string>) {
    forall j <- members ::
      && members[j].Leaf? && j !in OWNED
      && (members[j].default.None? <==> j in required)
      && (members[j].omitEmpty <==> j in omitted)
  }

  function Omitted(k: string): set<string> {
    if k == "server" then {"csp", "cross_origin_embedder_policy", "entry_path"}
    else if k == "update" then {"patch_base_url"}
    else {}
  }

  function Required(k: string): set<string> { if k == "port" then {"base", "span"} else {} }

  lemma PortLeaves(number: Decoder)
    ensures LeavesOnly(Port(number).members, {"base", "span"}, {})
  {
    hide Whole, Flag, Words;
  }

  lemma ServerLeaves(number: Decoder)
    ensures LeavesOnly(Server(number).members, {}, {"csp", "cross_origin_embedder_policy", "entry_path"})
  {
    ServerNumbersLeaves(number);
    ServerTextsLeaves();
    hide ServerNumbers, ServerTexts;
  }

  lemma ServerNumbersLeaves(number: Decoder)
    ensures LeavesOnly(ServerNumbers(number), {}, {"csp", "cross_origin_embedder_policy", "entry_path"})
  {
    hide Whole;
  }

  lemma ServerTextsLeaves()
    ensures LeavesOnly(ServerTexts(), {}, {"csp", "cross_origin_embedder_policy", "entry_path"})
  {
    hide Flag, Words, Fixed, Always;
  }

  lemma UpdatesLeaves()
    ensures LeavesOnly(Updates().members, {}, {"patch_base_url"})
  {
    hide Flag, Words, Always;
  }

  lemma BrowsersLeaves(number: Decoder)
    ensures LeavesOnly(Browsers(number).members, {}, {})
  {
    hide Whole, Words;
  }

  lemma DiagnosticsLeaves(number: Decoder)
    ensures LeavesOnly(Diagnostics(number).members, {}, {})
  {
    hide Whole, Always;
  }

  lemma DataApiLeaves(number: Decoder)
    ensures LeavesOnly(DataApi(number).members, {}, {})
  {
    hide Whole, Flag;
  }

  lemma SectionsHoldLeaves(number: Decoder, k: string)
    requires k in Sections(number)
    ensures Sections(number)[k].Struct? && LeavesOnly(Sections(number)[k].members, Required(k), Omitted(k))
  {
    hide LeavesOnly, Port, Server, Updates, Browsers, Diagnostics, DataApi;
    PortLeaves(number);
    ServerLeaves(number);
    UpdatesLeaves();
    BrowsersLeaves(number);
    DiagnosticsLeaves(number);
    DataApiLeaves(number);
  }

  // ----- the launch and the merge read one schema -----

  lemma SectionsAreSame(number: Decoder, k: string)
    requires ReadsAsShown(number) && k in Sections(number)
    ensures k in Sections(LaunchReader()) && SameSchema(Sections(LaunchReader())[k], Sections(number)[k])
  {
    hide Sections, LeavesOnly, ReadsAsShown, SameSchema, Rereads;
    LaunchReaderRereads();
    SectionsPair(number, k);
    SectionsHoldLeaves(LaunchReader(), k);
    assert Sound(Sections(LaunchReader())[k]) by { SectionSound(LaunchReader(), k); }
    LeavesAre(Sections(LaunchReader())[k].members, Required(k), Omitted(k));
    hide Sound, AllPaired;
    PairedLeavesAreSame(number, Sections(LaunchReader())[k], Sections(number)[k]);
  }

  lemma LeavesAre(members: map<string, Shape>, required: set<string>, omitted: set<string>)
    requires LeavesOnly(members, required, omitted)
    ensures forall j <- members :: members[j].Leaf? && j !in OWNED
  {}

  lemma SectionSound(number: Decoder, k: string)
    requires Rereads(number) && k in Sections(number)
    ensures Sound(Sections(number)[k]) && k !in OWNED
  {
    hide Port, Server, Browsers, Updates, Diagnostics, DataApi, Sound;
    PortSound(number);
    ServerSound(number);
    BrowsersSound(number);
    UpdatesSound();
    DiagnosticsSound(number);
    DataApiSound(number);
  }

  lemma SameLauncher(number: Decoder)
    requires ReadsAsShown(number)
    ensures SameSchema(Launch(), Launcher(number)) && Sound(Launch()) && Sound(Launcher(number))
  {
    hide Identity, Sections, SameSchema, Sound, ReadsAsShown, Rereads;
    LaunchReaderRereads();
    ShownRereads(number);
    LauncherSound(LaunchReader());
    LauncherSound(number);
    SectionNames(number);
    var t, s := Launch(), Launcher(number);
    forall k | k in t.members ensures SameSchema(t.members[k], s.members[k])
      && (k in OWNED ==> t.members[k] == s.members[k]) {
      if k in Sections(number) {
        SectionsAreSame(number, k);
        SectionSound(number, k);
      } else {
        IdentitySound(k);
        SameAsItself(Identity()[k]);
      }
    }
    MembersAreSame(t, s);
  }

  lemma MembersAreSame(t: Schema, s: Schema)
    requires t.members.Keys == s.members.Keys
    requires forall k <- t.members ::
      SameSchema(t.members[k], s.members[k]) && (k in OWNED ==> t.members[k] == s.members[k])
    ensures SameSchema(t, s)
  {}

  // ----- some document is accepted -----

  const PLAIN: Doc := Obj(map[
    "schema" := Str("kobra.launcher-config/1"), "game_id" := Str("a.b"), "game_name" := Str("A"),
    "port" := Obj(map["base" := Num(N.IntText(8765)), "span" := Num(N.IntText(100))])])

  lemma PlainIsValid(number: Decoder)
    requires Rereads(number)
    ensures Valid(Launcher(number), PLAIN)
  {
    hide Identity, Sections, Rewrite;
    var fields := PLAIN.fields;
    forall k | k in Launcher(number).members
      ensures !Rewrite(Launcher(number).members[k], Given(fields, k)).Refused?
    {
      if k in Sections(number) { SectionReadsPlain(number, k); } else { IdentityReadsPlain(k); }
    }
    PlainKeysKnown(number);
    MembersReadable(Launcher(number), PLAIN);
  }

  lemma MembersReadable(s: Schema, d: Doc)
    requires d.fields.Keys <= s.members.Keys
    requires forall k <- s.members :: !Rewrite(s.members[k], Given(d.fields, k)).Refused?
    ensures Valid(s, d)
  {}

  lemma PlainKeysKnown(number: Decoder)
    ensures PLAIN.fields.Keys <= Launcher(number).members.Keys
  {
    hide Fixed, Words, ListOf, Port, Server, Browsers, Updates, Diagnostics, DataApi;
  }

  lemma GameIdIs(first: string, second: string)
    requires first != "" && second != "" && forall c <- first + second :: LowerOrDigit(c)
    ensures IsGameId(first + "." + second)
  {
    assert forall c <- first :: c in first + second;
    assert forall c <- second :: c in first + second;
    SplitWhole(second, '.');
    SplitFirst(first, second, '.');
  }

  lemma IdentityReadsPlain(k: string)
    requires k in Identity()
    ensures !Rewrite(Identity()[k], Given(PLAIN.fields, k)).Refused?
  {
    hide IsGameId, MIME_TYPES, ListOf, Versions.ValidRelease, Words, Fixed, Rewrite;
    GameIdIs("a", "b");
    assert "a" + "." + "b" == "a.b";
    WordsRead(IsGameId, None, false, Some("a.b"));
    WordsRead(IsGameName, None, false, Some("A"));
    WordsRead(Versions.ValidRelease, Some(""), true, None);
    ListReads(IsLocale, ["en"]);
    ListReads(IsBrowser, ["chrome", "msedge", "brave", "opera"]);
    FixedReads(Str("kobra.launcher-config/1"));
    TableReads(IsMimeEntry, MIME_TYPES);
  }

  lemma WordsRead(ok: string -> bool, default: Option<string>, omitEmpty: bool, s: Option<string>)
    requires if s.Some? then ok(s.value) else default.Some?
    ensures !Rewrite(Words(ok, default, omitEmpty), if s.Some? then Some(Str(s.value)) else None).Refused?
  {}

  lemma ListReads(ok: string -> bool, default: seq<string>)
    ensures !Rewrite(ListOf(ok, default), None).Refused?
  {}

  lemma FixedReads(v: Value)
    requires !v.Obj?
    ensures !Rewrite(Fixed(v, None), Some(v)).Refused?
  {}

  lemma TableReads(ok: (string, Value) -> bool, defaults: map<string, Value>)
    ensures !Rewrite(Table(ok, defaults), None).Refused?
  {}

  lemma SectionReadsPlain(number: Decoder, k: string)
    requires Rereads(number) && k in Sections(number)
    ensures !Rewrite(Sections(number)[k], Given(PLAIN.fields, k)).Refused?
  {
    hide LeavesOnly, Rewrite, Port, Server, Updates, Browsers, Diagnostics, DataApi;
    SectionsHoldLeaves(number, k);
    PortReadsPlain(number);
    if k != "port" { NothingIsRead(Sections(number)[k]); }
  }

  lemma NothingIsRead(s: Schema)
    requires exists omitted :: LeavesOnly(s.members, {}, omitted)
    ensures !Rewrite(s, None).Refused?
  {}

  lemma PortReadsPlain(number: Decoder)
    requires Rereads(number)
    ensures !Rewrite(Port(number), Some(PLAIN.fields["port"])).Refused?
  {
    hide Whole, Flag, Words;
    WholeReads(number, 1024, 49151, 8765);
    WholeReads(number, 1, 1000, 100);
  }

  lemma WholeReads(number: Decoder, least: int, most: int, n: int)
    requires Rereads(number) && least <= n <= most && 0 <= n <= EXACT
    ensures !Rewrite(Whole(number, least, most, None), Some(Num(N.IntText(n)))).Refused?
  {}

  // ----- which settings of an installed game are safe -----

  const RELEASE_SETTINGS: set<Path> := {["release"], ["game_id"], ["game_name"], ["locales"]}

  const OPEN_WHEN_EMPTY: set<Path> := {
    ["server", "csp"], ["server", "cross_origin_embedder_policy"], ["update", "patch_base_url"]}

  function Member(members: map<string, Shape>, k: string): Option<Shape> {
    if k in members then Some(members[k]) else None
  }

  function MembersOf(s: Option<Shape>): map<string, Shape> {
    if s.Some? && s.value.Struct? then s.value.members else map[]
  }

  /** Leaves are at the top or in a section. */
  lemma LeafPlaces(number: Decoder, p: Path)
    requires Rereads(number) && LeafAt(Launcher(number), p)
    ensures |p| == 1 || |p| == 2
    ensures |p| == 1 ==> ShapeAt(Launcher(number), p) == Member(Identity(), p[0])
    ensures |p| == 2 ==> ShapeAt(Launcher(number), p) == Member(MembersOf(Member(Sections(number), p[0])), p[1])
  {
    hide Identity, Sections;
    var s := Launcher(number);
    var k, rest := p[0], p[1..];
    assert ShapeAt(s, p) == ShapeAt(s.members[k], rest);
    if k in Sections(number) {
      SectionsHoldLeaves(number, k);
      assert ShapeAt(s.members[k], rest) == ShapeAt(s.members[k].members[rest[0]], rest[1..]);
    } else {
      IdentitySound(k);
    }
  }

  lemma TopLeaf(k: string)
    requires k in Identity() && Identity()[k].Leaf?
    ensures (k in OWNED <==> k == "schema" || [k] in RELEASE_SETTINGS) && (Identity()[k].omitEmpty ==> k in OWNED)
  {
    hide Words, ListOf, Fixed;
  }

  lemma SectionLeaf(number: Decoder, k: string, j: string)
    requires k in Sections(number) && Sections(number)[k].Struct? && j in Sections(number)[k].members
    ensures Sections(number)[k].members[j].Leaf? && j !in OWNED
    ensures Sections(number)[k].members[j].omitEmpty
      <==> [k, j] in OPEN_WHEN_EMPTY || [k, j] == ["server", "entry_path"]
  {
    hide Sections;
    SectionsHoldLeaves(number, k);
  }

  lemma OpenShapes(number: Decoder)
    ensures ShapeAt(Launcher(number), ["server", "csp"]) == Some(Words(Anything, Some(""), true))
    ensures ShapeAt(Launcher(number), ["server", "cross_origin_embedder_policy"])
         == Some(Words(IsPolicy, Some(""), true))
    ensures ShapeAt(Launcher(number), ["server", "entry_path"])
         == Some(Words(IsEntryPath, Some("/index.html"), true))
    ensures ShapeAt(Launcher(number), ["update", "patch_base_url"]) == Some(Words(Anything, Some(""), true))
  {
    hide Words, Fixed, Always, Flag, Whole, Identity, ServerNumbers, Port, Browsers, Diagnostics, DataApi;
    TwoSteps(Launcher(number), "server", "csp");
    TwoSteps(Launcher(number), "server", "cross_origin_embedder_policy");
    TwoSteps(Launcher(number), "server", "entry_path");
    TwoSteps(Launcher(number), "update", "patch_base_url");
  }

  lemma TwoSteps(s: Schema, k: string, j: string)
    ensures ShapeAt(s, [k, j]) == Member(MembersOf(Member(s.members, k)), j)
  {
    assert [k, j][1..] == [j];
    if k in s.members && s.members[k].Struct? { OneStep(s.members[k], j); }
  }

  lemma OneStep(s: Schema, k: string)
    ensures ShapeAt(s, [k]) == Member(s.members, k)
  {
    assert [k][1..] == [];
  }

  lemma OwnedShapes(number: Decoder)
    ensures ShapeAt(Launcher(number), ["schema"]) == Some(Fixed(Str("kobra.launcher-config/1"), None))
    ensures ShapeAt(Launcher(number), ["release"]) == Some(Words(Versions.ValidRelease, Some(""), true))
    ensures ShapeAt(Launcher(number), ["game_id"]) == Some(Words(IsGameId, None, false))
    ensures ShapeAt(Launcher(number), ["game_name"]) == Some(Words(IsGameName, None, false))
    ensures ShapeAt(Launcher(number), ["locales"]) == Some(ListOf(IsLocale, ["en"]))
  {
    hide Words, Fixed, ListOf, Launcher, Identity;
    OneStep(Launcher(number), "schema");
    OneStep(Launcher(number), "release");
    OneStep(Launcher(number), "game_id");
    OneStep(Launcher(number), "game_name");
    OneStep(Launcher(number), "locales");
    OwnedMembers();
    TopMembers(number, "schema");
    TopMembers(number, "release");
    TopMembers(number, "game_id");
    TopMembers(number, "game_name");
    TopMembers(number, "locales");
  }

  lemma OwnedMembers()
    ensures Member(Identity(), "schema") == Some(Fixed(Str("kobra.launcher-config/1"), None))
    ensures Member(Identity(), "release") == Some(Words(Versions.ValidRelease, Some(""), true))
    ensures Member(Identity(), "game_id") == Some(Words(IsGameId, None, false))
    ensures Member(Identity(), "game_name") == Some(Words(IsGameName, None, false))
    ensures Member(Identity(), "locales") == Some(ListOf(IsLocale, ["en"]))
  {
    hide Words, Fixed, ListOf, MIME_TYPES;
  }

  lemma TopMembers(number: Decoder, k: string)
    requires k in OWNED
    ensures Member(Launcher(number).members, k) == Member(Identity(), k)
  {
    hide Identity, Port, Server, Updates, Browsers, Diagnostics, DataApi;
  }

  lemma WordsTaken(ok: string -> bool, default: Option<string>, omitEmpty: bool, s: string)
    ensures ok(s) ==> Words(ok, default, omitEmpty).read(Str(s)) == Some(Str(s))
    ensures forall w :: Words(ok, default, omitEmpty).read(w) == Some(EMPTY) <==> w == EMPTY && ok("")
    ensures default == Some("") ==> Words(ok, default, omitEmpty).default == Some(EMPTY)
  {}

  lemma ListTaken(ok: string -> bool, default: seq<string>, s: string)
    requires ok(s)
    ensures ListOf(ok, default).read(Arr([])) == Some(Arr([]))
      && ListOf(ok, default).read(Arr([Str(s)])) == Some(Arr([Str(s)]))
  {
    ListReadsItems(ok, default, []);
    assert forall v <- [Str(s)] :: v == Str(s);
    ListReadsItems(ok, default, [Str(s)]);
  }

  lemma ListReadsItems(ok: string -> bool, default: seq<string>, items: seq<Value>)
    requires Distinct(items) && forall v <- items :: v.Str? && ok(v.s)
    ensures ListOf(ok, default).read(Arr(items)) == Some(Arr(items))
  {}

  lemma FixedTaken(v: Value, default: Option<Value>)
    ensures forall w | Fixed(v, default).read(w).Some? :: Fixed(v, default).read(w) == Some(v)
  {}

  lemma OwnedTexts(ok: string -> bool) returns (a: string, b: string)
    requires ok in [Versions.ValidRelease, IsGameId, IsGameName]
    ensures ok(a) && ok(b) && a != b
  {
    ReleaseIs("2026", "01", "1");
    ReleaseIs("2026", "01", "2");
    GameIdIs("a", "b");
    GameIdIs("a", "c");
    hide Versions.ValidRelease, IsGameId;
    if ok == Versions.ValidRelease { a, b := "2026" + "." + "01" + "." + "1", "2026" + "." + "01" + "." + "2"; }
    else if ok == IsGameId { a, b := "a" + "." + "b", "a" + "." + "c"; }
    else { a, b := "A", "B"; }
    assert a[|a| - 1] != b[|b| - 1];
  }

  /** Two values a release-owned setting may take. */
  lemma OwnedRivals(number: Decoder, p: Path) returns (v: Value, w: Value)
    requires p in RELEASE_SETTINGS
    ensures LeafAt(Launcher(number), p) && OwnedAt(p) && v != w
    ensures var read := ShapeAt(Launcher(number), p).value.read; read(v) == Some(v) && read(w) == Some(w)
  {
    hide Launcher, ShapeAt, Words, ListOf;
    OwnedShapes(number);
    if p == ["locales"] {
      v, w := Arr([]), Arr([Str("en")]);
      assert IsLocale("en") by { assert "en"[..2] == "en"; }
      ListTaken(IsLocale, ["en"], "en");
    } else {
      var ok := if p == ["release"] then Versions.ValidRelease else if p == ["game_id"] then IsGameId else IsGameName;
      var default := if p == ["release"] then Some("") else None;
      var a, b := OwnedTexts(ok);
      WordsTaken(ok, default, p == ["release"], a);
      WordsTaken(ok, default, p == ["release"], b);
      v, w := Str(a), Str(b);
    }
  }

  lemma ReleaseIs(year: string, month: string, count: string)
    requires |year| == 4 && |month| == 2 && count != "" && AllDigits(year) && AllDigits(month) && AllDigits(count)
    ensures Versions.ValidRelease(year + "." + month + "." + count)
  {
    SplitWhole(count, '.');
    SplitFirst(month, count, '.');
    SplitFirst(year, month + ['.'] + count, '.');
    assert year + "." + month + "." + count == year + ['.'] + (month + ['.'] + count);
  }

  /** An empty setting that writing omits, and another value it may take. */
  lemma OpenRivals(number: Decoder, p: Path)
    requires p in OPEN_WHEN_EMPTY
    ensures LeafAt(Launcher(number), p) && !OwnedAt(p) && ShapeAt(Launcher(number), p).value.omitEmpty
    ensures var leaf := ShapeAt(Launcher(number), p).value;
      && leaf.default == Some(EMPTY) && (forall w :: leaf.read(w) == Some(EMPTY) <==> w == EMPTY)
      && leaf.read(Str("require-corp")) == Some(Str("require-corp"))
  {
    hide Launcher, ShapeAt, Words;
    OpenShapes(number);
    WordsTaken(Anything, Some(""), true, "require-corp");
    WordsTaken(IsPolicy, Some(""), true, "require-corp");
  }
}
