/** The launcher's schema as a launch and as the merge reads it. */
module LauncherReaders {
  import opened Basics
  import opened Json
  import opened Text
  import opened JsonNumbers
  import opened Floats
  import N = Numerals
  import Versions
  import opened ConfigMerge
  import opened ConfigSchema
  import opened ConfigHistories
  import opened ConfigLaunch
  import opened LauncherSchema

  function Launch(): Schema { Launcher(LaunchReader()) }

  // ----- leaf by leaf -----

  /** A leaf that holds no number. */
  ghost predicate Wordy(s: Shape) { s.Leaf? ==> forall w | s.read(w).Some? :: !w.Num? }

  /** The two readers of one whole number between `least` and `most`. */
  ghost predicate WholePair(number: Decoder, t: Shape, s: Shape, least: int, most: int) {
    && 0 <= least <= EXACT && (most <= EXACT || most == NO_BOUND)
    && exists d :: t == Whole(LaunchReader(), least, most, d) && s == Whole(number, least, most, d)
  }

  ghost predicate Paired(number: Decoder, t: Shape, s: Shape) {
    (t == s && Wordy(t)) || exists least, most :: WholePair(number, t, s, least, most)
  }

  lemma WholesPair(number: Decoder, least: int, most: int, d: Option<int>)
    requires 0 <= least <= EXACT && (most <= EXACT || most == NO_BOUND)
    ensures Paired(number, Whole(LaunchReader(), least, most, d), Whole(number, least, most, d))
  {
    hide Whole;
    assert WholePair(number, Whole(LaunchReader(), least, most, d), Whole(number, least, most, d), least, most);
  }

  lemma WordsPair(number: Decoder, ok: string -> bool, default: Option<string>, omitEmpty: bool)
    ensures var s := Words(ok, default, omitEmpty); Paired(number, s, s)
  {}

  lemma FixedPair(number: Decoder, v: Value, default: Option<Value>)
    requires !v.Num?
    ensures var s := Fixed(v, default); Paired(number, s, s)
  {}

  lemma FlagPair(number: Decoder, b: bool)
    ensures Paired(number, Flag(b), Flag(b)) && Paired(number, Always(b), Always(b))
  {
    FixedPair(number, Bool(b), Some(Bool(b)));
  }

  lemma ListPair(number: Decoder, ok: string -> bool, default: seq<string>)
    ensures var s := ListOf(ok, default); Paired(number, s, s)
  {}

  ghost predicate AllPaired(number: Decoder, t: map<string, Shape>, s: map<string, Shape>) {
    t.Keys == s.Keys && forall j <- t :: Paired(number, t[j], s[j])
  }

  ghost predicate SectionPaired(number: Decoder, t: Shape, s: Shape) {
    t.Struct? && s.Struct? && AllPaired(number, t.members, s.members)
  }

  lemma PortPairs(number: Decoder)
    ensures SectionPaired(number, Port(LaunchReader()), Port(number))
  {
    hide Paired, Whole, Words, Flag;
    WholesPair(number, 1024, 49151, None);
    WholesPair(number, 1, 1000, None);
    FlagPair(number, true);
    WordsPair(number, Anything, Some("port-deny-list.json"), false);
  }

  lemma ServerNumbersPair(number: Decoder)
    ensures AllPaired(number, ServerNumbers(LaunchReader()), ServerNumbers(number))
  {
    hide Paired, Whole;
    WholesPair(number, 1, 60, Some(5));
    WholesPair(number, 30, 3600, Some(90));
    WholesPair(number, 65536, NO_BOUND, Some(8388608));
    WholesPair(number, 60, NO_BOUND, Some(28800));
    WholesPair(number, 10, 600, Some(120));
    WholesPair(number, 1, 120, Some(15));
  }

  lemma ServerTextsPair(number: Decoder)
    ensures AllPaired(number, ServerTexts(), ServerTexts())
  {
    hide Paired, Words, Fixed, Flag, Always;
    WordsPair(number, IsProbePath, Some("/__kobra/probe"), false);
    WordsPair(number, Anything, Some(""), true);
    WordsPair(number, IsPolicy, Some(""), true);
    WordsPair(number, IsEntryPath, Some("/index.html"), true);
    FixedPair(number, Str("127.0.0.1"), Some(Str("127.0.0.1")));
    FlagPair(number, true);
  }

  lemma ServerPairs(number: Decoder)
    ensures SectionPaired(number, Server(LaunchReader()), Server(number))
  {
    hide Paired, ServerNumbers, ServerTexts;
    ServerNumbersPair(number);
    ServerTextsPair(number);
  }

  lemma BrowsersPair(number: Decoder)
    ensures SectionPaired(number, Browsers(LaunchReader()), Browsers(number))
  {
    hide Paired, Whole, Words;
    WholesPair(number, 105, NO_BOUND, Some(105));
    WholesPair(number, 91, NO_BOUND, Some(91));
    WordsPair(number, Anything, Some("1.45"), false);
  }

  lemma UpdatesPair(number: Decoder)
    ensures SectionPaired(number, Updates(), Updates())
  {
    hide Paired, Words, Flag, Always;
    WordsPair(number, IsChannel, Some("manual"), false);
    WordsPair(number, Anything, Some(""), true);
    FlagPair(number, true);
  }

  lemma DiagnosticsPair(number: Decoder)
    ensures SectionPaired(number, Diagnostics(LaunchReader()), Diagnostics(number))
  {
    hide Paired, Whole, Always;
    WholesPair(number, 1, NO_BOUND, Some(5));
    WholesPair(number, 65536, NO_BOUND, Some(0x10_0000));
    FlagPair(number, false);
  }

  lemma DataApiPairs(number: Decoder)
    ensures SectionPaired(number, DataApi(LaunchReader()), DataApi(number))
  {
    hide Paired, Whole, Flag;
    WholesPair(number, 0x10_0000, 0x4000_0000, Some(0x400_0000));
    WholesPair(number, 1, NO_BOUND, Some(100));
    WholesPair(number, 0x10_0000, NO_BOUND, Some(0x400_0000));
    WholesPair(number, 0, 64, Some(8));
    WholesPair(number, 0, NO_BOUND, Some(30));
    FlagPair(number, true);
  }

  lemma SectionsPair(number: Decoder, k: string)
    requires k in Sections(number)
    ensures k in Sections(LaunchReader()) && SectionPaired(number, Sections(LaunchReader())[k], Sections(number)[k])
  {
    hide SectionPaired, Port, Server, Browsers, Updates, Diagnostics, DataApi;
    PortPairs(number);
    ServerPairs(number);
    BrowsersPair(number);
    UpdatesPair(number);
    DiagnosticsPair(number);
    DataApiPairs(number);
  }

  lemma SectionNames(number: Decoder)
    ensures Sections(LaunchReader()).Keys == Sections(number).Keys
  {
    hide Port, Server, Browsers, Updates, Diagnostics, DataApi;
  }

  lemma IdentityPairs(number: Decoder, k: string)
    requires k in Identity()
    ensures Identity()[k].Table? || Paired(number, Identity()[k], Identity()[k])
  {
    hide Paired, Words, ListOf, Fixed, MIME_TYPES;
    FixedPair(number, Str("kobra.launcher-config/1"), None);
    WordsPair(number, IsGameId, None, false);
    WordsPair(number, IsGameName, None, false);
    WordsPair(number, Versions.ValidRelease, Some(""), true);
    ListPair(number, IsBrowser, ["chrome", "msedge", "brave", "opera"]);
    ListPair(number, IsLocale, ["en"]);
  }

  // ----- one schema -----

  lemma PairIsSame(number: Decoder, t: Shape, s: Shape)
    requires ReadsAsShown(number) && Paired(number, t, s) && Sound(t) && t.Leaf?
    ensures SameSchema(t, s)
  {
    if t != s {
      hide Paired, ReadsAsShown, Sound;
      var least, most :| WholePair(number, t, s, least, most);
      WholeIsSame(number, t, s, least, most);
    }
  }

  lemma WholeIsSame(number: Decoder, t: Shape, s: Shape, least: int, most: int)
    requires ReadsAsShown(number) && WholePair(number, t, s, least, most)
    ensures t.Leaf? && s.Leaf? && SameSchema(t, s)
  {
    forall w | s.read(w).Some? ensures t.read(s.read(w).value) == s.read(w) {
      LiteralReads(number(w.lit).value);
    }
  }

  lemma {:induction false} SameAsItself(s: Shape)
    requires Sound(s)
    ensures SameSchema(s, s)
  {
    match s
    case Leaf(_, _, _) =>
    case Table(_, _) =>
    case Struct(members) =>
      forall k | k in members ensures SameSchema(members[k], members[k]) { SameAsItself(members[k]); }
  }

  lemma PairedLeavesAreSame(number: Decoder, t: Schema, s: Schema)
    requires ReadsAsShown(number) && AllPaired(number, t.members, s.members)
    requires Sound(t) && forall j <- t.members :: t.members[j].Leaf? && j !in OWNED
    ensures SameSchema(t, s)
  {
    forall j | j in t.members ensures SameSchema(t.members[j], s.members[j]) {
      PairIsSame(number, t.members[j], s.members[j]);
    }
  }
}
