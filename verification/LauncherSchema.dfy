/** The launcher's own configuration schema and its defaults. */
module LauncherSchema {
  import opened Basics
  import opened Json
  import opened Text
  import N = Numerals
  import Versions
  import opened JsonNumbers
  import opened Floats
  import opened Shortest
  import opened ConfigMerge
  import opened ConfigSchema

  // ----- the kinds of leaf -----

  /** Which whole number a reader makes of a number literal, if any. */
  type Decoder = string -> Option<int>

  /** Whole numbers up to 2^53 are read back, and what a literal is
      read as is read back as itself. */
  ghost predicate Rereads(number: Decoder) {
    && (forall n | 0 <= n <= EXACT :: number(N.IntText(n)) == Some(n))
    && (forall lit | number(lit).Some? :: number(N.IntText(number(lit).value)) == number(lit))
  }

  /** The launch decodes a literal into a 64-bit integer itself. */
  function LaunchReader(): Decoder { Literal }

  function Held(n: int): Option<int> { if N.Fits(n) then Some(n) else None }

  /** The merge decodes it into a float64 and writes that out before it is decoded
      into a 64-bit integer. What it makes of literals with a fraction or an exponent
      is left open but for being such a number. */
  ghost predicate ReadsAsShown(number: Decoder) {
    && (forall lit | Literal(lit).Some? :: number(lit) == Held(Shown(Literal(lit).value)))
    && (forall lit | number(lit).Some? :: N.Fits(number(lit).value) && Shown(number(lit).value) == number(lit).value)
  }

  /** Such a reader, for literals without fraction and exponent. */
  function MergeReader(): Decoder {
    lit => if Literal(lit).Some? then Held(Shown(Literal(lit).value)) else None
  }

  lemma MergeReaderReadsAsShown()
    ensures ReadsAsShown(MergeReader())
  {
    hide Shown;
    forall lit | MergeReader()(lit).Some? ensures Shown(MergeReader()(lit).value) == MergeReader()(lit).value {
      ShownIsStable(Literal(lit).value);
    }
  }

  lemma LaunchReaderRereads()
    ensures Rereads(LaunchReader())
  {
    forall lit | Literal(lit).Some? ensures Literal(N.IntText(Literal(lit).value)) == Literal(lit) {
      LiteralFits(lit);
      LiteralReads(Literal(lit).value);
    }
    forall n | 0 <= n <= EXACT ensures Literal(N.IntText(n)) == Some(n) { LiteralReads(n); }
  }

  lemma ShownRereads(number: Decoder)
    requires ReadsAsShown(number)
    ensures Rereads(number)
  {
    hide Shown, Literal;
    forall n | 0 <= n <= EXACT ensures number(N.IntText(n)) == Some(n) {
      LiteralReads(n);
      SmallIsShown(n);
    }
    forall lit | number(lit).Some? ensures number(N.IntText(number(lit).value)) == number(lit) {
      LiteralReads(number(lit).value);
    }
  }

  function Checked(ok: Value -> bool): Value -> Option<Value> {
    (w: Value) => if ok(w) && !w.Obj? then Some(w) else None
  }

  function Fixed(v: Value, default: Option<Value>): (s: Shape)
    ensures s.Leaf? && !s.omitEmpty && s.default == default
  {
    Leaf(Checked((w: Value) => w == v), default, false)
  }

  function Always(b: bool): (s: Shape)
    ensures s.Leaf? && !s.omitEmpty && s.default.Some?
  {
    Fixed(Bool(b), Some(Bool(b)))
  }

  function Flag(default: bool): (s: Shape)
    ensures s.Leaf? && !s.omitEmpty && s.default.Some?
  {
    Leaf(Checked((w: Value) => w.Bool?), Some(Bool(default)), false)
  }

  function Words(ok: string -> bool, default: Option<string>, omitEmpty: bool): (s: Shape)
    ensures s.Leaf? && s.omitEmpty == omitEmpty && s.default.Some? == default.Some?
  {
    Leaf(Checked((w: Value) => w.Str? && ok(w.s)), if default.Some? then Some(Str(default.value)) else None, omitEmpty)
  }

  function Whole(number: Decoder, least: int, most: int, default: Option<int>): (s: Shape)
    ensures s.Leaf? && !s.omitEmpty && s.default.Some? == default.Some?
  {
    Leaf((w: Value) =>
           if w.Num? && number(w.lit).Some? && least <= number(w.lit).value <= most
           then Some(Num(N.IntText(number(w.lit).value))) else None,
         if default.Some? then Some(Num(N.IntText(default.value))) else None, false)
  }

  function ListOf(ok: string -> bool, default: seq<string>): (s: Shape)
    ensures s.Leaf? && !s.omitEmpty && s.default.Some?
  {
    Leaf(Checked((w: Value) => w.Arr? && Distinct(w.items) && forall v <- w.items :: v.Str? && ok(v.s)),
         Some(Arr(seq(|default|, (i: nat) requires i < |default| => Str(default[i])))), false)
  }

  predicate Distinct(items: seq<Value>) { forall i, j | 0 <= i < j < |items| :: items[i] != items[j] }

  predicate Anything(s: string) { true }

  predicate IsPolicy(s: string) { s in ["", "require-corp", "credentialless"] }
  predicate IsEntryPath(s: string) { s in ["/", "/index.html", "/editor"] }
  predicate IsChannel(s: string) { s in ["manual", "patch", "none"] }

  predicate IsBrowser(s: string) {
    s in ["chrome", "msedge", "brave", "opera", "vivaldi", "chromium", "firefox", "custom"]
  }

  // ----- the patterns -----

  predicate LowerOrDigit(c: char) { 'a' <= c <= 'z' || IsDigit(c) }
  predicate Letter(c: char) { 'a' <= c <= 'z' || 'A' <= c <= 'Z' }
  predicate AllLower(s: string) { forall c <- s :: 'a' <= c <= 'z' }

  predicate IsGameId(s: string) {
    var parts := Split(s, '.');
    && |parts| >= 2 && (forall c <- parts[0] :: LowerOrDigit(c))
    && forall p <- parts :: p != "" && forall c <- p :: LowerOrDigit(c) || c == '-'
  }

  predicate IsGameName(s: string) { 1 <= |s| <= 80 }

  predicate IsProbePath(s: string) {
    var parts := Split(s, '/');
    && |parts| == 3 && parts[0] == "" && |parts[1]| > 2 && parts[1][..2] == "__" && AllLower(parts[1][2..])
    && parts[2] in ["probe", "health"]
  }

  predicate IsLocale(s: string) {
    && |s| >= 2 && AllLower(s[..2])
    && (|s| == 2 || (5 <= |s| <= 7 && s[2] == '-' && forall c <- s[3..] :: Letter(c)))
  }

  predicate IsMimeType(s: string) {
    var parts := Split(s, '/');
    && |parts| == 2 && parts[0] != "" && AllLower(parts[0]) && parts[1] != ""
    && forall c <- parts[1] :: Letter(c) || IsDigit(c) || c in ".+-"
  }

  predicate IsMimeEntry(k: string, v: Value) {
    && v.Str? && IsMimeType(v.s)
    && var name := if k != "" && k[0] == '.' then k[1..] else k;
       name != "" && forall c <- name :: Letter(c) || IsDigit(c)
  }

  // ----- the schema -----

  const CODE_TYPES: map<string, Value> := map[
    ".wasm" := Str("application/wasm"), ".json" := Str("application/json"),
    ".js" := Str("text/javascript"), ".mjs" := Str("text/javascript")]

  const PAGE_TYPES: map<string, Value> := map[
    ".html" := Str("text/html"), ".css" := Str("text/css"),
    ".svg" := Str("image/svg+xml"), ".woff2" := Str("font/woff2")]

  const MEDIA_TYPES: map<string, Value> := map[
    ".ogg" := Str("audio/ogg"), ".mp3" := Str("audio/mpeg"),
    ".png" := Str("image/png"), ".webp" := Str("image/webp")]

  const MIME_TYPES := CODE_TYPES + PAGE_TYPES + MEDIA_TYPES

  /** The largest value of a 64-bit member the schema does not bound. */
  const NO_BOUND: int := INT64_LIMIT - 1

  function Port(number: Decoder): (s: Shape)
    ensures s.Struct?
  {
    Struct(map[
      "base" := Whole(number, 1024, 49151, None),
      "span" := Whole(number, 1, 1000, None),
      "require_confirmation" := Flag(true),
      "allow_out_of_range" := Flag(true),
      "deny_list_file" := Words(Anything, Some("port-deny-list.json"), false)])
  }

  function ServerNumbers(number: Decoder): map<string, Shape> {
    map[
      "heartbeat_interval_seconds" := Whole(number, 1, 60, Some(5)),
      "idle_timeout_seconds" := Whole(number, 30, 3600, Some(90)),
      "max_range_bytes" := Whole(number, 65536, NO_BOUND, Some(8388608)),
      "session_ttl_seconds" := Whole(number, 60, NO_BOUND, Some(28800)),
      "bootstrap_token_ttl_seconds" := Whole(number, 10, 600, Some(120)),
      "drain_timeout_seconds" := Whole(number, 1, 120, Some(15))]
  }

  function ServerTexts(): map<string, Shape> {
    map[
      "bind" := Fixed(Str("127.0.0.1"), Some(Str("127.0.0.1"))),
      "probe_path" := Words(IsProbePath, Some("/__kobra/probe"), false),
      "csp" := Words(Anything, Some(""), true),
      "serve_mods" := Flag(true),
      "csrf_required" := Always(true),
      "cross_origin_embedder_policy" := Words(IsPolicy, Some(""), true),
      "entry_path" := Words(IsEntryPath, Some("/index.html"), true)]
  }

  function Server(number: Decoder): (s: Shape)
    ensures s.Struct?
  {
    hide ServerNumbers, ServerTexts;
    Struct(ServerNumbers(number) + ServerTexts())
  }

  function Browsers(number: Decoder): (s: Shape)
    ensures s.Struct?
  {
    Struct(map[
      "chrome" := Whole(number, 105, NO_BOUND, Some(105)),
      "edge" := Whole(number, 105, NO_BOUND, Some(105)),
      "opera" := Whole(number, 91, NO_BOUND, Some(91)),
      "brave" := Words(Anything, Some("1.45"), false)])
  }

  function Updates(): (s: Shape)
    ensures s.Struct?
  {
    Struct(map[
      "channel" := Words(IsChannel, Some("manual"), false),
      "patch_base_url" := Words(Anything, Some(""), true),
      "update_check_user_initiated_only" := Always(true),
      "retain_previous_release" := Flag(true),
      "protect_data_dir" := Always(true)])
  }

  function Diagnostics(number: Decoder): (s: Shape)
    ensures s.Struct?
  {
    Struct(map[
      "log_retention_files" := Whole(number, 1, NO_BOUND, Some(5)),
      "log_max_bytes" := Whole(number, 65536, NO_BOUND, Some(0x10_0000)),
      "expose_filesystem_paths" := Always(false)])
  }

  function DataApi(number: Decoder): (s: Shape)
    ensures s.Struct?
  {
    Struct(map[
      "max_request_bytes" := Whole(number, 0x10_0000, 0x4000_0000, Some(0x400_0000)),
      "writes_per_minute" := Whole(number, 1, NO_BOUND, Some(100)),
      "bytes_per_minute" := Whole(number, 0x10_0000, NO_BOUND, Some(0x400_0000)),
      "keep_revisions" := Whole(number, 0, 64, Some(8)),
      "trash_retention_days" := Whole(number, 0, NO_BOUND, Some(30)),
      "allow_data_dir_override" := Flag(true)])
  }

  function Identity(): map<string, Shape> {
    map[
      "schema" := Fixed(Str("kobra.launcher-config/1"), None),
      "game_id" := Words(IsGameId, None, false),
      "game_name" := Words(IsGameName, None, false),
      "release" := Words(Versions.ValidRelease, Some(""), true),
      "browser_preference" := ListOf(IsBrowser, ["chrome", "msedge", "brave", "opera"]),
      "mime_types" := Table(IsMimeEntry, MIME_TYPES),
      "locales" := ListOf(IsLocale, ["en"])]
  }

  function Sections(number: Decoder): map<string, Shape> {
    map[
      "port" := Port(number),
      "server" := Server(number),
      "min_browser_version" := Browsers(number),
      "update" := Updates(),
      "diagnostics" := Diagnostics(number),
      "data_api" := DataApi(number)]
  }

  function Launcher(number: Decoder): Schema {
    hide Identity, Sections;
    Struct(Identity() + Sections(number))
  }

  // ----- the schema is sound -----

  lemma WholeSound(number: Decoder, least: int, most: int, default: Option<int>)
    requires Rereads(number) && (default.Some? ==> least <= default.value <= most && 0 <= default.value <= EXACT)
    ensures Sound(Whole(number, least, most, default))
  {}

  lemma WordsSound(ok: string -> bool, default: Option<string>, omitEmpty: bool)
    requires default.Some? && default.value != "" ==> ok(default.value)
    requires default == Some("") ==> omitEmpty || ok("")
    requires omitEmpty ==> default.Some? && (default.value == "" || !ok(""))
    ensures Sound(Words(ok, default, omitEmpty))
  {}

  lemma ListSound(ok: string -> bool, default: seq<string>)
    requires (forall s <- default :: ok(s)) && forall i, j | 0 <= i < j < |default| :: default[i] != default[j]
    ensures Sound(ListOf(ok, default))
  {}

  lemma FixedSound(v: Value, default: Option<Value>)
    requires !v.Obj? && default in [None, Some(v)]
    ensures Sound(Fixed(v, default))
  {}

  lemma FlagSound(b: bool)
    ensures Sound(Flag(b)) && Sound(Always(b))
  {}

  lemma StructSound(s: Schema)
    requires forall k <- s.members :: Sound(s.members[k]) && (k in OWNED ==> !s.members[k].Struct?)
    ensures Sound(s)
  {}

  lemma PortSound(number: Decoder)
    requires Rereads(number)
    ensures Sound(Port(number))
  {
    hide Whole, Words, Sound;
    WholeSound(number, 1024, 49151, None);
    WholeSound(number, 1, 1000, None);
    WordsSound(Anything, Some("port-deny-list.json"), false);
    FlagSound(true);
    StructSound(Port(number));
  }

  lemma ProbePathIs(name: string, what: string)
    requires name != "" && AllLower(name) && what in ["probe", "health"]
    ensures IsProbePath("/__" + name + "/" + what)
  {
    var first := "__" + name;
    assert "" + ['/'] + (first + ['/'] + what) == "/__" + name + "/" + what;
    assert forall c <- name :: 'a' <= c <= 'z';
    assert '/' !in first && '/' !in what && first[2..] == name && first[..2] == "__";
    SplitWhole(what, '/');
    SplitFirst(first, what, '/');
    SplitFirst("", first + ['/'] + what, '/');
  }

  lemma ServerTextsSound(k: string)
    requires k in ServerTexts()
    ensures Sound(ServerTexts()[k]) && k !in OWNED
  {
    hide Sound, Words, Fixed, Always, Flag, IsProbePath;
    ProbePathIs("kobra", "probe");
    assert "/__" + "kobra" + "/" + "probe" == "/__kobra/probe";
    WordsSound(IsProbePath, Some("/__kobra/probe"), false);
    WordsSound(Anything, Some(""), true);
    WordsSound(IsPolicy, Some(""), true);
    WordsSound(IsEntryPath, Some("/index.html"), true);
    FixedSound(Str("127.0.0.1"), Some(Str("127.0.0.1")));
    FlagSound(true);
  }

  lemma ServerNumbersSound(number: Decoder, k: string)
    requires Rereads(number) && k in ServerNumbers(number)
    ensures Sound(ServerNumbers(number)[k]) && k !in OWNED
  {
    hide Whole, Sound;
    WholeSound(number, 1, 60, Some(5));
    WholeSound(number, 30, 3600, Some(90));
    WholeSound(number, 65536, NO_BOUND, Some(8388608));
    WholeSound(number, 60, NO_BOUND, Some(28800));
    WholeSound(number, 10, 600, Some(120));
    WholeSound(number, 1, 120, Some(15));
  }

  lemma ServerSound(number: Decoder)
    requires Rereads(number)
    ensures Sound(Server(number))
  {
    hide ServerNumbers, ServerTexts, Sound;
    forall k | k in Server(number).members ensures Sound(Server(number).members[k]) && k !in OWNED {
      if k in ServerTexts() { ServerTextsSound(k); } else { ServerNumbersSound(number, k); }
    }
    StructSound(Server(number));
  }

  lemma BrowsersSound(number: Decoder)
    requires Rereads(number)
    ensures Sound(Browsers(number))
  {
    hide Whole, Words, Sound;
    WholeSound(number, 105, NO_BOUND, Some(105));
    WholeSound(number, 91, NO_BOUND, Some(91));
    WordsSound(Anything, Some("1.45"), false);
    StructSound(Browsers(number));
  }

  lemma UpdatesSound()
    ensures Sound(Updates())
  {
    hide Words, Sound, Flag, Always;
    WordsSound(IsChannel, Some("manual"), false);
    WordsSound(Anything, Some(""), true);
    FlagSound(true);
    StructSound(Updates());
  }

  lemma DiagnosticsSound(number: Decoder)
    requires Rereads(number)
    ensures Sound(Diagnostics(number))
  {
    hide Whole, Sound, Always;
    FlagSound(false);
    WholeSound(number, 1, NO_BOUND, Some(5));
    WholeSound(number, 65536, NO_BOUND, Some(0x10_0000));
    StructSound(Diagnostics(number));
  }

  lemma DataApiSound(number: Decoder)
    requires Rereads(number)
    ensures Sound(DataApi(number))
  {
    hide Whole, Sound, Flag;
    WholeSound(number, 0x10_0000, 0x4000_0000, Some(0x400_0000));
    WholeSound(number, 1, NO_BOUND, Some(100));
    WholeSound(number, 0x10_0000, NO_BOUND, Some(0x400_0000));
    WholeSound(number, 0, 64, Some(8));
    WholeSound(number, 0, NO_BOUND, Some(30));
    FlagSound(true);
    StructSound(DataApi(number));
  }

  lemma MimeEntryIs(k: string, v: string, name: string, kind: string, sub: string)
    requires k == "." + name && v == kind + "/" + sub && k != "" && k[0] == '.' && k[1..] == name
    requires name != "" && forall c <- name :: Letter(c) || IsDigit(c)
    requires kind != "" && AllLower(kind) && sub != "" && '/' !in sub
    requires forall c <- sub :: Letter(c) || IsDigit(c) || c in ".+-"
    ensures IsMimeEntry(k, Str(v))
  {
    SplitWhole(sub, '/');
    SplitFirst(kind, sub, '/');
  }

  lemma CodeTypesSound()
    ensures forall k <- CODE_TYPES :: IsMimeEntry(k, CODE_TYPES[k])
  {
    hide IsMimeEntry;
    ScriptEntries();
    MimeEntryIs(".wasm", "application/wasm", "wasm", "application", "wasm");
    MimeEntryIs(".json", "application/json", "json", "application", "json");
  }

  lemma ScriptEntries()
    ensures IsMimeEntry(".js", Str("text/javascript")) && IsMimeEntry(".mjs", Str("text/javascript"))
  {
    hide IsMimeEntry;
    MimeEntryIs(".js", "text/javascript", "js", "text", "javascript");
    MimeEntryIs(".mjs", "text/javascript", "mjs", "text", "javascript");
  }

  lemma PageTypesSound()
    ensures forall k <- PAGE_TYPES :: IsMimeEntry(k, PAGE_TYPES[k])
  {
    hide IsMimeEntry;
    TextEntries();
    MimeEntryIs(".svg", "image/svg+xml", "svg", "image", "svg+xml");
    MimeEntryIs(".woff2", "font/woff2", "woff2", "font", "woff2");
  }

  lemma TextEntries()
    ensures IsMimeEntry(".html", Str("text/html")) && IsMimeEntry(".css", Str("text/css"))
  {
    hide IsMimeEntry;
    MimeEntryIs(".html", "text/html", "html", "text", "html");
    MimeEntryIs(".css", "text/css", "css", "text", "css");
  }

  lemma MediaTypesSound()
    ensures forall k <- MEDIA_TYPES :: IsMimeEntry(k, MEDIA_TYPES[k])
  {
    hide IsMimeEntry;
    MimeEntryIs(".ogg", "audio/ogg", "ogg", "audio", "ogg");
    MimeEntryIs(".mp3", "audio/mpeg", "mp3", "audio", "mpeg");
    MimeEntryIs(".png", "image/png", "png", "image", "png");
    MimeEntryIs(".webp", "image/webp", "webp", "image", "webp");
  }

  lemma MimeTypesSound()
    ensures Sound(Table(IsMimeEntry, MIME_TYPES))
  {
    hide IsMimeType, CODE_TYPES, PAGE_TYPES, MEDIA_TYPES;
    CodeTypesSound();
    PageTypesSound();
    MediaTypesSound();
  }

  lemma IdentitySound(k: string)
    requires k in Identity()
    ensures Sound(Identity()[k]) && !Identity()[k].Struct?
  {
    hide Sound, MIME_TYPES;
    FixedSound(Str("kobra.launcher-config/1"), None);
    WordsSound(IsGameId, None, false);
    WordsSound(IsGameName, None, false);
    WordsSound(Versions.ValidRelease, Some(""), true);
    ListSound(IsBrowser, ["chrome", "msedge", "brave", "opera"]);
    assert IsLocale("en") by { assert "en"[..2] == "en"; }
    ListSound(IsLocale, ["en"]);
    MimeTypesSound();
  }

  lemma LauncherSound(number: Decoder)
    requires Rereads(number)
    ensures Sound(Launcher(number))
  {
    hide Port, Server, Browsers, Updates, Diagnostics, DataApi, Identity, Sound;
    PortSound(number);
    ServerSound(number);
    BrowsersSound(number);
    UpdatesSound();
    DiagnosticsSound(number);
    DataApiSound(number);
    forall k | k in Identity() ensures Sound(Identity()[k]) && !Identity()[k].Struct? { IdentitySound(k); }
    StructSound(Launcher(number));
  }
}
