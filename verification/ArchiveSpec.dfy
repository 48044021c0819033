/** The update archive: how the packager builds it and its index, and how the
    launcher checks and unpacks it. The tar and zstd encodings are taken as given:
    an archive is its bytes and the members they hold. `sha` is the hex SHA-256
    digest. */
module ArchiveSpec {
  import opened Basics
  import opened Order
  import opened ArchivePaths
  import T = Text
  import N = Numerals

  type Bytes = seq<bv8>

  // ----- shared documents -----

  datatype FileEntry = FileEntry(path: string, size: int, hash: string, mode: string)

  datatype Manifest = Manifest(files: seq<FileEntry>, totalSize: int, archiveSize: int, archiveHash: string,
                               signed: bool)

  /** `size` is what the header declares and `body` what the tar reader yields;
      shorter than `size` it ends in an error. */
  datatype TarMember = TarMember(kind: Type, name: string, size: nat, body: Bytes, mode: nat)

  datatype Archive = Archive(bytes: Bytes, members: seq<TarMember>)

  function Tagged(sha: Bytes -> string, content: Bytes): string { "sha256:" + sha(content) }

  // ----- the packager -----

  datatype StageFile = StageFile(content: Bytes, executable: bool)

  type Stage = map<string, StageFile>

  /** RelFiles: what is below a namespace, sorted. */
  ghost function RelFiles(stage: Stage, ns: string): seq<string> { Sorted(RelNames(stage, ns)) }

  function RelNames(stage: Stage, ns: string): set<string> {
    set k | k in stage && ns + "/" <= k && |k| > |ns| + 1 :: k[|ns| + 1..]
  }

  /** The namespaced keys of the files a release ships, in the packager's order. */
  function Keys(ns: string, rels: seq<string>, manifestRel: string): seq<string> {
    if |rels| == 0 then []
    else (if ns + "/" + rels[0] == manifestRel then [] else [ns + "/" + rels[0]]) + Keys(ns, rels[1..], manifestRel)
  }

  ghost function Shipped(stage: Stage, manifestRel: string): seq<string> {
    Keys("game", RelFiles(stage, "game"), manifestRel) + Keys("launcher", RelFiles(stage, "launcher"), manifestRel)
  }

  function EntryOf(sha: Bytes -> string, key: string, f: StageFile): FileEntry {
    FileEntry(key, |f.content|, Tagged(sha, f.content), if f.executable then "755" else "644")
  }

  function MemberOf(key: string, f: StageFile): TarMember {
    TarMember(Regular, key, |f.content|, f.content, if f.executable then 0x1ED else 0x1A4)
  }

  function Entries(sha: Bytes -> string, stage: Stage, keys: seq<string>): seq<FileEntry>
    requires forall i | 0 <= i < |keys| :: keys[i] in stage
  {
    if |keys| == 0 then []
    else
      var n := |keys| - 1;
      Entries(sha, stage, keys[..n]) + [EntryOf(sha, keys[n], stage[keys[n]])]
  }

  function Members(stage: Stage, keys: seq<string>): seq<TarMember>
    requires forall i | 0 <= i < |keys| :: keys[i] in stage
  {
    if |keys| == 0 then [] else var n := |keys| - 1; Members(stage, keys[..n]) + [MemberOf(keys[n], stage[keys[n]])]
  }

  function Total(stage: Stage, keys: seq<string>): int
    requires forall i | 0 <= i < |keys| :: keys[i] in stage
  {
    if |keys| == 0 then 0 else var n := |keys| - 1; Total(stage, keys[..n]) + |stage[keys[n]].content|
  }

  datatype Package = Package(manifest: Manifest, archive: Archive)

  lemma {:induction false} KeysAreStaged(stage: Stage, ns: string, rels: seq<string>, manifestRel: string)
    requires forall r <- rels :: ns + "/" + r in stage
    ensures forall k <- Keys(ns, rels, manifestRel) :: k in stage
    decreases |rels|
  {
    if |rels| > 0 { KeysAreStaged(stage, ns, rels[1..], manifestRel); }
  }

  lemma RelsAreStaged(stage: Stage, ns: string)
    ensures forall r <- RelFiles(stage, ns) :: ns + "/" + r in stage
  {
    forall r <- RelFiles(stage, ns) ensures ns + "/" + r in stage {
      var k :| k in stage && ns + "/" <= k && |k| > |ns| + 1 && r == k[|ns| + 1..];
      assert k == ns + "/" + r;
    }
  }

  lemma ShippedAreStaged(stage: Stage, manifestRel: string)
    ensures forall i | 0 <= i < |Shipped(stage, manifestRel)| :: Shipped(stage, manifestRel)[i] in stage
  {
    RelsAreStaged(stage, "game");
    RelsAreStaged(stage, "launcher");
    KeysAreStaged(stage, "game", RelFiles(stage, "game"), manifestRel);
    KeysAreStaged(stage, "launcher", RelFiles(stage, "launcher"), manifestRel);
    forall i | 0 <= i < |Shipped(stage, manifestRel)| ensures Shipped(stage, manifestRel)[i] in stage {
      assert Shipped(stage, manifestRel)[i] in Shipped(stage, manifestRel);
    }
  }

  /** The archive of a stage and the manifest that goes with it, unless the file
      index is refused. `encode` is the tar and zstd encoding. */
  ghost function Pack(sha: Bytes -> string, encode: seq<TarMember> -> Bytes, stage: Stage, manifestRel: string)
    : Option<Package>
  {
    ShippedAreStaged(stage, manifestRel);
    var keys := Shipped(stage, manifestRel);
    var bytes := encode(Members(stage, keys));
    if !CheckFileIndex(keys) then None
    else Some(Package(Manifest(Entries(sha, stage, keys), Total(stage, keys), |bytes|, Tagged(sha, bytes), false),
                      Archive(bytes, Members(stage, keys))))
  }

  // ----- hashes -----

  predicate IsHex(c: char) { '0' <= c <= '9' || 'a' <= c <= 'f' }

  /** parseHash: the hex part of a sha256 hash, in lower case. */
  function ParseHash(s: string): Option<string> {
    var lower := T.Lower(T.TrimSpace(s));
    var colon := T.Index(lower, ':');
    if colon == |lower| || lower[..colon] != "sha256" then None
    else
      var digits := lower[colon + 1..];
      if |digits| == 64 && forall c <- digits :: IsHex(c) then Some(digits) else None
  }

  predicate HashMatches(declared: string, actual: string) {
    ParseHash(declared).Some? && ParseHash(declared) == ParseHash(actual)
  }

  // ----- the launcher: Verify -----

  /** indexFiles: by clean path, the last entry winning. */
  function IndexFiles(files: seq<FileEntry>): map<string, FileEntry> {
    if |files| == 0 then map[]
    else IndexFiles(files[..|files| - 1])[Clean(files[|files| - 1].path) := files[|files| - 1]]
  }

  datatype Walk = Counted(total: int) | Stopped(reason: string)

  /** One member: how many bytes it adds to the total. */
  function VerifyMember(sha: Bytes -> string, index: map<string, FileEntry>, t: TarMember): Walk {
    match CheckEntry(t.kind, t.name)
    case Violation(reason) => Stopped(reason)
    case Root => Counted(0)
    case Member(rel, isDir) =>
      if isDir then if |t.body| == t.size then Counted(0) else Stopped("entry_content")
      else if index.Keys != {} && rel !in index then Stopped("unlisted_entry")
      else if index.Keys != {} && index[rel].size != t.size then Stopped("entry_content")
      else if |t.body| != t.size then Stopped("entry_content")
      else if index.Keys != {} && !HashMatches(index[rel].hash, Tagged(sha, t.body)) then Stopped("entry_content")
      else Counted(t.size)
  }

  function VerifyMembers(sha: Bytes -> string, index: map<string, FileEntry>, members: seq<TarMember>): Walk {
    if |members| == 0 then Counted(0)
    else
      match VerifyMembers(sha, index, members[..|members| - 1])
      case Stopped(reason) => Stopped(reason)
      case Counted(before) =>
        match VerifyMember(sha, index, members[|members| - 1])
        case Stopped(reason) => Stopped(reason)
        case Counted(n) => Counted(before + n)
  }

  datatype Verdict = Accepted | Refused(reason: string)

  function Verify(sha: Bytes -> string, a: Archive, m: Manifest): Verdict {
    if m.signed then Refused("signature_unavailable")
    else if m.archiveSize > 0 && |a.bytes| != m.archiveSize then Refused("archive_size")
    else if m.archiveHash == "" then Refused("archive_hash_missing")
    else if !HashMatches(m.archiveHash, Tagged(sha, a.bytes)) then Refused("archive_hash")
    else match VerifyMembers(sha, IndexFiles(m.files), a.members)
      case Stopped(reason) => Refused(reason)
      case Counted(total) => if total != m.totalSize then Refused("total_size") else Accepted
  }

  // ----- the launcher: Extract -----

  datatype StagedFile = StagedFile(content: Bytes, mode: nat)

  /** What is below the staging root, how many bytes count against the budget, and
      how many were ever put on the disk. */
  datatype Staging = Staging(files: map<string, StagedFile>, dirs: set<string>, written: int, touched: int)

  datatype Extraction = Extracted(s: Staging) | Broken(s: Staging, reason: string)

  /** `inner` is below the directory `outer`. */
  predicate Inside(inner: string, outer: string) { outer + "/" <= inner }

  /** A directory cannot be made where a file is or below one. */
  predicate DirBlocked(s: Staging, path: string) {
    exists f <- s.files :: f == path || Inside(path, f)
  }

  /** A file cannot be opened below a file or where a directory is. */
  predicate FileBlocked(s: Staging, path: string) {
    || (exists f <- s.files :: Inside(path, f) || Inside(f, path))
    || (exists d <- s.dirs :: d == path || Inside(d, path))
  }

  predicate OctalDigits(s: string) { forall i | 0 <= i < |s| :: '0' <= s[i] <= '7' }

  function OctalValue(s: string): nat
    requires OctalDigits(s)
  {
    if s == "" then 0 else 8 * OctalValue(s[..|s| - 1]) + (s[|s| - 1] as int - '0' as int)
  }

  /** parseMode of a non-empty mode. */
  function ParseMode(s: string): Option<nat> {
    if s == "" || !OctalDigits(s) || OctalValue(s) >= 0x1_0000_0000 then None else Some(OctalValue(s) % 512)
  }

  function ModeOf(t: TarMember, want: Option<FileEntry>): Option<nat> {
    if want.Some? && want.value.mode != "" then ParseMode(want.value.mode)
    else if t.mode % 512 != 0 then Some(t.mode % 512)
    else Some(0x1A4)
  }

  function ExtractMember(sha: Bytes -> string, index: map<string, FileEntry>, budget: int, s: Staging, t: TarMember)
    : Extraction
  {
    match CheckEntry(t.kind, t.name)
    case Violation(reason) => Broken(s, reason)
    case Root => Extracted(s)
    case Member(rel, isDir) =>
      match StagedTarget(rel)
      case None => Broken(s, "unlisted_entry")
      case Some(target) =>
        if isDir then
          if |t.body| != t.size || DirBlocked(s, target) then Broken(s, "extract")
          else Extracted(s.(dirs := s.dirs + {target}))
        else if index.Keys != {} && rel !in index then Broken(s, "unlisted_entry")
        else if index.Keys != {} && index[rel].size != t.size then Broken(s, "entry_size")
        else if N.Wrap(s.written + t.size) > budget then Broken(s, "size_budget")
        else
          var want := if index.Keys != {} then Some(index[rel]) else None;
          match ModeOf(t, want)
          case None => Broken(s, "entry_mode")
          case Some(mode) => WriteFile(sha, s, t, target, want, mode)
  }

  function WriteFile(sha: Bytes -> string, s: Staging, t: TarMember, target: string, want: Option<FileEntry>, mode: nat)
    : Extraction
  {
    if FileBlocked(s, target) then Broken(s, "extract")
    else
      var n := if |t.body| < t.size then |t.body| else t.size;
      var gone := s.(files := s.files - {target}, touched := s.touched + n);
      if |t.body| != t.size then Broken(gone, "extract")
      else if want.Some? && !HashMatches(want.value.hash, Tagged(sha, t.body)) then Broken(gone, "entry_hash")
      else Extracted(Staging(s.files[target := StagedFile(t.body, mode)], s.dirs, s.written + t.size, s.touched + n))
  }

  function ExtractMembers(sha: Bytes -> string, index: map<string, FileEntry>, budget: int, members: seq<TarMember>)
    : Extraction
  {
    if |members| == 0 then Extracted(Staging(map[], {}, 0, 0))
    else
      match ExtractMembers(sha, index, budget, members[..|members| - 1])
      case Broken(s, reason) => Broken(s, reason)
      case Extracted(s) => ExtractMember(sha, index, budget, s, members[|members| - 1])
  }

  /** Extract into an empty staging root. */
  function Extract(sha: Bytes -> string, a: Archive, m: Manifest): Extraction {
    ExtractMembers(sha, IndexFiles(m.files), m.totalSize, a.members)
  }

  // ----- the packager's own check of the archive -----

  /** verifyTarIndex: by exact path, the last entry winning. */
  function IndexOf(files: seq<FileEntry>): map<string, FileEntry> {
    if |files| == 0 then map[] else IndexOf(files[..|files| - 1])[files[|files| - 1].path := files[|files| - 1]]
  }

  predicate Matches(sha: Bytes -> string, index: map<string, FileEntry>, t: TarMember) {
    t.kind.Regular? ==>
      && t.name in index && t.size == index[t.name].size && |t.body| == t.size
      && Tagged(sha, t.body) == index[t.name].hash
  }

  predicate VerifyTarIndex(sha: Bytes -> string, a: Archive, m: Manifest) {
    && (forall t <- a.members :: Matches(sha, IndexOf(m.files), t))
    && (forall f <- m.files :: exists t <- a.members :: t.kind.Regular? && t.name == f.path)
  }
}
