/** Package, then install: what the packager builds from a stage is what the
    launcher unpacks, exactly when the stage uses no reserved character. */
module ArchiveTheorems {
  import opened Basics
  import opened Order
  import opened ArchivePaths
  import opened ArchiveSpec
  import opened ArchiveProofs
  import T = Text
  import N = Numerals

  // ----- what is shipped -----

  lemma {:induction false} KeysHold(ns: string, rels: seq<string>, manifestRel: string)
    requires forall i, j | 0 <= i < j < |rels| :: rels[i] != rels[j]
    ensures forall k :: k in Keys(ns, rels, manifestRel) <==> k != manifestRel && exists r <- rels :: k == ns + "/" + r
    ensures forall i, j | 0 <= i < j < |Keys(ns, rels, manifestRel)| ::
      Keys(ns, rels, manifestRel)[i] != Keys(ns, rels, manifestRel)[j]
    decreases |rels|
  {
    if |rels| > 0 {
      var head, tail := ns + "/" + rels[0], Keys(ns, rels[1..], manifestRel);
      assert rels == [rels[0]] + rels[1..];
      KeysHold(ns, rels[1..], manifestRel);
      forall r <- rels[1..] ensures head != ns + "/" + r { SameTail(ns, rels[0], r); }
      assert head !in tail;
      assert Keys(ns, rels, manifestRel) == (if head == manifestRel then [] else [head]) + tail;
    }
  }

  lemma SameTail(ns: string, a: string, b: string)
    ensures ns + "/" + a == ns + "/" + b ==> a == b
  {
    assert (ns + "/" + a)[|ns| + 1..] == a && (ns + "/" + b)[|ns| + 1..] == b;
  }

  lemma RelFilesHold(stage: Stage, ns: string)
    ensures forall r :: r in RelFiles(stage, ns) <==> r != "" && ns + "/" + r in stage
    ensures forall i, j | 0 <= i < j < |RelFiles(stage, ns)| :: RelFiles(stage, ns)[i] != RelFiles(stage, ns)[j]
  {
    RelsAreStaged(stage, ns);
    forall r | r != "" && ns + "/" + r in stage ensures r in RelFiles(stage, ns) {
      assert (ns + "/" + r)[|ns| + 1..] == r;
    }
    forall i, j | 0 <= i < j < |RelFiles(stage, ns)| ensures RelFiles(stage, ns)[i] != RelFiles(stage, ns)[j] {
      SortedDistinct(RelNames(stage, ns), i, j);
    }
  }

  predicate In(k: string, ns: string) { ns + "/" <= k && |k| > |ns| + 1 }

  lemma NamespacedIs(k: string)
    ensures Namespaced(k) <==> In(k, "game") || In(k, "launcher")
    ensures !(In(k, "game") && In(k, "launcher"))
  {
    assert "game" + "/" == "game/" && "launcher" + "/" == "launcher/";
    if In(k, "game") { assert k[0] == 'g'; }
    if In(k, "launcher") { assert k[0] == 'l'; }
  }

  lemma KeysOf(stage: Stage, ns: string, manifestRel: string)
    ensures var keys := Keys(ns, RelFiles(stage, ns), manifestRel);
      && (forall k :: k in keys <==> k in stage && In(k, ns) && k != manifestRel)
      && (forall i, j | 0 <= i < j < |keys| :: keys[i] != keys[j])
  {
    RelFilesHold(stage, ns);
    KeysHold(ns, RelFiles(stage, ns), manifestRel);
    forall k ensures k in Keys(ns, RelFiles(stage, ns), manifestRel) <==> k in stage && In(k, ns) && k != manifestRel {
      if In(k, ns) { assert k == ns + "/" + k[|ns| + 1..]; }
    }
  }

  /** A release ships every file below game/ and launcher/ but its manifest, once. */
  lemma ShippedHolds(stage: Stage, manifestRel: string)
    ensures forall k :: k in Shipped(stage, manifestRel) <==> k in stage && Namespaced(k) && k != manifestRel
    ensures var keys := Shipped(stage, manifestRel); forall i, j | 0 <= i < j < |keys| :: keys[i] != keys[j]
  {
    hide In, Keys, RelFiles, Namespaced;
    KeysOf(stage, "game", manifestRel);
    KeysOf(stage, "launcher", manifestRel);
    forall k ensures k in Shipped(stage, manifestRel) <==> k in stage && Namespaced(k) && k != manifestRel {
      NamespacedIs(k);
    }
    var keys := Shipped(stage, manifestRel);
    var n := |Keys("game", RelFiles(stage, "game"), manifestRel)|;
    forall i, j | 0 <= i < j < |keys| ensures keys[i] != keys[j] {
      if i < n <= j {
        assert keys[i] in Keys("game", RelFiles(stage, "game"), manifestRel);
        assert keys[j] in Keys("launcher", RelFiles(stage, "launcher"), manifestRel);
        NamespacedIs(keys[i]);
      }
    }
  }

  // ----- the documents built from it -----

  lemma {:induction false} BuiltAt(sha: Bytes -> string, stage: Stage, keys: seq<string>)
    requires forall i | 0 <= i < |keys| :: keys[i] in stage
    ensures |Entries(sha, stage, keys)| == |keys| && |Members(stage, keys)| == |keys|
    ensures forall i | 0 <= i < |keys| ::
      Entries(sha, stage, keys)[i] == EntryOf(sha, keys[i], stage[keys[i]])
        && Members(stage, keys)[i] == MemberOf(keys[i], stage[keys[i]])
  {
    if |keys| > 0 { BuiltAt(sha, stage, keys[..|keys| - 1]); }
  }

  lemma ModesParse()
    ensures ParseMode("755") == Some(0x1ED) && ParseMode("644") == Some(0x1A4)
  {
    assert "755"[..2] == "75" && "75"[..1] == "7" && "7"[..0] == "";
    assert "644"[..2] == "64" && "64"[..1] == "6" && "6"[..0] == "";
    assert OctalValue("7") == 7 && OctalValue("75") == 61 && OctalValue("755") == 493;
    assert OctalValue("6") == 6 && OctalValue("64") == 52 && OctalValue("644") == 420;
  }

  /** Every shipped key is a name both programs agree on. */
  predicate GoodKey(k: string) { CheckRelPath(k) && ScanFile(k) }

  lemma BuiltMember(sha: Bytes -> string, index: map<string, FileEntry>, key: string, f: StageFile)
    requires HexDigest(sha) && GoodKey(key) && Plain(key) && key in index && index[key] == EntryOf(sha, key, f)
    ensures var t := MemberOf(key, f);
      && Installable(sha, index, t) && IsFile(t) && RelOf(t) == key && VerifyMember(sha, index, t) == Counted(t.size)
      && ModeOf(t, WantOf(index, t)) == Some(if f.executable then 0x1ED else 0x1A4)
  {
    hide CheckRelPath, ScanFile, Plain, CheckEntry, ParseHash, Tagged;
    PackagedNameIsAccepted(key);
    KeyIsRouted(key);
    TaggedParses(sha, f.content);
    ModesParse();
  }

  lemma KeyIsRouted(key: string)
    requires CheckRelPath(key)
    ensures StagedTarget(key).Some? && Namespaced(key)
  {
    NamespacedIs(key);
    var ns := if In(key, "game") then "game" else "launcher";
    assert key == ns + "/" + key[|ns| + 1..];
    ArchivePaths.TargetOf(ns, key[|ns| + 1..]);
  }

  // ----- the whole package -----


  /** Every shipped name passed the packager's scan. */
  ghost predicate Scanned(stage: Stage, manifestRel: string) {
    forall k <- Shipped(stage, manifestRel) :: ScanFile(k)
  }

  /** A directory tree: no file is also a directory. */
  ghost predicate TreeLike(stage: Stage) {
    forall a, b | a in stage && b in stage :: !Inside(a, b)
  }

  lemma BuiltIndex(sha: Bytes -> string, stage: Stage, keys: seq<string>)
    requires forall i | 0 <= i < |keys| :: keys[i] in stage && Clean(keys[i]) == keys[i]
    requires forall i, j | 0 <= i < j < |keys| :: keys[i] != keys[j]
    ensures CleanIndex(Entries(sha, stage, keys))
    ensures forall i | 0 <= i < |keys| ::
      keys[i] in IndexFiles(Entries(sha, stage, keys))
      && IndexFiles(Entries(sha, stage, keys))[keys[i]] == EntryOf(sha, keys[i], stage[keys[i]])
  {
    hide Clean;
    BuiltAt(sha, stage, keys);
    IndexHolds(Entries(sha, stage, keys));
    forall i | 0 <= i < |keys| ensures Entries(sha, stage, keys)[i].path == keys[i] {}
  }

  /** Every key is good, plain and described by the index. */
  ghost predicate Described(sha: Bytes -> string, index: map<string, FileEntry>, stage: Stage, keys: seq<string>)
    requires forall i | 0 <= i < |keys| :: keys[i] in stage
  {
    forall i | 0 <= i < |keys| ::
      GoodKey(keys[i]) && Plain(keys[i]) && keys[i] in index && index[keys[i]] == EntryOf(sha, keys[i], stage[keys[i]])
  }

  lemma DescribedParts(sha: Bytes -> string, index: map<string, FileEntry>, stage: Stage, keys: seq<string>)
    requires |keys| > 0 && (forall i | 0 <= i < |keys| :: keys[i] in stage) && Described(sha, index, stage, keys)
      && HexDigest(sha)
    ensures var n := |keys| - 1;
      && Described(sha, index, stage, keys[..n])
      && VerifyMember(sha, index, MemberOf(keys[n], stage[keys[n]])) == Counted(|stage[keys[n]].content|)
  {
    hide GoodKey, Plain, VerifyMember;
    BuiltMember(sha, index, keys[|keys| - 1], stage[keys[|keys| - 1]]);
  }

  /** The members built for the keys, counted against the index. */
  lemma {:induction false} BuiltCounts(sha: Bytes -> string, index: map<string, FileEntry>, stage: Stage,
                                       keys: seq<string>)
    requires HexDigest(sha) && (forall i | 0 <= i < |keys| :: keys[i] in stage) && Described(sha, index, stage, keys)
    ensures VerifyMembers(sha, index, Members(stage, keys)) == Counted(Total(stage, keys))
  {
    hide Described, VerifyMember, VerifyMembers, MemberOf, Members, Total;
    BuiltUnfolds(sha, index, stage, keys);
    if |keys| > 0 {
      var n := |keys| - 1;
      DescribedParts(sha, index, stage, keys);
      BuiltCounts(sha, index, stage, keys[..n]);
      VerifyAppends(sha, index, Members(stage, keys[..n]), MemberOf(keys[n], stage[keys[n]]));
    }
  }

  lemma BuiltUnfolds(sha: Bytes -> string, index: map<string, FileEntry>, stage: Stage, keys: seq<string>)
    requires forall i | 0 <= i < |keys| :: keys[i] in stage
    ensures |keys| == 0 ==> VerifyMembers(sha, index, Members(stage, keys)) == Counted(0) && Total(stage, keys) == 0
    ensures |keys| > 0 ==> var n := |keys| - 1;
      && Members(stage, keys) == Members(stage, keys[..n]) + [MemberOf(keys[n], stage[keys[n]])]
      && Total(stage, keys) == Total(stage, keys[..n]) + |stage[keys[n]].content|
  {}

  lemma VerifyAppends(sha: Bytes -> string, index: map<string, FileEntry>, before: seq<TarMember>, t: TarMember)
    requires VerifyMembers(sha, index, before).Counted? && VerifyMember(sha, index, t).Counted?
    ensures VerifyMembers(sha, index, before + [t])
         == Counted(VerifyMembers(sha, index, before).total + VerifyMember(sha, index, t).total)
  {
    hide VerifyMember;
    assert (before + [t])[..|before|] == before && (before + [t])[|before|] == t;
  }

  lemma BuiltIsInstallable(sha: Bytes -> string, index: map<string, FileEntry>, stage: Stage, keys: seq<string>)
    requires HexDigest(sha) && TreeLike(stage)
    requires forall i | 0 <= i < |keys| :: keys[i] in stage && GoodKey(keys[i]) && Plain(keys[i])
    requires forall i, j | 0 <= i < j < |keys| :: keys[i] != keys[j]
    requires forall i | 0 <= i < |keys| :: keys[i] in index && index[keys[i]] == EntryOf(sha, keys[i], stage[keys[i]])
    ensures var members := Members(stage, keys);
      (forall i | 0 <= i < |members| :: Installable(sha, index, members[i])) && DistinctFiles(members)
        && NoClash(members)
  {
    hide GoodKey, Plain, Installable, Inside, CheckEntry, StagedTarget;
    BuiltAt(sha, stage, keys);
    var members := Members(stage, keys);
    forall i | 0 <= i < |members|
      ensures Installable(sha, index, members[i]) && IsFile(members[i]) && RelOf(members[i]) == keys[i]
    {
      BuiltMember(sha, index, keys[i], stage[keys[i]]);
    }
    forall i, j | 0 <= i < |members| && 0 <= j < |members| && Routed(members[i]) && Routed(members[j])
      ensures !Inside(ArchiveProofs.TargetOf(members[i]), ArchiveProofs.TargetOf(members[j]))
    {
      assert !Inside(keys[i], keys[j]);
      if Inside(ArchiveProofs.TargetOf(members[i]), ArchiveProofs.TargetOf(members[j])) {
        TargetsBelow(keys[i], keys[j]);
      }
    }
  }

  /** Places are below one another only where the paths are. */
  lemma TargetsBelow(a: string, b: string)
    requires StagedTarget(a).Some? && StagedTarget(b).Some? && Inside(StagedTarget(a).value, StagedTarget(b).value)
    ensures Inside(a, b)
  {
    var i, j := T.Index(a, '/'), T.Index(b, '/');
    T.IndexSplits(a, '/');
    T.IndexSplits(b, '/');
    var s, t := StagedTarget(a).value, StagedTarget(b).value;
    assert s[0] == t[0];
    assert a[..i] == b[..j];
    var dir := if a[..i] == "game" then GAME_NEW else LAUNCHER_NEW;
    assert s == dir + a[i + 1..] && t == dir + b[j + 1..];
    assert a == a[..i] + "/" + a[i + 1..] && b == a[..i] + "/" + b[j + 1..];
    assert (t + "/")[|dir|..] == b[j + 1..] + "/" && s[|dir|..] == a[i + 1..];
    assert b[j + 1..] + "/" <= a[i + 1..];
  }

  /** What the launcher has below the staging root after installing a package. */
  ghost predicate InstalledExactly(x: Extraction, stage: Stage, keys: seq<string>)
    requires forall i | 0 <= i < |keys| :: keys[i] in stage
  {
    && x.Extracted? && x.s.dirs == {} && x.s.written == Total(stage, keys)
    && (forall i | 0 <= i < |keys| ::
          && StagedTarget(keys[i]).Some? && StagedTarget(keys[i]).value in x.s.files
          && x.s.files[StagedTarget(keys[i]).value]
             == StagedFile(stage[keys[i]].content, if stage[keys[i]].executable then 0x1ED else 0x1A4))
    && (forall p <- x.s.files :: exists i | 0 <= i < |keys| :: StagedTarget(keys[i]) == Some(p))
  }

  lemma OneBuilt(sha: Bytes -> string, index: map<string, FileEntry>, key: string, f: StageFile,
                 files: map<string, StagedFile>, members: seq<TarMember>)
    requires HexDigest(sha) && GoodKey(key) && Plain(key) && key in index && index[key] == EntryOf(sha, key, f)
    requires Holds(index, files, members) && MemberOf(key, f) in members
    ensures var t := MemberOf(key, f);
      && IsFile(t) && RelOf(t) == key && Routed(t) && ArchiveProofs.TargetOf(t) in files
      && files[ArchiveProofs.TargetOf(t)] == StagedFile(f.content, if f.executable then 0x1ED else 0x1A4)
  {
    hide GoodKey, Plain, CheckEntry, StagedTarget, ModeOf, VerifyMember, EntryOf;
    BuiltMember(sha, index, key, f);
  }

  lemma HoldsBuilt(sha: Bytes -> string, index: map<string, FileEntry>, stage: Stage, keys: seq<string>, x: Extraction)
    requires HexDigest(sha)
    requires forall i | 0 <= i < |keys| :: keys[i] in stage && GoodKey(keys[i]) && Plain(keys[i])
    requires forall i | 0 <= i < |keys| :: keys[i] in index && index[keys[i]] == EntryOf(sha, keys[i], stage[keys[i]])
    requires Unpacked(index, x, Members(stage, keys), Total(stage, keys))
    ensures InstalledExactly(x, stage, keys)
  {
    hide GoodKey, Plain, IsFile, StagedTarget, Holds, EntryOf, MemberOf, Total, HexDigest;
    BuiltAt(sha, stage, keys);
    var members := Members(stage, keys);
    forall i | 0 <= i < |keys|
      ensures IsFile(members[i]) && RelOf(members[i]) == keys[i] && Routed(members[i])
      ensures ArchiveProofs.TargetOf(members[i]) in x.s.files
      ensures x.s.files[ArchiveProofs.TargetOf(members[i])]
           == StagedFile(stage[keys[i]].content, if stage[keys[i]].executable then 0x1ED else 0x1A4)
    {
      assert members[i] in members;
      OneBuilt(sha, index, keys[i], stage[keys[i]], x.s.files, members);
    }
    forall p <- x.s.files ensures exists i | 0 <= i < |keys| :: StagedTarget(keys[i]) == Some(p) {
      FileHasMember(index, x.s.files, members, p);
      var i :| 0 <= i < |members| && Routed(members[i]) && ArchiveProofs.TargetOf(members[i]) == p;
      assert StagedTarget(keys[i]) == Some(p);
    }
  }

  lemma FileHasMember(index: map<string, FileEntry>, files: map<string, StagedFile>, members: seq<TarMember>, p: string)
    requires Holds(index, files, members) && p in files
    ensures exists i | 0 <= i < |members| :: Routed(members[i]) && ArchiveProofs.TargetOf(members[i]) == p
  {
    var t :| t in members && Routed(t) && ArchiveProofs.TargetOf(t) == p;
    var i :| 0 <= i < |members| && members[i] == t;
  }

  lemma VerifyBuilt(sha: Bytes -> string, encode: seq<TarMember> -> Bytes, stage: Stage, manifestRel: string)
    requires HexDigest(sha) && Pack(sha, encode, stage, manifestRel).Some?
    ensures var p := Pack(sha, encode, stage, manifestRel).value;
      Verify(sha, p.archive, p.manifest)
        == match VerifyMembers(sha, IndexFiles(p.manifest.files), p.archive.members)
           case Stopped(reason) => Refused(reason)
           case Counted(total) => if total != p.manifest.totalSize then Refused("total_size") else Accepted
  {
    TaggedParses(sha, Pack(sha, encode, stage, manifestRel).value.archive.bytes);
  }

  lemma GoodKeys(sha: Bytes -> string, encode: seq<TarMember> -> Bytes, stage: Stage, manifestRel: string)
    requires Pack(sha, encode, stage, manifestRel).Some? && Scanned(stage, manifestRel)
    ensures var keys := Shipped(stage, manifestRel);
      && (forall i | 0 <= i < |keys| :: keys[i] in stage && GoodKey(keys[i]) && Clean(keys[i]) == keys[i])
      && (forall i, j | 0 <= i < j < |keys| :: keys[i] != keys[j])
  {
    hide Shipped, ScanFile;
    ShippedHolds(stage, manifestRel);
    ShippedAreStaged(stage, manifestRel);
    var keys := Shipped(stage, manifestRel);
    forall i | 0 <= i < |keys| ensures GoodKey(keys[i]) && Clean(keys[i]) == keys[i] { assert keys[i] in keys; }
  }

  lemma PlainIsAccepted(sha: Bytes -> string, encode: seq<TarMember> -> Bytes, stage: Stage, manifestRel: string)
    requires HexDigest(sha) && Scanned(stage, manifestRel)
    requires Pack(sha, encode, stage, manifestRel).Some? && forall k <- Shipped(stage, manifestRel) :: Plain(k)
    ensures var p := Pack(sha, encode, stage, manifestRel).value;
      && Verify(sha, p.archive, p.manifest) == Accepted
      && VerifyMembers(sha, IndexFiles(p.manifest.files), p.archive.members) == Counted(p.manifest.totalSize)
  {
    hide Shipped, GoodKey, Plain, Clean, VerifyMembers, IndexFiles, Verify;
    GoodKeys(sha, encode, stage, manifestRel);
    var p, keys := Pack(sha, encode, stage, manifestRel).value, Shipped(stage, manifestRel);
    forall i | 0 <= i < |keys| ensures Plain(keys[i]) { assert keys[i] in keys; }
    BuiltIndex(sha, stage, keys);
    BuiltCounts(sha, IndexFiles(p.manifest.files), stage, keys);
    VerifyBuilt(sha, encode, stage, manifestRel);
  }

  /** Package, then install, is the identity: the archive passes Verify against its
      own manifest, and what Extract leaves is exactly the shipped files, each at
      its own place, with its content and its mode. total_size is a 64-bit field. */
  lemma PackageThenInstall(sha: Bytes -> string, encode: seq<TarMember> -> Bytes, stage: Stage, manifestRel: string)
    requires HexDigest(sha) && TreeLike(stage) && Scanned(stage, manifestRel)
    requires Pack(sha, encode, stage, manifestRel).Some? && forall k <- Shipped(stage, manifestRel) :: Plain(k)
    requires N.Fits(Pack(sha, encode, stage, manifestRel).value.manifest.totalSize)
    ensures var p := Pack(sha, encode, stage, manifestRel).value;
      && Verify(sha, p.archive, p.manifest) == Accepted
      && (forall i | 0 <= i < |Shipped(stage, manifestRel)| :: Shipped(stage, manifestRel)[i] in stage)
      && InstalledExactly(Extract(sha, p.archive, p.manifest), stage, Shipped(stage, manifestRel))
  {
    hide Shipped, GoodKey, Plain, Clean, VerifyMembers, ExtractMembers, IndexFiles, InstalledExactly, Verify;
    GoodKeys(sha, encode, stage, manifestRel);
    var p, keys := Pack(sha, encode, stage, manifestRel).value, Shipped(stage, manifestRel);
    var index := IndexFiles(p.manifest.files);
    forall i | 0 <= i < |keys| ensures Plain(keys[i]) { assert keys[i] in keys; }
    BuiltIndex(sha, stage, keys);
    PlainIsAccepted(sha, encode, stage, manifestRel);
    BuiltIsInstallable(sha, index, stage, keys);
    AcceptedUnpacks(sha, index, p.manifest.totalSize, p.archive.members);
    HoldsBuilt(sha, index, stage, keys, Extract(sha, p.archive, p.manifest));
  }

  lemma {:induction false} OneStops(sha: Bytes -> string, index: map<string, FileEntry>, members: seq<TarMember>,
                                    i: nat)
    requires i < |members| && VerifyMember(sha, index, members[i]).Stopped?
    ensures VerifyMembers(sha, index, members).Stopped?
  {
    var n := |members| - 1;
    if i < n {
      assert members[..n][i] == members[i];
      OneStops(sha, index, members[..n], i);
    }
  }

  /** A scanned package is accepted by the launcher exactly when no shipped name
      has one of the characters Windows reserves, which the packager lets through. */
  lemma AcceptedExactlyWhenPlain(sha: Bytes -> string, encode: seq<TarMember> -> Bytes, stage: Stage,
                                 manifestRel: string)
    requires HexDigest(sha) && Scanned(stage, manifestRel) && Pack(sha, encode, stage, manifestRel).Some?
    ensures var p := Pack(sha, encode, stage, manifestRel).value;
      Verify(sha, p.archive, p.manifest) == Accepted <==> forall k <- Shipped(stage, manifestRel) :: Plain(k)
  {
    var p, keys := Pack(sha, encode, stage, manifestRel).value, Shipped(stage, manifestRel);
    if forall k <- keys :: Plain(k) {
      PlainIsAccepted(sha, encode, stage, manifestRel);
    } else {
      hide Shipped, Plain, VerifyMembers, IndexFiles, ScanFile, CheckRelPath;
      GoodKeys(sha, encode, stage, manifestRel);
      BuiltAt(sha, stage, keys);
      var k :| k in keys && !Plain(k);
      var i :| 0 <= i < |keys| && keys[i] == k;
      PackagedNameIsAccepted(k);
      OneStops(sha, IndexFiles(p.manifest.files), p.archive.members, i);
      VerifyBuilt(sha, encode, stage, manifestRel);
    }
  }

  // ----- the packager's own gate -----

  lemma {:induction false} IndexesAgree(files: seq<FileEntry>)
    requires CleanIndex(files)
    ensures IndexOf(files) == IndexFiles(files)
  {
    if |files| > 0 { IndexesAgree(files[..|files| - 1]); }
  }

  lemma GateMember(sha: Bytes -> string, files: seq<FileEntry>, t: TarMember)
    requires HexDigest(sha) && CleanIndex(files) && Matches(sha, IndexOf(files), t)
    requires t.kind.Regular? && GoodKey(t.name) && Plain(t.name)
    ensures IsFile(t) && RelOf(t) == t.name && VerifyMember(sha, IndexFiles(files), t) == Counted(t.size)
  {
    hide CheckRelPath, ScanFile, Plain, CheckEntry, ParseHash, Tagged, CleanIndex, IndexOf, IndexFiles;
    IndexesAgree(files);
    PackagedNameIsAccepted(t.name);
    TaggedParses(sha, t.body);
  }

  lemma {:induction false} GateCounts(sha: Bytes -> string, files: seq<FileEntry>, members: seq<TarMember>)
    requires HexDigest(sha) && CleanIndex(files)
    requires forall i | 0 <= i < |members| ::
      Matches(sha, IndexOf(files), members[i]) && members[i].kind.Regular? && GoodKey(members[i].name)
        && Plain(members[i].name)
    ensures VerifyMembers(sha, IndexFiles(files), members).Counted?
  {
    if |members| > 0 {
      hide Matches, GoodKey, Plain, VerifyMember, CleanIndex, IndexOf, IndexFiles;
      GateCounts(sha, files, members[..|members| - 1]);
      GateMember(sha, files, members[|members| - 1]);
    }
  }

  /** Whatever archive the packager's gate lets pass, if its members are distinct
      plain names and the manifest adds up, the launcher accepts it too. */
  lemma GateImpliesAccepted(sha: Bytes -> string, a: Archive, m: Manifest)
    requires HexDigest(sha) && VerifyTarIndex(sha, a, m) && !m.signed && |m.files| > 0
    requires CleanIndex(m.files) && m.totalSize == SumSizes(m.files)
    requires (forall i | 0 <= i < |m.files| :: m.files[i].size >= 0) && DistinctFiles(a.members)
    requires forall i | 0 <= i < |a.members| ::
      a.members[i].kind.Regular? && GoodKey(a.members[i].name) && Plain(a.members[i].name)
    requires (m.archiveSize == 0 || m.archiveSize == |a.bytes|) && m.archiveHash == Tagged(sha, a.bytes)
    ensures Verify(sha, a, m) == Accepted
  {
    hide GoodKey, Plain, CheckEntry, CleanIndex, VerifyMembers;
    TaggedParses(sha, a.bytes);
    forall i | 0 <= i < |a.members| ensures Matches(sha, IndexOf(m.files), a.members[i]) {
      assert a.members[i] in a.members;
    }
    GateCounts(sha, m.files, a.members);
    TotalAgreesExactlyWhenComplete(sha, m.files, a.members);
    forall i | 0 <= i < |m.files| ensures m.files[i].path in Rels(a.members) {
      assert m.files[i] in m.files;
      var t :| t in a.members && t.kind.Regular? && t.name == m.files[i].path;
      GateMember(sha, m.files, t);
    }
  }

  /** The gate lets every package built this way pass, plain names or not: it does
      not see the difference the launcher makes. */
  lemma BuiltPassesGate(sha: Bytes -> string, encode: seq<TarMember> -> Bytes, stage: Stage, manifestRel: string)
    requires Pack(sha, encode, stage, manifestRel).Some? && Scanned(stage, manifestRel)
    ensures var p := Pack(sha, encode, stage, manifestRel).value; VerifyTarIndex(sha, p.archive, p.manifest)
  {
    hide Shipped, GoodKey, ScanFile, CheckRelPath, IndexOf, IndexFiles, CleanIndex;
    GoodKeys(sha, encode, stage, manifestRel);
    var p, keys := Pack(sha, encode, stage, manifestRel).value, Shipped(stage, manifestRel);
    BuiltAt(sha, stage, keys);
    BuiltIndex(sha, stage, keys);
    IndexesAgree(p.manifest.files);
    forall t <- p.archive.members ensures Matches(sha, IndexOf(p.manifest.files), t) {
      var i :| 0 <= i < |keys| && Members(stage, keys)[i] == t;
      assert keys[i] in IndexFiles(p.manifest.files);
    }
    forall f <- p.manifest.files ensures exists t <- p.archive.members :: t.kind.Regular? && t.name == f.path {
      var i :| 0 <= i < |keys| && Entries(sha, stage, keys)[i] == f;
      assert p.archive.members[i] in p.archive.members && p.archive.members[i].name == f.path;
    }
  }
}
