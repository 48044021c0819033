/** What the launcher makes of any archive: what it may write and where, what an
    accepted archive contains, and how an accepted archive unpacks. */
module ArchiveProofs {
  import opened Basics
  import opened Names
  import opened ArchivePaths
  import opened ArchiveSpec
  import T = Text
  import N = Numerals

  // ----- hashes -----

  /** SHA-256 in hex: 64 lower-case hex digits. */
  ghost predicate HexDigest(sha: Bytes -> string) {
    forall b :: |sha(b)| == 64 && forall c <- sha(b) :: IsHex(c)
  }

  lemma {:induction false} LowerIs(s: string)
    requires forall i | 0 <= i < |s| :: !('A' <= s[i] <= 'Z')
    ensures T.Lower(s) == s
  {
    if s != "" { LowerIs(s[1..]); }
  }

  lemma TaggedParses(sha: Bytes -> string, b: Bytes)
    requires HexDigest(sha)
    ensures ParseHash(Tagged(sha, b)) == Some(sha(b))
  {
    var h, s := sha(b), Tagged(sha, b);
    assert s[0] == 's' && s[|s| - 1] == h[63] && h[63] in h;
    assert T.TrimSpace(s) == s;
    TaggedIsLower(h);
    LowerIs(s);
    assert s == "sha256" + [':'] + h;
    T.IndexOf("sha256", ':', h);
    assert s[..6] == "sha256" && s[7..] == h;
  }

  lemma TaggedIsLower(h: string)
    requires forall c <- h :: IsHex(c)
    ensures var s := "sha256:" + h; forall i | 0 <= i < |s| :: !('A' <= s[i] <= 'Z')
  {
    var s := "sha256:" + h;
    forall i | 0 <= i < |s| ensures !('A' <= s[i] <= 'Z') {
      if i >= 7 { assert s[i] == h[i - 7] && h[i - 7] in h; }
    }
  }

  // ----- where members go -----

  /** A member the launcher unpacks as a file, and where. */
  predicate IsFile(t: TarMember) {
    CheckEntry(t.kind, t.name).Member? && !CheckEntry(t.kind, t.name).isDir
  }

  function RelOf(t: TarMember): string
    requires IsFile(t)
  {
    CheckEntry(t.kind, t.name).rel
  }

  predicate Routed(t: TarMember) { IsFile(t) && StagedTarget(RelOf(t)).Some? }

  function TargetOf(t: TarMember): string
    requires Routed(t)
  {
    StagedTarget(RelOf(t)).value
  }

  predicate Confined(path: string) {
    && (GAME_NEW <= path || LAUNCHER_NEW <= path)
    && forall s <- T.Split(path, '/') :: Normal(s)
  }

  /** Whatever a member calls itself, the place it goes to is below one of the two
      staging directories, with no dot segment on the way. */
  lemma TargetIsConfined(kind: Type, name: string)
    requires CheckEntry(kind, name).Member? && StagedTarget(CheckEntry(kind, name).rel).Some?
    ensures Confined(StagedTarget(CheckEntry(kind, name).rel).value)
  {
    hide SegmentAllowed, Clean;
    var rel := CheckEntry(kind, name).rel;
    var i := T.Index(rel, '/');
    RelSegments(kind, name);
    hide CheckEntry;
    T.IndexSplits(rel, '/');
    HeadHasNoSlash(rel);
    var ns, rest := rel[..i], rel[i + 1..];
    assert rel == ns + ['/'] + rest;
    T.SplitFirst(ns, rest, '/');
    var parts := T.Split(rel, '/');
    forall s <- T.Split(rest, '/') ensures Normal(s) { assert s in parts; }
    var dir := if ns == "game" then "game.new" else "launcher.new";
    assert StagedTarget(rel).value == dir + ['/'] + rest;
    T.SplitFirst(dir, rest, '/');
  }

  lemma RelSegments(kind: Type, name: string)
    requires CheckEntry(kind, name).Member?
    ensures forall s <- T.Split(CheckEntry(kind, name).rel, '/') :: Normal(s)
  {
    hide Clean;
    forall s <- T.Split(CheckEntry(kind, name).rel, '/') ensures Normal(s) { assert SegmentAllowed(s); }
  }

  lemma {:induction false} HeadHasNoSlash(s: string)
    ensures '/' !in s[..T.Index(s, '/')]
  {
    if s != "" && s[0] != '/' {
      HeadHasNoSlash(s[1..]);
      assert s[..T.Index(s, '/')] == [s[0]] + s[1..][..T.Index(s[1..], '/')];
    }
  }

  // ----- the index -----

  /** Clean, distinct paths. */
  ghost predicate CleanIndex(files: seq<FileEntry>) {
    && (forall i | 0 <= i < |files| :: Clean(files[i].path) == files[i].path)
    && (forall i, j | 0 <= i < j < |files| :: files[i].path != files[j].path)
  }

  lemma {:induction false} IndexHolds(files: seq<FileEntry>)
    requires CleanIndex(files)
    ensures forall i | 0 <= i < |files| ::
      files[i].path in IndexFiles(files) && IndexFiles(files)[files[i].path] == files[i]
    ensures forall p <- IndexFiles(files) :: exists i | 0 <= i < |files| :: files[i].path == p
  {
    if |files| > 0 {
      var n := |files| - 1;
      IndexHolds(files[..n]);
      forall p <- IndexFiles(files) ensures exists i | 0 <= i < |files| :: files[i].path == p {
        if p != files[n].path {
          assert p in IndexFiles(files[..n]);
          var i :| 0 <= i < n && files[..n][i].path == p;
          assert files[i].path == p;
        }
      }
      forall i | 0 <= i < |files|
        ensures files[i].path in IndexFiles(files) && IndexFiles(files)[files[i].path] == files[i]
      {
        if i < n { assert files[..n][i] == files[i]; }
      }
    }
  }

  // ----- size accounting -----

  function SumSizes(files: seq<FileEntry>): int {
    if |files| == 0 then 0 else SumSizes(files[..|files| - 1]) + files[|files| - 1].size
  }

  /** The declared sizes of the files whose paths are in `present`. */
  function SumPresent(files: seq<FileEntry>, present: set<string>): int {
    if |files| == 0 then 0
    else
      var f := files[|files| - 1];
      SumPresent(files[..|files| - 1], present) + if f.path in present then f.size else 0
  }

  lemma {:induction false} SumPresentAdds(files: seq<FileEntry>, present: set<string>, i: nat)
    requires CleanIndex(files) && i < |files| && files[i].path !in present
    ensures SumPresent(files, present + {files[i].path}) == SumPresent(files, present) + files[i].size
  {
    var n := |files| - 1;
    if i < n {
      assert files[..n][i] == files[i];
      SumPresentAdds(files[..n], present, i);
    } else {
      SumPresentUntouched(files[..n], present, files[i].path);
    }
  }

  lemma {:induction false} SumPresentUntouched(files: seq<FileEntry>, present: set<string>, p: string)
    requires forall i | 0 <= i < |files| :: files[i].path != p
    ensures SumPresent(files, present + {p}) == SumPresent(files, present)
  {
    if |files| > 0 {
      var init := files[..|files| - 1];
      forall i | 0 <= i < |init| ensures init[i].path != p { assert init[i] == files[i]; }
      SumPresentUntouched(init, present, p);
    }
  }

  lemma {:induction false} SumsAgree(files: seq<FileEntry>, present: set<string>)
    requires forall i | 0 <= i < |files| :: files[i].size >= 0
    ensures SumPresent(files, present) <= SumSizes(files)
    ensures SumPresent(files, present) == SumSizes(files)
      <==> forall i | 0 <= i < |files| && files[i].path !in present :: files[i].size == 0
  {
    if |files| > 0 {
      var n := |files| - 1;
      forall i | 0 <= i < n ensures files[..n][i].size >= 0 { assert files[i].size >= 0; }
      SumsAgree(files[..n], present);
      if forall i | 0 <= i < |files| && files[i].path !in present :: files[i].size == 0 {
        forall i | 0 <= i < n && files[..n][i].path !in present ensures files[..n][i].size == 0 {
          assert files[i].size == 0;
        }
      }
      if SumPresent(files, present) == SumSizes(files) {
        forall i | 0 <= i < |files| && files[i].path !in present ensures files[i].size == 0 {
          if i < n { assert files[..n][i] == files[i]; }
        }
      }
    }
  }

  // ----- what an accepted archive contains -----

  ghost function Rels(members: seq<TarMember>): set<string> {
    set t | t in members && IsFile(t) :: RelOf(t)
  }

  /** No two members unpack to the same file. */
  ghost predicate DistinctFiles(members: seq<TarMember>) {
    forall i, j | 0 <= i < j < |members| && IsFile(members[i]) && IsFile(members[j]) ::
      RelOf(members[i]) != RelOf(members[j])
  }

  /** The member is the file the index describes. */
  predicate AsIndexed(sha: Bytes -> string, f: FileEntry, t: TarMember) {
    IsFile(t) && RelOf(t) == f.path && t.size == f.size && |t.body| == f.size
      && HashMatches(f.hash, Tagged(sha, t.body))
  }

  lemma MemberCounted(sha: Bytes -> string, files: seq<FileEntry>, t: TarMember)
    requires CleanIndex(files) && |files| > 0 && VerifyMember(sha, IndexFiles(files), t).Counted?
    ensures IsFile(t) ==> exists i | 0 <= i < |files| :: AsIndexed(sha, files[i], t)
    ensures VerifyMember(sha, IndexFiles(files), t).total == if IsFile(t) then t.size else 0
  {
    hide CheckEntry, HashMatches, Clean, IndexFiles, CleanIndex;
    IndexHolds(files);
    assert files[0].path in IndexFiles(files);
    if IsFile(t) {
      var p := RelOf(t);
      assert p in IndexFiles(files);
      var i :| 0 <= i < |files| && files[i].path == p;
      assert AsIndexed(sha, files[i], t);
    }
  }

  lemma {:induction false} CountedIsPresent(sha: Bytes -> string, files: seq<FileEntry>, members: seq<TarMember>)
    requires CleanIndex(files) && |files| > 0 && DistinctFiles(members)
    requires VerifyMembers(sha, IndexFiles(files), members).Counted?
    ensures VerifyMembers(sha, IndexFiles(files), members).total == SumPresent(files, Rels(members))
    ensures forall t <- members | IsFile(t) :: exists i | 0 <= i < |files| :: AsIndexed(sha, files[i], t)
  {
    if |members| == 0 {
      NothingPresent(files);
      assert Rels(members) == {};
    } else {
      hide VerifyMember, IsFile, IndexFiles, CheckEntry, HashMatches, Rels, CleanIndex, DistinctFiles, SumPresent,
           AsIndexed;
      var n := |members| - 1;
      var before, t := members[..n], members[n];
      assert members == before + [t];
      RelsGrow(before, t);
      CountedIsPresent(sha, files, before);
      MemberCounted(sha, files, t);
      if IsFile(t) { PresentGrows(sha, files, before, t); }
    }
  }

  lemma PresentGrows(sha: Bytes -> string, files: seq<FileEntry>, before: seq<TarMember>, t: TarMember)
    requires CleanIndex(files) && DistinctFiles(before + [t]) && IsFile(t)
    requires exists i | 0 <= i < |files| :: AsIndexed(sha, files[i], t)
    ensures SumPresent(files, Rels(before + [t])) == SumPresent(files, Rels(before)) + t.size
  {
    hide IsFile, Rels, CleanIndex, DistinctFiles, HashMatches, CheckEntry;
    RelsGrow(before, t);
    var i :| 0 <= i < |files| && AsIndexed(sha, files[i], t);
    SumPresentAdds(files, Rels(before), i);
  }

  lemma RelsGrow(before: seq<TarMember>, t: TarMember)
    requires DistinctFiles(before + [t])
    ensures DistinctFiles(before)
    ensures IsFile(t) ==> Rels(before + [t]) == Rels(before) + {RelOf(t)} && RelOf(t) !in Rels(before)
    ensures !IsFile(t) ==> Rels(before + [t]) == Rels(before)
  {
    hide IsFile;
    var members := before + [t];
    forall i, j | 0 <= i < j < |before| && IsFile(before[i]) && IsFile(before[j])
      ensures RelOf(before[i]) != RelOf(before[j])
    {
      assert members[i] == before[i] && members[j] == before[j];
    }
    if IsFile(t) {
      forall i | 0 <= i < |before| && IsFile(before[i]) ensures RelOf(before[i]) != RelOf(t) {
        assert members[i] == before[i] && members[|before|] == t;
      }
    }
    assert forall u :: u in members <==> u in before || u == t;
  }

  lemma {:induction false} NothingPresent(files: seq<FileEntry>)
    ensures SumPresent(files, {}) == 0
  {
    if |files| > 0 { NothingPresent(files[..|files| - 1]); }
  }

  /** Size accounting implies completeness. Of an archive whose members all pass
      and go to different files, against an index of clean distinct paths, the
      total agrees with the sum of the index exactly when every indexed file that
      is not in the archive is empty. */
  lemma TotalAgreesExactlyWhenComplete(sha: Bytes -> string, files: seq<FileEntry>, members: seq<TarMember>)
    requires CleanIndex(files) && |files| > 0 && (forall i | 0 <= i < |files| :: files[i].size >= 0)
    requires DistinctFiles(members) && VerifyMembers(sha, IndexFiles(files), members).Counted?
    ensures VerifyMembers(sha, IndexFiles(files), members).total == SumSizes(files)
      <==> forall i | 0 <= i < |files| && files[i].path !in Rels(members) :: files[i].size == 0
  {
    CountedIsPresent(sha, files, members);
    SumsAgree(files, Rels(members));
  }

  /** So an accepted archive holds every non-empty indexed file, with its declared
      size and hash. */
  lemma AcceptedIsComplete(sha: Bytes -> string, a: Archive, m: Manifest, i: nat)
    requires Verify(sha, a, m) == Accepted && DistinctFiles(a.members) && m.totalSize == SumSizes(m.files)
    requires CleanIndex(m.files) && (forall j | 0 <= j < |m.files| :: m.files[j].size >= 0)
    requires i < |m.files| && m.files[i].size > 0
    ensures exists t <- a.members :: AsIndexed(sha, m.files[i], t)
  {
    TotalAgreesExactlyWhenComplete(sha, m.files, a.members);
    CountedIsPresent(sha, m.files, a.members);
    assert m.files[i].path in Rels(a.members);
    var t :| t in a.members && IsFile(t) && RelOf(t) == m.files[i].path;
    var j :| 0 <= j < |m.files| && AsIndexed(sha, m.files[j], t);
    assert i == j;
  }

  /** Without distinct members it fails: a file stored twice hides a missing one of
      the same size. */
  lemma DuplicateHidesMissing(sha: Bytes -> string, content: Bytes, bytes: Bytes, p: string, q: string)
    requires HexDigest(sha) && p != q && CheckEntry(Regular, p) == Member(p, false) && Clean(p) == p && Clean(q) == q
    ensures var t := TarMember(Regular, p, |content|, content, 0);
      var files := [FileEntry(p, |content|, Tagged(sha, content), ""),
        FileEntry(q, |content|, Tagged(sha, content), "")];
      var m := Manifest(files, 2 * |content|, |bytes|, Tagged(sha, bytes), false);
      && m.totalSize == SumSizes(files) && CleanIndex(files)
      && Verify(sha, Archive(bytes, [t, t]), m) == Accepted
      && (q !in Rels([t, t]))
  {
    hide CheckEntry, ParseHash, Clean;
    var t := TarMember(Regular, p, |content|, content, 0);
    var files := [FileEntry(p, |content|, Tagged(sha, content), ""), FileEntry(q, |content|, Tagged(sha, content), "")];
    assert files[..1] == [files[0]] && SumSizes(files[..1]) == |content|;
    TaggedParses(sha, content);
    TaggedParses(sha, bytes);
    IndexHolds(files);
    assert files[0].path in IndexFiles(files);
    hide IndexFiles;
    assert VerifyMember(sha, IndexFiles(files), t) == Counted(|content|);
    CountedTwice(sha, IndexFiles(files), t);
  }

  lemma CountedTwice(sha: Bytes -> string, index: map<string, FileEntry>, t: TarMember)
    requires VerifyMember(sha, index, t).Counted?
    ensures VerifyMembers(sha, index, [t, t]) == Counted(2 * VerifyMember(sha, index, t).total)
  {
    hide VerifyMember;
    assert [t, t][..1] == [t] && [t][..0] == [];
    assert VerifyMembers(sha, index, [t]) == VerifyMember(sha, index, t);
  }

  // ----- how an accepted archive unpacks -----

  function WantOf(index: map<string, FileEntry>, t: TarMember): Option<FileEntry>
    requires IsFile(t)
  {
    if RelOf(t) in index then Some(index[RelOf(t)]) else None
  }

  /** The member passes Verify, has a place to go and a readable mode. */
  predicate Installable(sha: Bytes -> string, index: map<string, FileEntry>, t: TarMember) {
    && Routed(t) && VerifyMember(sha, index, t).Counted? && ModeOf(t, WantOf(index, t)).Some?
    && (index.Keys == {} ==> WantOf(index, t).None?)
  }

  /** No file stands where another needs a directory. */
  predicate NoClash(members: seq<TarMember>) {
    forall i, j | 0 <= i < |members| && 0 <= j < |members| && Routed(members[i]) && Routed(members[j]) ::
      !Inside(TargetOf(members[i]), TargetOf(members[j]))
  }

  /** The files are exactly what the members hold. */
  ghost predicate Holds(index: map<string, FileEntry>, files: map<string, StagedFile>, members: seq<TarMember>) {
    && (forall t <- members | Routed(t) && ModeOf(t, WantOf(index, t)).Some? ::
          TargetOf(t) in files && files[TargetOf(t)] == StagedFile(t.body, ModeOf(t, WantOf(index, t)).value))
    && (forall p <- files :: exists t <- members :: Routed(t) && TargetOf(t) == p)
  }

  lemma OneUnpacks(sha: Bytes -> string, index: map<string, FileEntry>, budget: int, s: Staging, t: TarMember)
    requires Installable(sha, index, t) && 0 <= s.written && s.written + t.size <= budget && N.Fits(budget)
    requires s.dirs == {} && forall p <- s.files :: !Inside(p, TargetOf(t)) && !Inside(TargetOf(t), p)
    ensures ExtractMember(sha, index, budget, s, t)
      == Extracted(Staging(s.files[TargetOf(t) := StagedFile(t.body, ModeOf(t, WantOf(index, t)).value)], {},
                           s.written + t.size, s.touched + t.size))
  {
    hide CheckEntry, StagedTarget, HashMatches, ModeOf, Inside;
    assert !FileBlocked(s, TargetOf(t));
  }

  ghost predicate Unpacked(index: map<string, FileEntry>, x: Extraction, members: seq<TarMember>, total: int) {
    x.Extracted? && x.s.dirs == {} && 0 <= x.s.written == total && Holds(index, x.s.files, members)
  }

  lemma StepUnpacks(sha: Bytes -> string, index: map<string, FileEntry>, budget: int, s: Staging,
                    before: seq<TarMember>, t: TarMember, total: int)
    requires Unpacked(index, Extracted(s), before, total) && Installable(sha, index, t) && total + t.size <= budget
      && N.Fits(budget)
    requires DistinctFiles(before + [t]) && NoClash(before + [t])
    ensures Unpacked(index, ExtractMember(sha, index, budget, s, t), before + [t], total + t.size)
  {
    hide Installable, NoClash, Holds, DistinctFiles, ExtractMember, CheckEntry, VerifyMember, ModeOf, Inside,
         StagedTarget;
    InstallableMeans(sha, index, t);
    NothingInTheWay(index, s.files, before, t);
    OneUnpacks(sha, index, budget, s, t);
    HoldsMore(sha, index, s.files, before, t);
  }

  lemma NothingToUnpack(sha: Bytes -> string, index: map<string, FileEntry>, budget: int)
    ensures VerifyMembers(sha, index, []) == Counted(0)
    ensures Unpacked(index, ExtractMembers(sha, index, budget, []), [], 0)
  {}

  lemma PrefixKeeps(sha: Bytes -> string, index: map<string, FileEntry>, before: seq<TarMember>, t: TarMember)
    requires var members := before + [t];
      (forall i | 0 <= i < |members| :: Installable(sha, index, members[i])) && DistinctFiles(members)
        && NoClash(members)
    ensures (forall i | 0 <= i < |before| :: Installable(sha, index, before[i])) && DistinctFiles(before)
      && NoClash(before)
  {
    hide Installable, NoClash, DistinctFiles;
    RelsGrow(before, t);
    ClashFreePrefix(before, t);
    forall i | 0 <= i < |before| ensures Installable(sha, index, before[i]) { assert (before + [t])[i] == before[i]; }
  }

  /** An archive that Verify accepts unpacks completely, file for file, if its
      members have places of their own and readable modes. */
  lemma {:induction false} AcceptedUnpacks(sha: Bytes -> string, index: map<string, FileEntry>, budget: int,
                                           members: seq<TarMember>)
    requires (forall i | 0 <= i < |members| :: Installable(sha, index, members[i])) && DistinctFiles(members)
      && NoClash(members)
    requires VerifyMembers(sha, index, members).Counted? && VerifyMembers(sha, index, members).total <= budget
      && N.Fits(budget)
    ensures Unpacked(index, ExtractMembers(sha, index, budget, members), members,
      VerifyMembers(sha, index, members).total)
  {
    hide Installable, NoClash, DistinctFiles, VerifyMembers, ExtractMembers, Unpacked;
    if |members| == 0 {
      NothingToUnpack(sha, index, budget);
      assert members == [];
    } else {
      var n := |members| - 1;
      var before, t := members[..n], members[n];
      assert members == before + [t];
      AllButLast(sha, index, budget, before, t);
      PrefixKeeps(sha, index, before, t);
      AcceptedUnpacks(sha, index, budget, before);
      LastUnpacks(sha, index, budget, before, t);
    }
  }

  /** What holds of all the members holds of all but the last. */
  lemma AllButLast(sha: Bytes -> string, index: map<string, FileEntry>, budget: int, before: seq<TarMember>,
                   t: TarMember)
    requires var members := before + [t];
      (forall i | 0 <= i < |members| :: Installable(sha, index, members[i])) && DistinctFiles(members)
        && NoClash(members)
    requires var v := VerifyMembers(sha, index, before + [t]); v.Counted? && v.total <= budget
    ensures Installable(sha, index, t)
    ensures var v := VerifyMembers(sha, index, before);
      && v.Counted? && v.total + t.size <= budget
      && VerifyMembers(sha, index, before + [t]) == Counted(v.total + t.size)
  {
    hide Installable, NoClash, DistinctFiles, VerifyMember;
    assert (before + [t])[..|before|] == before && (before + [t])[|before|] == t;
    InstallableMeans(sha, index, t);
    CountedSize(sha, index, t);
  }

  lemma LastUnpacks(sha: Bytes -> string, index: map<string, FileEntry>, budget: int, before: seq<TarMember>,
                    t: TarMember)
    requires Installable(sha, index, t) && DistinctFiles(before + [t]) && NoClash(before + [t])
    requires var v := VerifyMembers(sha, index, before);
      && v.Counted? && v.total + t.size <= budget && N.Fits(budget)
      && Unpacked(index, ExtractMembers(sha, index, budget, before), before, v.total)
    ensures Unpacked(index, ExtractMembers(sha, index, budget, before + [t]), before + [t],
                     VerifyMembers(sha, index, before).total + t.size)
  {
    hide Installable, NoClash, DistinctFiles, Holds, ExtractMember, VerifyMembers;
    assert (before + [t])[..|before|] == before && (before + [t])[|before|] == t;
    StepUnpacks(sha, index, budget, ExtractMembers(sha, index, budget, before).s, before, t,
                VerifyMembers(sha, index, before).total);
  }

  lemma InstallableMeans(sha: Bytes -> string, index: map<string, FileEntry>, t: TarMember)
    requires Installable(sha, index, t)
    ensures Routed(t) && IsFile(t) && VerifyMember(sha, index, t).Counted? && ModeOf(t, WantOf(index, t)).Some?
  {}

  lemma CountedSize(sha: Bytes -> string, index: map<string, FileEntry>, t: TarMember)
    requires IsFile(t) && VerifyMember(sha, index, t).Counted?
    ensures VerifyMember(sha, index, t).total == t.size
  {
    hide CheckEntry, HashMatches;
  }

  lemma ClashFreePrefix(before: seq<TarMember>, t: TarMember)
    requires NoClash(before + [t])
    ensures NoClash(before)
  {
    hide Routed, Inside;
    var members := before + [t];
    forall i, j | 0 <= i < |before| && 0 <= j < |before| && Routed(before[i]) && Routed(before[j])
      ensures !Inside(TargetOf(before[i]), TargetOf(before[j]))
    {
      assert members[i] == before[i] && members[j] == before[j];
    }
  }

  lemma NothingInTheWay(index: map<string, FileEntry>, files: map<string, StagedFile>, before: seq<TarMember>,
                        t: TarMember)
    requires Holds(index, files, before) && NoClash(before + [t]) && Routed(t)
    ensures forall p <- files :: !Inside(p, TargetOf(t)) && !Inside(TargetOf(t), p)
  {
    hide Routed, Inside, ModeOf;
    var members := before + [t];
    forall p <- files ensures !Inside(p, TargetOf(t)) && !Inside(TargetOf(t), p) {
      var u :| u in before && Routed(u) && TargetOf(u) == p;
      var i :| 0 <= i < |before| && before[i] == u;
      assert members[i] == u && members[|before|] == t;
    }
  }

  lemma HoldsMore(sha: Bytes -> string, index: map<string, FileEntry>, files: map<string, StagedFile>,
                  before: seq<TarMember>, t: TarMember)
    requires Holds(index, files, before) && Installable(sha, index, t) && DistinctFiles(before + [t])
    ensures Holds(index, files[TargetOf(t) := StagedFile(t.body, ModeOf(t, WantOf(index, t)).value)], before + [t])
  {
    hide CheckEntry, StagedTarget, ModeOf, VerifyMember;
    var members := before + [t];
    forall u <- before | Routed(u) ensures TargetOf(u) != TargetOf(t) {
      var i :| 0 <= i < |before| && before[i] == u;
      assert members[i] == u && members[|before|] == t;
      if TargetOf(u) == TargetOf(t) { TargetsAreDistinct(RelOf(u), RelOf(t)); }
    }
  }

  // ----- what an extraction has checked itself -----

  /** A staged file is as some index entry says. */
  predicate StagedAsIndexed(sha: Bytes -> string, f: FileEntry, p: string, file: StagedFile) {
    && StagedTarget(f.path) == Some(p) && |file.content| == f.size && HashMatches(f.hash, Tagged(sha, file.content))
    && (f.mode != "" ==> ParseMode(f.mode) == Some(file.mode))
  }

  /** A member leaves the files alone, takes one away, or adds one the index
      describes. */
  lemma MemberAdds(sha: Bytes -> string, index: map<string, FileEntry>, budget: int, s: Staging, t: TarMember)
    requires index.Keys != {}
    ensures var x := ExtractMember(sha, index, budget, s, t);
      && (x.Broken? && x.s.files != s.files ==> Routed(t) && x.s.files == s.files - {TargetOf(t)})
      && (x.Extracted? && x.s.files != s.files ==>
        && Routed(t) && RelOf(t) in index && |t.body| == t.size == index[RelOf(t)].size
        && HashMatches(index[RelOf(t)].hash, Tagged(sha, t.body)) && ModeOf(t, Some(index[RelOf(t)])).Some?
        && x.s.files == s.files[TargetOf(t) := StagedFile(t.body, ModeOf(t, Some(index[RelOf(t)])).value)])
  {
    hide CheckEntry, StagedTarget, HashMatches, ModeOf, FileBlocked, DirBlocked;
  }

  ghost predicate AllAsIndexed(sha: Bytes -> string, files: seq<FileEntry>, s: Staging) {
    forall p <- s.files :: exists f <- files :: StagedAsIndexed(sha, f, p, s.files[p])
  }

  lemma MemberAsIndexed(sha: Bytes -> string, files: seq<FileEntry>, budget: int, s: Staging, t: TarMember)
    requires CleanIndex(files) && |files| > 0
    requires AllAsIndexed(sha, files, s)
    ensures AllAsIndexed(sha, files, ExtractMember(sha, IndexFiles(files), budget, s, t).s)
  {
    hide CheckEntry, StagedTarget, HashMatches, ParseMode, IndexFiles, CleanIndex, ExtractMember;
    IndexHolds(files);
    assert files[0].path in IndexFiles(files);
    MemberAdds(sha, IndexFiles(files), budget, s, t);
    var x := ExtractMember(sha, IndexFiles(files), budget, s, t);
    if x.Extracted? && x.s.files != s.files {
      var i :| 0 <= i < |files| && files[i].path == RelOf(t);
      assert files[i] in files && StagedAsIndexed(sha, files[i], TargetOf(t), x.s.files[TargetOf(t)]);
    }
  }

  lemma {:induction false} MembersAsIndexed(sha: Bytes -> string, files: seq<FileEntry>, budget: int,
                                            members: seq<TarMember>)
    requires CleanIndex(files) && |files| > 0
    ensures AllAsIndexed(sha, files, ExtractMembers(sha, IndexFiles(files), budget, members).s)
  {
    if |members| > 0 {
      hide CleanIndex, ExtractMember, AllAsIndexed, IndexFiles;
      var n := |members| - 1;
      MembersAsIndexed(sha, files, budget, members[..n]);
      var before := ExtractMembers(sha, IndexFiles(files), budget, members[..n]);
      if before.Extracted? { MemberAsIndexed(sha, files, budget, before.s, members[n]); }
    }
  }

  /** Even without Verify, an extraction that succeeds or breaks off has left only
      files the index lists, each with its size, its hash and its mode. */
  lemma ExtractedAsIndexed(sha: Bytes -> string, a: Archive, m: Manifest)
    requires CleanIndex(m.files) && |m.files| > 0
    ensures AllAsIndexed(sha, m.files, Extract(sha, a, m).s)
  {
    MembersAsIndexed(sha, m.files, m.totalSize, a.members);
  }

  // ----- exactly which archives are accepted -----

  /** The bytes the files among the members declare. */
  function Bulk(members: seq<TarMember>): int {
    if |members| == 0 then 0
    else Bulk(members[..|members| - 1]) + if IsFile(members[|members| - 1]) then members[|members| - 1].size else 0
  }

  /** A member with an acceptable name that holds what it declares, and, where there is
      an index and it is a file, what the index declares. */
  predicate Passes(sha: Bytes -> string, index: map<string, FileEntry>, t: TarMember) {
    && !CheckEntry(t.kind, t.name).Violation?
    && (CheckEntry(t.kind, t.name).Member? ==> |t.body| == t.size)
    && (IsFile(t) && index.Keys != {} ==>
          && RelOf(t) in index && index[RelOf(t)].size == t.size
          && HashMatches(index[RelOf(t)].hash, Tagged(sha, t.body)))
  }

  lemma {:induction false} CountedExactlyWhen(sha: Bytes -> string, index: map<string, FileEntry>,
                                              members: seq<TarMember>)
    ensures VerifyMembers(sha, index, members).Counted? <==> forall t <- members :: Passes(sha, index, t)
    ensures VerifyMembers(sha, index, members).Counted? ==> VerifyMembers(sha, index, members).total == Bulk(members)
  {
    if |members| > 0 {
      var before, t := members[..|members| - 1], members[|members| - 1];
      assert members == before + [t];
      CountedExactlyWhen(sha, index, before);
      MemberPasses(sha, index, t);
      hide VerifyMember, Passes, IsFile;
    }
  }

  lemma MemberPasses(sha: Bytes -> string, index: map<string, FileEntry>, t: TarMember)
    ensures VerifyMember(sha, index, t).Counted? <==> Passes(sha, index, t)
    ensures VerifyMember(sha, index, t).Counted? ==>
      VerifyMember(sha, index, t).total == if IsFile(t) then t.size else 0
  {
    hide CheckEntry, HashMatches;
  }

  /** A declared hash matches a content exactly if it is its digest with the name of
      the algorithm before it, in any case and any white space around. */
  lemma HashMatchesExactlyWhen(sha: Bytes -> string, declared: string, content: Bytes)
    requires HexDigest(sha)
    ensures HashMatches(declared, Tagged(sha, content))
       <==> T.Lower(T.TrimSpace(declared)) == "sha256:" + sha(content)
  {
    TaggedParses(sha, content);
    hide T.TrimSpace, T.Lower, Tagged;
    ParsesExactlyWhen(declared, sha(content));
  }

  lemma ParsesExactlyWhen(declared: string, digits: string)
    requires |digits| == 64 && forall c <- digits :: IsHex(c)
    ensures ParseHash(declared) == Some(digits) <==> T.Lower(T.TrimSpace(declared)) == "sha256:" + digits
  {
    hide T.TrimSpace, T.Lower, IsHex;
    var lower := T.Lower(T.TrimSpace(declared));
    var colon := T.Index(lower, ':');
    if lower == "sha256:" + digits {
      assert lower == "sha256" + [':'] + digits;
      T.IndexOf("sha256", ':', digits);
      assert lower[..6] == "sha256" && lower[7..] == digits;
    } else if colon < |lower| && lower[..colon] == "sha256" {
      T.IndexSplits(lower, ':');
      assert lower == "sha256:" + lower[colon + 1..];
    }
  }

  /** Verify accepts exactly the unsigned manifests and the archives with the declared
      size, if there is one, and hash, whose members all pass and whose files declare
      as many bytes as the manifest. */
  lemma VerifiesExactlyWhen(sha: Bytes -> string, a: Archive, m: Manifest)
    ensures Verify(sha, a, m) == Accepted <==>
      && !m.signed && (m.archiveSize > 0 ==> |a.bytes| == m.archiveSize)
      && HashMatches(m.archiveHash, Tagged(sha, a.bytes))
      && (forall t <- a.members :: Passes(sha, IndexFiles(m.files), t)) && Bulk(a.members) == m.totalSize
  {
    hide VerifyMembers, Passes, IndexFiles, Tagged;
    CountedExactlyWhen(sha, IndexFiles(m.files), a.members);
    if m.archiveHash == "" { assert T.TrimSpace("") == "" && T.Lower("") == ""; }
  }

  /** All archives accepted for one manifest have one digest and, if the manifest
      declares it, one size. */
  lemma AcceptedArchivesAreOne(sha: Bytes -> string, a: Archive, b: Archive, m: Manifest)
    requires HexDigest(sha) && Verify(sha, a, m) == Accepted && Verify(sha, b, m) == Accepted
    ensures sha(a.bytes) == sha(b.bytes) && (m.archiveSize > 0 ==> |a.bytes| == |b.bytes|)
  {
    hide VerifyMembers, Tagged, ParseHash;
    TaggedParses(sha, a.bytes);
    TaggedParses(sha, b.bytes);
  }
}
