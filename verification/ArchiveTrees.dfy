/** What an extraction leaves is a tree: no file where a directory is needed, nothing
    of a file that broke off, and every directory that was asked for. */
module ArchiveTrees {
  import opened Basics
  import opened ArchivePaths
  import opened ArchiveSpec
  import opened ArchiveProofs
  import T = Text

  /** No file is inside another, and no directory is a file or inside one. */
  ghost predicate IsTree(s: Staging) {
    && (forall f <- s.files, g <- s.files :: !Inside(f, g))
    && (forall d <- s.dirs, f <- s.files :: d != f && !Inside(d, f))
  }

  lemma MemberKeepsTree(sha: Bytes -> string, index: map<string, FileEntry>, budget: int, s: Staging, t: TarMember)
    requires IsTree(s)
    ensures IsTree(ExtractMember(sha, index, budget, s, t).s)
  {
    hide CheckEntry, StagedTarget, HashMatches, ModeOf, Tagged, WriteFile, Inside;
    forall target, want, mode { FileKeepsTree(sha, s, t, target, want, mode); }
  }

  lemma FileKeepsTree(sha: Bytes -> string, s: Staging, t: TarMember, target: string, want: Option<FileEntry>,
                      mode: nat)
    requires IsTree(s)
    ensures IsTree(WriteFile(sha, s, t, target, want, mode).s)
  {
    hide HashMatches, Tagged;
    assert !Inside(target, target);
  }

  /** Whatever the archive, an extraction that succeeds or breaks off leaves a tree. */
  lemma {:induction false} StagedIsATree(sha: Bytes -> string, index: map<string, FileEntry>, budget: int,
                                         members: seq<TarMember>)
    ensures IsTree(ExtractMembers(sha, index, budget, members).s)
  {
    if |members| > 0 {
      hide IsTree, ExtractMember;
      var n := |members| - 1;
      StagedIsATree(sha, index, budget, members[..n]);
      MemberKeepsTree(sha, index, budget, ExtractMembers(sha, index, budget, members[..n]).s, members[n]);
    } else {
      assert ExtractMembers(sha, index, budget, members) == Extracted(Staging(map[], {}, 0, 0));
    }
  }

  /** A directory among the members, and where it goes. */
  predicate IsDirectory(t: TarMember) {
    CheckEntry(t.kind, t.name).Member? && CheckEntry(t.kind, t.name).isDir
      && StagedTarget(CheckEntry(t.kind, t.name).rel).Some?
  }

  function DirectoryOf(t: TarMember): string
    requires IsDirectory(t)
  {
    StagedTarget(CheckEntry(t.kind, t.name).rel).value
  }

  lemma MemberMakes(sha: Bytes -> string, index: map<string, FileEntry>, budget: int, s: Staging, t: TarMember)
    requires ExtractMember(sha, index, budget, s, t).Extracted?
    ensures var x := ExtractMember(sha, index, budget, s, t).s;
      && x.dirs == s.dirs + (if IsDirectory(t) then {DirectoryOf(t)} else {})
      && (Routed(t) ==> ArchiveProofs.TargetOf(t) in x.files && x.files[ArchiveProofs.TargetOf(t)].content == t.body)
      && (!Routed(t) ==> x.files == s.files)
  {
    hide HashMatches, ModeOf, Tagged, FileBlocked, DirBlocked;
  }

  ghost function Directories(members: seq<TarMember>): set<string> {
    set t | t in members && IsDirectory(t) :: DirectoryOf(t)
  }

  lemma OneMoreDirectory(before: seq<TarMember>, t: TarMember)
    ensures Directories(before + [t]) == Directories(before) + (if IsDirectory(t) then {DirectoryOf(t)} else {})
  {
    hide IsDirectory;
    assert forall u :: u in before + [t] <==> u in before || u == t;
  }

  /** An extraction that succeeds has made exactly the directories among the members. */
  lemma {:induction false} DirectoriesAreMade(sha: Bytes -> string, index: map<string, FileEntry>, budget: int,
                                              members: seq<TarMember>)
    requires ExtractMembers(sha, index, budget, members).Extracted?
    ensures ExtractMembers(sha, index, budget, members).s.dirs == Directories(members)
  {
    if |members| > 0 {
      hide ExtractMember, IsDirectory, Directories;
      var before, t := members[..|members| - 1], members[|members| - 1];
      assert members == before + [t];
      DirectoriesAreMade(sha, index, budget, before);
      MemberMakes(sha, index, budget, ExtractMembers(sha, index, budget, before).s, t);
      hide ExtractMembers;
      OneMoreDirectory(before, t);
    } else {
      assert ExtractMembers(sha, index, budget, members) == Extracted(Staging(map[], {}, 0, 0));
      assert Directories(members) == {};
    }
  }

  /** A file whose content ends early or is not the indexed one is not left behind. */
  lemma BrokenFileIsRemoved(sha: Bytes -> string, index: map<string, FileEntry>, budget: int, s: Staging, t: TarMember)
    requires Routed(t) && !FileBlocked(s, ArchiveProofs.TargetOf(t))
    requires var x := ExtractMember(sha, index, budget, s, t); x.Broken? && x.reason in {"extract", "entry_hash"}
    ensures var x := ExtractMember(sha, index, budget, s, t);
      && x.s.files == s.files - {ArchiveProofs.TargetOf(t)}
      && (x.reason == "entry_hash" <==> |t.body| == t.size)
  {
    hide CheckEntry, StagedTarget, HashMatches, ModeOf, Tagged, FileBlocked;
  }

  /** The mode of a file is what the index gives, octal, and where it gives none the
      member's, or 644 where that has none either. */
  lemma ModeExactly(t: TarMember, want: Option<FileEntry>)
    ensures ModeOf(t, want) ==
      if want.Some? && want.value.mode != "" then
        if OctalDigits(want.value.mode) && OctalValue(want.value.mode) < 0x1_0000_0000
        then Some(OctalValue(want.value.mode) % (8 * 8 * 8)) else None
      else if t.mode % (8 * 8 * 8) == 0 then Some(6 * 64 + 4 * 8 + 4)
      else Some(t.mode % (8 * 8 * 8))
  {}
}
