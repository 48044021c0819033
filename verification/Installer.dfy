/** The launcher's loops over an archive: the check before extraction, and the
    extraction into the staging directories. */
module Installer {
  import opened Basics
  import opened ArchivePaths
  import opened ArchiveSpec
  import AS = ArchiveSpec
  import N = Numerals

  method BuildIndex(files: seq<FileEntry>) returns (index: map<string, FileEntry>)
    ensures index == AS.IndexFiles(files)
  {
    index := map[];
    for i := 0 to |files|
      invariant index == AS.IndexFiles(files[..i])
    {
      assert files[..i + 1][..i] == files[..i];
      index := index[Clean(files[i].path) := files[i]];
    }
    assert files[..|files|] == files;
  }

  /** The members in turn, adding up what they decompress to. */
  method WalkMembers(sha: Bytes -> string, index: map<string, FileEntry>, members: seq<TarMember>) returns (r: Walk)
    ensures r == VerifyMembers(sha, index, members)
  {
    hide VerifyMember, VerifyMembers;
    var total := 0;
    WalkUnfolds(sha, index, []);
    for i := 0 to |members|
      invariant VerifyMembers(sha, index, members[..i]) == Counted(total)
    {
      var one := VerifyMember(sha, index, members[i]);
      WalkUnfolds(sha, index, members[..i + 1]);
      assert members[..i + 1][..i] == members[..i];
      if one.Stopped? {
        StopsHere(sha, index, members, i + 1);
        return one;
      }
      total := total + one.total;
    }
    assert members[..|members|] == members;
    return Counted(total);
  }

  lemma WalkUnfolds(sha: Bytes -> string, index: map<string, FileEntry>, members: seq<TarMember>)
    ensures VerifyMembers(sha, index, members) ==
      if |members| == 0 then Counted(0)
      else
        var before := VerifyMembers(sha, index, members[..|members| - 1]);
        var one := VerifyMember(sha, index, members[|members| - 1]);
        if before.Stopped? then before
        else if one.Stopped? then one
        else Counted(before.total + one.total)
  {
    hide VerifyMember;
  }

  /** Once the walk has stopped, later members do not matter. */
  lemma {:induction false} StopsHere(sha: Bytes -> string, index: map<string, FileEntry>, members: seq<TarMember>,
                                     i: nat)
    requires i <= |members| && VerifyMembers(sha, index, members[..i]).Stopped?
    ensures VerifyMembers(sha, index, members) == VerifyMembers(sha, index, members[..i])
    decreases |members|
  {
    var n := |members| - 1;
    if i < |members| {
      assert members[..n][..i] == members[..i];
      StopsHere(sha, index, members[..n], i);
    } else {
      assert members[..i] == members;
    }
  }

  method Verify(sha: Bytes -> string, a: Archive, m: Manifest) returns (v: Verdict)
    ensures v == AS.Verify(sha, a, m)
  {
    if m.signed { return Refused("signature_unavailable"); }
    if m.archiveSize > 0 && |a.bytes| != m.archiveSize { return Refused("archive_size"); }
    if m.archiveHash == "" { return Refused("archive_hash_missing"); }
    if !HashMatches(m.archiveHash, Tagged(sha, a.bytes)) { return Refused("archive_hash"); }
    var index := BuildIndex(m.files);
    var walk := WalkMembers(sha, index, a.members);
    match walk
    case Stopped(reason) => return Refused(reason);
    case Counted(total) => return if total != m.totalSize then Refused("total_size") else Accepted;
  }

  /** The staging root of the update directory. */
  class StagingRoot {
    var files: map<string, StagedFile>
    var dirs: set<string>
    var written: int
    var touched: int

    function State(): Staging
      reads this
    {
      Staging(files, dirs, written, touched)
    }

    constructor ()
      ensures State() == Staging(map[], {}, 0, 0)
    {
      files, dirs, written, touched := map[], {}, 0, 0;
    }

    /** Open, copy, and check one file; a file that fails is removed again. */
    method PutFile(sha: Bytes -> string, t: TarMember, target: string, want: Option<FileEntry>, mode: nat)
      returns (failure: Option<string>)
      modifies this
      ensures WriteFile(sha, old(State()), t, target, want, mode)
           == if failure.None? then Extracted(State()) else Broken(State(), failure.value)
    {
      if FileBlocked(State(), target) { return Some("extract"); }
      var n := if |t.body| < t.size then |t.body| else t.size;
      touched := touched + n;
      if |t.body| != t.size {
        files := files - {target};
        return Some("extract");
      }
      if want.Some? && !HashMatches(want.value.hash, Tagged(sha, t.body)) {
        files := files - {target};
        return Some("entry_hash");
      }
      files := files[target := StagedFile(t.body, mode)];
      written := written + t.size;
      return None;
    }

    method PutMember(sha: Bytes -> string, index: map<string, FileEntry>, budget: int, t: TarMember)
      returns (failure: Option<string>)
      modifies this
      ensures ExtractMember(sha, index, budget, old(State()), t)
           == if failure.None? then Extracted(State()) else Broken(State(), failure.value)
    {
      hide WriteFile, CheckEntry, StagedTarget, ModeOf;
      var entry := CheckEntry(t.kind, t.name);
      if entry.Violation? { return Some(entry.reason); }
      if entry.Root? { return None; }
      var rel := entry.rel;
      var target := StagedTarget(rel);
      if target.None? { return Some("unlisted_entry"); }
      if entry.isDir {
        if |t.body| != t.size || DirBlocked(State(), target.value) { return Some("extract"); }
        dirs := dirs + {target.value};
        return None;
      }
      var want: Option<FileEntry> := None;
      if index.Keys != {} {
        if rel !in index { return Some("unlisted_entry"); }
        if index[rel].size != t.size { return Some("entry_size"); }
        want := Some(index[rel]);
      }
      if N.Wrap(written + t.size) > budget { return Some("size_budget"); }
      var mode := ModeOf(t, want);
      if mode.None? { return Some("entry_mode"); }
      failure := PutFile(sha, t, target.value, want, mode.value);
    }

    /** Extract, into an empty staging root. */
    method Extract(sha: Bytes -> string, a: Archive, m: Manifest) returns (failure: Option<string>)
      requires State() == Staging(map[], {}, 0, 0)
      modifies this
      ensures AS.Extract(sha, a, m) == if failure.None? then Extracted(State()) else Broken(State(), failure.value)
    {
      hide ExtractMember;
      var index := BuildIndex(m.files);
      for i := 0 to |a.members|
        invariant ExtractMembers(sha, index, m.totalSize, a.members[..i]) == Extracted(State())
      {
        assert a.members[..i + 1][..i] == a.members[..i];
        failure := PutMember(sha, index, m.totalSize, a.members[i]);
        if failure.Some? {
          BreaksHere(sha, index, m.totalSize, a.members, i + 1);
          return;
        }
      }
      assert a.members[..|a.members|] == a.members;
      return None;
    }

    static lemma {:induction false} BreaksHere(sha: Bytes -> string, index: map<string, FileEntry>, budget: int,
                                               members: seq<TarMember>, i: nat)
      requires i <= |members| && ExtractMembers(sha, index, budget, members[..i]).Broken?
      ensures ExtractMembers(sha, index, budget, members) == ExtractMembers(sha, index, budget, members[..i])
      decreases |members|
    {
      var n := |members| - 1;
      if i < |members| {
        assert members[..n][..i] == members[..i];
        BreaksHere(sha, index, budget, members[..n], i);
      } else {
        assert members[..i] == members;
      }
    }
  }
}
