/** The packager's loops: the file index, the archive, and the check of one against
    the other. */
module Packager {
  import opened Basics
  import opened Order
  import opened ArchivePaths
  import opened ArchiveSpec

  /** RelFiles under one namespace. */
  method ListNamespace(stage: Stage, ns: string) returns (rels: seq<string>)
    ensures rels == RelFiles(stage, ns)
  {
    rels := SortKeys(RelNames(stage, ns));
  }

  /** The keys one namespace contributes, the manifest left out. */
  method CollectKeys(stage: Stage, ns: string, manifestRel: string) returns (keys: seq<string>)
    ensures keys == Keys(ns, RelFiles(stage, ns), manifestRel)
  {
    hide RelFiles, Keys;
    var rels := ListNamespace(stage, ns);
    NoKeys(ns, manifestRel);
    assert rels[0..] == rels && rels[|rels|..] == [];
    keys := [];
    var i := 0;
    while i < |rels|
      invariant i <= |rels|
      invariant keys + Keys(ns, rels[i..], manifestRel) == Keys(ns, rels, manifestRel)
    {
      NextKey(ns, rels, i, manifestRel, keys);
      var key := ns + "/" + rels[i];
      if key != manifestRel { keys := keys + [key]; }
      i := i + 1;
    }
  }

  lemma NoKeys(ns: string, manifestRel: string)
    ensures Keys(ns, [], manifestRel) == []
  {}

  lemma NextKey(ns: string, rels: seq<string>, i: nat, manifestRel: string, keys: seq<string>)
    requires i < |rels|
    ensures keys + Keys(ns, rels[i..], manifestRel)
         == keys + (if ns + "/" + rels[i] == manifestRel then [] else [ns + "/" + rels[i]])
            + Keys(ns, rels[i + 1..], manifestRel)
  {
    assert rels[i..][1..] == rels[i + 1..];
  }

  method CollectShipped(stage: Stage, manifestRel: string) returns (keys: seq<string>)
    ensures keys == Shipped(stage, manifestRel)
    ensures forall i | 0 <= i < |keys| :: keys[i] in stage
  {
    keys := CollectKeys(stage, "game", manifestRel);
    var more := CollectKeys(stage, "launcher", manifestRel);
    keys := keys + more;
    ShippedAreStaged(stage, manifestRel);
  }

  method CheckIndex(paths: seq<string>) returns (ok: bool)
    ensures ok == CheckFileIndex(paths)
  {
    for i := 0 to |paths|
      invariant forall j | 0 <= j < i :: CheckRelPath(paths[j]) && !("data/" <= paths[j])
    {
      if !CheckRelPath(paths[i]) || "data/" <= paths[i] {
        assert paths[i] in paths;
        return false;
      }
    }
    return true;
  }

  /** BuildFileIndex: the entries and their total, or None when a path is refused. */
  method BuildFileIndex(sha: Bytes -> string, stage: Stage, manifestRel: string)
    returns (index: Option<(seq<FileEntry>, int)>)
    ensures index.Some? <==> CheckFileIndex(Shipped(stage, manifestRel))
    ensures (forall i | 0 <= i < |Shipped(stage, manifestRel)| :: Shipped(stage, manifestRel)[i] in stage)
    ensures index.Some? ==>
      index.value == (Entries(sha, stage, Shipped(stage, manifestRel)), Total(stage, Shipped(stage, manifestRel)))
  {
    hide Shipped, CheckFileIndex;
    var keys := CollectShipped(stage, manifestRel);
    var entries, total := IndexKeys(sha, stage, keys);
    var ok := CheckIndex(keys);
    index := if ok then Some((entries, total)) else None;
  }

  method IndexKeys(sha: Bytes -> string, stage: Stage, keys: seq<string>) returns (entries: seq<FileEntry>, total: int)
    requires forall i | 0 <= i < |keys| :: keys[i] in stage
    ensures entries == Entries(sha, stage, keys) && total == Total(stage, keys)
  {
    entries, total := [], 0;
    for i := 0 to |keys|
      invariant entries == Entries(sha, stage, keys[..i]) && total == Total(stage, keys[..i])
    {
      assert keys[..i + 1][..i] == keys[..i];
      entries := entries + [EntryOf(sha, keys[i], stage[keys[i]])];
      total := total + |stage[keys[i]].content|;
    }
    assert keys[..|keys|] == keys;
  }

  /** BuildUpdateArchive: one regular member for every shipped file. */
  method BuildUpdateArchive(encode: seq<TarMember> -> Bytes, stage: Stage, manifestRel: string) returns (a: Archive)
    ensures forall i | 0 <= i < |Shipped(stage, manifestRel)| :: Shipped(stage, manifestRel)[i] in stage
    ensures a.members == Members(stage, Shipped(stage, manifestRel)) && a.bytes == encode(a.members)
  {
    hide Shipped;
    var keys := CollectShipped(stage, manifestRel);
    var members := WriteMembers(stage, keys);
    a := Archive(encode(members), members);
  }

  method WriteMembers(stage: Stage, keys: seq<string>) returns (members: seq<TarMember>)
    requires forall i | 0 <= i < |keys| :: keys[i] in stage
    ensures members == Members(stage, keys)
  {
    members := [];
    for i := 0 to |keys|
      invariant members == Members(stage, keys[..i])
    {
      assert keys[..i + 1][..i] == keys[..i];
      members := members + [MemberOf(keys[i], stage[keys[i]])];
    }
    assert keys[..|keys|] == keys;
  }

  method IndexByPath(files: seq<FileEntry>) returns (index: map<string, FileEntry>)
    ensures index == IndexOf(files)
  {
    index := map[];
    for i := 0 to |files|
      invariant index == IndexOf(files[..i])
    {
      assert files[..i + 1][..i] == files[..i];
      index := index[files[i].path := files[i]];
    }
    assert files[..|files|] == files;
  }

  /** verifyTarIndex: every member is indexed and every indexed path is a member. */
  method CheckArchive(sha: Bytes -> string, a: Archive, m: Manifest) returns (ok: bool)
    ensures ok == VerifyTarIndex(sha, a, m)
  {
    var index := IndexByPath(m.files);
    var seen: set<string> := {};
    for i := 0 to |a.members|
      invariant forall j | 0 <= j < i :: Matches(sha, index, a.members[j])
      invariant forall p :: p in seen <==> exists j | 0 <= j < i :: a.members[j].kind.Regular? && a.members[j].name == p
    {
      var t := a.members[i];
      if t.kind.Regular? {
        if !Matches(sha, index, t) {
          assert t in a.members;
          return false;
        }
        seen := seen + {t.name};
      }
    }
    for i := 0 to |m.files|
      invariant forall j | 0 <= j < i :: m.files[j].path in seen
    {
      if m.files[i].path !in seen {
        assert m.files[i] in m.files;
        return false;
      }
    }
    forall f <- m.files ensures exists t <- a.members :: t.kind.Regular? && t.name == f.path {
      var j :| 0 <= j < |a.members| && a.members[j].kind.Regular? && a.members[j].name == f.path;
      assert a.members[j] in a.members;
    }
    return true;
  }
}
