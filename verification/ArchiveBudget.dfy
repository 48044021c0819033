/** How much Extract may write, and where: of any archive, of one with declared
    sizes that overflow, and of one that Verify accepts. */
module ArchiveBudget {
  import opened Basics
  import opened Names
  import opened ArchivePaths
  import opened ArchiveSpec
  import opened ArchiveProofs
  import T = Text
  import N = Numerals

  ghost predicate AllConfined(s: Staging) {
    (forall p <- s.files :: Confined(p)) && (forall p <- s.dirs :: Confined(p))
  }

  predicate WithinBudget(s: Staging, budget: int) {
    (s.touched <= budget || s.touched == 0) && 0 <= s.written <= s.touched
  }

  /** Added to any sum the budget allows, the declared size stays a 64-bit number. */
  predicate Summable(budget: int, size: nat) { (if budget > 0 then budget else 0) + size < T.INT64_LIMIT }

  lemma MemberConfined(sha: Bytes -> string, index: map<string, FileEntry>, budget: int, s: Staging, t: TarMember)
    requires AllConfined(s)
    ensures AllConfined(ExtractMember(sha, index, budget, s, t).s)
  {
    hide Confined;
    var e := CheckEntry(t.kind, t.name);
    if e.Member? && StagedTarget(e.rel).Some? { TargetIsConfined(t.kind, t.name); }
  }

  lemma MemberWithinBudget(sha: Bytes -> string, index: map<string, FileEntry>, budget: int, s: Staging, t: TarMember)
    requires WithinBudget(s, budget) && s.written == s.touched && Summable(budget, t.size)
    ensures var x := ExtractMember(sha, index, budget, s, t);
      WithinBudget(x.s, budget) && (x.Extracted? ==> x.s.written == x.s.touched)
  {
    hide CheckEntry, StagedTarget, ModeOf, HashMatches, FileBlocked, DirBlocked;
  }

  lemma {:induction false} MembersConfined(sha: Bytes -> string, index: map<string, FileEntry>, budget: int,
                                           members: seq<TarMember>)
    ensures AllConfined(ExtractMembers(sha, index, budget, members).s)
  {
    if |members| > 0 {
      hide AllConfined, ExtractMember;
      var before := ExtractMembers(sha, index, budget, members[..|members| - 1]);
      MembersConfined(sha, index, budget, members[..|members| - 1]);
      if before.Extracted? { MemberConfined(sha, index, budget, before.s, members[|members| - 1]); }
    } else {
      assert AllConfined(Staging(map[], {}, 0, 0));
    }
  }

  lemma {:induction false} MembersWithinBudget(sha: Bytes -> string, index: map<string, FileEntry>, budget: int,
                                               members: seq<TarMember>)
    requires forall t <- members :: Summable(budget, t.size)
    ensures var x := ExtractMembers(sha, index, budget, members);
      WithinBudget(x.s, budget) && (x.Extracted? ==> x.s.written == x.s.touched)
  {
    if |members| > 0 {
      hide ExtractMember;
      var before := ExtractMembers(sha, index, budget, members[..|members| - 1]);
      MembersWithinBudget(sha, index, budget, members[..|members| - 1]);
      if before.Extracted? { MemberWithinBudget(sha, index, budget, before.s, members[|members| - 1]); }
    }
  }

  /** Of any archive, checked or not, Extract writes nothing outside the staging
      directories, and no more bytes than the manifest's total_size unless some
      declared size overflows the 64-bit sum. */
  lemma ExtractStaysWithinBounds(sha: Bytes -> string, a: Archive, m: Manifest)
    ensures AllConfined(Extract(sha, a, m).s)
    ensures (forall t <- a.members :: Summable(m.totalSize, t.size)) ==> WithinBudget(Extract(sha, a, m).s, m.totalSize)
  {
    MembersConfined(sha, IndexFiles(m.files), m.totalSize, a.members);
    if forall t <- a.members :: Summable(m.totalSize, t.size) {
      MembersWithinBudget(sha, IndexFiles(m.files), m.totalSize, a.members);
    }
  }

  /** Extract has unpacked `members` within the budget, and has not exceeded it after `t`. */
  ghost predicate NextWithinBudget(sha: Bytes -> string, budget: int, members: seq<TarMember>, t: TarMember) {
    var x := ExtractMembers(sha, map[], budget, members);
    x.Extracted? && WithinBudget(x.s, budget) ==>
      WithinBudget(ExtractMembers(sha, map[], budget, members + [t]).s, budget)
  }

  /** A file of `size` bytes can be declared without any archive exceeding the
      budget through it exactly when the sum with the budget is a 64-bit number. */
  lemma SizeIsBoundedExactlyWhen(sha: Bytes -> string, budget: int, size: nat)
    requires 0 < budget && N.Fits(budget) && N.Fits(size)
    ensures (forall members, t: TarMember | t.size == size :: NextWithinBudget(sha, budget, members, t))
      <==> Summable(budget, size)
  {
    hide ExtractMembers, OverflowingMembers;
    if Summable(budget, size) {
      forall members, t: TarMember | t.size == size ensures NextWithinBudget(sha, budget, members, t) {
        SummableStaysWithin(sha, budget, members, t);
      }
    } else {
      var (first, next) := OverflowingMembers(budget, size);
      OverflowExceeds(sha, budget, size);
      assert [first] + [next] == [first, next];
      WrittenIsTouched(sha, map[], budget, [first]);
      assert !NextWithinBudget(sha, budget, [first], next);
    }
  }

  lemma SummableStaysWithin(sha: Bytes -> string, budget: int, members: seq<TarMember>, t: TarMember)
    requires Summable(budget, t.size)
    ensures NextWithinBudget(sha, budget, members, t)
  {
    hide ExtractMember, ExtractMembers;
    var x := ExtractMembers(sha, map[], budget, members);
    ExtractUnfolds(sha, map[], budget, members, t);
    if x.Extracted? && WithinBudget(x.s, budget) {
      WrittenIsTouched(sha, map[], budget, members);
      MemberWithinBudget(sha, map[], budget, x.s, t);
    }
  }

  lemma {:induction false} WrittenIsTouched(sha: Bytes -> string, index: map<string, FileEntry>, budget: int,
                                            members: seq<TarMember>)
    ensures var x := ExtractMembers(sha, index, budget, members); x.Extracted? ==> x.s.written == x.s.touched
  {
    if |members| > 0 {
      hide ExtractMember;
      var before := members[..|members| - 1];
      WrittenIsTouched(sha, index, budget, before);
      var x := ExtractMembers(sha, index, budget, before);
      if x.Extracted? { OneIsTouched(sha, index, budget, x.s, members[|members| - 1]); }
    }
  }

  lemma OneIsTouched(sha: Bytes -> string, index: map<string, FileEntry>, budget: int, s: Staging, t: TarMember)
    requires s.written == s.touched
    ensures var x := ExtractMember(sha, index, budget, s, t); x.Extracted? ==> x.s.written == x.s.touched
  {
    hide CheckEntry, StagedTarget, ModeOf, HashMatches, FileBlocked, DirBlocked;
  }

  // ----- an archive that exceeds the budget -----

  function Content(n: nat): Bytes { seq(n, i => 0) }

  function GameFile(letter: char, size: nat, body: Bytes): TarMember {
    TarMember(Regular, "game/" + [letter], size, body, 0)
  }

  /** One file of the whole budget, then one whose declared size overflows the sum
      and whose body has one more byte. */
  function OverflowingMembers(budget: nat, size: nat): (TarMember, TarMember) {
    (GameFile('a', budget, Content(budget)), GameFile('b', size, Content(1)))
  }

  lemma GameFileIsAccepted(letter: char, size: nat, body: Bytes)
    requires 'a' <= letter <= 'z'
    ensures var t := GameFile(letter, size, body); Routed(t) && ArchiveProofs.TargetOf(t) == "game.new/" + [letter]
  {
    hide CheckRelPath, ScanFile, CheckEntry, StagedTarget;
    GameFileIsPackaged(letter);
    PackagedNameIsAccepted("game/" + [letter]);
    assert "game" + "/" + [letter] == "game/" + [letter] && "game" + ".new/" + [letter] == "game.new/" + [letter];
    ArchivePaths.TargetOf("game", [letter]);
  }

  lemma GameFileIsPackaged(letter: char)
    requires 'a' <= letter <= 'z'
    ensures var name := "game/" + [letter]; CheckRelPath(name) && ScanFile(name) && Plain(name)
  {
    hide T.Split, Clean, ScanSegment, ScanName;
    GameFileParts(letter);
    CleanNormal("game/" + [letter]);
    ShortSegment("game");
    ShortSegment([letter]);
    LetterScans(letter);
  }

  lemma GameFileParts(letter: char)
    requires 'a' <= letter <= 'z'
    ensures T.Split("game/" + [letter], '/') == ["game", [letter]]
  {
    assert "game/" + [letter] == "game" + ['/'] + [letter];
    T.SplitWhole([letter], '/');
    T.SplitFirst("game", [letter], '/');
  }

  lemma LetterScans(letter: char)
    requires 'a' <= letter <= 'z'
    ensures ScanName([letter])
  {}

  lemma ShortSegment(s: string)
    requires s == "game" || (|s| == 1 && 'a' <= s[0] <= 'z')
    ensures ScanSegment(s)
  {
    TrimmedEnd(s, ". ");
    NoDotBefore(s);
    UpperAt(s);
  }

  lemma {:induction false} NoDotBefore(s: string)
    requires '.' !in s
    ensures BeforeDot(s) == s
  {
    if s != "" { NoDotBefore(s[1..]); }
  }

  /** The second file is admitted, and its byte written. */
  lemma OverflowExceeds(sha: Bytes -> string, budget: nat, size: nat)
    requires 0 < budget && N.Fits(budget) && N.Fits(size) && !Summable(budget, size)
    ensures var (first, next) := OverflowingMembers(budget, size);
      && next.size == size
      && ExtractMembers(sha, map[], budget, [first]).Extracted?
      && ExtractMembers(sha, map[], budget, [first]).s.touched == budget
      && ExtractMembers(sha, map[], budget, [first, next]).s.touched == budget + 1
  {
    hide ExtractMember, Summable, CheckEntry, FileBlocked, StagedTarget;
    var (first, next) := OverflowingMembers(budget, size);
    GameFileIsAccepted('a', budget, Content(budget));
    GameFileIsAccepted('b', size, Content(1));
    ExtractUnfolds(sha, map[], budget, [], first);
    ExtractUnfolds(sha, map[], budget, [first], next);
    assert [] + [first] == [first] && [first] + [next] == [first, next];
    FirstUnpacks(sha, budget, first);
    assert "game.new/" + ['a'] == "game.new/a" && "game.new/" + ['b'] == "game.new/b";
    NextToFirst(budget, StagedFile(Content(budget), 0x1A4));
    NextIsAdmitted(sha, budget, ExtractMembers(sha, map[], budget, [first]).s, next);
  }

  lemma ExtractUnfolds(sha: Bytes -> string, index: map<string, FileEntry>, budget: int, members: seq<TarMember>,
                       t: TarMember)
    ensures ExtractMembers(sha, index, budget, []) == Extracted(Staging(map[], {}, 0, 0))
    ensures var x := ExtractMembers(sha, index, budget, members);
      ExtractMembers(sha, index, budget, members + [t])
      == if x.Extracted? then ExtractMember(sha, index, budget, x.s, t) else x
  {
    hide ExtractMember;
    assert (members + [t])[..|members|] == members;
  }

  lemma NextToFirst(budget: nat, f: StagedFile)
    ensures !FileBlocked(Staging(map["game.new/a" := f], {}, budget, budget), "game.new/b")
  {}

  lemma FirstUnpacks(sha: Bytes -> string, budget: nat, t: TarMember)
    requires Routed(t) && t.size == budget == |t.body| && N.Fits(budget) && t.mode == 0
    ensures ExtractMember(sha, map[], budget, Staging(map[], {}, 0, 0), t)
         == Extracted(Staging(map[ArchiveProofs.TargetOf(t) := StagedFile(t.body, 0x1A4)], {}, budget, budget))
  {
    hide CheckEntry, StagedTarget, HashMatches;
  }

  lemma NextIsAdmitted(sha: Bytes -> string, budget: nat, s: Staging, t: TarMember)
    requires Routed(t) && 0 < budget && s.written == budget && N.Fits(budget) && N.Fits(t.size) && |t.body| == 1
    requires !Summable(budget, t.size) && t.mode == 0 && !FileBlocked(s, ArchiveProofs.TargetOf(t))
    ensures ExtractMember(sha, map[], budget, s, t).s.touched == s.touched + 1
  {
    hide CheckEntry, StagedTarget, HashMatches, FileBlocked;
  }

  // ----- what Verify adds -----

  /** Of an archive that Verify accepts, Extract never writes more than total_size,
      whatever the sizes. */
  lemma AcceptedStaysWithinBounds(sha: Bytes -> string, a: Archive, m: Manifest)
    requires Verify(sha, a, m) == Accepted
    ensures Extract(sha, a, m).s.touched <= m.totalSize
  {
    hide VerifyMembers, ExtractMembers;
    CountedBounds(sha, IndexFiles(m.files), m.totalSize, a.members);
  }

  lemma {:induction false} CountedBounds(sha: Bytes -> string, index: map<string, FileEntry>, budget: int,
                                         members: seq<TarMember>)
    requires VerifyMembers(sha, index, members).Counted?
    ensures ExtractMembers(sha, index, budget, members).s.touched <= VerifyMembers(sha, index, members).total
  {
    if |members| > 0 {
      hide VerifyMember, ExtractMember;
      var n := |members| - 1;
      CountedBounds(sha, index, budget, members[..n]);
      var before := ExtractMembers(sha, index, budget, members[..n]);
      CountedMember(sha, index, budget, before.s, members[n]);
    }
  }

  lemma CountedMember(sha: Bytes -> string, index: map<string, FileEntry>, budget: int, s: Staging, t: TarMember)
    requires VerifyMember(sha, index, t).Counted?
    ensures 0 <= VerifyMember(sha, index, t).total
    ensures ExtractMember(sha, index, budget, s, t).s.touched <= s.touched + VerifyMember(sha, index, t).total
  {
    hide CheckEntry, StagedTarget, ModeOf, HashMatches, FileBlocked, DirBlocked;
  }
}
