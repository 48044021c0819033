/** The names an update archive may use: what the packager lets through and what
    the launcher lets in. */
module ArchivePaths {
  import opened Basics
  import opened Names
  import opened Text

  const RESERVED := "<>:\"|?*"

  // ----- path.Clean -----

  /** Walk the segments, dropping "" and "." and resolving "..". */
  function Resolve(segments: seq<string>, stack: seq<string>, rooted: bool): seq<string>
    decreases |segments|
  {
    if |segments| == 0 then stack
    else
      var s, rest := segments[0], segments[1..];
      if s == "" || s == "." then Resolve(rest, stack, rooted)
      else if s != ".." then Resolve(rest, stack + [s], rooted)
      else if |stack| > 0 && stack[|stack| - 1] != ".." then Resolve(rest, stack[..|stack| - 1], rooted)
      else if rooted then Resolve(rest, stack, rooted)
      else Resolve(rest, stack + [".."], rooted)
  }

  function Clean(p: string): string {
    if p == "" then "."
    else
      var rooted := p[0] == '/';
      var out := Join(Resolve(Split(p, '/'), [], rooted), '/');
      if rooted then "/" + out else if out == "" then "." else out
  }

  predicate Normal(segment: string) { segment != "" && segment != "." && segment != ".." }

  lemma {:induction false} ResolveNormal(segments: seq<string>, stack: seq<string>, rooted: bool)
    requires forall s <- segments :: Normal(s)
    ensures Resolve(segments, stack, rooted) == stack + segments
    decreases |segments|
  {
    if |segments| > 0 {
      assert segments[0] in segments;
      ResolveNormal(segments[1..], stack + [segments[0]], rooted);
    }
  }

  /** Names made of normal segments are already clean. */
  lemma CleanNormal(p: string)
    requires forall s <- Split(p, '/') :: Normal(s)
    ensures Clean(p) == p
  {
    assert Split(p, '/')[0] in Split(p, '/');
    FirstPart(p);
    ResolveNormal(Split(p, '/'), [], false);
    assert [] + Split(p, '/') == Split(p, '/');
    JoinSplit(p, '/');
  }

  lemma FirstPart(p: string)
    ensures p == "" || p[0] == '/' ==> Split(p, '/')[0] == ""
  {}

  // ----- the launcher: checkEntry and stagedTarget -----

  /** isReservedComponent. */
  predicate ReservedComponent(segment: string) {
    var s := TrimRightOf(segment, ". ");
    s != "" && Device(Upper(BeforeDot(s)))
  }

  predicate SegmentAllowed(s: string) {
    Normal(s) && !ReservedComponent(s) && (forall c <- s :: c !in RESERVED) && !EndsIn(s, '.') && !EndsIn(s, ' ')
  }

  datatype Type = Regular | Directory | Other

  datatype Entry = Violation(reason: string) | Root | Member(rel: string, isDir: bool)

  predicate DriveQualified(name: string) { |name| >= 2 && name[1] == ':' }

  /** Why the first segment that is not allowed is not. */
  function Objection(segments: seq<string>): (r: Option<string>)
    ensures r.None? <==> forall s <- segments :: SegmentAllowed(s)
  {
    if |segments| == 0 then None
    else if SegmentAllowed(segments[0]) then
      assert segments == [segments[0]] + segments[1..];
      Objection(segments[1..])
    else if Normal(segments[0]) && ReservedComponent(segments[0]) then Some("device")
    else Some("path")
  }

  function CheckEntry(t: Type, name: string): Entry {
    if t.Other? then Violation("entry_type")
    else if name == "" || '\0' in name || '\\' in name || name[0] == '/' || DriveQualified(name) then Violation("path")
    else CheckClean(Clean(name), t.Directory?)
  }

  function CheckClean(clean: string, isDir: bool): Entry {
    if clean == "." || clean == "/" then Root
    else if clean == ".." || "../" <= clean || "/" <= clean then Violation("path")
    else
      var segments := Split(clean, '/');
      if Objection(segments).Some? then Violation(Objection(segments).value)
      else if Upper(segments[0]) == "DATA" then Violation("data")
      else Member(clean, isDir)
  }

  /** The name an accepted member is known by is canonical: only allowed segments,
      not below data/, and clean already. Nothing that could lead elsewhere on some
      system is in it. */
  lemma AcceptedNameIsCanonical(t: Type, name: string)
    requires CheckEntry(t, name).Member?
    ensures var rel := CheckEntry(t, name).rel;
      && rel == Clean(name) && Clean(rel) == rel && CheckClean(rel, t.Directory?) == CheckEntry(t, name)
      && (forall s <- Split(rel, '/') :: SegmentAllowed(s)) && Upper(Split(rel, '/')[0]) != "DATA"
    ensures '\\' !in name && '\0' !in name && name[0] != '/' && !(|name| >= 2 && name[1] == ':')
    ensures forall s <- Split(CheckEntry(t, name).rel, '/') ::
      && s != "" && s != "." && s != ".." && s[|s| - 1] !in ". " && (forall c <- s :: c !in "<>:\"|?*")
      && !Device(Upper(BeforeDot(TrimRightOf(s, ". "))))
  {
    var rel := CheckEntry(t, name).rel;
    assert forall s <- Split(rel, '/') :: SegmentAllowed(s);
    CleanNormal(rel);
    forall s <- Split(rel, '/')
      ensures s != "" && s != "." && s != ".." && s[|s| - 1] !in ". " && (forall c <- s :: c !in "<>:\"|?*")
      ensures !Device(Upper(BeforeDot(TrimRightOf(s, ". "))))
    {
      AllowedMeans(s);
    }
  }

  lemma AllowedMeans(s: string)
    requires SegmentAllowed(s)
    ensures s != "" && s != "." && s != ".." && s[|s| - 1] !in ". " && (forall c <- s :: c !in "<>:\"|?*")
    ensures !Device(Upper(BeforeDot(TrimRightOf(s, ". "))))
  {}

  lemma {:induction false} ResolvesInto(segments: seq<string>, more: seq<string>, stack: seq<string>, rooted: bool)
    requires forall s <- segments :: Normal(s)
    ensures Resolve(segments + more, stack, rooted) == Resolve(more, stack + segments, rooted)
    decreases |segments|
  {
    if |segments| == 0 {
      assert segments + more == more && stack + segments == stack;
    } else {
      assert segments[0] in segments && (segments + more)[1..] == segments[1..] + more;
      ResolvesInto(segments[1..], more, stack + [segments[0]], rooted);
      assert stack + [segments[0]] + segments[1..] == stack + segments;
    }
  }

  /** A segment and the step back out of it lead nowhere, and neither do empty segments
      and dots. */
  lemma StepBackIsUndone(before: seq<string>, s: string, after: seq<string>, rooted: bool)
    requires Normal(s) && forall x <- before :: Normal(x)
    ensures Resolve(before + [s, ".."] + after, [], rooted) == Resolve(before + after, [], rooted)
    ensures Resolve(before + [""] + after, [], rooted) == Resolve(before + after, [], rooted)
    ensures Resolve(before + ["."] + after, [], rooted) == Resolve(before + after, [], rooted)
    ensures Resolve([".."] + after, [], rooted) == Resolve(after, if rooted then [] else [".."], rooted)
  {
    assert before + [s, ".."] + after == before + ([s, ".."] + after);
    assert before + [""] + after == before + ([""] + after) && before + ["."] + after == before + (["."] + after);
    ResolvesInto(before, [s, ".."] + after, [], rooted);
    ResolvesInto(before, [""] + after, [], rooted);
    ResolvesInto(before, ["."] + after, [], rooted);
    ResolvesInto(before, after, [], rooted);
    assert ([s, ".."] + after)[1..] == [".."] + after && ([".."] + after)[1..] == after;
    assert ([""] + after)[1..] == after && (["."] + after)[1..] == after;
    assert ([] + before + [s])[..|before|] == [] + before;
    assert [] + [".."] == [".."];
  }

  const GAME_NEW := "game.new/"
  const LAUNCHER_NEW := "launcher.new/"

  /** stagedTarget: where a member goes below the staging root. */
  function StagedTarget(rel: string): Option<string> {
    var slash := Index(rel, '/');
    if slash == 0 || slash == |rel| || slash + 1 == |rel| then None
    else if rel[..slash] == "game" then Some(GAME_NEW + rel[slash + 1..])
    else if rel[..slash] == "launcher" then Some(LAUNCHER_NEW + rel[slash + 1..])
    else None
  }

  // ----- the packager: CheckRelPath and ScanForbidden -----

  predicate Namespaced(p: string) {
    ("game/" <= p && |p| > |"game/"|) || ("launcher/" <= p && |p| > |"launcher/"|)
  }

  /** CheckRelPath with the prefixes of a release. */
  predicate CheckRelPath(p: string) {
    && p != "" && '\0' !in p && '\\' !in p && p[0] != '/' && !DriveQualified(p)
    && (forall s <- Split(p, '/') :: Normal(s)) && Clean(p) == p && Namespaced(p)
  }

  predicate CheckFileIndex(paths: seq<string>) {
    forall p <- paths :: CheckRelPath(p) && !("data/" <= p)
  }

  predicate ScanSegment(s: string) {
    !Device(Upper(BeforeDot(s))) && TrimRightOf(s, ". ") == s
  }

  function BaseName(rel: string): string { var segs := Split(rel, '/'); segs[|segs| - 1] }

  predicate ScanName(name: string) {
    && name !in [".DS_Store", "Thumbs.db", ".idea", ".vscode"] && !EndsIn(name, '~')
    && !(|name| >= 4 && name[|name| - 4..] == ".swp") && ("." <= name ==> name == ".keep")
  }

  /** ScanForbidden, for one file of the staged package. */
  predicate ScanFile(rel: string) {
    var segments := Split(rel, '/');
    && ScanName(BaseName(rel)) && (forall s <- segments :: ScanSegment(s))
    && (segments[0] == "data" ==> |segments| < 2 || segments == ["data", ".keep"])
    && (segments[0] == "launcher" && |segments| >= 2 ==>
          segments[1] in ["launcher", "launcher.exe", "launcher.config.json", "port-deny-list.json", "VERSION"])
  }

  // ----- the two sets of rules compared -----

  lemma {:induction false} TrimmedEnd(s: string, cut: string)
    ensures TrimRightOf(s, cut) == s <==> s == "" || s[|s| - 1] !in cut
  {
    if s != "" && s[|s| - 1] in cut { TrimShrinks(s[..|s| - 1], cut); }
  }

  lemma {:induction false} TrimShrinks(s: string, cut: string)
    ensures |TrimRightOf(s, cut)| <= |s|
  {
    if s != "" && s[|s| - 1] in cut { TrimShrinks(s[..|s| - 1], cut); }
  }

  lemma SegmentRules(s: string)
    requires Normal(s) && ScanSegment(s)
    ensures SegmentAllowed(s) <==> forall c <- s :: c !in RESERVED
  {
    TrimmedEnd(s, ". ");
  }

  lemma NamespaceFirst(p: string)
    requires Namespaced(p)
    ensures Split(p, '/')[0] in ["game", "launcher"]
  {
    var ns := if "game/" <= p then "game" else "launcher";
    assert p == ns + ['/'] + p[|ns| + 1..];
    SplitFirst(ns, p[|ns| + 1..], '/');
  }

  /** Of the names the packager lets through, the launcher lets in exactly those
      without one of the seven characters Windows reserves. */
  lemma PackagedNameIsAccepted(p: string)
    requires CheckRelPath(p) && ScanFile(p)
    ensures CheckEntry(Regular, p) == (if Plain(p) then Member(p, false) else Violation("path"))
  {
    hide CheckRelPath, ScanFile, Clean, SegmentAllowed, Upper, Objection;
    EntryUnfolds(p);
    NotDots(p);
    NamespaceFirst(p);
    SegmentsAllowed(p);
    NotData(Split(p, '/')[0]);
  }

  lemma NotData(ns: string)
    requires ns in ["game", "launcher"]
    ensures Upper(ns) != "DATA"
  {
    UpperAt(ns);
    assert Upper(ns)[0] == UpperChar(ns[0]) && ns[0] in "gl";
  }

  predicate Plain(p: string) { forall c <- p :: c !in RESERVED }

  lemma EntryUnfolds(p: string)
    requires CheckRelPath(p)
    ensures CheckEntry(Regular, p) == CheckClean(p, false) && Namespaced(p)
  {}

  lemma SegmentsAllowed(p: string)
    requires CheckRelPath(p) && ScanFile(p)
    ensures Namespaced(p) && (Plain(p) <==> forall s <- Split(p, '/') :: SegmentAllowed(s))
    ensures !Plain(p) ==> Objection(Split(p, '/')) == Some("path")
  {
    var segments := Split(p, '/');
    NoDevices(segments);
    forall s <- segments ensures SegmentAllowed(s) <==> forall c <- s :: c !in RESERVED { SegmentRules(s); }
    if Plain(p) {
      SplitWithin(p, '/');
    } else {
      var c :| c in p && c in RESERVED;
      SplitCovers(p, '/', c);
      var s :| s in segments && c in s;
      assert !SegmentAllowed(s);
    }
  }

  /** Segments the packager lets through are no devices, so nothing else is objected to. */
  lemma {:induction false} NoDevices(segments: seq<string>)
    requires forall s <- segments :: Normal(s) && ScanSegment(s)
    ensures Objection(segments).Some? ==> Objection(segments) == Some("path")
  {
    if |segments| > 0 {
      assert segments == [segments[0]] + segments[1..];
      TrimmedEnd(segments[0], ". ");
      NoDevices(segments[1..]);
      hide SegmentAllowed;
    }
  }

  lemma NotDots(p: string)
    requires Namespaced(p)
    ensures p != "." && p != "/" && p != ".." && !("../" <= p) && !("/" <= p)
  {
    if "game/" <= p { PrefixHead("game/", p); } else { PrefixHead("launcher/", p); }
    if "../" <= p { PrefixHead("../", p); }
    if "/" <= p { PrefixHead("/", p); }
  }

  lemma PrefixHead(prefix: string, s: string)
    requires prefix != "" && prefix <= s
    ensures s != "" && s[0] == prefix[0]
  {}

  /** Different members go to different places, all below game.new/ or
      launcher.new/. */
  lemma TargetsAreDistinct(a: string, b: string)
    requires StagedTarget(a).Some? && StagedTarget(a) == StagedTarget(b)
    ensures a == b
  {
    var i, j := Index(a, '/'), Index(b, '/');
    IndexSplits(a, '/');
    IndexSplits(b, '/');
    var t := StagedTarget(a).value;
    assert t[4] == '.' <==> a[..i] == "game";
    assert t[4] == '.' <==> b[..j] == "game";
    assert t[if a[..i] == "game" then |GAME_NEW| else |LAUNCHER_NEW|..] == a[i + 1..] == b[j + 1..];
  }

  /** A namespaced path goes to the same path under the namespace's staging name. */
  lemma TargetOf(ns: string, rest: string)
    requires ns in ["game", "launcher"] && rest != ""
    ensures StagedTarget(ns + "/" + rest) == Some(ns + ".new/" + rest)
  {
    assert ns + "/" + rest == ns + ['/'] + rest;
    assert "game" + ".new/" == GAME_NEW && "launcher" + ".new/" == LAUNCHER_NEW;
    IndexOf(ns, '/', rest);
    assert (ns + "/" + rest)[..|ns|] == ns && (ns + "/" + rest)[|ns| + 1..] == rest;
  }
}
