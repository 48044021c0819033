/** An update from the marker to the staged files: the pipeline with the download and
    the checks of the archive put in the place of its answers. */
module UpdateArchive {
  import opened Basics
  import F = FolderModel
  import U = UpdateSpec
  import P = UpdateProofs
  import D = UpdateDetails
  import DS = DownloadSpec
  import DP = DownloadProofs
  import DT = DownloadTheorems
  import opened ArchiveSpec
  import opened ArchiveProofs
  import opened ArchiveBudget

  /** What the pipeline asks to be downloaded. */
  predicate Asked(q: DS.Request, a: U.Attempt, p: F.Pending, um: U.Manifest) {
    && q.url == U.ResolveArchiveUrl(p, um, a.resolve) && q.size == um.archiveSize && q.hash == p.archiveHash
    && !q.noResume
  }

  /** How the pipeline takes the end of a download. */
  function AnswerOf(e: DS.Error): U.Download {
    match e
    case NoError => U.Fetched
    case Insecure => U.DownloadRefused(U.InsecureScheme)
    case NoSize => U.DownloadRefused(U.NoArchiveSize)
    case TooLarge => U.DownloadRefused(U.ArchiveTooLarge)
    case Cancelled => U.DownloadCancelled
    case Failed => U.DownloadFailed
  }

  /** The one manifest as the pipeline and as the checks of the archive see it. */
  predicate OneManifest(um: U.Manifest, m: Manifest) {
    um.archiveSize == m.archiveSize && um.archiveHash == m.archiveHash && um.totalSize == m.totalSize
  }

  /** The attempt's answers are those of the download that ended in `o`, of Verify and
      of Extract, on the file the download left. */
  predicate Answers(a: U.Attempt, sha: Bytes -> string, o: DS.Outcome, archive: Archive, m: Manifest) {
    && a.download == AnswerOf(o.error)
    && (o.error == DS.NoError ==> o.world.disk.part == Some(archive.bytes))
    && (a.verified <==> Verify(sha, archive, m) == Accepted)
    && (a.accepted <==> Extract(sha, archive, m).Extracted?)
  }

  /** Every non-empty file of the index is a member of the archive, every staged file is
      one of the index with its size, hash and mode, and no more was written than the
      manifest says. */
  ghost predicate StagedAsPublished(sha: Bytes -> string, archive: Archive, m: Manifest) {
    var s := Extract(sha, archive, m).s;
    && HashMatches(m.archiveHash, Tagged(sha, archive.bytes)) && s.touched <= m.totalSize && AllConfined(s)
    && (forall p <- s.files :: exists f <- m.files :: StagedAsIndexed(sha, f, p, s.files[p]))
    && (forall i | 0 <= i < |m.files| && m.files[i].size > 0 ::
          exists t <- archive.members :: AsIndexed(sha, m.files[i], t))
  }

  /** Index and members the packager's own check lets pass. */
  ghost predicate WellIndexed(archive: Archive, m: Manifest) {
    && CleanIndex(m.files) && |m.files| > 0 && DistinctFiles(archive.members)
    && m.totalSize == SumSizes(m.files) && forall i | 0 <= i < |m.files| :: m.files[i].size >= 0
  }

  /** Whatever an Apply installs was asked for by a marker and a manifest that passed
      every gate, is byte for byte what the address serves, whatever downloads were
      broken off before, and was staged as the manifest publishes it. */
  lemma InstalledIsPublished(w: F.World, a: U.Attempt, p: F.Pending, um: U.Manifest, sha: Bytes -> string, sure: bool,
                             part: DS.Disk, earlier: seq<DT.Attempt>, last: DT.Attempt, server: DP.Server,
                             archive: Archive, m: Manifest)
    requires w.disk.notes.pending == Some(p) && a.manifest == Some(um) && OneManifest(um, m) && WellIndexed(archive, m)
    requires DP.Honest(part, server) && (sure || DT.OneAddress(part, earlier + [last], last.q.url))
    requires Asked(last.q, a, p, um)
    requires Answers(a, sha, DT.Try(sha, sure, DT.History(sha, sure, part, earlier, server), last, server), archive, m)
    ensures P.Installed(U.Apply(w, a).result) ==>
      && D.GatesPassed(w.disk, a, p, um) && p.target == um.release
      && |archive.bytes| == um.archiveSize && archive.bytes <= server(last.q.url)
      && StagedAsPublished(sha, archive, m)
  {
    hide Verify, Extract, CleanIndex, DistinctFiles, DT.Try, DT.History, U.Apply, U.ResolveArchiveUrl;
    D.NothingIsInstalledUnchecked(w, a);
    if P.Installed(U.Apply(w, a).result) {
      DT.ResumedEqualsStraight(sha, sure, part, earlier, last, server);
      DownloadedIsArchive(a, sha, DT.Try(sha, sure, DT.History(sha, sure, part, earlier, server), last, server), last.q,
                          server(last.q.url), archive, m);
      VerifiedIsStaged(sha, archive, m);
    }
  }

  lemma DownloadedIsArchive(a: U.Attempt, sha: Bytes -> string, o: DS.Outcome, q: DS.Request, served: Bytes,
                            archive: Archive, m: Manifest)
    requires a.download == U.Fetched && Answers(a, sha, o, archive, m)
    requires o.error == DS.NoError ==> DP.Complete(sha, q, served, o)
    ensures |archive.bytes| == q.size && archive.bytes <= served
  {
    hide Verify, Extract;
  }

  lemma VerifiedIsStaged(sha: Bytes -> string, archive: Archive, m: Manifest)
    requires Verify(sha, archive, m) == Accepted && Extract(sha, archive, m).Extracted? && WellIndexed(archive, m)
    ensures StagedAsPublished(sha, archive, m)
  {
    hide Verify, Extract, CleanIndex, DistinctFiles;
    DigestMatches(sha, archive, m);
    AcceptedStaysWithinBounds(sha, archive, m);
    ExtractStaysWithinBounds(sha, archive, m);
    ExtractedAsIndexed(sha, archive, m);
    forall i | 0 <= i < |m.files| && m.files[i].size > 0
      ensures exists t <- archive.members :: AsIndexed(sha, m.files[i], t)
    {
      AcceptedIsComplete(sha, archive, m, i);
    }
  }

  lemma DigestMatches(sha: Bytes -> string, archive: Archive, m: Manifest)
    requires Verify(sha, archive, m) == Accepted
    ensures HashMatches(m.archiveHash, Tagged(sha, archive.bytes))
  {
    hide HashMatches, VerifyMembers;
  }
}
