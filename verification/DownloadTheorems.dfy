/** Whole histories of download attempts. */
module DownloadTheorems {
  import opened Basics
  import opened Numerals
  import opened DownloadSpec
  import opened DownloadProofs
  import T = Text

  // ----- histories -----

  /** One attempt of one process: what it asks for, is answered, and meets. */
  datatype Attempt = Attempt(q: Request, reply: Reply, script: nat -> Turn)

  function Try(sha: Bytes -> string, sure: bool, d: Disk, a: Attempt, server: Server): Outcome {
    DownloadArchive(sha, World(sure, d, a.script, 0, true, true), a.q, server(a.q.url), a.reply)
  }

  function History(sha: Bytes -> string, sure: bool, d: Disk, attempts: seq<Attempt>, server: Server): Disk
    decreases |attempts|
  {
    if |attempts| == 0 then d
    else History(sha, sure, Try(sha, sure, d, attempts[0], server).world.disk, attempts[1..], server)
  }

  /** Every attempt, and the record found at the start, is for this address. */
  ghost predicate OneAddress(d: Disk, attempts: seq<Attempt>, url: string) {
    (d.meta.Some? ==> d.meta.value.url == url) && forall a <- attempts :: a.q.url == url
  }

  lemma {:induction false} HistoryKeeps(sha: Bytes -> string, sure: bool, d: Disk, attempts: seq<Attempt>,
                                        server: Server, url: string)
    requires Honest(d, server) && (sure || OneAddress(d, attempts, url))
    ensures Honest(History(sha, sure, d, attempts, server), server)
    ensures !sure ==> OneAddress(History(sha, sure, d, attempts, server), [], url)
    decreases |attempts|
  {
    if |attempts| > 0 {
      var a := attempts[0];
      assert a in attempts;
      AttemptKeeps(sha, World(sure, d, a.script, 0, true, true), a.q, server, a.reply);
      HistoryKeeps(sha, sure, Try(sha, sure, d, a, server).world.disk, attempts[1..], server, url);
    }
  }

  /** After any history of failed, cancelled and interrupted attempts against one
      address, a download that succeeds is exactly the declared bytes of the
      archive behind it, with their digest: a resumed one equals a straight one. */
  lemma ResumedEqualsStraight(sha: Bytes -> string, sure: bool, d: Disk, attempts: seq<Attempt>, last: Attempt,
                              server: Server)
    requires Honest(d, server) && (sure || OneAddress(d, attempts + [last], last.q.url))
    ensures var o := Try(sha, sure, History(sha, sure, d, attempts, server), last, server);
      o.error == NoError ==> Complete(sha, last.q, server(last.q.url), o)
  {
    if !sure {
      forall a <- attempts ensures a.q.url == last.q.url { assert a in attempts + [last]; }
    }
    HistoryKeeps(sha, sure, d, attempts, server, last.q.url);
    var h := History(sha, sure, d, attempts, server);
    AttemptKeeps(sha, World(sure, h, last.script, 0, true, true), last.q, server, last.reply);
  }

  // ----- several archives -----

  ghost predicate NeverSpliced(sha: Bytes -> string, sure: bool) {
    forall server, d, attempts :: Honest(d, server) ==> Honest(History(sha, sure, d, attempts, server), server)
  }

  function TwoArchives(): Server { (url: string) => if url == "a" then [0, 0] else [1, 1] }

  /** The record of archive a cannot be removed, one byte of archive b arrives, and
      the process dies. */
  function Splice(): Attempt {
    Attempt(Request("b", true, "", 2, 0, false), Full(None),
            (i: nat) => Turn(if i == 0 then Refused else if i == 5 then Dies else Works,
                             if i == 2 then 1 else 0, More, false))
  }

  lemma SpliceHappens(sha: Bytes -> string)
    ensures var d := Disk(Some([0]), Some(Meta(META_SCHEMA, "a", "", 2, 1)));
      && Honest(d, TwoArchives())
      && !Honest(Try(sha, false, d, Splice(), TwoArchives()).world.disk, TwoArchives())
  {
    var d := Disk(Some([0]), Some(Meta(META_SCHEMA, "a", "", 2, 1)));
    var archiveA: Bytes := [0, 0];
    assert archiveA[..1] == [0];
    var a, q, body := Splice(), Splice().q, TwoArchives()("b");
    var ready := World(false, Disk(Some([]), d.meta), a.script, 2, true, true);
    assert Receive(sha, Prepare(World(false, d, a.script, 0, true, true), q), q, body, 0, false)
        == Pump(sha, ready, q, body, 0, [], false);
    var v := ready.(clock := 3);
    var one := World(false, Disk(Some([1]), d.meta), a.script, 4, true, true);
    var b: Bytes := [1];
    assert [] + b == b && b + [] == b && b[..0] == [];
    assert body[..1] == b && WriteChunk(v, b) == one;
    assert Pump(sha, ready, q, body, 0, [], false) == Pump(sha, one, q, body[1..], 1, [] + [1], false);
    assert body[1..][..1] == [1];
    var dead := WriteChunk(one.(clock := 5), b);
    assert dead.disk == one.disk;
    assert Pump(sha, one, q, body[1..], 1, [] + [1], false).world == dead;
  }

  /** Bytes of two archives are never joined exactly if the record of a partial
      download can always be removed. */
  lemma NeverSplicedExactlyWhenSure(sha: Bytes -> string, sure: bool)
    ensures NeverSpliced(sha, sure) <==> sure
  {
    if sure {
      forall server, d, attempts | Honest(d, server) ensures Honest(History(sha, sure, d, attempts, server), server) {
        HistoryKeeps(sha, sure, d, attempts, server, "");
      }
    } else {
      SpliceHappens(sha);
      var d := Disk(Some([0]), Some(Meta(META_SCHEMA, "a", "", 2, 1)));
      var after := Try(sha, false, d, Splice(), TwoArchives()).world.disk;
      assert History(sha, false, after, [], TwoArchives()) == after;
      assert [Splice()][1..] == [];
      assert !Honest(History(sha, false, d, [Splice()], TwoArchives()), TwoArchives());
    }
  }

  // ----- an undisturbed attempt -----

  ghost predicate Calm(w: World) {
    w.up && forall i: nat :: w.script(i).kind == Works && !w.script(i).cancel && w.script(i).ending == More
  }

  lemma {:induction false} CalmPump(sha: Bytes -> string, w: World, q: Request, body: Bytes, written: int,
                                    hashed: Bytes, resumed: bool, archive: Bytes)
    requires Calm(w) && Copying(w, q, body, written, hashed, archive)
    ensures Pump(sha, w, q, body, written, hashed, resumed).error == NoError <==> q.size <= |archive|
    decreases |body|
  {
    if q.size - written > 0 {
      var turn, v := w.script(w.clock), w.(clock := w.clock + 1);
      var n := Delivered(turn, body, if BUFFER > q.size - written then q.size - written else BUFFER);
      if n > 0 {
        WriteLeaves(v, q, body, written, hashed, n, archive);
        var a := WriteChunk(v, body[..n]);
        if body != [] { CalmPump(sha, a, q, body[n..], written + n, hashed + body[..n], resumed, archive); }
      } else {
        assert body == [];
      }
    }
  }

  /** An answer the launcher accepts: a whole file not announced as longer than
      declared, or the range that was asked for. */
  predicate Acceptable(d: Disk, q: Request, reply: Reply) {
    match reply
    case Full(length) => length.Some? ==> length.value <= q.size
    case Partial(header) => Existing(d, q) > 0 && RangeStart(header) == Some(Existing(d, q))
    case _ => false
  }

  /** An undisturbed attempt with an acceptable answer succeeds exactly when the
      archive has at least the declared bytes: too short an archive is a failure,
      while the end of one that is too long is cut off unless it was announced. */
  lemma CalmAttemptSucceedsExactly(sha: Bytes -> string, w: World, q: Request, server: Server, reply: Reply)
    requires Calm(w) && Honest(w.disk, server) && (w.sure || w.disk.meta.None? || w.disk.meta.value.url == q.url)
    requires q.secure && 0 < q.size <= (if q.maxBytes <= 0 then DEFAULT_MAX else q.maxBytes)
    requires Acceptable(w.disk, q, reply)
    ensures DownloadArchive(sha, w, q, server(q.url), reply).error == NoError <==> q.size <= |server(q.url)|
  {
    hide Pump;
    var existing, archive, a := Existing(w.disk, q), server(q.url), Prepare(w, q);
    assert Calm(a);
    assert archive[0..] == archive;
    var start := if reply.Full? then 0 else existing;
    var b := if start > 0 then Quiet(a) else a.(ok := true);
    var c := OpenPart(b, start);
    if existing > 0 { PrepareKeeps(w, q); }
    CalmPump(sha, c, q, archive[start..], start, archive[..start], reply.Partial?, archive);
  }

  // ----- before and after a cancellation -----

  /** What the request itself rules out, before anything is asked for or touched. */
  lemma RefusedExactlyWhen(sha: Bytes -> string, w: World, q: Request, archive: Bytes, reply: Reply)
    ensures var o := DownloadArchive(sha, w, q, archive, reply);
      var most := if q.maxBytes <= 0 then 8 * 1024 * 1024 * 1024 else q.maxBytes;
      && (o.error == Insecure <==> !q.secure) && (o.error == NoSize <==> q.secure && q.size <= 0)
      && (o.error == TooLarge <==> q.secure && q.size > 0 && q.size > most)
      && (o.error in {Insecure, NoSize, TooLarge} ==> o.world == w)
  {
    hide Pump, Prepare;
    if q.secure && 0 < q.size { TransferIsNoRefusal(sha, Prepare(w, q), q, archive, reply, Existing(w.disk, q)); }
  }

  lemma TransferIsNoRefusal(sha: Bytes -> string, w: World, q: Request, archive: Bytes, reply: Reply, existing: int)
    ensures Transfer(sha, w, q, archive, reply, existing).error in {NoError, Cancelled, Failed}
  {
    hide Pump;
    forall v, body, start, hashed, resumed
      ensures Pump(sha, v, q, body, start, hashed, resumed).error in {NoError, Cancelled, Failed}
    {
      PumpEnds(sha, v, q, body, start, hashed, resumed);
    }
  }

  lemma CloseEnds(sha: Bytes -> string, w: World, q: Request, written: int, hashed: Bytes, resumed: bool)
    ensures var o := Close(sha, w, q, written, hashed, resumed); o.error in {NoError, Failed} && o.resumed == resumed
  {}

  lemma {:induction false} PumpEnds(sha: Bytes -> string, w: World, q: Request, body: Bytes, written: int,
                                    hashed: Bytes, resumed: bool)
    ensures var o := Pump(sha, w, q, body, written, hashed, resumed);
      o.error in {NoError, Cancelled, Failed} && o.resumed == resumed
    decreases |body|
  {
    hide Close, Record, WriteChunk;
    CloseEnds(sha, w, q, written, hashed, resumed);
    if q.size - written > 0 && !w.script(w.clock).cancel {
      var v := w.(clock := w.clock + 1);
      var n := Delivered(w.script(w.clock), body, if BUFFER > q.size - written then q.size - written else BUFFER);
      CloseEnds(sha, v, q, written, hashed, resumed);
      if n > 0 {
        var a := WriteChunk(v, body[..n]);
        CloseEnds(sha, a, q, written + n, hashed + body[..n], resumed);
        PumpEnds(sha, a, q, body[n..], written + n, hashed + body[..n], resumed);
      }
    }
  }

  /** A partial file is continued exactly if a record of its very length vouches for
      it, made for the same address, size and, where one is asked for, digest, and
      more is to come. */
  lemma ContinuedExactlyWhen(d: Disk, q: Request)
    ensures Existing(d, q) > 0 <==>
      && !q.noResume && d.part.Some? && d.meta.Some? && 0 < |d.part.value| < q.size
      && d.meta.value == Meta("kobra.update-download/1", q.url, d.meta.value.hash, q.size, |d.part.value|)
      && (q.hash == "" || d.meta.value.hash == q.hash)
    ensures Existing(d, q) > 0 ==> Existing(d, q) == |d.part.value|
  {}

  /** What was broken off, with everything up to there recorded, says how far it got. */
  ghost predicate Recorded(o: Outcome, q: Request) {
    o.error != NoError && o.world.up && o.world.ok && o.written > 0 ==>
      && o.world.disk.part.Some? && |o.world.disk.part.value| == o.written && o.world.disk.meta.Some?
      && var m := o.world.disk.meta.value;
         m == Meta(META_SCHEMA, q.url, m.hash, q.size, o.written) && (q.hash == "" || m.hash == q.hash)
  }

  lemma StopRecords(w: World, q: Request, body: Bytes, written: int, hashed: Bytes, resumed: bool, archive: Bytes,
                    error: Error)
    requires Copying(w, q, body, written, hashed, archive)
    ensures Recorded(Stop(Record(w, q, written), written, resumed, error), q)
  {}

  lemma FailedIsNoRecord(w: World, q: Request, written: int, resumed: bool)
    requires !w.ok
    ensures Recorded(Stop(w, written, resumed, Failed), q)
  {}

  lemma CloseRecords(sha: Bytes -> string, w: World, q: Request, body: Bytes, written: int, hashed: Bytes,
                     resumed: bool, archive: Bytes)
    requires Copying(w, q, body, written, hashed, archive)
    ensures Recorded(Close(sha, w, q, written, hashed, resumed), q)
  {}

  lemma {:induction false} PumpRecords(sha: Bytes -> string, w: World, q: Request, body: Bytes, written: int,
                                       hashed: Bytes, resumed: bool, archive: Bytes)
    requires Copying(w, q, body, written, hashed, archive)
    ensures Recorded(Pump(sha, w, q, body, written, hashed, resumed), q)
    decreases |body|, 1
  {
    hide Close, Record, WriteChunk, Recorded, Copying;
    StopRecords(w, q, body, written, hashed, resumed, archive, Cancelled);
    CloseRecords(sha, w, q, body, written, hashed, resumed, archive);
    if q.size - written > 0 && !w.script(w.clock).cancel {
      var turn, v := w.script(w.clock), w.(clock := w.clock + 1);
      var n := Delivered(turn, body, if BUFFER > q.size - written then q.size - written else BUFFER);
      LaterCopying(w, q, body, written, hashed, archive);
      if n == 0 {
        EndRecords(sha, v, q, body, written, hashed, resumed, EndingOf(turn, body), archive);
      } else {
        WriteLeaves(v, q, body, written, hashed, n, archive);
        var a := WriteChunk(v, body[..n]);
        if !a.ok { FailedIsNoRecord(a, q, written, resumed); }
        if a.ok {
          EndRecords(sha, a, q, body[n..], written + n, hashed + body[..n], resumed, EndingOf(turn, body), archive);
          if EndingOf(turn, body).More? {
            PumpRecords(sha, a, q, body[n..], written + n, hashed + body[..n], resumed, archive);
          }
        }
      }
    }
  }

  lemma LaterCopying(w: World, q: Request, body: Bytes, written: int, hashed: Bytes, archive: Bytes)
    requires Copying(w, q, body, written, hashed, archive)
    ensures Copying(w.(clock := w.clock + 1), q, body, written, hashed, archive)
    ensures written <= q.size && |body| == |archive| - written && written >= 0
  {}

  /** The end of the body, or a broken one. */
  lemma EndRecords(sha: Bytes -> string, w: World, q: Request, body: Bytes, written: int, hashed: Bytes, resumed: bool,
                   ending: Ending, archive: Bytes)
    requires Copying(w, q, body, written, hashed, archive)
    ensures !ending.More? ==> Recorded(After(sha, w, q, body, written, hashed, resumed, ending), q)
  {
    hide Close, Record, Recorded, Copying;
    CloseRecords(sha, w, q, body, written, hashed, resumed, archive);
    StopRecords(w, q, body, written, hashed, resumed, archive, Cancelled);
    StopRecords(w, q, body, written, hashed, resumed, archive, Failed);
  }

  lemma ReceiveRecords(sha: Bytes -> string, w: World, q: Request, start: int, resumed: bool, archive: Bytes)
    requires 0 <= start <= |archive| && start <= q.size && q.size > 0
    requires start > 0 ==> w.disk.part == Some(archive[..start])
    ensures Recorded(Receive(sha, w, q, archive[start..], start, resumed), q)
  {
    hide Pump;
    var a := if start > 0 then Quiet(w) else w.(ok := true);
    if a.ok {
      var b := OpenPart(a, start);
      if b.ok {
        var hashed := if start > 0 && b.disk.part.Some? then b.disk.part.value else [];
        PumpRecords(sha, b, q, archive[start..], start, hashed, resumed, archive);
      }
    }
  }

  lemma TransferRecords(sha: Bytes -> string, w: World, q: Request, reply: Reply, existing: int, archive: Bytes)
    requires 0 <= existing <= |archive| && existing < q.size && (existing > 0 ==> existing == Existing(w.disk, q))
    requires existing > 0 ==> w.disk.part == Some(archive[..existing])
    ensures Recorded(Transfer(sha, w, q, archive, reply, existing), q)
  {
    hide Receive, RangeStart;
    assert archive[0..] == archive;
    match reply
    case Full(_) => ReceiveRecords(sha, w, q, 0, false, archive);
    case Partial(_) => ReceiveRecords(sha, w, q, existing, true, archive);
    case _ =>
  }

  /** A download broken off, by the player, the server or the network, is continued
      where it stopped, if its last call was not refused: the next attempt of the same
      request asks for the rest, and given the rest by a server with the whole archive
      and left alone it completes it. */
  lemma BrokenOffIsContinued(sha: Bytes -> string, w: World, q: Request, server: Server, reply: Reply, v: World)
    requires w.up && Honest(w.disk, server) && (w.sure || w.disk.meta.None? || w.disk.meta.value.url == q.url)
    requires !q.noResume && q.size <= |server(q.url)| && Numerals.Fits(q.size)
    requires var o := DownloadArchive(sha, w, q, server(q.url), reply);
      o.error in {Cancelled, Failed} && o.world.up && o.world.ok && 0 < o.written < q.size && v.disk == o.world.disk
    requires Calm(v)
    ensures var k, total := DownloadArchive(sha, w, q, server(q.url), reply).written, |server(q.url)|;
      var rest := Partial("bytes " + (Decimal(k) + "-" + Decimal(total - 1) + "/" + Decimal(total)));
      var o := DownloadArchive(sha, v, q, server(q.url), rest);
      && Existing(v.disk, q) == k && o.error == NoError && o.resumed && Complete(sha, q, server(q.url), o)
  {
    hide Transfer, RangeStart, Pump, Decimal;
    var existing, a, o := Existing(w.disk, q), Prepare(w, q), DownloadArchive(sha, w, q, server(q.url), reply);
    var k, total := o.written, |server(q.url)|;
    RefusedExactlyWhen(sha, w, q, server(q.url), reply);
    if existing == 0 { PrepareLeaves(w, q); } else { PrepareKeeps(w, q); }
    if !a.up { DeadTransfer(sha, a, q, server(q.url), reply, existing); }
    TransferRecords(sha, a, q, reply, existing, server(q.url));
    AttemptKeeps(sha, w, q, server, reply);
    var rest := Partial("bytes " + (Decimal(k) + "-" + Decimal(total - 1) + "/" + Decimal(total)));
    StandardRangeIsRead(k, total - 1, total);
    CalmAttemptSucceedsExactly(sha, v, q, server, rest);
    AttemptKeeps(sha, v, q, server, rest);
    PartialResumes(sha, v, q, server(q.url), rest);
  }

  lemma PartialResumes(sha: Bytes -> string, w: World, q: Request, archive: Bytes, reply: Reply)
    requires reply.Partial? && DownloadArchive(sha, w, q, archive, reply).error == NoError
    ensures DownloadArchive(sha, w, q, archive, reply).resumed
  {
    hide Pump, Prepare, RangeStart;
    forall v, body, start, hashed, resumed ensures Pump(sha, v, q, body, start, hashed, resumed).resumed == resumed {
      PumpEnds(sha, v, q, body, start, hashed, resumed);
    }
  }

  // ----- what is not continued -----

  /** An answer that announces more than declared, that is for another place than the
      one asked for, or that was not asked for, is refused before a byte is written. */
  lemma WrongAnswerIsRefused(sha: Bytes -> string, w: World, q: Request, archive: Bytes, reply: Reply)
    requires q.secure && 0 < q.size <= (if q.maxBytes <= 0 then DEFAULT_MAX else q.maxBytes)
    requires match reply
      case Full(length) => length.Some? && length.value > q.size
      case Partial(header) => Existing(w.disk, q) == 0 || RangeStart(header) != Some(Existing(w.disk, q))
      case Status(_) => true
      case NoReply => true
    ensures var o := DownloadArchive(sha, w, q, archive, reply);
      o.world == Prepare(w, q) && o.error in {Failed, Cancelled} && (o.error == Cancelled ==> reply.NoReply?)
  {
    hide Receive, RangeStart, Prepare;
  }

  /** Undisturbed, what is not continued is cleared away before anything is asked for:
      its record always, and the bytes where the record still fits the request or the
      caller wants none of it. */
  lemma NotContinuedIsCleared(w: World, q: Request)
    requires Calm(w)
    ensures var d := Prepare(w, q).disk;
      if Existing(w.disk, q) > 0 then d == w.disk
      else d.meta.None? && d.part == if q.noResume || (w.disk.meta.Some? && Matches(w.disk.meta.value, q))
                                     then None else w.disk.part
  {}

  /** Bytes that cannot be read back are dropped, so the next attempt starts over. */
  lemma UnreadableIsDropped(sha: Bytes -> string, w: World, q: Request, body: Bytes, start: int)
    requires w.up && start > 0 && w.script(w.clock).kind == Refused && w.script(w.clock + 1).kind == Works
    ensures var o := Receive(sha, w, q, body, start, true); o.error == Failed && o.world.disk.part.None?
    ensures Existing(Receive(sha, w, q, body, start, true).world.disk, q) == 0
  {
    hide Pump;
  }

  /** A read that breaks off is the player's doing exactly if the player has asked. */
  lemma BrokenReadSaysWhy(sha: Bytes -> string, w: World, q: Request, body: Bytes, written: int, hashed: Bytes,
                          resumed: bool)
    ensures var o := After(sha, w, q, body, written, hashed, resumed, Broken);
      o.error == if w.script(w.clock).cancel then Cancelled else Failed
  {}

  // ----- after a success -----

  /** A finished download is never continued: the next attempt of the same size
      starts over, although the record is kept for it. */
  lemma CompleteIsNotResumed(sha: Bytes -> string, w: World, q: Request, archive: Bytes, o: Outcome, next: Request)
    requires Complete(sha, q, archive, o) && next.size == q.size
    ensures Existing(o.world.disk, next) == 0
  {}

  /** The record of an undisturbed success says that it is complete. */
  lemma SuccessIsRecorded(sha: Bytes -> string, w: World, q: Request, written: int, hashed: Bytes, resumed: bool)
    requires Calm(w) && written > 0
    ensures var o := Close(sha, w, q, written, hashed, resumed);
      && o.world.disk == w.disk.(meta := Some(Meta("kobra.update-download/1", q.url, q.hash, q.size, written)))
      && (o.error == NoError <==> written >= q.size)
  {}

  // ----- Content-Range -----

  lemma DigitsOnly(n: nat)
    ensures forall c <- Decimal(n) :: '0' <= c <= '9'
  {}

  /** A Content-Range of RFC 9110, section 14.4, is read as its first position. */
  lemma StandardRangeIsRead(first: nat, last: nat, total: nat)
    requires Numerals.Fits(first)
    ensures RangeStart("bytes " + (Decimal(first) + "-" + Decimal(last) + "/" + Decimal(total))) == Some(first)
  {
    var f, l, t := Decimal(first), Decimal(last), Decimal(total);
    var spec := f + "-" + l + "/" + t;
    var header := "bytes " + spec;
    assert TrimPrefix(header, "bytes ") == spec by { assert header[|"bytes "|..] == spec; }
    DigitsOnly(first);
    DigitsOnly(last);
    var span := f + "-" + l;
    assert '/' !in span && spec == span + ['/'] + t;
    T.IndexOf(span, '/', t);
    assert spec[..|span|] == span;
    assert '-' !in f && span == f + ['-'] + l;
    T.IndexOf(f, '-', l);
    assert span[..|f|] == f;
    TrimmedDigits(f);
    IntTextReads(first);
  }

  lemma TrimmedDigits(s: string)
    requires s != "" && T.AllDigits(s)
    ensures T.TrimSpace(s) == s
  {
    assert T.IsDigit(s[0]) && T.IsDigit(s[|s| - 1]);
  }

  /** The unsatisfied range of the same section is refused. */
  lemma UnsatisfiedRangeIsRefused(total: nat)
    ensures RangeStart("bytes " + ("*/" + Decimal(total))) == None
  {
    var spec := "*/" + Decimal(total);
    var header := "bytes " + spec;
    assert TrimPrefix(header, "bytes ") == spec by { assert header[|"bytes "|..] == spec; }
    assert spec == "*" + ['/'] + Decimal(total);
    T.IndexOf("*", '/', Decimal(total));
    assert spec[..1] == "*";
    assert T.Index("*", '-') == 1 by { assert "*"[1..] == ""; }
  }
}
