/** No partial download is ever continued with bytes of another archive. */
module DownloadProofs {
  import opened Basics
  import opened DownloadSpec
  import T = Text

  predicate IsPrefix(p: Bytes, archive: Bytes) { |p| <= |archive| && p == archive[..|p|] }

  /** Which archive a server holds under each address. */
  type Server = string -> Bytes

  /** A partial file its record vouches for is a prefix of the recorded archive. */
  ghost predicate Honest(d: Disk, server: Server) {
    && d.meta.Some? && d.part.Some? && d.meta.value.schema == META_SCHEMA && 0 < d.meta.value.written
    && |d.part.value| == d.meta.value.written
    ==> IsPrefix(d.part.value, server(d.meta.value.url))
  }

  /** The copy loop between two iterations. */
  ghost predicate Copying(w: World, q: Request, body: Bytes, written: int, hashed: Bytes, archive: Bytes) {
    && 0 <= written <= |archive| && written <= q.size && q.size > 0
    && hashed == archive[..written] && body == archive[written..] && w.disk.part == Some(hashed)
  }

  /** What the transfer leaves once the file is open. */
  ghost predicate Received(sha: Bytes -> string, w: World, q: Request, archive: Bytes, o: Outcome) {
    var d := o.world.disk;
    && d.part.Some? && IsPrefix(d.part.value, archive) && |d.part.value| <= q.size
    && (d.meta == w.disk.meta || (d.meta.Some? && d.meta.value.url == q.url))
    && (o.error == NoError ==> Complete(sha, q, archive, o))
  }

  /** Exactly the declared bytes of the archive, and their digest, with the process
      alive. */
  ghost predicate Complete(sha: Bytes -> string, q: Request, archive: Bytes, o: Outcome) {
    && o.world.up && 0 < q.size <= |archive| && o.written == q.size
    && o.world.disk.part == Some(archive[..q.size]) && o.sum == sha(archive[..q.size])
  }

  lemma ChunkExtends(archive: Bytes, written: int, n: int)
    requires 0 <= written <= written + n <= |archive| && 0 <= n
    ensures archive[..written] + archive[written..][..n] == archive[..written + n]
    ensures archive[written..][n..] == archive[written + n..]
  {}

  lemma WriteLeaves(w: World, q: Request, body: Bytes, written: int, hashed: Bytes, n: int, archive: Bytes)
    requires Copying(w, q, body, written, hashed, archive) && 0 < n <= |body| && written + n <= q.size
    ensures var a := WriteChunk(w, body[..n]);
      && a.disk.part.Some? && IsPrefix(a.disk.part.value, archive) && |a.disk.part.value| <= q.size
      && a.disk.meta == w.disk.meta
      && (a.ok ==> Copying(a, q, body[n..], written + n, hashed + body[..n], archive))
  {
    ChunkExtends(archive, written, n);
    var cut := w.script(w.clock).amount;
    if cut < n { ChunkExtends(archive, written, cut); assert body[..n][..cut] == body[..cut]; }
  }

  lemma CloseLeaves(sha: Bytes -> string, w: World, q: Request, body: Bytes, written: int, hashed: Bytes, resumed: bool,
                    archive: Bytes)
    requires Copying(w, q, body, written, hashed, archive)
    ensures Received(sha, w, q, archive, Close(sha, w, q, written, hashed, resumed))
  {}

  lemma StopLeaves(sha: Bytes -> string, w: World, q: Request, body: Bytes, written: int, hashed: Bytes, resumed: bool,
                   archive: Bytes, error: Error)
    requires Copying(w, q, body, written, hashed, archive) && error != NoError
    ensures Received(sha, w, q, archive, Stop(Record(w, q, written), written, resumed, error))
  {}

  lemma FailedWrite(sha: Bytes -> string, w: World, a: World, q: Request, archive: Bytes, written: int, resumed: bool)
    requires a.disk.part.Some? && IsPrefix(a.disk.part.value, archive) && |a.disk.part.value| <= q.size
      && a.disk.meta == w.disk.meta
    ensures Received(sha, w, q, archive, Stop(a, written, resumed, Failed))
  {}

  /** Earlier steps that leave the record alone do not change what may follow. */
  lemma ReceivedFrom(sha: Bytes -> string, w: World, v: World, q: Request, archive: Bytes, o: Outcome)
    requires v.disk.meta == w.disk.meta && Received(sha, v, q, archive, o)
    ensures Received(sha, w, q, archive, o)
  {}

  lemma {:induction false} PumpLeaves(sha: Bytes -> string, w: World, q: Request, body: Bytes, written: int,
                                      hashed: Bytes, resumed: bool, archive: Bytes)
    requires Copying(w, q, body, written, hashed, archive)
    ensures Received(sha, w, q, archive, Pump(sha, w, q, body, written, hashed, resumed))
    decreases |body|, 1
  {
    hide Close, WriteChunk, Received, Record;
    if q.size - written > 0 && w.script(w.clock).cancel {
      StopLeaves(sha, w, q, body, written, hashed, resumed, archive, Cancelled);
    }
    if q.size - written <= 0 {
      CloseLeaves(sha, w, q, body, written, hashed, resumed, archive);
    } else if !w.script(w.clock).cancel {
      var turn, v := w.script(w.clock), w.(clock := w.clock + 1);
      var n := Delivered(turn, body, if BUFFER > q.size - written then q.size - written else BUFFER);
      if n == 0 {
        AfterLeaves(sha, v, q, body, written, hashed, resumed, EndingOf(turn, body), archive);
        ReceivedFrom(sha, w, v, q, archive, Pump(sha, w, q, body, written, hashed, resumed));
      } else {
        WriteLeaves(v, q, body, written, hashed, n, archive);
        var a := WriteChunk(v, body[..n]);
        if !a.ok { FailedWrite(sha, w, a, q, archive, written, resumed); }
        if a.ok {
          AfterLeaves(sha, a, q, body[n..], written + n, hashed + body[..n], resumed, EndingOf(turn, body), archive);
          ReceivedFrom(sha, w, a, q, archive, Pump(sha, w, q, body, written, hashed, resumed));
        }
      }
    }
  }

  lemma {:induction false} AfterLeaves(sha: Bytes -> string, w: World, q: Request, body: Bytes, written: int,
                                       hashed: Bytes, resumed: bool, ending: Ending, archive: Bytes)
    requires Copying(w, q, body, written, hashed, archive)
    ensures Received(sha, w, q, archive, After(sha, w, q, body, written, hashed, resumed, ending))
    decreases |body|, if ending.More? then 2 else 0
  {
    hide Close;
    match ending
    case Broken =>
    case Eof => CloseLeaves(sha, w, q, body, written, hashed, resumed, archive);
    case More => PumpLeaves(sha, w, q, body, written, hashed, resumed, archive);
  }

  /** What one attempt can do to the files. */
  ghost predicate Attempted(sha: Bytes -> string, w: World, q: Request, archive: Bytes, o: Outcome) {
    var d, d' := w.disk, o.world.disk;
    && (d'.part == d.part || d'.part == None || (IsPrefix(d'.part.value, archive) && |d'.part.value| <= q.size))
    && (d'.meta == d.meta || d'.meta == None
         || (d'.meta.value.url == q.url && d'.part.Some? && IsPrefix(d'.part.value, archive)))
    && (o.error == NoError ==> Complete(sha, q, archive, o))
  }

  lemma ReceiveLeaves(sha: Bytes -> string, w: World, q: Request, start: int, resumed: bool, archive: Bytes)
    requires 0 <= start <= |archive| && start <= q.size && q.size > 0
    requires start > 0 ==> w.disk.part == Some(archive[..start])
    ensures Attempted(sha, w, q, archive, Receive(sha, w, q, archive[start..], start, resumed))
  {
    hide Pump;
    var a := if start > 0 then Quiet(w) else w.(ok := true);
    if a.ok {
      var b := OpenPart(a, start);
      if b.ok {
        var hashed := if start > 0 && b.disk.part.Some? then b.disk.part.value else [];
        PumpLeaves(sha, b, q, archive[start..], start, hashed, resumed, archive);
      }
    }
  }

  lemma TransferLeaves(sha: Bytes -> string, w: World, q: Request, reply: Reply, existing: int, archive: Bytes)
    requires 0 <= existing <= |archive| && existing < q.size
    requires existing > 0 ==> w.disk.part == Some(archive[..existing])
    ensures Attempted(sha, w, q, archive, Transfer(sha, w, q, archive, reply, existing))
  {
    hide Receive;
    assert archive[0..] == archive;
    if w.up {
      match reply
      case Full(_) => ReceiveLeaves(sha, w, q, 0, false, archive);
      case Partial(_) => ReceiveLeaves(sha, w, q, existing, true, archive);
      case _ =>
    }
  }

  lemma PrepareLeaves(w: World, q: Request)
    requires w.up && Existing(w.disk, q) == 0
    ensures var a := Prepare(w, q);
      && (a.disk.part == w.disk.part || a.disk.part == None) && (a.disk.meta == w.disk.meta || a.disk.meta == None)
      && (w.sure && a.up ==> a.disk.meta == None)
  {}

  /** One attempt, answered in any way and stopped anywhere: what it leaves is
      honest, and success means exactly the declared bytes of the archive. */
  lemma AttemptKeeps(sha: Bytes -> string, w: World, q: Request, server: Server, reply: Reply)
    requires w.up && Honest(w.disk, server)
    requires w.sure || w.disk.meta.None? || w.disk.meta.value.url == q.url
    ensures var o := DownloadArchive(sha, w, q, server(q.url), reply);
      && Honest(o.world.disk, server)
      && (o.error == NoError ==> Complete(sha, q, server(q.url), o))
      && (o.world.disk.part == w.disk.part || o.world.disk.part == None || |o.world.disk.part.value| <= q.size)
      && (o.world.disk.meta == w.disk.meta || o.world.disk.meta == None || o.world.disk.meta.value.url == q.url)
  {
    hide Transfer, Prepare;
    var existing, a := Existing(w.disk, q), Prepare(w, q);
    if q.secure && 0 < q.size <= (if q.maxBytes <= 0 then DEFAULT_MAX else q.maxBytes) {
      if existing == 0 { PrepareLeaves(w, q); } else { PrepareKeeps(w, q); }
      TransferLeaves(sha, a, q, reply, existing, server(q.url));
      if !a.up { DeadTransfer(sha, a, q, server(q.url), reply, existing); }
    }
  }

  lemma PrepareKeeps(w: World, q: Request)
    requires Existing(w.disk, q) > 0
    ensures Prepare(w, q) == w
  {}

  lemma DeadTransfer(sha: Bytes -> string, w: World, q: Request, archive: Bytes, reply: Reply, existing: int)
    requires !w.up
    ensures Transfer(sha, w, q, archive, reply, existing).world == w
      && Transfer(sha, w, q, archive, reply, existing).error == Failed
  {}
}
