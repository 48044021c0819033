/** The download as it runs, proved call by call against DownloadSpec. */
module Downloader {
  import opened Basics
  import opened DownloadSpec
  import DS = DownloadSpec

  class Download {
    const sha: Bytes -> string
    const sure: bool
    const script: nat -> Turn
    var part: Option<Bytes>
    var meta: Option<Meta>
    var clock: nat
    var up: bool
    var ok: bool

    function State(): World
      reads this
    {
      World(sure, Disk(part, meta), script, clock, up, ok)
    }

    constructor (sha: Bytes -> string, sure: bool, d: Disk, script: nat -> Turn)
      ensures this.sha == sha && State() == World(sure, d, script, 0, true, true)
    {
      this.sha, this.sure, this.script := sha, sure, script;
      part, meta, clock, up, ok := d.part, d.meta, 0, true, true;
    }

    /** The file system performs a call whose outcome is `w`. */
    method Do(w: World)
      requires w.sure == sure && w.script == script
      modifies this
      ensures State() == w
    {
      part, meta, clock, up, ok := w.disk.part, w.disk.meta, w.clock, w.up, w.ok;
    }

    method RecordPartial(q: Request, written: int)
      modifies this
      ensures State() == Record(old(State()), q, written)
    {
      if written > 0 { Do(Record(State(), q, written)); }
    }

    method DownloadArchive(q: Request, archive: Bytes, reply: Reply)
      returns (written: int, sum: string, resumed: bool, error: Error)
      modifies this
      ensures Outcome(State(), written, sum, resumed, error) == DS.DownloadArchive(sha, old(State()), q, archive, reply)
    {
      if !q.secure { return 0, "", false, Insecure; }
      if q.size <= 0 { return 0, "", false, NoSize; }
      var maxBytes := if q.maxBytes <= 0 then DEFAULT_MAX else q.maxBytes;
      if q.size > maxBytes { return 0, "", false, TooLarge; }
      var existing := 0;
      if q.noResume {
        Do(RemovePart(State()));
      } else if meta.Some? && Matches(meta.value, q) {
        if part.Some? && |part.value| == meta.value.written {
          existing := meta.value.written;
        } else {
          Do(RemovePart(State()));
        }
      }
      if existing == 0 { Do(RemoveMeta(State())); }
      written, sum, resumed, error := Transfer(q, archive, reply, existing);
    }

    method Transfer(q: Request, archive: Bytes, reply: Reply, existing: int)
      returns (written: int, sum: string, resumed: bool, error: Error)
      modifies this
      ensures Outcome(State(), written, sum, resumed, error)
        == DS.Transfer(sha, old(State()), q, archive, reply, existing)
    {
      if !up { return existing, "", false, Failed; }
      match reply
      case NoReply => return existing, "", false, if script(clock).cancel then Cancelled else Failed;
      case Status(_) => return existing, "", false, Failed;
      case Full(length) =>
        if length.Some? && length.value > 0 && length.value > q.size { return existing, "", false, Failed; }
        written, sum, resumed, error := Receive(q, archive, 0, false);
      case Partial(header) =>
        if existing == 0 { return 0, "", false, Failed; }
        if RangeStart(header) != Some(existing) { return existing, "", false, Failed; }
        written, sum, resumed, error := Receive(q, From(archive, existing), existing, true);
    }

    method Receive(q: Request, body: Bytes, start: int, continued: bool)
      returns (written: int, sum: string, resumed: bool, error: Error)
      modifies this
      ensures Outcome(State(), written, sum, resumed, error) == DS.Receive(sha, old(State()), q, body, start, continued)
    {
      hide Pump;
      ok := true;
      if start > 0 {
        Do(Quiet(State()));
        if !ok {
          Do(RemovePart(State()));
          return 0, "", false, Failed;
        }
      }
      Do(OpenPart(State(), start));
      if !ok { return start, "", false, Failed; }
      var hashed := if start > 0 && part.Some? then part.value else [];
      written, sum, resumed, error := CopyBody(q, body, start, hashed, continued);
    }

    /** The read and write loop: never past the declared size, and the request to
        cancel looked at before every read. */
    method CopyBody(q: Request, body: Bytes, start: int, preamble: Bytes, continued: bool)
      returns (written: int, sum: string, resumed: bool, error: Error)
      modifies this
      ensures Outcome(State(), written, sum, resumed, error)
           == Pump(sha, old(State()), q, body, start, preamble, continued)
    {
      hide Close, EndingOf, Delivered, WriteChunk, Record;
      ghost var goal := Pump(sha, State(), q, body, start, preamble, continued);
      written, sum, resumed := start, "", continued;
      var rest, hashed := body, preamble;
      while q.size - written > 0
        invariant goal == Pump(sha, State(), q, rest, written, hashed, continued)
        decreases |rest|
      {
        var remaining := q.size - written;
        var turn := script(clock);
        if turn.cancel {
          RecordPartial(q, written);
          return written, "", continued, Cancelled;
        }
        var n := Delivered(turn, rest, if BUFFER > remaining then remaining else BUFFER);
        var ending := EndingOf(turn, rest);
        ReadsOrEnds(turn, rest, if BUFFER > remaining then remaining else BUFFER);
        clock := clock + 1;
        if n > 0 {
          KeepsScript(State(), rest[..n]);
          Do(WriteChunk(State(), rest[..n]));
          if !ok { return written, "", continued, Failed; }
          hashed := hashed + rest[..n];
          written := written + n;
          rest := rest[n..];
        }
        if ending.Broken? {
          var wanted := script(clock).cancel;
          RecordPartial(q, written);
          return written, "", continued, if wanted then Cancelled else Failed;
        }
        if ending.Eof? { break; }
      }
      written, sum, resumed, error := Finish(q, written, hashed, continued);
    }

    static lemma ReadsOrEnds(turn: Turn, body: Bytes, room: int)
      requires room > 0
      ensures Delivered(turn, body, room) > 0 || !EndingOf(turn, body).More?
    {}

    static lemma KeepsScript(w: World, chunk: Bytes)
      ensures var a := WriteChunk(w, chunk); a.script == w.script && a.sure == w.sure
    {}

    method Finish(q: Request, count: int, hashed: Bytes, continued: bool)
      returns (written: int, sum: string, resumed: bool, error: Error)
      modifies this
      ensures Outcome(State(), written, sum, resumed, error) == Close(sha, old(State()), q, count, hashed, continued)
    {
      Do(Quiet(State()));
      if ok { Do(Quiet(State())); }
      if !ok { return count, "", continued, Failed; }
      RecordPartial(q, count);
      return count, sha(hashed), continued, if up && count >= q.size then NoError else Failed;
    }
  }
}
