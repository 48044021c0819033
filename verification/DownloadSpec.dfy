/** The resumable archive download, as functions from one state to the next. The
    server holds one archive; how it answers, and what every read, write and
    removal meets, is up to an adversary. `sha` is the hex SHA-256 digest. */
module DownloadSpec {
  import opened Basics
  import T = Text

  type Bytes = seq<bv8>

  const META_SCHEMA := "kobra.update-download/1"
  const DEFAULT_MAX: int := 8 * 0x4000_0000
  const BUFFER: int := 0x4_0000

  datatype Meta = Meta(schema: string, url: string, hash: string, size: int, written: int)

  datatype Disk = Disk(part: Option<Bytes>, meta: Option<Meta>)

  datatype Kind = Works | Refused | Dies

  /** How a read ends: with more to come, at the end of the body, or broken. */
  datatype Ending = More | Eof | Broken

  /** What one call meets. `amount`: the bytes a read delivers or a stopped write
      leaves; `cancel`: whether the player has asked to cancel. */
  datatype Turn = Turn(kind: Kind, amount: nat, ending: Ending, cancel: bool)

  /** `sure`: removing the record of a partial download is never refused. */
  datatype World = World(sure: bool, disk: Disk, script: nat -> Turn, clock: nat, up: bool, ok: bool)

  datatype Request = Request(url: string, secure: bool, hash: string, size: int, maxBytes: int, noResume: bool)

  /** A 200 answer with its announced length, a 206 answer with its Content-Range,
      any other status, or no answer. */
  datatype Reply = Full(length: Option<int>) | Partial(contentRange: string) | Status(code: int) | NoReply

  datatype Error = NoError | Insecure | NoSize | TooLarge | Cancelled | Failed

  datatype Outcome = Outcome(world: World, written: int, sum: string, resumed: bool, error: Error)

  // ----- calls -----

  function Call(w: World, whole: Disk, partial: Disk): World {
    if !w.up then w.(ok := false)
    else match w.script(w.clock).kind
      case Works => w.(disk := whole, clock := w.clock + 1, ok := true)
      case Refused => w.(disk := partial, clock := w.clock + 1, ok := false)
      case Dies => w.(disk := partial, up := false, ok := false)
  }

  function Quiet(w: World): World { Call(w, w.disk, w.disk) }

  function RemovePart(w: World): World { Call(w, w.disk.(part := None), w.disk) }

  function RemoveMeta(w: World): World {
    var gone := w.disk.(meta := None);
    Call(w, gone, if w.sure && w.script(w.clock).kind == Refused then gone else w.disk)
  }

  function Append(d: Disk, chunk: Bytes): Disk {
    d.(part := Some((if d.part.Some? then d.part.value else []) + chunk))
  }

  function WriteChunk(w: World, chunk: Bytes): World {
    var cut := w.script(w.clock).amount;
    Call(w, Append(w.disk, chunk), Append(w.disk, if cut < |chunk| then chunk[..cut] else chunk))
  }

  function OpenPart(w: World, start: int): World {
    if start > 0 then Quiet(w) else Call(w, w.disk.(part := Some([])), w.disk)
  }

  function Record(w: World, q: Request, written: int): World {
    if written <= 0 then w
    else Call(w, w.disk.(meta := Some(Meta(META_SCHEMA, q.url, q.hash, q.size, written))), w.disk)
  }

  // ----- what may be resumed -----

  /** downloadMeta.matches. */
  predicate Matches(m: Meta, q: Request) {
    && m.schema == META_SCHEMA && m.url == q.url && m.size == q.size && (q.hash != "" ==> m.hash == q.hash)
    && 0 < m.written < q.size
  }

  predicate Fits(d: Disk, q: Request) {
    d.meta.Some? && Matches(d.meta.value, q) && d.part.Some? && |d.part.value| == d.meta.value.written
  }

  /** The length of the partial file to continue, 0 to start over. */
  function Existing(d: Disk, q: Request): int {
    if !q.noResume && Fits(d, q) then d.meta.value.written else 0
  }

  /** Before the request: drop what will not be continued. */
  function Prepare(w: World, q: Request): World {
    if Existing(w.disk, q) > 0 then w
    else
      var stale := q.noResume || (w.disk.meta.Some? && Matches(w.disk.meta.value, q));
      RemoveMeta(if stale then RemovePart(w) else w)
  }

  // ----- Content-Range -----

  function TrimPrefix(s: string, prefix: string): string {
    if prefix <= s then s[|prefix|..] else s
  }

  /** The first position validateContentRange reads from the header. */
  function RangeStart(header: string): Option<int> {
    var spec := TrimPrefix(header, "bytes ");
    var slash := T.Index(spec, '/');
    if header == "" || slash == |spec| then None
    else
      var span := spec[..slash];
      var dash := T.Index(span, '-');
      if dash == |span| then None else T.Atoi(T.TrimSpace(span[..dash]))
  }

  // ----- the transfer -----

  function From(archive: Bytes, start: int): Bytes {
    if 0 <= start <= |archive| then archive[start..] else []
  }

  function DownloadArchive(sha: Bytes -> string, w: World, q: Request, archive: Bytes, reply: Reply): Outcome {
    var most := if q.maxBytes <= 0 then DEFAULT_MAX else q.maxBytes;
    if !q.secure then Outcome(w, 0, "", false, Insecure)
    else if q.size <= 0 then Outcome(w, 0, "", false, NoSize)
    else if q.size > most then Outcome(w, 0, "", false, TooLarge)
    else Transfer(sha, Prepare(w, q), q, archive, reply, Existing(w.disk, q))
  }

  function Stop(w: World, written: int, resumed: bool, error: Error): Outcome {
    Outcome(w, written, "", resumed, error)
  }

  function Transfer(sha: Bytes -> string, w: World, q: Request, archive: Bytes, reply: Reply, existing: int): Outcome {
    if !w.up then Stop(w, existing, false, Failed)
    else match reply
      case NoReply => Stop(w, existing, false, if w.script(w.clock).cancel then Cancelled else Failed)
      case Status(_) => Stop(w, existing, false, Failed)
      case Full(length) =>
        if length.Some? && length.value > 0 && length.value > q.size then Stop(w, existing, false, Failed)
        else Receive(sha, w, q, archive, 0, false)
      case Partial(header) =>
        if existing == 0 then Stop(w, 0, false, Failed)
        else if RangeStart(header) != Some(existing) then Stop(w, existing, false, Failed)
        else Receive(sha, w, q, From(archive, existing), existing, true)
  }

  /** Hash what is there, open the file, and copy the body. */
  function Receive(sha: Bytes -> string, w: World, q: Request, body: Bytes, start: int, resumed: bool): Outcome {
    var a := if start > 0 then Quiet(w) else w.(ok := true);
    if !a.ok then Stop(RemovePart(a), 0, false, Failed)
    else
      var b := OpenPart(a, start);
      if !b.ok then Stop(b, start, false, Failed)
      else
        var hashed := if start > 0 && b.disk.part.Some? then b.disk.part.value else [];
        Pump(sha, b, q, body, start, hashed, resumed)
  }

  /** What one read delivers into a buffer of `room` bytes. */
  function Delivered(turn: Turn, body: Bytes, room: int): (n: int)
    requires room > 0
    ensures 0 <= n <= |body| && n <= room
    ensures body != [] && turn.ending.More? ==> n > 0
  {
    var most := if |body| < room then |body| else room;
    if turn.amount > most then most
    else if turn.amount == 0 && turn.ending.More? && most > 0 then 1
    else turn.amount
  }

  function EndingOf(turn: Turn, body: Bytes): Ending {
    if body == [] && turn.ending.More? then Eof else turn.ending
  }

  /** The copy loop, one iteration at a time. */
  function Pump(sha: Bytes -> string, w: World, q: Request, body: Bytes, written: int, hashed: Bytes, resumed: bool)
    : Outcome
    decreases |body|, 1
  {
    if q.size - written <= 0 then Close(sha, w, q, written, hashed, resumed)
    else
      var turn := w.script(w.clock);
      if turn.cancel then Stop(Record(w, q, written), written, resumed, Cancelled)
      else
        var n := Delivered(turn, body, if BUFFER > q.size - written then q.size - written else BUFFER);
        var v := w.(clock := w.clock + 1);
        if n == 0 then After(sha, v, q, body, written, hashed, resumed, EndingOf(turn, body))
        else
          var a := WriteChunk(v, body[..n]);
          if !a.ok then Stop(a, written, resumed, Failed)
          else After(sha, a, q, body[n..], written + n, hashed + body[..n], resumed, EndingOf(turn, body))
  }

  function After(sha: Bytes -> string, w: World, q: Request, body: Bytes, written: int, hashed: Bytes, resumed: bool,
                 ending: Ending): Outcome
    decreases |body|, if ending.More? then 2 else 0
  {
    match ending
    case Broken => Stop(Record(w, q, written), written, resumed, if w.script(w.clock).cancel then Cancelled else Failed)
    case Eof => Close(sha, w, q, written, hashed, resumed)
    case More => Pump(sha, w, q, body, written, hashed, resumed)
  }

  /** Sync, close, record, and refuse a truncated transfer. */
  function Close(sha: Bytes -> string, w: World, q: Request, written: int, hashed: Bytes, resumed: bool): Outcome {
    var a := Quiet(w);
    if !a.ok then Stop(a, written, resumed, Failed)
    else
      var b := Quiet(a);
      if !b.ok then Stop(b, written, resumed, Failed)
      else
        var c := Record(b, q, written);
        Outcome(c, written, sha(hashed), resumed, if c.up && written >= q.size then NoError else Failed)
  }
}
