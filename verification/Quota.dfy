/** The per-session write quota: counters over a one-minute window. Times are
    nanoseconds. */
module Quota {
  import opened Basics
  import N = Numerals
  import T = Text

  const SECOND: int := 1_000_000_000
  const WINDOW: int := 60 * SECOND
  const DEFAULT_WRITES: int := 100
  const DEFAULT_BYTES: int := 64 * 1024 * 1024

  /** `start` is None where the session's window was never set. */
  datatype Counters = Counters(start: Option<int>, writes: int, bytes: int)

  datatype Kind = Writes | Bytes

  datatype Verdict = Accepted | RateLimited(kind: Kind, retryAfter: int) | NoSession

  function Fresh(created: int): Counters { Counters(Some(created), 0, 0) }

  function Rolled(c: Counters, now: int): Counters {
    if c.start.None? || now - c.start.value >= WINDOW then Counters(Some(now), 0, 0) else c
  }

  function RetryAfter(c: Counters, now: int): int
    requires c.start.Some?
  {
    var elapsed := if now < c.start.value then 0 else now - c.start.value;
    var seconds := (WINDOW - elapsed + SECOND - 1) / SECOND;
    if seconds < 1 then 1 else seconds
  }

  function Limit(given: int, default: int): int { if given == 0 then default else given }

  function Size(n: int): int { if n < 0 then 0 else n }

  datatype Decision = Decision(after: Counters, verdict: Verdict)

  /** Allow, for a session that exists. A limit of zero is the default and a
      negative one no limit; a refused write is not counted. */
  function Judge(c: Counters, now: int, n: int, writesPerMinute: int, bytesPerMinute: int): Decision {
    var w, b, size := Limit(writesPerMinute, DEFAULT_WRITES), Limit(bytesPerMinute, DEFAULT_BYTES), Size(n);
    var r := Rolled(c, now);
    if w > 0 && r.writes + 1 > w then Decision(r, RateLimited(Writes, RetryAfter(r, now)))
    else if b > 0 && N.Wrap(r.bytes + size) > b then Decision(r, RateLimited(Bytes, RetryAfter(r, now)))
    else Decision(Counters(r.start, r.writes + 1, N.Wrap(r.bytes + size)), Accepted)
  }

  class Session {
    var windowStart: Option<int>
    var writes: int
    var bytes: int

    function State(): Counters
      reads this
    {
      Counters(windowStart, writes, bytes)
    }

    /** Exchange: the first window opens when the session is created. */
    constructor (created: int)
      ensures State() == Fresh(created)
    {
      windowStart, writes, bytes := Some(created), 0, 0;
    }
  }

  class Store {
    method Allow(sess: Session?, now: int, n: int, writesPerMinute: int, bytesPerMinute: int) returns (v: Verdict)
      modifies sess
      ensures sess == null ==> v == NoSession
      ensures sess != null ==>
        Decision(sess.State(), v) == Judge(old(sess.State()), now, n, writesPerMinute, bytesPerMinute)
    {
      if sess == null { return NoSession; }
      var size := if n < 0 then 0 else n;
      var w := if writesPerMinute == 0 then DEFAULT_WRITES else writesPerMinute;
      var b := if bytesPerMinute == 0 then DEFAULT_BYTES else bytesPerMinute;
      if sess.windowStart.None? || now - sess.windowStart.value >= WINDOW {
        sess.windowStart, sess.writes, sess.bytes := Some(now), 0, 0;
      }
      var elapsed := now - sess.windowStart.value;
      if elapsed < 0 { elapsed := 0; }
      var retryAfter := (WINDOW - elapsed + SECOND - 1) / SECOND;
      if retryAfter < 1 { retryAfter := 1; }
      if w > 0 && sess.writes + 1 > w { return RateLimited(Writes, retryAfter); }
      if b > 0 && N.Wrap(sess.bytes + size) > b { return RateLimited(Bytes, retryAfter); }
      sess.writes := sess.writes + 1;
      sess.bytes := N.Wrap(sess.bytes + size);
      return Accepted;
    }
  }

  // ----- a refusal -----

  /** A refusal asks for 1 to 60 seconds, and that much later a write within the
      limit is accepted. */
  lemma RetryIsHonoured(c: Counters, now: int, n: int, w: int, b: int, later: int, m: int)
    requires c.start.Some? ==> c.start.value <= now
    requires var v := Judge(c, now, n, w, b).verdict; v.RateLimited? && later >= now + v.retryAfter * SECOND
    requires Size(m) < T.INT64_LIMIT && (Limit(b, DEFAULT_BYTES) > 0 ==> Size(m) <= Limit(b, DEFAULT_BYTES))
    ensures 1 <= Judge(c, now, n, w, b).verdict.retryAfter <= 60
    ensures Judge(Judge(c, now, n, w, b).after, later, m, w, b).verdict == Accepted
  {
    var r := Rolled(c, now);
    var elapsed := now - r.start.value;
    var left := WINDOW - elapsed;
    assert 0 < left <= WINDOW;
    CeilingIsEnough(left);
    assert later - r.start.value >= WINDOW;
  }

  lemma CeilingIsEnough(left: int)
    requires 0 < left <= WINDOW
    ensures 1 <= (left + SECOND - 1) / SECOND <= 60 && (left + SECOND - 1) / SECOND * SECOND >= left
  {}

  /** A refusal, with a clock that has not gone back, asks for the least whole number of
      seconds after which the window is over. */
  lemma RetryIsLeast(c: Counters, now: int, n: int, w: int, b: int)
    requires c.start.Some? ==> c.start.value <= now
    requires Judge(c, now, n, w, b).verdict.RateLimited?
    ensures var v, over := Judge(c, now, n, w, b).verdict.retryAfter, Rolled(c, now).start.value + WINDOW;
      now + (v - 1) * SECOND < over <= now + v * SECOND
  {
    var left := WINDOW - (now - Rolled(c, now).start.value);
    CeilingIsLeast(left);
  }

  lemma CeilingIsLeast(left: int)
    requires 0 < left <= WINDOW
    ensures var v := (left + SECOND - 1) / SECOND; (v - 1) * SECOND < left <= v * SECOND
  {}

  /** A clock that has gone back is taken to stand at the start of the window. */
  lemma RetryAfterGoingBack(c: Counters, now: int, n: int, w: int, b: int)
    requires c.start.Some? && now < c.start.value && Judge(c, now, n, w, b).verdict.RateLimited?
    ensures Judge(c, now, n, w, b).verdict.retryAfter == 60 && Judge(c, now, n, w, b).after == c
  {
    hide N.Wrap;
  }

  /** What a write meets, and what it leaves: the number of writes is looked at before
      their bytes, a limit of zero stands for the default and a negative one for none,
      and only an accepted write is counted. */
  lemma VerdictExactlyWhen(c: Counters, now: int, size: int, w: int, b: int)
    requires Size(size) < T.INT64_LIMIT / 2 && 0 <= Rolled(c, now).bytes < T.INT64_LIMIT / 2
    ensures var r, d := Rolled(c, now), Judge(c, now, size, w, b);
      var manyWrites := w >= 0 && r.writes >= if w == 0 then 100 else w;
      var manyBytes := b >= 0 && r.bytes + Size(size) > if b == 0 then 64 * 1024 * 1024 else b;
      && (d.verdict.Accepted? <==> !manyWrites && !manyBytes)
      && (d.verdict.RateLimited? && d.verdict.kind == Writes <==> manyWrites)
      && (d.verdict.RateLimited? && d.verdict.kind == Bytes <==> !manyWrites && manyBytes)
      && d.after == if d.verdict.Accepted? then Counters(r.start, r.writes + 1, r.bytes + Size(size)) else r
  {
    assert N.Wrap(Rolled(c, now).bytes + Size(size)) == Rolled(c, now).bytes + Size(size);
    hide N.Wrap, RetryAfter;
  }

  /** The byte check accepts exactly what fits, and any size that overflows. */
  lemma BytesAcceptedExactly(bytes: int, size: int, limit: int)
    requires 0 <= bytes <= limit && 0 <= size && N.Fits(size) && N.Fits(limit)
    ensures N.Wrap(bytes + size) <= limit <==> bytes + size <= limit || bytes + size >= T.INT64_LIMIT
  {}

  // ----- runs of calls -----

  datatype Call = Call(now: int, size: int)

  /** What was accepted, in order. */
  datatype Run = Run(counters: Counters, accepted: seq<Call>)

  function After(initial: Counters, calls: seq<Call>, w: int, b: int): Run {
    if |calls| == 0 then Run(initial, [])
    else
      var last, before := calls[|calls| - 1], After(initial, calls[..|calls| - 1], w, b);
      var d := Judge(before.counters, last.now, last.size, w, b);
      Run(d.after, if d.verdict.Accepted? then before.accepted + [last] else before.accepted)
  }

  function InInterval(calls: seq<Call>, from: int): seq<Call> {
    if |calls| == 0 then []
    else
      var last := calls[|calls| - 1];
      InInterval(calls[..|calls| - 1], from) + if from <= last.now <= from + WINDOW then [last] else []
  }

  function Total(calls: seq<Call>): int {
    if |calls| == 0 then 0 else Total(calls[..|calls| - 1]) + Size(calls[|calls| - 1].size)
  }

  predicate Forward(calls: seq<Call>) { forall i, j | 0 <= i < j < |calls| :: calls[i].now <= calls[j].now }

  /** No single size reaches past the 64-bit range when added to the limit. */
  predicate Modest(calls: seq<Call>, b: int) { forall c <- calls :: Size(c.size) + b < T.INT64_LIMIT }

  /** What a run may have accepted in the interval from `from`, by where the
      current window starts and when the last call was; `most` is the limit,
      `now` the counter. */
  predicate Bounded(start: int, last: int, from: int, inside: int, now: int, most: int) {
    && 0 <= now <= most
    && (last < from ==> inside == 0)
    && (start <= from ==> inside <= now)
    && (from < start <= from + WINDOW ==> inside <= most + now)
    && (from + WINDOW < start ==> inside <= 2 * most)
  }

  ghost predicate Inv(r: Run, from: int, last: int, w: int, b: int) {
    var inside := InInterval(r.accepted, from);
    && r.counters.start.Some?
    && r.counters.start.value <= last < r.counters.start.value + WINDOW
    && Bounded(r.counters.start.value, last, from, |inside|, r.counters.writes, w)
    && Bounded(r.counters.start.value, last, from, Total(inside), r.counters.bytes, b)
  }

  lemma IntervalAppends(calls: seq<Call>, c: Call, from: int)
    ensures InInterval(calls + [c], from)
         == InInterval(calls, from) + if from <= c.now <= from + WINDOW then [c] else []
  {
    assert (calls + [c])[..|calls|] == calls;
  }

  lemma TotalAppends(calls: seq<Call>, c: Call)
    ensures Total(calls + [c]) == Total(calls) + Size(c.size)
  {
    assert (calls + [c])[..|calls|] == calls;
  }

  lemma AfterAppends(initial: Counters, calls: seq<Call>, c: Call, w: int, b: int)
    ensures var r := After(initial, calls, w, b); var d := Judge(r.counters, c.now, c.size, w, b);
      After(initial, calls + [c], w, b) == Run(d.after, if d.verdict.Accepted? then r.accepted + [c] else r.accepted)
  {
    hide Judge;
    assert (calls + [c])[..|calls|] == calls;
  }

  /** A decision depends on the counters as the call finds them in its window. */
  lemma JudgeMeans(c: Counters, now: int, size: int, w: int, b: int)
    requires w > 0 && b > 0 && Size(size) + b < T.INT64_LIMIT && 0 <= Rolled(c, now).bytes <= b
    ensures var r, d := Rolled(c, now), Judge(c, now, size, w, b);
      if r.writes + 1 <= w && r.bytes + Size(size) <= b
      then d == Decision(Counters(r.start, r.writes + 1, r.bytes + Size(size)), Accepted)
      else d.after == r && !d.verdict.Accepted?
  {
    assert N.Wrap(Rolled(c, now).bytes + Size(size)) == Rolled(c, now).bytes + Size(size);
    hide N.Wrap, RetryAfter;
  }

  lemma StepKeeps(r: Run, from: int, last: int, c: Call, w: int, b: int)
    requires w > 0 && b > 0 && Size(c.size) + b < T.INT64_LIMIT && last <= c.now && Inv(r, from, last, w, b)
    ensures var d := Judge(r.counters, c.now, c.size, w, b);
      Inv(Run(d.after, if d.verdict.Accepted? then r.accepted + [c] else r.accepted), from, c.now, w, b)
  {
    RollKeeps(r, from, last, c.now, w, b);
    hide Judge, Rolled;
    JudgeMeans(r.counters, c.now, c.size, w, b);
    var rolled := Rolled(r.counters, c.now);
    if rolled.writes + 1 <= w && rolled.bytes + Size(c.size) <= b {
      AcceptedKeeps(Run(rolled, r.accepted), from, c, w, b);
    }
  }

  lemma AcceptedKeeps(r: Run, from: int, c: Call, w: int, b: int)
    requires Inv(r, from, c.now, w, b) && r.counters.writes + 1 <= w && r.counters.bytes + Size(c.size) <= b
    ensures var counted := Counters(r.counters.start, r.counters.writes + 1, r.counters.bytes + Size(c.size));
      Inv(Run(counted, r.accepted + [c]), from, c.now, w, b)
  {
    hide Total, InInterval;
    IntervalAppends(r.accepted, c, from);
    var inside := InInterval(r.accepted, from);
    TotalAppends(inside, c);
    AcceptKeeps(r.counters.start.value, c.now, from, |inside|, r.counters.writes, w, 1);
    AcceptKeeps(r.counters.start.value, c.now, from, Total(inside), r.counters.bytes, b, Size(c.size));
    hide Bounded;
    assert InInterval(r.accepted + [c], from) == if from <= c.now <= from + WINDOW then inside + [c] else inside;
  }

  lemma RollKeeps(r: Run, from: int, last: int, now: int, w: int, b: int)
    requires w > 0 && b > 0 && last <= now && Inv(r, from, last, w, b)
    ensures Inv(Run(Rolled(r.counters, now), r.accepted), from, now, w, b) && Rolled(r.counters, now).start.Some?
  {}

  lemma AcceptKeeps(start: int, now: int, from: int, inside: int, count: int, most: int, size: int)
    requires Bounded(start, now, from, inside, count, most) && start <= now && 0 <= size && count + size <= most
    ensures Bounded(start, now, from, inside + if from <= now <= from + WINDOW then size else 0, count + size, most)
  {}

  /** A session created no later than its first call, or one whose window was never
      set: both begin with nothing counted. */
  predicate Begins(initial: Counters, calls: seq<Call>) {
    && initial.writes == 0 == initial.bytes
    && (initial.start.Some? && |calls| > 0 ==> initial.start.value <= calls[0].now)
  }

  /** Before any call, seen at a time no earlier than the creation. */
  lemma BeginKeeps(initial: Counters, now: int, from: int, w: int, b: int)
    requires w > 0 && b > 0 && initial.writes == 0 == initial.bytes
    requires initial.start.Some? ==> initial.start.value <= now
    ensures Inv(Run(Rolled(initial, now), []), from, now, w, b)
  {}

  lemma {:induction false} RunKeeps(initial: Counters, calls: seq<Call>, from: int, w: int, b: int)
    requires w > 0 && b > 0 && Begins(initial, calls) && Forward(calls) && Modest(calls, b) && |calls| > 0
    ensures Inv(After(initial, calls, w, b), from, calls[|calls| - 1].now, w, b)
  {
    hide Judge, Inv, After, Rolled;
    var before, c := calls[..|calls| - 1], calls[|calls| - 1];
    assert calls == before + [c];
    AfterAppends(initial, before, c, w, b);
    if |before| > 0 {
      RunKeeps(initial, before, from, w, b);
      StepKeeps(After(initial, before, w, b), from, before[|before| - 1].now, c, w, b);
    } else {
      BeginKeeps(initial, c.now, from, w, b);
      StepKeeps(Run(Rolled(initial, c.now), []), from, c.now, c, w, b);
      NothingCalled(initial, c, w, b);
    }
  }

  /** Before the first call nothing is accepted, and that call finds its window. */
  lemma NothingCalled(initial: Counters, c: Call, w: int, b: int)
    ensures After(initial, [], w, b) == Run(initial, [])
    ensures Judge(Rolled(initial, c.now), c.now, c.size, w, b) == Judge(initial, c.now, c.size, w, b)
  {
    assert Rolled(Rolled(initial, c.now), c.now) == Rolled(initial, c.now);
  }

  /** With a clock that does not go back and positive limits, no interval of one
      window, ends included, sees more than twice the limits accepted, and the
      current window never more than the limits. */
  lemma TwiceTheLimit(initial: Counters, calls: seq<Call>, from: int, w: int, b: int)
    requires w > 0 && b > 0 && Begins(initial, calls) && Forward(calls) && Modest(calls, b)
    ensures var r := After(initial, calls, w, b);
      && |InInterval(r.accepted, from)| <= 2 * w && Total(InInterval(r.accepted, from)) <= 2 * b
      && 0 <= r.counters.writes <= w && 0 <= r.counters.bytes <= b
  {
    if |calls| > 0 { RunKeeps(initial, calls, from, w, b); }
  }

  // ----- the bound is sharp -----

  /** As many calls at one moment as there are writes in a minute, the first of
      them with all the bytes. */
  function Burst(now: int, n: nat, b: int): (calls: seq<Call>)
    ensures |calls| == n && forall c <- calls :: c.now == now && (0 <= b ==> 0 <= c.size <= b)
  {
    if n == 0 then [] else Burst(now, n - 1, b) + [Call(now, if n == 1 then b else 0)]
  }

  /** The `n`-th call of a burst, the ones before it being accepted. */
  lemma BurstStep(c: Counters, start: int, now: int, n: nat, w: int, b: int)
    requires 0 < n <= w && 0 < b && 2 * b < T.INT64_LIMIT
    requires Rolled(c, now) == Counters(Some(start), n - 1, if n == 1 then 0 else b) && now - start < WINDOW
    ensures Judge(c, now, if n == 1 then b else 0, w, b) == Decision(Counters(Some(start), n, b), Accepted)
    ensures Rolled(Counters(Some(start), n, b), now) == Counters(Some(start), n, b)
  {}

  lemma {:induction false} BurstAccepted(initial: Counters, calls: seq<Call>, start: int, now: int, n: nat, w: int,
                                         b: int)
    requires 0 < n <= w && 0 < b && 2 * b < T.INT64_LIMIT
    requires Rolled(After(initial, calls, w, b).counters, now) == Fresh(start) && now - start < WINDOW
    ensures After(initial, calls + Burst(now, n, b), w, b)
         == Run(Counters(Some(start), n, b), After(initial, calls, w, b).accepted + Burst(now, n, b))
    ensures Rolled(Counters(Some(start), n, b), now) == Counters(Some(start), n, b)
  {
    hide Judge, After, Rolled;
    var shorter, last := Burst(now, n - 1, b), Call(now, if n == 1 then b else 0);
    assert calls + Burst(now, n, b) == (calls + shorter) + [last];
    if n > 1 { BurstAccepted(initial, calls, start, now, n - 1, w, b); } else { assert calls + shorter == calls; }
    AfterAppends(initial, calls + shorter, last, w, b);
    BurstStep(After(initial, calls + shorter, w, b).counters, start, now, n, w, b);
  }

  lemma {:induction false} WholeInterval(calls: seq<Call>, from: int)
    requires forall c <- calls :: from <= c.now <= from + WINDOW
    ensures InInterval(calls, from) == calls
  {
    if |calls| > 0 {
      assert calls[|calls| - 1] in calls;
      WholeInterval(calls[..|calls| - 1], from);
    }
  }

  lemma {:induction false} BurstTotal(calls: seq<Call>, now: int, n: nat, b: int)
    requires n > 0 && b > 0
    ensures Total(calls + Burst(now, n, b)) == Total(calls) + b
  {
    var burst := Burst(now, n, b);
    var shorter := Burst(now, n - 1, b);
    assert calls + burst == (calls + shorter) + [burst[n - 1]];
    TotalAppends(calls + shorter, burst[n - 1]);
    if n > 1 { BurstTotal(calls, now, n - 1, b); } else { assert calls + shorter == calls; }
  }

  /** Twice the limits are reached, whatever they are, so no smaller bound holds: a
      session's first window opens at its creation, and a burst at its end meets one
      at the start of the next. */
  lemma TwiceIsReached(created: int, w: int, b: int)
    requires w > 0 && b > 0 && 2 * b < T.INT64_LIMIT
    ensures var calls := Burst(created + WINDOW - 1, w, b) + Burst(created + WINDOW, w, b);
      var r := After(Fresh(created), calls, w, b);
      && Begins(Fresh(created), calls) && Forward(calls) && Modest(calls, b)
      && |InInterval(r.accepted, created)| == 2 * w && Total(InInterval(r.accepted, created)) == 2 * b
  {
    hide Burst, Total, InInterval, After;
    var early, late := Burst(created + WINDOW - 1, w, b), Burst(created + WINDOW, w, b);
    NothingCalled(Fresh(created), Call(created, 0), w, b);
    EmptyTotal();
    BurstAccepted(Fresh(created), [], created, created + WINDOW - 1, w, w, b);
    assert [] + early == early;
    BurstAccepted(Fresh(created), early, created + WINDOW, created + WINDOW, w, w, b);
    WholeInterval(early + late, created);
    BurstTotal([], created + WINDOW - 1, w, b);
    BurstTotal(early, created + WINDOW, w, b);
  }

  lemma EmptyTotal()
    ensures Total([]) == 0
  {}
}
