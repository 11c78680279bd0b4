/**
The two sliding-window rate limiters: the in-memory log (apps/data-plane/src/ratelimit/rate-limiter.ts)
and the Redis script (redis-rate-limiter.ts). Times are whole milliseconds on one clock.
*/
module RateLimiter {
  import opened Spans

  /** A fence's limit, with `windowSec` at least 1. */
  datatype RateLimit = RateLimit(max: int, windowSec: int)
  {
    predicate Valid() { windowSec >= 1 }

    function WindowMs(): int { windowSec * 1000 }
  }

  /** `NotANumber` is what arithmetic on `undefined` gives. */
  datatype Seconds = Sec(n: int) | NotANumber

  datatype Answer = Answer(allowed: bool, retryAfterSec: Seconds)

  function Recent(hits: seq<int>, cutoff: int): (r: seq<int>)
    ensures |r| <= |hits|
  {
    if hits == [] then []
    else if hits[0] > cutoff then [hits[0]] + Recent(hits[1..], cutoff)
    else Recent(hits[1..], cutoff)
  }

  /** `Math.ceil(ms / 1000)` */
  function CeilSeconds(ms: int): int {
    -((-ms) / 1000)
  }

  function RetryAfter(ms: int): int {
    if CeilSeconds(ms) < 1 then 1 else CeilSeconds(ms)
  }

  function CheckHits(hits: seq<int>, limit: RateLimit, now: int): (seq<int>, Answer) {
    var recent := Recent(hits, now - limit.WindowMs());
    if |recent| < limit.max then (recent + [now], Answer(true, Sec(0)))
    else if recent == [] then (recent, Answer(false, NotANumber))
    else (recent, Answer(false, Sec(RetryAfter(recent[0] + limit.WindowMs() - now))))
  }

  class InMemoryRateLimiter {
    var hits: map<string, seq<int>>

    constructor ()
      ensures hits == map[]
    {
      hits := map[];
    }

    ghost function Bucket(key: string): seq<int>
      reads this
    {
      if key in hits then hits[key] else []
    }

    method Check(bucketKey: string, limit: RateLimit, now: int) returns (r: Answer)
      modifies this
      ensures (Bucket(bucketKey), r) == CheckHits(old(Bucket(bucketKey)), limit, now)
      ensures forall other :: other != bucketKey ==> Bucket(other) == old(Bucket(other))
    {
      var windowMs := limit.windowSec * 1000;
      var cutoff := now - windowMs;
      var recent := Recent(if bucketKey in hits then hits[bucketKey] else [], cutoff);
      if |recent| < limit.max {
        hits := hits[bucketKey := recent + [now]];
        return Answer(true, Sec(0));
      }
      hits := hits[bucketKey := recent];
      if recent == [] {
        return Answer(false, NotANumber);
      }
      var retry := CeilSeconds(recent[0] + windowMs - now);
      r := Answer(false, Sec(if retry < 1 then 1 else retry));
    }
  }

  // ---- Runs of one bucket ----

  /** The bucket after calls at these times. */
  function After(limit: RateLimit, calls: seq<int>): seq<int> {
    if calls == [] then []
    else CheckHits(After(limit, calls[..|calls| - 1]), limit, calls[|calls| - 1]).0
  }

  /** What the call at `now` is answered, after the calls. */
  function Answered(limit: RateLimit, calls: seq<int>, now: int): Answer {
    CheckHits(After(limit, calls), limit, now).1
  }

  /** The times of the calls that were let through. */
  function Admitted(limit: RateLimit, calls: seq<int>): seq<int> {
    if calls == [] then []
    else
      var front, now := calls[..|calls| - 1], calls[|calls| - 1];
      Admitted(limit, front) + if Answered(limit, front, now).allowed then [now] else []
  }

  lemma {:induction false} RecentSplit(a: seq<int>, b: seq<int>, cutoff: int)
    ensures Recent(a + b, cutoff) == Recent(a, cutoff) + Recent(b, cutoff)
  {
    if a == [] {
      assert a + b == b;
    } else {
      assert (a + b)[1..] == a[1..] + b;
      RecentSplit(a[1..], b, cutoff);
    }
  }

  lemma {:induction false} RecentTwice(a: seq<int>, early: int, late: int)
    requires early <= late
    ensures Recent(Recent(a, early), late) == Recent(a, late)
  {
    if a != [] {
      RecentTwice(a[1..], early, late);
      if a[0] > early {
        assert Recent(a, early)[1..] == Recent(a[1..], early);
      }
    }
  }

  lemma {:induction false} AllRecent(a: seq<int>, cutoff: int)
    requires forall i :: 0 <= i < |a| ==> a[i] > cutoff
    ensures Recent(a, cutoff) == a
  {
    if a != [] {
      AllRecent(a[1..], cutoff);
    }
  }

  /** In a sorted log the recent hits are a suffix. */
  lemma {:induction false} RecentIsSuffix(a: seq<int>, cutoff: int)
    requires Sorted(a)
    ensures Recent(a, cutoff) == a[|a| - |Recent(a, cutoff)|..]
    ensures forall i :: 0 <= i < |a| ==> (a[i] > cutoff <==> i >= |a| - |Recent(a, cutoff)|)
  {
    if a != [] {
      RecentIsSuffix(a[1..], cutoff);
      if a[0] > cutoff {
        AllRecent(a, cutoff);
      }
    }
  }

  lemma {:induction false} AdmittedSorted(limit: RateLimit, calls: seq<int>)
    requires Sorted(calls)
    ensures Sorted(Admitted(limit, calls))
    ensures forall i :: 0 <= i < |Admitted(limit, calls)| ==> Admitted(limit, calls)[i] <= calls[|calls| - 1]
  {
    if calls != [] {
      AdmittedSorted(limit, calls[..|calls| - 1]);
    }
  }

  lemma {:induction false} SortedCalls(calls: seq<int>, now: int)
    requires Sorted(calls + [now])
    ensures Sorted(calls) && forall i :: 0 <= i < |calls| ==> calls[i] <= now
  {
    var all := calls + [now];
    assert all[|calls|] == now && forall i :: 0 <= i < |calls| ==> all[i] == calls[i];
  }

  lemma {:induction false} SameAfterTrim(a: seq<int>, a': seq<int>, b: seq<int>, b': seq<int>, tail: seq<int>, early: int, late: int)
    requires early <= late && Recent(a, early) == Recent(b, early)
    requires a' == Recent(a, early) + tail && b' == b + tail
    ensures Recent(a', late) == Recent(b', late)
  {
    RecentSplit(Recent(a, early), tail, late);
    RecentSplit(b, tail, late);
    RecentTwice(b, early, late);
  }

  /** What one call adds, to the bucket and to the log alike. */
  function Tail(limit: RateLimit, calls: seq<int>, now: int): seq<int> {
    if Answered(limit, calls, now).allowed then [now] else []
  }

  lemma {:induction false} OneCall(limit: RateLimit, calls: seq<int>, now: int)
    ensures After(limit, calls + [now]) == Recent(After(limit, calls), now - limit.WindowMs()) + Tail(limit, calls, now)
    ensures Admitted(limit, calls + [now]) == Admitted(limit, calls) + Tail(limit, calls, now)
  {
    assert (calls + [now])[..|calls|] == calls;
  }

  /** The bucket and the log agree on what still counts at `now`. */
  predicate Agrees(limit: RateLimit, calls: seq<int>, now: int) {
    Recent(After(limit, calls), now - limit.WindowMs()) == Recent(Admitted(limit, calls), now - limit.WindowMs())
  }

  lemma {:induction false} BothGrow(limit: RateLimit, calls: seq<int>, last: int, bucket': seq<int>, log': seq<int>)
    requires bucket' == Recent(After(limit, calls), last - limit.WindowMs()) + Tail(limit, calls, last)
    requires log' == Admitted(limit, calls) + Tail(limit, calls, last)
    ensures After(limit, calls + [last]) == bucket' && Admitted(limit, calls + [last]) == log'
  {
    OneCall(limit, calls, last);
  }

  lemma {:induction false} LogStep(limit: RateLimit, calls: seq<int>, last: int, now: int)
    requires last <= now && Agrees(limit, calls, last)
    ensures Recent(After(limit, calls + [last]), now - limit.WindowMs())
         == Recent(Admitted(limit, calls + [last]), now - limit.WindowMs())
  {
    var bucket, log, tail := After(limit, calls), Admitted(limit, calls), Tail(limit, calls, last);
    var early, late := last - limit.WindowMs(), now - limit.WindowMs();
    var bucket', log' := Recent(bucket, early) + tail, log + tail;
    SameAfterTrim(bucket, bucket', log, log', tail, early, late);
    BothGrow(limit, calls, last, bucket', log');
  }

  /** The trimmed bucket decides as the whole log of admissions would. */
  lemma {:induction false} BucketIsTheLog(limit: RateLimit, calls: seq<int>, now: int)
    requires limit.Valid() && Sorted(calls + [now])
    ensures Agrees(limit, calls, now)
    decreases |calls|
  {
    if calls != [] {
      var front, last := calls[..|calls| - 1], calls[|calls| - 1];
      SortedCalls(calls, now);
      assert calls == front + [last];
      BucketIsTheLog(limit, front, last);
      LogStep(limit, front, last, now);
    }
  }

  /** Admissions `max` apart are at least a window apart. */
  lemma {:induction false} Spaced(limit: RateLimit, calls: seq<int>, i: nat)
    requires limit.Valid() && limit.max >= 1 && Sorted(calls) && i + limit.max < |Admitted(limit, calls)|
    ensures Admitted(limit, calls)[i + limit.max] >= Admitted(limit, calls)[i] + limit.WindowMs()
  {
    var front, now := calls[..|calls| - 1], calls[|calls| - 1];
    var log := Admitted(limit, front);
    if i + limit.max < |log| {
      Spaced(limit, front, i);
    } else {
      AdmittedSorted(limit, front);
      assert front + [now] == calls;
      BucketIsTheLog(limit, front, now);
      RecentIsSuffix(log, now - limit.WindowMs());
    }
  }

  /** Any half-open span one window long holds at most `max` admissions. */
  lemma {:induction false} WindowBound(limit: RateLimit, calls: seq<int>, from: int)
    requires limit.Valid() && limit.max >= 1 && Sorted(calls)
    ensures |Span(Admitted(limit, calls), from, from + limit.WindowMs())| <= limit.max
  {
    var log := Admitted(limit, calls);
    AdmittedSorted(limit, calls);
    forall i | 0 <= i && i + limit.max < |log| ensures log[i + limit.max] >= log[i] + limit.WindowMs() {
      Spaced(limit, calls, i);
    }
    SpacedSpan(log, limit.WindowMs(), limit.max, from);
  }

  lemma {:induction false} RecentCount(log: seq<int>, cutoff: int, now: int)
    requires Sorted(log) && forall i :: 0 <= i < |log| ==> log[i] <= now
    ensures |Span(log, cutoff + 1, now + 1)| == |Recent(log, cutoff)|
  {
    RecentIsSuffix(log, cutoff);
    var n := |Recent(log, cutoff)|;
    assert Span(log, cutoff + 1, now + 1) == Indices(|log| - n, n);
  }

  /** And a call is let through exactly when the span that ends with it has room. */
  lemma {:induction false} AdmittedExactly(limit: RateLimit, calls: seq<int>, now: int)
    requires limit.Valid() && Sorted(calls + [now])
    ensures Answered(limit, calls, now).allowed <==>
      |Span(Admitted(limit, calls), now - limit.WindowMs() + 1, now + 1)| < limit.max
  {
    SortedCalls(calls, now);
    AdmittedSorted(limit, calls);
    BucketIsTheLog(limit, calls, now);
    RecentCount(Admitted(limit, calls), now - limit.WindowMs(), now);
  }

  // ---- Retry-after ----

  /** Hits in order, at most `max` of them and none after `last`. */
  predicate Shaped(hits: seq<int>, max: int, last: int) {
    Sorted(hits) && |hits| <= max && forall i :: 0 <= i < |hits| ==> hits[i] <= last
  }

  lemma {:induction false} ShapeStep(hits: seq<int>, limit: RateLimit, last: int, now: int)
    requires limit.max >= 1 && last <= now && Shaped(hits, limit.max, last)
    ensures Shaped(Recent(hits, now - limit.WindowMs()), limit.max, now)
    ensures Shaped(CheckHits(hits, limit, now).0, limit.max, now)
  {
    RecentIsSuffix(hits, now - limit.WindowMs());
  }

  lemma {:induction false} AfterShape(limit: RateLimit, calls: seq<int>, now: int)
    requires limit.max >= 1 && Sorted(calls) && forall i :: 0 <= i < |calls| ==> calls[i] <= now
    ensures Shaped(After(limit, calls), limit.max, now)
  {
    if calls != [] {
      var front, last := calls[..|calls| - 1], calls[|calls| - 1];
      AfterShape(limit, front, last);
      ShapeStep(After(limit, front), limit, last, last);
    }
  }

  /** A full bucket lets a call through from the moment its oldest hit is a window old. */
  lemma {:induction false} FullUntil(hits: seq<int>, limit: RateLimit, now: int)
    requires limit.max >= 1 && Sorted(hits) && |hits| == limit.max
    ensures CheckHits(hits, limit, now).1.allowed <==> hits[0] + limit.WindowMs() <= now
  {
    RecentIsSuffix(hits, now - limit.WindowMs());
  }

  lemma {:induction false} CeilIsLeast(ms: int, k: int)
    ensures ms <= 1000 * k <==> k >= CeilSeconds(ms)
  {
  }

  lemma {:induction false} RefusedUntil(hits: seq<int>, limit: RateLimit, now: int, k: nat)
    requires limit.Valid() && limit.max >= 1 && Shaped(hits, limit.max, now) && !CheckHits(hits, limit, now).1.allowed
    ensures CheckHits(hits, limit, now).1.retryAfterSec.Sec?
    ensures CheckHits(Recent(hits, now - limit.WindowMs()), limit, now + 1000 * k).1.allowed <==>
      k >= CheckHits(hits, limit, now).1.retryAfterSec.n
  {
    var full := Recent(hits, now - limit.WindowMs());
    ShapeStep(hits, limit, now, now);
    RecentIsSuffix(hits, now - limit.WindowMs());
    FullUntil(full, limit, now + 1000 * k);
    CeilIsLeast(full[0] + limit.WindowMs() - now, k);
  }

  /**
  A refusal's `retryAfterSec` is exact: the bucket, left alone, refuses at every whole number of seconds
  before it and lets a call through at it.
  */
  lemma {:induction false} RetryAfterIsExact(limit: RateLimit, calls: seq<int>, now: int, k: nat)
    requires limit.Valid() && limit.max >= 1 && Sorted(calls + [now]) && !Answered(limit, calls, now).allowed
    ensures Answered(limit, calls, now).retryAfterSec.Sec?
    ensures Answered(limit, calls + [now], now + 1000 * k).allowed <==> k >= Answered(limit, calls, now).retryAfterSec.n
  {
    SortedCalls(calls, now);
    AfterShape(limit, calls, now);
    OneCall(limit, calls, now);
    RefusedUntil(After(limit, calls), limit, now, k);
  }

  // ---- The Redis script ----

  /** The sorted set's scores in order, and when the key expires. An empty set is no key. */
  datatype Bucket = NoKey | Key(scores: seq<int>, expireAt: int)

  /** A key may be gone from the moment its time to live is over, and need not be. */
  predicate Keeps(before: Bucket, after: Bucket, now: int) {
    after == before || (before.Key? && before.expireAt <= now && after.NoKey?)
  }

  function Scores(b: Bucket): seq<int> {
    if b.Key? then b.scores else []
  }

  /** `ZADD` of a new member: after every score that is not greater. */
  function ZAdd(scores: seq<int>, t: int): seq<int> {
    if scores == [] || t < scores[0] then [t] + scores else [scores[0]] + ZAdd(scores[1..], t)
  }

  /** `ZREMRANGEBYSCORE key 0 to`. */
  function ZTrim(scores: seq<int>, to: int): seq<int> {
    if scores == [] then []
    else if 0 <= scores[0] <= to then ZTrim(scores[1..], to)
    else [scores[0]] + ZTrim(scores[1..], to)
  }

  function Script(b: Bucket, limit: RateLimit, now: int): (Bucket, Answer) {
    var w := limit.WindowMs();
    var scores := ZTrim(Scores(b), now - w);
    if |scores| < limit.max then (Key(ZAdd(scores, now), now + w), Answer(true, Sec(0)))
    else
      var retryMs := if scores == [] then w else scores[0] + w - now;
      (if b.NoKey? || scores == [] then NoKey else Key(scores, b.expireAt), Answer(false, Sec(RetryAfter(retryMs))))
  }

  // ---- The two limiters agree ----

  lemma {:induction false} TrimIsRecent(scores: seq<int>, to: int)
    requires forall i :: 0 <= i < |scores| ==> scores[i] >= 0
    ensures ZTrim(scores, to) == Recent(scores, to)
  {
    if scores != [] {
      TrimIsRecent(scores[1..], to);
    }
  }

  lemma {:induction false} AddIsAppend(scores: seq<int>, t: int)
    requires forall i :: 0 <= i < |scores| ==> scores[i] <= t
    ensures ZAdd(scores, t) == scores + [t]
  {
    if scores != [] {
      AddIsAppend(scores[1..], t);
    }
  }

  /** The script's buckets over the calls: call `i` finds `found[i]`, which is `buckets[i]` unless that has expired. */
  ghost predicate ScriptRun(limit: RateLimit, calls: seq<int>, buckets: seq<Bucket>, found: seq<Bucket>) {
    && |buckets| == |calls| + 1 && |found| == |calls| && buckets[0] == NoKey
    && forall i :: 0 <= i < |calls| ==>
         Keeps(buckets[i], found[i], calls[i]) && buckets[i + 1] == Script(found[i], limit, calls[i]).0
  }

  predicate Held(scores: seq<int>, now: int) {
    Sorted(scores) && forall i :: 0 <= i < |scores| ==> 0 <= scores[i] <= now
  }

  /** Every score is a window old by the time the key expires. */
  predicate OutlivedBy(scores: seq<int>, limit: RateLimit, expireAt: int) {
    forall i :: 0 <= i < |scores| ==> scores[i] + limit.WindowMs() <= expireAt
  }

  /** What the script has that still counts at `now` is what the in-memory log has. */
  predicate Alike(b: Bucket, hits: seq<int>, limit: RateLimit, now: int) {
    && Recent(Scores(b), now - limit.WindowMs()) == Recent(hits, now - limit.WindowMs())
    && Held(Scores(b), now) && (b.Key? ==> OutlivedBy(b.scores, limit, b.expireAt))
  }

  lemma {:induction false} NoneRecent(a: seq<int>, cutoff: int)
    requires forall i :: 0 <= i < |a| ==> a[i] <= cutoff
    ensures Recent(a, cutoff) == []
  {
    if a != [] {
      NoneRecent(a[1..], cutoff);
    }
  }

  /** A key that expired held nothing that still counts. */
  lemma {:induction false} ExpiryLosesNothing(b: Bucket, found: Bucket, hits: seq<int>, limit: RateLimit, now: int)
    requires Alike(b, hits, limit, now) && Keeps(b, found, now)
    ensures Alike(found, hits, limit, now)
  {
    if found != b {
      NoneRecent(b.scores, now - limit.WindowMs());
    }
  }

  /** On buckets alike the two answer the same, for a limit of at least one, and stay alike. */
  lemma {:induction false} SameAnswer(found: Bucket, hits: seq<int>, limit: RateLimit, now: int)
    requires limit.Valid() && limit.max >= 1 && Alike(found, hits, limit, now)
    ensures Script(found, limit, now).1 == CheckHits(hits, limit, now).1
    ensures Scores(Script(found, limit, now).0) == CheckHits(hits, limit, now).0
  {
    var cutoff := now - limit.WindowMs();
    TrimIsRecent(Scores(found), cutoff);
    RecentIsSuffix(Scores(found), cutoff);
    AddIsAppend(Recent(Scores(found), cutoff), now);
  }

  /** The bucket the script leaves, by its scores and its time to live. */
  lemma {:induction false} ScriptLeaves(found: Bucket, hits: seq<int>, limit: RateLimit, now: int)
    requires limit.Valid() && limit.max >= 1 && Alike(found, hits, limit, now) && now >= 0
    ensures var b, kept := Script(found, limit, now).0, Recent(Scores(found), now - limit.WindowMs());
      && Scores(b) == kept + (if |kept| < limit.max then [now] else [])
      && (b.Key? && |kept| >= limit.max ==> found.Key? && b.expireAt == found.expireAt)
      && (|kept| < limit.max ==> b.Key? && b.expireAt == now + limit.WindowMs())
  {
    var cutoff := now - limit.WindowMs();
    TrimIsRecent(Scores(found), cutoff);
    RecentIsSuffix(Scores(found), cutoff);
    AddIsAppend(Recent(Scores(found), cutoff), now);
  }

  /** The scores left are some of those found, and perhaps the call's own. */
  lemma {:induction false} LeftScores(scores: seq<int>, tail: seq<int>, cutoff: int, now: int)
    requires Held(scores, now) && (tail == [] || tail == [now]) && now >= 0
    ensures Held(Recent(scores, cutoff) + tail, now)
    ensures forall i :: 0 <= i < |Recent(scores, cutoff)| ==> Recent(scores, cutoff)[i] in scores
  {
    RecentIsSuffix(scores, cutoff);
  }

  lemma {:induction false} StayAlike(found: Bucket, hits: seq<int>, limit: RateLimit, now: int, next: int)
    requires limit.Valid() && limit.max >= 1 && 0 <= now <= next && Alike(found, hits, limit, now)
    ensures Alike(Script(found, limit, now).0, CheckHits(hits, limit, now).0, limit, next)
  {
    SameAnswer(found, hits, limit, now);
    ScriptLeaves(found, hits, limit, now);
    var kept := Recent(Scores(found), now - limit.WindowMs());
    LeftScores(Scores(found), if |kept| < limit.max then [now] else [], now - limit.WindowMs(), now);
    var b := Script(found, limit, now).0;
    if b.Key? && |kept| >= limit.max {
      assert kept + [] == kept;
      assert OutlivedBy(found.scores, limit, found.expireAt);
    }
  }

  lemma {:induction false} RunAlike(limit: RateLimit, calls: seq<int>, buckets: seq<Bucket>, found: seq<Bucket>, now: int)
    requires limit.Valid() && limit.max >= 1 && Sorted(calls + [now]) && now >= 0
    requires forall i :: 0 <= i < |calls| ==> calls[i] >= 0
    requires ScriptRun(limit, calls, buckets, found)
    ensures Alike(buckets[|calls|], After(limit, calls), limit, now)
  {
    if calls != [] {
      var n := |calls| - 1;
      var front, last := calls[..n], calls[n];
      SortedCalls(calls, now);
      assert front + [last] == calls;
      RunAlike(limit, front, buckets[..n + 1], found[..n], last);
      ExpiryLosesNothing(buckets[n], found[n], After(limit, front), limit, last);
      StayAlike(found[n], After(limit, front), limit, last, now);
    }
  }

  /** A run of the script up to a call at `now`, which finds the bucket `b`. */
  ghost predicate OneRun(limit: RateLimit, calls: seq<int>, buckets: seq<Bucket>, found: seq<Bucket>, now: int, b: Bucket) {
    && Sorted(calls + [now]) && now >= 0 && (forall i :: 0 <= i < |calls| ==> calls[i] >= 0)
    && ScriptRun(limit, calls, buckets, found) && Keeps(buckets[|calls|], b, now)
  }

  ghost predicate AgreeAlways(limit: RateLimit) {
    forall calls, buckets, found, now, b :: OneRun(limit, calls, buckets, found, now, b) ==>
      Script(b, limit, now).1 == Answered(limit, calls, now)
  }

  /**
  On every call of every run the script, whenever its key expires, answers as the in-memory log does,
  if and only if the limit lets at least one call through. A limit of zero denies both ways, but only
  the script then names a number of seconds.
  */
  lemma {:induction false} LimitersAgreeExactly(limit: RateLimit)
    requires limit.Valid()
    ensures AgreeAlways(limit) <==> limit.max >= 1
  {
    if limit.max >= 1 {
      forall calls, buckets, found, now, b | OneRun(limit, calls, buckets, found, now, b)
        ensures Script(b, limit, now).1 == Answered(limit, calls, now)
      {
        RunAlike(limit, calls, buckets, found, now);
        ExpiryLosesNothing(buckets[|calls|], b, After(limit, calls), limit, now);
        SameAnswer(b, After(limit, calls), limit, now);
      }
    } else {
      assert OneRun(limit, [], [NoKey], [], 0, NoKey);
      assert Script(NoKey, limit, 0).1 != Answered(limit, [], 0);
    }
  }
}
