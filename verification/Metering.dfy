/**
Usage metering: the worker's incremental rollup (apps/worker/src/aggregator.ts) and the quota reader
(apps/data-plane/src/meter/usage-reader.ts), against the plain log of metering events.
*/
module Metering {
  import opened Text
  import opened Calendar

  type Id = string
  type Dim = string

  /** METER_DIMS */
  const DIMS: set<Dim> := {"tokens_in", "tokens_out", "jobs", "gpu_ms", "images"}

  datatype Event = Event(orgId: Id, keyId: Id, paddockId: Id, dim: Dim, value: int, at: int)

  /** The columns of the unique index `usage_rollup_key`. */
  datatype RollupKey = RollupKey(orgId: Id, keyId: Id, paddockId: Id, period: string, dim: Dim)

  datatype Row = Row(k: RollupKey, value: int)

  function KeyOf(e: Event): RollupKey {
    RollupKey(e.orgId, e.keyId, e.paddockId, PeriodBucket(e.at), e.dim)
  }

  /** `INSERT ... ON CONFLICT DO UPDATE SET value = value + excluded`. */
  function Upsert(rows: seq<Row>, k: RollupKey, value: int): seq<Row> {
    if rows == [] then [Row(k, value)]
    else if rows[0].k == k then [Row(k, rows[0].value + value)] + rows[1..]
    else [rows[0]] + Upsert(rows[1..], k, value)
  }

  function ApplyBatch(rows: seq<Row>, events: seq<Event>): seq<Row> {
    if events == [] then rows
    else
      var last := events[|events| - 1];
      Upsert(ApplyBatch(rows, events[..|events| - 1]), KeyOf(last), last.value)
  }

  class RollupTable {
    var rows: seq<Row>

    constructor ()
      ensures rows == []
    {
      rows := [];
    }

    /** One transaction of the worker: the events of a batch, added one by one. */
    method ApplyEvents(events: seq<Event>)
      modifies this
      ensures rows == ApplyBatch(old(rows), events)
    {
      for i := 0 to |events|
        invariant rows == ApplyBatch(old(rows), events[..i])
      {
        assert events[..i + 1][..i] == events[..i];
        rows := Upsert(rows, KeyOf(events[i]), events[i].value);
      }
      assert events[..|events|] == events;
    }
  }

  function ApplyAll(batches: seq<seq<Event>>): seq<Row> {
    if batches == [] then [] else ApplyBatch(ApplyAll(batches[..|batches| - 1]), batches[|batches| - 1])
  }

  function Log(batches: seq<seq<Event>>): seq<Event> {
    if batches == [] then [] else Log(batches[..|batches| - 1]) + batches[|batches| - 1]
  }

  // ---- Sums ----

  function Sum(rows: seq<Row>, p: RollupKey -> bool): int {
    if rows == [] then 0 else (if p(rows[0].k) then rows[0].value else 0) + Sum(rows[1..], p)
  }

  function LogSum(log: seq<Event>, p: Event -> bool): int {
    if log == [] then 0
    else LogSum(log[..|log| - 1], p) + if p(log[|log| - 1]) then log[|log| - 1].value else 0
  }

  lemma {:induction false} SumUpsert(rows: seq<Row>, k: RollupKey, value: int, p: RollupKey -> bool)
    ensures Sum(Upsert(rows, k, value), p) == Sum(rows, p) + if p(k) then value else 0
  {
    if rows != [] {
      var up := Upsert(rows, k, value);
      if rows[0].k == k {
        assert up[1..] == rows[1..];
      } else {
        assert up[1..] == Upsert(rows[1..], k, value);
        SumUpsert(rows[1..], k, value, p);
      }
    } else {
      assert [Row(k, value)][1..] == [];
    }
  }

  lemma {:induction false} SumBatch(rows: seq<Row>, events: seq<Event>, p: RollupKey -> bool)
    ensures Sum(ApplyBatch(rows, events), p) == Sum(rows, p) + LogSum(events, e => p(KeyOf(e)))
  {
    if events != [] {
      var last := events[|events| - 1];
      SumBatch(rows, events[..|events| - 1], p);
      SumUpsert(ApplyBatch(rows, events[..|events| - 1]), KeyOf(last), last.value, p);
    }
  }

  lemma {:induction false} LogSumConcat(a: seq<Event>, b: seq<Event>, p: Event -> bool)
    ensures LogSum(a + b, p) == LogSum(a, p) + LogSum(b, p)
  {
    if b == [] {
      assert a + b == a;
    } else {
      assert (a + b)[..|a + b| - 1] == a + b[..|b| - 1];
      LogSumConcat(a, b[..|b| - 1], p);
    }
  }

  /** Any sum over the rollup's columns is the sum over the events that fall under them. */
  lemma {:induction false} RollupRefinesLog(batches: seq<seq<Event>>, p: RollupKey -> bool)
    ensures Sum(ApplyAll(batches), p) == LogSum(Log(batches), e => p(KeyOf(e)))
  {
    if batches != [] {
      var front, last := batches[..|batches| - 1], batches[|batches| - 1];
      RollupRefinesLog(front, p);
      SumBatch(ApplyAll(front), last, p);
      LogSumConcat(Log(front), last, e => p(KeyOf(e)));
    }
  }

  lemma {:induction false} LogSumSame(log: seq<Event>, p: Event -> bool, q: Event -> bool)
    requires forall i :: 0 <= i < |log| ==> p(log[i]) == q(log[i])
    ensures LogSum(log, p) == LogSum(log, q)
  {
    if log != [] {
      LogSumSame(log[..|log| - 1], p, q);
    }
  }

  // ---- The quota reader ----

  function PeriodUsage(rows: seq<Row>, keyId: Id, paddockId: Id, dim: Dim, win: Window, at: int): int {
    var prefix := PeriodPrefix(win, at);
    Sum(rows, (k: RollupKey) => k.keyId == keyId && k.paddockId == paddockId && k.dim == dim && prefix <= k.period)
  }

  /** What the reader is for: the events of the key, paddock and dimension in the window around `at`. */
  predicate Counts(e: Event, keyId: Id, paddockId: Id, dim: Dim, win: Window, at: int) {
    e.keyId == keyId && e.paddockId == paddockId && e.dim == dim && ValidTime(e.at) && SamePeriod(win, at, e.at)
  }

  function LogUsage(log: seq<Event>, keyId: Id, paddockId: Id, dim: Dim, win: Window, at: int): int {
    LogSum(log, (e: Event) => Counts(e, keyId, paddockId, dim, win, at))
  }

  /** An event at an invalid time lands in a bucket no valid window selects. */
  lemma {:induction false} NoPrefixOfNaN(win: Window, t: int, u: int)
    requires ValidTime(t) && !ValidTime(u)
    ensures !(PeriodPrefix(win, t) <= PeriodBucket(u))
  {
    MakeDayOfDate(DayOf(t));
    YearTextShape(DateOf(DayOf(t)).year);
    DecimalChars(if DateOf(DayOf(t)).year < 0 then -DateOf(DayOf(t)).year else DateOf(DayOf(t)).year);
    RestParts(DateOf(DayOf(t)), HourOfDay(t));
    assert PeriodPrefix(win, t)[0] == YearText(DateOf(DayOf(t)).year)[0];
    assert PeriodBucket(u)[0] == 'N';
  }

  /** After any sequence of batches the reader's answer is the sum over the event log. */
  lemma {:induction false} UsageIsTheLog(batches: seq<seq<Event>>, keyId: Id, paddockId: Id, dim: Dim, win: Window, at: int)
    requires ValidTime(at) && Readable(win, DateOf(DayOf(at)).year)
    ensures PeriodUsage(ApplyAll(batches), keyId, paddockId, dim, win, at)
         == LogUsage(Log(batches), keyId, paddockId, dim, win, at)
  {
    var prefix := PeriodPrefix(win, at);
    var p := (k: RollupKey) => k.keyId == keyId && k.paddockId == paddockId && k.dim == dim && prefix <= k.period;
    RollupRefinesLog(batches, p);
    var log := Log(batches);
    forall i | 0 <= i < |log| ensures p(KeyOf(log[i])) == Counts(log[i], keyId, paddockId, dim, win, at) {
      if ValidTime(log[i].at) {
        ReadableIsExact(win, at, log[i].at);
      } else {
        NoPrefixOfNaN(win, at, log[i].at);
      }
    }
    LogSumSame(log, e => p(KeyOf(e)), e => Counts(e, keyId, paddockId, dim, win, at));
  }

  lemma {:induction false} OneEventLog(e: Event, p: Event -> bool)
    ensures LogSum(Log([[e]]), p) == if p(e) then e.value else 0
  {
    assert [[e]][..0] == [] && Log([[e]]) == [e];
    assert [e][..0] == [];
  }

  lemma {:induction false} OneEventRollup(e: Event, p: RollupKey -> bool)
    ensures Sum(ApplyAll([[e]]), p) == if p(KeyOf(e)) then e.value else 0
  {
    RollupRefinesLog([[e]], p);
    OneEventLog(e, f => p(KeyOf(f)));
  }

  /** The reader and the log on a single event: they agree just when the prefix is right about it. */
  lemma {:induction false} OneEventCounted(e: Event, win: Window, at: int)
    requires ValidTime(at) && ValidTime(e.at)
    ensures PeriodUsage(ApplyAll([[e]]), e.keyId, e.paddockId, e.dim, win, at)
         == if PeriodPrefix(win, at) <= PeriodBucket(e.at) then e.value else 0
    ensures LogUsage(Log([[e]]), e.keyId, e.paddockId, e.dim, win, at)
         == if SamePeriod(win, at, e.at) then e.value else 0
  {
    var prefix := PeriodPrefix(win, at);
    OneEventRollup(e, (k: RollupKey) =>
      k.keyId == e.keyId && k.paddockId == e.paddockId && k.dim == e.dim && prefix <= k.period);
    OneEventLog(e, (f: Event) => Counts(f, e.keyId, e.paddockId, e.dim, win, at));
  }

  /** For any other year one event is enough to be miscounted. */
  lemma {:induction false} OtherYearsMiscount(win: Window, y: int) returns (e: Event, at: int)
    requires DateYear(y) && !Readable(win, y)
    ensures ValidTime(at) && ValidTime(e.at) && DateOf(DayOf(at)).year == y
    ensures PeriodUsage(ApplyAll([[e]]), e.keyId, e.paddockId, e.dim, win, at)
         != LogUsage(Log([[e]]), e.keyId, e.paddockId, e.dim, win, at)
  {
    var t, u := UnreadableMisselects(win, y);
    at, e := t, Event("o", "k", "p", "jobs", 1, u);
    OneEventCounted(e, win, at);
  }

  /** Whatever was metered, the reader asked in year `y` answers what the log says. */
  ghost predicate ReaderExact(win: Window, y: int) {
    forall batches, keyId, paddockId, dim, at :: ValidTime(at) && DateOf(DayOf(at)).year == y ==>
      PeriodUsage(ApplyAll(batches), keyId, paddockId, dim, win, at) == LogUsage(Log(batches), keyId, paddockId, dim, win, at)
  }

  /** The reader is exact for an hour window, and for a day or month in a year of three or four characters only. */
  lemma {:induction false} ReaderExactly(win: Window, y: int)
    ensures ReaderExact(win, y) <==> Readable(win, y) || !DateYear(y)
  {
    if Readable(win, y) || !DateYear(y) {
      forall batches, keyId, paddockId, dim, at | ValidTime(at) && DateOf(DayOf(at)).year == y
        ensures PeriodUsage(ApplyAll(batches), keyId, paddockId, dim, win, at)
             == LogUsage(Log(batches), keyId, paddockId, dim, win, at)
      {
        ReachedYears(at);
        UsageIsTheLog(batches, keyId, paddockId, dim, win, at);
      }
    } else {
      var e, at := OtherYearsMiscount(win, y);
    }
  }
}
