/**
The ranges the usage reports are asked for, any two buckets in the API
(apps/control-plane/src/server/usage-query.ts) and a resolved range in the console
(apps/control-plane/src/lib/usage-range.ts), and what the reports say of the plain log of metering events.
*/
module UsageRange {
  import opened Text
  import opened Calendar
  import opened Metering
  import opened UsageReports

  datatype UsageRange = Last24h | Last7d | Last30d

  datatype Resolved = Resolved(startBucket: string, endBucket: string, days: seq<string>)

  function DayCount(range: UsageRange): nat {
    match range
    case Last24h => 1
    case Last7d => 7
    case Last30d => 30
  }

  function DayText(t: int): string {
    Take(PeriodBucket(t), 10)
  }

  /** The days of `count` instants a day apart, the last of them `now`. */
  function LastDays(now: int, count: nat): (days: seq<string>)
    ensures |days| == count
  {
    if count == 0 then [] else [DayText(now - (count - 1) * MS_PER_DAY)] + LastDays(now, count - 1)
  }

  function StartBucket(range: UsageRange, now: int): string {
    LastDays(now, DayCount(range))[0] + "T00"
  }

  lemma {:induction false} NextListed(days: seq<string>, now: int, i: nat)
    ensures days + LastDays(now, i + 1) == days + [DayText(now - i * MS_PER_DAY)] + LastDays(now, i)
  {
  }

  /** The loop of `resolveRange`. */
  method ListDays(now: int, count: nat) returns (days: seq<string>)
    ensures days == LastDays(now, count)
  {
    days := [];
    var i := count - 1;
    while i >= 0
      invariant -1 <= i < count
      invariant days + LastDays(now, i + 1) == LastDays(now, count)
    {
      NextListed(days, now, i);
      days := days + [DayText(now - i * MS_PER_DAY)];
      i := i - 1;
    }
  }

  method ResolveRange(range: UsageRange, now: int) returns (r: Resolved)
    ensures r.days == LastDays(now, DayCount(range))
    ensures r.startBucket == StartBucket(range, now) && r.endBucket == PeriodBucket(now)
  {
    var days := ListDays(now, DayCount(range));
    r := Resolved(days[0] + "T00", PeriodBucket(now), days);
  }

  /** The range starts at a midnight: as many days back as the range has, this one included. */
  function FirstMidnight(range: UsageRange, now: int): int {
    (DayOf(now) - (DayCount(range) - 1)) * MS_PER_DAY
  }

  function Spell(y: string, m: string, d: string, h: string): string {
    y + ("-" + (m + ("-" + (d + ("T" + (h + ""))))))
  }

  lemma {:induction false} DayAndHour(y: string, m: string, d: string, h: string)
    requires |y| == 4 && |m| == |d| == |h| == 2
    ensures Take(Spell(y, m, d, h), 10) + "T00" == Spell(y, m, d, "00")
  {
  }

  /** A date's first ten characters, whatever the hour, and midnight after them. */
  lemma {:induction false} DayPart(d: Date, h: nat)
    requires RealDate(d) && h < 24 && 1000 <= d.year <= 9999
    ensures Take(Spelled(d, h), 10) + "T00" == Spelled(d, 0)
  {
    RestIsFixed(d, h);
    RestIsFixed(d, 0);
    assert Pow10(4) == 10_000 && Pow10(3) == 1000;
    DecimalIsFixed(d.year, 4);
    Small(0);
    DayAndHour(Fixed(d.year, 4), Fixed(d.month, 2), Fixed(d.day, 2), Fixed(h, 2));
  }

  lemma {:induction false} MidnightParts(day: int)
    ensures DayOf(day * MS_PER_DAY) == day && HourOfDay(day * MS_PER_DAY) == 0
  {
  }

  lemma {:induction false} MidnightBucket(t: int, midnight: int)
    requires FourDigitYear(t) && midnight == DayOf(t) * MS_PER_DAY
    ensures FourDigitYear(midnight) && DayText(t) + "T00" == PeriodBucket(midnight)
  {
    FourDigitYears(t);
    MidnightParts(DayOf(t));
    FourDigitYears(midnight);
    BucketSpells(t, DateOf(DayOf(t)), HourOfDay(t));
    BucketSpells(midnight, DateOf(DayOf(t)), 0);
    DayPart(DateOf(DayOf(t)), HourOfDay(t));
  }

  /** The days back from `now`, as the last of `count` days ending today. */
  lemma {:induction false} DaysBack(now: int, i: nat)
    ensures DayOf(now - i * MS_PER_DAY) == DayOf(now) - i
  {
    assert now == DayOf(now) * MS_PER_DAY + now % MS_PER_DAY;
    assert now - i * MS_PER_DAY == (DayOf(now) - i) * MS_PER_DAY + now % MS_PER_DAY;
  }

  /** The hours from that of `from` to that of `to`. */
  predicate InHours(from: int, to: int, t: int) {
    from / MS_PER_HOUR <= t / MS_PER_HOUR <= to / MS_PER_HOUR
  }

  predicate InRange(range: UsageRange, now: int, t: int) {
    InHours(FirstMidnight(range, now), now, t)
  }

  /** The range lies in years whose buckets sort as time does. */
  predicate Plain(range: UsageRange, now: int) {
    FourDigitYear(now) && FourDigitYear(now - (DayCount(range) - 1) * MS_PER_DAY)
  }

  lemma {:induction false} FirstListed(now: int, n: nat)
    requires n >= 1
    ensures LastDays(now, n)[0] == DayText(now - (n - 1) * MS_PER_DAY)
  {
  }

  lemma {:induction false} FirstDay(range: UsageRange, now: int)
    ensures FirstMidnight(range, now) == DayOf(now - (DayCount(range) - 1) * MS_PER_DAY) * MS_PER_DAY
  {
    DaysBack(now, DayCount(range) - 1);
  }

  lemma {:induction false} StartsAtMidnight(range: UsageRange, now: int)
    requires Plain(range, now)
    ensures FourDigitYear(FirstMidnight(range, now)) && StartBucket(range, now) == PeriodBucket(FirstMidnight(range, now))
  {
    var first := now - (DayCount(range) - 1) * MS_PER_DAY;
    FirstListed(now, DayCount(range));
    FirstDay(range, now);
    MidnightBucket(first, FirstMidnight(range, now));
  }

  /** The buckets between a resolved range's ends are those of the hours from its first midnight to this one. */
  lemma {:induction false} RangeSelects(range: UsageRange, now: int, t: int)
    requires Plain(range, now) && FourDigitYear(t)
    ensures !Before(PeriodBucket(t), StartBucket(range, now)) && !Before(PeriodBucket(now), PeriodBucket(t))
       <==> InRange(range, now, t)
  {
    StartsAtMidnight(range, now);
    BucketsInOrder(t, FirstMidnight(range, now));
    BucketsInOrder(now, t);
  }

  lemma {:induction false} RangeDay(range: UsageRange, now: int, t: int)
    requires InRange(range, now, t)
    ensures 0 <= DayOf(now) - DayOf(t) < DayCount(range)
  {
    HoursAndDays(t);
    HoursAndDays(now);
    HoursAndDays(FirstMidnight(range, now));
    MidnightParts(DayOf(now) - (DayCount(range) - 1));
  }

  lemma {:induction false} ListedDay(now: int, n: nat, i: nat)
    requires i < n
    ensures DayText(now - i * MS_PER_DAY) in LastDays(now, n)
  {
    if i < n - 1 {
      ListedDay(now, n - 1, i);
    } else {
      assert LastDays(now, n)[0] == DayText(now - i * MS_PER_DAY);
    }
  }

  lemma {:induction false} SameDayPart(d: Date, g: nat, h: nat)
    requires RealDate(d) && g < 24 && h < 24 && 1000 <= d.year <= 9999
    ensures Take(Spelled(d, g), 10) == Take(Spelled(d, h), 10)
  {
    DayPart(d, g);
    DayPart(d, h);
    RestParts(d, g);
    RestParts(d, h);
    DecimalIsFixed(d.year, 4) by {
      assert Pow10(4) == 10_000 && Pow10(3) == 1000;
    }
    var a, b := Take(Spelled(d, g), 10), Take(Spelled(d, h), 10);
    assert a == (a + "T00")[..10] && b == (b + "T00")[..10];
  }

  lemma {:induction false} SameDayText(t: int, u: int)
    requires FourDigitYear(t) && ValidTime(u) && DayOf(t) == DayOf(u)
    ensures DayText(t) == DayText(u)
  {
    var d := DateOf(DayOf(t));
    FourDigitYears(t);
    BucketSpells(t, d, HourOfDay(t));
    BucketSpells(u, d, HourOfDay(u));
    SameDayPart(d, HourOfDay(t), HourOfDay(u));
  }

  lemma {:induction false} BetweenIsValid(now: int, n: nat, i: nat)
    requires i < n && FourDigitYear(now) && FourDigitYear(now - (n - 1) * MS_PER_DAY)
    ensures FourDigitYear(now - i * MS_PER_DAY)
  {
  }

  lemma {:induction false} DayIsListed(now: int, t: int, u: int, n: nat, i: nat)
    requires i < n && u == now - i * MS_PER_DAY && FourDigitYear(t) && FourDigitYear(u) && DayOf(u) == DayOf(t)
    ensures DayText(t) in LastDays(now, n)
  {
    ListedDay(now, n, i);
    SameDayText(t, u);
  }

  lemma {:induction false} DayIsBack(now: int, t: int, i: int)
    requires i == DayOf(now) - DayOf(t) && i >= 0
    ensures DayOf(now - i * MS_PER_DAY) == DayOf(t)
  {
    DaysBack(now, i);
  }

  /** Every selected hour falls on one of the days the report lists, so the series fits the axis. */
  lemma {:induction false} RangeDays(range: UsageRange, now: int, t: int)
    requires Plain(range, now) && FourDigitYear(t) && InRange(range, now, t)
    ensures DayText(t) in LastDays(now, DayCount(range))
  {
    RangeDay(range, now, t);
    var i := DayOf(now) - DayOf(t);
    BetweenIsValid(now, DayCount(range), i);
    DayIsBack(now, t, i);
    DayIsListed(now, t, now - i * MS_PER_DAY, DayCount(range), i);
  }

  // ---- Events of other years ----

  /** The query's comparison of a bucket with its two ends, the buckets of `from` and `to`. */
  predicate Chosen(from: int, to: int, t: int) {
    !Before(PeriodBucket(t), PeriodBucket(from)) && !Before(PeriodBucket(to), PeriodBucket(t))
  }

  /** `to` is in a later UTC year than `from`. */
  predicate CrossesNewYear(from: int, to: int) {
    DateOf(DayOf(from)).year < DateOf(DayOf(to)).year
  }

  lemma {:induction false} OutsideHours(from: int, to: int, t: int)
    requires FourDigitYear(from) && FourDigitYear(to) && InHours(from, to, t)
    ensures FourDigitYear(t)
  {
    var lo, hi := -30_610_224_000_000, 253_402_300_800_000;
    assert lo == (lo / MS_PER_HOUR) * MS_PER_HOUR && hi == (hi / MS_PER_HOUR) * MS_PER_HOUR;
    assert lo / MS_PER_HOUR <= from / MS_PER_HOUR && to / MS_PER_HOUR < hi / MS_PER_HOUR;
  }

  /** What sorts between two strings has their common beginning. */
  lemma {:induction false} PrefixBetween(p: string, a: string, b: string, v: string)
    requires p <= a && p <= b && !Before(v, a) && !Before(b, v)
    ensures p <= v
  {
    if p != "" {
      assert v != "" && v[0] == a[0] == b[0] == p[0];
      PrefixBetween(p[1..], a[1..], b[1..], v[1..]);
      assert p == [p[0]] + p[1..] && v == [v[0]] + v[1..];
    }
  }

  lemma {:induction false} YearIsFixed(d: Date, h: nat)
    requires RealDate(d) && h < 24 && 1000 <= d.year <= 9999
    ensures YearText(d.year) == Fixed(d.year, 4) && Spelled(d, h) == Fixed(d.year, 4) + Rest(d, h)
  {
    FourDigitText(d.year);
  }

  lemma {:induction false} SameYear(d: Date, h: nat, e: Date, g: nat)
    requires RealDate(d) && RealDate(e) && g < 24 && h < 24 && 1000 <= d.year <= 9999
    requires |Spelled(d, h)| >= 5 && Spelled(d, h)[..5] <= Spelled(e, g)
    ensures d.year == e.year
  {
    YearIsFixed(d, h);
    PrefixCompares(d, h, e, g, 1);
  }

  /** A bucket that begins with a four-digit year and its dash is a bucket of that year. */
  lemma {:induction false} YearFixed(d: Date, h: nat, t: int)
    requires RealDate(d) && h < 24 && 1000 <= d.year <= 9999
    requires |Spelled(d, h)| >= 5 && Spelled(d, h)[..5] <= PeriodBucket(t)
    ensures FourDigitYear(t)
  {
    YearIsFixed(d, h);
    assert Spelled(d, h)[..5][0] == Spelled(d, h)[0] == Fixed(d.year, 4)[0];
    if ValidTime(t) {
      var e, g := DateOf(DayOf(t)), HourOfDay(t);
      BucketSpells(t, e, g);
      SameYear(d, h, e, g);
      FourDigitYears(t);
    }
  }

  lemma {:induction false} SameYearHead(d: Date, g: nat, e: Date, h: nat)
    requires RealDate(d) && RealDate(e) && g < 24 && h < 24 && d.year == e.year && 1000 <= d.year <= 9999
    ensures |Spelled(d, g)| >= 5 && Spelled(d, g)[..5] <= Spelled(e, h)
  {
    assert Pow10(4) == 10_000 && Pow10(3) == 1000;
    DecimalIsFixed(d.year, 4);
    RestParts(d, g);
    RestParts(e, h);
    PrefixCompares(d, g, e, h, 1);
    assert Rest(d, g)[..1] == Rest(e, h)[..1] == "-";
  }

  /** The date and hour a four-digit bucket spells. */
  lemma {:induction false} Spells(t: int) returns (d: Date, h: nat)
    requires FourDigitYear(t)
    ensures d == DateOf(DayOf(t)) && RealDate(d) && h < 24 && 1000 <= d.year <= 9999
    ensures PeriodBucket(t) == Spelled(d, h)
  {
    d, h := DateOf(DayOf(t)), HourOfDay(t);
    FourDigitYears(t);
    BucketSpells(t, d, h);
  }

  lemma {:induction false} NotAfter(a: string, b: string)
    requires Before(a, b)
    ensures !Before(b, a)
  {
    if Before(b, a) {
      BeforeTransitive(a, b, a);
      BeforeIrreflexive(a);
    }
  }

  lemma {:induction false} Backwards(from: int, to: int)
    requires FourDigitYear(from) && FourDigitYear(to) && DateOf(DayOf(to)).year < DateOf(DayOf(from)).year
    ensures to / MS_PER_HOUR < from / MS_PER_HOUR
  {
    BucketsInOrder(to, from);
    HoursAndDays(to);
    HoursAndDays(from);
    if from / MS_PER_HOUR <= to / MS_PER_HOUR {
      assert DayOf(from) <= DayOf(to);
      DatesInOrder(DayOf(to), DayOf(from));
    }
  }

  lemma {:induction false} NothingBetween(a: string, b: string, v: string)
    requires Before(b, a)
    ensures Before(v, a) || Before(b, v)
  {
    if !Before(v, a) && !Before(b, v) {
      BeforeTotal(v, a);
      BeforeTotal(b, v);
      if v != a && v != b {
        BeforeTransitive(b, a, v);
      }
      BeforeIrreflexive(a);
    }
  }

  /** Unless they cross a new year, two ends choose nothing outside years 1000 to 9999. */
  lemma {:induction false} ChosenIsPlain(from: int, to: int, t: int)
    requires FourDigitYear(from) && FourDigitYear(to) && !CrossesNewYear(from, to) && Chosen(from, to, t)
    ensures FourDigitYear(t)
  {
    var a, g := Spells(from);
    var b, h := Spells(to);
    if a.year == b.year {
      SameYearHead(a, g, b, h);
      PrefixBetween(Spelled(a, g)[..5], Spelled(a, g), Spelled(b, h), PeriodBucket(t));
      YearFixed(a, g, t);
    } else {
      Backwards(from, to);
      BucketsInOrder(to, from);
      NothingBetween(PeriodBucket(from), PeriodBucket(to), PeriodBucket(t));
    }
  }

  /** The events two ends choose are those of the hours between them: all of them, or those of years 1000 to 9999. */
  lemma {:induction false} ChosenExactly(from: int, to: int, t: int)
    requires FourDigitYear(from) && FourDigitYear(to) && (!CrossesNewYear(from, to) || FourDigitYear(t))
    ensures Chosen(from, to, t) <==> InHours(from, to, t)
  {
    if FourDigitYear(t) {
      BucketsInOrder(t, from);
      BucketsInOrder(to, t);
    } else if Chosen(from, to, t) {
      ChosenIsPlain(from, to, t);
    } else if InHours(from, to, t) {
      OutsideHours(from, to, t);
    }
  }

  // ---- The reports as sums over the log ----

  /** The query's ends are the buckets of `from` and `to`. */
  predicate Asks(q: Query, from: int, to: int) {
    && FourDigitYear(from) && FourDigitYear(to)
    && q.startBucket == PeriodBucket(from) && q.endBucket == PeriodBucket(to)
  }

  /** Every query the API lets through asks for some two instants. */
  lemma {:induction false} QueryAsks(q: Query) returns (from: int, to: int)
    requires IsBucket(q.startBucket) && IsBucket(q.endBucket)
    ensures Asks(q, from, to)
  {
    IsBucketExactly(q.startBucket);
    IsBucketExactly(q.endBucket);
    from :| FourDigitYear(from) && PeriodBucket(from) == q.startBucket;
    to :| FourDigitYear(to) && PeriodBucket(to) == q.endBucket;
  }

  /** The console's query for a range asks for its first midnight and now. */
  lemma {:induction false} RangeAsks(q: Query, range: UsageRange, now: int)
    requires Plain(range, now) && q.startBucket == StartBucket(range, now) && q.endBucket == PeriodBucket(now)
    ensures Asks(q, FirstMidnight(range, now), now)
  {
    StartsAtMidnight(range, now);
  }

  predicate Passes(e: Event, q: Query) {
    e.orgId == q.orgId && (q.keyId == "" || e.keyId == q.keyId) && (q.paddockId == "" || e.paddockId == q.paddockId)
  }

  /** The events a report is about, from the log alone. */
  predicate Reported(e: Event, q: Query, from: int, to: int, dim: Dim) {
    Passes(e, q) && e.dim == dim && InHours(from, to, e.at)
  }

  predicate Shown(e: Event, q: Query, from: int, to: int, pair: Pair, dim: Dim) {
    Reported(e, q, from, to, dim) && e.keyId == pair.keyId && e.paddockId == pair.paddockId
  }

  /** The ends do not cross a new year, or the log holds no event outside years 1000 to 9999. */
  predicate Faithful(from: int, to: int, log: seq<Event>) {
    !CrossesNewYear(from, to) || forall i :: 0 <= i < |log| ==> FourDigitYear(log[i].at)
  }

  lemma {:induction false} SelectedParts(e: Event, q: Query, from: int, to: int)
    requires q.startBucket == PeriodBucket(from) && q.endBucket == PeriodBucket(to)
    ensures Selects(q, KeyOf(e)) <==> Passes(e, q) && Chosen(from, to, e.at)
  {
  }

  lemma {:induction false} SelectedIsReported(e: Event, q: Query, from: int, to: int, dim: Dim)
    requires Asks(q, from, to) && (!CrossesNewYear(from, to) || FourDigitYear(e.at))
    ensures Selects(q, KeyOf(e)) && e.dim == dim <==> Reported(e, q, from, to, dim)
  {
    SelectedParts(e, q, from, to);
    ChosenExactly(from, to, e.at);
  }

  /** After any batches, each entry of the matrix is the sum over the event log. */
  lemma {:induction false} MatrixIsTheLog(batches: seq<seq<Event>>, groups: seq<Group>, q: Query, from: int, to: int,
                                          pair: Pair, dim: Dim)
    requires Asks(q, from, to) && dim in DIMS && Faithful(from, to, Log(batches))
    requires Grouping(groups, ApplyAll(batches), q)
    ensures Well(Pivoted(groups))
    ensures Entry(Pivoted(groups), pair, dim) == LogSum(Log(batches), (e: Event) => Shown(e, q, from, to, pair, dim))
  {
    var p, log := CellOf(q, pair, dim), Log(batches);
    MatrixIsTheTable(groups, ApplyAll(batches), q, pair, dim);
    RollupRefinesLog(batches, p);
    forall i | 0 <= i < |log| ensures p(KeyOf(log[i])) == Shown(log[i], q, from, to, pair, dim) {
      SelectedIsReported(log[i], q, from, to, dim);
    }
    LogSumSame(log, e => p(KeyOf(e)), (e: Event) => Shown(e, q, from, to, pair, dim));
  }

  // ---- Across a new year ----

  lemma {:induction false} TenfoldText(y: int, ten: int)
    requires y >= 1 && ten == 10 * y
    ensures YearText(ten) == YearText(y) + "0"
  {
  }

  /** `10 * y` prints as `y` and a zero. */
  lemma {:induction false} SpelledTenfold(c: Date, y: int)
    requires RealDate(c) && 1000 <= y <= 9999 && c.year == 10 * y
    ensures |Fixed(y, 4)| == 4 && Spelled(c, 0) == Fixed(y, 4) + ("0" + Rest(c, 0))
  {
    FourDigitText(y);
    TenfoldText(y, c.year);
  }

  /** A year with a zero after it sorts after that year's buckets and before the next year's. */
  lemma {:induction false} TenfoldYear(a: Date, g: nat, b: Date, h: nat, c: Date)
    requires RealDate(a) && RealDate(b) && RealDate(c) && g < 24 && h < 24
    requires 1000 <= a.year < b.year <= 9999 && c.year == 10 * a.year
    ensures Before(Spelled(a, g), Spelled(c, 0)) && Before(Spelled(c, 0), Spelled(b, h))
  {
    assert Pow10(4) == 10_000 && Pow10(3) == 1000;
    DecimalIsFixed(a.year, 4);
    DecimalIsFixed(b.year, 4);
    FixedInOrder(a.year, b.year, 4);
    RestParts(a, g);
    SpelledTenfold(c, a.year);
    BeforeConcat(Fixed(a.year, 4), Rest(a, g), Fixed(a.year, 4), "0" + Rest(c, 0));
    BeforeConcat(Fixed(a.year, 4), "0" + Rest(c, 0), Fixed(b.year, 4), Rest(b, h));
  }

  lemma {:induction false} FarYear(a: Date) returns (t: int)
    requires 1000 <= a.year < 9999
    ensures ValidTime(t) && !FourDigitYear(t) && RealDate(Date(10 * a.year, 1, 1))
    ensures PeriodBucket(t) == Spelled(Date(10 * a.year, 1, 1), 0)
  {
    var c := Date(10 * a.year, 1, 1);
    InstantOf(c, 0);
    t := Instant(c, 0);
    FourDigitYears(t);
  }

  /** Two ends across a new year choose an instant of a year far off. */
  lemma {:induction false} FarYearChosen(from: int, to: int) returns (t: int)
    requires FourDigitYear(from) && FourDigitYear(to) && CrossesNewYear(from, to)
    ensures ValidTime(t) && !FourDigitYear(t) && Chosen(from, to, t) && !InHours(from, to, t)
  {
    var a, g := Spells(from);
    var b, h := Spells(to);
    t := FarYear(a);
    var c := Date(10 * a.year, 1, 1);
    TenfoldYear(a, g, b, h, c);
    NotAfter(Spelled(a, g), Spelled(c, 0));
    NotAfter(Spelled(c, 0), Spelled(b, h));
    if InHours(from, to, t) {
      OutsideHours(from, to, t);
    }
  }

  // ---- One far-off event ----

  lemma {:induction false} OneEventTable(e: Event)
    ensures ApplyAll([[e]]) == [Row(KeyOf(e), e.value)]
  {
    assert [[e]][..0] == [] && [e][..0] == [];
    assert ApplyAll([[e]][..0]) == [] && ApplyBatch([], [e][..0]) == [];
  }

  function AskFor(from: int, to: int): Query {
    Query("o", PeriodBucket(from), PeriodBucket(to), "", "")
  }

  function Far(t: int): Event {
    Event("o", "k", "p", "jobs", 1, t)
  }

  lemma {:induction false} FarSelected(from: int, to: int, t: int)
    requires Chosen(from, to, t)
    ensures Selects(AskFor(from, to), KeyOf(Far(t)))
  {
  }

  lemma {:induction false} FarGroups(from: int, to: int, t: int)
    requires Chosen(from, to, t)
    ensures Grouping([Group(Pair("k", "p"), "jobs", 1)], ApplyAll([[Far(t)]]), AskFor(from, to))
  {
    var e, q, pair := Far(t), AskFor(from, to), Pair("k", "p");
    FarSelected(from, to, t);
    OneEventTable(e);
    OneEventRollup(e, CellOf(q, pair, "jobs"));
    var table, groups := ApplyAll([[e]]), [Group(pair, "jobs", 1)];
    assert Selects(q, table[0].k) && InCell(table[0].k, pair, "jobs");
    assert HasCell(table, q, pair, "jobs");
    assert groups[0].pair == pair && groups[0].dim == "jobs";
    assert HasGroup(groups, pair, "jobs");
  }

  predicate Agrees(batches: seq<seq<Event>>, groups: seq<Group>, q: Query, from: int, to: int, pair: Pair, dim: Dim) {
    dim in DIMS && Well(Pivoted(groups)) &&
    Entry(Pivoted(groups), pair, dim) == LogSum(Log(batches), (e: Event) => Shown(e, q, from, to, pair, dim))
  }

  /** The matrix that these groups make, when the query and the table allow them, says of the cell what the log says. */
  ghost predicate CellExact(batches: seq<seq<Event>>, groups: seq<Group>, q: Query, from: int, to: int, pair: Pair, dim: Dim) {
    Asks(q, from, to) && Grouping(groups, ApplyAll(batches), q) && dim in DIMS ==>
      Agrees(batches, groups, q, from, to, pair, dim)
  }

  /** Every matrix between the two ends, whatever was metered, is what the log says. */
  ghost predicate MatrixExact(from: int, to: int) {
    forall batches, groups, q, pair, dim :: CellExact(batches, groups, q, from, to, pair, dim)
  }

  lemma {:induction false} OneYearIsExact(from: int, to: int)
    requires !CrossesNewYear(from, to)
    ensures MatrixExact(from, to)
  {
    forall batches, groups, q, pair, dim ensures CellExact(batches, groups, q, from, to, pair, dim) {
      if Asks(q, from, to) && Grouping(groups, ApplyAll(batches), q) && dim in DIMS {
        MatrixIsTheLog(batches, groups, q, from, to, pair, dim);
      }
    }
  }

  lemma {:induction false} FarEntry(from: int, to: int, t: int)
    requires Chosen(from, to, t)
    ensures var groups := [Group(Pair("k", "p"), "jobs", 1)];
      "jobs" in DIMS && Well(Pivoted(groups)) && Entry(Pivoted(groups), Pair("k", "p"), "jobs") == 1
  {
    var e, q, pair := Far(t), AskFor(from, to), Pair("k", "p");
    FarGroups(from, to, t);
    FarSelected(from, to, t);
    MatrixIsTheTable([Group(pair, "jobs", 1)], ApplyAll([[e]]), q, pair, "jobs");
    OneEventRollup(e, CellOf(q, pair, "jobs"));
  }

  lemma {:induction false} FarDisagrees(from: int, to: int, t: int)
    requires Chosen(from, to, t) && !InHours(from, to, t)
    ensures !Agrees([[Far(t)]], [Group(Pair("k", "p"), "jobs", 1)], AskFor(from, to), from, to, Pair("k", "p"), "jobs")
  {
    FarEntry(from, to, t);
    OneEventLog(Far(t), (f: Event) => Shown(f, AskFor(from, to), from, to, Pair("k", "p"), "jobs"));
  }

  lemma {:induction false} FarInexact(from: int, to: int, t: int)
    requires FourDigitYear(from) && FourDigitYear(to) && Chosen(from, to, t) && !InHours(from, to, t)
    ensures !CellExact([[Far(t)]], [Group(Pair("k", "p"), "jobs", 1)], AskFor(from, to), from, to, Pair("k", "p"), "jobs")
  {
    FarGroups(from, to, t);
    FarDisagrees(from, to, t);
    assert "jobs" in DIMS && Asks(AskFor(from, to), from, to);
  }

  lemma {:induction false} FarMiscounted(from: int, to: int, t: int)
    requires FourDigitYear(from) && FourDigitYear(to) && Chosen(from, to, t) && !InHours(from, to, t)
    ensures !MatrixExact(from, to)
  {
    FarInexact(from, to, t);
  }

  /** The matrix between two ends agrees with every log if and only if they do not cross a new year. */
  lemma {:induction false} MatrixExactly(from: int, to: int)
    requires FourDigitYear(from) && FourDigitYear(to)
    ensures MatrixExact(from, to) <==> !CrossesNewYear(from, to)
  {
    if CrossesNewYear(from, to) {
      var t := FarYearChosen(from, to);
      FarMiscounted(from, to, t);
    } else {
      OneYearIsExact(from, to);
    }
  }

  // ---- The daily series ----

  /** The value the series gives a day, zero when it has no point. */
  function PointAt(points: seq<DailyPoint>, day: string): int {
    if points == [] then 0 else if points[0].day == day then points[0].value else PointAt(points[1..], day)
  }

  lemma {:induction false} PointIs(points: seq<DailyPoint>, table: seq<Row>, q: Query, dim: Dim, day: string)
    requires forall i :: 0 <= i < |points| ==> points[i].value == DayTotal(table, q, dim, points[i].day)
    ensures PointAt(points, day) == DayTotal(table, q, dim, day) ||
      (PointAt(points, day) == 0 && forall i :: 0 <= i < |points| ==> points[i].day != day)
  {
    if points != [] && points[0].day != day {
      PointIs(points[1..], table, q, dim, day);
    }
  }

  lemma {:induction false} SeriesIsTheTable(points: seq<DailyPoint>, table: seq<Row>, q: Query, dim: Dim, day: string)
    requires Series(points, table, q, dim)
    ensures PointAt(points, day) == DayTotal(table, q, dim, day)
  {
    PointIs(points, table, q, dim, day);
    if forall i :: 0 <= i < |points| ==> points[i].day != day {
      SumNone(table, (k: RollupKey) => Selects(q, k) && k.dim == dim && DayIn(k) == day);
    }
  }

  lemma {:induction false} SameDayPartExactly(a: Date, g: nat, b: Date, h: nat)
    requires RealDate(a) && RealDate(b) && g < 24 && h < 24 && 1000 <= a.year <= 9999 && 1000 <= b.year <= 9999
    ensures Take(Spelled(a, g), 10) == Take(Spelled(b, h), 10) <==> a == b
  {
    if a == b {
      SameDayPart(a, g, h);
    }
    assert Pow10(4) == 10_000 && Pow10(3) == 1000;
    DecimalIsFixed(a.year, 4);
    DayCompares(a, g, b, h);
    assert Take(Spelled(b, h), 10) <= Spelled(b, h);
  }

  lemma {:induction false} SameDayTextExactly(t: int, u: int)
    requires FourDigitYear(t) && FourDigitYear(u)
    ensures DayText(t) == DayText(u) <==> DayOf(t) == DayOf(u)
  {
    FourDigitYears(t);
    FourDigitYears(u);
    BucketSpells(t, DateOf(DayOf(t)), HourOfDay(t));
    BucketSpells(u, DateOf(DayOf(u)), HourOfDay(u));
    SameDayPartExactly(DateOf(DayOf(t)), HourOfDay(t), DateOf(DayOf(u)), HourOfDay(u));
    SameDate(t, u);
  }

  /** Whatever begins like a day of a four-digit year is in that year. */
  lemma {:induction false} DayTextIsPlain(t: int, u: int)
    requires FourDigitYear(t) && DayText(u) == DayText(t)
    ensures FourDigitYear(u)
  {
    var d, h := Spells(t);
    SameYearHead(d, h, d, h);
    assert PeriodBucket(t)[..5] == DayText(t)[..5] == DayText(u)[..5] == PeriodBucket(u)[..5];
    YearFixed(d, h, u);
  }

  lemma {:induction false} DayIsReported(e: Event, q: Query, from: int, to: int, dim: Dim, t: int)
    requires Asks(q, from, to) && FourDigitYear(t)
    ensures Selects(q, KeyOf(e)) && e.dim == dim && DayIn(KeyOf(e)) == DayText(t) <==>
      Reported(e, q, from, to, dim) && DayOf(e.at) == DayOf(t)
  {
    assert DayIn(KeyOf(e)) == DayText(e.at);
    if DayText(e.at) == DayText(t) {
      DayTextIsPlain(t, e.at);
    }
    if Reported(e, q, from, to, dim) {
      OutsideHours(from, to, e.at);
    }
    if FourDigitYear(e.at) {
      SelectedIsReported(e, q, from, to, dim);
      SameDayTextExactly(e.at, t);
    }
  }

  /** After any batches, what the series says of a UTC day is the sum over that day's events, whatever else was metered. */
  lemma {:induction false} SeriesIsTheLog(batches: seq<seq<Event>>, points: seq<DailyPoint>, q: Query, from: int, to: int,
                                          dim: Dim, t: int)
    requires Asks(q, from, to) && FourDigitYear(t) && Series(points, ApplyAll(batches), q, dim)
    ensures PointAt(points, DayText(t)) ==
      LogSum(Log(batches), (e: Event) => Reported(e, q, from, to, dim) && DayOf(e.at) == DayOf(t))
  {
    var day, log := DayText(t), Log(batches);
    var p := (k: RollupKey) => Selects(q, k) && k.dim == dim && DayIn(k) == day;
    SeriesIsTheTable(points, ApplyAll(batches), q, dim, day);
    SumSame(ApplyAll(batches), (k: RollupKey) => Selects(q, k) && k.dim == dim && DayIn(k) == day, p);
    RollupRefinesLog(batches, p);
    forall i | 0 <= i < |log|
      ensures p(KeyOf(log[i])) == (Reported(log[i], q, from, to, dim) && DayOf(log[i].at) == DayOf(t))
    {
      DayIsReported(log[i], q, from, to, dim, t);
    }
    LogSumSame(log, e => p(KeyOf(e)), (e: Event) => Reported(e, q, from, to, dim) && DayOf(e.at) == DayOf(t));
  }

  lemma {:induction false} UpsertKeys(rows: seq<Row>, k: RollupKey, value: int, j: nat)
    requires j < |Upsert(rows, k, value)|
    ensures Upsert(rows, k, value)[j].k == k || exists i :: 0 <= i < |rows| && rows[i].k == Upsert(rows, k, value)[j].k
  {
    if rows != [] && rows[0].k != k && j > 0 {
      UpsertKeys(rows[1..], k, value, j - 1);
      if i :| 0 <= i < |rows[1..]| && rows[1..][i].k == Upsert(rows, k, value)[j].k {
        assert rows[i + 1] == rows[1..][i];
      }
    } else if rows != [] && rows[0].k == k && j > 0 {
      assert Upsert(rows, k, value)[j] == rows[j];
    }
  }

  predicate Metered(events: seq<Event>, k: RollupKey) {
    exists i :: 0 <= i < |events| && KeyOf(events[i]) == k
  }

  lemma {:induction false} BatchKeys(rows: seq<Row>, events: seq<Event>, log: seq<Event>)
    requires forall j :: 0 <= j < |rows| ==> Metered(log, rows[j].k)
    ensures forall j :: 0 <= j < |ApplyBatch(rows, events)| ==> Metered(log + events, ApplyBatch(rows, events)[j].k)
  {
    var n := |events| - 1;
    if events == [] {
      assert log + events == log;
    } else {
      var before, after := ApplyBatch(rows, events[..n]), ApplyBatch(rows, events);
      BatchKeys(rows, events[..n], log);
      var all := log + events;
      assert all[..|log| + n] == log + events[..n] && all[|log| + n] == events[n];
      forall j: nat | j < |after| ensures Metered(all, after[j].k) {
        UpsertKeys(before, KeyOf(events[n]), events[n].value, j);
        if i :| 0 <= i < |before| && before[i].k == after[j].k {
          var m :| 0 <= m < |log + events[..n]| && KeyOf((log + events[..n])[m]) == before[i].k;
          assert all[m] == (log + events[..n])[m];
        } else {
          assert KeyOf(all[|log| + n]) == after[j].k;
        }
      }
    }
  }

  /** Every row of the rollup comes from an event of the log. */
  lemma {:induction false} RowsAreMetered(batches: seq<seq<Event>>)
    ensures forall j :: 0 <= j < |ApplyAll(batches)| ==> Metered(Log(batches), ApplyAll(batches)[j].k)
  {
    if batches != [] {
      var n := |batches| - 1;
      RowsAreMetered(batches[..n]);
      BatchKeys(ApplyAll(batches[..n]), batches[n], Log(batches[..n]));
    }
  }

  lemma {:induction false} PointEvent(batches: seq<seq<Event>>, q: Query, dim: Dim, day: string) returns (e: Event, m: nat)
    requires HasDay(ApplyAll(batches), q, dim, day)
    ensures m < |Log(batches)| && Log(batches)[m] == e
    ensures Selects(q, KeyOf(e)) && e.dim == dim && DayIn(KeyOf(e)) == day
  {
    var table, log := ApplyAll(batches), Log(batches);
    RowsAreMetered(batches);
    var j :| 0 <= j < |table| && Selects(q, table[j].k) && table[j].k.dim == dim && DayIn(table[j].k) == day;
    m :| 0 <= m < |log| && KeyOf(log[m]) == table[j].k;
    e := log[m];
  }

  /** The day is that of one of the hours between the ends. */
  predicate DayWithin(from: int, to: int, day: string, t: int) {
    InHours(from, to, t) && day == DayText(t)
  }

  /** Each point of the series belongs to a day between the ends: that of an event in the log. */
  lemma {:induction false} PointWithin(batches: seq<seq<Event>>, points: seq<DailyPoint>, q: Query, from: int, to: int,
                                       dim: Dim, i: nat) returns (t: int)
    requires Asks(q, from, to) && Faithful(from, to, Log(batches))
    requires Series(points, ApplyAll(batches), q, dim) && i < |points|
    ensures DayWithin(from, to, points[i].day, t)
  {
    var e, m := PointEvent(batches, q, dim, points[i].day);
    SelectedIsReported(e, q, from, to, dim);
    t := e.at;
  }

  /** The series of a resolved range has points for its listed days only. */
  lemma {:induction false} SeriesDays(batches: seq<seq<Event>>, points: seq<DailyPoint>, q: Query, range: UsageRange,
                                      now: int, dim: Dim, i: nat)
    requires Plain(range, now) && Asks(q, FirstMidnight(range, now), now)
    requires Faithful(FirstMidnight(range, now), now, Log(batches))
    requires Series(points, ApplyAll(batches), q, dim) && i < |points|
    ensures points[i].day in LastDays(now, DayCount(range))
  {
    var t := PointWithin(batches, points, q, FirstMidnight(range, now), now, dim, i);
    OutsideHours(FirstMidnight(range, now), now, t);
    RangeDays(range, now, t);
  }

  ghost predicate IsDayWithin(from: int, to: int, day: string) {
    exists t :: DayWithin(from, to, day, t)
  }

  ghost predicate OnDays(points: seq<DailyPoint>, from: int, to: int) {
    forall i :: 0 <= i < |points| ==> IsDayWithin(from, to, points[i].day)
  }

  /** Every series between the two ends, whatever was metered, has points for days between them only. */
  ghost predicate SeriesExact(from: int, to: int) {
    forall batches, points, q, dim | Asks(q, from, to) && Series(points, ApplyAll(batches), q, dim) ::
      OnDays(points, from, to)
  }

  /** A far-off event has a point of its own, on a day that is none. */
  lemma {:induction false} FarSeries(from: int, to: int, t: int)
    requires Chosen(from, to, t)
    ensures Series([DailyPoint(DayText(t), 1)], ApplyAll([[Far(t)]]), AskFor(from, to), "jobs")
  {
    var e, q, day := Far(t), AskFor(from, to), DayText(t);
    FarSelected(from, to, t);
    OneEventTable(e);
    OneEventRollup(e, (k: RollupKey) => Selects(q, k) && k.dim == "jobs" && DayIn(k) == day);
    var table, points := ApplyAll([[e]]), [DailyPoint(day, 1)];
    assert Selects(q, table[0].k) && DayIn(table[0].k) == day;
    assert points[0].day == DayIn(table[0].k);
    assert HasDay(table, q, "jobs", day);
  }

  lemma {:induction false} FarOffDays(from: int, to: int, t: int)
    requires FourDigitYear(from) && FourDigitYear(to) && !FourDigitYear(t)
    ensures !OnDays([DailyPoint(DayText(t), 1)], from, to)
  {
    var points := [DailyPoint(DayText(t), 1)];
    if OnDays(points, from, to) {
      assert IsDayWithin(from, to, points[0].day);
      var u :| DayWithin(from, to, points[0].day, u);
      OutsideHours(from, to, u);
      DayTextIsPlain(u, t);
    }
  }

  lemma {:induction false} KeepsToDays(batches: seq<seq<Event>>, points: seq<DailyPoint>, q: Query, from: int, to: int, dim: Dim)
    requires Asks(q, from, to) && !CrossesNewYear(from, to) && Series(points, ApplyAll(batches), q, dim)
    ensures OnDays(points, from, to)
  {
    assert Faithful(from, to, Log(batches));
    forall i | 0 <= i < |points| ensures IsDayWithin(from, to, points[i].day) {
      var t := PointWithin(batches, points, q, from, to, dim, i);
    }
  }

  lemma {:induction false} FarSeriesBreaks(from: int, to: int, t: int)
    requires FourDigitYear(from) && FourDigitYear(to) && Chosen(from, to, t) && !FourDigitYear(t)
    ensures !SeriesExact(from, to)
  {
    FarSeries(from, to, t);
    FarOffDays(from, to, t);
    assert Asks(AskFor(from, to), from, to);
  }

  /** The series between two ends keeps to their days, for every log, if and only if they do not cross a new year. */
  lemma {:induction false} SeriesExactly(from: int, to: int)
    requires FourDigitYear(from) && FourDigitYear(to)
    ensures SeriesExact(from, to) <==> !CrossesNewYear(from, to)
  {
    if CrossesNewYear(from, to) {
      var t := FarYearChosen(from, to);
      FarSeriesBreaks(from, to, t);
    } else {
      forall batches, points, q, dim | Asks(q, from, to) && Series(points, ApplyAll(batches), q, dim)
        ensures OnDays(points, from, to)
      {
        KeepsToDays(batches, points, q, from, to, dim);
      }
    }
  }
}
