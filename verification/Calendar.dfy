/**
UTC hour buckets (packages/schema/src/period.ts) and their recogniser
(apps/control-plane/src/lib/usage-range.ts), over the proleptic Gregorian calendar of section 21.4.1
of ECMA-262.
*/
module Calendar {
  import opened Text

  const MS_PER_HOUR := 3_600_000
  const MS_PER_DAY := 86_400_000

  /** The largest instant a Date can hold (TimeClip). */
  const MAX_TIME := 8_640_000_000_000_000

  predicate ValidTime(t: int) {
    -MAX_TIME <= t <= MAX_TIME
  }

  // ---- The calendar ----

  predicate Leap(y: int) {
    y % 4 == 0 && (y % 100 != 0 || y % 400 == 0)
  }

  function DaysInYear(y: int): int {
    if Leap(y) then 366 else 365
  }

  /** DayFromYear: days from 1970-01-01 to the first of January of year `y`. */
  function DayFromYear(y: int): int {
    365 * (y - 1970) + (y - 1969) / 4 - (y - 1901) / 100 + (y - 1601) / 400
  }

  /** The three terms of DayFromYear each step once per period. */
  lemma {:induction false} Fours(y: int)
    ensures (y + 1 - 1969) / 4 - (y - 1969) / 4 == if y % 4 == 0 then 1 else 0
  {
  }

  lemma {:induction false} Hundreds(y: int)
    ensures (y + 1 - 1901) / 100 - (y - 1901) / 100 == if y % 100 == 0 then 1 else 0
  {
  }

  lemma {:induction false} FourHundreds(y: int)
    ensures (y + 1 - 1601) / 400 - (y - 1601) / 400 == if y % 400 == 0 then 1 else 0
  {
  }

  lemma {:induction false} Hundredfold(k: int)
    ensures (100 * k) % 100 == 0
  {
  }

  lemma {:induction false} Fourfold(k: int)
    ensures (4 * k) % 4 == 0
  {
  }

  lemma {:induction false} Multiples(y: int)
    ensures y % 400 == 0 ==> y % 100 == 0
    ensures y % 100 == 0 ==> y % 4 == 0
  {
    var q, c := y / 400, y / 100;
    Hundredfold(4 * q);
    Fourfold(25 * c);
    assert y == 400 * q + y % 400 && y == 100 * c + y % 100;
  }

  lemma {:induction false} YearLength(y: int)
    ensures DayFromYear(y + 1) - DayFromYear(y) == DaysInYear(y)
  {
    Fours(y);
    Hundreds(y);
    FourHundreds(y);
    Multiples(y);
  }

  lemma {:induction false} YearsIncrease(x: int, y: int)
    requires x < y
    ensures DayFromYear(x) + 365 <= DayFromYear(y)
    decreases y - x
  {
    YearLength(y - 1);
    if x < y - 1 { YearsIncrease(x, y - 1); }
  }

  /** YearFromTime: the largest year that starts no later than `day`. */
  function YearOf(day: int): (y: int)
    ensures DayFromYear(y) <= day < DayFromYear(y + 1)
  {
    var guess := 1970 + (400 * day) / 146_097;
    if DayFromYear(guess) > day then guess - 1
    else if DayFromYear(guess + 1) <= day then guess + 1
    else guess
  }

  /** Days before month `m` (0 for January) of a year; 12 gives the whole year. */
  function DaysBefore(leap: bool, m: nat): nat
    requires m <= 12
  {
    var d := [0, 31, 59, 90, 120, 151, 181, 212, 243, 273, 304, 334, 365][m];
    if leap && m >= 2 then d + 1 else d
  }

  function MonthFrom(leap: bool, dayInYear: nat, m: nat): (r: nat)
    requires m < 12 && DaysBefore(leap, m) <= dayInYear < DaysBefore(leap, 12)
    ensures m <= r < 12 && DaysBefore(leap, r) <= dayInYear < DaysBefore(leap, r + 1)
    decreases 12 - m
  {
    if m == 11 || dayInYear < DaysBefore(leap, m + 1) then m else MonthFrom(leap, dayInYear, m + 1)
  }

  lemma {:induction false} MonthsInOrder(leap: bool, m: nat, n: nat)
    requires m < n <= 12
    ensures DaysBefore(leap, m + 1) <= DaysBefore(leap, n)
  {
  }

  /** A calendar date, with month 1..12 and day from 1. */
  datatype Date = Date(year: int, month: int, day: int)

  function DaysInMonth(y: int, month: int): int
    requires 1 <= month <= 12
  {
    DaysBefore(Leap(y), month) - DaysBefore(Leap(y), month - 1)
  }

  predicate RealDate(d: Date) {
    1 <= d.month <= 12 && 1 <= d.day <= DaysInMonth(d.year, d.month)
  }

  function DateIn(y: int, inYear: nat): Date
    requires inYear < DaysBefore(Leap(y), 12)
  {
    var m := MonthFrom(Leap(y), inYear, 0);
    Date(y, m + 1, inYear - DaysBefore(Leap(y), m) + 1)
  }

  function DateOf(day: int): Date {
    YearLength(YearOf(day));
    DateIn(YearOf(day), day - DayFromYear(YearOf(day)))
  }

  /** MakeDay: a month out of range carries into the year, a day out of range into the month. */
  function MakeDay(d: Date): int {
    var ym := d.year + (d.month - 1) / 12;
    var mn := (d.month - 1) % 12;
    DayFromYear(ym) + DaysBefore(Leap(ym), mn) + d.day - 1
  }

  /** The day a real date is, counted within its year. */
  function DayInYear(d: Date): int
    requires RealDate(d)
  {
    DaysBefore(Leap(d.year), d.month - 1) + d.day - 1
  }

  lemma {:induction false} MakeDayReal(d: Date)
    requires RealDate(d)
    ensures MakeDay(d) == DayFromYear(d.year) + DayInYear(d)
  {
    assert (d.month - 1) / 12 == 0 && (d.month - 1) % 12 == d.month - 1;
  }

  lemma {:induction false} DayInYearBounds(d: Date)
    requires RealDate(d)
    ensures DaysBefore(Leap(d.year), d.month - 1) <= DayInYear(d) < DaysBefore(Leap(d.year), d.month)
    ensures 0 <= DayInYear(d) < DaysInYear(d.year) == DaysBefore(Leap(d.year), 12)
  {
    if d.month < 12 { MonthsInOrder(Leap(d.year), d.month, 12); }
    if d.month > 1 { MonthsInOrder(Leap(d.year), 0, d.month - 1); }
  }

  lemma {:induction false} MakeDayOfDate(day: int)
    ensures RealDate(DateOf(day)) && MakeDay(DateOf(day)) == day
  {
    MakeDayReal(DateOf(day));
  }

  // ---- Dates are ordered as their days are ----

  predicate DateBefore(a: Date, b: Date) {
    a.year < b.year || (a.year == b.year && (a.month < b.month || (a.month == b.month && a.day < b.day)))
  }

  lemma {:induction false} LaterInYear(a: Date, b: Date)
    requires RealDate(a) && RealDate(b) && a.year == b.year && DateBefore(a, b)
    ensures DayInYear(a) < DayInYear(b)
  {
    DayInYearBounds(a);
    DayInYearBounds(b);
    if a.month < b.month - 1 {
      MonthsInOrder(Leap(a.year), a.month - 1, b.month - 1);
    }
  }

  lemma {:induction false} LaterYearLaterDay(a: Date, b: Date)
    requires RealDate(a) && RealDate(b) && a.year < b.year
    ensures DayFromYear(a.year) + DayInYear(a) < DayFromYear(b.year) + DayInYear(b)
  {
    DayInYearBounds(a);
    DayInYearBounds(b);
    YearLength(a.year);
    if a.year + 1 < b.year { YearsIncrease(a.year + 1, b.year); }
  }

  lemma {:induction false} LaterDateLaterDay(a: Date, b: Date)
    requires RealDate(a) && RealDate(b) && DateBefore(a, b)
    ensures MakeDay(a) < MakeDay(b)
  {
    MakeDayReal(a);
    MakeDayReal(b);
    if a.year < b.year {
      LaterYearLaterDay(a, b);
    } else {
      LaterInYear(a, b);
    }
  }

  lemma {:induction false} SameDaySameDate(a: Date, b: Date)
    requires RealDate(a) && RealDate(b) && MakeDay(a) == MakeDay(b)
    ensures a == b
  {
    if DateBefore(a, b) {
      LaterDateLaterDay(a, b);
    } else if DateBefore(b, a) {
      LaterDateLaterDay(b, a);
    }
  }

  lemma {:induction false} DateOfMakeDay(d: Date)
    requires RealDate(d)
    ensures DateOf(MakeDay(d)) == d
  {
    MakeDayOfDate(MakeDay(d));
    SameDaySameDate(DateOf(MakeDay(d)), d);
  }

  lemma {:induction false} DatesInOrder(x: int, y: int)
    ensures x < y <==> DateBefore(DateOf(x), DateOf(y))
  {
    MakeDayOfDate(x);
    MakeDayOfDate(y);
    if DateBefore(DateOf(x), DateOf(y)) {
      LaterDateLaterDay(DateOf(x), DateOf(y));
    } else if DateBefore(DateOf(y), DateOf(x)) {
      LaterDateLaterDay(DateOf(y), DateOf(x));
    }
  }

  // ---- Buckets ----

  /** `String(n).padStart(2, '0')`. */
  function Pad(n: nat): string {
    if |Decimal(n)| < 2 then "0" + Decimal(n) else Decimal(n)
  }

  function YearText(y: int): string {
    if y < 0 then "-" + Decimal(-y) else Decimal(y)
  }

  function HourOfDay(t: int): nat {
    (t / MS_PER_HOUR) % 24
  }

  function DayOf(t: int): int {
    t / MS_PER_DAY
  }

  function Rest(d: Date, hour: nat): string
    requires RealDate(d)
  {
    "-" + (Pad(d.month) + ("-" + (Pad(d.day) + ("T" + (Pad(hour) + "")))))
  }

  function PeriodBucket(t: int): string {
    if !ValidTime(t) then "NaN-NaN-NaNTNaN"
    else
      MakeDayOfDate(DayOf(t));
      YearText(DateOf(DayOf(t)).year) + Rest(DateOf(DayOf(t)), HourOfDay(t))
  }

  datatype Window = HourWindow | DayWindow | MonthWindow

  function Take(s: string, n: nat): string {
    if n < |s| then s[..n] else s
  }

  function PeriodPrefix(win: Window, t: int): string {
    match win
    case HourWindow => PeriodBucket(t)
    case DayWindow => Take(PeriodBucket(t), 10)
    case MonthWindow => Take(PeriodBucket(t), 7)
  }

  /** `Date.UTC(year, month - 1, day, hour)`: fields out of range carry over, and years 0-99 mean 1900-1999. */
  function DateUTC(d: Date, hour: int): int {
    var y := if 0 <= d.year <= 99 then 1900 + d.year else d.year;
    MakeDay(Date(y, d.month, d.day)) * MS_PER_DAY + hour * MS_PER_HOUR
  }

  predicate Digits(s: string) {
    forall i :: 0 <= i < |s| ==> '0' <= s[i] <= '9'
  }

  /** `/^(\d{4})-(\d{2})-(\d{2})T(\d{2})$/` */
  predicate BucketShape(v: string) {
    && |v| == 13 && v[4] == '-' && v[7] == '-' && v[10] == 'T'
    && Digits(v[0..4]) && Digits(v[5..7]) && Digits(v[8..10]) && Digits(v[11..13])
  }

  /** The instant the fields of a bucket name. */
  function Reread(v: string): int
    requires BucketShape(v)
  {
    DateUTC(Date(Number(v[0..4]), Number(v[5..7]), Number(v[8..10])), Number(v[11..13]))
  }

  function IsBucket(v: string): bool {
    BucketShape(v) && PeriodBucket(Reread(v)) == v
  }

  // ---- Order ----

  /** Instants of years 1000 to 9999, whose bucket is 13 characters of fixed layout. */
  predicate FourDigitYear(t: int) {
    -30_610_224_000_000 <= t < 253_402_300_800_000
  }

  lemma {:induction false} YearAtLeast(day: int, y: int)
    ensures YearOf(day) >= y <==> DayFromYear(y) <= day
  {
    if y < YearOf(day) {
      YearsIncrease(y, YearOf(day));
    } else if YearOf(day) + 1 < y {
      YearsIncrease(YearOf(day) + 1, y);
    }
  }

  lemma {:induction false} SinceNewYear(t: int, day: int)
    ensures day <= DayOf(t) <==> day * MS_PER_DAY <= t
  {
    assert t == DayOf(t) * MS_PER_DAY + t % MS_PER_DAY;
  }

  lemma {:induction false} FourDigitYears(t: int)
    ensures FourDigitYear(t) <==> ValidTime(t) && 1000 <= DateOf(DayOf(t)).year <= 9999
  {
    assert DayFromYear(1000) == -354_285 && DayFromYear(10_000) == 2_932_897;
    YearAtLeast(DayOf(t), 1000);
    YearAtLeast(DayOf(t), 10_000);
    SinceNewYear(t, -354_285);
    SinceNewYear(t, 2_932_897);
  }

  lemma {:induction false} PadIsFixed(n: nat)
    requires n < 100
    ensures Pad(n) == Fixed(n, 2)
  {
    assert Pow10(1) == 10 && Pow10(2) == 100;
    if n < 10 {
      DecimalIsFixed(n, 1);
      assert Fixed(n, 2) == Fixed(0, 1) + [Digit(n)];
      assert Fixed(0, 1) == Fixed(0, 0) + [Digit(0)];
    } else {
      DecimalIsFixed(n, 2);
    }
  }

  lemma {:induction false} RestIsFixed(d: Date, hour: nat)
    requires RealDate(d) && hour < 24
    ensures Rest(d, hour) == "-" + (Fixed(d.month, 2) + ("-" + (Fixed(d.day, 2) + ("T" + (Fixed(hour, 2) + "")))))
    ensures d.month < 100 && d.day < 100 && |Rest(d, hour)| == 9
  {
    DayInYearBounds(d);
    assert DaysInMonth(d.year, d.month) <= 31;
    PadIsFixed(d.month);
    PadIsFixed(d.day);
    PadIsFixed(hour);
  }

  predicate RestBefore(a: Date, g: nat, b: Date, h: nat) {
    a.month < b.month || (a.month == b.month && (a.day < b.day || (a.day == b.day && g < h)))
  }

  lemma {:induction false} FieldInOrder(sep: string, m: nat, x: string, n: nat, y: string)
    requires m < 100 && n < 100
    ensures var a, b := sep + (Fixed(m, 2) + x), sep + (Fixed(n, 2) + y);
      && (Before(a, b) <==> m < n || (m == n && Before(x, y)))
      && (a == b <==> m == n && x == y)
  {
    assert Pow10(2) == 100;
    FixedInOrder(m, n, 2);
    BeforeConcat(Fixed(m, 2), x, Fixed(n, 2), y);
    BeforeConcat(sep, Fixed(m, 2) + x, sep, Fixed(n, 2) + y);
    BeforeIrreflexive(sep);
  }

  /** The part after the year is ordered as month, day and hour are. */
  lemma {:induction false} RestInOrder(a: Date, g: nat, b: Date, h: nat)
    requires RealDate(a) && RealDate(b) && g < 24 && h < 24
    ensures Before(Rest(a, g), Rest(b, h)) <==> RestBefore(a, g, b, h)
    ensures Rest(a, g) == Rest(b, h) <==> a.month == b.month && a.day == b.day && g == h
  {
    RestIsFixed(a, g);
    RestIsFixed(b, h);
    FieldInOrder("T", g, "", h, "");
    var x, y := "T" + (Fixed(g, 2) + ""), "T" + (Fixed(h, 2) + "");
    FieldInOrder("-", a.day, x, b.day, y);
    var x', y' := "-" + (Fixed(a.day, 2) + x), "-" + (Fixed(b.day, 2) + y);
    FieldInOrder("-", a.month, x', b.month, y');
  }

  lemma {:induction false} HoursAndDays(t: int)
    ensures t / MS_PER_HOUR == 24 * DayOf(t) + HourOfDay(t)
  {
    var h := t / MS_PER_HOUR;
    assert t == MS_PER_HOUR * h + t % MS_PER_HOUR;
    assert h == 24 * (h / 24) + h % 24;
    var r := MS_PER_HOUR * (h % 24) + t % MS_PER_HOUR;
    assert t == MS_PER_DAY * (h / 24) + r && 0 <= r < MS_PER_DAY;
  }

  lemma {:induction false} FourDigitText(y: int)
    requires 1000 <= y <= 9999
    ensures YearText(y) == Fixed(y, 4)
  {
    assert Pow10(4) == 10_000 && Pow10(3) == 1000;
    DecimalIsFixed(y, 4);
  }

  lemma {:induction false} BucketText(t: int)
    requires FourDigitYear(t)
    ensures var d := DateOf(DayOf(t));
      RealDate(d) && PeriodBucket(t) == Fixed(d.year, 4) + Rest(d, HourOfDay(t)) && |PeriodBucket(t)| == 13
  {
    var day, h := DayOf(t), HourOfDay(t);
    var d := DateOf(day);
    FourDigitYears(t);
    MakeDayOfDate(day);
    FourDigitText(d.year);
    RestIsFixed(d, h);
  }

  /** Hours in time are ordered as year, month, day and hour. */
  lemma {:induction false} HoursInOrder(t: int, u: int)
    ensures var a, b := DateOf(DayOf(t)), DateOf(DayOf(u));
      t / MS_PER_HOUR < u / MS_PER_HOUR <==>
      a.year < b.year || (a.year == b.year && RestBefore(a, HourOfDay(t), b, HourOfDay(u)))
  {
    HoursAndDays(t);
    HoursAndDays(u);
    DatesInOrder(DayOf(t), DayOf(u));
    DatesInOrder(DayOf(u), DayOf(t));
  }

  /** In years 1000 to 9999, buckets sort as strings exactly as UTC hours do in time. */
  lemma {:induction false} BucketsInOrder(t: int, u: int)
    requires FourDigitYear(t) && FourDigitYear(u)
    ensures Before(PeriodBucket(t), PeriodBucket(u)) <==> t / MS_PER_HOUR < u / MS_PER_HOUR
    ensures PeriodBucket(t) == PeriodBucket(u) <==> t / MS_PER_HOUR == u / MS_PER_HOUR
  {
    var a, b := DateOf(DayOf(t)), DateOf(DayOf(u));
    FourDigitYears(t);
    FourDigitYears(u);
    BucketText(t);
    BucketText(u);
    assert Pow10(4) == 10_000;
    FixedInOrder(a.year, b.year, 4);
    RestInOrder(a, HourOfDay(t), b, HourOfDay(u));
    BeforeConcat(Fixed(a.year, 4), Rest(a, HourOfDay(t)), Fixed(b.year, 4), Rest(b, HourOfDay(u)));
    HoursInOrder(t, u);
    HoursInOrder(u, t);
  }

  // ---- The recogniser ----

  /** The instant the recogniser rebuilds is the start of the hour. */
  lemma {:induction false} StartOfHour(t: int)
    requires ValidTime(t)
    ensures var u := DayOf(t) * MS_PER_DAY + HourOfDay(t) * MS_PER_HOUR;
      u == t / MS_PER_HOUR * MS_PER_HOUR && ValidTime(u) && DayOf(u) == DayOf(t) && HourOfDay(u) == HourOfDay(t)
  {
    HoursAndDays(t);
  }

  lemma {:induction false} Layout(y: string, m: string, d: string, h: string)
    requires |y| == 4 && |m| == |d| == |h| == 2
    ensures var v := y + ("-" + (m + ("-" + (d + ("T" + (h + ""))))));
      && v[0..4] == y && v[5..7] == m && v[8..10] == d && v[11..13] == h
      && |v| == 13 && v[4] == '-' && v[7] == '-' && v[10] == 'T'
  {
  }

  /** A date and an hour as a bucket spells them. */
  function Spelled(d: Date, h: nat): string
    requires RealDate(d)
  {
    YearText(d.year) + Rest(d, h)
  }

  lemma {:induction false} BucketSpells(t: int, d: Date, h: nat)
    requires ValidTime(t) && DateOf(DayOf(t)) == d && HourOfDay(t) == h
    ensures RealDate(d) && h < 24 && PeriodBucket(t) == Spelled(d, h)
  {
    MakeDayOfDate(DayOf(t));
  }

  lemma {:induction false} NumbersOf(y: nat, m: nat, d: nat, h: nat)
    requires y < 10_000 && m < 100 && d < 100 && h < 100
    ensures Number(Fixed(y, 4)) == y && Number(Fixed(m, 2)) == m && Number(Fixed(d, 2)) == d && Number(Fixed(h, 2)) == h
  {
    assert Pow10(4) == 10_000 && Pow10(2) == 100;
    NumberOfFixed(y, 4);
    NumberOfFixed(m, 2);
    NumberOfFixed(d, 2);
    NumberOfFixed(h, 2);
  }

  lemma {:induction false} SpelledFixed(d: Date, h: nat)
    requires RealDate(d) && 1000 <= d.year <= 9999 && h < 24
    ensures d.month < 100 && d.day < 100
    ensures var y, m, dd, hh := Fixed(d.year, 4), Fixed(d.month, 2), Fixed(d.day, 2), Fixed(h, 2);
      Spelled(d, h) == y + ("-" + (m + ("-" + (dd + ("T" + (hh + ""))))))
  {
    RestIsFixed(d, h);
    assert Pow10(4) == 10_000 && Pow10(3) == 1000;
    DecimalIsFixed(d.year, 4);
  }

  lemma {:induction false} RereadText(v: string, y: nat, m: nat, d: nat, h: nat)
    requires y < 10_000 && m < 100 && d < 100 && h < 100
    requires v == Fixed(y, 4) + ("-" + (Fixed(m, 2) + ("-" + (Fixed(d, 2) + ("T" + (Fixed(h, 2) + ""))))))
    ensures BucketShape(v) && Reread(v) == DateUTC(Date(y, m, d), h)
  {
    Layout(Fixed(y, 4), Fixed(m, 2), Fixed(d, 2), Fixed(h, 2));
    NumbersOf(y, m, d, h);
  }

  /** The recogniser reads back the date and hour a bucket spells. */
  lemma {:induction false} RereadIs(d: Date, h: nat)
    requires RealDate(d) && 1000 <= d.year <= 9999 && h < 24
    ensures BucketShape(Spelled(d, h)) && Reread(Spelled(d, h)) == DateUTC(d, h)
  {
    SpelledFixed(d, h);
    RereadText(Spelled(d, h), d.year, d.month, d.day, h);
    assert Date(d.year, d.month, d.day) == d;
  }

  lemma {:induction false} DateUTCOfReal(d: Date, h: nat)
    requires d.year >= 100
    ensures DateUTC(d, h) == MakeDay(d) * MS_PER_DAY + h * MS_PER_HOUR
  {
    assert Date(d.year, d.month, d.day) == d;
  }

  lemma {:induction false} Rebuilt(t: int, d: Date, h: nat)
    requires ValidTime(t) && d == DateOf(DayOf(t)) && h == HourOfDay(t) && d.year >= 1000
    ensures RealDate(d) && h < 24 && PeriodBucket(DateUTC(d, h)) == Spelled(d, h)
  {
    MakeDayOfDate(DayOf(t));
    DateUTCOfReal(d, h);
    StartOfHour(t);
    BucketSpells(DateUTC(d, h), d, h);
  }

  lemma {:induction false} Accepts(v: string, u: int)
    requires BucketShape(v) && Reread(v) == u && PeriodBucket(u) == v
    ensures IsBucket(v)
  {
  }

  lemma {:induction false} MintedFields(t: int, d: Date, h: nat)
    requires ValidTime(t) && d == DateOf(DayOf(t)) && h == HourOfDay(t) && 1000 <= d.year <= 9999
    ensures RealDate(d) && h < 24 && IsBucket(Spelled(d, h))
  {
    Rebuilt(t, d, h);
    RereadIs(d, h);
    Accepts(Spelled(d, h), DateUTC(d, h));
  }

  lemma {:induction false} MintedIsBucket(t: int)
    requires FourDigitYear(t)
    ensures IsBucket(PeriodBucket(t))
  {
    FourDigitYears(t);
    BucketSpells(t, DateOf(DayOf(t)), HourOfDay(t));
    MintedFields(t, DateOf(DayOf(t)), HourOfDay(t));
  }

  /** How wide a year prints. */
  lemma {:induction false} YearTextShape(y: int)
    ensures |YearText(y)| >= 1
    ensures forall i :: 0 < i < |YearText(y)| ==> '0' <= YearText(y)[i] <= '9'
    ensures YearText(y)[0] == '-' <==> y < 0
  {
    DecimalChars(if y < 0 then -y else y);
  }

  lemma {:induction false} BucketIsMinted(v: string)
    requires IsBucket(v)
    ensures exists t :: FourDigitYear(t) && PeriodBucket(t) == v
  {
    var t := Reread(v);
    assert v[0] == v[0..4][0];
    assert ValidTime(t);
    MakeDayOfDate(DayOf(t));
    var d := DateOf(DayOf(t));
    RestIsFixed(d, HourOfDay(t));
    YearTextShape(d.year);
    assert v[0] == YearText(d.year)[0];
    DecimalWidth(d.year, 4);
    DecimalWidth(d.year, 3);
    assert Pow10(4) == 10_000 && Pow10(3) == 1000;
    FourDigitYears(t);
  }

  /** `isBucket` accepts exactly what `periodBucket` mints for an instant in years 1000 to 9999. */
  lemma {:induction false} IsBucketExactly(v: string)
    ensures IsBucket(v) <==> exists t :: FourDigitYear(t) && PeriodBucket(t) == v
  {
    if IsBucket(v) {
      BucketIsMinted(v);
    }
    forall t | FourDigitYear(t) && PeriodBucket(t) == v ensures IsBucket(v) {
      MintedIsBucket(t);
    }
  }

  // ---- Prefixes as periods ----

  predicate SamePeriod(win: Window, t: int, u: int) {
    match win
    case HourWindow => t / MS_PER_HOUR == u / MS_PER_HOUR
    case DayWindow => DayOf(t) == DayOf(u)
    case MonthWindow =>
      DateOf(DayOf(t)).year == DateOf(DayOf(u)).year && DateOf(DayOf(t)).month == DateOf(DayOf(u)).month
  }

  /** `period LIKE prefix || '%'` selects the window's own period, whichever instant of year `y` asks. */
  ghost predicate PrefixExact(win: Window, y: int) {
    forall t, u :: ValidTime(t) && ValidTime(u) && DateOf(DayOf(t)).year == y ==>
      (PeriodPrefix(win, t) <= PeriodBucket(u) <==> SamePeriod(win, t, u))
  }

  lemma {:induction false} FirstDash(a: string, m: nat, b: string, n: nat, k: nat)
    requires 0 < m < k <= |a| && k <= |b| && 0 < n < |b|
    requires a[m] == '-' && b[n] == '-'
    requires forall i :: 0 < i < m ==> a[i] != '-'
    requires forall i :: 0 < i < n ==> b[i] != '-'
    requires forall i :: 0 <= i < k ==> a[i] == b[i]
    ensures m == n
  {
  }

  lemma {:induction false} YearTextInjective(x: int, y: int)
    requires YearText(x) == YearText(y)
    ensures x == y
  {
    YearTextShape(x);
    YearTextShape(y);
    if x < 0 {
      assert Decimal(-x) == YearText(x)[1..] && Decimal(-y) == YearText(y)[1..];
      DecimalInjective(-x, -y);
    } else {
      DecimalInjective(x, y);
    }
  }

  lemma {:induction false} SameFirstPart(x: string, r: string, y: string, q: string, k: nat)
    requires r != "" && r[0] == '-' && q != "" && q[0] == '-' && x != "" && y != ""
    requires forall i :: 0 < i < |x| ==> x[i] != '-'
    requires forall i :: 0 < i < |y| ==> y[i] != '-'
    requires |x| < k <= |x + r| && (x + r)[..k] <= y + q
    ensures x == y && r[..k - |x|] <= q
  {
    var a, b, n := x + r, y + q, |x|;
    forall i | 0 <= i < k ensures a[i] == b[i] {
      assert a[i] == a[..k][i];
    }
    FirstDash(a, n, b, |y|, k);
    assert x == a[..k][..n] == b[..n] == y;
    assert r[..k - n] == a[..k][n..] == b[n..k] == q[..k - n];
  }

  /** A prefix that reaches past the year fixes the year. */
  lemma {:induction false} PrefixFixesYear(x: int, r: string, y: int, q: string, k: nat)
    requires r != "" && r[0] == '-' && q != "" && q[0] == '-'
    requires |YearText(x)| < k <= |YearText(x) + r| && (YearText(x) + r)[..k] <= YearText(y) + q
    ensures x == y && r[..k - |YearText(x)|] <= q
  {
    YearTextShape(x);
    YearTextShape(y);
    SameFirstPart(YearText(x), r, YearText(y), q, k);
    YearTextInjective(x, y);
  }

  lemma {:induction false} PartsOfRest(m: string, d: string, h: string)
    requires |m| == |d| == |h| == 2
    ensures var r := "-" + (m + ("-" + (d + ("T" + (h + "")))));
      |r| == 9 && r[0] == '-' && r[1..3] == m && r[3] == '-' && r[4..6] == d && r[6] == 'T' && r[7..9] == h
  {
  }

  lemma {:induction false} RestParts(d: Date, h: nat)
    requires RealDate(d) && h < 24
    ensures var r := Rest(d, h);
      && |r| == 9 && r[0] == '-' && r[1..3] == Fixed(d.month, 2) && r[3] == '-' && r[4..6] == Fixed(d.day, 2)
      && r[6] == 'T' && r[7..9] == Fixed(h, 2)
  {
    RestIsFixed(d, h);
    PartsOfRest(Fixed(d.month, 2), Fixed(d.day, 2), Fixed(h, 2));
  }

  lemma {:induction false} Agree(r: string, q: string, i: nat, j: nat)
    requires i <= j <= |r| && j <= |q|
    ensures r[i..j] == q[i..j] <==> forall k :: i <= k < j ==> r[k] == q[k]
  {
    if r[i..j] == q[i..j] {
      forall k | i <= k < j ensures r[k] == q[k] {
        assert r[k] == r[i..j][k - i] && q[k] == q[i..j][k - i];
      }
    }
  }

  lemma {:induction false} Heads(r: string, q: string)
    requires |r| == |q| == 9 && r[0] == q[0] && r[3] == q[3] && r[6] == q[6]
    ensures r[..3] == q[..3] <==> r[1..3] == q[1..3]
    ensures r[..4] == q[..4] <==> r[1..3] == q[1..3]
    ensures r[..6] == q[..6] <==> r[1..3] == q[1..3] && r[4..6] == q[4..6]
    ensures r[..7] == q[..7] <==> r[1..3] == q[1..3] && r[4..6] == q[4..6]
  {
    Agree(r, q, 1, 3);
    Agree(r, q, 4, 6);
    Agree(r, q, 0, 3);
    Agree(r, q, 0, 4);
    Agree(r, q, 0, 6);
    Agree(r, q, 0, 7);
    assert r[0..3] == r[..3] && r[0..4] == r[..4] && r[0..6] == r[..6] && r[0..7] == r[..7];
    assert q[0..3] == q[..3] && q[0..4] == q[..4] && q[0..6] == q[..6] && q[0..7] == q[..7];
  }

  /** Two dates agree on a leading part of what follows the year exactly when they agree on its fields. */
  lemma {:induction false} RestHeads(a: Date, g: nat, b: Date, h: nat)
    requires RealDate(a) && RealDate(b) && g < 24 && h < 24
    ensures |Rest(a, g)| == |Rest(b, h)| == 9
    ensures Rest(a, g)[..3] == Rest(b, h)[..3] <==> a.month == b.month
    ensures Rest(a, g)[..4] == Rest(b, h)[..4] <==> a.month == b.month
    ensures Rest(a, g)[..6] == Rest(b, h)[..6] <==> a.month == b.month && a.day == b.day
    ensures Rest(a, g)[..7] == Rest(b, h)[..7] <==> a.month == b.month && a.day == b.day
  {
    RestParts(a, g);
    RestParts(b, h);
    RestIsFixed(a, g);
    RestIsFixed(b, h);
    assert Pow10(2) == 100;
    FixedInOrder(a.month, b.month, 2);
    FixedInOrder(a.day, b.day, 2);
    Heads(Rest(a, g), Rest(b, h));
  }

  /** What a prefix that reaches `k` characters past the year compares. */
  lemma {:induction false} YearPrefix(x: int, r: string, y: int, q: string, k: nat)
    requires |r| == |q| == 9 && r[0] == q[0] == '-' && 1 <= k <= 9
    ensures (YearText(x) + r)[..|YearText(x)| + k] <= YearText(y) + q <==> x == y && r[..k] == q[..k]
  {
    var n := |YearText(x)|;
    assert (YearText(x) + r)[..n + k] == YearText(x) + r[..k];
    if (YearText(x) + r)[..n + k] <= YearText(y) + q {
      PrefixFixesYear(x, r, y, q, n + k);
    }
    if x == y && r[..k] == q[..k] {
      assert YearText(y) + q == (YearText(x) + r[..k]) + q[k..];
    }
  }

  /** What a prefix of `k` characters past the year compares, when it selects. */
  lemma {:induction false} PrefixCompares(a: Date, g: nat, b: Date, h: nat, k: nat)
    requires RealDate(a) && RealDate(b) && g < 24 && h < 24 && k <= 9
    ensures |Rest(a, g)| == |Rest(b, h)| == 9 && |Spelled(a, g)| == |YearText(a.year)| + 9
    ensures k >= 1 ==>
      (Spelled(a, g)[..|YearText(a.year)| + k] <= Spelled(b, h) <==> a.year == b.year && Rest(a, g)[..k] == Rest(b, h)[..k])
  {
    RestParts(a, g);
    RestParts(b, h);
    if k >= 1 {
      YearPrefix(a.year, Rest(a, g), b.year, Rest(b, h), k);
    }
  }

  lemma {:induction false} HourCompares(a: Date, g: nat, b: Date, h: nat)
    requires RealDate(a) && RealDate(b) && g < 24 && h < 24
    ensures Spelled(a, g) <= Spelled(b, h) <==> a == b && g == h
  {
    PrefixCompares(a, g, b, h, 9);
    RestInOrder(a, g, b, h);
    assert Rest(a, g)[..9] == Rest(a, g) && Rest(b, h)[..9] == Rest(b, h);
    assert Spelled(a, g)[..|YearText(a.year)| + 9] == Spelled(a, g);
    assert a == Date(a.year, a.month, a.day) && b == Date(b.year, b.month, b.day);
  }

  lemma {:induction false} DayCompares(a: Date, g: nat, b: Date, h: nat)
    requires RealDate(a) && RealDate(b) && g < 24 && h < 24 && 3 <= |YearText(a.year)| <= 4
    ensures Take(Spelled(a, g), 10) <= Spelled(b, h) <==> a == b
  {
    RestHeads(a, g, b, h);
    if |YearText(a.year)| == 3 {
      PrefixCompares(a, g, b, h, 7);
    } else {
      PrefixCompares(a, g, b, h, 6);
    }
    assert a == Date(a.year, a.month, a.day) && b == Date(b.year, b.month, b.day);
  }

  lemma {:induction false} MonthCompares(a: Date, g: nat, b: Date, h: nat)
    requires RealDate(a) && RealDate(b) && g < 24 && h < 24 && 3 <= |YearText(a.year)| <= 4
    ensures Take(Spelled(a, g), 7) <= Spelled(b, h) <==> a.year == b.year && a.month == b.month
  {
    RestHeads(a, g, b, h);
    if |YearText(a.year)| == 3 {
      PrefixCompares(a, g, b, h, 4);
    } else {
      PrefixCompares(a, g, b, h, 3);
    }
  }

  lemma {:induction false} SameDate(t: int, u: int)
    ensures DateOf(DayOf(t)) == DateOf(DayOf(u)) <==> DayOf(t) == DayOf(u)
  {
    MakeDayOfDate(DayOf(t));
    MakeDayOfDate(DayOf(u));
  }

  lemma {:induction false} SameHour(t: int, u: int)
    ensures t / MS_PER_HOUR == u / MS_PER_HOUR <==> DayOf(t) == DayOf(u) && HourOfDay(t) == HourOfDay(u)
  {
    HoursAndDays(t);
    HoursAndDays(u);
  }

  /** An hour's bucket selects that hour and no other, in every year. */
  lemma {:induction false} HourPrefixExact(t: int, u: int)
    requires ValidTime(t) && ValidTime(u)
    ensures PeriodPrefix(HourWindow, t) <= PeriodBucket(u) <==> SamePeriod(HourWindow, t, u)
  {
    BucketSpells(t, DateOf(DayOf(t)), HourOfDay(t));
    BucketSpells(u, DateOf(DayOf(u)), HourOfDay(u));
    HourCompares(DateOf(DayOf(t)), HourOfDay(t), DateOf(DayOf(u)), HourOfDay(u));
    SameDate(t, u);
    SameHour(t, u);
  }

  lemma {:induction false} DayPrefixExact(t: int, u: int)
    requires ValidTime(t) && ValidTime(u) && 3 <= |YearText(DateOf(DayOf(t)).year)| <= 4
    ensures PeriodPrefix(DayWindow, t) <= PeriodBucket(u) <==> SamePeriod(DayWindow, t, u)
  {
    BucketSpells(t, DateOf(DayOf(t)), HourOfDay(t));
    BucketSpells(u, DateOf(DayOf(u)), HourOfDay(u));
    DayCompares(DateOf(DayOf(t)), HourOfDay(t), DateOf(DayOf(u)), HourOfDay(u));
    SameDate(t, u);
  }

  lemma {:induction false} MonthPrefixExact(t: int, u: int)
    requires ValidTime(t) && ValidTime(u) && 3 <= |YearText(DateOf(DayOf(t)).year)| <= 4
    ensures PeriodPrefix(MonthWindow, t) <= PeriodBucket(u) <==> SamePeriod(MonthWindow, t, u)
  {
    BucketSpells(t, DateOf(DayOf(t)), HourOfDay(t));
    BucketSpells(u, DateOf(DayOf(u)), HourOfDay(u));
    MonthCompares(DateOf(DayOf(t)), HourOfDay(t), DateOf(DayOf(u)), HourOfDay(u));
  }

  // ---- Why other years fail ----

  /** Years that hold an instant a Date can hold: the first and the last of them only in part. */
  predicate DateYear(y: int) {
    -271_821 <= y <= 275_760
  }

  lemma {:induction false} ReachedYears(t: int)
    requires ValidTime(t)
    ensures DateYear(DateOf(DayOf(t)).year)
  {
    assert DayFromYear(-271_821) == -100_000_109 && DayFromYear(275_761) == 100_000_110;
    YearAtLeast(DayOf(t), -271_821);
    YearAtLeast(DayOf(t), 275_761);
  }

  function Instant(d: Date, h: nat): int {
    MakeDay(d) * MS_PER_DAY + h * MS_PER_HOUR
  }

  lemma {:induction false} TimeParts(day: int, h: nat)
    requires h < 24
    ensures var t := day * MS_PER_DAY + h * MS_PER_HOUR; DayOf(t) == day && HourOfDay(t) == h
  {
    var t := day * MS_PER_DAY + h * MS_PER_HOUR;
    assert 0 <= t - day * MS_PER_DAY < MS_PER_DAY;
    assert t == (24 * day + h) * MS_PER_HOUR;
  }

  lemma {:induction false} BucketAt(day: int, d: Date, h: nat)
    requires -100_000_000 <= day < 100_000_000 && RealDate(d) && DateOf(day) == d && h < 24
    ensures var t := day * MS_PER_DAY + h * MS_PER_HOUR;
      ValidTime(t) && DateOf(DayOf(t)) == d && HourOfDay(t) == h && PeriodBucket(t) == Spelled(d, h)
  {
    var t := day * MS_PER_DAY + h * MS_PER_HOUR;
    TimeParts(day, h);
    assert ValidTime(t);
    BucketSpells(t, d, h);
  }

  /** Dates whose every hour is a valid time: the first year starts on April 20, the last ends in September. */
  predicate Reached(d: Date) {
    && RealDate(d) && DateYear(d.year)
    && (d.year == -271_821 ==> d.month > 4 || (d.month == 4 && d.day >= 20))
    && (d.year == 275_760 ==> d.month < 9)
  }

  lemma {:induction false} InnerDays(y: int, day: int)
    requires -271_821 < y < 275_760 && 0 <= day < DaysInYear(y)
    ensures -100_000_000 <= DayFromYear(y) + day < 100_000_000
  {
    assert DayFromYear(-271_820) >= -100_000_000 && DayFromYear(275_760) < 100_000_000;
    YearLength(y);
    if y > -271_820 { YearsIncrease(-271_820, y); }
    if y + 1 < 275_760 { YearsIncrease(y + 1, 275_760); }
  }

  lemma {:induction false} ReachedDays(d: Date)
    requires Reached(d)
    ensures -100_000_000 <= MakeDay(d) < 100_000_000
  {
    MakeDayReal(d);
    DayInYearBounds(d);
    if d.year == -271_821 {
      assert DayFromYear(-271_821) == -100_000_109 && !Leap(-271_821);
      if d.month > 4 { MonthsInOrder(false, 4, d.month); }
    } else if d.year == 275_760 {
      assert DayFromYear(275_760) == 99_999_744 && Leap(275_760);
      if d.month < 8 { MonthsInOrder(true, d.month - 1, 8); }
    } else {
      InnerDays(d.year, DayInYear(d));
    }
  }

  lemma {:induction false} InstantOf(d: Date, h: nat)
    requires Reached(d) && h < 24
    ensures var t := Instant(d, h);
      ValidTime(t) && DateOf(DayOf(t)) == d && HourOfDay(t) == h && PeriodBucket(t) == Spelled(d, h)
  {
    ReachedDays(d);
    DateOfMakeDay(d);
    BucketAt(MakeDay(d), d, h);
  }

  predicate Misselects(win: Window, t: int, u: int) {
    ValidTime(t) && ValidTime(u) && (PeriodPrefix(win, t) <= PeriodBucket(u)) != SamePeriod(win, t, u)
  }

  lemma {:induction false} NineChars(a: char, b: char, c: char, d: char, e: char, f: char)
    ensures "-" + ([a, b] + ("-" + ([c, d] + ("T" + ([e, f] + ""))))) == ['-', a, b, '-', c, d, 'T', e, f]
  {
  }

  lemma {:induction false} OneDigit(n: nat)
    requires n < 10
    ensures Fixed(n, 1) == [Digit(n)]
  {
    assert n % 10 == n;
    assert Fixed(n, 1) == Fixed(n / 10, 0) + [Digit(n % 10)];
  }

  lemma {:induction false} Small(n: nat)
    requires n < 100
    ensures Fixed(n, 2) == [Digit(n / 10), Digit(n % 10)]
  {
    OneDigit(n / 10);
  }

  lemma {:induction false} RestChars(d: Date, h: nat)
    requires RealDate(d) && h < 24
    ensures d.month < 100 && d.day < 100
    ensures Rest(d, h) == [
      '-', Digit(d.month / 10), Digit(d.month % 10), '-', Digit(d.day / 10), Digit(d.day % 10),
      'T', Digit(h / 10), Digit(h % 10)]
  {
    RestIsFixed(d, h);
    Small(d.month);
    Small(d.day);
    Small(h);
    NineChars(Digit(d.month / 10), Digit(d.month % 10), Digit(d.day / 10), Digit(d.day % 10), Digit(h / 10), Digit(h % 10));
  }

  /** Midnight of January 1 against ten o'clock, and against January 10. */
  lemma {:induction false} JanuaryRests(a: Date, b: Date)
    requires RealDate(a) && RealDate(b) && a.month == 1 && a.day == 1 && b.month == 1 && b.day == 10
    ensures var r, p, q := Rest(a, 0), Rest(a, 10), Rest(b, 0);
      && |r| == |p| == |q| == 9
      && r[..8] != p[..8] && r[..9] != p[..9] && r[..5] != q[..5] && r[..6] != q[..6]
  {
    RestChars(a, 0);
    RestChars(a, 10);
    RestChars(b, 0);
    var r, p, q := Rest(a, 0), Rest(a, 10), Rest(b, 0);
    assert r[..8][7] != p[..8][7] && r[..9][7] != p[..9][7];
    assert r[..5][4] != q[..5][4] && r[..6][4] != q[..6][4];
  }

  /** How a day or month window reads the first of January of a short year against two other hours of it. */
  lemma {:induction false} ShortYearReads(y: int)
    requires |YearText(y)| < 3
    ensures RealDate(Date(y, 1, 1)) && RealDate(Date(y, 1, 10))
    ensures !(Take(Spelled(Date(y, 1, 1), 0), 10) <= Spelled(Date(y, 1, 1), 10))
    ensures !(Take(Spelled(Date(y, 1, 1), 0), 7) <= Spelled(Date(y, 1, 10), 0))
  {
    YearTextShape(y);
    var a, d := Date(y, 1, 1), Date(y, 1, 10);
    JanuaryRests(a, d);
    if |YearText(y)| == 1 {
      PrefixCompares(a, 0, a, 10, 9);
      PrefixCompares(a, 0, d, 0, 6);
    } else {
      PrefixCompares(a, 0, a, 10, 8);
      PrefixCompares(a, 0, d, 0, 5);
    }
  }

  lemma {:induction false} YearIsNarrow(y: int)
    requires DateYear(y)
    ensures |YearText(y)| <= 7
  {
    assert Pow10(6) == 1_000_000 by { assert Pow10(3) == 1000; }
    DecimalWidth(if y < 0 then -y else y, 6);
  }

  /** April 20 shares its leading characters with April 21 and May 1. */
  lemma {:induction false} AprilRests(a: Date, b: Date, c: Date)
    requires a.month == b.month == 4 && a.day == 20 && b.day == 21 && c.month == 5 && c.day == 1
    ensures RealDate(a) && RealDate(b) && RealDate(c)
    ensures var r, p, q := Rest(a, 0), Rest(b, 0), Rest(c, 0);
      && |r| == |p| == |q| == 9
      && (forall k :: 0 <= k <= 5 ==> r[..k] == p[..k]) && (forall k :: 0 <= k <= 2 ==> r[..k] == q[..k])
  {
    RestChars(a, 0);
    RestChars(b, 0);
    RestChars(c, 0);
  }

  /** How a day or month window reads April 20 of a long year, whose day and month are cut short. */
  lemma {:induction false} LongYearReads(y: int)
    requires DateYear(y) && |YearText(y)| > 4
    ensures RealDate(Date(y, 4, 20)) && RealDate(Date(y, 4, 21)) && RealDate(Date(y, 5, 1))
    ensures Take(Spelled(Date(y, 4, 20), 0), 10) <= Spelled(Date(y, 4, 21), 0)
    ensures Take(Spelled(Date(y, 4, 20), 0), 7) <= Spelled(Date(y, 5, 1), 0)
  {
    YearIsNarrow(y);
    var a, d, m, n := Date(y, 4, 20), Date(y, 4, 21), Date(y, 5, 1), |YearText(y)|;
    AprilRests(a, d, m);
    PrefixCompares(a, 0, d, 0, 10 - n);
    PrefixCompares(a, 0, m, 0, 7 - n);
    if n == 7 {
      assert Take(Spelled(a, 0), 7) == YearText(y);
    }
  }

  lemma {:induction false} YearIsShort(y: int)
    requires |YearText(y)| < 3
    ensures -10 < y < 100
  {
    assert Pow10(1) == 10 && Pow10(2) == 100;
    if y < 0 { DecimalWidth(-y, 1); } else { DecimalWidth(y, 2); }
  }

  /** One or two characters of year leave room for part of the hour, or of the day. */
  lemma {:induction false} ShortYearMisselects(win: Window, y: int) returns (t: int, u: int)
    requires !win.HourWindow? && |YearText(y)| < 3
    ensures Misselects(win, t, u) && DateOf(DayOf(t)).year == y
  {
    var a, d := Date(y, 1, 1), Date(y, 1, 10);
    YearIsShort(y);
    ShortYearReads(y);
    InstantOf(a, 0);
    InstantOf(a, 10);
    InstantOf(d, 0);
    t, u := Instant(a, 0), if win.DayWindow? then Instant(a, 10) else Instant(d, 0);
    SameDate(t, u);
  }

  /** Five or more cut the day or the month short. */
  lemma {:induction false} LongYearMisselects(win: Window, y: int) returns (t: int, u: int)
    requires !win.HourWindow? && DateYear(y) && |YearText(y)| > 4
    ensures Misselects(win, t, u) && DateOf(DayOf(t)).year == y
  {
    var a, d, m := Date(y, 4, 20), Date(y, 4, 21), Date(y, 5, 1);
    LongYearReads(y);
    InstantOf(a, 0);
    InstantOf(d, 0);
    InstantOf(m, 0);
    t, u := Instant(a, 0), if win.DayWindow? then Instant(d, 0) else Instant(m, 0);
    SameDate(t, u);
  }

  /** What a reader can tell in advance: an hour window, or a year that prints in three or four characters. */
  predicate Readable(win: Window, y: int) {
    win.HourWindow? || 3 <= |YearText(y)| <= 4
  }

  lemma {:induction false} ReadableIsExact(win: Window, t: int, u: int)
    requires ValidTime(t) && ValidTime(u) && Readable(win, DateOf(DayOf(t)).year)
    ensures PeriodPrefix(win, t) <= PeriodBucket(u) <==> SamePeriod(win, t, u)
  {
    match win
    case HourWindow => HourPrefixExact(t, u);
    case DayWindow => DayPrefixExact(t, u);
    case MonthWindow => MonthPrefixExact(t, u);
  }

  lemma {:induction false} UnreadableMisselects(win: Window, y: int) returns (t: int, u: int)
    requires DateYear(y) && !Readable(win, y)
    ensures Misselects(win, t, u) && DateOf(DayOf(t)).year == y
  {
    if |YearText(y)| < 3 {
      t, u := ShortYearMisselects(win, y);
    } else {
      t, u := LongYearMisselects(win, y);
    }
  }

  /**
  For every year: an hour window selects exactly its own hour, and a day or month window exactly its
  own period if and only if the year prints in three or four characters (or holds no instant at all).
  */
  lemma {:induction false} PrefixExactly(win: Window, y: int)
    ensures PrefixExact(win, y) <==> Readable(win, y) || !DateYear(y)
  {
    if Readable(win, y) || !DateYear(y) {
      forall t, u | ValidTime(t) && ValidTime(u) && DateOf(DayOf(t)).year == y
        ensures PeriodPrefix(win, t) <= PeriodBucket(u) <==> SamePeriod(win, t, u)
      {
        ReachedYears(t);
        ReadableIsExact(win, t, u);
      }
    } else {
      var _, _ := UnreadableMisselects(win, y);
    }
  }
}
