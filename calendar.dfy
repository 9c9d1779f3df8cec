/**
 * Calendar arithmetic on the proleptic Gregorian calendar, as Python's
 * `datetime.date` does it: validity of a date, its day ordinal, the day
 * after, adding whole days, the inclusive range of days between two dates,
 * the UTC-midnight POSIX timestamp of a date and its ISO 8601 text.
 */
module Calendar {
  import opened Wrappers
  import opened Text

  /** A calendar date; `ValidDate` says which values Python accepts. */
  datatype Date = Date(year: int, month: int, day: int)

  /** Python's `datetime.MINYEAR` and `datetime.MAXYEAR`. */
  const MinYear: int := 1
  const MaxYear: int := 9999
  const MaxDate: Date := Date(9999, 12, 31)

  const SecondsPerDay: int := 86400
  /** The ordinal of 1970-01-01, the POSIX epoch. */
  const EpochOrdinal: int := 719163

  predicate IsLeapYear(y: int) {
    y % 4 == 0 && (y % 100 != 0 || y % 400 == 0)
  }

  function DaysInYear(y: int): int {
    if IsLeapYear(y) then 366 else 365
  }

  function DaysInMonth(y: int, m: int): int
    requires 1 <= m <= 12
  {
    if m == 2 then (if IsLeapYear(y) then 29 else 28)
    else if m == 4 || m == 6 || m == 9 || m == 11 then 30
    else 31
  }

  predicate ValidDate(d: Date) {
    && MinYear <= d.year <= MaxYear
    && 1 <= d.month <= 12
    && 1 <= d.day <= DaysInMonth(d.year, d.month)
  }

  /** Days in the years 1 .. y-1. */
  function DaysBeforeYear(y: int): int
    requires y >= 1
  {
    var p := y - 1;
    p * 365 + p / 4 - p / 100 + p / 400
  }

  /** Days in the months 1 .. m-1 of year y. */
  function DaysBeforeMonth(y: int, m: int): int
    requires 1 <= m <= 12
  {
    var common :=
      if m == 1 then 0 else if m == 2 then 31 else if m == 3 then 59
      else if m == 4 then 90 else if m == 5 then 120 else if m == 6 then 151
      else if m == 7 then 181 else if m == 8 then 212 else if m == 9 then 243
      else if m == 10 then 273 else if m == 11 then 304 else 334;
    common + (if m > 2 && IsLeapYear(y) then 1 else 0)
  }

  /** The proleptic Gregorian ordinal (`date.toordinal()`): 0001-01-01 is day 1. */
  function Ordinal(d: Date): (o: int)
    requires ValidDate(d)
    ensures DaysBeforeYear(d.year) < o <= DaysBeforeYear(d.year) + DaysInYear(d.year)
  {
    assert DaysBeforeMonth(d.year, d.month) + DaysInMonth(d.year, d.month) <= DaysInYear(d.year);
    DaysBeforeYear(d.year) + DaysBeforeMonth(d.year, d.month) + d.day
  }

  lemma YearStep(y: int)
    requires y >= 1
    ensures DaysBeforeYear(y + 1) == DaysBeforeYear(y) + DaysInYear(y)
  {
    var p := y - 1;
    var d4, d100, d400 := y / 4 - p / 4, y / 100 - p / 100, y / 400 - p / 400;
    assert DaysBeforeYear(y + 1) - DaysBeforeYear(y) == 365 + d4 - d100 + d400;
    DivStep4(y);
    DivStep100(y);
    DivStep400(y);
    if y % 400 == 0 {
      Multiple400Is100(y);
    }
    if y % 100 == 0 {
      Multiple100Is4(y);
    }
    assert DaysInYear(y) == 365 + d4 - d100 + d400 by {
      if y % 400 == 0 {
        assert d4 == 1 && d100 == 1 && d400 == 1 && IsLeapYear(y);
      } else if y % 100 == 0 {
        assert d4 == 1 && d100 == 1 && d400 == 0 && !IsLeapYear(y);
      } else if y % 4 == 0 {
        assert d4 == 1 && d100 == 0 && d400 == 0 && IsLeapYear(y);
      } else {
        assert d4 == 0 && d100 == 0 && d400 == 0 && !IsLeapYear(y);
      }
    }
  }

  lemma Multiple400Is100(y: int)
    requires y % 400 == 0
    ensures y % 100 == 0
  {
    var q := y / 400;
    assert y == 400 * q;
    assert y == 100 * (4 * q) + 0;
  }

  lemma Multiple100Is4(y: int)
    requires y % 100 == 0
    ensures y % 4 == 0
  {
    var q := y / 100;
    assert y == 100 * q;
    assert y == 4 * (25 * q) + 0;
  }

  lemma DivStep4(y: int)
    ensures y / 4 - (y - 1) / 4 == if y % 4 == 0 then 1 else 0
  {
  }

  lemma DivStep100(y: int)
    ensures y / 100 - (y - 1) / 100 == if y % 100 == 0 then 1 else 0
  {
  }

  lemma DivStep400(y: int)
    ensures y / 400 - (y - 1) / 400 == if y % 400 == 0 then 1 else 0
  {
  }

  lemma {:induction false} DaysBeforeYearMonotone(a: int, b: int)
    requires 1 <= a <= b
    ensures DaysBeforeYear(a) <= DaysBeforeYear(b)
    decreases b - a
  {
    if a < b {
      YearStep(a);
      DaysBeforeYearMonotone(a + 1, b);
    }
  }

  /** Date order as Python compares dates: by year, then month, then day. */
  predicate Before(a: Date, b: Date) {
    || a.year < b.year
    || (a.year == b.year && a.month < b.month)
    || (a.year == b.year && a.month == b.month && a.day < b.day)
  }

  lemma OrdinalMonotone(a: Date, b: Date)
    requires ValidDate(a) && ValidDate(b) && Before(a, b)
    ensures Ordinal(a) < Ordinal(b)
  {
    if a.year < b.year {
      assert DaysBeforeMonth(a.year, a.month) + DaysInMonth(a.year, a.month) <= DaysInYear(a.year);
      YearStep(a.year);
      DaysBeforeYearMonotone(a.year + 1, b.year);
    } else if a.month < b.month {
      assert DaysBeforeMonth(a.year, a.month) + DaysInMonth(a.year, a.month)
        <= DaysBeforeMonth(b.year, b.month);
    }
  }

  /** The ordinal orders dates exactly as Python's date comparison does. */
  lemma OrdinalOrder(a: Date, b: Date)
    requires ValidDate(a) && ValidDate(b)
    ensures Before(a, b) <==> Ordinal(a) < Ordinal(b)
    ensures a == b <==> Ordinal(a) == Ordinal(b)
  {
    if Before(a, b) {
      OrdinalMonotone(a, b);
    } else if a != b {
      OrdinalMonotone(b, a);
    }
  }

  lemma OrdinalInjective(a: Date, b: Date)
    requires ValidDate(a) && ValidDate(b) && Ordinal(a) == Ordinal(b)
    ensures a == b
  {
    OrdinalOrder(a, b);
  }

  lemma OrdinalAtMostMax(d: Date)
    requires ValidDate(d)
    ensures Ordinal(d) <= Ordinal(MaxDate)
  {
    if d != MaxDate {
      OrdinalMonotone(d, MaxDate);
    }
  }

  /** `d + timedelta(days=1)`; Python overflows past 9999-12-31. */
  function NextDay(d: Date): (r: Date)
    requires ValidDate(d) && d != MaxDate
    ensures ValidDate(r) && Before(d, r)
    ensures Ordinal(r) == Ordinal(d) + 1
  {
    if d.day < DaysInMonth(d.year, d.month) then Date(d.year, d.month, d.day + 1)
    else if d.month < 12 then MonthStep(d.year, d.month); Date(d.year, d.month + 1, 1)
    else YearStep(d.year); YearEnd(d.year); Date(d.year + 1, 1, 1)
  }

  lemma MonthStep(y: int, m: int)
    requires 1 <= m < 12
    ensures DaysBeforeMonth(y, m + 1) == DaysBeforeMonth(y, m) + DaysInMonth(y, m)
  {
  }

  lemma YearEnd(y: int)
    ensures DaysBeforeMonth(y, 12) + DaysInMonth(y, 12) == DaysInYear(y)
  {
  }

  /** `d + timedelta(days=n)` for n >= 0, within Python's date range. */
  function AddDays(d: Date, n: nat): (r: Date)
    requires ValidDate(d) && Ordinal(d) + n <= Ordinal(MaxDate)
    ensures ValidDate(r) && Ordinal(r) == Ordinal(d) + n
    decreases n
  {
    if n == 0 then d else AddDays(NextDay(d), n - 1)
  }

  /** `len(range((end - start).days + 1))`: zero when end is before start. */
  function RangeLength(start: Date, end: Date): nat
    requires ValidDate(start) && ValidDate(end)
  {
    if Ordinal(start) <= Ordinal(end) then Ordinal(end) - Ordinal(start) + 1 else 0
  }

  /** The days `start + timedelta(days=delta)` for every delta in that range. */
  function DateRange(start: Date, end: Date): (r: seq<Date>)
    requires ValidDate(start) && ValidDate(end)
    ensures |r| == RangeLength(start, end)
    ensures forall k :: 0 <= k < |r| ==> ValidDate(r[k]) && Ordinal(r[k]) == Ordinal(start) + k
  {
    OrdinalAtMostMax(end);
    seq(RangeLength(start, end), k requires 0 <= k < RangeLength(start, end) => AddDays(start, k))
  }

  /** Consecutive days of a range are one day apart. */
  lemma DateRangeStep(start: Date, end: Date, k: int)
    requires ValidDate(start) && ValidDate(end)
    requires 0 <= k < |DateRange(start, end)| - 1
    ensures DateRange(start, end)[k] != MaxDate
    ensures DateRange(start, end)[k + 1] == NextDay(DateRange(start, end)[k])
  {
    var r := DateRange(start, end);
    OrdinalAtMostMax(r[k + 1]);
    OrdinalOrder(r[k + 1], NextDay(r[k]));
  }

  lemma DateRangeFirst(start: Date, end: Date)
    requires ValidDate(start) && ValidDate(end) && Ordinal(start) <= Ordinal(end)
    ensures DateRange(start, end)[0] == start
  {
    var r := DateRange(start, end);
    OrdinalOrder(r[0], start);
  }

  lemma DateRangeLast(start: Date, end: Date)
    requires ValidDate(start) && ValidDate(end) && Ordinal(start) <= Ordinal(end)
    ensures DateRange(start, end)[|DateRange(start, end)| - 1] == end
  {
    var r := DateRange(start, end);
    var n := |r|;
    assert n == Ordinal(end) - Ordinal(start) + 1;
    var last := r[n - 1];
    assert ValidDate(last) && Ordinal(last) == Ordinal(end);
    OrdinalInjective(last, end);
  }

  /**
   * When `start <= end` (in ordinals; `OrdinalOrder` makes that Python's date
   * comparison) the range starts at `start` and ends at `end`; `DateRangeStep`
   * gives the steps in between.
   */
  lemma DateRangeEnds(start: Date, end: Date)
    requires ValidDate(start) && ValidDate(end) && Ordinal(start) <= Ordinal(end)
    ensures |DateRange(start, end)| == Ordinal(end) - Ordinal(start) + 1
    ensures DateRange(start, end)[0] == start
    ensures DateRange(start, end)[|DateRange(start, end)| - 1] == end
  {
    DateRangeFirst(start, end);
    DateRangeLast(start, end);
  }

  /** The range is empty exactly when `end` is before `start`. */
  lemma DateRangeEmpty(start: Date, end: Date)
    requires ValidDate(start) && ValidDate(end)
    ensures DateRange(start, end) == [] <==> Before(end, start)
  {
    OrdinalOrder(end, start);
  }

  /**
   * `int(datetime.combine(d, time.min, tzinfo=timezone.utc).timestamp())`:
   * the POSIX seconds of midnight UTC at the start of `d`.
   */
  function UnixTimestamp(d: Date): (t: int)
    requires ValidDate(d)
    ensures t % SecondsPerDay == 0
    ensures t / SecondsPerDay == Ordinal(d) - EpochOrdinal
  {
    (Ordinal(d) - EpochOrdinal) * SecondsPerDay
  }

  lemma TimestampOfEpoch()
    ensures UnixTimestamp(Date(1970, 1, 1)) == 0
  {
  }

  lemma TimestampOfNewYear2024()
    ensures UnixTimestamp(Date(2024, 1, 1)) == 1704067200
  {
  }

  /** The day after is exactly one day of seconds later. */
  lemma TimestampNextDay(d: Date)
    requires ValidDate(d) && d != MaxDate
    ensures UnixTimestamp(NextDay(d)) == UnixTimestamp(d) + SecondsPerDay
  {
  }

  /** Distinct dates get distinct timestamps, in date order. */
  lemma TimestampOrder(a: Date, b: Date)
    requires ValidDate(a) && ValidDate(b)
    ensures Before(a, b) <==> UnixTimestamp(a) < UnixTimestamp(b)
    ensures a == b <==> UnixTimestamp(a) == UnixTimestamp(b)
  {
    OrdinalOrder(a, b);
  }

  /** C integer division (truncation toward zero), as the POSIX formula uses it. */
  function TruncDiv(a: int, b: int): int
    requires b > 0
  {
    if a >= 0 then a / b else -((-a) / b)
  }

  /** Day of the year counted from 0 (`tm_yday`). */
  function YearDay(d: Date): int
    requires ValidDate(d)
  {
    DaysBeforeMonth(d.year, d.month) + d.day - 1
  }

  /**
   * Seconds since the Epoch as defined in section 4.16 of POSIX.1-2017 Base
   * Definitions, from the broken-down fields of `struct tm`.
   */
  function PosixSeconds(tmSec: int, tmMin: int, tmHour: int, tmYday: int, tmYear: int): int {
    tmSec + tmMin * 60 + tmHour * 3600 + tmYday * 86400
    + (tmYear - 70) * 31536000 + TruncDiv(tmYear - 69, 4) * 86400
    - TruncDiv(tmYear - 1, 100) * 86400 + TruncDiv(tmYear + 299, 400) * 86400
  }

  /** For years from 1970 on, where POSIX defines it, the timestamp is the POSIX value at 00:00:00. */
  lemma TimestampMatchesPosix(d: Date)
    requires ValidDate(d) && d.year >= 1970
    ensures UnixTimestamp(d) == PosixSeconds(0, 0, 0, YearDay(d), d.year - 1900)
  {
    var y := d.year;
    assert (y - 1) / 4 == (y - 1969) / 4 + 492;
    assert (y - 1) / 100 == (y - 1901) / 100 + 19;
    assert (y - 1) / 400 == (y - 1601) / 400 + 4;
    assert DaysBeforeYear(y) - (EpochOrdinal - 1)
      == (y - 1970) * 365 + (y - 1969) / 4 - (y - 1901) / 100 + (y - 1601) / 400;
  }

  /** `%02d` for 0 <= n < 100. */
  function Pad2(n: int): (s: string)
    requires 0 <= n < 100
  {
    [DigitChar(n / 10), DigitChar(n % 10)]
  }

  /** `%04d` for 0 <= n < 10000. */
  function Pad4(n: int): (s: string)
    requires 0 <= n < 10000
  {
    [DigitChar(n / 1000), DigitChar(n / 100 % 10), DigitChar(n / 10 % 10), DigitChar(n % 10)]
  }

  /** `date.isoformat()`: the extended complete calendar date YYYY-MM-DD of ISO 8601:2004, section 4.1.2.2. */
  function IsoFormat(d: Date): (s: string)
    requires ValidDate(d)
    ensures |s| == 10 && s[4] == '-' && s[7] == '-'
    ensures AllDigits(s[..4]) && AllDigits(s[5..7]) && AllDigits(s[8..])
  {
    Pad4(d.year) + "-" + Pad2(d.month) + "-" + Pad2(d.day)
  }

  /** Reads a YYYY-MM-DD string back into a valid date. */
  function ParseIsoDate(s: string): Option<Date> {
    if |s| == 10 && s[4] == '-' && s[7] == '-'
       && AllDigits(s[..4]) && AllDigits(s[5..7]) && AllDigits(s[8..])
    then
      var d := Date(DecimalValue(s[..4]), DecimalValue(s[5..7]), DecimalValue(s[8..]));
      if ValidDate(d) then Some(d) else None
    else None
  }

  lemma Pad2Value(n: int)
    requires 0 <= n < 100
    ensures DecimalValue(Pad2(n)) == n
  {
    var s := Pad2(n);
    assert s[..1] == [DigitChar(n / 10)];
    assert DecimalValue(s[..1]) == n / 10;
  }

  lemma Pad4Value(n: int)
    requires 0 <= n < 10000
    ensures DecimalValue(Pad4(n)) == n
  {
    var d0, d1, d2, d3 := DigitChar(n / 1000), DigitChar(n / 100 % 10), DigitChar(n / 10 % 10), DigitChar(n % 10);
    DecimalSnoc([], d0);
    assert [] + [d0] == [d0];
    DecimalSnoc([d0], d1);
    assert [d0] + [d1] == [d0, d1];
    assert n / 1000 * 10 + n / 100 % 10 == n / 100 by {
      ShiftDigit(n / 100);
      DropTwoDigits(n);
    }
    DecimalSnoc([d0, d1], d2);
    assert [d0, d1] + [d2] == [d0, d1, d2];
    assert n / 100 * 10 + n / 10 % 10 == n / 10 by {
      ShiftDigit(n / 10);
      DropOneDigit(n);
    }
    DecimalSnoc([d0, d1, d2], d3);
    assert [d0, d1, d2] + [d3] == Pad4(n);
  }

  lemma ShiftDigit(m: int)
    ensures m / 10 * 10 + m % 10 == m
  {
  }

  lemma DropOneDigit(n: int)
    requires n >= 0
    ensures n / 100 == n / 10 / 10
  {
    var a := n / 10;
    var b := a / 10;
    assert n == 10 * a + n % 10;
    assert a == 10 * b + a % 10;
    assert n == 100 * b + (10 * (a % 10) + n % 10);
  }

  lemma DropTwoDigits(n: int)
    requires n >= 0
    ensures n / 1000 == n / 100 / 10
  {
    var a := n / 100;
    var b := a / 10;
    assert n == 100 * a + n % 100;
    assert a == 10 * b + a % 10;
    assert n == 1000 * b + (100 * (a % 10) + n % 100);
  }

  /** The ISO text of a date reads back as that date. */
  lemma IsoRoundTrip(d: Date)
    requires ValidDate(d)
    ensures ParseIsoDate(IsoFormat(d)) == Some(d)
  {
    var s := IsoFormat(d);
    assert s[..4] == Pad4(d.year);
    assert s[5..7] == Pad2(d.month);
    assert s[8..] == Pad2(d.day);
    Pad4Value(d.year);
    Pad2Value(d.month);
    Pad2Value(d.day);
  }

  /** Two dates with the same ISO text are the same date. */
  lemma IsoFormatInjective(a: Date, b: Date)
    requires ValidDate(a) && ValidDate(b)
    ensures IsoFormat(a) == IsoFormat(b) <==> a == b
  {
    IsoRoundTrip(a);
    IsoRoundTrip(b);
  }
}
