/**
 * The proleptic Gregorian calendar the way Python's `datetime` module computes it:
 * `toordinal()` (0001-01-01 is day 1), `weekday()` (Monday is 0), and adding a
 * whole number of hours to a `datetime`, which carries into the next day, month
 * and year and raises `OverflowError` past 9999-12-31.
 */
module Civil {
  import opened Common

  datatype Date = Date(year: int, month: int, day: int)
  datatype Time = Time(hour: int, minute: int, second: int, micro: int)
  datatype DateTime = DateTime(date: Date, time: Time)

  /** Python's `MINYEAR` and `MAXYEAR`. */
  const MinYear := 1
  const MaxYear := 9999

  predicate IsLeap(y: int) {
    y % 4 == 0 && (y % 100 != 0 || y % 400 == 0)
  }

  function DaysInMonth(y: int, m: int): (n: int)
    requires 1 <= m <= 12
    ensures 28 <= n <= 31
  {
    if m == 2 then (if IsLeap(y) then 29 else 28)
    else if m == 4 || m == 6 || m == 9 || m == 11 then 30
    else 31
  }

  predicate ValidDate(d: Date) {
    MinYear <= d.year <= MaxYear && 1 <= d.month <= 12 && 1 <= d.day <= DaysInMonth(d.year, d.month)
  }

  predicate ValidTime(t: Time) {
    0 <= t.hour < 24 && 0 <= t.minute < 60 && 0 <= t.second < 60 && 0 <= t.micro < 1000000
  }

  predicate ValidDateTime(dt: DateTime) {
    ValidDate(dt.date) && ValidTime(dt.time)
  }

  /** Days in the years before year `y` (Python's `_days_before_year`). */
  function DaysBeforeYear(y: int): int {
    var z := y - 1;
    z * 365 + z / 4 - z / 100 + z / 400
  }

  /** Days in the months of year `y` before month `m` (Python's `_days_before_month`). */
  function DaysBeforeMonth(y: int, m: int): int
    requires 1 <= m <= 12
  {
    var common :=
      if m == 1 then 0 else if m == 2 then 31 else if m == 3 then 59
      else if m == 4 then 90 else if m == 5 then 120 else if m == 6 then 151
      else if m == 7 then 181 else if m == 8 then 212 else if m == 9 then 243
      else if m == 10 then 273 else if m == 11 then 304 else 334;
    common + (if m > 2 && IsLeap(y) then 1 else 0)
  }

  /** Python's `date.toordinal()`. */
  function Ordinal(d: Date): int
    requires 1 <= d.month <= 12
  {
    DaysBeforeYear(d.year) + DaysBeforeMonth(d.year, d.month) + d.day
  }

  /** Python's `date.weekday()`: Monday is 0, Sunday is 6. */
  function Weekday(d: Date): (w: nat)
    requires 1 <= d.month <= 12
    ensures w < 7
  {
    (Ordinal(d) + 6) % 7
  }

  /** Seconds since 0001-01-01T00:00:00 (microseconds aside). */
  function Seconds(dt: DateTime): int
    requires 1 <= dt.date.month <= 12
  {
    (Ordinal(dt.date) - 1) * 86400 + dt.time.hour * 3600 + dt.time.minute * 60 + dt.time.second
  }

  lemma DivStep(y: int)
    requires y >= 1
    ensures y / 4 - (y - 1) / 4 == (if y % 4 == 0 then 1 else 0)
    ensures y / 100 - (y - 1) / 100 == (if y % 100 == 0 then 1 else 0)
    ensures y / 400 - (y - 1) / 400 == (if y % 400 == 0 then 1 else 0)
    ensures y % 100 == 0 ==> y % 4 == 0
    ensures y % 400 == 0 ==> y % 100 == 0
  {
  }

  /** A year adds 366 days when it is a leap year and 365 otherwise. */
  lemma DaysBeforeYearStep(y: int)
    requires y >= 1
    ensures DaysBeforeYear(y + 1) == DaysBeforeYear(y) + (if IsLeap(y) then 366 else 365)
  {
    DivStep(y);
  }

  lemma {:induction false} DaysBeforeYearMonotone(y1: int, y2: int)
    requires 1 <= y1 < y2
    ensures DaysBeforeYear(y1) + 365 <= DaysBeforeYear(y2)
    decreases y2 - y1
  {
    DaysBeforeYearStep(y1);
    if y1 + 1 < y2 {
      DaysBeforeYearMonotone(y1 + 1, y2);
    }
  }

  lemma DaysBeforeMonthStep(y: int, m: int)
    requires 1 <= m < 12
    ensures DaysBeforeMonth(y, m + 1) == DaysBeforeMonth(y, m) + DaysInMonth(y, m)
  {
  }

  lemma {:induction false} DaysBeforeMonthMonotone(y: int, m1: int, m2: int)
    requires 1 <= m1 < m2 <= 12
    ensures DaysBeforeMonth(y, m1) + DaysInMonth(y, m1) <= DaysBeforeMonth(y, m2)
    decreases m2 - m1
  {
    DaysBeforeMonthStep(y, m1);
    if m1 + 1 < m2 {
      DaysBeforeMonthMonotone(y, m1 + 1, m2);
    }
  }

  /** The ordinal of a valid date falls within its own year's range of ordinals. */
  lemma OrdinalWithinYear(d: Date)
    requires ValidDate(d)
    ensures DaysBeforeYear(d.year) < Ordinal(d) <= DaysBeforeYear(d.year + 1)
  {
    DaysBeforeYearStep(d.year);
    if d.month < 12 {
      DaysBeforeMonthMonotone(d.year, d.month, 12);
    }
  }

  /** Distinct valid dates have distinct ordinals. */
  lemma OrdinalInjective(d1: Date, d2: Date)
    requires ValidDate(d1) && ValidDate(d2)
    requires Ordinal(d1) == Ordinal(d2)
    ensures d1 == d2
  {
    OrdinalWithinYear(d1);
    OrdinalWithinYear(d2);
    if d1.year < d2.year {
      if d1.year + 1 < d2.year {
        DaysBeforeYearMonotone(d1.year + 1, d2.year);
      }
    } else if d2.year < d1.year {
      if d2.year + 1 < d1.year {
        DaysBeforeYearMonotone(d2.year + 1, d1.year);
      }
    } else if d1.month < d2.month {
      DaysBeforeMonthMonotone(d1.year, d1.month, d2.month);
    } else if d2.month < d1.month {
      DaysBeforeMonthMonotone(d1.year, d2.month, d1.month);
    }
  }

  /** A valid date-time is determined by its seconds count and its microseconds. */
  lemma SecondsInjective(a: DateTime, b: DateTime)
    requires ValidDateTime(a) && ValidDateTime(b)
    requires Seconds(a) == Seconds(b) && a.time.micro == b.time.micro
    ensures a == b
  {
    var sa := a.time.hour * 3600 + a.time.minute * 60 + a.time.second;
    var sb := b.time.hour * 3600 + b.time.minute * 60 + b.time.second;
    assert (Ordinal(a.date) - Ordinal(b.date)) * 86400 == sb - sa;
    assert Ordinal(a.date) == Ordinal(b.date);
    OrdinalInjective(a.date, b.date);
    assert (a.time.hour - b.time.hour) * 3600 == (b.time.minute * 60 + b.time.second) - (a.time.minute * 60 + a.time.second);
    assert a.time.hour == b.time.hour;
    assert (a.time.minute - b.time.minute) * 60 == b.time.second - a.time.second;
  }

  /** The day after `d`; 9999-12-31 is followed by the out-of-range 10000-01-01. */
  function NextDay(d: Date): (r: Date)
    requires ValidDate(d)
    ensures 1 <= r.month <= 12
    ensures Ordinal(r) == Ordinal(d) + 1
    ensures ValidDate(r) <==> d != Date(MaxYear, 12, 31)
  {
    if d.day < DaysInMonth(d.year, d.month) then
      Date(d.year, d.month, d.day + 1)
    else if d.month < 12 then
      Date(d.year, d.month + 1, 1)
    else
      DaysBeforeYearStep(d.year);
      Date(d.year + 1, 1, 1)
  }

  /** The weekday advances by one, cyclically, from one day to the next. */
  lemma NextDayWeekday(d: Date)
    requires ValidDate(d)
    ensures Weekday(NextDay(d)) == (Weekday(d) + 1) % 7
  {
    var x := Ordinal(d) + 6;
    assert Ordinal(NextDay(d)) + 6 == x + 1;
    ModSevenStep(x);
  }

  lemma ModSevenStep(x: int)
    ensures (x + 1) % 7 == (x % 7 + 1) % 7
  {
    var q := x / 7;
    assert x == 7 * q + x % 7;
    if x % 7 < 6 {
      assert x + 1 == 7 * q + (x % 7 + 1);
    } else {
      assert x + 1 == 7 * (q + 1);
    }
  }

  /**
   * Python's `dt + timedelta(hours=h)` for `0 <= h < 24`. `None` stands for the
   * exceptions: an invalid `dt` (`fromisoformat` would have raised `ValueError`)
   * or a result past 9999-12-31 (`OverflowError`).
   */
  function AddHours(dt: DateTime, h: nat): (r: Option<DateTime>)
    requires h < 24
    ensures r.Some? <==> ValidDateTime(dt) && !(dt.date == Date(MaxYear, 12, 31) && dt.time.hour + h >= 24)
    ensures r.Some? ==> ValidDateTime(r.value)
    ensures r.Some? ==> Seconds(r.value) == Seconds(dt) + h * 3600
    ensures r.Some? ==> r.value.time.micro == dt.time.micro
  {
    if !ValidDateTime(dt) then None
    else if dt.time.hour + h < 24 then
      Some(DateTime(dt.date, dt.time.(hour := dt.time.hour + h)))
    else if dt.date == Date(MaxYear, 12, 31) then None
    else
      Some(DateTime(NextDay(dt.date), dt.time.(hour := dt.time.hour + h - 24)))
  }

  /** `AddHours` gives the one valid date-time exactly `h` hours after `dt`. */
  lemma AddHoursUnique(dt: DateTime, h: nat, other: DateTime)
    requires h < 24
    requires AddHours(dt, h).Some?
    requires ValidDateTime(other) && other.time.micro == dt.time.micro
    requires Seconds(other) == Seconds(dt) + h * 3600
    ensures other == AddHours(dt, h).value
  {
    SecondsInjective(other, AddHours(dt, h).value);
  }
}
