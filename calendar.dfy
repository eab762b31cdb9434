/**
 * The proleptic Gregorian calendar as Python's `datetime` uses it, and the
 * fixed UTC+8 timeline both scrapers compute on. An instant is a whole number
 * of minutes since 0001-01-01 00:00 (UTC+8); every result the scrapers keep is
 * truncated to the hour and every offset they add is a whole number of hours,
 * so seconds and microseconds never change a result and are not represented.
 */
module Calendar {
  import opened Wrappers

  /** A wall-clock reading on the UTC+8 clock, to the minute. */
  datatype DateTime = DateTime(year: int, month: int, day: int, hour: int, minute: int)

  /** A start and an end instant, each possibly unknown (Python's `None`). */
  datatype Window = Window(start: Option<int>, end: Option<int>)

  const MinutesPerHour: int := 60
  const MinutesPerDay: int := 1440

  /** `datetime.MINYEAR` and `datetime.MAXYEAR` */
  const MinYear: int := 1
  const MaxYear: int := 9999

  predicate IsLeap(y: int)
  {
    y % 4 == 0 && (y % 100 != 0 || y % 400 == 0)
  }

  function DaysInYear(y: int): int
  {
    if IsLeap(y) then 366 else 365
  }

  function DaysInMonth(y: int, m: int): (n: int)
    requires 1 <= m <= 12
    ensures 28 <= n <= 31
  {
    if m == 2 then (if IsLeap(y) then 29 else 28)
    else if m == 4 || m == 6 || m == 9 || m == 11 then 30
    else 31
  }

  /** Days of year `y` before the first of month `m`. */
  function DaysBeforeMonth(y: int, m: int): int
    requires 1 <= m <= 12
  {
    [0, 31, 59, 90, 120, 151, 181, 212, 243, 273, 304, 334][m - 1]
      + (if m > 2 && IsLeap(y) then 1 else 0)
  }

  /** Days before January 1st of year `y`, counted from 0001-01-01. */
  function DaysBeforeYear(y: int): int
    requires y >= 1
  {
    var p := y - 1;
    p * 365 + p / 4 - p / 100 + p / 400
  }

  /** What `datetime(y, m, d)` accepts without raising `ValueError`. */
  predicate ValidDate(y: int, m: int, d: int)
  {
    MinYear <= y <= MaxYear && 1 <= m <= 12 && 1 <= d <= DaysInMonth(y, m)
  }

  predicate Valid(t: DateTime)
  {
    ValidDate(t.year, t.month, t.day) && 0 <= t.hour < 24 && 0 <= t.minute < 60
  }

  /** `date(y, m, d).toordinal()`: 0001-01-01 is day 1. */
  function Ordinal(y: int, m: int, d: int): int
    requires ValidDate(y, m, d)
  {
    DaysBeforeYear(y) + DaysBeforeMonth(y, m) + d
  }

  /** The instant a valid wall-clock reading names. */
  function ToMinutes(t: DateTime): int
    requires Valid(t)
  {
    (Ordinal(t.year, t.month, t.day) - 1) * MinutesPerDay + t.hour * MinutesPerHour + t.minute
  }

  /** `dt.replace(minute=0, second=0, microsecond=0)`: the start of the hour holding `t`. */
  function TruncHour(t: int): (r: int)
    ensures r % MinutesPerHour == 0
    ensures r <= t < r + MinutesPerHour
  {
    t - t % MinutesPerHour
  }

  /** Adding whole hours commutes with truncating to the hour. */
  lemma TruncHourShift(t: int, hours: int)
    ensures TruncHour(t + hours * MinutesPerHour) == TruncHour(t) + hours * MinutesPerHour
  {
    var a := TruncHour(t + hours * MinutesPerHour);
    var b := TruncHour(t) + hours * MinutesPerHour;
    assert b % MinutesPerHour == 0;
    assert b <= t + hours * MinutesPerHour < b + MinutesPerHour;
    HourStartUnique(t + hours * MinutesPerHour, a, b);
  }

  /** Truncating a reading to the hour zeroes its minutes. */
  lemma TruncHourOf(t: DateTime)
    requires Valid(t)
    ensures Valid(t.(minute := 0))
    ensures TruncHour(ToMinutes(t)) == ToMinutes(t.(minute := 0))
  {
    var k := (Ordinal(t.year, t.month, t.day) - 1) * 24 + t.hour;
    assert ToMinutes(t) == t.minute + k * MinutesPerHour;
    assert ToMinutes(t.(minute := 0)) == k * MinutesPerHour;
    TruncHourShift(t.minute, k);
  }

  /** Only one multiple of 60 lies in each hour. */
  lemma HourStartUnique(t: int, a: int, b: int)
    requires a % MinutesPerHour == 0 && a <= t < a + MinutesPerHour
    requires b % MinutesPerHour == 0 && b <= t < b + MinutesPerHour
    ensures a == b
  {
    var qa, qb := a / MinutesPerHour, b / MinutesPerHour;
    assert a == qa * MinutesPerHour;
    assert b == qb * MinutesPerHour;
  }

  // ------------------------------------------------------------------ order

  /** Strictly earlier as a reading: year, then month, day, hour, minute. */
  predicate Before(a: DateTime, b: DateTime)
  {
    || a.year < b.year
    || (a.year == b.year && a.month < b.month)
    || (a.year == b.year && a.month == b.month && a.day < b.day)
    || (a.year == b.year && a.month == b.month && a.day == b.day && a.hour < b.hour)
    || (a.year == b.year && a.month == b.month && a.day == b.day && a.hour == b.hour && a.minute < b.minute)
  }

  lemma YearStep(y: int)
    requires y >= 1
    ensures DaysBeforeYear(y + 1) == DaysBeforeYear(y) + DaysInYear(y)
  {
    var p := y - 1;
    assert (p + 1) / 4 == p / 4 + (if y % 4 == 0 then 1 else 0);
    assert (p + 1) / 100 == p / 100 + (if y % 100 == 0 then 1 else 0);
    assert (p + 1) / 400 == p / 400 + (if y % 400 == 0 then 1 else 0);
  }

  /** Every day of year `y1` comes before January 1st of a later year `y2`. */
  lemma {:induction false} YearsOrdered(y1: int, y2: int)
    requires 1 <= y1 < y2
    ensures DaysBeforeYear(y1) + DaysInYear(y1) <= DaysBeforeYear(y2)
    decreases y2 - y1
  {
    YearStep(y1);
    if y1 + 1 < y2 {
      YearsOrdered(y1 + 1, y2);
    }
  }

  /** Months tile the year without gaps or overlaps. */
  lemma MonthsOrdered(y: int, m1: int, m2: int)
    requires 1 <= m1 <= 12 && 1 <= m2 <= 12
    ensures m1 < m2 ==> DaysBeforeMonth(y, m1) + DaysInMonth(y, m1) <= DaysBeforeMonth(y, m2)
    ensures DaysBeforeMonth(y, m1) + DaysInMonth(y, m1) <= DaysInYear(y)
  {
  }

  /** A valid reading lies inside its year. */
  lemma OrdinalInYear(y: int, m: int, d: int)
    requires ValidDate(y, m, d)
    ensures DaysBeforeYear(y) < Ordinal(y, m, d) <= DaysBeforeYear(y) + DaysInYear(y)
  {
    MonthsOrdered(y, m, m);
  }

  /**
   * The timeline keeps the calendar order: an earlier reading is an earlier
   * instant and conversely, so distinct valid readings are distinct instants.
   */
  lemma ToMinutesOrder(a: DateTime, b: DateTime)
    requires Valid(a) && Valid(b)
    ensures Before(a, b) <==> ToMinutes(a) < ToMinutes(b)
    ensures a == b <==> ToMinutes(a) == ToMinutes(b)
  {
    if Before(a, b) {
      BeforeEarlier(a, b);
    } else if Before(b, a) {
      BeforeEarlier(b, a);
    } else {
      assert a == b;
    }
  }

  lemma BeforeEarlier(a: DateTime, b: DateTime)
    requires Valid(a) && Valid(b) && Before(a, b)
    ensures ToMinutes(a) < ToMinutes(b)
  {
    var oa := Ordinal(a.year, a.month, a.day);
    var ob := Ordinal(b.year, b.month, b.day);
    if a.year < b.year {
      OrdinalInYear(a.year, a.month, a.day);
      OrdinalInYear(b.year, b.month, b.day);
      YearsOrdered(a.year, b.year);
    } else if a.month < b.month {
      MonthsOrdered(a.year, a.month, b.month);
    }
    assert oa <= ob;
    if oa < ob {
      assert (oa - 1) * MinutesPerDay + MinutesPerDay <= (ob - 1) * MinutesPerDay;
    }
  }
}
