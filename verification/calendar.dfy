/** Broken-down calendar time, as `datetime.datetime` exposes it to `strftime`.
    A point in time is a count of seconds since 1970-01-01 00:00:00 on the bot's
    local wall clock; the bot's zone has a fixed offset, so no daylight-saving jumps occur. */
module Calendar {

  type Time = nat

  const SecondsPerMinute: nat := 60
  const SecondsPerHour: nat := 3600
  const SecondsPerDay: nat := 86400
  const Epoch: int := 1970

  predicate IsLeapYear(y: int) {
    y % 4 == 0 && (y % 100 != 0 || y % 400 == 0)
  }

  function DaysInYear(y: int): nat {
    if IsLeapYear(y) then 366 else 365
  }

  function DaysInMonth(y: int, m: int): nat
    requires 1 <= m <= 12
  {
    if m == 2 then (if IsLeapYear(y) then 29 else 28)
    else if m == 4 || m == 6 || m == 9 || m == 11 then 30
    else 31
  }

  /** Days from 1 January to the first day of month `m` of year `y`. */
  function DaysBeforeMonth(y: int, m: int): nat
    requires 1 <= m <= 12
  {
    [0, 31, 59, 90, 120, 151, 181, 212, 243, 273, 304, 334][m - 1]
      + (if m > 2 && IsLeapYear(y) then 1 else 0)
  }

  lemma DaysBeforeNextMonth(y: int, m: int)
    requires 1 <= m <= 12
    ensures m < 12 ==> DaysBeforeMonth(y, m + 1) == DaysBeforeMonth(y, m) + DaysInMonth(y, m)
    ensures m == 12 ==> DaysInYear(y) == DaysBeforeMonth(y, m) + DaysInMonth(y, m)
  {
  }

  /** Days from 1 January of year `start` to 1 January of year `end`. */
  function DaysBetweenYears(start: int, end: int): nat
    requires start <= end
    decreases end - start
  {
    if start == end then 0 else DaysInYear(start) + DaysBetweenYears(start + 1, end)
  }

  /** The leap years before year `y`, counting from year 1. */
  function LeapYearsBefore(y: int): int
    requires y >= 1
  {
    (y - 1) / 4 - (y - 1) / 100 + (y - 1) / 400
  }

  /** Quotient and remainder are determined by any decomposition `x == q * k + r`. */
  lemma DivUnique(x: int, k: int, q: int, r: int)
    requires k > 0 && 0 <= r < k && x == q * k + r
    ensures x / k == q && x % k == r
  {
    var d := x / k - q;
    assert d * k == r - x % k by {
      assert x == (x / k) * k + x % k;
      assert (x / k) * k - q * k == d * k;
    }
  }

  /** Stepping from `y - 1` to `y` adds one exactly when `y` itself is a multiple of `k`. */
  lemma DivStep(y: int, k: int)
    requires y >= 1 && k > 0
    ensures y / k - (y - 1) / k == if y % k == 0 then 1 else 0
  {
    var q, r := y / k, y % k;
    if r == 0 {
      DivUnique(y - 1, k, q - 1, k - 1);
    } else {
      DivUnique(y - 1, k, q, r - 1);
    }
  }

  lemma LeapYearStep(y: int)
    requires y >= 1
    ensures LeapYearsBefore(y + 1) == LeapYearsBefore(y) + (if IsLeapYear(y) then 1 else 0)
  {
    DivStep(y, 4);
    DivStep(y, 100);
    DivStep(y, 400);
    if y % 400 == 0 {
      assert y == 100 * (4 * (y / 400));
    }
    if y % 100 == 0 {
      assert y == 4 * (25 * (y / 100));
    }
  }

  /** The Gregorian count of days between two New Year's Days, in closed form. */
  lemma {:induction false} DaysBetweenYearsClosedForm(start: int, end: int)
    requires 1 <= start <= end
    ensures DaysBetweenYears(start, end) == 365 * (end - start) + LeapYearsBefore(end) - LeapYearsBefore(start)
    decreases end - start
  {
    if start < end {
      DaysBetweenYearsClosedForm(start + 1, end);
      LeapYearStep(start);
    }
  }

  /** `timedelta.max.days`: a longer duration, either way, raises `OverflowError`. */
  const MaxDeltaDays: nat := 999999999

  /** `datetime` covers the years 1 to 9999: from 0001-01-01, this many days before the
      epoch, up to 10000-01-01, this many days after it. */
  const DaysFromYearOne: nat := 719162
  const DaysToYearTenThousand: nat := 2932897

  lemma DateRangeIsYearOneTo9999()
    ensures DaysBetweenYears(1, Epoch) == DaysFromYearOne
    ensures DaysBetweenYears(Epoch, 10000) == DaysToYearTenThousand
  {
    DaysBetweenYearsClosedForm(1, Epoch);
    DaysBetweenYearsClosedForm(Epoch, 10000);
  }

  /** `timedelta(seconds=s)` can be built: its days, `s // 86400`, lie within the limit. */
  predicate DeltaInRange(seconds: int) {
    -(MaxDeltaDays as int) <= seconds / SecondsPerDay <= MaxDeltaDays
  }

  /** A `datetime` can hold the instant: it falls in the years 1 to 9999. */
  predicate DateInRange(t: int) {
    -(DaysFromYearOne * SecondsPerDay) <= t < DaysToYearTenThousand * SecondsPerDay
  }

  datatype DateTime = DateTime(year: int, month: int, day: int, hour: int, minute: int, second: int)

  predicate Valid(dt: DateTime) {
    && Epoch <= dt.year
    && 1 <= dt.month <= 12
    && 1 <= dt.day <= DaysInMonth(dt.year, dt.month)
    && 0 <= dt.hour < 24
    && 0 <= dt.minute < 60
    && 0 <= dt.second < 60
  }

  function FromDateTime(dt: DateTime): Time
    requires Valid(dt)
  {
    (DaysBetweenYears(Epoch, dt.year) + DaysBeforeMonth(dt.year, dt.month) + dt.day - 1) * SecondsPerDay
      + dt.hour * SecondsPerHour + dt.minute * SecondsPerMinute + dt.second
  }

  /** Splits a count of days since 1 January of year `y` into a year and a day within that year. */
  function SplitYears(days: nat, y: int): (r: (int, nat))
    ensures y <= r.0 && r.1 < DaysInYear(r.0)
    ensures DaysBetweenYears(y, r.0) + r.1 == days
    decreases days
  {
    if days < DaysInYear(y) then (y, days) else SplitYears(days - DaysInYear(y), y + 1)
  }

  /** Splits a day of year `y` into a month (searched from `m` on) and a day of that month. */
  function SplitMonths(y: int, doy: nat, m: int): (r: (int, int))
    requires 1 <= m <= 12
    requires DaysBeforeMonth(y, m) <= doy < DaysInYear(y)
    ensures m <= r.0 <= 12 && 1 <= r.1 <= DaysInMonth(y, r.0)
    ensures DaysBeforeMonth(y, r.0) + r.1 - 1 == doy
    decreases 12 - m
  {
    DaysBeforeNextMonth(y, m);
    if m == 12 || doy < DaysBeforeMonth(y, m) + DaysInMonth(y, m) then
      (m, doy - DaysBeforeMonth(y, m) + 1)
    else
      SplitMonths(y, doy, m + 1)
  }

  /** The calendar fields of a point in time; converting them back gives the same point. */
  function ToDateTime(t: Time): (dt: DateTime)
    ensures Valid(dt)
    ensures FromDateTime(dt) == t
  {
    var days := t / SecondsPerDay;
    var secs := t % SecondsPerDay;
    var (y, doy) := SplitYears(days, Epoch);
    var (m, d) := SplitMonths(y, doy, 1);
    DateTime(y, m, d, secs / SecondsPerHour, secs % SecondsPerHour / SecondsPerMinute, secs % SecondsPerMinute)
  }
}
