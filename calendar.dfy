/**
  UTC civil calendar arithmetic for Unix timestamps: the year and the date that
  `datetime.fromtimestamp(ts, timezone.utc)` gives, in the proleptic Gregorian
  calendar, written with integers only.

  Days are counted from 0001-01-01 (day 0); a timestamp's day is its number of
  seconds divided by 86400, rounded towards minus infinity, plus the day number
  of 1970-01-01.
 */
module Calendar {

  /** The range of years a Python `datetime` can hold; outside it `fromtimestamp` raises (see `InDatetimeRange`). */
  const MinYear := 1
  const MaxYear := 9999

  const SecondsPerDay := 86400

  /** Day number of 1970-01-01, the Unix epoch (see `EpochDayIsStartOf1970`). */
  const EpochDay := 719162

  predicate IsLeap(y: int) {
    y % 4 == 0 && (y % 100 != 0 || y % 400 == 0)
  }

  function DaysInYear(y: int): int {
    if IsLeap(y) then 366 else 365
  }

  /** Number of days from 0001-01-01 to the first day of year `y`. */
  function DaysBeforeYear(y: int): int {
    var n := y - 1;
    365 * n + n / 4 - n / 100 + n / 400
  }

  /** The mean Gregorian year is 146097/400 days; `DaysBeforeYear` stays within two days of it. */
  lemma DaysBeforeYearNearMean(y: int)
    ensures 146097 * (y - 1) - 699 <= 400 * DaysBeforeYear(y) <= 146097 * (y - 1) + 396
  {
    var n := y - 1;
    assert 4 * (n / 4) <= n < 4 * (n / 4) + 4;
    assert 100 * (n / 100) <= n < 100 * (n / 100) + 100;
    assert 400 * (n / 400) <= n < 400 * (n / 400) + 400;
  }

  /** Stepping from `y - 1` to `y` adds one to `y / 4` exactly when 4 divides `y`; likewise below for 100 and 400. */
  lemma DivStep4(y: int)
    ensures y / 4 - (y - 1) / 4 == if y % 4 == 0 then 1 else 0
  {
    var q, r := y / 4, y % 4;
    if r == 0 {
      assert y - 1 == 4 * (q - 1) + 3;
    } else {
      assert y - 1 == 4 * q + (r - 1);
    }
  }

  lemma DivStep100(y: int)
    ensures y / 100 - (y - 1) / 100 == if y % 100 == 0 then 1 else 0
  {
    var q, r := y / 100, y % 100;
    if r == 0 {
      assert y - 1 == 100 * (q - 1) + 99;
    } else {
      assert y - 1 == 100 * q + (r - 1);
    }
  }

  lemma DivStep400(y: int)
    ensures y / 400 - (y - 1) / 400 == if y % 400 == 0 then 1 else 0
  {
    var q, r := y / 400, y % 400;
    if r == 0 {
      assert y - 1 == 400 * (q - 1) + 399;
    } else {
      assert y - 1 == 400 * q + (r - 1);
    }
  }

  /** A multiple of 400 is one of 100, and a multiple of 100 one of 4. */
  lemma DivisorsNest(y: int)
    ensures y % 400 == 0 ==> y % 100 == 0
    ensures y % 100 == 0 ==> y % 4 == 0
  {
    if y % 400 == 0 {
      MultipleOf400(y);
    }
    if y % 100 == 0 {
      MultipleOf100(y);
    }
  }

  lemma MultipleOf400(y: int)
    requires y % 400 == 0
    ensures y % 100 == 0
  {
    var p := 4 * (y / 400);
    assert y == 100 * p;
    assert (100 * p) % 100 == 0;
  }

  lemma MultipleOf100(y: int)
    requires y % 100 == 0
    ensures y % 4 == 0
  {
    var p := 25 * (y / 100);
    assert y == 4 * p;
    assert (4 * p) % 4 == 0;
  }

  lemma YearLength(y: int)
    ensures DaysBeforeYear(y + 1) == DaysBeforeYear(y) + DaysInYear(y)
  {
    DivStep4(y);
    DivStep100(y);
    DivStep400(y);
    DivisorsNest(y);
    var n := y - 1;
    assert DaysBeforeYear(y + 1) - DaysBeforeYear(y) == 365 + (y / 4 - n / 4) - (y / 100 - n / 100) + (y / 400 - n / 400);
  }

  lemma DaysBeforeYearStrictlyIncreasing(a: int, b: int)
    requires a < b
    ensures DaysBeforeYear(a) < DaysBeforeYear(b)
  {
    DaysBeforeYearNearMean(a);
    DaysBeforeYearNearMean(b);
  }

  /** The year that day `n` falls in: an estimate from the mean year length, corrected by one. */
  function YearOfDay(n: int): int {
    var e := (400 * n) / 146097 + 1;
    if DaysBeforeYear(e + 1) <= n then e + 1 else e
  }

  lemma YearOfDayBounds(n: int)
    ensures DaysBeforeYear(YearOfDay(n)) <= n < DaysBeforeYear(YearOfDay(n) + 1)
  {
    var e := (400 * n) / 146097 + 1;
    DaysBeforeYearNearMean(e);
    DaysBeforeYearNearMean(e + 2);
  }

  /** A day lies in exactly one year. */
  lemma YearOfDayUnique(n: int, y: int)
    requires DaysBeforeYear(y) <= n < DaysBeforeYear(y + 1)
    ensures YearOfDay(n) == y
  {
    var x := YearOfDay(n);
    YearOfDayBounds(n);
    if x < y {
      if x + 1 < y {
        DaysBeforeYearStrictlyIncreasing(x + 1, y);
      }
    } else if y < x {
      if y + 1 < x {
        DaysBeforeYearStrictlyIncreasing(y + 1, x);
      }
    }
  }

  lemma YearOfDayMonotone(n1: int, n2: int)
    requires n1 <= n2
    ensures YearOfDay(n1) <= YearOfDay(n2)
  {
    var y1, y2 := YearOfDay(n1), YearOfDay(n2);
    YearOfDayBounds(n1);
    YearOfDayBounds(n2);
    if y2 < y1 && y2 + 1 < y1 {
      DaysBeforeYearStrictlyIncreasing(y2 + 1, y1);
    }
  }

  /** Days in the year before month `m` (1..12) begins; `m == 13` gives the length of the year. */
  function DaysBeforeMonth(y: int, m: int): int
    requires 1 <= m <= 13
  {
    [0, 31, 59, 90, 120, 151, 181, 212, 243, 273, 304, 334, 365][m - 1]
    + (if m > 2 && IsLeap(y) then 1 else 0)
  }

  function DaysInMonth(y: int, m: int): int
    requires 1 <= m <= 12
  {
    DaysBeforeMonth(y, m + 1) - DaysBeforeMonth(y, m)
  }

  lemma DaysBeforeMonthFacts(y: int, m: int)
    requires 1 <= m <= 12
    ensures 28 <= DaysInMonth(y, m) <= 31
    ensures DaysBeforeMonth(y, 1) == 0
    ensures DaysBeforeMonth(y, 13) == DaysInYear(y)
  {
  }

  lemma DaysBeforeMonthStrictlyIncreasing(y: int, a: int, b: int)
    requires 1 <= a < b <= 13
    ensures DaysBeforeMonth(y, a) < DaysBeforeMonth(y, b)
  {
  }

  /** The month (1..12) whose days contain day-of-year `doy`, searching downwards from month `m`. */
  function MonthOfDay(y: int, doy: int, m: int): (r: int)
    requires 1 <= m <= 12
    requires 0 <= doy < DaysBeforeMonth(y, m + 1)
    ensures 1 <= r <= m
    ensures DaysBeforeMonth(y, r) <= doy < DaysBeforeMonth(y, r + 1)
    decreases m
  {
    if DaysBeforeMonth(y, m) <= doy then m else MonthOfDay(y, doy, m - 1)
  }

  datatype Date = Date(year: int, month: int, day: int)

  ghost predicate ValidDate(d: Date) {
    1 <= d.month <= 12 && 1 <= d.day <= DaysInMonth(d.year, d.month)
  }

  /** Day number of a date; the inverse of `DateOfDay` (see `DateOfDayOfDate`). */
  function DayOfDate(d: Date): int
    requires 1 <= d.month <= 12
  {
    DaysBeforeYear(d.year) + DaysBeforeMonth(d.year, d.month) + d.day - 1
  }

  function DateOfDay(n: int): (d: Date)
    ensures ValidDate(d)
    ensures d.year == YearOfDay(n)
    ensures DayOfDate(d) == n
  {
    var y := YearOfDay(n);
    YearOfDayBounds(n);
    YearLength(y);
    var doy := n - DaysBeforeYear(y);
    var m := MonthOfDay(y, doy, 12);
    Date(y, m, doy - DaysBeforeMonth(y, m) + 1)
  }

  lemma DayOfDateWithinYear(d: Date)
    requires ValidDate(d)
    ensures DaysBeforeYear(d.year) <= DayOfDate(d) < DaysBeforeYear(d.year + 1)
  {
    YearLength(d.year);
    if d.month < 12 {
      DaysBeforeMonthStrictlyIncreasing(d.year, d.month + 1, 13);
    }
  }

  /** Chronological order of dates: by year, then month, then day. */
  predicate DateLe(a: Date, b: Date) {
    a.year < b.year || (a.year == b.year && (a.month < b.month || (a.month == b.month && a.day <= b.day)))
  }

  lemma EarlierDateEarlierDay(a: Date, b: Date)
    requires ValidDate(a) && ValidDate(b)
    requires DateLe(a, b) && a != b
    ensures DayOfDate(a) < DayOfDate(b)
  {
    DayOfDateWithinYear(a);
    DayOfDateWithinYear(b);
    if a.year < b.year {
      if a.year + 1 < b.year {
        DaysBeforeYearStrictlyIncreasing(a.year + 1, b.year);
      }
    } else if a.month < b.month {
      if a.month + 1 < b.month {
        DaysBeforeMonthStrictlyIncreasing(a.year, a.month + 1, b.month);
      }
    }
  }

  /** For valid dates, chronological order is the order of day numbers. */
  lemma DateOrderIsDayOrder(a: Date, b: Date)
    requires ValidDate(a) && ValidDate(b)
    ensures DateLe(a, b) <==> DayOfDate(a) <= DayOfDate(b)
  {
    if DateLe(a, b) && a != b {
      EarlierDateEarlierDay(a, b);
    } else if !DateLe(a, b) {
      EarlierDateEarlierDay(b, a);
    }
  }

  /** Every valid date is the date of its own day number. */
  lemma DateOfDayOfDate(d: Date)
    requires ValidDate(d)
    ensures DateOfDay(DayOfDate(d)) == d
  {
    var e := DateOfDay(DayOfDate(d));
    DateOrderIsDayOrder(d, e);
    DateOrderIsDayOrder(e, d);
  }

  /** Day of a Unix timestamp in UTC: seconds divided by 86400, rounded down, shifted to the epoch. */
  function DayOfTimestamp(ts: int): int {
    ts / SecondsPerDay + EpochDay
  }

  function YearOfTimestamp(ts: int): int {
    YearOfDay(DayOfTimestamp(ts))
  }

  function DateOfTimestamp(ts: int): (d: Date)
    ensures ValidDate(d) && d.year == YearOfTimestamp(ts)
  {
    DateOfDay(DayOfTimestamp(ts))
  }

  /** 0001-01-01T00:00:00Z and 10000-01-01T00:00:00Z as Unix timestamps (see `DatetimeRangeIsYearRange`). */
  const MinTimestamp := -62135596800
  const EndTimestamp := 253402300800

  /**
    Whether `datetime.fromtimestamp(ts, timezone.utc)` succeeds on a platform whose
    C `gmtime` covers every year a `datetime` can hold (64-bit Linux and macOS):
    the UTC year lies in 1..9999, that is, the timestamp lies between the first
    second of year 1 and the first second of year 10000. A narrower `gmtime`
    makes `fromtimestamp` raise on more timestamps.
   */
  predicate InDatetimeRange(ts: int) {
    MinTimestamp <= ts < EndTimestamp
  }

  /** The first second of year `y`, as a Unix timestamp. */
  function YearStart(y: int): int {
    (DaysBeforeYear(y) - EpochDay) * SecondsPerDay
  }

  /** Whether the Unix timestamp `ts` falls within year `y` (see `YearBoundaries`). */
  predicate InYear(ts: int, y: int) {
    YearStart(y) <= ts < YearStart(y + 1)
  }

  lemma EpochDayIsStartOf1970()
    ensures DaysBeforeYear(1970) == EpochDay
    ensures YearStart(1970) == 0
  {
  }

  lemma DayOfTimestampMonotone(t1: int, t2: int)
    requires t1 <= t2
    ensures DayOfTimestamp(t1) <= DayOfTimestamp(t2)
  {
  }

  /** Later timestamps never have an earlier UTC year. */
  lemma YearOfTimestampMonotone(t1: int, t2: int)
    requires t1 <= t2
    ensures YearOfTimestamp(t1) <= YearOfTimestamp(t2)
  {
    DayOfTimestampMonotone(t1, t2);
    YearOfDayMonotone(DayOfTimestamp(t1), DayOfTimestamp(t2));
  }

  /** Later timestamps never have an earlier UTC date. */
  lemma DateOfTimestampMonotone(t1: int, t2: int)
    requires t1 <= t2
    ensures DateLe(DateOfTimestamp(t1), DateOfTimestamp(t2))
  {
    DayOfTimestampMonotone(t1, t2);
    DateOrderIsDayOrder(DateOfTimestamp(t1), DateOfTimestamp(t2));
  }

  /** Comparing a timestamp's UTC year with `y` is comparing the timestamp with the bounds of year `y`. */
  lemma YearBoundaries(ts: int, y: int)
    ensures YearOfTimestamp(ts) < y <==> ts < YearStart(y)
    ensures YearOfTimestamp(ts) == y <==> InYear(ts, y)
  {
    var n := DayOfTimestamp(ts);
    var x := YearOfDay(n);
    YearOfDayBounds(n);
    assert SecondsPerDay * (ts / SecondsPerDay) <= ts < SecondsPerDay * (ts / SecondsPerDay) + SecondsPerDay;
    if x < y {
      if x + 1 < y {
        DaysBeforeYearStrictlyIncreasing(x + 1, y);
      }
    } else if y < x {
      DaysBeforeYearStrictlyIncreasing(y, x);
      if y + 1 < x {
        DaysBeforeYearStrictlyIncreasing(y + 1, x);
      }
    }
  }

  lemma DatetimeRangeIsYearRange(ts: int)
    ensures InDatetimeRange(ts) <==> MinYear <= YearOfTimestamp(ts) <= MaxYear
  {
    assert YearStart(MinYear) == MinTimestamp;
    assert YearStart(MaxYear + 1) == EndTimestamp;
    YearBoundaries(ts, MinYear);
    YearBoundaries(ts, MaxYear + 1);
  }
}
