/** The proleptic Gregorian calendar as .NET's DateTime uses it: an instant
    is a count of 100-nanosecond ticks since 0001-01-01T00:00:00, valid up to
    the last tick of 9999-12-31. Civil dates (year, month, day, hour, minute,
    second) convert to and from instants; sub-second ticks are kept only in
    the instant. */
module Calendar {

  import opened Wrappers

  /** 100-nanosecond ticks since 0001-01-01T00:00:00. */
  type Instant = int

  const TicksPerSecond: int := 10_000_000
  const TicksPerMinute: int := 600_000_000
  const TicksPerHour: int := 36_000_000_000
  const TicksPerDay: int := 864_000_000_000
  const SecondsPerDay: int := 86_400

  const MinYear: int := 1
  const MaxYear: int := 9999

  predicate IsLeapYear(year: int) {
    year % 4 == 0 && (year % 100 != 0 || year % 400 == 0)
  }

  function DaysInYear(year: int): int {
    if IsLeapYear(year) then 366 else 365
  }

  function DaysInMonth(year: int, month: int): int
    requires 1 <= month <= 12
  {
    if month == 2 then (if IsLeapYear(year) then 29 else 28)
    else if month == 4 || month == 6 || month == 9 || month == 11 then 30
    else 31
  }

  /** Days of the year that precede the first day of `month`; month 13 stands
      for the end of the year. These are .NET's DaysToMonth365 and
      DaysToMonth366 tables, the second one day longer from March on. */
  function DaysBeforeMonth(year: int, month: int): nat
    requires 1 <= month <= 13
  {
    var common :=
      if month == 1 then 0
      else if month == 2 then 31
      else if month == 3 then 59
      else if month == 4 then 90
      else if month == 5 then 120
      else if month == 6 then 151
      else if month == 7 then 181
      else if month == 8 then 212
      else if month == 9 then 243
      else if month == 10 then 273
      else if month == 11 then 304
      else if month == 12 then 334
      else 365;
    if month >= 3 && IsLeapYear(year) then common + 1 else common
  }

  /** Days from 0001-01-01 to the first day of `year`: 365 a year plus one
      for every leap year before it. */
  function DaysBeforeYear(year: int): nat
    requires year >= MinYear
  {
    var y := year - 1;
    365 * y + y / 4 - y / 100 + y / 400
  }

  /** Days from 0001-01-01 to 10000-01-01, the end of the calendar. */
  const DaysTo10000: int := 3_652_059

  /** One past the last valid tick (DateTime.MaxValue.Ticks + 1). */
  const MaxInstant: int := 3_155_378_976_000_000_000

  /** The instants a DateTime can hold. */
  predicate InRange(t: Instant) {
    0 <= t < MaxInstant
  }

  datatype DateParts = DateParts(year: int, month: int, day: int, hour: int, minute: int, second: int)

  predicate ValidParts(p: DateParts) {
    && MinYear <= p.year <= MaxYear
    && 1 <= p.month <= 12
    && 1 <= p.day <= DaysInMonth(p.year, p.month)
    && 0 <= p.hour < 24
    && 0 <= p.minute < 60
    && 0 <= p.second < 60
  }

  /** Days from 0001-01-01 to the date of `p`. */
  function DayNumber(p: DateParts): nat
    requires ValidParts(p)
  {
    DaysBeforeYear(p.year) + DaysBeforeMonth(p.year, p.month) + p.day - 1
  }

  function SecondOfDay(p: DateParts): nat
    requires ValidParts(p)
  {
    p.hour * 3600 + p.minute * 60 + p.second
  }

  /** The instant at the start of the second named by `p`. */
  function FromParts(p: DateParts): (t: Instant)
    requires ValidParts(p)
    ensures InRange(t)
    ensures t % TicksPerSecond == 0
  {
    DayNumberBelowMax(p);
    DayNumber(p) * TicksPerDay + SecondOfDay(p) * TicksPerSecond
  }

  /** Peels whole years off a day count, starting at `year`; returns the year
      the day falls in and the day's index within that year. */
  function FindYear(days: nat, year: int): (r: (int, nat))
    requires year >= MinYear
    ensures r.0 >= year
    ensures r.1 < DaysInYear(r.0)
    ensures DaysBeforeYear(r.0) + r.1 == DaysBeforeYear(year) + days
    decreases days
  {
    if days < DaysInYear(year) then (year, days)
    else
      DaysBeforeYearStep(year);
      FindYear(days - DaysInYear(year), year + 1)
  }

  /** The month, starting the search at `month`, whose days hold `dayOfYear`. */
  function FindMonth(dayOfYear: nat, year: int, month: int): (m: int)
    requires 1 <= month <= 12
    requires DaysBeforeMonth(year, month) <= dayOfYear < DaysInYear(year)
    ensures month <= m <= 12
    ensures DaysBeforeMonth(year, m) <= dayOfYear < DaysBeforeMonth(year, m + 1)
    decreases 12 - month
  {
    if dayOfYear < DaysBeforeMonth(year, month + 1) then month
    else FindMonth(dayOfYear, year, month + 1)
  }

  /** The civil date, at midnight, of the day `days` days after
      0001-01-01. */
  function DateOfDay(days: nat): (p: DateParts)
    requires days < DaysTo10000
    ensures ValidParts(p) && p.hour == 0 && p.minute == 0 && p.second == 0
    ensures DayNumber(p) == days
  {
    var found := FindYear(days, MinYear);
    var year, dayOfYear := found.0, found.1;
    YearBelowMax(days, year, dayOfYear);
    var month := FindMonth(dayOfYear, year, 1);
    DaysBeforeMonthStep(year, month);
    DateParts(year, month, dayOfYear - DaysBeforeMonth(year, month) + 1, 0, 0, 0)
  }

  /** The civil date of the second that holds `t`. */
  function ToParts(t: Instant): (p: DateParts)
    requires InRange(t)
    ensures ValidParts(p)
  {
    var date := DateOfDay(t / TicksPerDay);
    var second := (t % TicksPerDay) / TicksPerSecond;
    DateParts(date.year, date.month, date.day, second / 3600, (second % 3600) / 60, second % 60)
  }

  /** `t` with its sub-second ticks dropped. */
  function TruncateToSecond(t: Instant): (r: Instant)
    ensures r <= t < r + TicksPerSecond
    ensures r % TicksPerSecond == 0
  {
    t - t % TicksPerSecond
  }

  /** DateTime.AddSeconds for a whole number of seconds: None where .NET throws
      because the result leaves the DateTime range. */
  function AddSeconds(t: Instant, seconds: int): (r: Option<Instant>)
    ensures r.Some? <==> InRange(t + seconds * TicksPerSecond)
    ensures r.Some? ==> r.value - t == seconds * TicksPerSecond
  {
    var u := t + seconds * TicksPerSecond;
    if InRange(u) then Some(u) else None
  }

  // ---------------------------------------------------------------------
  // Lemmas

  lemma MulGrows(d: int, k: int)
    requires d > 0 && k >= 1
    ensures d * k >= d
  {}

  /** Quotient and remainder by a positive divisor are the only pair that
      rebuilds the dividend. */
  lemma DivModUnique(x: int, d: int, q: int, m: int)
    requires d > 0 && x == d * q + m && 0 <= m < d
    ensures x / d == q && x % d == m
  {
    var q', m' := x / d, x % d;
    if q > q' {
      assert d * (q - q') == m' - m;
      MulGrows(d, q - q');
    } else if q < q' {
      assert d * (q' - q) == m - m';
      MulGrows(d, q' - q);
    }
  }

  lemma DivStep(y: int, d: int)
    requires y >= 0 && d > 0
    ensures (y + 1) / d == y / d + (if (y + 1) % d == 0 then 1 else 0)
  {
    var q, m := y / d, y % d;
    if m + 1 == d {
      DivModUnique(y + 1, d, q + 1, 0);
    } else {
      DivModUnique(y + 1, d, q, m + 1);
    }
  }

  /** Each year adds its own length: the closed form agrees with counting
      the years one by one. */
  lemma DaysBeforeYearStep(year: int)
    requires year >= MinYear
    ensures DaysBeforeYear(year + 1) == DaysBeforeYear(year) + DaysInYear(year)
  {
    var y := year - 1;
    DivStep(y, 4);
    DivStep(y, 100);
    DivStep(y, 400);
    if year % 400 == 0 {
      DivModUnique(year, 100, 4 * (year / 400), 0);
    }
    if year % 100 == 0 {
      DivModUnique(year, 4, 25 * (year / 100), 0);
    }
    var a, b, c := (y + 1) / 4 - y / 4, (y + 1) / 100 - y / 100, (y + 1) / 400 - y / 400;
    assert DaysBeforeYear(year + 1) - DaysBeforeYear(year) == 365 + a - b + c;
  }

  lemma DaysInMonthBounds(year: int, month: int)
    requires 1 <= month <= 12
    ensures 28 <= DaysInMonth(year, month) <= 31
  {}

  /** Consecutive month starts are one month apart, and the twelve months
      make up the year. */
  lemma DaysBeforeMonthStep(year: int, month: int)
    requires 1 <= month <= 12
    ensures DaysBeforeMonth(year, month + 1) == DaysBeforeMonth(year, month) + DaysInMonth(year, month)
    ensures DaysBeforeMonth(year, 13) == DaysInYear(year)
  {}

  lemma {:induction false} DaysBeforeMonthMonotone(year: int, a: int, b: int)
    requires 1 <= a <= b <= 13
    ensures DaysBeforeMonth(year, a) + 28 * (b - a) <= DaysBeforeMonth(year, b)
    decreases b - a
  {
    if a < b {
      DaysBeforeMonthStep(year, a);
      DaysBeforeMonthMonotone(year, a + 1, b);
    }
  }

  /** Years start further from the epoch the later they are. */
  lemma {:induction false} DaysBeforeYearMonotone(a: int, b: int)
    requires MinYear <= a <= b
    ensures DaysBeforeYear(a) + 365 * (b - a) <= DaysBeforeYear(b)
    decreases b - a
  {
    if a < b {
      DaysBeforeYearMonotone(a, b - 1);
      DaysBeforeYearStep(b - 1);
    }
  }

  /** The calendar ends with year 9999. */
  lemma EndOfCalendar()
    ensures DaysBeforeYear(MaxYear + 1) == DaysTo10000
    ensures MaxInstant == DaysTo10000 * TicksPerDay
  {}

  lemma DayNumberBelowMax(p: DateParts)
    requires ValidParts(p)
    ensures DayNumber(p) < DaysTo10000
    ensures SecondOfDay(p) < SecondsPerDay
  {
    DaysBeforeMonthStep(p.year, p.month);
    DaysBeforeMonthMonotone(p.year, p.month + 1, 13);
    DaysBeforeYearMonotone(p.year + 1, MaxYear + 1);
    EndOfCalendar();
  }

  lemma YearBelowMax(days: int, year: int, dayOfYear: nat)
    requires 0 <= days < DaysTo10000
    requires year >= MinYear
    requires DaysBeforeYear(year) + dayOfYear == DaysBeforeYear(MinYear) + days
    ensures year <= MaxYear
  {
    EndOfCalendar();
    if year > MaxYear {
      DaysBeforeYearMonotone(MaxYear + 1, year);
    }
  }
  /** Finding the year of a day that lies `dayOfYear` days into `target`
      lands on `target`, whichever earlier year the search starts from. */
  lemma {:induction false} FindYearOfKnownDay(start: int, target: int, dayOfYear: nat, days: nat)
    requires MinYear <= start <= target
    requires dayOfYear < DaysInYear(target)
    requires days == DaysBeforeYear(target) - DaysBeforeYear(start) + dayOfYear
    ensures FindYear(days, start) == (target, dayOfYear)
    decreases target - start
  {
    if start < target {
      DaysBeforeYearStep(start);
      DaysBeforeYearMonotone(start + 1, target);
      FindYearOfKnownDay(start + 1, target, dayOfYear, days - DaysInYear(start));
    }
  }

  /** The month search finds the month whose days hold the day. */
  lemma FindMonthOfKnownDay(year: int, month: int, day: int, doy: nat)
    requires 1 <= month <= 12
    requires 1 <= day <= DaysInMonth(year, month)
    requires doy == DaysBeforeMonth(year, month) + day - 1
    ensures doy < DaysInYear(year)
    ensures FindMonth(doy, year, 1) == month
  {
    DaysBeforeMonthStep(year, month);
    DaysBeforeMonthMonotone(year, month + 1, 13);
    var m := FindMonth(doy, year, 1);
    assert !(m < month) by {
      if m < month {
        DaysBeforeMonthMonotone(year, m + 1, month);
      }
    }
    assert !(m > month) by {
      if m > month {
        DaysBeforeMonthMonotone(year, month + 1, m);
      }
    }
  }

  lemma SplitDayTicks(days: nat, second: nat)
    requires second < SecondsPerDay
    ensures (days * TicksPerDay + second * TicksPerSecond) / TicksPerDay == days
    ensures ((days * TicksPerDay + second * TicksPerSecond) % TicksPerDay) / TicksPerSecond == second
  {
    var t := days * TicksPerDay + second * TicksPerSecond;
    assert 0 <= second * TicksPerSecond < TicksPerDay;
  }

  lemma SplitSecondOfDay(hour: int, minute: int, second: int)
    requires 0 <= hour < 24 && 0 <= minute < 60 && 0 <= second < 60
    ensures (hour * 3600 + minute * 60 + second) / 3600 == hour
    ensures ((hour * 3600 + minute * 60 + second) % 3600) / 60 == minute
    ensures (hour * 3600 + minute * 60 + second) % 60 == second
  {}

  /** The date search finds the date of a known day: `doy` days into the
      year, `days` days since 0001-01-01. */
  lemma DateOfKnownDay(year: int, month: int, day: int, doy: nat, days: nat)
    requires MinYear <= year <= MaxYear && 1 <= month <= 12 && 1 <= day <= DaysInMonth(year, month)
    requires doy == DaysBeforeMonth(year, month) + day - 1
    requires days == DaysBeforeYear(year) + doy
    ensures days < DaysTo10000
    ensures DateOfDay(days) == DateParts(year, month, day, 0, 0, 0)
  {
    FindMonthOfKnownDay(year, month, day, doy);
    DaysBeforeYearMonotone(year + 1, MaxYear + 1);
    EndOfCalendar();
    DaysBeforeYearStep(year);
    FindYearOfKnownDay(MinYear, year, doy, days);
  }

  /** Converting a valid civil date to an instant and back gives the date. */
  lemma ToPartsFromParts(p: DateParts)
    requires ValidParts(p)
    ensures ToParts(FromParts(p)) == p
  {
    var t := FromParts(p);
    DayNumberBelowMax(p);
    SplitDayTicks(DayNumber(p), SecondOfDay(p));
    var days, second := t / TicksPerDay, (t % TicksPerDay) / TicksPerSecond;
    assert days == DayNumber(p) && second == SecondOfDay(p);
    SplitSecondOfDay(p.hour, p.minute, p.second);
    DateOfKnownDay(p.year, p.month, p.day, DaysBeforeMonth(p.year, p.month) + p.day - 1, days);
  }

  /** An instant is its day's ticks, its second's ticks within the day and
      its sub-second ticks. */
  lemma SplitTicks(t: int)
    requires t >= 0
    ensures t - t % TicksPerSecond
            == (t / TicksPerDay) * TicksPerDay + ((t % TicksPerDay) / TicksPerSecond) * TicksPerSecond
    ensures (t % TicksPerDay) / TicksPerSecond < SecondsPerDay
  {
    var r := t % TicksPerDay;
    assert t % TicksPerSecond == r % TicksPerSecond;
  }

  lemma JoinSecondOfDay(second: int)
    requires 0 <= second < SecondsPerDay
    ensures (second / 3600) * 3600 + ((second % 3600) / 60) * 60 + second % 60 == second
  {}

  /** Converting an instant to its civil date and back drops only the
      sub-second ticks. */
  lemma FromPartsToParts(t: Instant)
    requires InRange(t)
    ensures FromParts(ToParts(t)) == TruncateToSecond(t)
  {
    var p := ToParts(t);
    var second := (t % TicksPerDay) / TicksPerSecond;
    SplitTicks(t);
    JoinSecondOfDay(second);
    assert SecondOfDay(p) == second;
  }

  /** The first tick of the month that holds `t`. */
  function StartOfMonth(t: Instant): (r: Instant)
    requires InRange(t)
    ensures InRange(r)
    ensures r <= t
    ensures ToParts(r) == DateParts(ToParts(t).year, ToParts(t).month, 1, 0, 0, 0)
  {
    var p := ToParts(t);
    var q := DateParts(p.year, p.month, 1, 0, 0, 0);
    ToPartsFromParts(q);
    FromPartsToParts(t);
    FromParts(q)
  }

  /** A month start is in its own month. */
  lemma StartOfMonthIdempotent(t: Instant)
    requires InRange(t)
    ensures StartOfMonth(StartOfMonth(t)) == StartOfMonth(t)
  {
  }

  lemma DayOfTickBounds(t: int, lo: int, hi: int)
    requires 0 <= lo && lo * TicksPerDay <= t < hi * TicksPerDay
    ensures lo <= t / TicksPerDay < hi
  {}

  /** The civil date of an instant whose day number lies `j` days into a
      known month. */
  lemma ToPartsOfDay(t: Instant, year: int, month: int, j: int)
    requires InRange(t)
    requires MinYear <= year && 1 <= month <= 12 && 0 <= j < DaysInMonth(year, month)
    requires t / TicksPerDay == DaysBeforeYear(year) + DaysBeforeMonth(year, month) + j
    ensures ToParts(t).year == year && ToParts(t).month == month && ToParts(t).day == j + 1
  {
    EndOfCalendar();
    DayOfTickBounds(t, 0, DaysTo10000);
    if year > MaxYear {
      DaysBeforeYearMonotone(MaxYear + 1, year);
    }
    DateOfKnownDay(year, month, j + 1, DaysBeforeMonth(year, month) + j, t / TicksPerDay);
  }

  /** Every instant lies before the end of its month. */
  lemma BeforeEndOfMonth(t: Instant)
    requires InRange(t)
    ensures t < (DaysBeforeYear(ToParts(t).year) + DaysBeforeMonth(ToParts(t).year, ToParts(t).month)
                 + DaysInMonth(ToParts(t).year, ToParts(t).month)) * TicksPerDay
  {
    var p := ToParts(t);
    FromPartsToParts(t);
    DayNumberBelowMax(p);
    assert FromParts(p) + TicksPerSecond <= (DayNumber(p) + 1) * TicksPerDay;
  }

  /** An instant between a month's start and a later instant of that month is
      in that month too. */
  lemma StartOfMonthPartition(t1: Instant, t2: Instant)
    requires InRange(t1) && InRange(t2)
    requires StartOfMonth(t2) <= t1 <= t2
    ensures StartOfMonth(t1) == StartOfMonth(t2)
  {
    var p := ToParts(t2);
    var y, m := p.year, p.month;
    var monthDay := DaysBeforeYear(y) + DaysBeforeMonth(y, m);
    BeforeEndOfMonth(t2);
    DayOfTickBounds(t1, monthDay, monthDay + DaysInMonth(y, m));
    ToPartsOfDay(t1, y, m, t1 / TicksPerDay - monthDay);
  }
}
