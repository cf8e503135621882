/** The proleptic Gregorian calendar and instants in a zone of fixed offset,
    as far as the cron schedule search needs them. */
module Calendar {

  // ----- dates ------------------------------------------------------------

  datatype Date = Date(year: int, month: int, day: int)

  predicate IsLeap(y: int) {
    y % 4 == 0 && (y % 100 != 0 || y % 400 == 0)
  }

  function DaysInMonth(y: int, m: int): int {
    if m == 2 then (if IsLeap(y) then 29 else 28)
    else if m == 4 || m == 6 || m == 9 || m == 11 then 30
    else 31
  }

  /** Days from 1 January of year 0 to 1 January of year `y`. */
  function DaysBeforeYear(y: int): int {
    365 * y + (y + 3) / 4 - (y + 99) / 100 + (y + 399) / 400
  }

  /** Days from 1 January to the first of month `m`; month 13 is the next January. */
  function DaysBeforeMonth(y: int, m: int): int
    requires 1 <= m <= 13
  {
    (match m
     case 1 => 0 case 2 => 31 case 3 => 59 case 4 => 90 case 5 => 120 case 6 => 151
     case 7 => 181 case 8 => 212 case 9 => 243 case 10 => 273 case 11 => 304 case 12 => 334
     case _ => 365)
    + (if m > 2 && IsLeap(y) then 1 else 0)
  }

  predicate ValidDate(d: Date) {
    1 <= d.month <= 12 && 1 <= d.day <= DaysInMonth(d.year, d.month)
  }

  function DayNumber(d: Date): int
    requires 1 <= d.month <= 12
  {
    DaysBeforeYear(d.year) + DaysBeforeMonth(d.year, d.month) + d.day - 1
  }

  lemma QuotientStep4(y: int)
    ensures (y + 4) / 4 == (y + 3) / 4 + (if y % 4 == 0 then 1 else 0)
  {
    var q, r := y / 4, y % 4;
    assert (y + 4) / 4 == q + 1;
    if r == 0 {
      assert (y + 3) / 4 == q;
    } else {
      assert y + 3 == 4 * (q + 1) + (r - 1);
    }
  }

  lemma QuotientStep100(y: int)
    ensures (y + 100) / 100 == (y + 99) / 100 + (if y % 100 == 0 then 1 else 0)
  {
    var q, r := y / 100, y % 100;
    assert (y + 100) / 100 == q + 1;
    if r == 0 {
      assert (y + 99) / 100 == q;
    } else {
      assert y + 99 == 100 * (q + 1) + (r - 1);
    }
  }

  lemma QuotientStep400(y: int)
    ensures (y + 400) / 400 == (y + 399) / 400 + (if y % 400 == 0 then 1 else 0)
  {
    var q, r := y / 400, y % 400;
    assert (y + 400) / 400 == q + 1;
    if r == 0 {
      assert (y + 399) / 400 == q;
    } else {
      assert y + 399 == 400 * (q + 1) + (r - 1);
    }
  }

  lemma CenturiesAreFours(y: int)
    ensures y % 100 == 0 ==> y % 4 == 0
  {
    if y % 100 == 0 {
      var q := y / 100;
      assert y == 4 * (25 * q);
    }
  }

  lemma QuadCenturiesAreCenturies(y: int)
    ensures y % 400 == 0 ==> y % 100 == 0
  {
    if y % 400 == 0 {
      var q := y / 400;
      assert y == 100 * (4 * q);
    }
  }

  lemma YearLength(y: int)
    ensures DaysBeforeYear(y + 1) == DaysBeforeYear(y) + (if IsLeap(y) then 366 else 365)
  {
    QuotientStep4(y);
    QuotientStep100(y);
    QuotientStep400(y);
    CenturiesAreFours(y);
    QuadCenturiesAreCenturies(y);
  }

  lemma YearBounds(y: int)
    ensures 146097 * y - 396 <= 400 * DaysBeforeYear(y) <= 146097 * y + 699
  {
  }

  /** The year that day number `n` falls in: an estimate, off by at most one. */
  function YearOf(n: int): (y: int)
    ensures DaysBeforeYear(y) <= n < DaysBeforeYear(y + 1)
  {
    var guess := 400 * n / 146097;
    YearBounds(guess - 1); YearBounds(guess); YearBounds(guess + 1); YearBounds(guess + 2);
    if n < DaysBeforeYear(guess) then guess - 1
    else if n >= DaysBeforeYear(guess + 1) then guess + 1
    else guess
  }

  function MonthFrom(y: int, yearDay: int, m: int): (r: int)
    requires 1 <= m <= 12
    requires DaysBeforeMonth(y, m) <= yearDay < DaysBeforeMonth(y, 13)
    ensures m <= r <= 12
    ensures DaysBeforeMonth(y, r) <= yearDay < DaysBeforeMonth(y, r + 1)
    decreases 12 - m
  {
    if m == 12 || yearDay < DaysBeforeMonth(y, m + 1) then m else MonthFrom(y, yearDay, m + 1)
  }

  lemma MonthLength(y: int, m: int)
    requires 1 <= m <= 12
    ensures DaysBeforeMonth(y, m + 1) == DaysBeforeMonth(y, m) + DaysInMonth(y, m)
  {
  }

  /** The date of day number `n`: the inverse of DayNumber. */
  function DateOf(n: int): (d: Date)
    ensures ValidDate(d) && DayNumber(d) == n
    ensures DaysBeforeYear(d.year) <= n < DaysBeforeYear(d.year + 1)
  {
    var y := YearOf(n);
    YearLength(y);
    var m := MonthFrom(y, n - DaysBeforeYear(y), 1);
    MonthLength(y, m);
    Date(y, m, n - DaysBeforeYear(y) - DaysBeforeMonth(y, m) + 1)
  }

  predicate Earlier(a: Date, b: Date) {
    a.year < b.year || (a.year == b.year && (a.month < b.month || (a.month == b.month && a.day < b.day)))
  }

  lemma {:induction false} YearsMonotone(a: int, b: int)
    requires a <= b
    ensures DaysBeforeYear(a) + 365 * (b - a) <= DaysBeforeYear(b)
    decreases b - a
  {
    YearBounds(a);
    if a < b {
      YearsMonotone(a, b - 1);
      YearLength(b - 1);
    }
  }

  lemma {:induction false} MonthsMonotone(y: int, a: int, b: int)
    requires 1 <= a <= b <= 13
    ensures DaysBeforeMonth(y, a) + 28 * (b - a) <= DaysBeforeMonth(y, b)
    decreases b - a
  {
    if a < b {
      MonthLength(y, a);
      MonthsMonotone(y, a + 1, b);
    }
  }

  lemma WithinYear(d: Date)
    requires ValidDate(d)
    ensures DaysBeforeYear(d.year) <= DayNumber(d) < DaysBeforeYear(d.year + 1)
  {
    MonthsMonotone(d.year, 1, d.month);
    MonthLength(d.year, d.month);
    MonthsMonotone(d.year, d.month + 1, 13);
    YearLength(d.year);
  }

  /** Day numbers order dates as the calendar does. */
  lemma DayNumberMonotone(a: Date, b: Date)
    requires ValidDate(a) && ValidDate(b) && Earlier(a, b)
    ensures DayNumber(a) < DayNumber(b)
  {
    MonthLength(a.year, a.month);
    if a.year < b.year {
      WithinYear(a);
      WithinYear(b);
      YearsMonotone(a.year + 1, b.year);
    } else if a.month < b.month {
      MonthsMonotone(a.year, a.month + 1, b.month);
    }
  }

  /** A valid date is the date of its own day number. */
  lemma DateOfDayNumber(d: Date)
    requires ValidDate(d)
    ensures DateOf(DayNumber(d)) == d
  {
    var e := DateOf(DayNumber(d));
    if Earlier(d, e) {
      DayNumberMonotone(d, e);
    } else if Earlier(e, d) {
      DayNumberMonotone(e, d);
    }
  }

  lemma YearBounded(n: int, limit: int)
    ensures DateOf(n).year <= limit <==> n < DaysBeforeYear(limit + 1)
  {
    hide DaysBeforeYear, DayNumber;
    var y := DateOf(n).year;
    if y <= limit {
      YearsMonotone(y + 1, limit + 1);
    } else {
      YearsMonotone(limit + 1, y);
    }
  }

  function FirstOfMonth(d: Date): Date { Date(d.year, d.month, 1) }

  function FirstOfNextMonth(d: Date): Date {
    if d.month == 12 then Date(d.year + 1, 1, 1) else Date(d.year, d.month + 1, 1)
  }

  /** The first of the next month follows the last day of the month. */
  lemma MonthEnd(d: Date)
    requires ValidDate(d)
    ensures DayNumber(FirstOfNextMonth(d)) == DayNumber(FirstOfMonth(d)) + DaysInMonth(d.year, d.month)
    ensures DayNumber(FirstOfMonth(d)) <= DayNumber(d) < DayNumber(FirstOfNextMonth(d))
    ensures DayNumber(d) == DayNumber(FirstOfMonth(d)) + d.day - 1
  {
    MonthLength(d.year, d.month);
    if d.month == 12 {
      YearLength(d.year);
    }
  }

  /** The days of one month are consecutive. */
  lemma MonthDays(d: Date, k: int)
    requires ValidDate(d)
    requires DayNumber(FirstOfMonth(d)) <= k < DayNumber(FirstOfNextMonth(d))
    ensures DateOf(k) == Date(d.year, d.month, k - DayNumber(FirstOfMonth(d)) + 1)
  {
    MonthEnd(d);
    var e := Date(d.year, d.month, k - DayNumber(FirstOfMonth(d)) + 1);
    assert DayNumber(e) == k;
    DateOfDayNumber(e);
  }

  // ----- whole hours and minutes --------------------------------------------

  lemma HoursOfDay(l: int)
    ensures l / 86400 == l / 3600 / 24
  {
    var hours := l / 3600;
    assert l == 3600 * (24 * (hours / 24) + hours % 24) + l % 3600;
  }

  lemma MinutesOfHour(l: int)
    ensures l / 3600 == l / 60 / 60
  {
    var minutes := l / 60;
    assert l == 60 * (60 * (minutes / 60) + minutes % 60) + l % 60;
  }

  // ----- instants ---------------------------------------------------------

  type Nanos = n: int | 0 <= n < 1_000_000_000

  /** An instant: whole seconds since 1 January of year 0, 00:00 UTC, plus
      nanoseconds, seen in a zone that is `offset` seconds ahead of UTC. */
  datatype Time = Time(utc: int, nsec: Nanos, offset: int) {

    function Local(): int { utc + offset }
    function DayIndex(): int { Local() / 86400 }
    function CivilDate(): Date { DateOf(DayIndex()) }
    function Year(): int { CivilDate().year }
    function Month(): int { CivilDate().month }
    function Day(): int { CivilDate().day }
    function Weekday(): int { (DayIndex() + 6) % 7 }
    function Hour(): int { Local() / 3600 % 24 }
    function Minute(): int { Local() / 60 % 60 }
    function Second(): int { Local() % 60 }

    predicate Before(u: Time) { utc < u.utc || (utc == u.utc && nsec < u.nsec) }
    predicate After(u: Time) { u.Before(this) }
    predicate IsZero() { utc == ZERO_TIME.utc && nsec == 0 }

    /** Adds a duration of `d` nanoseconds. */
    function Add(d: int): Time {
      var total := nsec + d;
      Time(utc + total / 1_000_000_000, total % 1_000_000_000, offset)
    }

    function AddSeconds(d: int): Time { Add(d * 1_000_000_000) }

    /** Rounds the absolute time, not the local one, down to a multiple of `d` seconds. */
    function Truncate(d: int): Time
      requires d > 0
    {
      Time(utc - utc % d, 0, offset)
    }

    function AddDate(months: int, days: int): Time {
      var d := CivilDate();
      Civil(d.year, d.month + months, d.day + days, Local() % 86400, nsec, offset)
    }

    lemma AddSecondsExact(d: int)
      ensures AddSeconds(d) == Time(utc + d, nsec, offset)
    {
    }
  }

  const ZERO_TIME: Time := Time(366 * 86400, 0, 0)

  /** The instant with the given local fields; months and days out of range carry over. */
  function Civil(year: int, month: int, day: int, clock: int, nsec: Nanos, offset: int): Time {
    var n := DayNumber(Date(year + (month - 1) / 12, (month - 1) % 12 + 1, day));
    Time(n * 86400 + clock - offset, nsec, offset)
  }

  /** Two instants on the same local day share every date field. */
  lemma SameDay(t: Time, u: Time)
    requires t.DayIndex() == u.DayIndex()
    ensures t.CivilDate() == u.CivilDate() && t.Weekday() == u.Weekday()
  {
  }
}
