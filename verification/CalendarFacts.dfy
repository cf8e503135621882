/** What the calendar and the clock show of an instant. */
module CalendarFacts {
  import opened Calendar

  const EPOCH := Date(1970, 1, 1)

  /** The date on the next page of the calendar. */
  function Tomorrow(d: Date): Date {
    if d.day < DaysInMonth(d.year, d.month) then Date(d.year, d.month, d.day + 1)
    else if d.month < 12 then Date(d.year, d.month + 1, 1)
    else Date(d.year + 1, 1, 1)
  }

  lemma DayAfter(n: int)
    ensures DateOf(n + 1) == Tomorrow(DateOf(n))
  {
    hide DateOf, DayNumber;
    var d := DateOf(n);
    MonthEnd(d);
    if d.day < DaysInMonth(d.year, d.month) {
      MonthDays(d, n + 1);
    } else {
      assert n + 1 == DayNumber(FirstOfNextMonth(d));
      DateOfDayNumber(FirstOfNextMonth(d));
    }
  }

  /** Some dates by hand: the epoch, a leap day of a century, the day after a February without one. */
  lemma KnownDates()
    ensures DayNumber(EPOCH) == 719_528 && DayNumber(Date(2000, 2, 29)) == 719_528 + 11_016
    ensures Tomorrow(Date(1900, 2, 28)) == Date(1900, 3, 1) && Tomorrow(Date(2000, 2, 28)) == Date(2000, 2, 29)
    ensures Tomorrow(Date(2024, 2, 28)) == Date(2024, 2, 29) && Tomorrow(Date(2023, 12, 31)) == Date(2024, 1, 1)
  {
  }

  /** 1 January 1970 was a Thursday, and after a day comes the next day of the week. */
  lemma EpochWasThursday(t: Time)
    ensures t.CivilDate() == EPOCH ==> t.Weekday() == 4
  {
    hide DateOf, DayNumber;
    KnownDates();
    assert DayNumber(t.CivilDate()) == t.DayIndex();
  }

  lemma NextDayOfWeek(t: Time, u: Time)
    requires u.DayIndex() == t.DayIndex() + 1
    ensures u.CivilDate() == Tomorrow(t.CivilDate()) && u.Weekday() == (t.Weekday() + 1) % 7
  {
    hide DateOf, DayNumber;
    DayAfter(t.DayIndex());
    hide Time.DayIndex;
    NextOfSeven(t.DayIndex() + 6);
  }

  lemma NextOfSeven(a: int)
    ensures (a + 1) % 7 == (a % 7 + 1) % 7
  {
    var q, r := a / 7, a % 7;
    assert a == 7 * q + r;
    if r == 6 {
      assert a + 1 == 7 * (q + 1);
    } else {
      assert a + 1 == 7 * q + (r + 1);
    }
  }

  /** The weekday of every date, counted from that Thursday. */
  lemma WeekdayOf(t: Time, d: Date)
    requires ValidDate(d) && t.CivilDate() == d
    ensures t.Weekday() == (4 + DayNumber(d) - DayNumber(EPOCH)) % 7
  {
    hide DateOf;
    KnownDates();
    hide DayNumber, Time.DayIndex;
    assert DayNumber(d) == t.DayIndex();
    WholeWeeks(4 + t.DayIndex() - 719_528, 102_790);
  }

  lemma WholeWeeks(a: int, weeks: int)
    ensures (a + 7 * weeks) % 7 == a % 7
  {
    assert a + 7 * weeks == 7 * (a / 7 + weeks) + a % 7;
  }

  /** An instant shows the date and the time of day that it was made from, in its own zone. */
  lemma ClockShows(d: Date, hour: int, minute: int, second: int, nsec: Nanos, offset: int)
    requires ValidDate(d) && 0 <= hour < 24 && 0 <= minute < 60 && 0 <= second < 60
    ensures var t := Civil(d.year, d.month, d.day, 3600 * hour + 60 * minute + second, nsec, offset);
      && t.CivilDate() == d && t.Hour() == hour && t.Minute() == minute && t.Second() == second
      && t.nsec == nsec && t.offset == offset
  {
    hide DateOf, DayNumber;
    var n, clock := DayNumber(d), 3600 * hour + 60 * minute + second;
    var t := Civil(d.year, d.month, d.day, clock, nsec, offset);
    assert Date(d.year + (d.month - 1) / 12, (d.month - 1) % 12 + 1, d.day) == d;
    assert t.Local() == n * 86400 + clock;
    DateOfDayNumber(d);
    WholeDays(n, clock);
    WholeHours(24 * n + hour, 60 * minute + second);
    WholeMinutes(60 * (24 * n + hour) + minute, second);
    Remainders(n, hour);
    Remainders(24 * n + hour, minute);
  }

  lemma WholeDays(n: int, clock: int)
    requires 0 <= clock < 86400
    ensures (n * 86400 + clock) / 86400 == n
  {
  }

  lemma Remainders(q: int, r: int)
    ensures 0 <= r < 24 ==> (24 * q + r) % 24 == r
    ensures 0 <= r < 60 ==> (60 * q + r) % 60 == r
  {
  }

  lemma WholeHours(h: int, rest: int)
    requires 0 <= rest < 3600
    ensures (3600 * h + rest) / 3600 == h
  {
  }

  lemma WholeMinutes(m: int, rest: int)
    requires 0 <= rest < 60
    ensures (60 * m + rest) / 60 == m && (60 * m + rest) % 60 == rest
  {
  }

  /** And it is the only instant of its zone that shows them. */
  lemma ClockIsUnique(t: Time, u: Time)
    requires t.CivilDate() == u.CivilDate() && t.Hour() == u.Hour() && t.Minute() == u.Minute()
    requires t.Second() == u.Second() && t.nsec == u.nsec && t.offset == u.offset
    ensures t == u
  {
    hide DateOf, DayNumber;
    assert t.DayIndex() == DayNumber(t.CivilDate()) && u.DayIndex() == DayNumber(u.CivilDate());
    Pieces(t.Local());
    Pieces(u.Local());
  }

  lemma Pieces(l: int)
    ensures l == 86400 * (l / 86400) + 3600 * (l / 3600 % 24) + 60 * (l / 60 % 60) + l % 60
  {
    HoursOfDay(l);
    MinutesOfHour(l);
    var hours, minutes := l / 3600, l / 60;
    assert l == 60 * minutes + l % 60 && minutes == 60 * hours + minutes % 60;
    assert hours == 24 * (hours / 24) + hours % 24;
  }

  /** A zone that is ahead shows what the clock of another shows that much later. */
  lemma ZonesAreAhead(t: Time, ahead: int)
    ensures var z, u := t.(offset := t.offset + ahead), t.(utc := t.utc + ahead);
      && z.CivilDate() == u.CivilDate() && z.Weekday() == u.Weekday()
      && z.Hour() == u.Hour() && z.Minute() == u.Minute() && z.Second() == u.Second()
  {
    hide DateOf;
  }

  /** The zero time is midnight of 1 January of year 1 in UTC. */
  lemma ZeroTimeIs(t: Time)
    ensures t.IsZero() && t.offset == 0 <==>
      t.CivilDate() == Date(1, 1, 1) && t.Hour() == t.Minute() == t.Second() == t.nsec == t.offset == 0
  {
    hide DateOf;
    ClockShows(Date(1, 1, 1), 0, 0, 0, 0, 0);
    var z := Civil(1, 1, 1, 0, 0, 0);
    assert z == ZERO_TIME;
    if t.CivilDate() == Date(1, 1, 1) && t.Hour() == t.Minute() == t.Second() == t.nsec == t.offset == 0 {
      ClockIsUnique(t, z);
    }
  }

  function Nanoseconds(t: Time): int { t.utc * 1_000_000_000 + t.nsec }

  /** Instants are ordered and moved by their nanoseconds, in whatever zone they are seen. */
  lemma InstantsAreNumbers(t: Time, u: Time, d: int)
    ensures t.Before(u) <==> Nanoseconds(t) < Nanoseconds(u)
    ensures t.After(u) <==> Nanoseconds(t) > Nanoseconds(u)
    ensures t.IsZero() <==> Nanoseconds(t) == Nanoseconds(ZERO_TIME)
    ensures Nanoseconds(t.Add(d)) == Nanoseconds(t) + d && t.Add(d).offset == t.offset
  {
    var total := t.nsec + d;
    assert total == total / 1_000_000_000 * 1_000_000_000 + total % 1_000_000_000;
  }
}
