/** The crontab schedule and its search for the next activation time. */
module CronSpec {
  import opened Bits
  import opened Calendar

  const STAR_BIT: nat := 63

  datatype SpecSchedule = SpecSchedule(
    second: bv64, minute: bv64, hour: bv64, dom: bv64, month: bv64, dow: bv64)
  {
    predicate MonthOk(t: Time) { Bit(month, t.Month()) }

    /** Both day fields must hold when either is starred, else one of them suffices. */
    predicate DayMatches(t: Time) {
      var domMatch := Bit(dom, t.Day());
      var dowMatch := Bit(dow, t.Weekday());
      if Bit(dom, STAR_BIT) || Bit(dow, STAR_BIT) then domMatch && dowMatch
      else domMatch || dowMatch
    }

    predicate HourOk(t: Time) { Bit(hour, t.Hour()) }
    predicate MinuteOk(t: Time) { Bit(minute, t.Minute()) }
    predicate SecondOk(t: Time) { Bit(second, t.Second()) }

    predicate Matches(t: Time) {
      MonthOk(t) && DayMatches(t) && HourOk(t) && MinuteOk(t) && SecondOk(t)
    }
  }

  // ----- what Next promises ------------------------------------------------

  /** The upcoming whole second. */
  function Upcoming(t: Time): (u: Time)
    ensures u == Time(t.utc + 1, 0, t.offset)
  {
    t.Add(1_000_000_000 - t.nsec)
  }

  /** A whole second strictly after `t`, at most five years on, that the schedule allows. */
  predicate Admissible(s: SpecSchedule, t: Time, x: Time) {
    && x.nsec == 0 && x.offset == t.offset
    && x.After(t) && x.Year() <= Upcoming(t).Year() + 5
    && s.Matches(x)
  }

  /** `r` is the first admissible instant, or the zero time if there is none. */
  ghost predicate IsNext(s: SpecSchedule, t: Time, r: Time) {
    if exists x :: Admissible(s, t, x) then
      Admissible(s, t, r) && forall x :: Admissible(s, t, x) ==> r.utc <= x.utc
    else
      r == ZERO_TIME
  }

  /** A whole second at or after `from`, of a year at most `limit`, that the schedule allows. */
  predicate Candidate(s: SpecSchedule, from: Time, limit: int, x: Time) {
    && x.nsec == 0 && x.offset == from.offset
    && from.utc <= x.utc && x.Year() <= limit
    && s.Matches(x)
  }

  lemma CandidateIsAdmissible(s: SpecSchedule, t: Time, x: Time)
    ensures Candidate(s, Upcoming(t), Upcoming(t).Year() + 5, x) <==> Admissible(s, t, x)
  {
    hide DateOf, Bit, SpecSchedule.Matches;
  }

  // ----- the search ----------------------------------------------------------

  function ResetMonth(t: Time): Time { Civil(t.Year(), t.Month(), 1, 0, 0, t.offset) }
  function ResetDay(t: Time): Time { Civil(t.Year(), t.Month(), t.Day(), 0, 0, t.offset) }
  function ResetHour(t: Time): Time { Civil(t.Year(), t.Month(), t.Day(), t.Hour() * 3600, 0, t.offset) }

  function StepMonth(t: Time, added: bool): Time {
    (if added then t else ResetMonth(t)).AddDate(1, 0)
  }

  function StepDay(t: Time, added: bool): Time {
    (if added then t else ResetDay(t)).AddDate(0, 1)
  }

  function StepHour(t: Time, added: bool): Time {
    (if added then t else ResetHour(t)).AddSeconds(3600)
  }

  function StepMinute(t: Time, added: bool): Time {
    (if added then t else t.Truncate(60)).AddSeconds(60)
  }

  function StepSecond(t: Time, added: bool): Time {
    (if added then t else t.Truncate(1)).AddSeconds(1)
  }

  /** Steps the coarsest field that does not match. */
  function StepField(s: SpecSchedule, t: Time, added: bool): Time {
    if !s.MonthOk(t) then StepMonth(t, added)
    else if !s.DayMatches(t) then StepDay(t, added)
    else if !s.HourOk(t) then StepHour(t, added)
    else if !s.MinuteOk(t) then StepMinute(t, added)
    else StepSecond(t, added)
  }

  // ----- every step moves forward ---------------------------------------------

  function NextMonthDay(e: Date): int
    requires ValidDate(e)
  {
    DayNumber(Date(e.year + e.month / 12, e.month % 12 + 1, e.day))
  }

  lemma NextMonthDayAdvances(e: Date)
    requires ValidDate(e)
    ensures NextMonthDay(e) == DayNumber(e) + DaysInMonth(e.year, e.month)
  {
    MonthLength(e.year, e.month);
    if e.month == 12 {
      YearLength(e.year);
      assert Date(e.year + e.month / 12, e.month % 12 + 1, e.day) == Date(e.year + 1, 1, e.day);
    } else {
      assert Date(e.year + e.month / 12, e.month % 12 + 1, e.day) == Date(e.year, e.month + 1, e.day);
    }
  }

  lemma NextMonthDayInYear(e: Date)
    requires ValidDate(e)
    ensures DateOf(NextMonthDay(e)).month != 1 ==> DateOf(NextMonthDay(e)).year == e.year
  {
    hide DateOf;
    var n := NextMonthDay(e);
    NextMonthDayAdvances(e);
    WithinYear(e);
    if e.month == 12 {
      DateOfDayNumber(Date(e.year + 1, 1, e.day));
    } else {
      hide *;
      BeforeYearEnd(e);
      YearBounded(n, e.year);
      YearBounded(n, e.year - 1);
    }
  }

  lemma BeforeYearEnd(e: Date)
    requires ValidDate(e) && e.month < 12
    ensures DaysBeforeYear(e.year) <= DayNumber(e) + DaysInMonth(e.year, e.month) < DaysBeforeYear(e.year + 1)
  {
    WithinYear(e);
    MonthsMonotone(e.year, e.month + 1, 13);
    MonthLength(e.year, e.month);
    YearLength(e.year);
    if e.month == 11 {
      MonthLength(e.year, 12);
    } else {
      MonthsMonotone(e.year, e.month + 2, 13);
      MonthLength(e.year, e.month + 1);
    }
  }

  lemma ResetMonthLocal(t: Time)
    ensures ResetMonth(t).Local() == DayNumber(FirstOfMonth(t.CivilDate())) * 86400
    ensures ResetMonth(t).CivilDate() == FirstOfMonth(t.CivilDate())
  {
    hide DateOf, DayNumber;
    var f := FirstOfMonth(t.CivilDate());
    MonthEnd(t.CivilDate());
    DateOfDayNumber(f);
    assert ResetMonth(t).DayIndex() == DayNumber(f);
  }

  lemma AddMonthLocal(t: Time)
    ensures t.AddDate(1, 0).Local() == t.Local() + 86400 * DaysInMonth(t.Year(), t.Month())
    ensures t.AddDate(1, 0).DayIndex() == NextMonthDay(t.CivilDate())
  {
    hide DateOf, DayNumber;
    var e := t.CivilDate();
    NextMonthDayAdvances(e);
    assert DayNumber(e) == t.DayIndex();
  }

  lemma StepMonthAdvances(t: Time, added: bool)
    requires t.nsec == 0
    ensures var u := StepMonth(t, added); u.nsec == 0 && u.offset == t.offset && t.utc < u.utc
    ensures StepMonth(t, added).Month() != 1 ==> StepMonth(t, added).Year() == t.Year()
  {
    hide DateOf, DayNumber;
    var d := t.CivilDate();
    var v := if added then t else ResetMonth(t);
    MonthEnd(d);
    ResetMonthLocal(t);
    AddMonthLocal(v);
    NextMonthDayInYear(v.CivilDate());
  }

  lemma ResetDayLocal(t: Time)
    ensures ResetDay(t).Local() == t.DayIndex() * 86400
    ensures ResetDay(t).CivilDate() == t.CivilDate()
    ensures ResetHour(t).Local() == t.Local() / 3600 * 3600
    ensures ResetHour(t).nsec == 0 && ResetHour(t).offset == t.offset
  {
    hide DateOf, DayNumber;
    assert DayNumber(t.CivilDate()) == t.DayIndex();
    assert ResetDay(t).DayIndex() == t.DayIndex();
    HoursOfDay(t.Local());
    assert t.Local() / 3600 * 3600 == t.DayIndex() * 86400 + t.Hour() * 3600;
    HoursOfDay(ResetHour(t).Local());
    assert ResetHour(t).DayIndex() == t.DayIndex();
  }

  lemma AddDayLocal(t: Time)
    ensures t.AddDate(0, 1).Local() == t.Local() + 86400
  {
    hide DateOf;
    assert DayNumber(t.CivilDate()) == t.DayIndex();
  }

  lemma StepDayAdvances(t: Time, added: bool)
    requires t.nsec == 0
    ensures var u := StepDay(t, added); u.nsec == 0 && u.offset == t.offset && t.utc < u.utc
    ensures StepDay(t, added).DayIndex() == t.DayIndex() + 1
    ensures StepDay(t, added).Day() != 1 ==>
      StepDay(t, added).Year() == t.Year() && StepDay(t, added).Month() == t.Month()
  {
    hide DateOf, DayNumber;
    ResetDayLocal(t);
    AddDayLocal(t);
    AddDayLocal(ResetDay(t));
    NextDay(t.DayIndex());
  }

  /** The day after day `n` is in the same month or is the first of a month. */
  lemma NextDay(n: int)
    ensures DateOf(n + 1).day != 1 ==> DateOf(n + 1) == Date(DateOf(n).year, DateOf(n).month, DateOf(n).day + 1)
  {
    hide DateOf, DayNumber;
    var d := DateOf(n);
    MonthEnd(d);
    if n + 1 == DayNumber(FirstOfNextMonth(d)) {
      DateOfDayNumber(FirstOfNextMonth(d));
    } else {
      MonthDays(d, n + 1);
    }
  }

  lemma LaterThanHour(l: int, u: int)
    requires l < u <= l + 3600 && u / 3600 % 24 != 0
    ensures u / 86400 == l / 86400
  {
    HoursOfDay(l);
    HoursOfDay(u);
  }

  lemma StepHourAdvances(t: Time, added: bool)
    requires t.nsec == 0
    ensures var u := StepHour(t, added);
      && u.nsec == 0 && u.offset == t.offset && t.utc < u.utc
      && (u.Hour() != 0 ==> u.DayIndex() == t.DayIndex())
  {
    hide DateOf, DayNumber, ResetDay, ResetHour, Time.AddSeconds;
    ResetDayLocal(t);
    var v := if added then t else ResetHour(t);
    var u := v.AddSeconds(3600);
    v.AddSecondsExact(3600);
    assert u.nsec == 0 && u.offset == t.offset && t.Local() < u.Local() <= t.Local() + 3600;
    if u.Hour() != 0 {
      LaterThanHour(t.Local(), u.Local());
    }
  }

  lemma StepMinuteAdvances(t: Time, added: bool)
    requires t.nsec == 0
    ensures var u := StepMinute(t, added);
      && u.nsec == 0 && u.offset == t.offset && t.utc < u.utc
      && (u.Minute() != 0 ==> u.Local() / 3600 == t.Local() / 3600)
  {
    hide Time.AddSeconds;
    var v := if added then t else t.Truncate(60);
    v.AddSecondsExact(60);
    MinutesOfHour(t.Local());
    MinutesOfHour(StepMinute(t, added).Local());
  }

  lemma StepSecondAdvances(t: Time, added: bool)
    requires t.nsec == 0
    ensures var u := StepSecond(t, added);
      && u == t.(utc := t.utc + 1)
      && (u.Second() != 0 ==> u.Local() / 60 == t.Local() / 60)
  {
  }

  lemma StepAdvances(s: SpecSchedule, t: Time, added: bool)
    requires t.nsec == 0
    ensures var u := StepField(s, t, added); u.nsec == 0 && u.offset == t.offset && t.utc < u.utc
  {
    hide DateOf, DayNumber, Bit, StepMonth, StepDay, StepHour, StepMinute, StepSecond;
    StepMonthAdvances(t, added);
    StepDayAdvances(t, added);
    StepHourAdvances(t, added);
    StepMinuteAdvances(t, added);
    StepSecondAdvances(t, added);
  }

  /** Seconds left until the year after `limit`. */
  function Left(t: Time, limit: int): (n: nat)
    ensures t.Year() <= limit ==> n > 0
  {
    YearBounded(t.DayIndex(), limit);
    if t.Year() <= limit then DaysBeforeYear(limit + 1) * 86400 - t.Local() else 0
  }

  lemma LeftShrinks(t: Time, u: Time, limit: int)
    requires t.Year() <= limit && t.offset == u.offset && t.utc < u.utc
    ensures Left(u, limit) < Left(t, limit)
  {
  }

  // ----- the search as one recursion --------------------------------------------

  /** Tries `t`; while a field fails, steps it and starts over from the coarsest field. */
  function Search(s: SpecSchedule, t: Time, added: bool, limit: int): Time
    requires t.nsec == 0
    decreases Left(t, limit)
  {
    if t.Year() > limit then ZERO_TIME
    else if s.Matches(t) then t
    else
      var u := StepField(s, t, added);
      StepAdvances(s, t, added);
      LeftShrinks(t, u, limit);
      Search(s, u, true, limit)
  }

  function NextActivation(s: SpecSchedule, t: Time): Time {
    var first := Upcoming(t);
    Search(s, first, false, first.Year() + 5)
  }

  /** One step leaves the outcome of the search unchanged and comes closer to the limit. */
  lemma SearchStep(s: SpecSchedule, t: Time, added: bool, limit: int)
    requires t.nsec == 0 && t.Year() <= limit && !s.Matches(t)
    ensures var u := StepField(s, t, added);
      && u.nsec == 0
      && Left(u, limit) < Left(t, limit)
      && Search(s, u, true, limit) == Search(s, t, added, limit)
  {
    hide DateOf, DayNumber, Bit, StepField, Left;
    StepAdvances(s, t, added);
    LeftShrinks(t, StepField(s, t, added), limit);
  }

  lemma SameHour(t: Time, u: Time)
    requires t.Local() / 3600 == u.Local() / 3600
    ensures t.DayIndex() == u.DayIndex() && t.Hour() == u.Hour()
  {
    HoursOfDay(t.Local());
    HoursOfDay(u.Local());
  }

  lemma SameMinute(t: Time, u: Time)
    requires t.Local() / 60 == u.Local() / 60
    ensures t.Local() / 3600 == u.Local() / 3600
    ensures t.DayIndex() == u.DayIndex() && t.Hour() == u.Hour() && t.Minute() == u.Minute()
  {
    MinutesOfHour(t.Local());
    MinutesOfHour(u.Local());
    SameHour(t, u);
  }

  // ----- the search finds the first candidate -----------------------------------------

  /** Nothing but the field that is about to be stepped needs a reset: once `added`
      is set, every field finer than the first mismatch is already at its minimum. */
  predicate Aligned(s: SpecSchedule, t: Time) {
    if !s.MonthOk(t) then t.Day() == 1 && t.Local() % 86400 == 0
    else if !s.DayMatches(t) then t.Local() % 86400 == 0
    else if !s.HourOk(t) then t.Local() % 3600 == 0
    else if !s.MinuteOk(t) then t.Local() % 60 == 0
    else true
  }

  /** The first instant after `t` at which the mismatching field has a new value. */
  function UnitEnd(s: SpecSchedule, t: Time): int {
    if !s.MonthOk(t) then DayNumber(FirstOfNextMonth(t.CivilDate())) * 86400
    else if !s.DayMatches(t) then (t.DayIndex() + 1) * 86400
    else if !s.HourOk(t) then (t.Local() / 3600 + 1) * 3600
    else if !s.MinuteOk(t) then (t.Local() / 60 + 1) * 60
    else t.Local() + 1
  }

  lemma MonthStepsToUnitEnd(t: Time, added: bool)
    requires added ==> t.Day() == 1 && t.Local() % 86400 == 0
    ensures StepMonth(t, added).Local() == DayNumber(FirstOfNextMonth(t.CivilDate())) * 86400
  {
    hide DateOf, DayNumber;
    MonthEnd(t.CivilDate());
    ResetMonthLocal(t);
    AddMonthLocal(if added then t else ResetMonth(t));
    assert t.Local() == DayNumber(t.CivilDate()) * 86400 + t.Local() % 86400;
  }

  lemma DayStepsToUnitEnd(t: Time, added: bool)
    requires added ==> t.Local() % 86400 == 0
    ensures StepDay(t, added).Local() == (t.DayIndex() + 1) * 86400
  {
    hide DateOf, DayNumber, ResetDay;
    ResetDayLocal(t);
    AddDayLocal(if added then t else ResetDay(t));
  }

  lemma HourStepsToUnitEnd(t: Time, added: bool)
    requires added ==> t.Local() % 3600 == 0
    ensures StepHour(t, added).Local() == (t.Local() / 3600 + 1) * 3600
  {
    hide DateOf, DayNumber, ResetHour;
    ResetDayLocal(t);
  }

  /** Truncation is to a minute of absolute time: only in a zone of whole minutes is that a local minute. */
  lemma MinuteStepsToUnitEnd(t: Time, added: bool)
    requires t.offset % 60 == 0 && (added ==> t.Local() % 60 == 0)
    ensures StepMinute(t, added).Local() == (t.Local() / 60 + 1) * 60
  {
  }

  lemma StepReachesUnitEnd(s: SpecSchedule, t: Time, added: bool)
    requires t.nsec == 0 && t.offset % 60 == 0 && (added ==> Aligned(s, t))
    ensures StepField(s, t, added).Local() == UnitEnd(s, t)
  {
    hide DateOf, DayNumber, Bit, SpecSchedule.DayMatches, StepMonth, StepDay, StepHour, StepMinute;
    if !s.MonthOk(t) {
      MonthStepsToUnitEnd(t, added);
    } else if !s.DayMatches(t) {
      DayStepsToUnitEnd(t, added);
    } else if !s.HourOk(t) {
      HourStepsToUnitEnd(t, added);
    } else if !s.MinuteOk(t) {
      MinuteStepsToUnitEnd(t, added);
    }
  }

  lemma SameMonth(t: Time, x: Time)
    requires t.Local() <= x.Local() < DayNumber(FirstOfNextMonth(t.CivilDate())) * 86400
    ensures x.Month() == t.Month()
  {
    hide DateOf, DayNumber;
    MonthEnd(t.CivilDate());
    assert DayNumber(t.CivilDate()) == t.DayIndex();
    MonthDays(t.CivilDate(), x.DayIndex());
  }

  /** Until the end of the mismatching unit nothing matches: the field keeps its value. */
  lemma NothingInUnit(s: SpecSchedule, t: Time, x: Time)
    requires !s.Matches(t) && t.Local() <= x.Local() < UnitEnd(s, t)
    ensures !s.Matches(x)
  {
    hide DateOf, DayNumber, Bit;
    if !s.MonthOk(t) {
      SameMonth(t, x);
    } else if s.DayMatches(t) {
      if s.HourOk(t) {
        if !s.MinuteOk(t) {
          SameMinute(t, x);
        }
      } else {
        SameHour(t, x);
      }
    }
  }

  lemma FirstOfDay(t: Time, u: Time)
    requires u.Local() == (t.DayIndex() + 1) * 86400
    ensures u.Month() != t.Month() ==> u.Day() == 1
  {
    hide DateOf, DayNumber;
    NextDay(t.DayIndex());
  }

  /** The next hour, minute or second starts a new day, hour or minute or stays in the old one. */
  lemma HourRollsOver(l: int, u: int)
    requires u == (l / 3600 + 1) * 3600
    ensures u / 86400 == l / 86400 || u == (l / 86400 + 1) * 86400
  {
    HoursOfDay(l);
    HoursOfDay(u);
  }

  lemma MinuteRollsOver(l: int, u: int)
    requires u == (l / 60 + 1) * 60
    ensures u / 3600 == l / 3600 || u == (l / 3600 + 1) * 3600
  {
    MinutesOfHour(l);
    MinutesOfHour(u);
  }

  lemma SecondRollsOver(l: int)
    ensures (l + 1) / 60 == l / 60 || l + 1 == (l / 60 + 1) * 60
  {
  }

  lemma WholeUnits(m: int)
    ensures m % 86400 == 0 ==> m % 3600 == 0
    ensures m % 3600 == 0 ==> m % 60 == 0
  {
    WholeHours(m);
    if m % 3600 == 0 {
      assert m == 60 * (60 * (m / 3600));
    }
  }

  lemma WholeHours(m: int)
    ensures m % 86400 == 0 ==> m % 3600 == 0
  {
    if m % 86400 == 0 {
      assert m == 3600 * (24 * (m / 86400));
    }
  }

  lemma UnitEndCarries(s: SpecSchedule, t: Time, u: Time)
    requires s.MonthOk(t) && s.DayMatches(t) && !s.Matches(t) && u.Local() == UnitEnd(s, t)
    ensures u.DayIndex() == t.DayIndex() || u.Local() == (t.DayIndex() + 1) * 86400
    ensures !s.HourOk(t) ==> u.Local() == (t.Local() / 3600 + 1) * 3600
    ensures s.HourOk(t) && !s.MinuteOk(t) ==> u.Local() == (t.Local() / 60 + 1) * 60
    ensures s.HourOk(t) ==> u.Local() / 3600 == t.Local() / 3600 || u.Local() == (t.Local() / 3600 + 1) * 3600
    ensures s.HourOk(t) && s.MinuteOk(t) ==> u.Local() / 60 == t.Local() / 60 || u.Local() == (t.Local() / 60 + 1) * 60
  {
    hide Time.CivilDate, Bit, SpecSchedule.DayMatches, Time.Hour, Time.Minute, Time.Second, Time.Month;
    var l := t.Local();
    if !s.HourOk(t) {
      HourRollsOver(l, u.Local());
    } else {
      if s.MinuteOk(t) {
        SecondRollsOver(l);
      }
      if u.Local() / 60 != l / 60 {
        MinuteRollsOver(l, u.Local());
        if u.Local() / 3600 != l / 3600 {
          HourRollsOver(l, u.Local());
        } else {
          SameHour(t, u);
        }
      } else {
        SameMinute(t, u);
      }
    }
  }

  lemma DayStartAligned(s: SpecSchedule, u: Time)
    requires u.Local() % 86400 == 0 && (!s.MonthOk(u) ==> u.Day() == 1)
    ensures Aligned(s, u)
  {
    hide Time.CivilDate, Bit, SpecSchedule.DayMatches, Time.Hour, Time.Minute;
    WholeUnits(u.Local());
  }

  lemma ClockAligned(s: SpecSchedule, u: Time)
    requires s.MonthOk(u) && s.DayMatches(u)
    requires !s.HourOk(u) ==> u.Local() % 3600 == 0
    requires !s.MinuteOk(u) ==> u.Local() % 60 == 0
    ensures Aligned(s, u)
  {
    hide DateOf, Bit, SpecSchedule.DayMatches, Time.Hour, Time.Minute;
  }

  lemma SameDayOk(s: SpecSchedule, t: Time, u: Time)
    requires t.DayIndex() == u.DayIndex()
    ensures s.MonthOk(t) == s.MonthOk(u) && s.DayMatches(t) == s.DayMatches(u)
  {
    SameDay(t, u);
    hide Time.DayIndex, DateOf, Bit;
  }

  lemma HourOkAgrees(s: SpecSchedule, t: Time, u: Time)
    requires t.Local() / 3600 == u.Local() / 3600
    ensures s.HourOk(t) == s.HourOk(u)
  {
    SameHour(t, u);
    hide Time.Local, Bit;
  }

  lemma MinuteOkAgrees(s: SpecSchedule, t: Time, u: Time)
    requires t.Local() / 60 == u.Local() / 60
    ensures s.MinuteOk(t) == s.MinuteOk(u)
  {
    SameMinute(t, u);
    hide Time.Local, Bit;
  }

  lemma WholeQuotient(q: int)
    ensures q * 3600 % 3600 == 0 && q * 3600 % 60 == 0 && q * 60 % 60 == 0
  {
    assert q * 3600 == 60 * (60 * q);
  }

  lemma AlignedInDay(s: SpecSchedule, t: Time, u: Time)
    requires s.MonthOk(t) && s.DayMatches(t) && !s.Matches(t) && u.Local() == UnitEnd(s, t)
    requires u.DayIndex() == t.DayIndex()
    ensures Aligned(s, u)
  {
    hide *;
    UnitEndCarries(s, t, u);
    SameDayOk(s, t, u);
    var hours, minutes := t.Local() / 3600, t.Local() / 60;
    WholeQuotient(hours + 1);
    WholeQuotient(minutes + 1);
    if s.HourOk(t) && u.Local() / 3600 == hours {
      HourOkAgrees(s, t, u);
      if s.MinuteOk(t) && u.Local() / 60 == minutes {
        MinuteOkAgrees(s, t, u);
      }
    }
    ClockAligned(s, u);
  }

  lemma NextMonthAligned(s: SpecSchedule, t: Time, u: Time)
    requires u.Local() == DayNumber(FirstOfNextMonth(t.CivilDate())) * 86400
    ensures Aligned(s, u)
  {
    hide DateOf, DayNumber, Aligned, SpecSchedule.MonthOk;
    MonthEnd(t.CivilDate());
    DateOfDayNumber(FirstOfNextMonth(t.CivilDate()));
    assert u.CivilDate() == FirstOfNextMonth(t.CivilDate());
    DayStartAligned(s, u);
  }

  lemma NextDayAligned(s: SpecSchedule, t: Time, u: Time)
    requires s.MonthOk(t) && u.Local() == (t.DayIndex() + 1) * 86400
    ensures Aligned(s, u)
  {
    hide Time.CivilDate, Bit, Aligned;
    FirstOfDay(t, u);
    DayStartAligned(s, u);
  }

  /** Carrying into a coarser field leaves every finer field at its minimum. */
  lemma UnitEndAligned(s: SpecSchedule, t: Time, u: Time)
    requires !s.Matches(t) && u.Local() == UnitEnd(s, t)
    ensures Aligned(s, u)
  {
    hide Time.CivilDate, DayNumber, SpecSchedule.MonthOk, SpecSchedule.DayMatches, SpecSchedule.HourOk,
         SpecSchedule.MinuteOk, SpecSchedule.SecondOk, Aligned;
    if !s.MonthOk(t) {
      NextMonthAligned(s, t, u);
    } else if !s.DayMatches(t) {
      NextDayAligned(s, t, u);
    } else {
      UnitEndCarries(s, t, u);
      if u.DayIndex() == t.DayIndex() {
        AlignedInDay(s, t, u);
      } else {
        NextDayAligned(s, t, u);
      }
    }
  }

  // ----- main results ---------------------------------------------------------------------

  /** A result is sound when it is the zero time or a matching instant within the limit. */
  lemma {:induction false} SearchSound(s: SpecSchedule, t: Time, added: bool, limit: int)
    requires t.nsec == 0
    ensures var r := Search(s, t, added, limit); r == ZERO_TIME || Candidate(s, t, limit, r)
    decreases Left(t, limit)
  {
    hide DateOf, Bit, Left, StepField;
    if t.Year() <= limit && !s.Matches(t) {
      SearchStep(s, t, added, limit);
      StepAdvances(s, t, added);
      SearchSound(s, StepField(s, t, added), true, limit);
    }
  }

  lemma YearsGoUp(t: Time, x: Time)
    requires t.Local() <= x.Local()
    ensures t.Year() <= x.Year()
  {
    hide DateOf;
    YearBounded(t.DayIndex(), x.Year());
    YearBounded(x.DayIndex(), x.Year());
  }

  lemma {:induction false} SearchMissesNothing(s: SpecSchedule, t: Time, added: bool, limit: int, x: Time)
    requires t.nsec == 0 && t.offset % 60 == 0 && (added ==> Aligned(s, t))
    requires Candidate(s, t, limit, x)
    ensures var r := Search(s, t, added, limit); Candidate(s, t, limit, r) && r.utc <= x.utc
    decreases Left(t, limit)
  {
    hide DateOf, Bit, Left, StepField, Aligned, UnitEnd, SpecSchedule.Matches;
    YearsGoUp(t, x);
    if !s.Matches(t) {
      var u := StepField(s, t, added);
      SearchStep(s, t, added, limit);
      StepAdvances(s, t, added);
      StepReachesUnitEnd(s, t, added);
      UnitEndAligned(s, t, u);
      if x.Local() < u.Local() {
        NothingInUnit(s, t, x);
      }
      SearchMissesNothing(s, u, true, limit, x);
    }
  }

  /** In a zone of whole minutes, Next returns the least admissible instant,
      and the zero time when there is none. */
  lemma NextIsFirst(s: SpecSchedule, t: Time)
    requires t.offset % 60 == 0
    ensures IsNext(s, t, NextActivation(s, t))
  {
    hide DateOf, Bit, Search, SpecSchedule.Matches, Candidate, Admissible;
    var first := Upcoming(t);
    var limit := first.Year() + 5;
    var r := NextActivation(s, t);
    SearchSound(s, first, false, limit);
    CandidateIsAdmissible(s, t, r);
    forall x | Admissible(s, t, x)
      ensures Admissible(s, t, r) && r.utc <= x.utc
    {
      CandidateIsAdmissible(s, t, x);
      SearchMissesNothing(s, first, false, limit, x);
    }
  }

  /** The outcome is zero exactly when nothing is admissible, or when the first admissible instant
      is the zero time itself, which can only be for times before it. */
  lemma ZeroMeansNone(s: SpecSchedule, t: Time)
    requires t.offset % 60 == 0
    ensures NextActivation(s, t).IsZero() <==>
      || (forall x :: !Admissible(s, t, x))
      || FirstAdmissible(s, t, Time(ZERO_TIME.utc, 0, t.offset))
    ensures FirstAdmissible(s, t, Time(ZERO_TIME.utc, 0, t.offset)) ==> t.utc < ZERO_TIME.utc
  {
    hide DateOf, Bit, Search, SpecSchedule.Matches, NextActivation;
    NextIsFirst(s, t);
    var r, zero := NextActivation(s, t), Time(ZERO_TIME.utc, 0, t.offset);
    if exists x :: Admissible(s, t, x) {
      assert Admissible(s, t, r);
      assert r.IsZero() <==> r == zero;
    }
  }

  ghost predicate FirstAdmissible(s: SpecSchedule, t: Time, x: Time) {
    Admissible(s, t, x) && forall y :: Admissible(s, t, y) ==> x.utc <= y.utc
  }

  /** What the scheduler relies on, in every zone: the next activation is zero or strictly later. */
  lemma NextIsZeroOrLater(s: SpecSchedule, t: Time)
    ensures var r := NextActivation(s, t); r.IsZero() || (r.After(t) && r.nsec == 0 && s.Matches(r))
  {
    hide DateOf, Bit, Search, SpecSchedule.Matches;
    var first := Upcoming(t);
    SearchSound(s, first, false, first.Year() + 5);
  }

  /** The same search that resets the finer fields on every step. */
  function SearchResetting(s: SpecSchedule, t: Time, limit: int): Time
    requires t.nsec == 0
    decreases Left(t, limit)
  {
    if t.Year() > limit then ZERO_TIME
    else if s.Matches(t) then t
    else
      var u := StepField(s, t, false);
      StepAdvances(s, t, false);
      LeftShrinks(t, u, limit);
      SearchResetting(s, u, limit)
  }

  /** One reset is enough: skipping all later resets changes nothing. */
  lemma {:induction false} OneResetSuffices(s: SpecSchedule, t: Time, added: bool, limit: int)
    requires t.nsec == 0 && t.offset % 60 == 0 && (added ==> Aligned(s, t))
    ensures Search(s, t, added, limit) == SearchResetting(s, t, limit)
    decreases Left(t, limit)
  {
    hide DateOf, Bit, Left, StepField, Aligned, UnitEnd, SpecSchedule.Matches;
    if t.Year() <= limit && !s.Matches(t) {
      var u := StepField(s, t, added);
      SearchStep(s, t, added, limit);
      StepAdvances(s, t, added);
      StepAdvances(s, t, false);
      StepReachesUnitEnd(s, t, added);
      StepReachesUnitEnd(s, t, false);
      assert u == StepField(s, t, false);
      UnitEndAligned(s, t, u);
      OneResetSuffices(s, u, true, limit);
    }
  }

  // ----- zones that are not whole minutes ahead of UTC ----------------------------------------

  const ALL: bv64 := 0xFFFF_FFFF_FFFF_FFFF

  /** Every second of minute 1 of every hour. */
  const MINUTE_ONE: SpecSchedule := SpecSchedule(ALL, Single(1), ALL, ALL, ALL, ALL)

  lemma AllBits(i: nat)
    requires i < 64
    ensures Bit(ALL, i)
  {
    SingleIsSingle(i);
  }

  lemma MinuteOneMatches(t: Time)
    ensures MINUTE_ONE.MonthOk(t) && MINUTE_ONE.DayMatches(t) && MINUTE_ONE.HourOk(t) && MINUTE_ONE.SecondOk(t)
    ensures MINUTE_ONE.MinuteOk(t) <==> t.Minute() == 1
  {
    hide DateOf, Bit;
    AllBits(t.Month()); AllBits(t.Day()); AllBits(t.Weekday()); AllBits(t.Hour()); AllBits(t.Second());
    AllBits(STAR_BIT);
    BitOfSingle(1, t.Minute());
  }

  /** Where the first step of the search lands: second 1 to 59 of minute 1. */
  function LateInstant(offset: int): Time { Time(119 - (59 - offset) % 60 - offset, 0, offset) }

  lemma TruncationLandsLate(offset: int)
    requires offset % 60 != 0
    ensures StepMinute(Time(59 - offset, 0, offset), false) == LateInstant(offset)
    ensures 60 < LateInstant(offset).Local() < 120
    ensures LateInstant(offset).DayIndex() == 0 && LateInstant(offset).Minute() == 1
  {
    var m := (59 - offset) % 60;
    assert m != 59;
    assert LateInstant(offset).Local() == 119 - m;
  }

  lemma FirstSecondOfMinuteOne(offset: int)
    ensures Admissible(MINUTE_ONE, Time(58 - offset, 0, offset), Time(60 - offset, 0, offset))
  {
    hide DateOf, Bit, Time.Minute, SpecSchedule.MonthOk, SpecSchedule.DayMatches, SpecSchedule.HourOk,
         SpecSchedule.MinuteOk, SpecSchedule.SecondOk;
    var x := Time(60 - offset, 0, offset);
    assert x.Minute() == 1 by { MinuteNumber(x); }
    MinuteOneMatches(x);
    assert MINUTE_ONE.Matches(x);
    assert x.DayIndex() == Time(59 - offset, 0, offset).DayIndex() == 0;
  }

  lemma SearchTakesOneStep(s: SpecSchedule, t: Time, limit: int)
    requires t.nsec == 0 && !s.Matches(t) && t.Year() <= limit
    requires var u := StepField(s, t, false); s.Matches(u) && u.Year() <= limit
    ensures Search(s, t, false, limit) == StepField(s, t, false)
  {
    hide Time.CivilDate, SpecSchedule.Matches, StepField, Left;
    SearchStep(s, t, false, limit);
  }

  lemma MinuteNumber(t: Time)
    requires 0 <= t.Local() < 120
    ensures t.Minute() == (if t.Local() < 60 then 0 else 1)
  {
  }

  lemma FirstDay(t: Time)
    requires 0 <= t.Local() < 120
    ensures t.DayIndex() == 0
  {
  }

  lemma OddZoneStep(offset: int)
    requires offset % 60 != 0
    ensures var first := Time(59 - offset, 0, offset);
      && !MINUTE_ONE.Matches(first)
      && StepField(MINUTE_ONE, first, false) == LateInstant(offset)
      && MINUTE_ONE.Matches(LateInstant(offset))
  {
    hide Time.CivilDate, Bit, SpecSchedule.MonthOk, SpecSchedule.DayMatches, SpecSchedule.HourOk,
         SpecSchedule.MinuteOk, SpecSchedule.SecondOk, StepMinute, Time.Minute, LateInstant;
    var first := Time(59 - offset, 0, offset);
    TruncationLandsLate(offset);
    MinuteNumber(first);
    MinuteOneMatches(first);
    MinuteOneMatches(LateInstant(offset));
  }

  /** In any other zone the truncation lands inside a minute and the search skips its start. */
  lemma OddZoneMisses(offset: int)
    requires offset % 60 != 0
    ensures Admissible(MINUTE_ONE, Time(58 - offset, 0, offset), Time(60 - offset, 0, offset))
    ensures NextActivation(MINUTE_ONE, Time(58 - offset, 0, offset)).utc > 60 - offset
  {
    hide DateOf, SpecSchedule.Matches, StepField, LateInstant, Search, Admissible, Upcoming, Time.DayIndex,
      Time.CivilDate;
    var first := Time(59 - offset, 0, offset);
    assert Upcoming(Time(58 - offset, 0, offset)) == first;
    assert first.DayIndex() == 0 by { FirstDay(first); }
    FirstSecondOfMinuteOne(offset);
    TruncationLandsLate(offset);
    OddZoneStep(offset);
    SameDay(first, LateInstant(offset));
    SearchTakesOneStep(MINUTE_ONE, first, first.Year() + 5);
  }

  /** Next meets its promise in exactly the zones that are whole minutes ahead of UTC. */
  lemma ExactlyMinuteZones(offset: int)
    ensures (forall s, t: Time :: t.offset == offset ==> IsNext(s, t, NextActivation(s, t))) <==> offset % 60 == 0
  {
    hide DateOf, Bit, Search, SpecSchedule.Matches, Admissible;
    if offset % 60 == 0 {
      forall s, t: Time | t.offset == offset
        ensures IsNext(s, t, NextActivation(s, t))
      {
        NextIsFirst(s, t);
      }
    } else {
      OddZoneMisses(offset);
      assert !IsNext(MINUTE_ONE, Time(58 - offset, 0, offset),
        NextActivation(MINUTE_ONE, Time(58 - offset, 0, offset)));
    }
  }

  // ----- the search as written, with its loops and jumps ---------------------------

  lemma MonthStep(s: SpecSchedule, t: Time, added: bool, limit: int)
    requires t.nsec == 0 && t.Year() <= limit && !s.MonthOk(t)
    ensures var u := StepMonth(t, added);
      && u.nsec == 0 && Left(u, limit) < Left(t, limit)
      && Search(s, u, true, limit) == Search(s, t, added, limit)
      && (u.Month() != 1 ==> u.Year() <= limit)
  {
    hide DateOf, DayNumber, Bit, StepMonth, Search, Left;
    SearchStep(s, t, added, limit);
    StepMonthAdvances(t, added);
  }

  lemma DayStep(s: SpecSchedule, t: Time, added: bool, limit: int)
    requires t.nsec == 0 && t.Year() <= limit && s.MonthOk(t) && !s.DayMatches(t)
    ensures var u := StepDay(t, added);
      && u.nsec == 0 && Left(u, limit) < Left(t, limit)
      && Search(s, u, true, limit) == Search(s, t, added, limit)
      && (u.Day() != 1 ==> u.Year() <= limit && s.MonthOk(u))
  {
    hide DateOf, DayNumber, Bit, StepDay, Search, Left;
    SearchStep(s, t, added, limit);
    StepDayAdvances(t, added);
  }

  lemma HourStep(s: SpecSchedule, t: Time, added: bool, limit: int)
    requires t.nsec == 0 && t.Year() <= limit && s.MonthOk(t) && s.DayMatches(t) && !s.HourOk(t)
    ensures var u := StepHour(t, added);
      && u.nsec == 0 && Left(u, limit) < Left(t, limit)
      && Search(s, u, true, limit) == Search(s, t, added, limit)
      && (u.Hour() != 0 ==> u.Year() <= limit && s.MonthOk(u) && s.DayMatches(u))
  {
    hide DateOf, DayNumber, Bit, StepHour, Search, Left;
    SearchStep(s, t, added, limit);
    StepHourAdvances(t, added);
  }

  lemma MinuteStep(s: SpecSchedule, t: Time, added: bool, limit: int)
    requires t.nsec == 0 && t.Year() <= limit
    requires s.MonthOk(t) && s.DayMatches(t) && s.HourOk(t) && !s.MinuteOk(t)
    ensures var u := StepMinute(t, added);
      && u.nsec == 0 && Left(u, limit) < Left(t, limit)
      && Search(s, u, true, limit) == Search(s, t, added, limit)
      && (u.Minute() != 0 ==> u.Year() <= limit && s.MonthOk(u) && s.DayMatches(u) && s.HourOk(u))
  {
    hide DateOf, DayNumber, Bit, StepMinute, Search, Left;
    SearchStep(s, t, added, limit);
    StepMinuteAdvances(t, added);
    if StepMinute(t, added).Minute() != 0 {
      SameHour(t, StepMinute(t, added));
    }
  }

  lemma SecondStep(s: SpecSchedule, t: Time, added: bool, limit: int)
    requires t.nsec == 0 && t.Year() <= limit
    requires s.MonthOk(t) && s.DayMatches(t) && s.HourOk(t) && s.MinuteOk(t) && !s.SecondOk(t)
    ensures var u := StepSecond(t, added);
      && u.nsec == 0 && Left(u, limit) < Left(t, limit)
      && Search(s, u, true, limit) == Search(s, t, added, limit)
      && (u.Second() != 0 ==> u.Year() <= limit && s.MonthOk(u) && s.DayMatches(u) && s.HourOk(u) && s.MinuteOk(u))
  {
    hide DateOf, DayNumber, Bit, StepSecond, Search, Left;
    SearchStep(s, t, added, limit);
    StepSecondAdvances(t, added);
    if StepSecond(t, added).Second() != 0 {
      SameMinute(t, StepSecond(t, added));
    }
  }

  /** Finds the next activation time after `now`; the zero time when there is none. */
  method Next(s: SpecSchedule, now: Time) returns (r: Time)
    ensures r == NextActivation(s, now)
  {
    hide DateOf, DayNumber, Bit, Left, Civil, Time.AddDate, Time.AddSeconds, Time.Truncate;
    hide Time.Local, Time.CivilDate, Time.DayIndex, Time.Year, Time.Month, Time.Day, Time.Hour, Time.Minute,
      Time.Second;
    hide SpecSchedule.DayMatches;
    // Start at the upcoming second.
    var t := now.Add(1_000_000_000 - now.nsec);
    var added := false;
    var yearLimit := t.Year() + 5;
    ghost var goal := NextActivation(s, now);

    label WRAP: while true
      invariant t.nsec == 0 && Search(s, t, added, yearLimit) == goal
      decreases Left(t, yearLimit)
    {
      if t.Year() > yearLimit {
        return ZERO_TIME;
      }
      ghost var bound := Left(t, yearLimit);

      while !s.MonthOk(t)
        invariant t.nsec == 0 && Search(s, t, added, yearLimit) == goal
        invariant t.Year() <= yearLimit && Left(t, yearLimit) <= bound
        decreases Left(t, yearLimit)
      {
        ghost var u := StepMonth(t, added);
        MonthStep(s, t, added, yearLimit);
        if !added {
          added := true;
          t := Civil(t.Year(), t.Month(), 1, 0, 0, t.offset);
        }
        t := t.AddDate(1, 0);
        assert t == u;
        if t.Month() == 1 {
          continue WRAP;
        }
      }

      while !s.DayMatches(t)
        invariant t.nsec == 0 && Search(s, t, added, yearLimit) == goal
        invariant t.Year() <= yearLimit && Left(t, yearLimit) <= bound
        invariant s.MonthOk(t)
        decreases Left(t, yearLimit)
      {
        ghost var u := StepDay(t, added);
        DayStep(s, t, added, yearLimit);
        if !added {
          added := true;
          t := Civil(t.Year(), t.Month(), t.Day(), 0, 0, t.offset);
        }
        t := t.AddDate(0, 1);
        assert t == u;
        if t.Day() == 1 {
          continue WRAP;
        }
      }

      while !s.HourOk(t)
        invariant t.nsec == 0 && Search(s, t, added, yearLimit) == goal
        invariant t.Year() <= yearLimit && Left(t, yearLimit) <= bound
        invariant s.MonthOk(t) && s.DayMatches(t)
        decreases Left(t, yearLimit)
      {
        ghost var u := StepHour(t, added);
        HourStep(s, t, added, yearLimit);
        if !added {
          added := true;
          t := Civil(t.Year(), t.Month(), t.Day(), t.Hour() * 3600, 0, t.offset);
        }
        t := t.AddSeconds(3600);
        assert t == u;
        if t.Hour() == 0 {
          continue WRAP;
        }
      }

      while !s.MinuteOk(t)
        invariant t.nsec == 0 && Search(s, t, added, yearLimit) == goal
        invariant t.Year() <= yearLimit && Left(t, yearLimit) <= bound
        invariant s.MonthOk(t) && s.DayMatches(t) && s.HourOk(t)
        decreases Left(t, yearLimit)
      {
        ghost var u := StepMinute(t, added);
        MinuteStep(s, t, added, yearLimit);
        if !added {
          added := true;
          t := t.Truncate(60);
        }
        t := t.AddSeconds(60);
        assert t == u;
        if t.Minute() == 0 {
          continue WRAP;
        }
      }

      while !s.SecondOk(t)
        invariant t.nsec == 0 && Search(s, t, added, yearLimit) == goal
        invariant t.Year() <= yearLimit && Left(t, yearLimit) <= bound
        invariant s.MonthOk(t) && s.DayMatches(t) && s.HourOk(t) && s.MinuteOk(t)
        decreases Left(t, yearLimit)
      {
        ghost var u := StepSecond(t, added);
        SecondStep(s, t, added, yearLimit);
        if !added {
          added := true;
          t := t.Truncate(1);
        }
        t := t.AddSeconds(1);
        assert t == u;
        if t.Second() == 0 {
          continue WRAP;
        }
      }

      return t;
    }
  }
}
