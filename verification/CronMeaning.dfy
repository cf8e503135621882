/** What specs mean to their writers: the times of their texts, and the next one on the calendar. */
module CronMeaning {
  import opened Options
  import opened Texts
  import opened Decimals
  import opened Calendar
  import opened CalendarFacts
  import opened CronSpec
  import opened CronDelay
  import opened CronParser

  // ----- what Next promises, without the model's own words --------------------------------------------

  /** In a zone of whole minutes Next is the first whole second after the time, of the same zone and
      no later than the fifth year after that of the following second, at which the schedule matches;
      and the zero time if there is none. */
  lemma NextInWords(s: SpecSchedule, t: Time, x: Time)
    requires t.offset % 60 == 0
    ensures var r, limit := NextActivation(s, t), Time(t.utc + 1, 0, t.offset).Year() + 5;
      && (x.nsec == 0 && x.offset == t.offset && t.utc < x.utc && x.Year() <= limit && s.Matches(x) ==>
            r.utc <= x.utc && r.nsec == 0 && r.offset == t.offset && t.utc < r.utc && r.Year() <= limit && s.Matches(r))
      && (r == ZERO_TIME
          || (r.nsec == 0 && r.offset == t.offset && t.utc < r.utc && r.Year() <= limit && s.Matches(r)))
  {
    hide DateOf, NextActivation, SpecSchedule.Matches, Admissible, Time.Year;
    var r := NextActivation(s, t);
    NextIsFirst(s, t);
    AdmissibleIs(s, t, x);
    AdmissibleIs(s, t, r);
  }

  lemma AdmissibleIs(s: SpecSchedule, t: Time, x: Time)
    ensures Admissible(s, t, x) <==>
      && x.nsec == 0 && x.offset == t.offset && t.utc < x.utc
      && x.Year() <= Time(t.utc + 1, 0, t.offset).Year() + 5 && s.Matches(x)
  {
    hide Time.Year, SpecSchedule.Matches;
  }

  lemma OneIsOne()
    ensures MustParseInt("1") == Ok(1) && NoMarks("1")
  {
    NumbersRead("1");
  }

  /** Steps that follow another step move by exactly their unit and keep what the clock shows below it. */
  lemma LaterSteps(t: Time)
    ensures StepSecond(t, true) == t.(utc := t.utc + 1) && StepMinute(t, true) == t.(utc := t.utc + 60)
    ensures StepHour(t, true) == t.(utc := t.utc + 3600) && StepDay(t, true) == t.(utc := t.utc + 86400)
    ensures t.Day() == 1 ==>
      var u := StepMonth(t, true);
      && u.CivilDate() == (if t.Month() == 12 then Date(t.Year() + 1, 1, 1) else Date(t.Year(), t.Month() + 1, 1))
      && u.Local() % 86400 == t.Local() % 86400 && u.nsec == t.nsec && u.offset == t.offset
  {
    t.AddSecondsExact(1);
    t.AddSecondsExact(60);
    t.AddSecondsExact(3600);
    DayLater(t);
    if t.Day() == 1 {
      MonthLater(t);
    }
  }

  lemma DayLater(t: Time)
    ensures t.AddDate(0, 1) == t.(utc := t.utc + 86400)
  {
    hide DateOf, DayNumber;
    var d := t.CivilDate();
    var next := Date(d.year, d.month, d.day + 1);
    assert Date(d.year + (d.month - 1) / 12, (d.month - 1) % 12 + 1, d.day + 1) == next;
    NextDay(d);
    assert t.Local() == 86400 * t.DayIndex() + t.Local() % 86400;
  }

  lemma NextDay(d: Date)
    requires 1 <= d.month <= 12
    ensures DayNumber(Date(d.year, d.month, d.day + 1)) == DayNumber(d) + 1
  {
  }

  lemma MonthLater(t: Time)
    requires t.Day() == 1
    ensures var u := t.AddDate(1, 0);
      && u.CivilDate() == FirstOfNextMonth(t.CivilDate())
      && u.Local() % 86400 == t.Local() % 86400 && u.nsec == t.nsec && u.offset == t.offset
  {
    hide DateOf, DayNumber;
    var d, clock := t.CivilDate(), t.Local() % 86400;
    var next := FirstOfNextMonth(d);
    assert Date(d.year + d.month / 12, d.month % 12 + 1, 1) == next;
    DateOfDayNumber(next);
    WholeDays(DayNumber(next), clock);
    assert t.AddDate(1, 0).Local() == DayNumber(next) * 86400 + clock;
  }

  // ----- the values of simple fields --------------------------------------------------------------------

  lemma NumberCovers(text: string, n: nat, r: Bounds, i: nat)
    requires AllDigits(text) && Decimal(text) == n <= MAX_INT && Lower(text) !in r.names
    ensures FieldCovers(text, r, i) <==> r.min <= n <= r.max && i == n
    ensures !FieldStars(text, r)
  {
    hide Covers, Stars, Decimal, Lower, MustParseInt;
    assert text[0] != '*' && text[0] != '?';
    NumbersRead(text);
    NamesRead(text, r.names);
    OneIsOne();
    ItemForms(text, text, "1", r, n, n, 1, i);
    OneItemField(text, r, i);
  }

  lemma NameCovers(name: string, r: Bounds, i: nat)
    requires name in r.names && Lower(name) == name && NoMarks(name) && Free(name, IsComma)
    requires name != "*" && name != "?"
    requires name != ""
    ensures FieldCovers(name, r, i) <==> r.min <= r.names[name] <= r.max && i == r.names[name]
    ensures !FieldStars(name, r)
  {
    hide Covers, Stars, Decimal, Lower, MustParseInt;
    NamesRead(name, r.names);
    OneIsOne();
    ItemForms(name, name, "1", r, r.names[name], r.names[name], 1, i);
    OneItemField(name, r, i);
  }

  lemma StarCovers(star: string, r: Bounds, i: nat)
    requires (star == "*" || star == "?") && r.Valid()
    ensures FieldCovers(star, r, i) <==> r.min <= i <= r.max
    ensures FieldStars(star, r)
  {
    hide Covers, Stars, Decimal, MustParseInt;
    OneIsOne();
    StarForms(star, "", "1", r, 1, i);
    OneItemField(star, r, i);
  }

  /** The values of each field, with all of them starred. */
  lemma WholeFields(i: nat)
    ensures FieldCovers("*", SECONDS, i) <==> i <= 59
    ensures FieldCovers("*", MINUTES, i) <==> i <= 59
    ensures FieldCovers("*", HOURS, i) <==> i <= 23
    ensures FieldCovers("*", DOM, i) <==> 1 <= i <= 31
    ensures FieldCovers("*", MONTHS, i) <==> 1 <= i <= 12
    ensures FieldCovers("*", DOW, i) <==> i <= 6
    ensures FieldStars("*", DOM) && FieldStars("*", DOW)
  {
    hide FieldCovers, FieldStars;
    StarCovers("*", SECONDS, i);
    StarCovers("*", MINUTES, i);
    StarCovers("*", HOURS, i);
    StarCovers("*", DOM, i);
    StarCovers("*", MONTHS, i);
    StarCovers("*", DOW, i);
  }

  lemma ClockRanges(t: Time)
    ensures 0 <= t.Second() <= 59 && 0 <= t.Minute() <= 59 && 0 <= t.Hour() <= 23
    ensures 1 <= t.Day() <= 31 && 1 <= t.Month() <= 12 && 0 <= t.Weekday() <= 6
  {
    hide DayNumber, DaysBeforeYear;
    assert ValidDate(t.CivilDate());
  }

  // ----- from the words of a spec to the six fields -----------------------------------------------------

  /** A word of a spec. */
  predicate Word(w: string) { w != "" && Free(w, IsSpace) }

  function Spaced(words: seq<string>): string {
    if words == [] then "" else if |words| == 1 then words[0] else words[0] + " " + Spaced(words[1..])
  }

  /** The words of a spec are what stands between its spaces. */
  lemma {:induction false} SpecWords(words: seq<string>)
    requires forall i :: 0 <= i < |words| ==> Word(words[i])
    ensures Texts.Fields(Spaced(words), IsSpace) == words
  {
    hide Texts.Fields;
    if |words| == 0 {
      OneField("", IsSpace);
    } else if |words| == 1 {
      OneField(words[0], IsSpace);
    } else {
      FieldsAt(words[0], ' ', Spaced(words[1..]), IsSpace);
      SpecWords(words[1..]);
    }
  }

  /** With all options the words are second, minute, hour, day of month, month and day of week; the
      standard parser has no second, which then is 0; a day of the week that is optional is a star. */
  lemma WordsOfOptions(words: seq<string>, i: nat)
    requires i < 6
    ensures var all := {SecondField, MinuteField, HourField, DomField, MonthField, DowField, DowOptional, Descriptor};
      && Rank(all, 6) == 6
      && (|words| == 6 ==> FieldAt(words, all, i) == words[i])
      && (|words| == 5 ==> FieldAt(words, all, i) == if i < 5 then words[i] else "*")
    ensures var standard := {MinuteField, HourField, DomField, MonthField, DowField, Descriptor};
      && Rank(standard, 6) == 5
      && (|words| == 5 ==> FieldAt(words, standard, i) == if i == 0 then "0" else words[i - 1])
  {
    RanksOf({SecondField, MinuteField, HourField, DomField, MonthField, DowField, DowOptional, Descriptor});
    RanksOf({MinuteField, HourField, DomField, MonthField, DowField, Descriptor});
  }

  lemma RanksOf(options: set<ParseOption>)
    ensures Rank(options, 0) == 0
    ensures Rank(options, 1) == if SecondField in options then 1 else 0
    ensures Rank(options, 2) == Rank(options, 1) + if MinuteField in options then 1 else 0
    ensures Rank(options, 3) == Rank(options, 2) + if HourField in options then 1 else 0
    ensures Rank(options, 4) == Rank(options, 3) + if DomField in options then 1 else 0
    ensures Rank(options, 5) == Rank(options, 4) + if MonthField in options then 1 else 0
    ensures Rank(options, 6) == Rank(options, 5) + if DowField in options then 1 else 0
  {
  }

  /** Which specs have the right number of words, and which are looked up as descriptors, for the two
      parsers of the package; and that all six fields are read, each with its own bounds. */
  lemma SpecsOfParsers(spec: string, options: set<ParseOption>, fields: seq<string>)
    requires |fields| == 6
    ensures var default :=
        NewParser({SecondField, MinuteField, HourField, DomField, MonthField, DowOptional, Descriptor});
      && (CountOk(default, spec) <==> 5 <= |Texts.Fields(spec, IsSpace)| <= 6)
      && (IsDescriptor(default, spec) <==> spec != "" && spec[0] == '@')
    ensures var standard := NewParser({MinuteField, HourField, DomField, MonthField, DowField, Descriptor});
      && (CountOk(standard, spec) <==> |Texts.Fields(spec, IsSpace)| == 5)
      && (IsDescriptor(standard, spec) <==> spec != "" && spec[0] == '@')
    ensures Descriptor !in options ==> !IsDescriptor(NewParser(options), spec)
    ensures AllFieldsOk(fields)
      <==> FieldOk(fields[0], SECONDS) && FieldOk(fields[1], MINUTES) && FieldOk(fields[2], HOURS)
           && FieldOk(fields[3], DOM) && FieldOk(fields[4], MONTHS) && FieldOk(fields[5], DOW)
  {
    hide FieldOk, Texts.Fields;
    RanksOf(NewParser({SecondField, MinuteField, HourField, DomField, MonthField, DowOptional, Descriptor}).options);
    RanksOf({MinuteField, HourField, DomField, MonthField, DowField, Descriptor});
    SixFields(fields);
  }

  lemma SixFields(fields: seq<string>)
    requires |fields| == 6
    ensures AllFieldsOk(fields)
      <==> FieldOk(fields[0], SECONDS) && FieldOk(fields[1], MINUTES) && FieldOk(fields[2], HOURS)
           && FieldOk(fields[3], DOM) && FieldOk(fields[4], MONTHS) && FieldOk(fields[5], DOW)
  {
    hide FieldOk;
    assert BoundsOf(0) == SECONDS && BoundsOf(1) == MINUTES && BoundsOf(2) == HOURS;
    assert BoundsOf(3) == DOM && BoundsOf(4) == MONTHS && BoundsOf(5) == DOW;
    assert AllFieldsOk(fields) <==> forall k | k in [0, 1, 2, 3, 4, 5] :: FieldOk(fields[k], BoundsOf(k));
  }

  /** A field that a parser has no option for: second, minute and hour are 0, the days and the month
      are any. */
  lemma DefaultFields(words: seq<string>, options: set<ParseOption>, v: nat)
    ensures SecondField !in options ==> (FieldCovers(FieldAt(words, options, 0), SECONDS, v) <==> v == 0)
    ensures MinuteField !in options ==> (FieldCovers(FieldAt(words, options, 1), MINUTES, v) <==> v == 0)
    ensures HourField !in options ==> (FieldCovers(FieldAt(words, options, 2), HOURS, v) <==> v == 0)
    ensures DomField !in options ==> (FieldCovers(FieldAt(words, options, 3), DOM, v) <==> 1 <= v <= 31)
    ensures MonthField !in options ==> (FieldCovers(FieldAt(words, options, 4), MONTHS, v) <==> 1 <= v <= 12)
    ensures DowField !in options ==> (FieldCovers(FieldAt(words, options, 5), DOW, v) <==> v <= 6)
  {
    hide FieldCovers, FieldStars;
    NumberCovers("0", 0, SECONDS, v);
    NumberCovers("0", 0, MINUTES, v);
    NumberCovers("0", 0, HOURS, v);
    WholeFields(v);
  }

  // ----- descriptors, in times ----------------------------------------------------------------------------

  predicate Midnight(t: Time) { t.Hour() == t.Minute() == t.Second() == 0 }

  /** A schedule with plain numbers or stars matches at these numbers. */
  lemma SimpleTimes(s: SpecSchedule, fields: seq<string>, t: Time)
    requires |fields| == 6 && Means(s, fields)
    requires fields[0] == "0" && fields[1] == "0" && fields[2] in ["0", "*"]
    requires fields[3] in ["1", "*"] && fields[4] in ["1", "*"] && fields[5] in ["0", "*"]
    requires fields[3] == "*" || fields[5] == "*"
    ensures s.Matches(t) <==>
      && t.Second() == 0 && t.Minute() == 0 && (fields[2] == "0" ==> t.Hour() == 0)
      && (fields[3] == "1" ==> t.Day() == 1) && (fields[4] == "1" ==> t.Month() == 1)
      && (fields[5] == "0" ==> t.Weekday() == 0)
  {
    hide FieldCovers, FieldStars, Means, SpecSchedule.Matches, DateOf, MonthNames, DayNames;
    ParsedMatches(s, fields, t);
    ClockRanges(t);
    Names();
    NumberCovers("0", 0, SECONDS, t.Second());
    NumberCovers("0", 0, MINUTES, t.Minute());
    NumberCovers("0", 0, HOURS, t.Hour());
    NumberCovers("1", 1, DOM, t.Day());
    NumberCovers("1", 1, MONTHS, t.Month());
    NumberCovers("0", 0, DOW, t.Weekday());
    WholeFields(t.Hour());
    WholeFields(t.Day());
    WholeFields(t.Month());
    WholeFields(t.Weekday());
  }

  lemma DescriptorSchedules(duration: string -> Option<int>)
    ensures ParseDescriptor("@yearly", duration) == ParseDescriptor("@annually", duration) == Ok(Spec(Yearly()))
    ensures ParseDescriptor("@monthly", duration) == Ok(Spec(Monthly()))
    ensures ParseDescriptor("@weekly", duration) == Ok(Spec(Weekly()))
    ensures ParseDescriptor("@daily", duration) == ParseDescriptor("@midnight", duration) == Ok(Spec(Daily()))
    ensures ParseDescriptor("@hourly", duration) == Ok(Spec(Hourly()))
  {
    hide Yearly, Monthly, Weekly, Daily, Hourly;
  }

  /** When each descriptor's schedule matches. */
  lemma DescriptorTimes(duration: string -> Option<int>, t: Time)
    ensures exists s: SpecSchedule ::
      && ParseDescriptor("@yearly", duration) == ParseDescriptor("@annually", duration) == Ok(Spec(s))
      && (s.Matches(t) <==> Midnight(t) && t.Day() == 1 && t.Month() == 1)
    ensures exists s: SpecSchedule ::
      ParseDescriptor("@monthly", duration) == Ok(Spec(s)) && (s.Matches(t) <==> Midnight(t) && t.Day() == 1)
    ensures exists s: SpecSchedule ::
      ParseDescriptor("@weekly", duration) == Ok(Spec(s)) && (s.Matches(t) <==> Midnight(t) && t.Weekday() == 0)
    ensures exists s: SpecSchedule ::
      && ParseDescriptor("@daily", duration) == ParseDescriptor("@midnight", duration) == Ok(Spec(s))
      && (s.Matches(t) <==> Midnight(t))
    ensures exists s: SpecSchedule ::
      ParseDescriptor("@hourly", duration) == Ok(Spec(s)) && (s.Matches(t) <==> t.Minute() == t.Second() == 0)
  {
    hide Means, SpecSchedule.Matches, DateOf, Yearly, Monthly, Weekly, Daily, Hourly, ParseDescriptor;
    DescriptorSchedules(duration);
    DescriptorsMean();
    SimpleTimes(Yearly(), ["0", "0", "0", "1", "1", "*"], t);
    SimpleTimes(Monthly(), ["0", "0", "0", "1", "*", "*"], t);
    SimpleTimes(Weekly(), ["0", "0", "0", "*", "*", "0"], t);
    SimpleTimes(Daily(), ["0", "0", "0", "*", "*", "*"], t);
    SimpleTimes(Hourly(), ["0", "0", "*", "*", "*", "*"], t);
  }

  const NAMED := ["@yearly", "@annually", "@monthly", "@weekly", "@daily", "@midnight", "@hourly"]

  /** `@every` with a duration that can be read is its delay; other descriptors are refused. */
  lemma EveryDescriptor(text: string, duration: string -> Option<int>)
    ensures duration(text).Some? ==>
      ParseDescriptor("@every " + text, duration) == Ok(Delay(Every(duration(text).value)))
    ensures duration(text).None? ==> ParseDescriptor("@every " + text, duration) == Err(BadDuration("@every " + text))
  {
    hide Every;
    NotNamed(text);
    assert ("@every " + text)[|EVERY|..] == text;
  }

  lemma NotNamed(text: string)
    ensures "@every " + text !in NAMED
  {
    var d := "@every " + text;
    assert d[1] == 'e';
    assert forall i :: 0 <= i < |NAMED| ==> NAMED[i][1] != 'e';
  }

  lemma UnknownDescriptor(d: string, duration: string -> Option<int>)
    requires !("@every " <= d) && d !in NAMED
    ensures ParseDescriptor(d, duration) == Err(Unrecognized)
  {
    hide Yearly, Monthly, Weekly, Daily, Hourly, Every;
    assert NAMED[0] != d && NAMED[1] != d && NAMED[2] != d && NAMED[3] != d && NAMED[4] != d && NAMED[5] != d
      && NAMED[6] != d;
  }

  // ----- two specs on the calendar ------------------------------------------------------------------------

  // `0 */15 * * * *` matches every quarter of an hour.
  lemma QuarterHours(s: SpecSchedule, t: Time)
    requires Means(s, ["0", "*/15", "*", "*", "*", "*"])
    ensures s.Matches(t) <==> t.Second() == 0 && t.Minute() in {0, 15, 30, 45}
  {
    hide FieldCovers, FieldStars, Means, SpecSchedule.Matches, DateOf, Covers, Stars, MustParseInt, Decimal;
    ParsedMatches(s, ["0", "*/15", "*", "*", "*", "*"], t);
    ClockRanges(t);
    Fifteen();
    NumberCovers("0", 0, SECONDS, t.Second());
    FifteenIsFifteen();
    StarForms("*", "", "15", MINUTES, 15, t.Minute());
    OneItemField("*/15", MINUTES, t.Minute());
    assert "*" + "/" + "15" == "*/15";
    WholeFields(t.Hour());
    WholeFields(t.Day());
    WholeFields(t.Month());
    WholeFields(t.Weekday());
    Quarters(t.Minute());
  }

  lemma Fifteen()
    ensures AllDigits("15") && Decimal("15") == 15 && Decimal("1") == 1 && Decimal("0") == 0
  {
    DecimalNext("", '0');
    DecimalNext("", '1');
    DecimalNext("1", '5');
    assert "" + ['0'] == "0" && "" + ['1'] == "1" && "1" + ['5'] == "15";
  }

  lemma FifteenIsFifteen()
    ensures MustParseInt("15") == Ok(15) && NoMarks("15") && Free("*/15", IsComma)
  {
    Fifteen();
    hide Decimal;
    NumbersRead("15");
  }

  lemma Quarters(m: int)
    requires 0 <= m <= 59
    ensures m % 15 == 0 <==> m in {0, 15, 30, 45}
  {
  }

  lemma NineOnMondays(s: SpecSchedule, t: Time)
    requires Means(s, ["0", "0", "9", "*", "*", "mon"])
    ensures s.Matches(t) <==> t.Second() == 0 && t.Minute() == 0 && t.Hour() == 9 && t.Weekday() == 1
  {
    hide FieldCovers, FieldStars, Means, SpecSchedule.Matches, DateOf;
    ParsedMatches(s, ["0", "0", "9", "*", "*", "mon"], t);
    ClockRanges(t);
    NumberCovers("0", 0, SECONDS, t.Second());
    NumberCovers("0", 0, MINUTES, t.Minute());
    NumberCovers("9", 9, HOURS, t.Hour());
    assert Lower("mon") == "mon";
    NameCovers("mon", DOW, t.Weekday());
    WholeFields(t.Day());
    WholeFields(t.Month());
  }

  const NEW_YEAR := Date(2024, 1, 1)

  /** That day in UTC, at a full hour. */
  function NewYear(hour: int): Time { Civil(2024, 1, 1, 3600 * hour, 0, 0) }

  lemma NewYearShows(hour: int)
    requires 0 <= hour < 24
    ensures var t := NewYear(hour);
      && t.CivilDate() == NEW_YEAR && t.Hour() == hour && t.Minute() == t.Second() == 0 && t.Weekday() == 1
      && t.nsec == t.offset == 0 && t.utc == 86400 * 739_251 + 3600 * hour
  {
    hide DateOf, Time.Weekday;
    ClockShows(NEW_YEAR, hour, 0, 0, 0, 0);
    WeekdayOf(NewYear(hour), NEW_YEAR);
    KnownDates();
    assert DayNumber(NEW_YEAR) == 739_251;
  }

  /** From a midnight in UTC of a Monday the next time is at nine of the day. */
  lemma NineIsNext(s: SpecSchedule, t: Time, nine: Time)
    requires Means(s, ["0", "0", "9", "*", "*", "mon"])
    requires t.nsec == nine.nsec == t.offset == nine.offset == 0 && t.utc % 86400 == 0 && nine.utc == t.utc + 9 * 3600
    requires t.CivilDate() == nine.CivilDate()
    requires nine.Weekday() == 1 && nine.Hour() == 9 && nine.Minute() == nine.Second() == 0
    ensures NextActivation(s, t) == nine
  {
    hide *;
    var r := NextActivation(s, t);
    NineOnMondays(s, nine);
    NineOnMondays(s, r);
    SameYear(t, nine);
    NextInWords(s, t, nine);
    NineOClock(t, r, nine);
  }

  lemma SameYear(t: Time, u: Time)
    requires t.CivilDate() == u.CivilDate()
    ensures u.Year() <= Time(t.utc + 1, 0, t.offset).Year() + 5
  {
    hide DateOf;
    YearsGoUp(t, Time(t.utc + 1, 0, t.offset));
  }

  /** From Monday, 1 January 2024, 00:00 UTC, `0 0 9 * * mon` comes next at nine the same day. */
  lemma MondayAtNine(s: SpecSchedule)
    requires Means(s, ["0", "0", "9", "*", "*", "mon"])
    ensures NewYear(0).Weekday() == 1 && NextActivation(s, NewYear(0)) == NewYear(9)
  {
    hide *;
    NewYearShows(0);
    NewYearShows(9);
    NineIsNext(s, NewYear(0), NewYear(9));
  }

  /** Only nine o'clock shows nine o'clock, from midnight to nine. */
  lemma NineOClock(t: Time, r: Time, nine: Time)
    requires t.nsec == r.nsec == nine.nsec && t.offset == r.offset == nine.offset == 0
    requires t.utc % 86400 == 0 && nine.utc == t.utc + 9 * 3600 && t.utc < r.utc <= nine.utc
    requires r.Hour() == 9 && r.Minute() == 0 && r.Second() == 0
    ensures r == nine
  {
    Pieces(r.Local());
    Pieces(t.Local());
    assert r.Local() / 86400 == t.Local() / 86400;
  }
}
