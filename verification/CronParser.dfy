/** The crontab parser: field texts to bit masks. */
module CronParser {
  import opened Options
  import opened Bits
  import opened Texts
  import opened Decimals
  import opened Calendar
  import opened CronSpec
  import opened CronDelay

  datatype Error =
    | EmptySpec
    | FieldCount(min: nat, max: nat, found: nat)
    | BadNumber(text: string)
    | Negative(value: int)
    | ManyHyphens
    | ManySlashes
    | BelowMinimum(number: nat)
    | AboveMaximum(number: nat)
    | BeyondEnd(number: nat, last: nat)
    | ZeroStep
    | BadDuration(text: string)
    | Unrecognized

  datatype Result<+T> = Ok(value: T) | Err(error: Error)

  /** The least and the greatest value of a field, and the names of some. */
  datatype Bounds = Bounds(min: nat, max: nat, names: map<string, nat>) {
    predicate Valid() { min <= max < 63 }
  }

  const SECONDS := Bounds(0, 59, map[])
  const MINUTES := Bounds(0, 59, map[])
  const HOURS := Bounds(0, 23, map[])
  const DOM := Bounds(1, 31, map[])
  const MONTHS := Bounds(1, 12, MonthNames())
  const DOW := Bounds(0, 6, DayNames())

  function MonthNames(): map<string, nat> {
    map["jan" := 1, "feb" := 2, "mar" := 3, "apr" := 4, "may" := 5, "jun" := 6,
        "jul" := 7, "aug" := 8, "sep" := 9, "oct" := 10, "nov" := 11, "dec" := 12]
  }

  function DayNames(): map<string, nat> {
    map["sun" := 0, "mon" := 1, "tue" := 2, "wed" := 3, "thu" := 4, "fri" := 5, "sat" := 6]
  }

  // ----- bits ------------------------------------------------------------------------------------

  predicate InSteps(min: nat, max: nat, step: nat, i: nat)
    requires step > 0
  {
    min <= i <= max && (i - min) % step == 0
  }

  lemma NextStep(min: nat, i: nat, step: nat, k: nat)
    requires step > 0 && min <= i && (i - min) % step == 0
    ensures (i + step - min) % step == 0
    ensures i < k < i + step ==> (k - min) % step != 0
  {
    var q := (i - min) / step;
    assert i - min == q * step;
    assert (i + step - min) == (q + 1) * step;
    DivisionUnique(i + step - min, step, q + 1, 0);
    if i < k < i + step {
      DivisionUnique(k - min, step, q, k - i);
    }
  }

  lemma DivisionUnique(n: int, d: nat, q: int, r: nat)
    requires d > 0 && n == q * d + r && r < d
    ensures n % d == r
  {
    var p, s := n / d, n % d;
    assert n == p * d + s;
    assert (p - q) * d == p * d - q * d;
    SmallMultiple(p - q, d);
  }

  lemma SmallMultiple(m: int, d: int)
    requires -d < m * d < d
    ensures m == 0
  {
    assert m > 0 ==> (m - 1) * d >= 0;
    assert m * d == (m - 1) * d + d;
    assert m < 0 ==> (-m - 1) * d >= 0;
    assert -(m * d) == (-m - 1) * d + d;
  }

  /** The mask has the bits of the range below `i`. */
  predicate HasBelow(bits: bv64, min: nat, max: nat, step: nat, i: nat)
    requires step > 0
  {
    forall k :: 0 <= k < 64 ==> (Bit(bits, k) <==> k < i && InSteps(min, max, step, k))
  }

  lemma NoneBelow(min: nat, max: nat, step: nat)
    requires step > 0
    ensures HasBelow(0, min, max, step, min)
  {
    hide Bit;
    forall k | 0 <= k < 64
      ensures !Bit(0, k)
    {
      NoBits(k);
    }
  }

  lemma OneMoreAt(bits: bv64, min: nat, max: nat, step: nat, i: nat, k: nat)
    requires step > 0 && min <= i <= max < 64 && (i - min) % step == 0 && k < 64
    requires Bit(bits, k) <==> k < i && InSteps(min, max, step, k)
    ensures Bit(Or(bits, Single(i)), k) <==> k < i + step && InSteps(min, max, step, k)
  {
    hide Bit, Single;
    BitOfOr(bits, Single(i), k);
    BitOfSingle(i, k);
    NextStep(min, i, step, k);
  }

  lemma OneMore(bits: bv64, min: nat, max: nat, step: nat, i: nat)
    requires step > 0 && min <= i <= max < 64 && (i - min) % step == 0
    requires HasBelow(bits, min, max, step, i)
    ensures HasBelow(Or(bits, Single(i)), min, max, step, i + step)
  {
    hide Bit, Single, InSteps;
    forall k | 0 <= k < 64
      ensures Bit(Or(bits, Single(i)), k) <==> k < i + step && InSteps(min, max, step, k)
    {
      OneMoreAt(bits, min, max, step, i, k);
    }
  }

  lemma ShiftedBitsAt(min: nat, max: nat, i: nat)
    requires min <= max < 63 && i < 64
    ensures Bit(Window(min, max), i) <==> InSteps(min, max, 1, i)
  {
    hide Bit, Window;
    BitOfWindow(min, max, i);
  }

  /** For step 1, two shifts give the same bits. */
  lemma ShiftedBits(min: nat, max: nat)
    requires min <= max < 63
    ensures HasBelow(Window(min, max), min, max, 1, 64)
  {
    hide Bit, Window, InSteps;
    forall i | 0 <= i < 64
      ensures Bit(Window(min, max), i) <==> InSteps(min, max, 1, i)
    {
      ShiftedBitsAt(min, max, i);
    }
  }

  /** The bits of the range, every `step` from its start. */
  method GetBits(min: nat, max: nat, step: nat) returns (bits: bv64)
    requires min <= max < 63 && 0 < step <= MAX_INT
    ensures forall i :: 0 <= i < 64 ==> (Bit(bits, i) <==> InSteps(min, max, step, i))
  {
    hide Bit, Single, Window;
    if step == 1 {
      ShiftedBits(min, max);
      return Window(min, max);
    }
    bits := 0;
    NoneBelow(min, max, step);
    var i := min;
    while i <= max
      invariant min <= i && (i - min) % step == 0
      invariant HasBelow(bits, min, max, step, i)
      decreases max + step - i
    {
      assert i + step < 0x1_0000_0000_0000_0000;
      OneMore(bits, min, max, step, i);
      NextStep(min, i, step, i);
      bits := Or(bits, Single(i));
      i := i + step;
    }
  }

  // ----- one item: number | number "-" number, with an optional "/" step ---------------------------

  predicate IsSlash(c: char) { c == '/' }
  predicate IsHyphen(c: char) { c == '-' }
  predicate IsComma(c: char) { c == ',' }

  function MustParseInt(expr: string): Result<nat> {
    var num := Atoi(expr);
    if !num.ok then Err(BadNumber(expr))
    else if num.value < 0 then Err(Negative(num.value))
    else Ok(num.value)
  }

  function ParseIntOrName(expr: string, names: map<string, nat>): Result<nat> {
    if Lower(expr) in names then Ok(names[Lower(expr)]) else MustParseInt(expr)
  }

  predicate IsStar(s: string) { s == "*" || s == "?" }

  /** The values of an item: from first to last, every `step`. */
  datatype Range = Range(first: nat, last: nat, step: nat, star: bool)

  /** The ends of an item, before its step is looked at. */
  function Ends(lowAndHigh: seq<string>, r: Bounds): Result<(nat, nat)>
    requires lowAndHigh != []
  {
    if IsStar(lowAndHigh[0]) then Ok((r.min, r.max))
    else
      match ParseIntOrName(lowAndHigh[0], r.names)
      case Err(e) => Err(e)
      case Ok(low) =>
        if |lowAndHigh| == 1 then Ok((low, low))
        else if |lowAndHigh| > 2 then Err(ManyHyphens)
        else
          match ParseIntOrName(lowAndHigh[1], r.names)
          case Err(e) => Err(e)
          case Ok(high) => Ok((low, high))
  }

  /** With a step, a single value goes on to the maximum. */
  function Stepped(ends: (nat, nat), rangeAndStep: seq<string>, single: bool, star: bool, r: Bounds): Result<Range>
    requires rangeAndStep != []
  {
    if |rangeAndStep| == 1 then Ok(Range(ends.0, ends.1, 1, star))
    else if |rangeAndStep| > 2 then Err(ManySlashes)
    else
      match MustParseInt(rangeAndStep[1])
      case Err(e) => Err(e)
      case Ok(step) => Ok(Range(ends.0, if single then r.max else ends.1, step, star))
  }

  function Checked(range: Range, r: Bounds): Result<Range> {
    if range.first < r.min then Err(BelowMinimum(range.first))
    else if range.last > r.max then Err(AboveMaximum(range.last))
    else if range.first > range.last then Err(BeyondEnd(range.first, range.last))
    else if range.step == 0 then Err(ZeroStep)
    else Ok(range)
  }

  function ParseRange(expr: string, r: Bounds): (res: Result<Range>)
    ensures res.Ok? ==> r.min <= res.value.first <= res.value.last <= r.max && 0 < res.value.step
  {
    var rangeAndStep := Split(expr, IsSlash);
    var lowAndHigh := Split(rangeAndStep[0], IsHyphen);
    match Ends(lowAndHigh, r)
    case Err(e) => Err(e)
    case Ok(ends) =>
      match Stepped(ends, rangeAndStep, |lowAndHigh| == 1, IsStar(lowAndHigh[0]), r)
      case Err(e) => Err(e)
      case Ok(range) => Checked(range, r)
  }

  /** The item covers the value. */
  predicate Covers(expr: string, r: Bounds, i: nat) {
    ParseRange(expr, r).Ok? && var g := ParseRange(expr, r).value; InSteps(g.first, g.last, g.step, i)
  }

  /** The item begins with a star or a question mark. */
  predicate Stars(expr: string, r: Bounds) { ParseRange(expr, r).Ok? && ParseRange(expr, r).value.star }

  /** The mask of one item: its values, and the star bit. */
  predicate ItemBits(bits: bv64, expr: string, r: Bounds) {
    && (forall i :: 0 <= i < 63 ==> (Bit(bits, i) <==> Covers(expr, r, i)))
    && (Bit(bits, STAR_BIT) <==> Stars(expr, r))
  }

  /** Reads the numbers of an item, and checks them in the order in which errors are reported. */
  method ReadRange(expr: string, r: Bounds) returns (res: Result<Range>)
    ensures res == ParseRange(expr, r)
  {
    hide Split, ParseIntOrName, MustParseInt;
    var star := false;
    var start: nat, end: nat, step: nat := 0, 0, 0;
    var rangeAndStep := Split(expr, IsSlash);
    var lowAndHigh := Split(rangeAndStep[0], IsHyphen);
    var singleDigit := |lowAndHigh| == 1;
    if lowAndHigh[0] == "*" || lowAndHigh[0] == "?" {
      start := r.min;
      end := r.max;
      star := true;
    } else {
      var low := ParseIntOrName(lowAndHigh[0], r.names);
      if low.Err? {
        return Err(low.error);
      }
      start := low.value;
      if |lowAndHigh| == 1 {
        end := start;
      } else if |lowAndHigh| == 2 {
        var high := ParseIntOrName(lowAndHigh[1], r.names);
        if high.Err? {
          return Err(high.error);
        }
        end := high.value;
      } else {
        return Err(ManyHyphens);
      }
    }
    if |rangeAndStep| == 1 {
      step := 1;
    } else if |rangeAndStep| == 2 {
      var every := MustParseInt(rangeAndStep[1]);
      if every.Err? {
        return Err(every.error);
      }
      step := every.value;
      if singleDigit {
        end := r.max;
      }
    } else {
      return Err(ManySlashes);
    }
    if start < r.min {
      return Err(BelowMinimum(start));
    }
    if end > r.max {
      return Err(AboveMaximum(end));
    }
    if start > end {
      return Err(BeyondEnd(start, end));
    }
    if step == 0 {
      return Err(ZeroStep);
    }
    return Ok(Range(start, end, step, star));
  }

  lemma StepFits(expr: string, r: Bounds)
    ensures ParseRange(expr, r).Ok? ==> ParseRange(expr, r).value.step <= MAX_INT
  {
    hide Split, Lower;
  }

  method GetRange(expr: string, r: Bounds) returns (res: Result<bv64>)
    requires r.Valid()
    ensures res.Ok? <==> ParseRange(expr, r).Ok?
    ensures res.Ok? ==> ItemBits(res.value, expr, r)
    ensures res.Err? ==> ParseRange(expr, r) == Err(res.error)
  {
    hide Bit, Single, InSteps, ParseRange;
    var range := ReadRange(expr, r);
    if range.Err? {
      return Err(range.error);
    }
    StepFits(expr, r);
    var bits := GetBits(range.value.first, range.value.last, range.value.step);
    var extra: bv64 := if range.value.star then Single(STAR_BIT) else 0;
    ExtraBit(bits, extra, range.value.first, range.value.last, range.value.step);
    StarIsSomething();
    res := Ok(Or(bits, extra));
  }

  lemma ExtraBitAt(bits: bv64, extra: bv64, i: nat)
    requires i < 64 && (extra == 0 || extra == Single(STAR_BIT))
    ensures Bit(Or(bits, extra), i) <==> Bit(bits, i) || (extra == Single(STAR_BIT) && i == STAR_BIT)
  {
    StarIsSomething();
    hide Bit, Single;
    BitOfOr(bits, extra, i);
    BitOfSingle(STAR_BIT, i);
    NoBits(i);
  }

  lemma ExtraBit(bits: bv64, extra: bv64, first: nat, last: nat, step: nat)
    requires first <= last < 63 && step > 0
    requires forall i :: 0 <= i < 64 ==> (Bit(bits, i) <==> InSteps(first, last, step, i))
    requires extra == 0 || extra == Single(STAR_BIT)
    ensures forall i :: 0 <= i < 63 ==> (Bit(Or(bits, extra), i) <==> InSteps(first, last, step, i))
    ensures Bit(Or(bits, extra), STAR_BIT) <==> extra == Single(STAR_BIT)
  {
    assert !InSteps(first, last, step, STAR_BIT);
    hide Bit, Single, Or, InSteps;
    forall i | 0 <= i < 64
      ensures Bit(Or(bits, extra), i) <==> Bit(bits, i) || (extra == Single(STAR_BIT) && i == STAR_BIT)
    {
      ExtraBitAt(bits, extra, i);
    }
  }

  lemma StarIsSomething()
    ensures Single(STAR_BIT) != 0
  {
    NoneLost(STAR_BIT);
  }

  // ----- numbers and names ---------------------------------------------------------------------------

  /** Digits are read as the number they show, up to the largest of 64 bits, with a plus sign or none;
      behind a minus sign only zero is; and nothing else is a number. */
  lemma NumbersRead(digits: string)
    requires AllDigits(digits)
    ensures var n := Decimal(digits);
      && MustParseInt(digits) == (if n <= MAX_INT then Ok(n) else Err(BadNumber(digits)))
      && MustParseInt("+" + digits) == (if n <= MAX_INT then Ok(n) else Err(BadNumber("+" + digits)))
      && (n == 0 ==> MustParseInt("-" + digits) == Ok(0))
      && (0 < n <= MAX_INT + 1 ==> MustParseInt("-" + digits) == Err(Negative(-(n as int))))
      && (n > MAX_INT + 1 ==> MustParseInt("-" + digits) == Err(BadNumber("-" + digits)))
  {
    hide Decimal;
    assert digits[0] != '+' && digits[0] != '-';
    assert ("+" + digits)[1..] == digits && ("-" + digits)[1..] == digits;
  }

  lemma OtherTextsAreNoNumbers(expr: string)
    requires !AllDigits(expr) && (expr != "" && (expr[0] == '+' || expr[0] == '-') ==> !AllDigits(expr[1..]))
    ensures MustParseInt(expr) == Err(BadNumber(expr))
  {
  }

  /** A name in any case is its number, whatever it would be as a number; only other texts are read. */
  lemma NamesRead(expr: string, names: map<string, nat>)
    ensures forall name :: name in names && Lower(expr) == name ==> ParseIntOrName(expr, names) == Ok(names[name])
    ensures Lower(expr) !in names ==> ParseIntOrName(expr, names) == MustParseInt(expr)
  {
    hide MustParseInt;
  }

  /** The months from January as 1, the days from Sunday as 0. */
  lemma CalendarNames()
    ensures forall name :: name in MonthNames() <==> name in YEAR
    ensures forall i :: 0 <= i < 12 ==> MonthNames()[YEAR[i]] == i + 1
    ensures forall name :: name in DayNames() <==> name in WEEK
    ensures forall i :: 0 <= i < 7 ==> DayNames()[WEEK[i]] == i
  {
  }

  const YEAR := ["jan", "feb", "mar", "apr", "may", "jun", "jul", "aug", "sep", "oct", "nov", "dec"]
  const WEEK := ["sun", "mon", "tue", "wed", "thu", "fri", "sat"]

  // ----- the grammar of items, form by form ----------------------------------------------------------

  predicate NoMarks(s: string) { Free(s, IsSlash) && Free(s, IsHyphen) }

  lemma Unstepped(range: string)
    requires Free(range, IsSlash)
    ensures Split(range, IsSlash) == [range]
  {
    SplitWhole(range, IsSlash);
  }

  lemma SteppedBy(range: string, step: string)
    requires Free(range, IsSlash) && Free(step, IsSlash)
    ensures Split(range + "/" + step, IsSlash) == [range, step]
  {
    SplitAt(range, '/', step, IsSlash);
    SplitWhole(step, IsSlash);
  }

  lemma Hyphened(low: string, high: string)
    requires NoMarks(low) && NoMarks(high)
    ensures Split(low + "-" + high, IsHyphen) == [low, high] && Free(low + "-" + high, IsSlash)
  {
    SplitAt(low, '-', high, IsHyphen);
    SplitWhole(high, IsHyphen);
  }

  /** What the reading of an item comes to once its text has been taken apart. */
  lemma FormsRead(low: string, high: string, step: string, r: Bounds, a: nat, b: nat, k: nat)
    requires NoMarks(low) && NoMarks(high) && NoMarks(step) && low != "*" && low != "?"
    requires ParseIntOrName(low, r.names) == Ok(a) && ParseIntOrName(high, r.names) == Ok(b)
      && MustParseInt(step) == Ok(k)
    ensures ParseRange(low, r) == Checked(Range(a, a, 1, false), r)
    ensures ParseRange(low + "/" + step, r) == Checked(Range(a, r.max, k, false), r)
    ensures ParseRange(low + "-" + high, r) == Checked(Range(a, b, 1, false), r)
    ensures ParseRange(low + "-" + high + "/" + step, r) == Checked(Range(a, b, k, false), r)
  {
    hide Split, ParseIntOrName, MustParseInt, Checked;
    Unstepped(low);
    SplitWhole(low, IsHyphen);
    SteppedBy(low, step);
    Hyphened(low, high);
    Unstepped(low + "-" + high);
    SteppedBy(low + "-" + high, step);
  }

  /** The values of an item that comes to a range. */
  lemma CoversRange(text: string, range: Range, r: Bounds, i: nat)
    requires ParseRange(text, r) == Checked(range, r)
    ensures Covers(text, r, i)
      <==> r.min <= range.first <= range.last <= r.max && range.step > 0
           && range.first <= i <= range.last && (i - range.first) % range.step == 0
    ensures Stars(text, r)
      <==> range.star && r.min <= range.first <= range.last <= r.max && range.step > 0
  {
    hide ParseRange;
  }

  lemma CoversWhole(text: string, first: nat, last: nat, star: bool, r: Bounds, i: nat)
    requires ParseRange(text, r) == Checked(Range(first, last, 1, star), r)
    ensures Covers(text, r, i) <==> r.min <= first <= last <= r.max && first <= i <= last
    ensures Stars(text, r) <==> star && r.min <= first <= last <= r.max
  {
    hide ParseRange;
  }

  /** `low`, `low/step`, `low-high` and `low-high/step`, of numbers or names: a single value is
      itself, a single value with a step goes on to the maximum, a range goes to its end, and a step
      counts from the first value. */
  lemma ItemForms(low: string, high: string, step: string, r: Bounds, a: nat, b: nat, k: nat, i: nat)
    requires NoMarks(low) && NoMarks(high) && NoMarks(step) && low != "*" && low != "?"
    requires ParseIntOrName(low, r.names) == Ok(a) && ParseIntOrName(high, r.names) == Ok(b)
      && MustParseInt(step) == Ok(k)
    ensures Covers(low, r, i) <==> r.min <= a <= r.max && i == a
    ensures Covers(low + "/" + step, r, i) <==> r.min <= a && k > 0 && a <= i <= r.max && (i - a) % k == 0
    ensures Covers(low + "-" + high, r, i) <==> r.min <= a <= b <= r.max && a <= i <= b
    ensures Covers(low + "-" + high + "/" + step, r, i)
      <==> r.min <= a <= b <= r.max && k > 0 && a <= i <= b && (i - a) % k == 0
    ensures !Stars(low, r) && !Stars(low + "/" + step, r)
    ensures !Stars(low + "-" + high, r) && !Stars(low + "-" + high + "/" + step, r)
  {
    hide *;
    FormsRead(low, high, step, r, a, b, k);
    CoversWhole(low, a, a, false, r, i);
    CoversRange(low + "/" + step, Range(a, r.max, k, false), r, i);
    CoversWhole(low + "-" + high, a, b, false, r, i);
    CoversRange(low + "-" + high + "/" + step, Range(a, b, k, false), r, i);
  }

  /** The checks of a range, in their order, each with its own error. */
  lemma ItemErrors(low: string, high: string, step: string, r: Bounds, a: nat, b: nat, k: nat)
    requires NoMarks(low) && NoMarks(high) && NoMarks(step) && low != "*" && low != "?"
    requires ParseIntOrName(low, r.names) == Ok(a) && ParseIntOrName(high, r.names) == Ok(b)
      && MustParseInt(step) == Ok(k)
    ensures var res := ParseRange(low + "-" + high + "/" + step, r);
      && (a < r.min ==> res == Err(BelowMinimum(a)))
      && (r.min <= a && r.max < b ==> res == Err(AboveMaximum(b)))
      && (r.min <= a && b <= r.max && b < a ==> res == Err(BeyondEnd(a, b)))
      && (r.min <= a <= b <= r.max && k == 0 ==> res == Err(ZeroStep))
      && (res.Ok? <==> r.min <= a <= b <= r.max && k > 0)
    ensures var res := ParseRange(low, r);
      && (a < r.min ==> res == Err(BelowMinimum(a))) && (r.min <= a && r.max < a ==> res == Err(AboveMaximum(a)))
      && (res.Ok? <==> r.min <= a <= r.max)
  {
    FormsRead(low, high, step, r, a, b, k);
    hide ParseRange, ParseIntOrName, MustParseInt;
  }

  lemma BeforeSlash(range: string, tail: string)
    requires Free(range, IsSlash)
    ensures Split(range, IsSlash)[0] == Split(range + "/" + tail, IsSlash)[0] == range
  {
    Unstepped(range);
    SplitAt(range, '/', tail, IsSlash);
  }

  /** A first value that cannot be read is reported before anything behind it is looked at. */
  lemma FirstRefused(low: string, more: string, tail: string, r: Bounds, e: Error)
    requires NoMarks(low) && low != "*" && low != "?" && Free(more, IsSlash) && ParseIntOrName(low, r.names) == Err(e)
    ensures ParseRange(low, r) == Err(e) && ParseRange(low + "-" + more, r) == Err(e)
    ensures ParseRange(low + "/" + tail, r) == Err(e) && ParseRange(low + "-" + more + "/" + tail, r) == Err(e)
  {
    hide Split, ParseIntOrName, MustParseInt, Checked;
    BeforeSlash(low, tail);
    BeforeSlash(low + "-" + more, tail);
    SplitWhole(low, IsHyphen);
    SplitAt(low, '-', more, IsHyphen);
  }

  /** Then a third value, */
  lemma HyphensRefused(low: string, high: string, more: string, tail: string, r: Bounds)
    requires NoMarks(low) && low != "*" && low != "?" && NoMarks(high) && Free(more, IsSlash)
    requires ParseIntOrName(low, r.names).Ok?
    ensures ParseRange(low + "-" + (high + "-" + more), r) == Err(ManyHyphens)
    ensures ParseRange(low + "-" + (high + "-" + more) + "/" + tail, r) == Err(ManyHyphens)
  {
    hide Split, ParseIntOrName, MustParseInt, Checked;
    BeforeSlash(low + "-" + (high + "-" + more), tail);
    SplitAt(low, '-', high + "-" + more, IsHyphen);
    SplitAt(high, '-', more, IsHyphen);
  }

  /** then a second value that cannot be read, */
  lemma SecondRefused(low: string, high: string, tail: string, r: Bounds, e: Error)
    requires NoMarks(low) && low != "*" && low != "?" && NoMarks(high)
    requires ParseIntOrName(low, r.names).Ok? && ParseIntOrName(high, r.names) == Err(e)
    ensures ParseRange(low + "-" + high, r) == Err(e) && ParseRange(low + "-" + high + "/" + tail, r) == Err(e)
  {
    hide Split, ParseIntOrName, MustParseInt, Checked;
    Hyphened(low, high);
    BeforeSlash(low + "-" + high, tail);
  }

  /** then a step that cannot be read, or a second step; and all of these before the bounds. */
  lemma StepRefused(low: string, high: string, step: string, more: string, r: Bounds, e: Error)
    requires NoMarks(low) && low != "*" && low != "?" && NoMarks(high) && Free(step, IsSlash)
    requires ParseIntOrName(low, r.names).Ok? && ParseIntOrName(high, r.names).Ok?
    ensures MustParseInt(step) == Err(e) ==>
      ParseRange(low + "/" + step, r) == Err(e) && ParseRange(low + "-" + high + "/" + step, r) == Err(e)
    ensures ParseRange(low + "/" + (step + "/" + more), r) == Err(ManySlashes)
    ensures ParseRange(low + "-" + high + "/" + (step + "/" + more), r) == Err(ManySlashes)
  {
    hide Split, ParseIntOrName, MustParseInt, Checked;
    Hyphened(low, high);
    SplitWhole(low, IsHyphen);
    SteppedBy(low, step);
    SteppedBy(low + "-" + high, step);
    SplitAt(low, '/', step + "/" + more, IsSlash);
    SplitAt(low + "-" + high, '/', step + "/" + more, IsSlash);
    SplitAt(step, '/', more, IsSlash);
  }

  /** A star is the whole field, whatever follows it up to the step, and its step counts from the
      minimum. */
  lemma StarForms(star: string, junk: string, step: string, r: Bounds, k: nat, i: nat)
    requires (star == "*" || star == "?") && Free(junk, IsSlash) && NoMarks(step) && MustParseInt(step) == Ok(k)
    ensures Covers(star, r, i) <==> r.min <= i <= r.max
    ensures Covers(star + "-" + junk, r, i) <==> r.min <= i <= r.max
    ensures Covers(star + "/" + step, r, i) <==> r.min <= i <= r.max && k > 0 && (i - r.min) % k == 0
    ensures Covers(star + "-" + junk + "/" + step, r, i) <==> r.min <= i <= r.max && k > 0 && (i - r.min) % k == 0
    ensures Stars(star, r) <==> r.min <= r.max
    ensures Stars(star + "-" + junk, r) <==> r.min <= r.max
    ensures Stars(star + "/" + step, r) <==> r.min <= r.max && k > 0
    ensures Stars(star + "-" + junk + "/" + step, r) <==> r.min <= r.max && k > 0
  {
    hide *;
    StarsRead(star, junk, step, r, k);
    CoversWhole(star, r.min, r.max, true, r, i);
    CoversRange(star + "/" + step, Range(r.min, r.max, k, true), r, i);
    CoversWhole(star + "-" + junk, r.min, r.max, true, r, i);
    CoversRange(star + "-" + junk + "/" + step, Range(r.min, r.max, k, true), r, i);
  }

  lemma StarsRead(star: string, junk: string, step: string, r: Bounds, k: nat)
    requires (star == "*" || star == "?") && Free(junk, IsSlash) && NoMarks(step) && MustParseInt(step) == Ok(k)
    ensures ParseRange(star, r) == Checked(Range(r.min, r.max, 1, true), r)
    ensures ParseRange(star + "/" + step, r) == Checked(Range(r.min, r.max, k, true), r)
    ensures ParseRange(star + "-" + junk, r) == Checked(Range(r.min, r.max, 1, true), r)
    ensures ParseRange(star + "-" + junk + "/" + step, r) == Checked(Range(r.min, r.max, k, true), r)
  {
    hide Split, ParseIntOrName, MustParseInt, Checked;
    Unstepped(star);
    SplitWhole(star, IsHyphen);
    SteppedBy(star, step);
    SplitAt(star, '-', junk, IsHyphen);
    Unstepped(star + "-" + junk);
    SteppedBy(star + "-" + junk, step);
  }

  // ----- a field: items between commas ----------------------------------------------------------------

  function Items(field: string): seq<string> { Fields(field, IsComma) }

  predicate SomeCovers(items: seq<string>, r: Bounds, i: nat) {
    exists k :: 0 <= k < |items| && Covers(items[k], r, i)
  }

  predicate SomeStars(items: seq<string>, r: Bounds) {
    exists k :: 0 <= k < |items| && Stars(items[k], r)
  }

  predicate ItemsMean(items: seq<string>, r: Bounds, mask: bv64) {
    && (forall i :: 0 <= i < 63 ==> (Bit(mask, i) <==> SomeCovers(items, r, i)))
    && (Bit(mask, STAR_BIT) <==> SomeStars(items, r))
  }

  predicate AllOk(items: seq<string>, r: Bounds) {
    forall k :: 0 <= k < |items| ==> ParseRange(items[k], r).Ok?
  }

  predicate FieldOk(field: string, r: Bounds) { AllOk(Items(field), r) }

  /** The field covers a value when some item does, and is starred when some item is. */
  predicate FieldCovers(field: string, r: Bounds, i: nat) { SomeCovers(Items(field), r, i) }

  predicate FieldStars(field: string, r: Bounds) { SomeStars(Items(field), r) }

  /** A value is set in the mask exactly when some item covers it, and the star bit exactly when
      some item is starred. */
  predicate FieldMeans(field: string, r: Bounds, mask: bv64) { ItemsMean(Items(field), r, mask) }

  lemma NoItems(r: Bounds)
    ensures ItemsMean([], r, 0)
  {
    hide Bit;
    forall i | 0 <= i < 64
      ensures !Bit(0, i)
    {
      NoBits(i);
    }
  }

  lemma LastItem(items: seq<string>, item: string, r: Bounds, i: nat)
    ensures SomeCovers(items + [item], r, i) <==> SomeCovers(items, r, i) || Covers(item, r, i)
    ensures SomeStars(items + [item], r) <==> SomeStars(items, r) || Stars(item, r)
  {
    hide Covers, Stars;
    var all := items + [item];
    assert all[|items|] == item;
    assert forall k :: 0 <= k < |items| ==> all[k] == items[k];
  }

  lemma OneMoreItem(items: seq<string>, item: string, r: Bounds, bits: bv64, bit: bv64)
    requires ItemsMean(items, r, bits) && ItemBits(bit, item, r)
    ensures ItemsMean(items + [item], r, Or(bits, bit))
  {
    hide Bit, Covers, Stars, SomeCovers, SomeStars, Or;
    forall i | 0 <= i < 64
      ensures Bit(Or(bits, bit), i) <==> Bit(bits, i) || Bit(bit, i)
    {
      BitOfOr(bits, bit, i);
    }
    forall i | 0 <= i < 64
      ensures SomeCovers(items + [item], r, i) <==> SomeCovers(items, r, i) || Covers(item, r, i)
      ensures SomeStars(items + [item], r) <==> SomeStars(items, r) || Stars(item, r)
    {
      LastItem(items, item, r, i);
    }
    LastItem(items, item, r, 0);
  }

  method GetField(field: string, r: Bounds) returns (res: Result<bv64>)
    requires r.Valid()
    ensures res.Ok? <==> FieldOk(field, r)
    ensures res.Ok? ==> FieldMeans(field, r, res.value)
    ensures res.Err? ==> FirstError(field, r, res.error)
  {
    hide ParseRange, Items, ItemBits, ItemsMean, Bit;
    var ranges := Items(field);
    var bits: bv64 := 0;
    NoItems(r);
    for k := 0 to |ranges|
      invariant forall j :: 0 <= j < k ==> ParseRange(ranges[j], r).Ok?
      invariant ItemsMean(ranges[..k], r, bits)
    {
      var bit := GetRange(ranges[k], r);
      if bit.Err? {
        assert BadAt(ranges, r, bit.error, k);
        return Err(bit.error);
      }
      OneMoreItem(ranges[..k], ranges[k], r, bits, bit.value);
      assert ranges[..k] + [ranges[k]] == ranges[..k + 1];
      bits := Or(bits, bit.value);
    }
    assert ranges[..|ranges|] == ranges;
    res := Ok(bits);
  }

  /** The error of the first item that is refused. */
  predicate FirstError(field: string, r: Bounds, e: Error) { FirstBad(Items(field), r, e) }

  predicate FirstBad(items: seq<string>, r: Bounds, e: Error) {
    exists k :: 0 <= k < |items| && BadAt(items, r, e, k)
  }

  predicate BadAt(items: seq<string>, r: Bounds, e: Error, k: nat)
    requires k < |items|
  {
    ParseRange(items[k], r) == Err(e) && forall j :: 0 <= j < k ==> ParseRange(items[j], r).Ok?
  }

  /** No bit of a field's mask lies outside its bounds, but for the star bit. */
  lemma WithinBounds(field: string, r: Bounds, mask: bv64, i: nat)
    requires FieldMeans(field, r, mask) && i < 63 && Bit(mask, i)
    ensures r.min <= i <= r.max
  {
    hide Bit, ParseRange;
    var k :| 0 <= k < |Items(field)| && Covers(Items(field)[k], r, i);
    assert ParseRange(Items(field)[k], r).Ok?;
  }

  /** A comma joins what is before it to what is behind it. */
  lemma CommaJoins(text: string, more: string, r: Bounds, i: nat)
    requires Free(text, IsComma)
    ensures FieldCovers(text + "," + more, r, i) <==> FieldCovers(text, r, i) || FieldCovers(more, r, i)
    ensures FieldStars(text + "," + more, r) <==> FieldStars(text, r) || FieldStars(more, r)
    ensures FieldOk(text + "," + more, r) <==> FieldOk(text, r) && FieldOk(more, r)
  {
    hide SomeCovers, SomeStars, AllOk, Fields;
    FieldsAt(text, ',', more, IsComma);
    OneField(text, IsComma);
    assert Items(text + "," + more) == Items(text) + Items(more);
    TwoLists(Items(text), Items(more), r, i);
  }

  /** The first refused item is looked for from the left; empty items are passed over. */
  lemma CommaErrors(text: string, more: string, r: Bounds, e: Error)
    requires Free(text, IsComma)
    ensures !FirstError("", r, e)
    ensures FirstError(text, r, e) <==> text != "" && ParseRange(text, r) == Err(e)
    ensures FirstError(text + "," + more, r, e)
      <==> FirstError(text, r, e) || ((text == "" || ParseRange(text, r).Ok?) && FirstError(more, r, e))
  {
    hide Fields, ParseRange, FirstBad;
    FieldsAt(text, ',', more, IsComma);
    OneField(text, IsComma);
    OneField("", IsComma);
    NoneBad(r, e);
    if text != "" {
      FirstOfMore(text, [], r, e);
      FirstOfMore(text, Items(more), r, e);
      assert [text] + [] == [text];
    } else {
      assert [] + Items(more) == Items(more);
    }
  }

  lemma NoneBad(r: Bounds, e: Error)
    ensures !FirstBad([], r, e)
  {
  }

  lemma FirstOfMore(item: string, rest: seq<string>, r: Bounds, e: Error)
    ensures FirstBad([item] + rest, r, e)
      <==> ParseRange(item, r) == Err(e) || (ParseRange(item, r).Ok? && FirstBad(rest, r, e))
  {
    hide ParseRange;
    var all := [item] + rest;
    if k :| 0 <= k < |rest| && BadAt(rest, r, e, k) && ParseRange(item, r).Ok? {
      assert BadAt(all, r, e, k + 1);
    }
    if ParseRange(item, r) == Err(e) {
      assert BadAt(all, r, e, 0);
    }
    if k :| 0 <= k < |all| && BadAt(all, r, e, k) && k > 0 {
      assert all[0] == item && forall j :: 0 <= j < k - 1 ==> rest[j] == all[j + 1];
      assert BadAt(rest, r, e, k - 1);
    }
  }

  lemma TwoLists(a: seq<string>, b: seq<string>, r: Bounds, i: nat)
    ensures SomeCovers(a + b, r, i) <==> SomeCovers(a, r, i) || SomeCovers(b, r, i)
    ensures SomeStars(a + b, r) <==> SomeStars(a, r) || SomeStars(b, r)
    ensures AllOk(a + b, r) <==> AllOk(a, r) && AllOk(b, r)
  {
    hide Covers, Stars, ParseRange;
    var all := a + b;
    assert forall k :: 0 <= k < |a| ==> all[k] == a[k];
    assert forall k :: 0 <= k < |b| ==> all[|a| + k] == b[k];
    assert forall k :: |a| <= k < |all| ==> all[k] == b[k - |a|];
  }

  /** A field of one item is that item; a field of none covers nothing. */
  lemma OneItemField(text: string, r: Bounds, i: nat)
    requires Free(text, IsComma)
    ensures FieldCovers(text, r, i) <==> text != "" && Covers(text, r, i)
    ensures FieldStars(text, r) <==> text != "" && Stars(text, r)
    ensures FieldOk(text, r) <==> text == "" || ParseRange(text, r).Ok?
  {
    hide Covers, Stars, Fields, ParseRange;
    OneField(text, IsComma);
    assert text != "" ==> Items(text)[0] == text;
  }

  // ----- the fields of a spec -------------------------------------------------------------------------

  datatype ParseOption =
    SecondField | MinuteField | HourField | DomField | MonthField | DowField | DowOptional | Descriptor

  const PLACES := [SecondField, MinuteField, HourField, DomField, MonthField, DowField]
  const DEFAULTS := ["0", "0", "0", "*", "*", "*"]

  function BoundsOf(k: nat): (r: Bounds)
    requires k < 6
    ensures r.Valid()
  {
    match k
    case 0 => SECONDS
    case 1 => MINUTES
    case 2 => HOURS
    case 3 => DOM
    case 4 => MONTHS
    case _ => DOW
  }

  /** How many of the first `i` places are among the options. */
  function Rank(options: set<ParseOption>, i: nat): nat
    requires i <= 6
  {
    if i == 0 then 0 else Rank(options, i - 1) + (if PLACES[i - 1] in options then 1 else 0)
  }

  lemma {:induction false} RankGrows(options: set<ParseOption>, i: nat, j: nat)
    requires i <= j <= 6
    ensures Rank(options, i) <= Rank(options, j)
    ensures i < j && PLACES[j - 1] in options ==> Rank(options, i) < Rank(options, j)
  {
    if i < j {
      RankGrows(options, i, j - 1);
    }
  }

  /** The text for each place: the given fields go to the places of the options, in order, as far
      as they reach; every other place has its default. */
  function FieldAt(fields: seq<string>, options: set<ParseOption>, i: nat): string
    requires i < 6
  {
    if PLACES[i] in options && Rank(options, i) < |fields| then fields[Rank(options, i)] else DEFAULTS[i]
  }

  /** There is a field for each option, but perhaps for the day of the week. */
  predicate RightCount(fields: seq<string>, options: set<ParseOption>) {
    |fields| == Rank(options, 6) || (DowField in options && |fields| == Rank(options, 6) - 1)
  }

  lemma FieldThere(fields: seq<string>, options: set<ParseOption>, i: nat)
    requires RightCount(fields, options) && i < 5 && PLACES[i] in options
    ensures Rank(options, i) < |fields|
  {
    RankGrows(options, i, i + 1);
    RankGrows(options, i + 1, 5);
    RankGrows(options, 5, 6);
  }

  lemma DefaultsAfter(fields: seq<string>, options: set<ParseOption>, i: nat)
    requires i <= 6 && Rank(options, i) >= |fields|
    ensures forall k :: i <= k < 6 ==> FieldAt(fields, options, k) == DEFAULTS[k]
  {
    forall k | i <= k < 6
      ensures Rank(options, k) >= |fields|
    {
      RankGrows(options, i, k);
    }
  }

  /** Never reads past the given fields. */
  method ExpandFields(fields: seq<string>, options: set<ParseOption>) returns (expFields: seq<string>)
    requires RightCount(fields, options)
    ensures |expFields| == 6 && forall i :: 0 <= i < 6 ==> expFields[i] == FieldAt(fields, options, i)
  {
    var n := 0;
    expFields := DEFAULTS;
    for i := 0 to 6
      invariant |expFields| == 6
      invariant n == Rank(options, i) && (n < |fields| || i == 0)
      invariant forall k :: 0 <= k < i ==> expFields[k] == FieldAt(fields, options, k)
      invariant forall k :: i <= k < 6 ==> expFields[k] == DEFAULTS[k]
    {
      if PLACES[i] in options {
        if i < 5 {
          FieldThere(fields, options, i);
        }
        expFields := expFields[i := fields[n]];
        n := n + 1;
      }
      if n == |fields| {
        DefaultsAfter(fields, options, i + 1);
        break;
      }
    }
  }

  // ----- schedules ------------------------------------------------------------------------------------

  datatype Schedule = Spec(spec: SpecSchedule) | Delay(delay: ConstantDelaySchedule)

  /** The options, and how many of the fields may be missing. */
  datatype Parser = Parser(options: set<ParseOption>, optionals: nat)

  function NewParser(options: set<ParseOption>): Parser {
    if DowOptional in options then Parser(options + {DowField}, 1) else Parser(options, 0)
  }

  predicate FromOptions(p: Parser) {
    p.optionals == (if DowOptional in p.options then 1 else 0) && (DowOptional in p.options ==> DowField in p.options)
  }

  lemma NewParserIsFromOptions(options: set<ParseOption>)
    ensures FromOptions(NewParser(options))
  {
  }

  function Mask(s: SpecSchedule, k: nat): bv64
    requires k < 6
  {
    match k
    case 0 => s.second
    case 1 => s.minute
    case 2 => s.hour
    case 3 => s.dom
    case 4 => s.month
    case _ => s.dow
  }

  /** Each mask of the schedule is that of its field. */
  predicate Means(s: SpecSchedule, fields: seq<string>)
    requires |fields| == 6
  {
    forall k :: 0 <= k < 6 ==> FieldMeans(fields[k], BoundsOf(k), Mask(s, k))
  }

  predicate AllFieldsOk(fields: seq<string>)
    requires |fields| == 6
  {
    forall k :: 0 <= k < 6 ==> FieldOk(fields[k], BoundsOf(k))
  }

  /** Six fields to six masks; after an error no further field is read. */
  method ParseFields(fields: seq<string>) returns (res: Result<SpecSchedule>)
    requires |fields| == 6
    ensures res.Ok? <==> AllFieldsOk(fields)
    ensures res.Ok? ==> Means(res.value, fields)
    ensures res.Err? ==>
      exists k ::
        && 0 <= k < 6 && FirstError(fields[k], BoundsOf(k), res.error)
        && forall j :: 0 <= j < k ==> FieldOk(fields[j], BoundsOf(j))
  {
    hide FieldOk, FieldMeans, FirstError, BoundsOf, Means, Mask;
    var masks: seq<bv64> := [];
    for k := 0 to 6
      invariant |masks| == k
      invariant forall j :: 0 <= j < k ==>
        FieldOk(fields[j], BoundsOf(j)) && FieldMeans(fields[j], BoundsOf(j), masks[j])
    {
      var field := GetField(fields[k], BoundsOf(k));
      if field.Err? {
        return Err(field.error);
      }
      masks := masks + [field.value];
    }
    res := Ok(SpecSchedule(masks[0], masks[1], masks[2], masks[3], masks[4], masks[5]));
    MasksMean(masks, fields);
  }

  lemma MasksMean(masks: seq<bv64>, fields: seq<string>)
    requires |masks| == |fields| == 6
    requires forall k :: 0 <= k < 6 ==> FieldMeans(fields[k], BoundsOf(k), masks[k])
    ensures Means(SpecSchedule(masks[0], masks[1], masks[2], masks[3], masks[4], masks[5]), fields)
  {
    hide FieldMeans, BoundsOf;
    var s := SpecSchedule(masks[0], masks[1], masks[2], masks[3], masks[4], masks[5]);
    assert FieldMeans(fields[0], BoundsOf(0), Mask(s, 0)) && FieldMeans(fields[1], BoundsOf(1), Mask(s, 1));
    assert FieldMeans(fields[2], BoundsOf(2), Mask(s, 2)) && FieldMeans(fields[3], BoundsOf(3), Mask(s, 3));
    assert FieldMeans(fields[4], BoundsOf(4), Mask(s, 4)) && FieldMeans(fields[5], BoundsOf(5), Mask(s, 5));
  }

  // ----- descriptors ----------------------------------------------------------------------------------

  function All(r: Bounds): bv64
    requires r.Valid()
  {
    Or(Window(r.min, r.max), Single(STAR_BIT))
  }

  function Yearly(): SpecSchedule {
    SpecSchedule(Single(SECONDS.min), Single(MINUTES.min), Single(HOURS.min), Single(DOM.min), Single(MONTHS.min),
      All(DOW))
  }

  function Monthly(): SpecSchedule { Yearly().(month := All(MONTHS)) }

  function Weekly(): SpecSchedule { Monthly().(dom := All(DOM), dow := Single(DOW.min)) }

  function Daily(): SpecSchedule { Monthly().(dom := All(DOM)) }

  function Hourly(): SpecSchedule { Daily().(hour := All(HOURS)) }

  const EVERY := "@every "

  /** `duration` reads the text of a duration, in nanoseconds. */
  function ParseDescriptor(d: string, duration: string -> Option<int>): Result<Schedule> {
    if d == "@yearly" || d == "@annually" then Ok(Spec(Yearly()))
    else if d == "@monthly" then Ok(Spec(Monthly()))
    else if d == "@weekly" then Ok(Spec(Weekly()))
    else if d == "@daily" || d == "@midnight" then Ok(Spec(Daily()))
    else if d == "@hourly" then Ok(Spec(Hourly()))
    else if EVERY <= d then
      match duration(d[|EVERY|..])
      case None => Err(BadDuration(d))
      case Some(n) => Ok(Delay(Every(n)))
    else Err(Unrecognized)
  }

  /** The texts of a spec, one for each place. */
  function Expanded(p: Parser, spec: string): seq<string> {
    seq(6, i requires 0 <= i < 6 => FieldAt(Fields(spec, IsSpace), p.options, i))
  }

  predicate CountOk(p: Parser, spec: string) {
    Rank(p.options, 6) - p.optionals <= |Fields(spec, IsSpace)| <= Rank(p.options, 6)
  }

  predicate IsDescriptor(p: Parser, spec: string) { spec != "" && spec[0] == '@' && Descriptor in p.options }

  /** The parser makes a schedule of a spec exactly when the number of fields is right and every
      field is; the schedule then is what the fields say. */
  method Parse(p: Parser, spec: string, duration: string -> Option<int>) returns (res: Result<Schedule>)
    requires FromOptions(p)
    ensures IsDescriptor(p, spec) ==> res == ParseDescriptor(spec, duration)
    ensures !IsDescriptor(p, spec) ==>
      (res.Ok? <==> spec != "" && CountOk(p, spec) && AllFieldsOk(Expanded(p, spec)))
    ensures spec == "" ==> res == Err(EmptySpec)
    ensures !IsDescriptor(p, spec) && spec != "" && !CountOk(p, spec) ==>
      res == Err(FieldCount(Rank(p.options, 6) - p.optionals, Rank(p.options, 6), |Fields(spec, IsSpace)|))
    ensures !IsDescriptor(p, spec) && spec != "" && CountOk(p, spec) && res.Err? ==>
      exists k ::
        && 0 <= k < 6 && FirstError(Expanded(p, spec)[k], BoundsOf(k), res.error)
        && forall j :: 0 <= j < k ==> FieldOk(Expanded(p, spec)[j], BoundsOf(j))
    ensures !IsDescriptor(p, spec) && res.Ok? ==> res.value.Spec? && Means(res.value.spec, Expanded(p, spec))
  {
    hide Fields, FieldAt, FieldOk, FieldMeans, FirstError, ParseDescriptor;
    if |spec| == 0 {
      return Err(EmptySpec);
    }
    if spec[0] == '@' && Descriptor in p.options {
      return ParseDescriptor(spec, duration);
    }
    var max := 0;
    for i := 0 to 6
      invariant max == Rank(p.options, i)
    {
      if PLACES[i] in p.options {
        max := max + 1;
      }
    }
    var min := max - p.optionals;
    var fields := Fields(spec, IsSpace);
    if |fields| < min || |fields| > max {
      return Err(FieldCount(min, max, |fields|));
    }
    var expanded := ExpandFields(fields, p.options);
    assert expanded == Expanded(p, spec);
    var parsed := ParseFields(expanded);
    if parsed.Err? {
      return Err(parsed.error);
    }
    return Ok(Spec(parsed.value));
  }

  // ----- what a spec means ----------------------------------------------------------------------------

  lemma OneItem(text: string)
    requires text != "" && Free(text, IsComma)
    ensures Items(text) == [text]
  {
    OneField(text, IsComma);
  }

  lemma OneItemMeans(text: string, r: Bounds, mask: bv64)
    requires text != "" && Free(text, IsComma) && ItemBits(mask, text, r)
    ensures FieldMeans(text, r, mask)
  {
    hide Bit, Covers, Stars;
    OneItem(text);
    assert Items(text)[0] == text;
  }

  /** A single number is the mask of one bit. */
  lemma NumberField(text: string, n: nat, r: Bounds)
    requires AllDigits(text) && Decimal(text) == n && r.min <= n <= r.max < 63
    requires Lower(text) !in r.names
    ensures FieldMeans(text, r, Single(n))
  {
    hide Bit, Single, Split;
    Unstepped(text);
    SplitWhole(text, IsHyphen);
    assert text[0] != '*' && text[0] != '?';
    assert ParseRange(text, r) == Ok(Range(n, n, 1, false));
    forall i | 0 <= i < 64
      ensures Bit(Single(n), i) <==> i == n
    {
      BitOfSingle(n, i);
    }
    OneItemMeans(text, r, Single(n));
  }

  lemma AllBit(r: Bounds, i: nat)
    requires r.Valid() && i < 64
    ensures Bit(All(r), i) <==> r.min <= i <= r.max || i == STAR_BIT
  {
    hide Bit, Single, Window, Or;
    BitOfOr(Window(r.min, r.max), Single(STAR_BIT), i);
    BitOfWindow(r.min, r.max, i);
    BitOfSingle(STAR_BIT, i);
  }

  lemma StarField(r: Bounds)
    requires r.Valid()
    ensures FieldMeans("*", r, All(r))
  {
    hide Bit, All, Split;
    Unstepped("*");
    SplitWhole("*", IsHyphen);
    assert ParseRange("*", r) == Ok(Range(r.min, r.max, 1, true));
    forall i | 0 <= i < 64
      ensures Bit(All(r), i) <==> r.min <= i <= r.max || i == STAR_BIT
    {
      AllBit(r, i);
    }
    OneItemMeans("*", r, All(r));
  }

  lemma Names()
    ensures forall n :: n in MONTHS.names ==> |n| == 3
    ensures forall n :: n in DOW.names ==> |n| == 3
  {
  }

  lemma SixMean(s: SpecSchedule, fields: seq<string>)
    requires |fields| == 6
    requires FieldMeans(fields[0], SECONDS, s.second) && FieldMeans(fields[1], MINUTES, s.minute)
    requires FieldMeans(fields[2], HOURS, s.hour) && FieldMeans(fields[3], DOM, s.dom)
    requires FieldMeans(fields[4], MONTHS, s.month) && FieldMeans(fields[5], DOW, s.dow)
    ensures Means(s, fields)
  {
    hide FieldMeans;
  }

  lemma Zero(r: Bounds)
    requires r.min == 0 && r.Valid() && forall n :: n in r.names ==> |n| == 3
    ensures FieldMeans("0", r, Single(0))
  {
    NumberField("0", 0, r);
  }

  lemma One(r: Bounds)
    requires r.min == 1 && r.Valid() && forall n :: n in r.names ==> |n| == 3
    ensures FieldMeans("1", r, Single(1))
  {
    NumberField("1", 1, r);
  }

  /** The descriptors are the specs that they abbreviate. */
  lemma DescriptorsMean()
    ensures Means(Yearly(), ["0", "0", "0", "1", "1", "*"])
    ensures Means(Monthly(), ["0", "0", "0", "1", "*", "*"])
    ensures Means(Weekly(), ["0", "0", "0", "*", "*", "0"])
    ensures Means(Daily(), ["0", "0", "0", "*", "*", "*"])
    ensures Means(Hourly(), ["0", "0", "*", "*", "*", "*"])
  {
    Names();
    hide FieldMeans, Single, All, Means, MonthNames, DayNames;
    Zero(SECONDS);
    Zero(MINUTES);
    Zero(HOURS);
    One(DOM);
    One(MONTHS);
    Zero(DOW);
    StarField(HOURS);
    StarField(DOM);
    StarField(MONTHS);
    StarField(DOW);
    SixMean(Yearly(), ["0", "0", "0", "1", "1", "*"]);
    SixMean(Monthly(), ["0", "0", "0", "1", "*", "*"]);
    SixMean(Weekly(), ["0", "0", "0", "*", "*", "0"]);
    SixMean(Daily(), ["0", "0", "0", "*", "*", "*"]);
    SixMean(Hourly(), ["0", "0", "*", "*", "*", "*"]);
  }

  /** From the text to the clock: the schedule of a spec matches a time exactly when the fields
      cover its second, minute, hour and month, and its days by the crontab rule, which asks for
      both days when one of the two fields is starred and for either of them otherwise. */
  lemma ParsedMatches(s: SpecSchedule, fields: seq<string>, t: Time)
    requires |fields| == 6 && Means(s, fields)
    ensures s.Matches(t) <==>
      var dom, dow := FieldCovers(fields[3], DOM, t.Day()), FieldCovers(fields[5], DOW, t.Weekday());
      && FieldCovers(fields[0], SECONDS, t.Second())
      && FieldCovers(fields[1], MINUTES, t.Minute())
      && FieldCovers(fields[2], HOURS, t.Hour())
      && FieldCovers(fields[4], MONTHS, t.Month())
      && (if FieldStars(fields[3], DOM) || FieldStars(fields[5], DOW) then dom && dow else dom || dow)
  {
    hide Bit, SomeCovers, SomeStars, Items, DateOf;
    assert FieldMeans(fields[0], SECONDS, Mask(s, 0));
    assert FieldMeans(fields[1], MINUTES, Mask(s, 1));
    assert FieldMeans(fields[2], HOURS, Mask(s, 2));
    assert FieldMeans(fields[3], DOM, Mask(s, 3));
    assert FieldMeans(fields[4], MONTHS, Mask(s, 4));
    assert FieldMeans(fields[5], DOW, Mask(s, 5));
  }
}
