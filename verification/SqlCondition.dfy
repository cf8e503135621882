/** One condition of a query: its text with marks for the values, and the values. */
module SqlCondition {
  import opened Decimals
  import opened SqlText
  import BindPlan

  type Value = BindPlan.Value

  datatype Arg = Scalar(value: Value) | Slice(values: seq<Value>)

  /** What a condition may be given as: a text, a number, a list of keys, or a map of columns, here
      in the order in which the map is walked. */
  datatype Query = Text(text: string) | Number(id: int) | Keys(ids: seq<Value>) | Columns(columns: seq<(string, Value)>)

  datatype Clause = Clause(query: Query, args: seq<Arg>)

  function Quote(name: string): string { "`" + name + "` T" }

  // ----- numeric texts ----------------------------------------------------------------------

  predicate IsSpace(c: char) { c == ' ' || c == '\t' || c == '\n' || c == '\r' || c as int == 12 }

  function DropSpaces(s: string): string {
    if s != "" && IsSpace(s[0]) then DropSpaces(s[1..]) else s
  }

  function LeadingDigits(s: string): (n: nat)
    ensures n <= |s| && forall i :: 0 <= i < n ==> IsDigit(s[i])
  {
    if s != "" && IsDigit(s[0]) then 1 + LeadingDigits(s[1..]) else 0
  }

  /** The text is a number, possibly between spaces. */
  predicate IsNumeric(s: string) {
    var t := DropSpaces(s);
    LeadingDigits(t) > 0 && forall i :: LeadingDigits(t) <= i < |t| ==> IsSpace(t[i])
  }

  predicate Between(s: string, before: string, digits: string, behind: string) {
    s == before + digits + behind && AllDigits(digits)
    && forall c :: c in before + behind ==> c == ' ' || '\t' <= c <= '\n' || c as int == 12 || c == '\r'
  }

  /** That is, digits between spaces of any number, and nothing else. */
  lemma NumericTexts(s: string)
    ensures IsNumeric(s) <==> exists before, digits, behind :: Between(s, before, digits, behind)
  {
    if IsNumeric(s) {
      var t := DropSpaces(s);
      var n := LeadingDigits(t);
      var before := SpacesBefore(s);
      assert s == before + t[..n] + t[n..];
      assert Between(s, before, t[..n], t[n..]);
    }
    if before, digits, behind :| Between(s, before, digits, behind) {
      assert forall i :: 0 <= i < |before| ==> before[i] in before + behind;
      assert forall i :: 0 <= i < |behind| ==> behind[i] in before + behind;
      assert s == before + (digits + behind);
      DropsSpaces(before, digits + behind);
      LeadingOf(digits, behind);
    }
  }

  lemma {:induction false} SpacesBefore(s: string) returns (before: string)
    ensures s == before + DropSpaces(s) && forall c :: c in before ==> IsSpace(c)
  {
    before := "";
    if s != "" && IsSpace(s[0]) {
      before := SpacesBefore(s[1..]);
      before := [s[0]] + before;
    }
  }

  lemma {:induction false} DropsSpaces(before: string, rest: string)
    requires (forall i :: 0 <= i < |before| ==> IsSpace(before[i])) && rest != "" && !IsSpace(rest[0])
    ensures DropSpaces(before + rest) == rest
  {
    if before == "" {
      assert before + rest == rest;
    } else {
      assert (before + rest)[1..] == before[1..] + rest;
      DropsSpaces(before[1..], rest);
    }
  }

  lemma {:induction false} LeadingOf(digits: string, behind: string)
    requires forall i :: 0 <= i < |digits| ==> IsDigit(digits[i])
    requires behind == "" || !IsDigit(behind[0])
    ensures LeadingDigits(digits + behind) == |digits|
  {
    if digits == "" {
      assert digits + behind == behind;
    } else {
      assert (digits + behind)[1..] == digits[1..] + behind;
      LeadingOf(digits[1..], behind);
    }
  }

  function Digits(s: string): string { DropSpaces(s)[..LeadingDigits(DropSpaces(s))] }

  lemma {:induction false} AllLeading(s: string)
    requires forall i :: 0 <= i < |s| ==> IsDigit(s[i])
    ensures LeadingDigits(s) == |s|
  {
    if s != "" {
      AllLeading(s[1..]);
    }
  }

  /** A numeric text is bound as the number it shows exactly when it has no spaces around it and
      fits 64 bits, or shows zero. */
  lemma NumericTextBinds(s: string)
    requires IsNumeric(s)
    ensures Atoi(s).value == Decimal(Digits(s))
      <==> (Digits(s) == s && Decimal(s) <= MAX_INT) || Decimal(Digits(s)) == 0
  {
    var t := DropSpaces(s);
    if AllDigits(s) {
      assert t == s;
      AllLeading(s);
      assert Digits(s) == s;
    } else {
      assert s[0] == '+' || s[0] == '-' ==> LeadingDigits(s) == 0;
      assert Digits(s) == s ==> AllDigits(s);
    }
  }

  // ----- one condition -----------------------------------------------------------------------

  function ArgValues(a: Arg): seq<Value> {
    match a case Scalar(v) => [v] case Slice(vs) => vs
  }

  function Marks(a: Arg): string {
    match a case Scalar(_) => "$$" case Slice(vs) => Join(seq(|vs|, _ => "$$"), ",")
  }

  /** Each argument replaces the first `?` that is left. */
  function Expand(text: string, args: seq<Arg>): string
    decreases |args|
  {
    if args == [] then text else Expand(ReplaceFirst(text, Marks(args[0])), args[1..])
  }

  function Values(args: seq<Arg>): seq<Value> {
    if args == [] then [] else ArgValues(args[0]) + Values(args[1..])
  }

  function PrimaryText(pk: string): string { "(" + Quote(pk) + " = $$)" }

  function KeysText(pk: string): string { "(" + Quote(pk) + " in (?))" }

  function ColumnsText(columns: seq<(string, Value)>): seq<string> {
    seq(|columns|, i requires 0 <= i < |columns| => "(" + Quote(columns[i].0) + " = $$)")
  }

  function ConditionText(c: Clause, pk: string): string {
    match c.query
    case Number(_) => PrimaryText(pk)
    case Text(s) => if IsNumeric(s) then PrimaryText(pk) else Expand(s, c.args)
    case Keys(ids) => Expand(KeysText(pk), [Slice(ids)])
    case Columns(columns) => Join(ColumnsText(columns), " AND ")
  }

  function ConditionVars(c: Clause): seq<Value> {
    match c.query
    case Number(n) => [BindPlan.Int(n)]
    case Text(s) => if IsNumeric(s) then [BindPlan.Int(Atoi(s).value)] else Values(c.args)
    case Keys(ids) => ids
    case Columns(columns) => seq(|columns|, i requires 0 <= i < |columns| => columns[i].1)
  }

  // ----- the same condition as a template -------------------------------------------------------

  function FirstMark(s: string): (p: nat)
    ensures p <= |s| && '?' !in s[..p] && (p < |s| ==> s[p] == '?')
  {
    if s == "" || s[0] == '?' then 0 else 1 + FirstMark(s[1..])
  }

  function SliceTemplate(vs: seq<Value>): Template<Value> {
    JoinTemplates(seq(|vs|, i requires 0 <= i < |vs| => [Hole(vs[i])]), ",")
  }

  function ArgTemplate(a: Arg): Template<Value> {
    match a case Scalar(v) => [Hole(v)] case Slice(vs) => SliceTemplate(vs)
  }

  /** The text with its `?`, from left to right, filled by the arguments. */
  function TextTemplate(text: string, args: seq<Arg>): Template<Value>
    decreases |args|
  {
    var p := FirstMark(text);
    if args == [] || p == |text| then [Lit(text)]
    else [Lit(text[..p])] + ArgTemplate(args[0]) + TextTemplate(text[p + 1..], args[1..])
  }

  lemma {:induction false} NoMarks(s: string, mark: string)
    requires '?' !in s
    ensures FirstMark(s) == |s| && ReplaceFirst(s, mark) == s
  {
    if s != "" {
      NoMarks(s[1..], mark);
    }
  }

  lemma {:induction false} ExpandNone(s: string, args: seq<Arg>)
    requires '?' !in s
    ensures Expand(s, args) == s
    decreases |args|
  {
    if args != [] {
      NoMarks(s, Marks(args[0]));
      ExpandNone(s, args[1..]);
    }
  }

  lemma OneHole(v: Value)
    ensures Render("$$", [Hole(v)]) == "$$" && Holes([Hole(v)]) == [v]
  {
    assert [Hole(v)][1..] == [];
  }

  lemma {:induction false} SliceRendered(vs: seq<Value>)
    ensures Render("$$", SliceTemplate(vs)) == Join(seq(|vs|, _ => "$$"), ",")
    ensures Holes(SliceTemplate(vs)) == vs
    ensures Without(SliceTemplate(vs), '?') && Without(SliceTemplate(vs), '$')
  {
    var parts := seq(|vs|, i requires 0 <= i < |vs| => [Hole(vs[i])]);
    RenderJoin("$$", parts, ",");
    forall i | 0 <= i < |vs|
      ensures Render("$$", parts[i]) == "$$"
    {
      OneHole(vs[i]);
    }
    assert seq(|parts|, i requires 0 <= i < |parts| => Render("$$", parts[i])) == seq(|vs|, _ => "$$");
    AllSingles(vs);
    JoinWithout(parts, ",", '?');
    JoinWithout(parts, ",", '$');
  }

  lemma {:induction false} AllSingles(vs: seq<Value>)
    ensures AllHoles(seq(|vs|, i requires 0 <= i < |vs| => [Hole(vs[i])])) == vs
  {
    var parts := seq(|vs|, i requires 0 <= i < |vs| => [Hole(vs[i])]);
    if vs != [] {
      assert parts[1..] == seq(|vs[1..]|, i requires 0 <= i < |vs[1..]| => [Hole(vs[1..][i])]);
      AllSingles(vs[1..]);
      OneHole(vs[0]);
    }
  }

  lemma ArgRendered(a: Arg)
    ensures Render("$$", ArgTemplate(a)) == Marks(a) && Holes(ArgTemplate(a)) == ArgValues(a)
    ensures Without(ArgTemplate(a), '?') && Without(ArgTemplate(a), '$')
  {
    if a.Slice? {
      SliceRendered(a.values);
    }
  }

  lemma {:induction false} JoinedMarks(n: nat)
    ensures '?' !in Join(seq(n, _ => "$$"), ",")
  {
    if n > 1 {
      assert seq(n, _ => "$$")[1..] == seq(n - 1, _ => "$$");
      JoinedMarks(n - 1);
    }
  }

  lemma MarksFree(a: Arg)
    ensures '?' !in Marks(a)
  {
    if a.Slice? {
      JoinedMarks(|a.values|);
    }
  }

  lemma FillFirst(done: string, text: string, mark: string)
    requires '?' !in done && FirstMark(text) < |text|
    ensures var p := FirstMark(text);
      ReplaceFirst(done + text, mark) == (done + text[..p] + mark) + text[p + 1..]
  {
    var p := FirstMark(text);
    var rest := text[p + 1..];
    assert done + text == (done + text[..p]) + ("?" + rest);
    ReplaceAfter(done + text[..p], "?" + rest, mark);
    assert ("?" + rest)[1..] == rest;
    assert (done + text[..p]) + (mark + rest) == (done + text[..p] + mark) + rest;
  }

  lemma FillRendered(front: string, a: Arg, tail: Template<Value>)
    ensures Render("$$", [Lit(front)] + ArgTemplate(a) + tail) == front + Marks(a) + Render("$$", tail)
    ensures Holes([Lit(front)] + ArgTemplate(a) + tail) == ArgValues(a) + Holes(tail)
  {
    ArgRendered(a);
    RenderConcat("$$", [Lit(front)] + ArgTemplate(a), tail);
    RenderConcat("$$", [Lit(front)], ArgTemplate(a));
  }

  /** Replacing the first `?` that is left, argument by argument, fills the text from left to
      right: no argument ever lands in the text of another. `done` is what is filled already. */
  lemma {:induction false} ExpandIsTemplate(done: string, text: string, args: seq<Arg>)
    requires '?' !in done
    ensures Expand(done + text, args) == done + Render("$$", TextTemplate(text, args))
    decreases |args|
  {
    hide Render, ReplaceFirst, Marks, ArgTemplate, FirstMark;
    var p := FirstMark(text);
    if args == [] || p == |text| {
      LitRendered(text);
      if args != [] {
        assert text[..p] == text;
        ExpandNone(done + text, args);
      }
    } else {
      var mark, rest := Marks(args[0]), text[p + 1..];
      MarksFree(args[0]);
      FillFirst(done, text, mark);
      ExpandIsTemplate(done + text[..p] + mark, rest, args[1..]);
      FillRendered(text[..p], args[0], TextTemplate(rest, args[1..]));
    }
  }

  lemma LitRendered(text: string)
    ensures Render<Value>("$$", [Lit(text)]) == text && Holes<Value>([Lit(text)]) == []
  {
    var t: Template<Value> := [Lit(text)];
    assert t[1..] == [];
  }

  lemma {:induction false} CountAtMark(text: string)
    ensures FirstMark(text) < |text| ==> Count(text, '?') == 1 + Count(text[FirstMark(text) + 1..], '?')
    ensures FirstMark(text) == |text| <==> Count(text, '?') == 0
  {
    if text != "" && text[0] != '?' {
      CountAtMark(text[1..]);
      var p := FirstMark(text);
      if p < |text| {
        assert text[p + 1..] == text[1..][p..];
      }
    }
  }

  function Least(a: nat, b: nat): nat { if a < b then a else b }

  lemma ValuesNext(args: seq<Arg>, n: nat)
    requires 0 < n <= |args|
    ensures Values(args[..n]) == ArgValues(args[0]) + Values(args[1..][..n - 1])
  {
    hide ArgValues;
    assert args[..n][1..] == args[1..][..n - 1];
  }

  /** The template holds the values of as many arguments as the text has `?`, and keeps the `?`
      for which there is no argument. */
  lemma {:induction false} TextTemplateHoles(text: string, args: seq<Arg>)
    ensures Holes(TextTemplate(text, args)) == Values(args[..Least(|args|, Count(text, '?'))])
    ensures LitCount(TextTemplate(text, args)) == Count(text, '?') - Least(|args|, Count(text, '?'))
    decreases |args|
  {
    hide Render, ArgTemplate, Marks, FirstMark, Count, Holes, LitCount;
    var p, n := FirstMark(text), Least(|args|, Count(text, '?'));
    CountAtMark(text);
    if args == [] || p == |text| {
      LitRendered(text);
      assert args[..n] == [];
      OneLit(text);
    } else {
      var rest := text[p + 1..];
      TextTemplateHoles(rest, args[1..]);
      FillRendered(text[..p], args[0], TextTemplate(rest, args[1..]));
      FillCount(text[..p], args[0], TextTemplate(rest, args[1..]));
      ValuesNext(args, n);
    }
  }

  lemma OneLit(text: string)
    ensures LitCount<Value>([Lit(text)]) == Count(text, '?')
  {
    var t: Template<Value> := [Lit(text)];
    assert t[1..] == [];
  }

  lemma {:induction false} LitCountConcat(a: Template<Value>, b: Template<Value>)
    ensures LitCount(a + b) == LitCount(a) + LitCount(b)
  {
    if a == [] {
      assert a + b == b;
    } else {
      assert (a + b)[1..] == a[1..] + b;
      LitCountConcat(a[1..], b);
    }
  }

  lemma FillCount(front: string, a: Arg, tail: Template<Value>)
    requires '?' !in front
    ensures LitCount([Lit(front)] + ArgTemplate(a) + tail) == LitCount(tail)
  {
    LitCountConcat([Lit(front)] + ArgTemplate(a), tail);
    LitCountConcat([Lit(front)], ArgTemplate(a));
    OneLit(front);
    CountNone(front, '?');
    ArgRendered(a);
    CountRendered(ArgTemplate(a));
  }

  lemma WithoutConcat(a: Template<Value>, b: Template<Value>)
    ensures forall c :: Without(a, c) && Without(b, c) ==> Without(a + b, c)
  {
  }

  lemma {:induction false} TextTemplateWithout(text: string, args: seq<Arg>)
    ensures '$' !in text ==> Without(TextTemplate(text, args), '$')
    ensures Count(text, '?') <= |args| ==> Without(TextTemplate(text, args), '?')
    decreases |args|
  {
    hide FirstMark, Count, ArgTemplate, Render, Holes;
    CountAtMark(text);
    CountNone(text, '?');
    var p := FirstMark(text);
    if args != [] && p < |text| {
      var front, tail := text[..p], TextTemplate(text[p + 1..], args[1..]);
      TextTemplateWithout(text[p + 1..], args[1..]);
      ArgRendered(args[0]);
      WithoutConcat([Lit(front)] + ArgTemplate(args[0]), tail);
      WithoutConcat([Lit(front)], ArgTemplate(args[0]));
    }
  }

  lemma {:induction false} ValuesSplit(args: seq<Arg>, n: nat)
    requires n <= |args|
    ensures Values(args) == Values(args[..n]) + Values(args[n..])
  {
    if n == 0 {
      assert args[..n] == [] && args[n..] == args;
    } else {
      assert args[..n][1..] == args[1..][..n - 1] && args[n..] == args[1..][n - 1..];
      ValuesSplit(args[1..], n - 1);
    }
  }

  /** A condition text ends up with as many placeholders as variables exactly when it has one `?`
      for each argument and no two `$` with nothing but filled `?` between them, or when it has
      too few `?` and just as many such pairs of `$` as the arguments left over have values. */
  lemma TextAligns(text: string, args: seq<Arg>)
    ensures var q, stray := Count(text, '?'), Stray(TextTemplate(text, args), false);
      Count(ReplaceMarks(Expand(text, args)), '?') == |Values(args)|
      <==> (q == |args| && stray == 0) || (q < |args| && |Values(args[q..])| == stray)
    ensures '$' !in text ==> Stray(TextTemplate(text, args), false) == 0
  {
    hide Count, Expand, Render, ReplaceMarks, Holes, LitCount, TextTemplate, Values, Stray;
    var t, q := TextTemplate(text, args), Count(text, '?');
    ExpandIsTemplate("", text, args);
    assert "" + text == text && "" + Render("$$", t) == Render("$$", t);
    TextTemplateWithout(text, args);
    if '$' !in text {
      NoStray(t);
    }
    CountFinal(t, false);
    TextTemplateHoles(text, args);
    ValuesSplit(args, Least(|args|, q));
    assert args[..|args|] == args;
  }

  /** A text with one `?` too many, and a text with two `$`: one placeholder and no variable. */
  lemma MarksWithoutVariables()
    ensures Values([]) == []
    ensures Count(ReplaceMarks(Expand("a = ?", [])), '?') == 1
    ensures Count(ReplaceMarks(Expand("a = $$", [])), '?') == 1
  {
  }

  /** The text with its placeholders in place is what is left of it exactly when no `$` of it stands
      right before another `$` or a filled `?`. */
  lemma TextStays(text: string, args: seq<Arg>)
    ensures ReplaceMarks(Expand(text, args)) == Render("?", TextTemplate(text, args))
      <==> Settled(TextTemplate(text, args))
    ensures '$' !in text ==> Settled(TextTemplate(text, args))
  {
    hide Expand, Render, ReplaceMarks, TextTemplate, Settled;
    var t := TextTemplate(text, args);
    ExpandIsTemplate("", text, args);
    assert "" + text == text && "" + Render("$$", t) == Render("$$", t);
    ReplaceRendered(t);
    TextTemplateWithout(text, args);
    if '$' !in text {
      SettledWithout(t);
    }
  }

  // ----- a condition of any kind -------------------------------------------------------------------

  function ConditionTemplate(c: Clause, pk: string): Template<Value> {
    match c.query
    case Number(n) => PrimaryTemplate(pk, BindPlan.Int(n))
    case Text(s) => if IsNumeric(s) then PrimaryTemplate(pk, BindPlan.Int(Atoi(s).value)) else TextTemplate(s, c.args)
    case Keys(ids) => TextTemplate(KeysText(pk), [Slice(ids)])
    case Columns(columns) => JoinTemplates(ColumnTemplates(columns), " AND ")
  }

  function PrimaryTemplate(column: string, v: Value): Template<Value> {
    [Lit("(" + Quote(column) + " = "), Hole(v), Lit(")")]
  }

  function ColumnTemplates(columns: seq<(string, Value)>): seq<Template<Value>> {
    seq(|columns|, i requires 0 <= i < |columns| => PrimaryTemplate(columns[i].0, columns[i].1))
  }

  /** No `?`, and no `$` either unless dollars are let through. */
  predicate Clean(s: string, dollars: bool) { '?' !in s && (dollars || '$' !in s) }

  predicate Plain(t: Template<Value>, dollars: bool) { Without(t, '?') && (dollars || Without(t, '$')) }

  /** One `?` for each argument of a text, and no `?` anywhere else. */
  predicate Fits(c: Clause, dollars: bool) {
    match c.query
    case Text(s) => IsNumeric(s) || (Count(s, '?') == |c.args| && (dollars || '$' !in s))
    case Columns(columns) => forall i :: 0 <= i < |columns| ==> Clean(columns[i].0, dollars)
    case _ => true
  }

  /** Numbers and lists of keys always fit, columns without marks in their names, and a text that is
      numeric or has one mark for each argument, and no dollar sign unless these are let through. */
  lemma FittingConditions(c: Clause)
    ensures c.query.Number? || c.query.Keys? ==> Fits(c, true) && Fits(c, false)
    ensures c.query.Columns? ==>
      && (Fits(c, true) <==> forall p :: p in c.query.columns ==> '?' !in p.0)
      && (Fits(c, false) <==> forall p :: p in c.query.columns ==> '?' !in p.0 && '$' !in p.0)
    ensures c.query.Text? ==> var s := c.query.text;
      && (Fits(c, true) <==> IsNumeric(s) || Count(s, '?') == |c.args|)
      && (Fits(c, false) <==> IsNumeric(s) || (Count(s, '?') == |c.args| && '$' !in s))
  {
    hide IsNumeric, Count;
    if c.query.Columns? {
      var columns := c.query.columns;
      assert forall p :: p in columns <==> exists i :: 0 <= i < |columns| && columns[i] == p;
    }
  }

  lemma PrimaryRendered(column: string, v: Value, dollars: bool)
    ensures Render("$$", PrimaryTemplate(column, v)) == PrimaryText(column)
    ensures Holes(PrimaryTemplate(column, v)) == [v]
    ensures Clean(column, dollars) ==> Plain(PrimaryTemplate(column, v), dollars)
  {
    var front := "(" + Quote(column) + " = ";
    hide Render, Holes;
    assert PrimaryTemplate(column, v) == [Lit(front)] + [Hole(v)] + [Lit(")")];
    assert PrimaryText(column) == front + "$$" + ")";
    RenderConcat("$$", [Lit(front)] + [Hole(v)], [Lit(")")]);
    RenderConcat("$$", [Lit(front)], [Hole(v)]);
    OneHole(v);
    LitRendered(front);
    LitRendered(")");
  }

  lemma {:induction false} ColumnsHoles(columns: seq<(string, Value)>)
    ensures AllHoles(ColumnTemplates(columns)) == seq(|columns|, i requires 0 <= i < |columns| => columns[i].1)
  {
    if columns != [] {
      ColumnsHoles(columns[1..]);
      PrimaryRendered(columns[0].0, columns[0].1, true);
      assert ColumnTemplates(columns)[1..] == ColumnTemplates(columns[1..]);
    }
  }

  lemma JoinPlain(parts: seq<Template<Value>>, sep: string, dollars: bool)
    requires Clean(sep, dollars) && forall i :: 0 <= i < |parts| ==> Plain(parts[i], dollars)
    ensures Plain(JoinTemplates(parts, sep), dollars)
  {
    JoinWithout(parts, sep, '?');
    if !dollars {
      JoinWithout(parts, sep, '$');
    }
  }

  lemma ColumnsRendered(columns: seq<(string, Value)>, dollars: bool)
    ensures var t := JoinTemplates(ColumnTemplates(columns), " AND ");
      && Render("$$", t) == Join(ColumnsText(columns), " AND ")
      && Holes(t) == seq(|columns|, i requires 0 <= i < |columns| => columns[i].1)
      && ((forall i :: 0 <= i < |columns| ==> Clean(columns[i].0, dollars)) ==> Plain(t, dollars))
  {
    var parts := ColumnTemplates(columns);
    RenderJoin("$$", parts, " AND ");
    ColumnsHoles(columns);
    forall i | 0 <= i < |columns|
      ensures Render("$$", parts[i]) == ColumnsText(columns)[i]
      ensures Clean(columns[i].0, dollars) ==> Plain(parts[i], dollars)
    {
      PrimaryRendered(columns[i].0, columns[i].1, dollars);
    }
    assert seq(|parts|, i requires 0 <= i < |parts| => Render("$$", parts[i])) == ColumnsText(columns);
    if forall i :: 0 <= i < |columns| ==> Clean(columns[i].0, dollars) {
      JoinPlain(parts, " AND ", dollars);
    }
  }

  lemma KeysCount(pk: string, dollars: bool)
    requires Clean(pk, dollars)
    ensures Count(KeysText(pk), '?') == 1 && (dollars || '$' !in KeysText(pk))
  {
    var front := "(" + Quote(pk) + " in (";
    assert KeysText(pk) == front + "?))";
    CountConcat(front, "?))", '?');
    CountNone(front, '?');
    CountNone("))", '?');
    assert "?))"[1..] == "))";
  }

  /** Each condition that fits is its template: text, variables, and no other `?`. */
  lemma ConditionIsTemplate(c: Clause, pk: string, dollars: bool)
    requires Fits(c, dollars) && Clean(pk, dollars)
    ensures var t := ConditionTemplate(c, pk);
      && ConditionText(c, pk) == Render("$$", t) && ConditionVars(c) == Holes(t)
      && Plain(t, dollars)
  {
    match c.query
    case Number(n) => PrimaryRendered(pk, BindPlan.Int(n), dollars);
    case Text(s) =>
      if IsNumeric(s) {
        PrimaryRendered(pk, BindPlan.Int(Atoi(s).value), dollars);
      } else {
        TextIsTemplate(s, c.args, dollars);
      }
    case Keys(ids) =>
      KeysCount(pk, dollars);
      TextIsTemplate(KeysText(pk), [Slice(ids)], dollars);
      assert [Slice(ids)][1..] == [];
    case Columns(columns) => ColumnsRendered(columns, dollars);
  }

  lemma TextIsTemplate(text: string, args: seq<Arg>, dollars: bool)
    requires (dollars || '$' !in text) && Count(text, '?') == |args|
    ensures Expand(text, args) == Render("$$", TextTemplate(text, args))
    ensures Values(args) == Holes(TextTemplate(text, args))
    ensures Plain(TextTemplate(text, args), dollars)
  {
    ExpandIsTemplate("", text, args);
    assert "" + text == text && "" + Render("$$", TextTemplate(text, args)) == Render("$$", TextTemplate(text, args));
    TextTemplateHoles(text, args);
    assert args[..|args|] == args;
    TextTemplateWithout(text, args);
  }

  /** The texts of the other kinds of condition, with the quoting of the source: a number is compared
      with the primary key, keys are a list of marks in parentheses, and columns are compared one by
      one. */
  lemma ConditionsSpell(pk: string, n: int, ids: seq<Value>, columns: seq<(string, Value)>, args: seq<Arg>)
    ensures ConditionText(Clause(Number(n), args), pk) == "(`" + pk + "` T = $$)"
    ensures ConditionVars(Clause(Number(n), args)) == [BindPlan.Int(n)]
    ensures '?' !in pk ==>
      ConditionText(Clause(Keys(ids), args), pk) == "(`" + pk + "` T in (" + Join(seq(|ids|, _ => "$$"), ",") + "))"
    ensures ConditionVars(Clause(Keys(ids), args)) == ids
    ensures ConditionText(Clause(Columns(columns), args), pk)
      == Join(seq(|columns|, i requires 0 <= i < |columns| => "(`" + columns[i].0 + "` T = $$)"), " AND ")
    ensures ConditionVars(Clause(Columns(columns), args))
      == seq(|columns|, i requires 0 <= i < |columns| => columns[i].1)
  {
    Compared(pk);
    forall i | 0 <= i < |columns|
      ensures ColumnsText(columns)[i] == "(`" + columns[i].0 + "` T = $$)"
    {
      Compared(columns[i].0);
    }
    assert ColumnsText(columns) == seq(|columns|, i requires 0 <= i < |columns| => "(`" + columns[i].0 + "` T = $$)");
    if '?' !in pk {
      KeysSpell(pk, ids);
    }
  }

  lemma Compared(column: string)
    ensures "(" + Quote(column) + " = $$)" == "(`" + column + "` T = $$)"
  {
  }

  lemma KeysSpell(pk: string, ids: seq<Value>)
    requires '?' !in pk
    ensures Expand(KeysText(pk), [Slice(ids)]) == "(`" + pk + "` T in (" + Join(seq(|ids|, _ => "$$"), ",") + "))"
  {
    hide Join;
    var front, marks := "(`" + pk + "` T in (", Marks(Slice(ids));
    assert KeysText(pk) == front + "?))";
    assert [Slice(ids)][1..] == [];
    ReplaceAfter(front, "?))", marks);
    assert "?))"[1..] == "))" && ReplaceFirst("?))", marks) == marks + "))";
    assert front + (marks + "))") == front + marks + "))";
  }
}
