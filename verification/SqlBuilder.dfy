/** The query builder: clauses gathered in place, then one SQL text with its variables. */
module SqlBuilder {
  import opened Options
  import opened SqlText
  import opened SqlCondition
  import opened SqlCalls
  import BindPlan
  import Decimals

  /** The clauses gathered so far. */
  datatype Parts = Parts(
    wheres: seq<Clause>, ors: seq<Clause>, having: Option<Clause>, orders: seq<string>,
    joins: string, select: string, offset: string, limit: string, group: string, tableName: string)

  // ----- the text, part by part --------------------------------------------------------------

  function Texts(cs: seq<Clause>, pk: string): seq<string> {
    seq(|cs|, i requires 0 <= i < |cs| => ConditionText(cs[i], pk))
  }

  function Vars(cs: seq<Clause>): seq<Value> {
    if cs == [] then [] else Vars(cs[..|cs| - 1]) + ConditionVars(cs[|cs| - 1])
  }

  function Either(ands: string, ors: string): string {
    if ands != "" then "WHERE " + (if ors != "" then ands + " OR " + ors else ands)
    else if ors != "" then "WHERE " + ors
    else ""
  }

  function WhereText(p: Parts, pk: string): string {
    Either(Join(Texts(p.wheres, pk), " AND "), Join(Texts(p.ors, pk), " OR "))
  }

  function HavingText(p: Parts, pk: string): string {
    if p.having.None? then "" else " HAVING " + ConditionText(p.having.value, pk)
  }

  function Optional(keyword: string, text: string): string { if text == "" then "" else keyword + text }

  function SelectText(p: Parts): string { if p.select == "" then "*" else p.select }

  function OrderText(p: Parts): string { if p.orders == [] then "" else " ORDER BY " + Join(p.orders, ",") }

  function Front(p: Parts): string {
    "SELECT  " + SelectText(p) + " FROM " + Quote(p.tableName) + " " + (p.joins + " ")
  }

  function Back(p: Parts): string { OrderText(p) + Optional(" LIMIT ", p.limit) + Optional(" OFFSET ", p.offset) }

  /** The text before the marks are replaced. */
  function MarkedText(p: Parts, pk: string): string {
    Front(p) + (WhereText(p, pk) + Optional(" GROUP BY ", p.group) + HavingText(p, pk) + Back(p))
  }

  function QueryText(p: Parts, pk: string): string { ReplaceMarks(MarkedText(p, pk)) }

  function QueryVars(p: Parts): seq<Value> {
    Vars(p.wheres) + Vars(p.ors) + (if p.having.None? then [] else ConditionVars(p.having.value))
  }

  // ----- the query as a template -----------------------------------------------------------------

  function Templates(cs: seq<Clause>, pk: string): seq<Template<Value>> {
    seq(|cs|, i requires 0 <= i < |cs| => ConditionTemplate(cs[i], pk))
  }

  function EitherTemplate(ands: Template<Value>, ors: Template<Value>): Template<Value> {
    if Render("$$", ands) != "" then
      [Lit("WHERE ")] + (if Render("$$", ors) != "" then ands + [Lit(" OR ")] + ors else ands)
    else if Render("$$", ors) != "" then [Lit("WHERE ")] + ors
    else []
  }

  function WhereTemplate(p: Parts, pk: string): Template<Value> {
    EitherTemplate(JoinTemplates(Templates(p.wheres, pk), " AND "), JoinTemplates(Templates(p.ors, pk), " OR "))
  }

  function HavingTemplate(p: Parts, pk: string): Template<Value> {
    if p.having.None? then [] else [Lit(" HAVING ")] + ConditionTemplate(p.having.value, pk)
  }

  function QueryTemplate(p: Parts, pk: string): Template<Value> {
    [Lit(Front(p))] + WhereTemplate(p, pk) + [Lit(Optional(" GROUP BY ", p.group))]
    + HavingTemplate(p, pk) + [Lit(Back(p))]
  }

  /** Every condition fits, and no other part has a `?`. */
  predicate Tidy(p: Parts, dollars: bool) {
    && (forall i :: 0 <= i < |p.wheres| ==> Fits(p.wheres[i], dollars))
    && (forall i :: 0 <= i < |p.ors| ==> Fits(p.ors[i], dollars))
    && (p.having.Some? ==> Fits(p.having.value, dollars))
    && (forall i :: 0 <= i < |p.orders| ==> Clean(p.orders[i], dollars))
    && Clean(p.joins, dollars) && Clean(p.select, dollars) && Clean(p.offset, dollars) && Clean(p.limit, dollars)
    && Clean(p.group, dollars) && Clean(p.tableName, dollars)
  }

  /** The template stands for the marked text and its variables. */
  predicate Means(t: Template<Value>, text: string, vars: seq<Value>, dollars: bool) {
    Render("$$", t) == text && Holes(t) == vars && Plain(t, dollars)
  }

  lemma MeansConcat(a: Template<Value>, s: string, v: seq<Value>, b: Template<Value>, t: string, w: seq<Value>,
      dollars: bool)
    requires Means(a, s, v, dollars) && Means(b, t, w, dollars)
    ensures Means(a + b, s + t, v + w, dollars)
  {
    RenderConcat("$$", a, b);
  }

  lemma MeansLit(s: string, dollars: bool)
    requires Clean(s, dollars)
    ensures Means([Lit(s)], s, [], dollars)
  {
    LitRendered(s);
  }

  lemma MeansNothing(dollars: bool)
    ensures Means([], "", [], dollars)
  {
  }

  lemma TemplatesLast(cs: seq<Clause>, pk: string)
    requires cs != []
    ensures Templates(cs, pk) == Templates(cs[..|cs| - 1], pk) + [ConditionTemplate(cs[|cs| - 1], pk)]
    ensures Templates([], pk) == []
  {
  }

  lemma {:induction false} VarsAreHoles(cs: seq<Clause>, pk: string, dollars: bool)
    requires Clean(pk, dollars) && forall i :: 0 <= i < |cs| ==> Fits(cs[i], dollars)
    ensures Vars(cs) == AllHoles(Templates(cs, pk))
  {
    if cs != [] {
      var n := |cs| - 1;
      VarsAreHoles(cs[..n], pk, dollars);
      hide ConditionTemplate, ConditionVars, ConditionText, Fits, Holes, Render, Without, Templates, Clean;
      ConditionIsTemplate(cs[n], pk, dollars);
      TemplatesLast(cs, pk);
      HolesLast(Templates(cs[..n], pk), ConditionTemplate(cs[n], pk));
    }
  }

  lemma {:induction false} HolesLast(parts: seq<Template<Value>>, t: Template<Value>)
    ensures AllHoles(parts + [t]) == AllHoles(parts) + Holes(t)
  {
    if parts == [] {
      assert [t][1..] == [] && parts + [t] == [t];
    } else {
      assert (parts + [t])[1..] == parts[1..] + [t];
      HolesLast(parts[1..], t);
    }
  }

  lemma JoinedConditions(cs: seq<Clause>, pk: string, sep: string, dollars: bool)
    requires Clean(pk, dollars) && Clean(sep, dollars) && forall i :: 0 <= i < |cs| ==> Fits(cs[i], dollars)
    ensures var t := JoinTemplates(Templates(cs, pk), sep);
      Render("$$", t) == Join(Texts(cs, pk), sep) && Holes(t) == Vars(cs) && Plain(t, dollars)
  {
    var parts := Templates(cs, pk);
    forall i | 0 <= i < |cs|
      ensures Render("$$", parts[i]) == Texts(cs, pk)[i] && Plain(parts[i], dollars)
    {
      ConditionIsTemplate(cs[i], pk, dollars);
    }
    RenderJoin("$$", parts, sep);
    assert seq(|parts|, i requires 0 <= i < |parts| => Render("$$", parts[i])) == Texts(cs, pk);
    VarsAreHoles(cs, pk, dollars);
    JoinPlain(parts, sep, dollars);
  }

  lemma EitherMeans(a: Template<Value>, s: string, v: seq<Value>, b: Template<Value>, t: string, w: seq<Value>,
      dollars: bool)
    requires Means(a, s, v, dollars) && Means(b, t, w, dollars)
    ensures Means(EitherTemplate(a, b), Either(s, t), v + w, dollars)
  {
    EmptyRender(a);
    EmptyRender(b);
    EitherParts(a, s, v, b, t, w, dollars);
  }

  lemma EitherParts(a: Template<Value>, s: string, v: seq<Value>, b: Template<Value>, t: string, w: seq<Value>,
      dollars: bool)
    requires Means(a, s, v, dollars) && Means(b, t, w, dollars)
    requires (s == "" ==> v == []) && (t == "" ==> w == [])
    requires Render("$$", a) == s && Render("$$", b) == t
    ensures Means(EitherTemplate(a, b), Either(s, t), v + w, dollars)
  {
    hide Render, Means;
    MeansLit("WHERE ", dollars);
    MeansLit(" OR ", dollars);
    MeansNothing(dollars);
    if s != "" && t != "" {
      MeansConcat(a, s, v, [Lit(" OR ")], " OR ", [], dollars);
      MeansConcat(a + [Lit(" OR ")], s + " OR ", v + [], b, t, w, dollars);
      MeansConcat([Lit("WHERE ")], "WHERE ", [], a + [Lit(" OR ")] + b, s + " OR " + t, v + [] + w, dollars);
      assert [] + (v + [] + w) == v + w;
    } else if s != "" {
      MeansConcat([Lit("WHERE ")], "WHERE ", [], a, s, v, dollars);
      assert [] + v == v + w;
    } else if t != "" {
      MeansConcat([Lit("WHERE ")], "WHERE ", [], b, t, w, dollars);
      assert [] + w == v + w;
    } else {
      assert v + w == [];
    }
  }

  lemma {:induction false} JoinClean(parts: seq<string>, sep: string, dollars: bool)
    requires Clean(sep, dollars) && forall i :: 0 <= i < |parts| ==> Clean(parts[i], dollars)
    ensures Clean(Join(parts, sep), dollars)
  {
    if |parts| > 1 {
      JoinClean(parts[1..], sep, dollars);
    }
  }

  lemma HavingMeans(p: Parts, pk: string, dollars: bool)
    requires Tidy(p, dollars) && Clean(pk, dollars)
    ensures Means(HavingTemplate(p, pk), HavingText(p, pk), if p.having.None? then []
      else ConditionVars(p.having.value), dollars)
  {
    hide ConditionTemplate, ConditionText, ConditionVars, Render, Holes;
    if p.having.None? {
      MeansNothing(dollars);
    } else {
      MeansLit(" HAVING ", dollars);
      ConditionIsTemplate(p.having.value, pk, dollars);
      var v := ConditionVars(p.having.value);
      MeansConcat([Lit(" HAVING ")], " HAVING ", [], ConditionTemplate(p.having.value, pk),
        ConditionText(p.having.value, pk), v, dollars);
      assert [] + v == v;
    }
  }

  lemma WhereMeans(p: Parts, pk: string, dollars: bool)
    requires Tidy(p, dollars) && Clean(pk, dollars)
    ensures Means(WhereTemplate(p, pk), WhereText(p, pk), Vars(p.wheres) + Vars(p.ors), dollars)
  {
    hide Either, EitherTemplate;
    JoinedConditions(p.wheres, pk, " AND ", dollars);
    JoinedConditions(p.ors, pk, " OR ", dollars);
    EitherMeans(JoinTemplates(Templates(p.wheres, pk), " AND "), Join(Texts(p.wheres, pk), " AND "), Vars(p.wheres),
                JoinTemplates(Templates(p.ors, pk), " OR "), Join(Texts(p.ors, pk), " OR "), Vars(p.ors), dollars);
  }

  lemma LiteralsClean(p: Parts, dollars: bool)
    requires Tidy(p, dollars)
    ensures Clean(Front(p), dollars) && Clean(Optional(" GROUP BY ", p.group), dollars) && Clean(Back(p), dollars)
  {
    OrderClean(p, dollars);
    OptionalClean(" GROUP BY ", p.group, dollars);
    OptionalClean(" LIMIT ", p.limit, dollars);
    OptionalClean(" OFFSET ", p.offset, dollars);
    QuoteClean(p.tableName, dollars);
    SelectClean(p, dollars);
    hide Clean, Optional, Quote, OrderText, SelectText;
    CleanConcat(OrderText(p), Optional(" LIMIT ", p.limit), dollars);
    CleanConcat(OrderText(p) + Optional(" LIMIT ", p.limit), Optional(" OFFSET ", p.offset), dollars);
    var select := "SELECT  " + SelectText(p) + " FROM ";
    CleanConcat(select, Quote(p.tableName), dollars);
    CleanConcat(select + Quote(p.tableName), " ", dollars);
    CleanConcat(p.joins, " ", dollars);
    CleanConcat(select + Quote(p.tableName) + " ", p.joins + " ", dollars);
  }

  lemma CleanConcat(a: string, b: string, dollars: bool)
    requires Clean(a, dollars) && Clean(b, dollars)
    ensures Clean(a + b, dollars)
  {
  }

  lemma OptionalClean(keyword: string, text: string, dollars: bool)
    requires Clean(keyword, dollars) && Clean(text, dollars)
    ensures Clean(Optional(keyword, text), dollars)
  {
  }

  lemma QuoteClean(name: string, dollars: bool)
    requires Clean(name, dollars)
    ensures Clean(Quote(name), dollars)
  {
  }

  lemma OrderClean(p: Parts, dollars: bool)
    requires Tidy(p, dollars)
    ensures Clean(OrderText(p), dollars)
  {
    JoinClean(p.orders, ",", dollars);
  }

  lemma SelectClean(p: Parts, dollars: bool)
    requires Clean(p.select, dollars)
    ensures Clean("SELECT  " + SelectText(p) + " FROM ", dollars) && Clean(" ", dollars)
  {
    CleanConcat("SELECT  ", SelectText(p), dollars);
    CleanConcat("SELECT  " + SelectText(p), " FROM ", dollars);
  }

  lemma QueryMarked(p: Parts, pk: string, dollars: bool)
    requires Tidy(p, dollars) && Clean(pk, dollars)
    ensures Means(QueryTemplate(p, pk), MarkedText(p, pk), QueryVars(p), dollars)
  {
    hide Means, WhereTemplate, WhereText, HavingTemplate, HavingText, ConditionVars, Vars, Front, Back, Clean, Tidy,
      Optional;
    LiteralsClean(p, dollars);
    var group := Optional(" GROUP BY ", p.group);
    var v, h := Vars(p.wheres) + Vars(p.ors), if p.having.None? then [] else ConditionVars(p.having.value);
    MeansLit(Front(p), dollars);
    WhereMeans(p, pk, dollars);
    MeansLit(group, dollars);
    HavingMeans(p, pk, dollars);
    MeansLit(Back(p), dollars);
    var a := [Lit(Front(p))] + WhereTemplate(p, pk);
    MeansConcat([Lit(Front(p))], Front(p), [], WhereTemplate(p, pk), WhereText(p, pk), v, dollars);
    MeansConcat(a, Front(p) + WhereText(p, pk), [] + v, [Lit(group)], group, [], dollars);
    MeansConcat(a + [Lit(group)], Front(p) + WhereText(p, pk) + group, [] + v + [],
                HavingTemplate(p, pk), HavingText(p, pk), h, dollars);
    MeansConcat(a + [Lit(group)] + HavingTemplate(p, pk), Front(p) + WhereText(p, pk) + group + HavingText(p, pk),
                [] + v + [] + h, [Lit(Back(p))], Back(p), [], dollars);
    assert [] + v + [] + h + [] == QueryVars(p);
    assert Front(p) + WhereText(p, pk) + group + HavingText(p, pk) + Back(p) == MarkedText(p, pk);
  }

  /** The variables of a query are the values of its template's holes in order, and no literal has
      a `?`; and its text is the template with `?` in the holes, so that the i-th placeholder takes
      the i-th variable and there are no others, if and only if no `$` of a literal stands right
      before another `$` or a hole. With no `$` in any part that is so. */
  lemma QueryAligns(p: Parts, pk: string)
    requires Tidy(p, true) && Clean(pk, true)
    ensures var t := QueryTemplate(p, pk);
      && QueryVars(p) == Holes(t) && Without(t, '?')
      && (QueryText(p, pk) == Render("?", t) <==> Settled(t))
      && (Settled(t) ==> Count(QueryText(p, pk), '?') == |QueryVars(p)|)
      && (Tidy(p, false) && Clean(pk, false) ==> Settled(t))
  {
    hide QueryTemplate, MarkedText, QueryVars, Count, Tidy, Clean, Settled;
    var t := QueryTemplate(p, pk);
    QueryMarked(p, pk, true);
    ReplaceRendered(t);
    CountRendered(t);
    if Tidy(p, false) && Clean(pk, false) {
      QueryMarked(p, pk, false);
      SettledWithout(t);
    }
  }

  lemma LessTidy(p: Parts, pk: string)
    requires Tidy(p, false) && Clean(pk, false)
    ensures Tidy(p, true) && Clean(pk, true)
  {
  }

  /** No dollar sign outside the conditions. */
  predicate NoDollars(p: Parts) {
    && (forall i :: 0 <= i < |p.orders| ==> '$' !in p.orders[i])
    && '$' !in p.select && '$' !in p.tableName && '$' !in p.joins
    && '$' !in p.group && '$' !in p.limit && '$' !in p.offset
  }

  lemma {:induction false} JoinedFree(parts: seq<string>)
    requires forall i :: 0 <= i < |parts| ==> '$' !in parts[i]
    ensures '$' !in Join(parts, ",")
  {
    if |parts| > 1 {
      JoinedFree(parts[1..]);
    }
  }

  /** What the text of a query is: selection, table and joins, the conditions, the grouping, the
      condition on groups, orders, limit and offset, the last five each only if there is one. Marks are
      replaced in the conditions alone if no other part has a dollar sign. */
  lemma QuerySpells(p: Parts, pk: string)
    ensures var front := "SELECT  " + (if p.select == "" then "*" else p.select)
        + " FROM `" + p.tableName + "` T " + p.joins + " ";
      var group := if p.group == "" then "" else " GROUP BY " + p.group;
      var back := (if p.orders == [] then "" else " ORDER BY " + Join(p.orders, ","))
        + (if p.limit == "" then "" else " LIMIT " + p.limit) + (if p.offset == "" then "" else " OFFSET " + p.offset);
      && QueryText(p, pk) == ReplaceMarks(front + WhereText(p, pk) + group + HavingText(p, pk) + back)
      && (NoDollars(p) ==>
            QueryText(p, pk) == front + ReplaceMarks(WhereText(p, pk)) + group + ReplaceMarks(HavingText(p, pk)) + back)
  {
    hide *;
    var front := "SELECT  " + (if p.select == "" then "*" else p.select)
      + " FROM `" + p.tableName + "` T " + p.joins + " ";
    var group := if p.group == "" then "" else " GROUP BY " + p.group;
    var back := (if p.orders == [] then "" else " ORDER BY " + Join(p.orders, ","))
      + (if p.limit == "" then "" else " LIMIT " + p.limit) + (if p.offset == "" then "" else " OFFSET " + p.offset);
    FrontSpells(p);
    BackSpells(p);
    MarkedSpells(p, pk);
    if NoDollars(p) {
      PartsFree(p);
      HavingBegins(p, pk);
      MarksInConditions(front, WhereText(p, pk), group, HavingText(p, pk), back);
    }
  }

  lemma FrontSpells(p: Parts)
    ensures Front(p)
      == "SELECT  " + (if p.select == "" then "*" else p.select) + " FROM `" + p.tableName + "` T " + p.joins + " "
  {
  }

  lemma BackSpells(p: Parts)
    ensures Back(p) == (if p.orders == [] then "" else " ORDER BY " + Join(p.orders, ","))
      + (if p.limit == "" then "" else " LIMIT " + p.limit) + (if p.offset == "" then "" else " OFFSET " + p.offset)
    ensures Back(p) == "" || Back(p)[0] == ' '
  {
    hide Join;
  }

  lemma MarkedSpells(p: Parts, pk: string)
    ensures QueryText(p, pk) == ReplaceMarks(Front(p) + WhereText(p, pk)
      + (if p.group == "" then "" else " GROUP BY " + p.group) + HavingText(p, pk) + Back(p))
  {
    hide Front, Back, WhereText, HavingText, ReplaceMarks;
    assert MarkedText(p, pk)
      == Front(p) + WhereText(p, pk) + (if p.group == "" then "" else " GROUP BY " + p.group)
         + HavingText(p, pk) + Back(p);
  }

  lemma PartsFree(p: Parts)
    requires NoDollars(p)
    ensures '$' !in Front(p) && '$' !in Back(p) && '$' !in (if p.group == "" then "" else " GROUP BY " + p.group)
    ensures p.group != "" ==> (" GROUP BY " + p.group)[0] == ' '
  {
    hide Join;
    assert Back(p) == OrderText(p) + Optional(" LIMIT ", p.limit) + Optional(" OFFSET ", p.offset);
    hide OrderText, Optional, Front, Back;
    FreeFront(p);
    FreeBack(p);
  }

  lemma FreeFront(p: Parts)
    requires NoDollars(p)
    ensures '$' !in Front(p)
  {
  }

  lemma FreeBack(p: Parts)
    requires NoDollars(p)
    ensures '$' !in OrderText(p) && '$' !in Optional(" LIMIT ", p.limit) && '$' !in Optional(" OFFSET ", p.offset)
  {
    hide Join;
    JoinedFree(p.orders);
  }

  lemma ConditionsStand(p: Parts, pk: string)
    ensures var ands, ors := Join(Texts(p.wheres, pk), " AND "), Join(Texts(p.ors, pk), " OR ");
      WhereText(p, pk)
      == if ands == "" && ors == "" then ""
         else if ors == "" then "WHERE " + ands
         else if ands == "" then "WHERE " + ors
         else "WHERE " + ands + " OR " + ors
    ensures HavingText(p, pk) == if p.having.None? then "" else " HAVING " + ConditionText(p.having.value, pk)
  {
    hide Join, Texts, ConditionText;
    var ands, ors := Join(Texts(p.wheres, pk), " AND "), Join(Texts(p.ors, pk), " OR ");
    assert "WHERE " + (ands + " OR " + ors) == "WHERE " + ands + " OR " + ors;
  }

  lemma GatheredFree(p: Parts, calls: seq<Call>)
    requires Gathered(p, calls)
    requires forall i :: 0 <= i < |calls| && (calls[i].Order? || calls[i].Set?) ==> '$' !in calls[i].value
    ensures NoDollars(p)
  {
    forall setting: Setting {
      SettingsFree(calls, setting);
    }
    SettingsFree(calls, Limit);
  }

  lemma HavingBegins(p: Parts, pk: string)
    ensures HavingText(p, pk) == "" || HavingText(p, pk)[0] == ' '
  {
    hide ConditionText;
  }

  lemma MarksInConditions(front: string, where: string, group: string, having: string, back: string)
    requires '$' !in front && '$' !in group && '$' !in back
    requires (having == "" || having[0] == ' ') && (group == "" || group[0] == ' ') && (back == "" || back[0] == ' ')
    ensures ReplaceMarks(front + where + group + having + back)
      == front + ReplaceMarks(where) + group + ReplaceMarks(having) + back
  {
    hide ReplaceMarks;
    NoMarksIn(group);
    NoMarksIn(back);
    MarksApart(front + where + group + having, back);
    MarksApart(front + where + group, having);
    MarksApart(front + where, group);
    MarksAfter(front, where);
  }

  // ----- the builder -----------------------------------------------------------------------------

  lemma NoClauses(pk: string)
    ensures Texts([], pk) == [] && Vars([]) == []
  {
  }

  lemma LastClause(cs: seq<Clause>, c: Clause, pk: string)
    ensures Texts(cs + [c], pk) == Texts(cs, pk) + [ConditionText(c, pk)]
    ensures Vars(cs + [c]) == Vars(cs) + ConditionVars(c)
  {
    hide ConditionText, ConditionVars;
    assert (cs + [c])[..|cs|] == cs;
  }

  // ----- the calls that gather clauses -------------------------------------------------------

  /** The clauses are what the calls, in order, ask for. */
  predicate Gathered(p: Parts, calls: seq<Call>) {
    && p.wheres == Ands(calls) && p.ors == Ors(calls) && p.having == LastHaving(calls) && p.orders == Orders(calls)
    && p.select == LastSet(calls, Selected) && p.joins == LastSet(calls, Joined) && p.offset == LastSet(calls, Offset)
    && p.limit == LastSet(calls, Limit) && p.group == LastSet(calls, Group) && p.tableName == LastSet(calls, Table)
  }

  predicate CallFits(c: Call, dollars: bool) {
    match c
    case Where(query, args) => Fits(Clause(query, args), dollars)
    case Or(query, args) => Fits(Clause(query, args), dollars)
    case Having(condition, args) => Fits(Clause(Text(condition), args), dollars)
    case Order(value, _) => Clean(value, dollars)
    case Set(_, value) => Clean(value, dollars)
  }

  predicate AllFit(calls: seq<Call>, dollars: bool) {
    forall i :: 0 <= i < |calls| ==> CallFits(calls[i], dollars)
  }

  /** Calls that fit, in any order and number, gather clauses that can be aligned. */
  lemma {:induction false} FittingCallsAreTidy(p: Parts, calls: seq<Call>, dollars: bool)
    requires Gathered(p, calls) && AllFit(calls, dollars)
    ensures Tidy(p, dollars)
  {
    ClausesFit(calls, dollars);
    forall setting: Setting
      ensures Clean(LastSet(calls, setting), dollars)
    {
      SettingClean(calls, setting, dollars);
    }
  }

  lemma {:induction false} ClausesFit(calls: seq<Call>, dollars: bool)
    requires AllFit(calls, dollars)
    ensures forall i :: 0 <= i < |Ands(calls)| ==> Fits(Ands(calls)[i], dollars)
    ensures forall i :: 0 <= i < |Ors(calls)| ==> Fits(Ors(calls)[i], dollars)
    ensures LastHaving(calls).Some? ==> Fits(LastHaving(calls).value, dollars)
    ensures forall i :: 0 <= i < |Orders(calls)| ==> Clean(Orders(calls)[i], dollars)
  {
    hide Fits, Clean;
    if calls != [] {
      ClausesFit(calls[..|calls| - 1], dollars);
      assert CallFits(calls[|calls| - 1], dollars);
    }
  }

  lemma {:induction false} SettingClean(calls: seq<Call>, setting: Setting, dollars: bool)
    requires AllFit(calls, dollars)
    ensures Clean(LastSet(calls, setting), dollars)
  {
    if calls != [] {
      SettingClean(calls[..|calls| - 1], setting, dollars);
      assert CallFits(calls[|calls| - 1], dollars);
    }
  }

  lemma GatheredNext(p: Parts, q: Parts, calls: seq<Call>, c: Call)
    requires Gathered(p, calls)
    requires q == match c
      case Where(query, args) => p.(wheres := p.wheres + [Clause(query, args)])
      case Or(query, args) => p.(ors := p.ors + [Clause(query, args)])
      case Having(condition, args) => p.(having := Some(Clause(Text(condition), args)))
      case Order(value, reorder) => p.(orders := if reorder then [value] else p.orders + [value])
      case Set(Selected, value) => p.(select := value)
      case Set(Joined, value) => p.(joins := value)
      case Set(Offset, value) => p.(offset := value)
      case Set(Limit, value) => p.(limit := value)
      case Set(Group, value) => p.(group := value)
      case Set(Table, value) => p.(tableName := value)
    ensures Gathered(q, calls + [c])
  {
    assert (calls + [c])[..|calls|] == calls;
  }

  class Search {
    var parts: Parts
    ghost var calls: seq<Call>

    /** The clauses gathered are those of the calls so far. */
    ghost predicate Valid()
      reads this
    {
      Gathered(parts, calls)
    }

    constructor ()
      ensures Valid() && calls == []
    {
      parts := Parts([], [], None, [], "", "", "", "", "", "");
      calls := [];
    }

    constructor Copy(s: Search)
      requires s.Valid()
      ensures Valid() && parts == s.parts && calls == s.calls
    {
      parts := s.parts;
      calls := s.calls;
    }

    /** Adds a condition to those joined by AND. Its variables come behind theirs, and the clauses
        can be aligned afterwards exactly when they could before and the condition fits. */
    method Where(query: Query, args: seq<Arg>)
      requires Valid()
      modifies this
      ensures Valid() && calls == old(calls) + [Call.Where(query, args)]
      ensures Vars(parts.wheres) == old(Vars(parts.wheres)) + ConditionVars(Clause(query, args))
      ensures forall d :: Tidy(parts, d) <==> old(Tidy(parts, d)) && Fits(Clause(query, args), d)
    {
      hide Tidy, Fits, Vars, ConditionVars, Gathered;
      LastClause(parts.wheres, Clause(query, args), "");
      ghost var before := parts;
      parts := parts.(wheres := parts.wheres + [Clause(query, args)]);
      GatheredNext(before, parts, calls, Call.Where(query, args));
      calls := calls + [Call.Where(query, args)];
      forall d {
        TidyWhere(before, Clause(query, args), d);
      }
    }

    /** Adds a condition to those joined by OR. */
    method Or(query: Query, args: seq<Arg>)
      requires Valid()
      modifies this
      ensures Valid() && calls == old(calls) + [Call.Or(query, args)]
      ensures Vars(parts.ors) == old(Vars(parts.ors)) + ConditionVars(Clause(query, args))
      ensures forall d :: Tidy(parts, d) <==> old(Tidy(parts, d)) && Fits(Clause(query, args), d)
    {
      hide Tidy, Fits, Vars, ConditionVars, Gathered;
      LastClause(parts.ors, Clause(query, args), "");
      ghost var before := parts;
      parts := parts.(ors := parts.ors + [Clause(query, args)]);
      GatheredNext(before, parts, calls, Call.Or(query, args));
      calls := calls + [Call.Or(query, args)];
      forall d {
        TidyOr(before, Clause(query, args), d);
      }
    }

    /** Replaces the condition on groups: an earlier one that did not fit no longer matters. */
    method Having(query: string, args: seq<Arg>)
      requires Valid()
      modifies this
      ensures Valid() && calls == old(calls) + [Call.Having(query, args)]
      ensures forall d :: old(Tidy(parts, d)) && Fits(Clause(Text(query), args), d) ==> Tidy(parts, d)
      ensures forall d :: Tidy(parts, d) ==> Fits(Clause(Text(query), args), d)
    {
      ghost var before := parts;
      parts := parts.(having := Some(Clause(Text(query), args)));
      GatheredNext(before, parts, calls, Call.Having(query, args));
      calls := calls + [Call.Having(query, args)];
    }

    /** Adds an order, or puts it in place of all earlier ones. */
    method Order(value: string, reorder: bool)
      requires Valid()
      modifies this
      ensures Valid() && calls == old(calls) + [Call.Order(value, reorder)]
      ensures forall d :: old(Tidy(parts, d)) && Clean(value, d) ==> Tidy(parts, d)
      ensures forall d :: Tidy(parts, d) ==> Clean(value, d)
    {
      ghost var before := parts;
      if reorder {
        parts := parts.(orders := [value]);
      } else {
        parts := parts.(orders := parts.orders + [value]);
      }
      GatheredNext(before, parts, calls, Call.Order(value, reorder));
      calls := calls + [Call.Order(value, reorder)];
      assert parts.orders[|parts.orders| - 1] == value;
    }

    method Change(setting: Setting, value: string)
      requires Valid()
      modifies this
      ensures Valid() && calls == old(calls) + [Set(setting, value)]
      ensures parts.wheres == old(parts.wheres) && parts.ors == old(parts.ors) && parts.having == old(parts.having)
      ensures setting == Selected ==> parts == old(parts).(select := value)
    {
      ghost var before := parts;
      match setting {
        case Selected => parts := parts.(select := value);
        case Joined => parts := parts.(joins := value);
        case Offset => parts := parts.(offset := value);
        case Limit => parts := parts.(limit := value);
        case Group => parts := parts.(group := value);
        case Table => parts := parts.(tableName := value);
      }
      GatheredNext(before, parts, calls, Set(setting, value));
      calls := calls + [Set(setting, value)];
    }
  }

  lemma LastFits(cs: seq<Clause>, c: Clause, dollars: bool)
    ensures (forall i :: 0 <= i < |cs + [c]| ==> Fits((cs + [c])[i], dollars))
      <==> (forall i :: 0 <= i < |cs| ==> Fits(cs[i], dollars)) && Fits(c, dollars)
  {
    hide Fits;
    var all := cs + [c];
    assert all[|cs|] == c && forall i :: 0 <= i < |cs| ==> all[i] == cs[i];
  }

  lemma TidyWhere(p: Parts, c: Clause, dollars: bool)
    ensures Tidy(p.(wheres := p.wheres + [c]), dollars) <==> Tidy(p, dollars) && Fits(c, dollars)
  {
    hide Fits, Clean;
    LastFits(p.wheres, c, dollars);
  }

  lemma TidyOr(p: Parts, c: Clause, dollars: bool)
    ensures Tidy(p.(ors := p.ors + [c]), dollars) <==> Tidy(p, dollars) && Fits(c, dollars)
  {
    hide Fits, Clean;
    LastFits(p.ors, c, dollars);
  }

  class Builder {
    var search: Search
    var primaryKey: string
    var sql: string
    var sqlVars: seq<Value>

    constructor (primaryKey: string)
      ensures fresh(search) && search.Valid() && search.calls == []
      ensures this.primaryKey == primaryKey && sqlVars == []
    {
      search := new Search();
      this.primaryKey := primaryKey;
      sql, sqlVars := "", [];
    }

    constructor Clone(b: Builder)
      requires b.search.Valid()
      ensures fresh(search) && search.Valid() && search.parts == b.search.parts && primaryKey == b.primaryKey
        && sqlVars == []
    {
      search := new Search.Copy(b.search);
      primaryKey := b.primaryKey;
      sql, sqlVars := "", [];
    }

    method AddToVars(value: Value) returns (mark: string)
      modifies `sqlVars
      ensures sqlVars == old(sqlVars) + [value] && mark == "$$"
    {
      sqlVars := sqlVars + [value];
      mark := "$$";
    }

    /** Adds the values of one argument to the variables. */
    method AddArg(a: Arg) returns (marks: string)
      modifies `sqlVars
      ensures marks == Marks(a) && sqlVars == old(sqlVars) + ArgValues(a)
    {
      match a
      case Scalar(value) => marks := AddToVars(value);
      case Slice(values) =>
        var tempMarks: seq<string> := [];
        for k := 0 to |values|
          invariant tempMarks == seq(k, _ => "$$") && sqlVars == old(sqlVars) + values[..k]
        {
          var mark := AddToVars(values[k]);
          tempMarks := tempMarks + [mark];
        }
        assert values[..|values|] == values;
        marks := Join(tempMarks, ",");
    }

    /** Replaces one `?` for each argument that is left, and adds the values to the variables. */
    method BindArgs(text: string, args: seq<Arg>) returns (str: string)
      modifies `sqlVars
      ensures str == Expand(text, args) && sqlVars == old(sqlVars) + Values(args)
    {
      hide Marks, ArgValues, ReplaceFirst;
      str := text;
      for i := 0 to |args|
        invariant Expand(str, args[i..]) == Expand(text, args)
        invariant sqlVars + Values(args[i..]) == old(sqlVars) + Values(args)
      {
        assert args[i..][1..] == args[i + 1..];
        var marks := AddArg(args[i]);
        str := ReplaceFirst(str, marks);
      }
    }

    method BuildWhereCondition(c: Clause) returns (str: string)
      modifies `sqlVars
      ensures str == ConditionText(c, primaryKey) && sqlVars == old(sqlVars) + ConditionVars(c)
    {
      match c.query
      case Text(s) =>
        if IsNumeric(s) {
          var mark := AddToVars(BindPlan.Int(Decimals.Atoi(s).value));
          return "(" + Quote(primaryKey) + " = " + mark + ")";
        }
        str := BindArgs(s, c.args);
      case Number(id) =>
        var mark := AddToVars(BindPlan.Int(id));
        return "(" + Quote(primaryKey) + " = " + mark + ")";
      case Keys(ids) =>
        str := BindArgs("(" + Quote(primaryKey) + " in (?))", [Slice(ids)]);
        assert [Slice(ids)][1..] == [];
      case Columns(columns) =>
        var sqls: seq<string> := [];
        for i := 0 to |columns|
          invariant |sqls| == i && forall k :: 0 <= k < i ==> sqls[k] == ColumnsText(columns)[k]
          invariant sqlVars == old(sqlVars) + seq(i, k requires 0 <= k < i => columns[k].1)
        {
          var mark := AddToVars(columns[i].1);
          var text := "(" + Quote(columns[i].0) + " = " + mark + ")";
          assert text == ColumnsText(columns)[i];
          sqls := sqls + [text];
        }
        assert sqls == ColumnsText(columns);
        str := Join(sqls, " AND ");
    }

    method Conditions(cs: seq<Clause>) returns (texts: seq<string>)
      modifies `sqlVars
      ensures texts == Texts(cs, primaryKey) && sqlVars == old(sqlVars) + Vars(cs)
    {
      hide ConditionText, ConditionVars, Texts, Vars;
      texts := [];
      NoClauses(primaryKey);
      for i := 0 to |cs|
        invariant texts == Texts(cs[..i], primaryKey) && sqlVars == old(sqlVars) + Vars(cs[..i])
      {
        LastClause(cs[..i], cs[i], primaryKey);
        assert cs[..i] + [cs[i]] == cs[..i + 1];
        var text := BuildWhereCondition(cs[i]);
        texts := texts + [text];
      }
      assert cs[..|cs|] == cs;
    }

    method WhereSql() returns (str: string)
      modifies `sqlVars
      ensures str == WhereText(search.parts, primaryKey)
      ensures sqlVars == old(sqlVars) + Vars(search.parts.wheres) + Vars(search.parts.ors)
    {
      var andConditions := Conditions(search.parts.wheres);
      var orConditions := Conditions(search.parts.ors);
      var orSql := Join(orConditions, " OR ");
      var combinedSql := Join(andConditions, " AND ");
      str := "";
      if |combinedSql| > 0 {
        if |orSql| > 0 {
          combinedSql := combinedSql + " OR " + orSql;
        }
        str := "WHERE " + combinedSql;
      } else if |orSql| > 0 {
        str := "WHERE " + orSql;
      }
    }

    method HavingSql() returns (str: string)
      modifies `sqlVars
      ensures str == HavingText(search.parts, primaryKey)
      ensures sqlVars == old(sqlVars)
        + (if search.parts.having.None? then [] else ConditionVars(search.parts.having.value))
    {
      if search.parts.having.None? {
        return "";
      }
      str := BuildWhereCondition(search.parts.having.value);
      str := " HAVING " + str;
    }

    method CombinedConditionSql() returns (str: string)
      modifies `sqlVars
      ensures var p := search.parts;
        str == p.joins + " " + (WhereText(p, primaryKey)
          + (if p.group == "" then "" else " GROUP BY " + p.group) + HavingText(p, primaryKey)
          + ((if p.orders == [] then "" else " ORDER BY " + Join(p.orders, ","))
             + (if p.limit == "" then "" else " LIMIT " + p.limit)
             + (if p.offset == "" then "" else " OFFSET " + p.offset)))
      ensures sqlVars == old(sqlVars) + QueryVars(search.parts)
    {
      hide WhereText, HavingText, Back, ConditionVars, Vars, Join;
      BackSpells(search.parts);
      var joins := search.parts.joins + " ";
      var where := WhereSql();
      var group := Optional(" GROUP BY ", search.parts.group);
      var having := HavingSql();
      str := joins + (where + group + having + Back(search.parts));
    }

    /** Puts together the query; the variables come after those that are there already. */
    method PrepareQuerySql()
      modifies `sql, `sqlVars
      ensures sql == QueryText(search.parts, primaryKey)
      ensures sqlVars == old(sqlVars) + QueryVars(search.parts)
    {
      hide WhereText, HavingText, Back, QueryVars, SelectText, Quote, Join;
      var combined := CombinedConditionSql();
      var p := search.parts;
      BackSpells(p);
      var rest := WhereText(p, primaryKey) + Optional(" GROUP BY ", p.group) + HavingText(p, primaryKey) + Back(p);
      var marked := "SELECT  " + SelectText(p) + " FROM " + Quote(p.tableName) + " " + combined;
      assert marked == Front(p) + rest;
      sql := ReplaceMarks(marked);
    }

    /** The text and the variables that are handed to the database. The builder itself is left as
        it is, so it can be asked again; and the placeholders line up with the variables. */
    method Find() returns (text: string, vars: seq<Value>)
      requires search.Valid()
      ensures text == QueryText(search.parts, primaryKey) && vars == QueryVars(search.parts)
      ensures var p := search.parts;
        text == ReplaceMarks(
          "SELECT  " + (if p.select == "" then "*" else p.select) + " FROM `" + p.tableName + "` T " + p.joins + " "
          + WhereText(p, primaryKey) + (if p.group == "" then "" else " GROUP BY " + p.group)
          + HavingText(p, primaryKey)
          + ((if p.orders == [] then "" else " ORDER BY " + Join(p.orders, ","))
             + (if p.limit == "" then "" else " LIMIT " + p.limit)
             + (if p.offset == "" then "" else " OFFSET " + p.offset)))
      ensures Tidy(search.parts, false) && Clean(primaryKey, false) ==>
        && text == Render("?", QueryTemplate(search.parts, primaryKey))
        && vars == Holes(QueryTemplate(search.parts, primaryKey))
        && Count(text, '?') == |vars|
    {
      hide QueryText, QueryVars, WhereText, HavingText, Join, ReplaceMarks, Render, Holes, Count, Tidy, Clean, Gathered,
        QueryTemplate, Settled, Without;
      var x := new Builder.Clone(this);
      x.PrepareQuerySql();
      text, vars := x.sql, x.sqlVars;
      QuerySpells(search.parts, primaryKey);
      if Tidy(search.parts, false) && Clean(primaryKey, false) {
        LessTidy(search.parts, primaryKey);
        QueryAligns(search.parts, primaryKey);
      }
    }

    /** The same conditions with `count(*)` selected: the variables are the same. */
    method CountRows() returns (text: string, vars: seq<Value>)
      requires search.Valid()
      ensures text == QueryText(search.parts.(select := "count(*)"), primaryKey)
      ensures vars == QueryVars(search.parts)
    {
      hide Gathered, QueryText, Vars, ConditionVars;
      var x := new Builder.Clone(this);
      x.search.Change(Selected, "count(*)");
      x.PrepareQuerySql();
      text, vars := x.sql, x.sqlVars;
    }

    /** Hands a call on to the search. */
    method Do(c: Call)
      requires search.Valid()
      modifies search
      ensures search.Valid() && search.calls == old(search.calls) + [c]
    {
      match c
      case Where(query, args) => search.Where(query, args);
      case Or(query, args) => search.Or(query, args);
      case Having(condition, args) => search.Having(condition, args);
      case Order(value, reorder) => search.Order(value, reorder);
      case Set(setting, value) => search.Change(setting, value);
    }
  }

  /** A new builder, any calls on it, and Find. The variables are those of the Where calls in order,
      of the Or calls in order, and of the last Having. If every call fits, the text is a template
      whose holes are the variables, with `?` in the holes if and only if no `$` stands right before
      another `$` or a hole; and without any `$` the placeholders always line up. */
  method Ask(pk: string, calls: seq<Call>)
    returns (text: string, vars: seq<Value>, ghost t: Template<Value>, ghost where: string, ghost having: string)
    ensures var ands, ors := Join(Texts(Ands(calls), pk), " AND "), Join(Texts(Ors(calls), pk), " OR ");
      where
      == if ands == "" && ors == "" then ""
         else if ors == "" then "WHERE " + ands
         else if ands == "" then "WHERE " + ors
         else "WHERE " + ands + " OR " + ors
    ensures having
      == if LastHaving(calls).None? then "" else " HAVING " + ConditionText(LastHaving(calls).value, pk)
    ensures var selected, group := LastSet(calls, Selected), LastSet(calls, Group);
      var limit, offset, orders := LastSet(calls, Limit), LastSet(calls, Offset), Orders(calls);
      var front := "SELECT  " + (if selected == "" then "*" else selected)
        + " FROM `" + LastSet(calls, Table) + "` T " + LastSet(calls, Joined) + " ";
      var grouping := if group == "" then "" else " GROUP BY " + group;
      var back := (if orders == [] then "" else " ORDER BY " + Join(orders, ","))
        + (if limit == "" then "" else " LIMIT " + limit) + (if offset == "" then "" else " OFFSET " + offset);
      && text == ReplaceMarks(front + where + grouping + having + back)
      && ((forall i :: 0 <= i < |calls| && (calls[i].Order? || calls[i].Set?) ==> '$' !in calls[i].value) ==>
            text == front + ReplaceMarks(where) + grouping + ReplaceMarks(having) + back)
    ensures vars == Vars(Ands(calls)) + Vars(Ors(calls))
      + (if LastHaving(calls).None? then [] else ConditionVars(LastHaving(calls).value))
    ensures AllFit(calls, true) && Clean(pk, true) ==>
      Holes(t) == vars && Without(t, '?') && (text == Render("?", t) <==> Settled(t))
    ensures AllFit(calls, false) && Clean(pk, false) ==>
      text == Render("?", t) && Holes(t) == vars && Count(text, '?') == |vars|
  {
    hide QueryTemplate, QueryText, Tidy, Clean, CallFits, Count, Render, Settled, Without, Holes, ReplaceMarks, Join,
      WhereText, HavingText, NoDollars, Ands, Ors, Orders, LastSet, LastHaving, Texts, Vars, ConditionText,
      ConditionVars, AllFit;
    var b := new Builder(pk);
    for i := 0 to |calls|
      invariant b.search.Valid() && b.search.calls == calls[..i] && b.primaryKey == pk && fresh(b.search)
    {
      assert calls[..i] + [calls[i]] == calls[..i + 1];
      b.Do(calls[i]);
    }
    assert calls[..|calls|] == calls;
    text, vars := b.Find();
    t := QueryTemplate(b.search.parts, pk);
    where, having := WhereText(b.search.parts, pk), HavingText(b.search.parts, pk);
    ConditionsStand(b.search.parts, pk);
    QuerySpells(b.search.parts, pk);
    if forall i :: 0 <= i < |calls| && (calls[i].Order? || calls[i].Set?) ==> '$' !in calls[i].value {
      GatheredFree(b.search.parts, calls);
    }
    if AllFit(calls, true) && Clean(pk, true) {
      FittingCallsAreTidy(b.search.parts, calls, true);
      QueryAligns(b.search.parts, pk);
    }
    if AllFit(calls, false) && Clean(pk, false) {
      FittingCallsAreTidy(b.search.parts, calls, false);
    }
  }
}
