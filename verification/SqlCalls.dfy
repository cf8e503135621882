/** The calls on a query builder, and what a list of them asks for. */
module SqlCalls {
  import opened Options
  import opened SqlCondition

  datatype Setting = Selected | Joined | Offset | Limit | Group | Table

  /** One call on a builder. */
  datatype Call =
    | Where(query: Query, args: seq<Arg>)
    | Or(query: Query, args: seq<Arg>)
    | Having(condition: string, args: seq<Arg>)
    | Order(value: string, reorder: bool)
    | Set(setting: Setting, value: string)

  /** The conditions of all Where calls, in order. */
  function Ands(calls: seq<Call>): seq<Clause> {
    if calls == [] then []
    else
      var c := calls[|calls| - 1];
      Ands(calls[..|calls| - 1]) + (if c.Where? then [Clause(c.query, c.args)] else [])
  }

  function Ors(calls: seq<Call>): seq<Clause> {
    if calls == [] then []
    else
      var c := calls[|calls| - 1];
      Ors(calls[..|calls| - 1]) + (if c.Or? then [Clause(c.query, c.args)] else [])
  }

  /** The condition of the last Having call. */
  function LastHaving(calls: seq<Call>): Option<Clause> {
    if calls == [] then None
    else
      var c := calls[|calls| - 1];
      if c.Having? then Some(Clause(Text(c.condition), c.args)) else LastHaving(calls[..|calls| - 1])
  }

  /** The orders since the last call that asked to reorder. */
  function Orders(calls: seq<Call>): seq<string> {
    if calls == [] then []
    else
      var c := calls[|calls| - 1];
      if c.Order? then (if c.reorder then [] else Orders(calls[..|calls| - 1])) + [c.value]
      else Orders(calls[..|calls| - 1])
  }

  function LastSet(calls: seq<Call>, setting: Setting): string {
    if calls == [] then ""
    else
      var c := calls[|calls| - 1];
      if c.Set? && c.setting == setting then c.value else LastSet(calls[..|calls| - 1], setting)
  }

  // ----- what the lists and the settings are, call by call ------------------------------------------------

  /** Conditions keep the order of their calls. */
  lemma {:induction false} ConditionsInOrder(a: seq<Call>, b: seq<Call>)
    ensures Ands(a + b) == Ands(a) + Ands(b) && Ors(a + b) == Ors(a) + Ors(b)
  {
    if b == [] {
      assert a + b == a;
    } else {
      var n := |b| - 1;
      assert (a + b)[..|a + b| - 1] == a + b[..n];
      ConditionsInOrder(a, b[..n]);
    }
  }

  lemma ConditionsOfOne(c: Call)
    ensures Ands([c]) == if c.Where? then [Clause(c.query, c.args)] else []
    ensures Ors([c]) == if c.Or? then [Clause(c.query, c.args)] else []
    ensures Ands([]) == [] && Ors([]) == []
  {
    assert [c][..0] == [];
  }

  /** The last call that sets a setting decides it; without one it is empty. */
  lemma {:induction false} SettingIsLast(calls: seq<Call>, setting: Setting, i: nat)
    requires i <= |calls| && forall j :: i < j < |calls| ==> !(calls[j].Set? && calls[j].setting == setting)
    ensures i < |calls| && calls[i].Set? && calls[i].setting == setting ==> LastSet(calls, setting) == calls[i].value
    ensures (forall j :: 0 <= j < |calls| ==> !(calls[j].Set? && calls[j].setting == setting)) ==>
      LastSet(calls, setting) == ""
  {
    if calls != [] {
      var n := |calls| - 1;
      SettingIsLast(calls[..n], setting, if i < n then i else n);
    }
  }

  /** The condition on groups is that of the last call. */
  lemma {:induction false} HavingIsLast(calls: seq<Call>, i: nat)
    requires i <= |calls| && forall j :: i < j < |calls| ==> !calls[j].Having?
    ensures i < |calls| && calls[i].Having? ==>
      LastHaving(calls) == Some(Clause(Text(calls[i].condition), calls[i].args))
    ensures (forall j :: 0 <= j < |calls| ==> !calls[j].Having?) ==> LastHaving(calls) == None
  {
    if calls != [] {
      var n := |calls| - 1;
      HavingIsLast(calls[..n], if i < n then i else n);
    }
  }

  /** Orders keep the order of their calls; one that reorders drops all before it. */
  lemma {:induction false} OrdersSince(a: seq<Call>, b: seq<Call>)
    ensures Orders(a + b)
      == (if exists k :: 0 <= k < |b| && b[k].Order? && b[k].reorder then [] else Orders(a)) + Orders(b)
  {
    if b == [] {
      assert a + b == a;
    } else {
      var n := |b| - 1;
      assert (a + b)[..|a + b| - 1] == a + b[..n];
      OrdersSince(a, b[..n]);
    }
  }

  lemma OrdersOfOne(c: Call)
    ensures Orders([]) == [] && Orders([c]) == if c.Order? then [c.value] else []
  {
    assert [c][..0] == [];
  }

  /** Without dollar signs in what calls set or order by there are none in what they leave. */
  lemma {:induction false} SettingsFree(calls: seq<Call>, setting: Setting)
    requires forall i :: 0 <= i < |calls| && (calls[i].Order? || calls[i].Set?) ==> '$' !in calls[i].value
    ensures '$' !in LastSet(calls, setting)
    ensures forall i :: 0 <= i < |Orders(calls)| ==> '$' !in Orders(calls)[i]
  {
    if calls != [] {
      SettingsFree(calls[..|calls| - 1], setting);
      var c := calls[|calls| - 1];
      assert c.Order? || c.Set? ==> '$' !in c.value;
    }
  }
}
