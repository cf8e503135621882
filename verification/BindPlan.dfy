/** Statements generated for one record: which columns they set, which row they check, and which
    argument each placeholder takes. */
module BindPlan {
  import opened Options

  datatype Value = Null | Int(n: int) | Text(s: string)

  /** Numbers are never empty; a nil pointer and an empty text are. */
  predicate Empty(v: Value) { v == Null || v == Text("") }

  /** A record by field, and a row by column. */
  type Fields = map<string, Value>
  type Row = map<string, Value>

  /** A field that the record does not have reads as empty. */
  function Get(e: Fields, f: string): Value { if f in e then e[f] else Null }

  datatype Column = Column(
    field: string, name: string, autoIncr: bool, transient: bool, addNow: bool, updateNow: bool)

  /** `keys` and `version` point into the columns. */
  datatype TableMap = TableMap(columns: seq<Column>, keys: seq<nat>, version: Option<nat>) {

    /** A table without keys is refused before any plan is made. */
    predicate Valid() {
      && keys != [] && (forall i :: 0 <= i < |keys| ==> keys[i] < |columns|)
      && (version.Some? ==> version.value < |columns| && version.value !in keys)
      && (forall i, j :: 0 <= i < j < |columns| ==>
            columns[i].name != columns[j].name && columns[i].field != columns[j].field)
    }

    /** The record is of the mapped type: it has the keys, and the version is a number. */
    predicate Typed(e: Fields)
      requires Valid()
    {
      && (forall i :: 0 <= i < |keys| ==> columns[keys[i]].field in e)
      && (version.Some? ==> Get(e, columns[version.value].field).Int?)
    }

    predicate IsVersion(y: nat) { version == Some(y) }
  }

  /** A placeholder, the database's clock, or a value that the database generates. */
  datatype Rhs = Bind(number: nat) | Now | Auto
  datatype Assign = Assign(column: string, rhs: Rhs)

  /** UPDATE ... SET `sets` WHERE `conds`. */
  datatype Update = Update(sets: seq<Assign>, conds: seq<Assign>)

  /** An argument is the next version, or a field of the record. */
  datatype Arg = NewVersion | Field(name: string)

  datatype Plan = Plan(query: Update, argFields: seq<Arg>, keyFields: seq<string>, versField: Option<string>)

  // ----- positional placeholders ----------------------------------------------------------

  /** The placeholders among the items, by number, from left to right. */
  function Numbers(items: seq<Assign>): seq<nat> {
    if items == [] then []
    else
      var last := items[|items| - 1];
      Numbers(items[..|items| - 1]) + (if last.rhs.Bind? then [last.rhs.number] else [])
  }

  function RhsValue(rhs: Rhs, args: seq<Value>, k: nat, now: Value): Value
    requires rhs.Bind? ==> k < |args|
  {
    match rhs
    case Bind(_) => args[k]
    case Now => now
    case Auto => Null
  }

  /** The items with their values, when the i-th placeholder takes the i-th argument. */
  function Resolve(items: seq<Assign>, args: seq<Value>, now: Value): (r: seq<(string, Value)>)
    requires |Numbers(items)| <= |args|
    ensures |r| == |items|
  {
    if items == [] then []
    else
      var n := |items| - 1;
      Resolve(items[..n], args, now) + [(items[n].column, RhsValue(items[n].rhs, args, |Numbers(items[..n])|, now))]
  }

  function AssignAll(pairs: seq<(string, Value)>, row: Row): Row {
    if pairs == [] then row
    else
      var n := |pairs| - 1;
      AssignAll(pairs[..n], row)[pairs[n].0 := pairs[n].1]
  }

  /** SQL equality: nothing equals NULL. */
  predicate Equals(row: Row, column: string, v: Value) { column in row && row[column] == v && v != Null }

  predicate Meets(pairs: seq<(string, Value)>, row: Row) {
    forall i :: 0 <= i < |pairs| ==> Equals(row, pairs[i].0, pairs[i].1)
  }

  predicate Runnable(q: Update, args: seq<Value>) {
    |Numbers(q.sets)| + |Numbers(q.conds)| == |args|
  }

  /** What executing the statement does to one row. */
  function Execute(q: Update, args: seq<Value>, now: Value, row: Row): Row
    requires Runnable(q, args)
  {
    if Selects(q, args, now, row) then AssignAll(Resolve(q.sets, args, now), row) else row
  }

  predicate Selects(q: Update, args: seq<Value>, now: Value, row: Row)
    requires Runnable(q, args)
  {
    Meets(Resolve(q.conds, args[|Numbers(q.sets)|..], now), row)
  }

  // ----- the plan of an update ----------------------------------------------------------------

  /** The columns that an update of this record sets. */
  predicate Included(t: TableMap, e: Fields, y: nat)
    requires y < |t.columns|
  {
    var c := t.columns[y];
    !c.autoIncr && !c.transient && !Empty(Get(e, c.field))
  }

  /** Some column is set; without any, the statement has nothing between SET and WHERE. */
  predicate SetsSomething(t: TableMap, e: Fields) {
    exists y :: 0 <= y < |t.columns| && Included(t, e, y)
  }

  /** The SET items for the first `y` columns; the number of a placeholder is that of its item. */
  function SetItems(t: TableMap, e: Fields, y: nat): seq<Assign>
    requires y <= |t.columns|
  {
    if y == 0 then []
    else
      var before := SetItems(t, e, y - 1);
      var c := t.columns[y - 1];
      if !Included(t, e, y - 1) then before
      else before + [Assign(c.name, if c.updateNow then Now else Bind(|before|))]
  }

  function SetArgs(t: TableMap, e: Fields, y: nat): seq<Arg>
    requires y <= |t.columns|
  {
    if y == 0 then []
    else
      var before := SetArgs(t, e, y - 1);
      var c := t.columns[y - 1];
      if !Included(t, e, y - 1) || c.updateNow then before
      else before + [if t.IsVersion(y - 1) then NewVersion else Field(c.field)]
  }

  /** The version column takes part in an update that sets it from an argument. */
  predicate Versioned(t: TableMap, e: Fields, y: nat)
    requires y <= |t.columns|
  {
    t.version.Some? && t.version.value < y && Included(t, e, t.version.value) && !t.columns[t.version.value].updateNow
  }

  function KeyItems(t: TableMap, x: nat, k: nat): seq<Assign>
    requires t.Valid() && k <= |t.keys|
  {
    seq(k, i requires 0 <= i < k => Assign(t.columns[t.keys[i]].name, Bind(x + i)))
  }

  function KeyFields(t: TableMap, k: nat): seq<string>
    requires t.Valid() && k <= |t.keys|
  {
    seq(k, i requires 0 <= i < k => t.columns[t.keys[i]].field)
  }

  function KeyArgs(t: TableMap, k: nat): seq<Arg>
    requires t.Valid() && k <= |t.keys|
  {
    seq(k, i requires 0 <= i < k => Field(t.columns[t.keys[i]].field))
  }

  function UpdatePlan(t: TableMap, e: Fields): Plan
    requires t.Valid()
  {
    var n, k := |t.columns|, |t.keys|;
    var sets := SetItems(t, e, n);
    var keys := KeyItems(t, |sets|, k);
    if Versioned(t, e, n) then
      var c := t.columns[t.version.value];
      Plan(Update(sets, keys + [Assign(c.name, Bind(|sets| + k))]),
           SetArgs(t, e, n) + KeyArgs(t, k) + [Field(c.field)], KeyFields(t, k), Some(c.field))
    else
      Plan(Update(sets, keys), SetArgs(t, e, n) + KeyArgs(t, k), KeyFields(t, k), None)
  }

  method BindUpdate(t: TableMap, e: Fields) returns (plan: Plan)
    requires t.Valid()
    ensures plan == UpdatePlan(t, e)
  {
    hide Numbers;
    var sets: seq<Assign>, conds: seq<Assign> := [], [];
    var argFields: seq<Arg>, keyFields: seq<string> := [], [];
    var versField: Option<string> := None;
    var x := 0;
    for y := 0 to |t.columns|
      invariant x == |sets|
      invariant sets == SetItems(t, e, y) && argFields == SetArgs(t, e, y)
      invariant versField == if Versioned(t, e, y) then Some(t.columns[t.version.value].field) else None
    {
      var col := t.columns[y];
      if !col.autoIncr && !col.transient {
        if Empty(Get(e, col.field)) {
          continue;
        }
        if col.updateNow {
          sets := sets + [Assign(col.name, Now)];
        } else {
          sets := sets + [Assign(col.name, Bind(x))];
          if t.IsVersion(y) {
            versField := Some(col.field);
            argFields := argFields + [NewVersion];
          } else {
            argFields := argFields + [Field(col.field)];
          }
        }
        x := x + 1;
      }
    }
    for y := 0 to |t.keys|
      invariant x == |sets| + y
      invariant conds == KeyItems(t, |sets|, y) && keyFields == KeyFields(t, y)
      invariant argFields == SetArgs(t, e, |t.columns|) + KeyArgs(t, y)
    {
      var col := t.columns[t.keys[y]];
      conds := conds + [Assign(col.name, Bind(x))];
      argFields := argFields + [Field(col.field)];
      keyFields := keyFields + [col.field];
      x := x + 1;
    }
    if versField.Some? {
      conds := conds + [Assign(t.columns[t.version.value].name, Bind(x))];
      argFields := argFields + [Field(versField.value)];
    }
    plan := Plan(Update(sets, conds), argFields, keyFields, versField);
  }

  // ----- the numbered dialects -------------------------------------------------------------------

  function Iota(n: nat): seq<nat> { seq(n, i => i) }

  lemma {:induction false} SetNumbers(t: TableMap, e: Fields, y: nat)
    requires y <= |t.columns|
    ensures |Numbers(SetItems(t, e, y))| == |SetArgs(t, e, y)| <= |SetItems(t, e, y)|
    ensures |SetArgs(t, e, y)| == |SetItems(t, e, y)| ==> Numbers(SetItems(t, e, y)) == Iota(|SetItems(t, e, y)|)
    ensures |SetArgs(t, e, y)| == |SetItems(t, e, y)|
      <==> forall i :: 0 <= i < y && Included(t, e, i) ==> !t.columns[i].updateNow
  {
    hide Included, Numbers;
    if y == 0 {
      NumbersNone();
    } else {
      SetNumbers(t, e, y - 1);
      if Included(t, e, y - 1) {
        var before, items := SetItems(t, e, y - 1), SetItems(t, e, y);
        NumbersLast(before, items[|items| - 1]);
      }
    }
  }

  lemma NumbersNone()
    ensures Numbers([]) == []
  {
  }

  lemma NumbersLast(items: seq<Assign>, a: Assign)
    ensures Numbers(items + [a]) == Numbers(items) + (if a.rhs.Bind? then [a.rhs.number] else [])
  {
    assert (items + [a])[..|items|] == items;
  }

  lemma {:induction false} NumbersOfBinds(items: seq<Assign>, x: nat)
    requires forall i :: 0 <= i < |items| ==> items[i].rhs == Bind(x + i)
    ensures Numbers(items) == seq(|items|, i requires 0 <= i => x + i)
  {
    if items != [] {
      NumbersOfBinds(items[..|items| - 1], x);
    }
  }

  /** A dialect with numbered placeholders sends every argument where `?` would, exactly when no
      column that the statement sets is stamped by the database on update. */
  lemma NumbersAgree(t: TableMap, e: Fields)
    requires t.Valid()
    ensures var q := UpdatePlan(t, e).query;
      Numbers(q.sets) + Numbers(q.conds) == Iota(|UpdatePlan(t, e).argFields|)
      <==> forall y :: 0 <= y < |t.columns| && Included(t, e, y) ==> !t.columns[y].updateNow
  {
    hide Included, SetItems, SetArgs, Numbers, Versioned;
    var q := UpdatePlan(t, e).query;
    SetNumbers(t, e, |t.columns|);
    NumbersOfBinds(q.conds, |q.sets|);
    CountsUp(Numbers(q.sets), |q.sets|, |q.conds|);
  }

  lemma NoArg(t: TableMap, e: Fields, y: nat)
    requires y < |t.columns| && (!Included(t, e, y) || t.columns[y].updateNow)
    ensures SetArgs(t, e, y + 1) == SetArgs(t, e, y)
  {
  }

  lemma StampedPlan(t: TableMap, e: Fields)
    requires t.Valid() && |t.columns| == 2 && t.keys == [0] && t.version.None?
    requires !Included(t, e, 0) && Included(t, e, 1) && t.columns[1].updateNow
    ensures var plan := UpdatePlan(t, e);
      && plan.query == Update([Assign(t.columns[1].name, Now)], [Assign(t.columns[0].name, Bind(1))])
      && plan.argFields == [Field(t.columns[0].field)]
  {
    hide Included;
    NoArg(t, e, 0);
    NoArg(t, e, 1);
    assert SetItems(t, e, 1) == [] && SetArgs(t, e, 0) == [];
    assert SetItems(t, e, 2) == [Assign(t.columns[1].name, Now)];
  }

  /** A generated key and a stamped column. */
  function StampedTable(): TableMap {
    TableMap([Column("Id", "id", true, false, false, false), Column("At", "at", false, false, false, true)], [0], None)
  }

  function StampedRecord(): Fields { map["Id" := Int(7), "At" := Text("now")] }

  lemma StampedIncludes()
    ensures var t, e := StampedTable(), StampedRecord();
      && |t.columns| == 2 && t.keys == [0] && t.version.None?
      && t.Valid() && t.Typed(e) && !Included(t, e, 0) && Included(t, e, 1)
  {
    assert "Id"[0] != "At"[0] && "id"[0] != "at"[0];
    assert "now"[0] == 'n';
  }

  lemma TwoNumbers(a: Assign, b: Assign)
    requires !a.rhs.Bind? && b.rhs.Bind?
    ensures Numbers([a]) + Numbers([b]) == [b.rhs.number]
  {
    hide Numbers;
    NumbersNone();
    NumbersLast([], a);
    NumbersLast([], b);
    assert [] + [a] == [a] && [] + [b] == [b];
  }

  /** With these the only argument, the key, is numbered 1 instead of 0. */
  lemma StampedIsMisnumbered()
    ensures StampedTable().Valid() && StampedTable().Typed(StampedRecord())
    ensures var plan := UpdatePlan(StampedTable(), StampedRecord());
      plan.argFields == [Field("Id")] && Numbers(plan.query.sets) + Numbers(plan.query.conds) == [1]
  {
    hide UpdatePlan, Numbers, Included, TableMap.Valid, TableMap.Typed, StampedRecord;
    StampedIncludes();
    StampedPlan(StampedTable(), StampedRecord());
    TwoNumbers(Assign("at", Now), Assign("id", Bind(1)));
  }

  /** Counting from `x` goes on from some numbers exactly when these are the numbers below `x`. */
  lemma CountsUp(numbers: seq<nat>, x: nat, k: nat)
    requires |numbers| <= x && k > 0
    requires |numbers| == x ==> numbers == Iota(x)
    ensures numbers + seq(k, i requires 0 <= i => x + i) == Iota(|numbers| + k) <==> |numbers| == x
  {
    var all := numbers + seq(k, i requires 0 <= i => x + i);
    assert all[|numbers|] == x;
  }

  // ----- the arguments --------------------------------------------------------------------------

  datatype Instance = Instance(
    query: Update, args: seq<Value>, keys: seq<Value>, existingVersion: int, versField: Option<string>)

  /** The plan reads fields that the record has. */
  predicate Reads(plan: Plan, e: Fields) {
    && (plan.versField.Some? ==> plan.versField.value in e && e[plan.versField.value].Int?)
    && (NewVersion in plan.argFields ==> plan.versField.Some?)
    && (forall i :: 0 <= i < |plan.argFields| && plan.argFields[i].Field? ==> plan.argFields[i].name in e)
    && (forall i :: 0 <= i < |plan.keyFields| ==> plan.keyFields[i] in e)
  }

  function ExistingVersion(plan: Plan, e: Fields): int
    requires Reads(plan, e)
  {
    if plan.versField.Some? then e[plan.versField.value].n else 0
  }

  /** The record once the first `i` arguments are bound: binding the next version of a record at
      version 0 moves the record itself to version 1. */
  function FieldsAfter(plan: Plan, e: Fields, i: nat): (f: Fields)
    requires Reads(plan, e) && i <= |plan.argFields|
    ensures f.Keys == e.Keys
  {
    if NewVersion in plan.argFields[..i] && ExistingVersion(plan, e) == 0 then e[plan.versField.value := Int(1)] else e
  }

  function ArgAt(plan: Plan, e: Fields, i: nat): Value
    requires Reads(plan, e) && i < |plan.argFields|
  {
    match plan.argFields[i]
    case NewVersion => Int(ExistingVersion(plan, e) + 1)
    case Field(f) => FieldsAfter(plan, e, i)[f]
  }

  function InstanceOf(plan: Plan, e: Fields): Instance
    requires Reads(plan, e)
  {
    var n := |plan.argFields|;
    Instance(
      plan.query,
      seq(n, i requires 0 <= i < n => ArgAt(plan, e, i)),
      seq(|plan.keyFields|, i requires 0 <= i < |plan.keyFields| => FieldsAfter(plan, e, n)[plan.keyFields[i]]),
      ExistingVersion(plan, e), plan.versField)
  }

  /** A struct that a caller passes by pointer. */
  class Record {
    var fields: Fields

    constructor (fields: Fields)
      ensures this.fields == fields
    {
      this.fields := fields;
    }
  }

  method CreateBindInstance(plan: Plan, elem: Record) returns (bi: Instance)
    requires Reads(plan, elem.fields)
    modifies elem
    ensures bi == InstanceOf(plan, old(elem.fields))
    ensures elem.fields == FieldsAfter(plan, old(elem.fields), |plan.argFields|)
  {
    ghost var e := elem.fields;
    var existing := if plan.versField.Some? then elem.fields[plan.versField.value].n else 0;
    var args: seq<Value>, keys: seq<Value> := [], [];
    for i := 0 to |plan.argFields|
      invariant elem.fields == FieldsAfter(plan, e, i)
      invariant args == seq(i, j requires 0 <= j < i => ArgAt(plan, e, j))
    {
      assert plan.argFields[..i + 1] == plan.argFields[..i] + [plan.argFields[i]];
      match plan.argFields[i] {
        case NewVersion =>
          var newVer := existing + 1;
          args := args + [Int(newVer)];
          if existing == 0 {
            elem.fields := elem.fields[plan.versField.value := Int(newVer)];
          }
        case Field(k) =>
          args := args + [elem.fields[k]];
      }
    }
    ghost var after := elem.fields;
    assert plan.argFields[..|plan.argFields|] == plan.argFields;
    for i := 0 to |plan.keyFields|
      invariant elem.fields == after
      invariant keys == seq(i, j requires 0 <= j < i => after[plan.keyFields[j]])
    {
      keys := keys + [elem.fields[plan.keyFields[i]]];
    }
    bi := Instance(plan.query, args, keys, existing, plan.versField);
  }

  // ----- what an update means --------------------------------------------------------------------

  /** The version that an update checks the row for: 1 for a record at version 0. */
  function Checked(v: int): int { if v == 0 then 1 else v }

  function VersionOf(t: TableMap, e: Fields): int {
    if t.version.Some? && t.version.value < |t.columns| && Get(e, t.columns[t.version.value].field).Int?
    then Get(e, t.columns[t.version.value].field).n
    else 0
  }

  function WantedValue(t: TableMap, e: Fields, y: nat, now: Value): Value
    requires y < |t.columns|
  {
    if t.columns[y].updateNow then now
    else if t.IsVersion(y) then Int(VersionOf(t, e) + 1)
    else Get(e, t.columns[y].field)
  }

  predicate HasKeys(t: TableMap, e: Fields, row: Row)
    requires t.Valid()
  {
    forall i :: 0 <= i < |t.keys| ==> Equals(row, t.columns[t.keys[i]].name, Get(e, t.columns[t.keys[i]].field))
  }

  /** The row has the record's keys, and the version to be checked if the update is versioned. */
  predicate Target(t: TableMap, e: Fields, row: Row)
    requires t.Valid()
  {
    && HasKeys(t, e, row)
    && (Versioned(t, e, |t.columns|) ==>
          Equals(row, t.columns[t.version.value].name, Int(Checked(VersionOf(t, e)))))
  }

  function Wanted(t: TableMap, e: Fields, y: nat, now: Value): seq<(string, Value)>
    requires y <= |t.columns|
  {
    if y == 0 then []
    else
      var before := Wanted(t, e, y - 1, now);
      if !Included(t, e, y - 1) then before else before + [(t.columns[y - 1].name, WantedValue(t, e, y - 1, now))]
  }

  /** The value that an argument stands for. */
  function ValueOf(t: TableMap, e: Fields, a: Arg): Value
    requires t.Valid()
  {
    match a
    case NewVersion => Int(VersionOf(t, e) + 1)
    case Field(f) =>
      if t.version.Some? && f == t.columns[t.version.value].field then Int(Checked(VersionOf(t, e))) else Get(e, f)
  }

  /** An argument that can be read before and after the version moves. */
  predicate SoundArg(t: TableMap, e: Fields, a: Arg) {
    match a
    case NewVersion => t.version.Some?
    case Field(f) => f in e && (t.version.Some? && t.version.value < |t.columns| ==>
      f != t.columns[t.version.value].field)
  }

  lemma {:induction false} SetArgsSound(t: TableMap, e: Fields, y: nat)
    requires t.Valid() && t.Typed(e) && y <= |t.columns|
    ensures forall i :: 0 <= i < |SetArgs(t, e, y)| ==> SoundArg(t, e, SetArgs(t, e, y)[i])
    ensures NewVersion in SetArgs(t, e, y) <==> Versioned(t, e, y)
  {
    if y != 0 {
      SetArgsSound(t, e, y - 1);
    }
  }

  lemma PlanReads(t: TableMap, e: Fields)
    requires t.Valid() && t.Typed(e)
    ensures Reads(UpdatePlan(t, e), e)
  {
    SetArgsSound(t, e, |t.columns|);
  }

  lemma ArgsMean(t: TableMap, e: Fields, i: nat)
    requires t.Valid() && t.Typed(e) && i < |UpdatePlan(t, e).argFields|
    ensures Reads(UpdatePlan(t, e), e)
    ensures ArgAt(UpdatePlan(t, e), e, i) == ValueOf(t, e, UpdatePlan(t, e).argFields[i])
  {
    PlanReads(t, e);
    SetArgsSound(t, e, |t.columns|);
    var plan := UpdatePlan(t, e);
    var m := |SetArgs(t, e, |t.columns|)|;
    if i < m {
      assert plan.argFields[i] == SetArgs(t, e, |t.columns|)[i];
    } else if i == m + |t.keys| {
      assert plan.argFields[..m] == SetArgs(t, e, |t.columns|);
      assert plan.argFields[..m] <= plan.argFields[..i];
    }
  }

  /** The arguments begin with the values of these. */
  predicate Supplies(t: TableMap, e: Fields, wanted: seq<Arg>, args: seq<Value>)
    requires t.Valid()
  {
    |wanted| <= |args| && forall i :: 0 <= i < |wanted| ==> args[i] == ValueOf(t, e, wanted[i])
  }

  lemma AssignNone()
    ensures forall row :: AssignAll([], row) == row
  {
  }

  lemma AssignLast(pairs: seq<(string, Value)>, column: string, v: Value, row: Row)
    ensures AssignAll(pairs + [(column, v)], row) == AssignAll(pairs, row)[column := v]
  {
    assert (pairs + [(column, v)])[..|pairs|] == pairs;
  }

  lemma ResolveNone(args: seq<Value>, now: Value)
    ensures Numbers([]) == [] && Resolve([], args, now) == []
  {
  }

  lemma ResolveLast(items: seq<Assign>, a: Assign, args: seq<Value>, now: Value)
    requires |Numbers(items + [a])| <= |args|
    ensures |Numbers(items + [a])| == |Numbers(items)| + (if a.rhs.Bind? then 1 else 0)
    ensures Resolve(items + [a], args, now)
      == Resolve(items, args, now) + [(a.column, RhsValue(a.rhs, args, |Numbers(items)|, now))]
  {
    assert (items + [a])[..|items|] == items;
  }

  /** The value of one more SET item. */
  lemma SetValue(t: TableMap, e: Fields, y: nat, args: seq<Value>, now: Value)
    requires t.Valid() && y < |t.columns| && Included(t, e, y)
    requires Supplies(t, e, SetArgs(t, e, y + 1), args)
    ensures var items, k := SetItems(t, e, y + 1), |SetArgs(t, e, y)|;
      && items == SetItems(t, e, y) + [items[|items| - 1]]
      && (items[|items| - 1].rhs.Bind? ==> k < |args|)
      && (items[|items| - 1].column, RhsValue(items[|items| - 1].rhs, args, k, now))
         == (t.columns[y].name, WantedValue(t, e, y, now))
  {
    hide Included, Get, Checked, VersionOf;
    if !t.columns[y].updateNow {
      assert SetArgs(t, e, y + 1)[|SetArgs(t, e, y)|]
        == if t.IsVersion(y) then NewVersion else Field(t.columns[y].field);
    }
  }

  lemma {:induction false} SetsResolve(t: TableMap, e: Fields, y: nat, args: seq<Value>, now: Value)
    requires t.Valid() && y <= |t.columns|
    requires Supplies(t, e, SetArgs(t, e, y), args)
    ensures |Numbers(SetItems(t, e, y))| <= |args|
    ensures Resolve(SetItems(t, e, y), args, now) == Wanted(t, e, y, now)
  {
    hide Numbers, Resolve, Get, Checked, VersionOf, Included, RhsValue, WantedValue, ValueOf;
    SetNumbers(t, e, y);
    if y == 0 {
      ResolveNone(args, now);
    } else {
      var items := SetItems(t, e, y);
      SetNumbers(t, e, y - 1);
      assert SetArgs(t, e, y - 1) <= SetArgs(t, e, y);
      SetsResolve(t, e, y - 1, args, now);
      if Included(t, e, y - 1) {
        SetValue(t, e, y - 1, args, now);
        ResolveLast(SetItems(t, e, y - 1), items[|items| - 1], args, now);
      }
    }
  }

  lemma {:induction false} BindsResolve(items: seq<Assign>, args: seq<Value>, now: Value)
    requires forall i :: 0 <= i < |items| ==> items[i].rhs.Bind?
    requires |items| <= |args|
    ensures |Numbers(items)| == |items|
    ensures Resolve(items, args, now) == seq(|items|, i requires 0 <= i < |items| => (items[i].column, args[i]))
  {
    if items != [] {
      BindsResolve(items[..|items| - 1], args, now);
    }
  }

  lemma {:induction false} AssignedValues(t: TableMap, e: Fields, y: nat, now: Value, row: Row)
    requires t.Valid() && y <= |t.columns|
    ensures var r := AssignAll(Wanted(t, e, y, now), row);
      && (forall i :: 0 <= i < y && Included(t, e, i) ==>
            t.columns[i].name in r && r[t.columns[i].name] == WantedValue(t, e, i, now))
      && (forall c :: SetsNot(t, e, y, c) ==> (c in r <==> c in row) && (c in row ==> r[c] == row[c]))
  {
    hide Included, WantedValue, AssignAll, SetsNot;
    if y == 0 {
      AssignNone();
    } else {
      AssignedValues(t, e, y - 1, now, row);
      forall c {
        SetsNotNext(t, e, y, c);
      }
      if Included(t, e, y - 1) {
        AssignLast(Wanted(t, e, y - 1, now), t.columns[y - 1].name, WantedValue(t, e, y - 1, now), row);
      }
    }
  }

  lemma SetsNotNext(t: TableMap, e: Fields, y: nat, name: string)
    requires 0 < y <= |t.columns|
    ensures SetsNot(t, e, y, name)
      <==> SetsNot(t, e, y - 1, name) && (Included(t, e, y - 1) ==> t.columns[y - 1].name != name)
  {
    hide Included;
  }

  /** None of the first `y` columns that the update sets has this name. */
  predicate SetsNot(t: TableMap, e: Fields, y: nat, name: string)
    requires y <= |t.columns|
  {
    forall i :: 0 <= i < y && Included(t, e, i) ==> t.columns[i].name != name
  }

  /** What the arguments of the plan stand for, one after the other. */
  lemma ArgFields(t: TableMap, e: Fields)
    requires t.Valid()
    ensures var fields, m, k := UpdatePlan(t, e).argFields, |SetArgs(t, e, |t.columns|)|, |t.keys|;
      && |fields| == m + k + (if Versioned(t, e, |t.columns|) then 1 else 0)
      && fields[..m] == SetArgs(t, e, |t.columns|)
      && (forall i :: 0 <= i < k ==> fields[m + i] == Field(t.columns[t.keys[i]].field))
      && (Versioned(t, e, |t.columns|) ==> fields[m + k] == Field(t.columns[t.version.value].field))
  {
    hide SetItems, SetArgs, Included;
  }

  lemma ArgsStandFor(t: TableMap, e: Fields)
    requires t.Valid() && t.Typed(e)
    ensures Reads(UpdatePlan(t, e), e)
    ensures var fields, args := UpdatePlan(t, e).argFields, InstanceOf(UpdatePlan(t, e), e).args;
      |args| == |fields| && Supplies(t, e, fields, args)
  {
    PlanReads(t, e);
    hide UpdatePlan, ArgAt, Reads, ValueOf, FieldsAfter;
    forall i | 0 <= i < |UpdatePlan(t, e).argFields|
      ensures InstanceOf(UpdatePlan(t, e), e).args[i] == ValueOf(t, e, UpdatePlan(t, e).argFields[i])
    {
      ArgsMean(t, e, i);
    }
  }

  lemma KeyValue(t: TableMap, e: Fields, i: nat)
    requires t.Valid() && i < |t.keys|
    ensures ValueOf(t, e, Field(t.columns[t.keys[i]].field)) == Get(e, t.columns[t.keys[i]].field)
  {
  }

  /** The arguments of an update: those of its SET items, the keys, the checked version. */
  lemma ArgsOfUpdate(t: TableMap, e: Fields)
    requires t.Valid() && t.Typed(e)
    ensures Reads(UpdatePlan(t, e), e)
    ensures var args, m := InstanceOf(UpdatePlan(t, e), e).args, |SetArgs(t, e, |t.columns|)|;
      && |args| == m + |t.keys| + (if Versioned(t, e, |t.columns|) then 1 else 0)
      && Supplies(t, e, SetArgs(t, e, |t.columns|), args)
      && (forall i :: 0 <= i < |t.keys| ==> args[m + i] == Get(e, t.columns[t.keys[i]].field))
      && (Versioned(t, e, |t.columns|) ==> args[m + |t.keys|] == Int(Checked(VersionOf(t, e))))
  {
    hide UpdatePlan, InstanceOf, SetArgs, Reads, Get, Checked, VersionOf, Included, Versioned;
    ArgsStandFor(t, e);
    ArgFields(t, e);
    var args, m := InstanceOf(UpdatePlan(t, e), e).args, |SetArgs(t, e, |t.columns|)|;
    SuppliesFront(t, e, UpdatePlan(t, e).argFields, m, args);
    hide ValueOf;
    forall i | 0 <= i < |t.keys|
      ensures args[m + i] == Get(e, t.columns[t.keys[i]].field)
    {
      KeyValue(t, e, i);
    }
    VersionValue(t, e);
  }

  lemma SuppliesFront(t: TableMap, e: Fields, fields: seq<Arg>, m: nat, args: seq<Value>)
    requires t.Valid() && m <= |fields| && Supplies(t, e, fields, args)
    ensures Supplies(t, e, fields[..m], args)
  {
    hide ValueOf;
  }

  lemma VersionValue(t: TableMap, e: Fields)
    requires t.Valid()
    ensures Versioned(t, e, |t.columns|) ==>
      ValueOf(t, e, Field(t.columns[t.version.value].field)) == Int(Checked(VersionOf(t, e)))
  {
    hide Included;
  }

  /** The WHERE items select exactly the target. */
  lemma CondsMean(t: TableMap, e: Fields, args: seq<Value>, now: Value, row: Row)
    requires t.Valid()
    requires |args| == |UpdatePlan(t, e).query.conds|
    requires forall i :: 0 <= i < |t.keys| ==> args[i] == Get(e, t.columns[t.keys[i]].field)
    requires Versioned(t, e, |t.columns|) ==> args[|t.keys|] == Int(Checked(VersionOf(t, e)))
    ensures var conds := UpdatePlan(t, e).query.conds;
      |Numbers(conds)| == |conds| && (Meets(Resolve(conds, args, now), row) <==> Target(t, e, row))
  {
    hide Included, SetArgs, SetItems, Numbers, Resolve, Equals;
    var conds := UpdatePlan(t, e).query.conds;
    BindsResolve(conds, args, now);
    var pairs := Resolve(conds, args, now);
    forall i | 0 <= i < |t.keys|
      ensures Equals(row, pairs[i].0, pairs[i].1)
        <==> Equals(row, t.columns[t.keys[i]].name, Get(e, t.columns[t.keys[i]].field))
    {
      assert pairs[i] == (conds[i].column, args[i]);
    }
    if Versioned(t, e, |t.columns|) {
      assert pairs[|t.keys|] == (conds[|t.keys|].column, args[|t.keys|]);
    }
  }

  lemma {:induction false} NoSetItems(t: TableMap, e: Fields, y: nat)
    requires y <= |t.columns|
    ensures SetItems(t, e, y) == [] <==> forall i :: 0 <= i < y ==> !Included(t, e, i)
  {
    hide Included;
    if y > 0 {
      NoSetItems(t, e, y - 1);
    }
  }

  /** What an update does to any row. */
  function UpdatedRow(t: TableMap, e: Fields, now: Value, row: Row): Row
    requires t.Valid()
  {
    if Target(t, e, row) then AssignAll(Wanted(t, e, |t.columns|, now), row) else row
  }

  /** The statement of an update with its arguments, executed on any row, is the update; it is a
      statement at all, with something to set, exactly when some column of the record is included. */
  lemma UpdateExecutes(t: TableMap, e: Fields, now: Value, row: Row)
    requires t.Valid() && t.Typed(e)
    ensures Reads(UpdatePlan(t, e), e)
    ensures var bi := InstanceOf(UpdatePlan(t, e), e);
      && Runnable(bi.query, bi.args)
      && (Selects(bi.query, bi.args, now, row) <==> Target(t, e, row))
      && Execute(bi.query, bi.args, now, row) == UpdatedRow(t, e, now, row)
      && (bi.query.sets != [] <==> SetsSomething(t, e))
  {
    hide *;
    var n := |t.columns|;
    PlanShape(t, e);
    ArgsOfUpdate(t, e);
    var bi := InstanceOf(UpdatePlan(t, e), e);
    SetNumbers(t, e, n);
    SetsResolve(t, e, n, bi.args, now);
    CondsMean(t, e, bi.args[|SetArgs(t, e, n)|..], now, row);
    ExecuteIs(t, e, bi.query, bi.args, now, row);
    SetsSomethingIs(t, e);
  }

  lemma PlanShape(t: TableMap, e: Fields)
    requires t.Valid() && t.Typed(e)
    ensures Reads(UpdatePlan(t, e), e)
    ensures var q := InstanceOf(UpdatePlan(t, e), e).query;
      && q == UpdatePlan(t, e).query && q.sets == SetItems(t, e, |t.columns|)
      && |q.conds| == |t.keys| + (if Versioned(t, e, |t.columns|) then 1 else 0)
  {
    PlanReads(t, e);
    hide Included, SetArgs, SetItems, Reads;
  }

  lemma ExecuteIs(t: TableMap, e: Fields, q: Update, args: seq<Value>, now: Value, row: Row)
    requires t.Valid() && |Numbers(q.sets)| + |Numbers(q.conds)| == |args|
    requires Resolve(q.sets, args, now) == Wanted(t, e, |t.columns|, now)
    requires Meets(Resolve(q.conds, args[|Numbers(q.sets)|..], now), row) <==> Target(t, e, row)
    ensures Runnable(q, args) && (Selects(q, args, now, row) <==> Target(t, e, row))
    ensures Execute(q, args, now, row) == UpdatedRow(t, e, now, row)
  {
    hide Numbers, Resolve, Meets, Target, Wanted, AssignAll;
  }

  lemma SetsSomethingIs(t: TableMap, e: Fields)
    ensures SetItems(t, e, |t.columns|) != [] <==> SetsSomething(t, e)
  {
    hide Included, SetItems;
    NoSetItems(t, e, |t.columns|);
  }

  /** The columns of a row that an update changes: exactly when the row has the record's keys and
      checked version, the columns that are not empty, transient or auto-increment get the
      record's values, the stamp, or the next version; every other column stays as it is. */
  lemma UpdateMeans(t: TableMap, e: Fields, now: Value, row: Row)
    requires t.Valid()
    ensures var r := UpdatedRow(t, e, now, row);
      && (!Target(t, e, row) ==> r == row)
      && (Target(t, e, row) ==>
            forall y :: 0 <= y < |t.columns| && Included(t, e, y) ==>
              t.columns[y].name in r && r[t.columns[y].name] == WantedValue(t, e, y, now))
      && (forall c :: SetsNot(t, e, |t.columns|, c) ==> (c in r <==> c in row) && (c in row ==> r[c] == row[c]))
  {
    AssignedValues(t, e, |t.columns|, now, row);
  }

  /** The rows that an update is meant for: with the record's keys, none of them NULL, and if the
      version is a column that the update sets from an argument, with the record's version, or 1 for
      a record at version 0. */
  lemma TargetInWords(t: TableMap, e: Fields, row: Row)
    requires t.Valid() && t.Typed(e)
    ensures Target(t, e, row)
      <==> (forall i :: 0 <= i < |t.keys| ==>
              var c := t.columns[t.keys[i]]; c.name in row && row[c.name] == e[c.field] && e[c.field] != Null)
           && (t.version.Some? ==>
                 var c := t.columns[t.version.value];
                 c.autoIncr || c.transient || c.updateNow
                 || (c.name in row && row[c.name] == Int(if e[c.field].n == 0 then 1 else e[c.field].n)))
  {
    hide Numbers, SetItems, SetArgs;
    if t.version.Some? {
      assert Get(e, t.columns[t.version.value].field) == e[t.columns[t.version.value].field];
    }
    forall i | 0 <= i < |t.keys|
      ensures var c := t.columns[t.keys[i]];
        Equals(row, c.name, Get(e, c.field)) <==> c.name in row && row[c.name] == e[c.field] && e[c.field] != Null
    {
    }
  }

  /** The flags and the value that make an update set a column, and the value it gets. */
  lemma SetInWords(t: TableMap, e: Fields, y: nat, now: Value)
    requires t.Valid() && t.Typed(e) && y < |t.columns|
    ensures var c := t.columns[y];
      && (Included(t, e, y) <==>
            !c.autoIncr && !c.transient && c.field in e && e[c.field] != Null && e[c.field] != Text(""))
      && (Included(t, e, y) ==>
            WantedValue(t, e, y, now)
            == if c.updateNow then now else if t.version == Some(y) then Int(e[c.field].n + 1) else e[c.field])
  {
  }

  lemma OtherNames(t: TableMap, e: Fields, y: nat)
    requires t.Valid() && y < |t.columns| && !Included(t, e, y)
    ensures SetsNot(t, e, |t.columns|, t.columns[y].name)
  {
    hide Included;
  }

  lemma ColumnInWords(t: TableMap, e: Fields, y: nat, now: Value, row: Row)
    requires t.Valid() && t.Typed(e) && y < |t.columns| && Target(t, e, row)
    ensures var c, r := t.columns[y], UpdatedRow(t, e, now, row);
      if !c.autoIncr && !c.transient && c.field in e && e[c.field] != Null && e[c.field] != Text("") then
        c.name in r
        && r[c.name]
           == if c.updateNow then now else if t.version == Some(y) then Int(e[c.field].n + 1) else e[c.field]
      else (c.name in r <==> c.name in row) && (c.name in row ==> r[c.name] == row[c.name])
  {
    hide Target, Included, WantedValue, UpdatedRow, SetsNot;
    UpdateMeans(t, e, now, row);
    SetInWords(t, e, y, now);
    if !Included(t, e, y) {
      OtherNames(t, e, y);
    }
  }

  /** What executing the statement of an update with its arguments does to any row, by the flags of
      the columns and the values of the record alone. */
  lemma UpdateInWords(t: TableMap, e: Fields, now: Value, row: Row)
    requires t.Valid() && t.Typed(e)
    ensures Reads(UpdatePlan(t, e), e)
    ensures var bi := InstanceOf(UpdatePlan(t, e), e);
      && Runnable(bi.query, bi.args)
      && var r := Execute(bi.query, bi.args, now, row);
      if (forall i :: 0 <= i < |t.keys| ==>
            var c := t.columns[t.keys[i]]; c.name in row && row[c.name] == e[c.field] && e[c.field] != Null)
         && (t.version.Some? ==>
               var c := t.columns[t.version.value];
               c.autoIncr || c.transient || c.updateNow
               || (c.name in row && row[c.name] == Int(if e[c.field].n == 0 then 1 else e[c.field].n)))
      then
        && (forall y :: 0 <= y < |t.columns| ==>
              var c := t.columns[y];
              if !c.autoIncr && !c.transient && c.field in e && e[c.field] != Null && e[c.field] != Text("") then
                c.name in r
                && r[c.name]
                   == if c.updateNow then now else if t.version == Some(y) then Int(e[c.field].n + 1) else e[c.field]
              else (c.name in r <==> c.name in row) && (c.name in row ==> r[c.name] == row[c.name]))
        && (forall name :: (forall y :: 0 <= y < |t.columns| ==> t.columns[y].name != name) ==>
              (name in r <==> name in row) && (name in row ==> r[name] == row[name]))
      else r == row
  {
    hide Reads, UpdatePlan, InstanceOf, Runnable, Execute, Target, Included, WantedValue, UpdatedRow;
    UpdateExecutes(t, e, now, row);
    UpdateMeans(t, e, now, row);
    TargetInWords(t, e, row);
    if Target(t, e, row) {
      forall y | 0 <= y < |t.columns| {
        ColumnInWords(t, e, y, now, row);
      }
    }
  }
}
