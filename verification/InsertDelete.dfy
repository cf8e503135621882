/** The plans of inserts and deletes. */
module InsertDelete {
  import opened Options
  import opened BindPlan

  // ----- insert -----------------------------------------------------------------------------

  /** An auto-increment column is written if the dialect has a word for it, any other if it is not
      empty or is stamped on insert; transient columns never are. */
  predicate Listed(c: Column, e: Fields, autoWord: bool) {
    && (if c.autoIncr then autoWord else c.addNow || !Empty(Get(e, c.field)))
    && !c.transient
  }

  predicate Stamped(c: Column, e: Fields) { c.addNow && Empty(Get(e, c.field)) }

  function InsertItems(t: TableMap, e: Fields, autoWord: bool, y: nat): seq<Assign>
    requires y <= |t.columns|
  {
    if y == 0 then []
    else
      var before := InsertItems(t, e, autoWord, y - 1);
      var c := t.columns[y - 1];
      if !Listed(c, e, autoWord) then before
      else before + [Assign(c.name, if c.autoIncr then Auto else if Stamped(c, e) then Now
        else Bind(|Numbers(before)|))]
  }

  function InsertArgs(t: TableMap, e: Fields, autoWord: bool, y: nat): seq<Arg>
    requires y <= |t.columns|
  {
    if y == 0 then []
    else
      var before := InsertArgs(t, e, autoWord, y - 1);
      var c := t.columns[y - 1];
      if !Listed(c, e, autoWord) || c.autoIncr || Stamped(c, e) then before
      else before + [if t.IsVersion(y - 1) then NewVersion else Field(c.field)]
  }

  /** The version is inserted from an argument. */
  predicate VersionListed(t: TableMap, e: Fields, autoWord: bool, y: nat)
    requires y <= |t.columns|
  {
    && t.version.Some? && t.version.value < y
    && var c := t.columns[t.version.value]; Listed(c, e, autoWord) && !c.autoIncr && !Stamped(c, e)
  }

  function InsertPlan(t: TableMap, e: Fields, autoWord: bool): Plan
    requires t.Valid()
  {
    var n := |t.columns|;
    Plan(Update(InsertItems(t, e, autoWord, n), []), InsertArgs(t, e, autoWord, n), [],
         if VersionListed(t, e, autoWord, n) then Some(t.columns[t.version.value].field) else None)
  }

  /** The column's generated value would be read back. */
  predicate Generated(c: Column, autoWord: bool) { c.autoIncr && (c.transient ==> !autoWord) }

  /** The column whose generated value is read back, if any: the last auto-increment column. */
  function AutoColumn(t: TableMap, autoWord: bool, y: nat): Option<nat>
    requires y <= |t.columns|
  {
    if y == 0 then None
    else if Generated(t.columns[y - 1], autoWord) then Some(y - 1)
    else AutoColumn(t, autoWord, y - 1)
  }

  /** The generated value that is read back is that of the last auto-increment column, unless the
      column is transient and the dialect has a word for it. */
  lemma {:induction false} AutoColumnIsLast(t: TableMap, autoWord: bool, y: nat)
    requires y <= |t.columns|
    ensures match AutoColumn(t, autoWord, y)
      case Some(x) =>
        && x < y && t.columns[x].autoIncr && !(t.columns[x].transient && autoWord)
        && forall i :: x < i < y ==> !t.columns[i].autoIncr || (t.columns[i].transient && autoWord)
      case None =>
        forall i :: 0 <= i < y ==> !t.columns[i].autoIncr || (t.columns[i].transient && autoWord)
  {
    if y > 0 {
      AutoColumnIsLast(t, autoWord, y - 1);
    }
  }

  /** `autoWord` says whether the dialect writes a word for auto-increment columns. */
  method BindInsert(t: TableMap, e: Fields, autoWord: bool) returns (plan: Plan, autoIncr: Option<nat>)
    requires t.Valid()
    ensures plan == InsertPlan(t, e, autoWord)
    ensures autoIncr == AutoColumn(t, autoWord, |t.columns|)
  {
    hide Numbers, Get, Empty;
    var items: seq<Assign>, argFields: seq<Arg> := [], [];
    NumbersNone();
    var versField: Option<string> := None;
    autoIncr := None;
    var x := 0;
    for y := 0 to |t.columns|
      invariant items == InsertItems(t, e, autoWord, y) && argFields == InsertArgs(t, e, autoWord, y)
      invariant x == |Numbers(items)| && autoIncr == AutoColumn(t, autoWord, y)
      invariant versField == if VersionListed(t, e, autoWord, y) then Some(t.columns[t.version.value].field) else None
    {
      var col := t.columns[y];
      if !col.autoIncr && !col.addNow && Empty(Get(e, col.field)) {
        continue;
      }
      if !(col.autoIncr && !autoWord) {
        if !col.transient {
          if col.autoIncr {
            NumbersLast(items, Assign(col.name, Auto));
            items := items + [Assign(col.name, Auto)];
            autoIncr := Some(y);
          } else if col.addNow && Empty(Get(e, col.field)) {
            NumbersLast(items, Assign(col.name, Now));
            items := items + [Assign(col.name, Now)];
          } else {
            NumbersLast(items, Assign(col.name, Bind(x)));
            items := items + [Assign(col.name, Bind(x))];
            if t.IsVersion(y) {
              versField := Some(col.field);
              argFields := argFields + [NewVersion];
            } else {
              argFields := argFields + [Field(col.field)];
            }
            x := x + 1;
          }
        }
      } else {
        autoIncr := Some(y);
      }
    }
    plan := Plan(Update(items, []), argFields, [], versField);
  }

  /** Every dialect sends every argument of an insert where `?` would. */
  lemma {:induction false} InsertNumbers(t: TableMap, e: Fields, autoWord: bool, y: nat)
    requires y <= |t.columns|
    ensures Numbers(InsertItems(t, e, autoWord, y)) == Iota(|InsertArgs(t, e, autoWord, y)|)
  {
    hide Numbers, Listed, Stamped;
    if y == 0 {
      NumbersNone();
    } else {
      InsertNumbers(t, e, autoWord, y - 1);
      if Listed(t.columns[y - 1], e, autoWord) {
        var before, items := InsertItems(t, e, autoWord, y - 1), InsertItems(t, e, autoWord, y);
        NumbersLast(before, items[|items| - 1]);
      }
    }
  }

  function InsertedValue(t: TableMap, e: Fields, y: nat, now: Value): Value
    requires y < |t.columns|
  {
    var c := t.columns[y];
    if c.autoIncr then Null
    else if Stamped(c, e) then now
    else if t.IsVersion(y) then Int(VersionOf(t, e) + 1)
    else Get(e, c.field)
  }

  lemma {:induction false} InsertArgsSound(t: TableMap, e: Fields, autoWord: bool, y: nat)
    requires t.Valid() && y <= |t.columns|
    ensures forall i :: 0 <= i < |InsertArgs(t, e, autoWord, y)| ==> InsertArgs(t, e, autoWord, y)[i] != NewVersion ==>
      !t.version.Some? || InsertArgs(t, e, autoWord, y)[i] != Field(t.columns[t.version.value].field)
    ensures NewVersion in InsertArgs(t, e, autoWord, y) <==> VersionListed(t, e, autoWord, y)
  {
    if y != 0 {
      InsertArgsSound(t, e, autoWord, y - 1);
    }
  }

  function InsertPairs(t: TableMap, e: Fields, autoWord: bool, y: nat, now: Value): seq<(string, Value)>
    requires y <= |t.columns|
  {
    if y == 0 then []
    else
      var before := InsertPairs(t, e, autoWord, y - 1, now);
      if !Listed(t.columns[y - 1], e, autoWord) then before
      else before + [(t.columns[y - 1].name, InsertedValue(t, e, y - 1, now))]
  }

  /** The value of one more item. */
  lemma ItemValue(t: TableMap, e: Fields, autoWord: bool, y: nat, args: seq<Value>, now: Value)
    requires t.Valid() && y < |t.columns| && Listed(t.columns[y], e, autoWord)
    requires Supplies(t, e, InsertArgs(t, e, autoWord, y + 1), args)
    ensures var items, k := InsertItems(t, e, autoWord, y + 1), |InsertArgs(t, e, autoWord, y)|;
      && items == InsertItems(t, e, autoWord, y) + [items[|items| - 1]]
      && (items[|items| - 1].rhs.Bind? ==> k < |args|)
      && (items[|items| - 1].column, RhsValue(items[|items| - 1].rhs, args, k, now))
         == (t.columns[y].name, InsertedValue(t, e, y, now))
  {
    hide Listed, Stamped, Numbers, Get, Checked, VersionOf;
    if !t.columns[y].autoIncr && !Stamped(t.columns[y], e) {
      assert InsertArgs(t, e, autoWord, y + 1)[|InsertArgs(t, e, autoWord, y)|]
        == if t.IsVersion(y) then NewVersion else Field(t.columns[y].field);
    }
  }

  lemma {:induction false} InsertResolves(t: TableMap, e: Fields, autoWord: bool, y: nat, args: seq<Value>, now: Value)
    requires t.Valid() && y <= |t.columns|
    requires Supplies(t, e, InsertArgs(t, e, autoWord, y), args)
    ensures |Numbers(InsertItems(t, e, autoWord, y))| <= |args|
    ensures Resolve(InsertItems(t, e, autoWord, y), args, now) == InsertPairs(t, e, autoWord, y, now)
  {
    hide Numbers, Resolve, Get, Checked, VersionOf, Listed, Stamped, RhsValue, InsertedValue, ValueOf;
    InsertNumbers(t, e, autoWord, y);
    if y == 0 {
      ResolveNone(args, now);
    } else {
      var items := InsertItems(t, e, autoWord, y);
      InsertNumbers(t, e, autoWord, y - 1);
      assert InsertArgs(t, e, autoWord, y - 1) <= InsertArgs(t, e, autoWord, y);
      InsertResolves(t, e, autoWord, y - 1, args, now);
      if Listed(t.columns[y - 1], e, autoWord) {
        ItemValue(t, e, autoWord, y - 1, args, now);
        ResolveLast(InsertItems(t, e, autoWord, y - 1), items[|items| - 1], args, now);
      }
    }
  }

  predicate ListedAs(t: TableMap, e: Fields, autoWord: bool, i: nat, name: string)
    requires i < |t.columns|
  {
    Listed(t.columns[i], e, autoWord) && t.columns[i].name == name
  }

  /** One of the first `y` columns is listed under the name. */
  predicate IsListed(t: TableMap, e: Fields, autoWord: bool, y: nat, name: string)
    requires y <= |t.columns|
  {
    exists i :: 0 <= i < y && ListedAs(t, e, autoWord, i, name)
  }

  lemma IsListedNext(t: TableMap, e: Fields, autoWord: bool, y: nat, name: string)
    requires 0 < y <= |t.columns|
    ensures IsListed(t, e, autoWord, y, name)
      <==> IsListed(t, e, autoWord, y - 1, name) || ListedAs(t, e, autoWord, y - 1, name)
  {
    hide ListedAs;
  }

  lemma {:induction false} PairsMean(t: TableMap, e: Fields, autoWord: bool, y: nat, now: Value)
    requires t.Valid() && y <= |t.columns|
    ensures var row := AssignAll(InsertPairs(t, e, autoWord, y, now), map[]);
      && (forall i :: 0 <= i < y && Listed(t.columns[i], e, autoWord) ==>
            t.columns[i].name in row && row[t.columns[i].name] == InsertedValue(t, e, i, now))
      && (forall c :: c in row ==> IsListed(t, e, autoWord, y, c))
  {
    hide Listed, InsertedValue, AssignAll, IsListed;
    if y == 0 {
      AssignNone();
    } else {
      PairsMean(t, e, autoWord, y - 1, now);
      var before := InsertPairs(t, e, autoWord, y - 1, now);
      forall c {
        IsListedNext(t, e, autoWord, y, c);
      }
      if Listed(t.columns[y - 1], e, autoWord) {
        AssignLast(before, t.columns[y - 1].name, InsertedValue(t, e, y - 1, now), map[]);
      }
    }
  }

  lemma InsertArgsMean(t: TableMap, e: Fields, autoWord: bool)
    requires t.Valid() && t.Typed(e)
    ensures var plan := InsertPlan(t, e, autoWord);
      Reads(plan, e) && Supplies(t, e, plan.argFields, InstanceOf(plan, e).args)
  {
    InsertArgsSound(t, e, autoWord, |t.columns|);
    InsertReads(t, e, autoWord, |t.columns|);
  }

  lemma {:induction false} InsertReads(t: TableMap, e: Fields, autoWord: bool, y: nat)
    requires t.Valid() && y <= |t.columns|
    ensures forall i :: 0 <= i < |InsertArgs(t, e, autoWord, y)| && InsertArgs(t, e, autoWord, y)[i].Field? ==>
      InsertArgs(t, e, autoWord, y)[i].name in e
  {
    if y != 0 {
      InsertReads(t, e, autoWord, y - 1);
    }
  }

  /** The row that an insert sends: exactly the listed columns, with the record's values, the
      stamp, the next version, or nothing where the database generates the value. */
  lemma InsertMeans(t: TableMap, e: Fields, autoWord: bool, now: Value)
    requires t.Valid() && t.Typed(e)
    ensures var plan := InsertPlan(t, e, autoWord);
      && Reads(plan, e)
      && var bi := InstanceOf(plan, e);
      && |Numbers(bi.query.sets)| == |bi.args|
      && var row := AssignAll(Resolve(bi.query.sets, bi.args, now), map[]);
      && (forall i :: 0 <= i < |t.columns| && Listed(t.columns[i], e, autoWord) ==>
            t.columns[i].name in row && row[t.columns[i].name] == InsertedValue(t, e, i, now))
      && (forall c :: c in row ==> IsListed(t, e, autoWord, |t.columns|, c))
  {
    hide Listed, Numbers, Resolve, AssignAll, InsertArgs, InsertItems, InsertPairs, InsertedValue;
    InsertArgsMean(t, e, autoWord);
    var bi := InstanceOf(InsertPlan(t, e, autoWord), e);
    InsertNumbers(t, e, autoWord, |t.columns|);
    InsertResolves(t, e, autoWord, |t.columns|, bi.args, now);
    PairsMean(t, e, autoWord, |t.columns|, now);
  }

  lemma ListedInWords(t: TableMap, e: Fields, autoWord: bool, y: nat, now: Value)
    requires t.Valid() && t.Typed(e) && y < |t.columns|
    ensures var c := t.columns[y];
      var empty := c.field !in e || e[c.field] == Null || e[c.field] == Text("");
      && (Listed(c, e, autoWord) <==> !c.transient && if c.autoIncr then autoWord else c.addNow || !empty)
      && (Listed(c, e, autoWord) ==>
            InsertedValue(t, e, y, now)
            == if c.autoIncr then Null else if empty then now
               else if t.version == Some(y) then Int(e[c.field].n + 1) else e[c.field])
  {
  }

  lemma OtherListed(t: TableMap, e: Fields, autoWord: bool, y: nat)
    requires t.Valid() && y < |t.columns| && !Listed(t.columns[y], e, autoWord)
    ensures !IsListed(t, e, autoWord, |t.columns|, t.columns[y].name)
  {
    hide Listed;
  }

  /** The row that an insert sends, by the flags of the columns and the values of the record alone. */
  lemma InsertInWords(t: TableMap, e: Fields, autoWord: bool, now: Value)
    requires t.Valid() && t.Typed(e)
    ensures Reads(InsertPlan(t, e, autoWord), e)
    ensures var bi := InstanceOf(InsertPlan(t, e, autoWord), e);
      && |Numbers(bi.query.sets)| == |bi.args|
      && var row := AssignAll(Resolve(bi.query.sets, bi.args, now), map[]);
      && (forall y :: 0 <= y < |t.columns| ==>
            var c := t.columns[y];
            var empty := c.field !in e || e[c.field] == Null || e[c.field] == Text("");
            if c.transient || (if c.autoIncr then !autoWord else !c.addNow && empty) then c.name !in row
            else
              && c.name in row
              && row[c.name]
                 == if c.autoIncr then Null else if empty then now
                    else if t.version == Some(y) then Int(e[c.field].n + 1) else e[c.field])
      && (forall name :: name in row ==> exists y :: 0 <= y < |t.columns| && t.columns[y].name == name)
  {
    hide Reads, InsertPlan, InstanceOf, Numbers, Resolve, AssignAll, Listed, IsListed, InsertedValue, Empty;
    InsertMeans(t, e, autoWord, now);
    forall y | 0 <= y < |t.columns|
      ensures !Listed(t.columns[y], e, autoWord) ==> !IsListed(t, e, autoWord, |t.columns|, t.columns[y].name)
      ensures var c := t.columns[y];
        var empty := c.field !in e || e[c.field] == Null || e[c.field] == Text("");
        && (Listed(c, e, autoWord) <==> !c.transient && if c.autoIncr then autoWord else c.addNow || !empty)
        && (Listed(c, e, autoWord) ==>
              InsertedValue(t, e, y, now)
              == if c.autoIncr then Null else if empty then now
                 else if t.version == Some(y) then Int(e[c.field].n + 1) else e[c.field])
    {
      ListedInWords(t, e, autoWord, y, now);
      if !Listed(t.columns[y], e, autoWord) {
        OtherListed(t, e, autoWord, y);
      }
    }
    forall name | IsListed(t, e, autoWord, |t.columns|, name)
      ensures exists y :: 0 <= y < |t.columns| && t.columns[y].name == name
    {
      ListedNames(t, e, autoWord, name);
    }
  }

  lemma ListedNames(t: TableMap, e: Fields, autoWord: bool, name: string)
    requires IsListed(t, e, autoWord, |t.columns|, name)
    ensures exists y :: 0 <= y < |t.columns| && t.columns[y].name == name
  {
  }

  /** After an insert the record's version is the stored one exactly when it was 0 before. */
  lemma InsertedVersion(t: TableMap, e: Fields, autoWord: bool, now: Value)
    requires t.Valid() && t.Typed(e) && VersionListed(t, e, autoWord, |t.columns|)
    ensures var plan := InsertPlan(t, e, autoWord);
      && Reads(plan, e)
      && var after := FieldsAfter(plan, e, |plan.argFields|);
      VersionOf(t, after) == VersionOf(t, e) + 1 <==> VersionOf(t, e) == 0
    ensures InsertedValue(t, e, t.version.value, now) == Int(VersionOf(t, e) + 1)
  {
    InsertArgsMean(t, e, autoWord);
    InsertArgsSound(t, e, autoWord, |t.columns|);
    var plan := InsertPlan(t, e, autoWord);
    assert plan.argFields[..|plan.argFields|] == plan.argFields;
  }

  // ----- delete -----------------------------------------------------------------------------

  /** The version is checked whenever the table has one that is stored. */
  predicate DeleteVersioned(t: TableMap, y: nat)
    requires y <= |t.columns|
  {
    t.version.Some? && t.version.value < y && !t.columns[t.version.value].transient
  }

  function DeletePlan(t: TableMap): Plan
    requires t.Valid()
  {
    var k := |t.keys|;
    if DeleteVersioned(t, |t.columns|) then
      var c := t.columns[t.version.value];
      Plan(Update([], KeyItems(t, 0, k) + [Assign(c.name, Bind(k))]), KeyArgs(t, k) + [Field(c.field)],
           KeyFields(t, k), Some(c.field))
    else
      Plan(Update([], KeyItems(t, 0, k)), KeyArgs(t, k), KeyFields(t, k), None)
  }

  method BindDelete(t: TableMap) returns (plan: Plan)
    requires t.Valid()
    ensures plan == DeletePlan(t)
  {
    var conds: seq<Assign>, argFields: seq<Arg>, keyFields: seq<string> := [], [], [];
    var versField: Option<string> := None;
    for y := 0 to |t.columns|
      invariant versField == if DeleteVersioned(t, y) then Some(t.columns[t.version.value].field) else None
    {
      if !t.columns[y].transient {
        if t.IsVersion(y) {
          versField := Some(t.columns[y].field);
        }
      }
    }
    for x := 0 to |t.keys|
      invariant conds == KeyItems(t, 0, x) && keyFields == KeyFields(t, x) && argFields == KeyArgs(t, x)
    {
      var k := t.columns[t.keys[x]];
      conds := conds + [Assign(k.name, Bind(x))];
      keyFields := keyFields + [k.field];
      argFields := argFields + [Field(k.field)];
    }
    if versField.Some? {
      conds := conds + [Assign(t.columns[t.version.value].name, Bind(|argFields|))];
      argFields := argFields + [Field(versField.value)];
    }
    plan := Plan(Update([], conds), argFields, keyFields, versField);
  }

  /** A delete removes the rows with the record's keys and, if the table has a version, the
      record's own version, 0 included; in every dialect. */
  lemma DeleteMeans(t: TableMap, e: Fields, now: Value, row: Row)
    requires t.Valid() && t.Typed(e)
    ensures var plan := DeletePlan(t);
      && Reads(plan, e)
      && var bi := InstanceOf(plan, e);
      && Numbers(bi.query.conds) == Iota(|bi.args|)
      && (Meets(Resolve(bi.query.conds, bi.args, now), row) <==>
            && HasKeys(t, e, row)
            && (DeleteVersioned(t, |t.columns|) ==>
                  Equals(row, t.columns[t.version.value].name, Int(VersionOf(t, e)))))
  {
    hide Equals, Resolve, Numbers;
    var bi := InstanceOf(DeletePlan(t), e);
    var conds := bi.query.conds;
    NumbersOfBinds(conds, 0);
    BindsResolve(conds, bi.args, now);
    var pairs := Resolve(conds, bi.args, now);
    forall i | 0 <= i < |t.keys|
      ensures Equals(row, pairs[i].0, pairs[i].1)
        <==> Equals(row, t.columns[t.keys[i]].name, Get(e, t.columns[t.keys[i]].field))
    {
      assert pairs[i] == (conds[i].column, bi.args[i]);
    }
    if DeleteVersioned(t, |t.columns|) {
      assert pairs[|t.keys|] == (conds[|t.keys|].column, bi.args[|t.keys|]);
    }
  }

  /** The rows that a delete removes, by the values of the record alone. */
  lemma DeleteInWords(t: TableMap, e: Fields, now: Value, row: Row)
    requires t.Valid() && t.Typed(e)
    ensures Reads(DeletePlan(t), e)
    ensures var bi := InstanceOf(DeletePlan(t), e);
      && |Numbers(bi.query.conds)| <= |bi.args|
      && (Meets(Resolve(bi.query.conds, bi.args, now), row)
          <==> (forall i :: 0 <= i < |t.keys| ==>
                  var c := t.columns[t.keys[i]]; c.name in row && row[c.name] == e[c.field] && e[c.field] != Null)
               && (t.version.Some? && !t.columns[t.version.value].transient ==>
                     var c := t.columns[t.version.value]; c.name in row && row[c.name] == e[c.field]))
  {
    hide *;
    DeleteMeans(t, e, now, row);
    DeletedInWords(t, e, row);
    IotaSize(|InstanceOf(DeletePlan(t), e).args|);
  }

  lemma IotaSize(n: nat)
    ensures |Iota(n)| == n
  {
  }

  lemma DeletedInWords(t: TableMap, e: Fields, row: Row)
    requires t.Valid() && t.Typed(e)
    ensures HasKeys(t, e, row)
      <==> forall i :: 0 <= i < |t.keys| ==>
             var c := t.columns[t.keys[i]]; c.name in row && row[c.name] == e[c.field] && e[c.field] != Null
    ensures DeleteVersioned(t, |t.columns|) <==> t.version.Some? && !t.columns[t.version.value].transient
    ensures t.version.Some? ==>
      var c := t.columns[t.version.value];
      Equals(row, c.name, Int(VersionOf(t, e))) <==> c.name in row && row[c.name] == e[c.field]
  {
    forall i | 0 <= i < |t.keys|
      ensures var c := t.columns[t.keys[i]];
        Equals(row, c.name, Get(e, c.field)) <==> c.name in row && row[c.name] == e[c.field] && e[c.field] != Null
    {
    }
  }
}
