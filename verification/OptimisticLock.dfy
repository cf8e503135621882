/** Updates of a table by clients that read, edit and write back, guarded by the version column. */
module OptimisticLock {
  import opened Options
  import opened BindPlan

  /** `Conflict` is an optimistic lock error; `NoRow` is the error of reading a row that is gone;
      `Refused` is the database's error for a statement that sets nothing. */
  datatype Outcome = Updated(rows: nat) | Conflict(version: int) | NoRow | Refused

  function Targets(t: TableMap, e: Fields, rows: seq<Row>): nat
    requires t.Valid()
  {
    if rows == [] then 0
    else Targets(t, e, rows[..|rows| - 1]) + (if Target(t, e, rows[|rows| - 1]) then 1 else 0)
  }

  lemma {:induction false} NoTargets(t: TableMap, e: Fields, rows: seq<Row>)
    requires t.Valid()
    ensures Targets(t, e, rows) == 0 <==> forall i :: 0 <= i < |rows| ==> !Target(t, e, rows[i])
  {
    if rows != [] {
      NoTargets(t, e, rows[..|rows| - 1]);
    }
  }

  /** They are as many as the rows that the update is meant for. */
  lemma {:induction false} TargetsAreCounted(t: TableMap, e: Fields, rows: seq<Row>)
    requires t.Valid()
    ensures Targets(t, e, rows) == |set i | 0 <= i < |rows| && Target(t, e, rows[i])|
  {
    hide Target;
    if rows != [] {
      var n := |rows| - 1;
      TargetsAreCounted(t, e, rows[..n]);
      var before := set i | 0 <= i < n && Target(t, e, rows[..n][i]);
      var all := set i | 0 <= i < |rows| && Target(t, e, rows[i]);
      assert all == before + (if Target(t, e, rows[n]) then {n} else {});
    }
  }

  function VersionAfter(t: TableMap, e: Fields): Fields
    requires t.Valid() && t.Typed(e)
  {
    if Versioned(t, e, |t.columns|) then e[t.columns[t.version.value].field := Int(VersionOf(t, e) + 1)] else e
  }

  /** The database's table. */
  class Table {
    var rows: seq<Row>

    constructor (rows: seq<Row>)
      ensures this.rows == rows
    {
      this.rows := rows;
    }

    /** Executes the update of a record and counts the rows it changes. */
    method Exec(q: Update, args: seq<Value>, now: Value, ghost t: TableMap, ghost e: Fields)
      returns (ok: bool, affected: nat)
      requires t.Valid() && t.Typed(e) && Reads(UpdatePlan(t, e), e)
      requires q == InstanceOf(UpdatePlan(t, e), e).query && args == InstanceOf(UpdatePlan(t, e), e).args
      requires Runnable(q, args)
      modifies this
      ensures ok <==> q.sets != []
      ensures !ok ==> rows == old(rows)
      ensures ok ==> rows == seq(|old(rows)|, i requires 0 <= i < |old(rows)| => UpdatedRow(t, e, now, old(rows)[i]))
      ensures ok ==> affected == Targets(t, e, old(rows))
    {
      hide Runnable, Execute, Selects, UpdatedRow, Target, InstanceOf, UpdatePlan, Reads, SetsSomething;
      ghost var before := rows;
      ok, affected := q.sets != [], 0;
      if !ok {
        return;
      }
      for i := 0 to |rows|
        invariant |rows| == |before|
        invariant forall j :: 0 <= j < i ==> rows[j] == UpdatedRow(t, e, now, before[j])
        invariant forall j :: i <= j < |rows| ==> rows[j] == before[j]
        invariant affected == Targets(t, e, before[..i])
      {
        UpdateExecutes(t, e, now, rows[i]);
        assert before[..i + 1][..i] == before[..i];
        if Selects(q, args, now, rows[i]) {
          affected := affected + 1;
        }
        rows := rows[i := Execute(q, args, now, rows[i])];
      }
      assert before[..|rows|] == before;
    }

    /** Reads a row back by its keys, after an update that found none with the version. */
    method Has(t: TableMap, e: Fields) returns (found: bool)
      requires t.Valid()
      ensures found <==> exists i :: 0 <= i < |rows| && HasKeys(t, e, rows[i])
    {
      for i := 0 to |rows|
        invariant forall j :: 0 <= j < i ==> !HasKeys(t, e, rows[j])
      {
        if HasKeys(t, e, rows[i]) {
          return true;
        }
      }
      found := false;
    }

    /** Updates the rows of one record. A record that sets nothing is refused. With a version above 0
        it either updates a row and moves the record to the next version, or changes nothing and
        reports an error; without, it cannot tell. */
    method Update(t: TableMap, elem: Record, now: Value) returns (r: Outcome)
      requires t.Valid() && t.Typed(elem.fields)
      modifies this, elem
      ensures r.Refused? <==> !SetsSomething(t, old(elem.fields))
      ensures r.Updated? ==>
        rows == seq(|old(rows)|, i requires 0 <= i < |old(rows)| => UpdatedRow(t, old(elem.fields), now, old(rows)[i]))
      ensures r.Updated? ==> r.rows == Targets(t, old(elem.fields), old(rows))
      ensures r.Updated? ==> elem.fields == VersionAfter(t, old(elem.fields))
      ensures r.Updated?
        <==> SetsSomething(t, old(elem.fields))
             && (Targets(t, old(elem.fields), old(rows)) != 0
                 || !Versioned(t, old(elem.fields), |t.columns|) || VersionOf(t, old(elem.fields)) <= 0)
      ensures !r.Updated? ==> rows == old(rows) && elem.fields == old(elem.fields)
      ensures r.Conflict? ==> r.version == VersionOf(t, old(elem.fields))
      ensures r.Conflict? ==> exists i :: 0 <= i < |rows| && HasKeys(t, elem.fields, rows[i])
      ensures r.NoRow? ==> forall i :: 0 <= i < |rows| ==> !HasKeys(t, elem.fields, rows[i])
    {
      hide UpdatedRow, Target, HasKeys, Runnable, Execute, Selects, InstanceOf, UpdatePlan, Reads, SetsSomething;
      ghost var e, before := elem.fields, rows;
      var plan := BindUpdate(t, elem.fields);
      PlanReads(t, e);
      UpdateExecutes(t, e, now, map[]);
      var bi := CreateBindInstance(plan, elem);
      NoTargets(t, e, before);
      BoundRecord(t, e);
      var ok, count := Exec(bi.query, bi.args, now, t, e);
      if !ok {
        return Refused;
      }
      if count == 0 && bi.existingVersion > 0 {
        NotTargeted(t, e, now, before);
        assert rows == before;
        var found := Has(t, elem.fields);
        return if found then Conflict(bi.existingVersion) else NoRow;
      }
      if bi.versField.Some? {
        elem.fields := elem.fields[bi.versField.value := Int(bi.existingVersion + 1)];
      }
      return Updated(count);
    }
  }

  lemma NotTargeted(t: TableMap, e: Fields, now: Value, rows: seq<Row>)
    requires t.Valid() && forall i :: 0 <= i < |rows| ==> !Target(t, e, rows[i])
    ensures seq(|rows|, i requires 0 <= i < |rows| => UpdatedRow(t, e, now, rows[i])) == rows
  {
    hide Target, AssignAll, Wanted;
  }

  lemma VersionedSets(t: TableMap, e: Fields)
    requires t.Valid() && Versioned(t, e, |t.columns|)
    ensures SetsSomething(t, e)
  {
  }

  /** What binding does to the record, and what version it reports. */
  lemma BoundRecord(t: TableMap, e: Fields)
    requires t.Valid() && t.Typed(e)
    ensures Reads(UpdatePlan(t, e), e)
    ensures InstanceOf(UpdatePlan(t, e), e).existingVersion == ExistingVersion(UpdatePlan(t, e), e)
    ensures InstanceOf(UpdatePlan(t, e), e).versField == UpdatePlan(t, e).versField
    ensures Versioned(t, e, |t.columns|) ==> SetsSomething(t, e)
    ensures !SetsSomething(t, e) ==> FieldsAfter(UpdatePlan(t, e), e, |UpdatePlan(t, e).argFields|) == e
    ensures var plan := UpdatePlan(t, e);
      && ExistingVersion(plan, e) == (if Versioned(t, e, |t.columns|) then VersionOf(t, e) else 0)
      && (ExistingVersion(plan, e) > 0 ==> FieldsAfter(plan, e, |plan.argFields|) == e)
      && (if plan.versField.Some?
          then FieldsAfter(plan, e, |plan.argFields|)[plan.versField.value := Int(ExistingVersion(plan, e) + 1)]
          else FieldsAfter(plan, e, |plan.argFields|)) == VersionAfter(t, e)
  {
    PlanReads(t, e);
    SetArgsSound(t, e, |t.columns|);
    if Versioned(t, e, |t.columns|) {
      VersionedSets(t, e);
    }
  }

  // ----- clients -----------------------------------------------------------------------------

  type Client = int

  /** A client's record, the row it belongs to, and that row as it was when the client last read
      or wrote it. */
  datatype Session = Session(fields: Fields, at: nat, base: Row)

  /** `log` lists the successful updates: the row, and the version the update started from. */
  datatype World = World(rows: seq<Row>, sessions: map<Client, Session>, log: seq<(nat, int)>)

  datatype Event =
    | Load(client: Client, at: nat)
    | Edit(client: Client, fields: Fields)
    | Write(client: Client, now: Value)

  /** The version column is a number that every update sets, and no key is stamped on update. */
  predicate Lockable(t: TableMap) {
    && t.Valid() && t.version.Some?
    && (forall i :: 0 <= i < |t.keys| ==> !t.columns[t.keys[i]].updateNow && !t.columns[t.keys[i]].transient)
    && var c := t.columns[t.version.value]; !c.autoIncr && !c.transient && !c.updateNow
  }

  /** The record that reading a row yields. */
  function Loaded(t: TableMap, row: Row): Fields
    requires t.Valid()
  {
    map i | 0 <= i < |t.columns| && !t.columns[i].transient && t.columns[i].name in row
      :: t.columns[i].field := row[t.columns[i].name]
  }

  /** An edit leaves the keys and the version alone. */
  predicate SameIdentity(t: TableMap, e: Fields, f: Fields)
    requires t.Valid()
  {
    && (forall i :: 0 <= i < |t.keys| ==> Get(e, t.columns[t.keys[i]].field) == Get(f, t.columns[t.keys[i]].field))
    && VersionOf(t, e) == VersionOf(t, f)
  }

  predicate Possible(t: TableMap, w: World, event: Event)
    requires t.Valid()
  {
    match event
    case Load(_, at) => at < |w.rows|
    case Edit(c, f) => c in w.sessions && t.Typed(f) && SameIdentity(t, w.sessions[c].fields, f)
    case Write(c, _) => c in w.sessions
  }

  /** The write of a session's record succeeds: its row is a target. */
  predicate Succeeds(t: TableMap, w: World, s: Session)
    requires t.Valid()
  {
    s.at < |w.rows| && Target(t, s.fields, w.rows[s.at])
  }

  function React(t: TableMap, w: World, event: Event): World
    requires Lockable(t) && Possible(t, w, event)
  {
    match event
    case Load(c, at) => w.(sessions := w.sessions[c := Session(Loaded(t, w.rows[at]), at, w.rows[at])])
    case Edit(c, f) => w.(sessions := w.sessions[c := w.sessions[c].(fields := f)])
    case Write(c, now) =>
      var s := w.sessions[c];
      if !Succeeds(t, w, s) then w
      else
        var row := UpdatedRow(t, s.fields, now, w.rows[s.at]);
        var v := VersionOf(t, s.fields);
        World(w.rows[s.at := row],
              w.sessions[c := Session(s.fields[t.columns[t.version.value].field := Int(v + 1)], s.at, row)],
              w.log + [(s.at, v)])
  }

  /** The versions from which a row has been updated, in order. */
  function VersionsOf(log: seq<(nat, int)>, at: nat): seq<int> {
    if log == [] then []
    else
      var last := log[|log| - 1];
      VersionsOf(log[..|log| - 1], at) + (if last.0 == at then [last.1] else [])
  }

  // ----- the invariant -------------------------------------------------------------------------

  function RowVersion(t: TableMap, row: Row): int
    requires Lockable(t)
  {
    var c := t.columns[t.version.value].name;
    if c in row && row[c].Int? then row[c].n else 0
  }

  predicate GoodRow(t: TableMap, row: Row)
    requires Lockable(t)
  {
    && (forall i :: 0 <= i < |t.keys| ==> t.columns[t.keys[i]].name in row && row[t.columns[t.keys[i]].name] != Null)
    && RowVersion(t, row) >= 1
  }

  predicate SameKeys(t: TableMap, r: Row, q: Row)
    requires t.Valid()
  {
    forall i :: 0 <= i < |t.keys| ==>
      var c := t.columns[t.keys[i]].name; c in r && c in q && r[c] == q[c]
  }

  /** A session holds the keys of its row, at a version that the row has or had; and at the row's
      own version the row is as the session last saw it. */
  predicate GoodSession(t: TableMap, rows: seq<Row>, s: Session)
    requires Lockable(t)
  {
    && t.Typed(s.fields) && s.at < |rows| && HasKeys(t, s.fields, rows[s.at])
    && VersionOf(t, s.fields) == RowVersion(t, s.base)
    && 1 <= VersionOf(t, s.fields) <= RowVersion(t, rows[s.at])
    && (VersionOf(t, s.fields) == RowVersion(t, rows[s.at]) ==> s.base == rows[s.at])
  }

  /** The rows have distinct keys, and versions of at least 1. */
  predicate GoodRows(t: TableMap, rows: seq<Row>)
    requires Lockable(t)
  {
    && (forall i :: 0 <= i < |rows| ==> GoodRow(t, rows[i]))
    && (forall i, j :: 0 <= i < j < |rows| ==> !SameKeys(t, rows[i], rows[j]))
  }

  predicate Good(t: TableMap, w: World)
    requires Lockable(t)
  {
    && GoodRows(t, w.rows)
    && (forall c :: c in w.sessions ==> GoodSession(t, w.rows, w.sessions[c]))
  }

  function Upward(v: int, n: nat): seq<int> { seq(n, i => v + i) }

  /** Each row has been updated once from each version it has had. */
  predicate Counted(t: TableMap, first: seq<Row>, w: World)
    requires Lockable(t)
  {
    && |w.rows| == |first|
    && (forall i :: 0 <= i < |w.log| ==> w.log[i].0 < |first|)
    && forall i :: 0 <= i < |first| ==>
         && RowVersion(t, w.rows[i]) == RowVersion(t, first[i]) + |VersionsOf(w.log, i)|
         && VersionsOf(w.log, i) == Upward(RowVersion(t, first[i]), |VersionsOf(w.log, i)|)
  }

  lemma LoadedIsGood(t: TableMap, rows: seq<Row>, at: nat)
    requires Lockable(t) && at < |rows| && GoodRow(t, rows[at])
    ensures GoodSession(t, rows, Session(Loaded(t, rows[at]), at, rows[at]))
  {
    var e := Loaded(t, rows[at]);
    assert forall i :: 0 <= i < |t.keys| ==> Get(e, t.columns[t.keys[i]].field) == rows[at][t.columns[t.keys[i]].name];
    assert Get(e, t.columns[t.version.value].field) == rows[at][t.columns[t.version.value].name];
  }

  /** An update keeps the keys of its row and moves it to the next version. */
  lemma UpdateMovesOn(t: TableMap, e: Fields, now: Value, row: Row)
    requires Lockable(t) && t.Typed(e) && VersionOf(t, e) >= 1
    requires Target(t, e, row)
    ensures RowVersion(t, row) == VersionOf(t, e)
    ensures SameKeys(t, row, UpdatedRow(t, e, now, row)) && HasKeys(t, e, UpdatedRow(t, e, now, row))
    ensures RowVersion(t, UpdatedRow(t, e, now, row)) == VersionOf(t, e) + 1
  {
    UpdateMeans(t, e, now, row);
    var n := |t.columns|;
    var r := UpdatedRow(t, e, now, row);
    forall i | 0 <= i < |t.keys|
      ensures Equals(r, t.columns[t.keys[i]].name, Get(e, t.columns[t.keys[i]].field))
    {
      var y := t.keys[i];
      assert Equals(row, t.columns[y].name, Get(e, t.columns[y].field));
      if !Included(t, e, y) {
        assert SetsNot(t, e, n, t.columns[y].name);
      }
    }
    assert Included(t, e, t.version.value);
  }

  /** Though it compares only keys and versions, a write succeeds exactly when its row is still
      the row that the client last saw: no change of another client is ever overwritten unseen. */
  lemma WriteIsCompareAndSwap(t: TableMap, rows: seq<Row>, s: Session)
    requires Lockable(t) && GoodSession(t, rows, s) && GoodRow(t, rows[s.at])
    ensures Target(t, s.fields, rows[s.at]) <==> s.base == rows[s.at]
    ensures Target(t, s.fields, rows[s.at]) <==> VersionOf(t, s.fields) == RowVersion(t, rows[s.at])
  {
    assert Get(s.fields, t.columns[t.version.value].field).Int?;
    assert Included(t, s.fields, t.version.value);
  }

  lemma OnlyOwnRow(t: TableMap, w: World, s: Session, i: nat)
    requires Lockable(t) && Good(t, w) && GoodSession(t, w.rows, s) && i < |w.rows| && i != s.at
    ensures !HasKeys(t, s.fields, w.rows[i])
  {
    if HasKeys(t, s.fields, w.rows[i]) {
      forall k | 0 <= k < |t.keys|
        ensures var c := t.columns[t.keys[k]].name;
          c in w.rows[i] && c in w.rows[s.at] && w.rows[i][c] == w.rows[s.at][c]
      {
        assert Equals(w.rows[i], t.columns[t.keys[k]].name, Get(s.fields, t.columns[t.keys[k]].field));
        assert Equals(w.rows[s.at], t.columns[t.keys[k]].name, Get(s.fields, t.columns[t.keys[k]].field));
      }
      assert SameKeys(t, w.rows[i], w.rows[s.at]) && SameKeys(t, w.rows[s.at], w.rows[i]);
    }
  }

  lemma WrittenSession(t: TableMap, rows: seq<Row>, s: Session, now: Value)
    requires Lockable(t) && GoodSession(t, rows, s) && Target(t, s.fields, rows[s.at])
    ensures var row := UpdatedRow(t, s.fields, now, rows[s.at]);
      GoodSession(t, rows[s.at := row],
        Session(s.fields[t.columns[t.version.value].field := Int(VersionOf(t, s.fields) + 1)], s.at, row))
  {
    UpdateMovesOn(t, s.fields, now, rows[s.at]);
    var f := t.columns[t.version.value].field;
    var e := s.fields[f := Int(VersionOf(t, s.fields) + 1)];
    assert forall i :: 0 <= i < |t.keys| ==>
      Get(e, t.columns[t.keys[i]].field) == Get(s.fields, t.columns[t.keys[i]].field);
  }

  lemma OtherSessions(t: TableMap, rows: seq<Row>, at: nat, row: Row, s: Session)
    requires Lockable(t) && at < |rows| && GoodSession(t, rows, s)
    requires SameKeys(t, rows[at], row) && RowVersion(t, row) == RowVersion(t, rows[at]) + 1
    ensures GoodSession(t, rows[at := row], s)
  {
    if s.at == at {
      forall i | 0 <= i < |t.keys|
        ensures Equals(row, t.columns[t.keys[i]].name, Get(s.fields, t.columns[t.keys[i]].field))
      {
        assert Equals(rows[at], t.columns[t.keys[i]].name, Get(s.fields, t.columns[t.keys[i]].field));
      }
    }
  }

  lemma WrittenRows(t: TableMap, rows: seq<Row>, at: nat, row: Row)
    requires Lockable(t) && at < |rows|
    requires GoodRows(t, rows)
    requires SameKeys(t, rows[at], row) && RowVersion(t, row) == RowVersion(t, rows[at]) + 1
    ensures GoodRows(t, rows[at := row])
  {
    forall q: Row
      ensures SameKeys(t, row, q) ==> SameKeys(t, rows[at], q)
      ensures SameKeys(t, q, row) ==> SameKeys(t, q, rows[at])
    {
    }
  }

  lemma StepKeepsGood(t: TableMap, w: World, event: Event)
    requires Lockable(t) && Good(t, w) && Possible(t, w, event)
    ensures Good(t, React(t, w, event))
  {
    hide GoodSession, GoodRow, SameKeys, UpdatedRow, Target, HasKeys, Loaded, RowVersion, VersionOf;
    match event {
      case Load(c, at) => LoadedIsGood(t, w.rows, at);
      case Edit(c, f) => EditedIsGood(t, w.rows, w.sessions[c], f);
      case Write(c, now) =>
        var s := w.sessions[c];
        if Succeeds(t, w, s) {
          var row := UpdatedRow(t, s.fields, now, w.rows[s.at]);
          SessionFacts(t, w.rows, s);
          UpdateMovesOn(t, s.fields, now, w.rows[s.at]);
          WrittenRows(t, w.rows, s.at, row);
          WrittenSession(t, w.rows, s, now);
          forall d | d in w.sessions
            ensures GoodSession(t, w.rows[s.at := row], w.sessions[d])
          {
            OtherSessions(t, w.rows, s.at, row, w.sessions[d]);
          }
        }
    }
  }

  lemma EditedIsGood(t: TableMap, rows: seq<Row>, s: Session, f: Fields)
    requires Lockable(t) && GoodSession(t, rows, s) && t.Typed(f) && SameIdentity(t, s.fields, f)
    ensures GoodSession(t, rows, s.(fields := f))
  {
  }

  lemma SessionFacts(t: TableMap, rows: seq<Row>, s: Session)
    requires Lockable(t) && GoodSession(t, rows, s)
    ensures t.Typed(s.fields) && s.at < |rows| && VersionOf(t, s.fields) >= 1
  {
  }

  lemma CountsOneMore(t: TableMap, first: seq<Row>, w: World, u: World, at: nat, row: Row)
    requires Lockable(t) && Counted(t, first, w) && at < |w.rows|
    requires u.rows == w.rows[at := row] && u.log == w.log + [(at, RowVersion(t, w.rows[at]))]
    requires RowVersion(t, row) == RowVersion(t, w.rows[at]) + 1
    ensures Counted(t, first, u)
  {
    hide RowVersion, Lockable;
    assert u.log[..|u.log| - 1] == w.log;
  }

  lemma StepCounts(t: TableMap, first: seq<Row>, w: World, event: Event)
    requires Lockable(t) && Good(t, w) && Possible(t, w, event) && Counted(t, first, w)
    ensures Counted(t, first, React(t, w, event))
  {
    hide GoodSession, GoodRow, SameKeys, UpdatedRow, Target, HasKeys, RowVersion, VersionOf, Good, Counted;
    hide Upward, Loaded, SameIdentity;
    if event.Write? && Succeeds(t, w, w.sessions[event.client]) {
      var s := w.sessions[event.client];
      GoodAt(t, w, event.client);
      SessionFacts(t, w.rows, s);
      UpdateMovesOn(t, s.fields, event.now, w.rows[s.at]);
      CountsOneMore(t, first, w, React(t, w, event), s.at, UpdatedRow(t, s.fields, event.now, w.rows[s.at]));
    } else {
      SameCounts(t, first, w, React(t, w, event));
    }
  }

  lemma SameCounts(t: TableMap, first: seq<Row>, w: World, u: World)
    requires Lockable(t) && Counted(t, first, w) && u.rows == w.rows && u.log == w.log
    ensures Counted(t, first, u)
  {
  }

  lemma GoodAt(t: TableMap, w: World, c: Client)
    requires Lockable(t) && Good(t, w) && c in w.sessions
    ensures GoodSession(t, w.rows, w.sessions[c]) && GoodRow(t, w.rows[w.sessions[c].at])
  {
  }

  /** A row that was never given a version cannot be updated: the update of a record just read
      finds its row exactly when the version is not 0. */
  lemma ZeroVersionIsStuck(t: TableMap, row: Row)
    requires Lockable(t)
    requires forall i :: 0 <= i < |t.keys| ==>
      t.columns[t.keys[i]].name in row && row[t.columns[t.keys[i]].name] != Null
    requires t.columns[t.version.value].name in row && row[t.columns[t.version.value].name].Int?
    ensures t.Typed(Loaded(t, row))
    ensures Target(t, Loaded(t, row), row) <==> RowVersion(t, row) != 0
  {
    var e := Loaded(t, row);
    assert forall i :: 0 <= i < |t.keys| ==> Get(e, t.columns[t.keys[i]].field) == row[t.columns[t.keys[i]].name];
    assert Get(e, t.columns[t.version.value].field) == row[t.columns[t.version.value].name];
    assert Included(t, e, t.version.value);
  }

  // ----- whole runs ------------------------------------------------------------------------------

  predicate Runs(t: TableMap, w: World, events: seq<Event>)
    requires Lockable(t)
    decreases |events|
  {
    events == [] || (Possible(t, w, events[0]) && Runs(t, React(t, w, events[0]), events[1..]))
  }

  function Run(t: TableMap, w: World, events: seq<Event>): World
    requires Lockable(t) && Runs(t, w, events)
    decreases |events|
  {
    if events == [] then w else Run(t, React(t, w, events[0]), events[1..])
  }

  /** A run is its events one after the other. */
  lemma {:induction false} RunGoesOn(t: TableMap, w: World, events: seq<Event>, event: Event)
    requires Lockable(t) && Runs(t, w, events) && Possible(t, Run(t, w, events), event)
    ensures Runs(t, w, events + [event])
    ensures Run(t, w, events + [event]) == React(t, Run(t, w, events), event) && Run(t, w, []) == w
    decreases |events|
  {
    hide React, Possible, Lockable;
    if events != [] {
      RunGoesOn(t, React(t, w, events[0]), events[1..], event);
      assert (events + [event])[1..] == events[1..] + [event];
    }
  }

  lemma {:induction false} RunKeeps(t: TableMap, first: seq<Row>, w: World, events: seq<Event>)
    requires Lockable(t) && Good(t, w) && Counted(t, first, w) && Runs(t, w, events)
    ensures Good(t, Run(t, w, events)) && Counted(t, first, Run(t, w, events))
    decreases |events|
  {
    hide Good, Counted, React, Possible;
    if events != [] {
      StepKeepsGood(t, w, events[0]);
      StepCounts(t, first, w, events[0]);
      RunKeeps(t, first, React(t, w, events[0]), events[1..]);
    }
  }

  lemma LastLogged(log: seq<(nat, int)>, v: int, at: nat)
    requires log != [] && VersionsOf(log, at) == Upward(v, |VersionsOf(log, at)|)
    ensures var front := VersionsOf(log[..|log| - 1], at);
      && front == Upward(v, |front|)
      && (log[|log| - 1].0 == at ==> |VersionsOf(log, at)| == |front| + 1 && log[|log| - 1].1 == v + |front|)
  {
    var front, last := VersionsOf(log[..|log| - 1], at), log[|log| - 1];
    assert front <= VersionsOf(log, at);
    if last.0 == at {
      assert VersionsOf(log, at)[|front|] == last.1;
    }
  }

  lemma {:induction false} LoggedBelow(log: seq<(nat, int)>, v: int, at: nat, i: nat)
    requires VersionsOf(log, at) == Upward(v, |VersionsOf(log, at)|)
    requires i < |log| && log[i].0 == at
    ensures v <= log[i].1 < v + |VersionsOf(log, at)|
    decreases |log|
  {
    LastLogged(log, v, at);
    if i < |log| - 1 {
      LoggedBelow(log[..|log| - 1], v, at, i);
    }
  }

  /** Entries of the log for one row start from different versions. */
  lemma {:induction false} LoggedOnce(log: seq<(nat, int)>, v: int, at: nat, i: nat, j: nat)
    requires VersionsOf(log, at) == Upward(v, |VersionsOf(log, at)|)
    requires i < j < |log| && log[i].0 == log[j].0 == at
    ensures log[i].1 < log[j].1
    decreases |log|
  {
    LastLogged(log, v, at);
    if j < |log| - 1 {
      LoggedOnce(log[..|log| - 1], v, at, i, j);
    } else {
      LoggedBelow(log[..|log| - 1], v, at, i);
    }
  }

  /** From any table whose rows have distinct keys and versions of at least 1, however the clients
      interleave: a row's version is its first version plus the number of successful updates of
      it, and no two successful updates of a row start from the same version. */
  lemma NoVersionWinsTwice(t: TableMap, rows: seq<Row>, events: seq<Event>)
    requires Lockable(t) && Good(t, World(rows, map[], [])) && Runs(t, World(rows, map[], []), events)
    ensures var w := Run(t, World(rows, map[], []), events);
      && |w.rows| == |rows|
      && (forall i :: 0 <= i < |rows| ==> RowVersion(t, w.rows[i]) == RowVersion(t, rows[i]) + |VersionsOf(w.log, i)|)
      && (forall i, j :: 0 <= i < j < |w.log| && w.log[i].0 == w.log[j].0 ==> w.log[i].1 < w.log[j].1)
  {
    RunKeeps(t, rows, World(rows, map[], []), events);
    var w := Run(t, World(rows, map[], []), events);
    forall i, j | 0 <= i < j < |w.log| && w.log[i].0 == w.log[j].0
      ensures w.log[i].1 < w.log[j].1
    {
      var at := w.log[i].0;
      LoggedOnce(w.log, RowVersion(t, rows[at]), at, i, j);
    }
  }

  // ----- the same clients on the table itself --------------------------------------------------------

  lemma ReactToWrite(t: TableMap, w: World, c: Client, now: Value)
    requires Lockable(t) && c in w.sessions
    ensures var s, u := w.sessions[c], React(t, w, Write(c, now));
      if !Succeeds(t, w, s) then u == w
      else
        var row := UpdatedRow(t, s.fields, now, w.rows[s.at]);
        && u.rows == w.rows[s.at := row]
        && u.sessions == w.sessions[c := Session(
             s.fields[t.columns[t.version.value].field := Int(VersionOf(t, s.fields) + 1)], s.at, row)]
  {
    hide UpdatedRow, Target, VersionOf;
  }

  lemma SessionVersioned(t: TableMap, rows: seq<Row>, s: Session)
    requires Lockable(t) && GoodSession(t, rows, s)
    ensures Versioned(t, s.fields, |t.columns|) && HasKeys(t, s.fields, rows[s.at])
  {
    hide HasKeys, RowVersion;
    assert Get(s.fields, t.columns[t.version.value].field).Int?;
  }

  lemma NoOtherTarget(t: TableMap, w: World, c: Client, i: nat)
    requires Lockable(t) && Good(t, w) && c in w.sessions && i < |w.rows| && i != w.sessions[c].at
    ensures !Target(t, w.sessions[c].fields, w.rows[i])
  {
    hide HasKeys, Lockable, Versioned, GoodSession, GoodRows;
    GoodAt(t, w, c);
    OnlyOwnRow(t, w, w.sessions[c], i);
  }

  lemma WriteOnRows(t: TableMap, w: World, c: Client, now: Value)
    requires Lockable(t) && Good(t, w) && c in w.sessions
    ensures t.Typed(w.sessions[c].fields)
    ensures React(t, w, Write(c, now)).rows
      == seq(|w.rows|, i requires 0 <= i < |w.rows| => UpdatedRow(t, w.sessions[c].fields, now, w.rows[i]))
    ensures Succeeds(t, w, w.sessions[c]) <==> Targets(t, w.sessions[c].fields, w.rows) != 0
    ensures Versioned(t, w.sessions[c].fields, |t.columns|) && VersionOf(t, w.sessions[c].fields) >= 1
    ensures SetsSomething(t, w.sessions[c].fields)
    ensures exists i :: 0 <= i < |w.rows| && HasKeys(t, w.sessions[c].fields, w.rows[i])
  {
    hide SetsSomething, Good, GoodSession, GoodRow, VersionOf, Versioned, HasKeys, Target, Targets, AssignAll, Wanted,
      React;
    var s := w.sessions[c];
    GoodAt(t, w, c);
    SessionFacts(t, w.rows, s);
    SessionVersioned(t, w.rows, s);
    VersionedSets(t, s.fields);
    NoTargets(t, s.fields, w.rows);
    ReactToWrite(t, w, c, now);
    forall i | 0 <= i < |w.rows| && i != s.at
      ensures !Target(t, s.fields, w.rows[i])
    {
      NoOtherTarget(t, w, c, i);
    }
  }

  function Successes(outcomes: seq<Outcome>): nat {
    if outcomes == [] then 0
    else Successes(outcomes[..|outcomes| - 1]) + (if outcomes[|outcomes| - 1].Updated? then 1 else 0)
  }

  lemma {:induction false} SuccessesAreCounted(outcomes: seq<Outcome>)
    ensures Successes(outcomes) == |set i | 0 <= i < |outcomes| && outcomes[i].Updated?|
  {
    if outcomes != [] {
      var n := |outcomes| - 1;
      SuccessesAreCounted(outcomes[..n]);
      var before := set i | 0 <= i < n && outcomes[..n][i].Updated?;
      var all := set i | 0 <= i < |outcomes| && outcomes[i].Updated?;
      assert all == before + (if outcomes[n].Updated? then {n} else {});
    }
  }

  /** The records of the clients are those of the sessions. */
  predicate Holds(records: map<Client, Fields>, w: World) {
    records.Keys == w.sessions.Keys && forall c :: c in records ==> records[c] == w.sessions[c].fields
  }

  lemma HoldsUpdated(records: map<Client, Fields>, w: World, u: World, c: Client, s: Session)
    requires Holds(records, w) && u.sessions == w.sessions[c := s]
    ensures Holds(records[c := s.fields], u)
  {
  }

  lemma HoldsStill(records: map<Client, Fields>, c: Client)
    requires c in records
    ensures records[c := records[c]] == records
  {
  }

  lemma WrittenRecord(t: TableMap, w: World, records: map<Client, Fields>, c: Client, now: Value, after: Fields)
    requires Lockable(t) && Holds(records, w) && c in w.sessions
    requires c in records && records[c] == w.sessions[c].fields && t.Typed(w.sessions[c].fields)
    requires after == if Succeeds(t, w, w.sessions[c]) then VersionAfter(t, records[c]) else records[c]
    requires Versioned(t, records[c], |t.columns|)
    ensures Holds(records[c := after], React(t, w, Write(c, now)))
  {
    hide Holds, React, Target, VersionOf, Versioned, UpdatedRow, Succeeds;
    var u := React(t, w, Write(c, now));
    ReactToWrite(t, w, c, now);
    if Succeeds(t, w, w.sessions[c]) {
      HoldsUpdated(records, w, u, c, u.sessions[c]);
    } else {
      HoldsStill(records, c);
    }
  }

  /** Clients that read, edit and write through `Update`: the table goes through the run above, the
      writes that succeed there are those that succeed here, and every other reports a conflict. */
  method Play(t: TableMap, table: Table, events: seq<Event>) returns (outcomes: seq<Outcome>)
    requires Lockable(t) && GoodRows(t, table.rows) && Runs(t, World(table.rows, map[], []), events)
    modifies table
    ensures table.rows == Run(t, World(old(table.rows), map[], []), events).rows
    ensures Successes(outcomes) == |Run(t, World(old(table.rows), map[], []), events).log|
    ensures forall i :: 0 <= i < |outcomes| ==> outcomes[i].Updated? || outcomes[i].Conflict?
  {
    hide Good, React, Possible, GoodRows, Succeeds, Targets, UpdatedRow, Holds, VersionAfter, VersionOf, Versioned,
      HasKeys,
      SetsSomething;
    outcomes := [];
    var records: map<Client, Fields> := map[];
    ghost var w := World(table.rows, map[], []);
    ghost var start := w;
    GoodStart(t, table.rows);
    for i := 0 to |events|
      invariant Good(t, w) && Runs(t, w, events[i..]) && Run(t, w, events[i..]) == Run(t, start, events)
      invariant table.rows == w.rows && Holds(records, w)
      invariant Successes(outcomes) == |w.log|
      invariant forall k :: 0 <= k < |outcomes| ==> outcomes[k].Updated? || outcomes[k].Conflict?
    {
      assert events[i..][1..] == events[i + 1..];
      ghost var next := React(t, w, events[i]);
      StepKeepsGood(t, w, events[i]);
      StepOnTable(t, w, records, events[i]);
      match events[i] {
        case Load(c, at) =>
          records := records[c := Loaded(t, table.rows[at])];
        case Edit(c, f) =>
          records := records[c := f];
        case Write(c, now) =>
          var elem := new Record(records[c]);
          WriteOnRows(t, w, c, now);
          var r := table.Update(t, elem, now);
          WrittenRecord(t, w, records, c, now, elem.fields);
          records := records[c := elem.fields];
          assert (outcomes + [r])[..|outcomes|] == outcomes;
          outcomes := outcomes + [r];
      }
      w := next;
    }
  }

  lemma GoodStart(t: TableMap, rows: seq<Row>)
    requires Lockable(t) && GoodRows(t, rows)
    ensures Good(t, World(rows, map[], [])) && Holds(map[], World(rows, map[], []))
  {
  }

  lemma StepOnTable(t: TableMap, w: World, records: map<Client, Fields>, event: Event)
    requires Lockable(t) && Possible(t, w, event) && Holds(records, w)
    ensures event.Load? ==>
      && event.at < |w.rows| && React(t, w, event).rows == w.rows && React(t, w, event).log == w.log
      && Holds(records[event.client := Loaded(t, w.rows[event.at])], React(t, w, event))
    ensures event.Edit? ==>
      && React(t, w, event).rows == w.rows && React(t, w, event).log == w.log
      && Holds(records[event.client := event.fields], React(t, w, event))
    ensures event.Write? ==>
      && event.client in records && event.client in w.sessions
        && records[event.client] == w.sessions[event.client].fields
      && (!Succeeds(t, w, w.sessions[event.client]) ==> React(t, w, event).rows == w.rows)
      && |React(t, w, event).log| == |w.log| + (if Succeeds(t, w, w.sessions[event.client]) then 1 else 0)
  {
    hide Succeeds, UpdatedRow, Loaded, SameIdentity, VersionOf, Lockable;
  }
}
