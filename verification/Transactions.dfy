/** Nested transactions on SQL savepoints. */
module Transactions {
  import opened NestedTransactions

  // ----- the database side ---------------------------------------------------------

  /** A savepoint of the running SQL transaction and the data it remembers. */
  datatype Mark<D> = Mark(name: string, data: D)

  /** Index of the latest savepoint with the given name, or the number of savepoints. */
  function MarkIndex<D>(marks: seq<Mark<D>>, name: string): (i: nat)
    ensures i <= |marks|
    ensures i < |marks| ==> marks[i].name == name && forall j :: i < j < |marks| ==> marks[j].name != name
    ensures i == |marks| ==> forall j :: 0 <= j < |marks| ==> marks[j].name != name
  {
    if marks == [] then 0
    else if marks[|marks| - 1].name == name then |marks| - 1
    else
      var i := MarkIndex(marks[..|marks| - 1], name);
      if i == |marks| - 1 then |marks| else i
  }

  /** A database connection. Rolling back to a savepoint keeps that savepoint and drops the
      later ones; releasing one drops it with the later ones and keeps the data. */
  class Database<!D> {
    var durable: D
    var current: D
    var marks: seq<Mark<D>>
    var open: bool

    constructor (data: D)
      ensures durable == current == data && marks == [] && !open
    {
      durable, current, marks, open := data, data, [], false;
    }

    method BeginTx()
      requires !open
      modifies this
      ensures open && marks == [] && durable == old(durable) && current == durable
    {
      open, marks, current := true, [], durable;
    }

    method Exec(change: D -> D) returns (ok: bool)
      modifies this`current
      ensures ok == open && current == if open then change(old(current)) else old(current)
    {
      ok := open;
      if ok {
        current := change(current);
      }
    }

    method Commit() returns (ok: bool)
      modifies this
      ensures ok == old(open) && !open
      ensures ok ==> durable == current == old(current) && marks == []
      ensures !ok ==> durable == old(durable) && current == old(current) && marks == old(marks)
    {
      ok := open;
      if ok {
        open, marks, durable := false, [], current;
      }
    }

    method Rollback() returns (ok: bool)
      modifies this
      ensures ok == old(open) && !open && durable == old(durable)
      ensures ok ==> current == durable && marks == []
      ensures !ok ==> current == old(current) && marks == old(marks)
    {
      ok := open;
      if ok {
        open, marks, current := false, [], durable;
      }
    }

    method Savepoint(name: string) returns (ok: bool)
      modifies this`marks
      ensures ok == open && marks == if ok then old(marks) + [Mark(name, current)] else old(marks)
    {
      ok := open;
      if ok {
        marks := marks + [Mark(name, current)];
      }
    }

    method RollbackTo(name: string) returns (ok: bool)
      modifies this`marks, this`current
      ensures var i := MarkIndex(old(marks), name);
        && ok == (open && i < |old(marks)|)
        && (if ok then marks == old(marks)[..i + 1] && current == old(marks)[i].data
            else marks == old(marks) && current == old(current))
    {
      var i := MarkIndex(marks, name);
      ok := open && i < |marks|;
      if ok {
        current := marks[i].data;
        marks := marks[..i + 1];
      }
    }

    method Release(name: string) returns (ok: bool)
      modifies this`marks
      ensures var i := MarkIndex(old(marks), name);
        ok == (open && i < |old(marks)|) && marks == if ok then old(marks)[..i] else old(marks)
    {
      var i := MarkIndex(marks, name);
      ok := open && i < |marks|;
      if ok {
        marks := marks[..i];
      }
    }
  }

  // ----- the program side ------------------------------------------------------------

  predicate DistinctNames<D>(marks: seq<Mark<D>>) {
    forall i, j :: 0 <= i < j < |marks| ==> marks[i].name != marks[j].name
  }

  /** Savepoint `k` of the program is mark `at[k]` of the database and remembers snapshot `k`.
      Marks in between are left over from levels that were rolled back. */
  ghost predicate Tied<D>(savepoints: seq<string>, at: seq<nat>, marks: seq<Mark<D>>, saved: seq<D>) {
    && |savepoints| == |at| == |saved|
    && (forall k :: 0 <= k < |at| ==> at[k] < |marks| && marks[at[k]] == Mark(savepoints[k], saved[k]))
    && (forall k, m :: 0 <= k < m < |at| ==> at[k] < at[m])
    && DistinctNames(marks)
  }

  lemma MarkOf<D>(savepoints: seq<string>, at: seq<nat>, marks: seq<Mark<D>>, saved: seq<D>, k: nat)
    requires Tied(savepoints, at, marks, saved) && k < |at|
    ensures MarkIndex(marks, savepoints[k]) == at[k]
  {
    var i := MarkIndex(marks, savepoints[k]);
    assert marks[at[k]].name == savepoints[k];
  }

  /** Dropping the innermost savepoint and the marks behind it, with or without its own mark. */
  lemma TiedOuter<D>(savepoints: seq<string>, at: seq<nat>, marks: seq<Mark<D>>, saved: seq<D>, upTo: nat)
    requires Tied(savepoints, at, marks, saved) && |at| > 0 && at[|at| - 1] <= upTo <= |marks|
    ensures var n := |at| - 1; Tied(savepoints[..n], at[..n], marks[..upTo], saved[..n])
  {
  }

  lemma TiedInner<D>(savepoints: seq<string>, at: seq<nat>, marks: seq<Mark<D>>, saved: seq<D>, name: string, data: D)
    requires Tied(savepoints, at, marks, saved) && forall m :: m in marks ==> m.name != name
    ensures Tied(savepoints + [name], at + [|marks|], marks + [Mark(name, data)], saved + [data])
  {
  }

  /** A transaction object: its own list of savepoints over one SQL transaction. */
  class Transaction<!D> {
    const db: Database<D>
    var savepoints: seq<string>
    var committed: bool
    var closed: bool

    ghost var at: seq<nat>
    ghost var nested: Nested<D>

    /** While it is open the database shows what the nested transaction shows. */
    ghost predicate Valid()
      reads this, db
    {
      && closed == committed && db.open == !committed && nested.open == !committed
      && nested.durable == db.durable && nested.current == db.current
      && (if committed then db.marks == [] && nested == Nested(db.durable, db.durable, [], false)
          else Tied(savepoints, at, db.marks, nested.saved))
    }

    constructor (db: Database<D>)
      requires db.open && db.marks == [] && db.current == db.durable
      ensures Valid() && !committed && this.db == db
      ensures nested == Nested(db.durable, db.durable, [], true)
    {
      this.db := db;
      savepoints, committed, closed := [], false, false;
      at, nested := [], Nested(db.durable, db.durable, [], true);
    }

    /** Opens an inner level under a name that no mark of the transaction has. */
    method Savepoint(name: string) returns (ok: bool)
      requires Valid() && !committed
      requires forall m :: m in db.marks ==> m.name != name
      modifies this`savepoints, this`at, this`nested, db
      ensures Valid() && ok && db.open
      ensures nested == Apply(old(nested), Begin)
      ensures savepoints == old(savepoints) + [name]
      ensures db.marks == old(db.marks) + [Mark(name, db.current)]
    {
      TiedInner(savepoints, at, db.marks, nested.saved, name, db.current);
      at := at + [|db.marks|];
      nested := Apply(nested, Begin);
      savepoints := savepoints + [name];
      ok := db.Savepoint(name);
    }

    method Exec(change: D -> D) returns (ok: bool)
      requires Valid()
      modifies this`nested, db
      ensures Valid() && ok == !committed && db.marks == old(db.marks)
      ensures nested == Apply(old(nested), Write(change))
    {
      nested := Apply(nested, Write(change));
      ok := db.Exec(change);
    }

    /** Commits the innermost level, or the whole transaction if there is none. */
    method Commit() returns (ok: bool)
      requires Valid()
      modifies this, db
      ensures Valid() && (ok <==> !old(committed))
      ensures nested == Apply(old(nested), NestedTransactions.Commit)
      ensures forall m :: m in db.marks ==> m in old(db.marks)
    {
      if |savepoints| > 0 {
        ok := ReleaseSavepoint();
      } else {
        ok := CommitAll();
      }
    }

    /** Commits everything, inner levels included. */
    method CommitAll() returns (ok: bool)
      requires Valid()
      modifies this, db
      ensures Valid() && (ok <==> !old(committed)) && committed
      ensures nested == Apply(old(nested), NestedTransactions.CommitAll)
      ensures forall m :: m in db.marks ==> m in old(db.marks)
    {
      nested := Apply(nested, NestedTransactions.CommitAll);
      committed := true;
      if !closed {
        closed := true;
        ok := db.Commit();
      } else {
        ok := false;
      }
    }

    method RollbackAll() returns (ok: bool)
      requires Valid()
      modifies this, db
      ensures Valid() && (ok <==> !old(committed)) && committed
      ensures nested == Apply(old(nested), NestedTransactions.RollbackAll)
      ensures forall m :: m in db.marks ==> m in old(db.marks)
    {
      nested := Apply(nested, NestedTransactions.RollbackAll);
      committed := true;
      if !closed {
        closed := true;
        ok := db.Rollback();
      } else {
        ok := false;
      }
    }

    /** Rolls back the innermost level, or the whole transaction if there is none. The program
        forgets the savepoint; the database keeps its mark. */
    method Rollback() returns (ok: bool)
      requires Valid()
      modifies this, db
      ensures Valid() && (ok <==> !old(committed))
      ensures nested == Apply(old(nested), NestedTransactions.Rollback)
      ensures forall m :: m in db.marks ==> m in old(db.marks)
    {
      if |savepoints| > 0 {
        ghost var n := |savepoints| - 1;
        if !committed {
          MarkOf(savepoints, at, db.marks, nested.saved, n);
          TiedOuter(savepoints, at, db.marks, nested.saved, at[n] + 1);
          at := at[..n];
        }
        nested := Apply(nested, NestedTransactions.Rollback);
        var sp := savepoints[|savepoints| - 1];
        savepoints := savepoints[..|savepoints| - 1];
        ok := db.RollbackTo(sp);
      } else {
        ok := RollbackAll();
      }
    }

    /** Keeps the changes of the innermost level; an error if there is no level. */
    method ReleaseSavepoint() returns (ok: bool)
      requires Valid()
      modifies this, db
      ensures Valid() && (ok <==> |old(savepoints)| > 0 && !old(committed))
      ensures nested == if |old(savepoints)| > 0 then Apply(old(nested), NestedTransactions.Commit) else old(nested)
      ensures forall m :: m in db.marks ==> m in old(db.marks)
    {
      if |savepoints| == 0 {
        return false;
      }
      ghost var n := |savepoints| - 1;
      if !committed {
        MarkOf(savepoints, at, db.marks, nested.saved, n);
        TiedOuter(savepoints, at, db.marks, nested.saved, at[n]);
        at := at[..n];
      }
      nested := Apply(nested, NestedTransactions.Commit);
      var sp := savepoints[|savepoints| - 1];
      savepoints := savepoints[..|savepoints| - 1];
      ok := db.Release(sp);
    }
  }

  /** A model object: it starts a transaction, or a level inside the one it has. */
  class Rest<!D> {
    const db: Database<D>
    var transaction: Transaction?<D>

    ghost predicate Valid()
      reads this, db, transaction
    {
      if transaction == null then !db.open && db.current == db.durable && db.marks == []
      else transaction.db == db && transaction.Valid()
    }

    /** What callers see. */
    ghost function State(): Nested<D>
      reads this, db, transaction
    {
      if transaction == null then Nested(db.durable, db.durable, [], false) else transaction.nested
    }

    constructor (data: D)
      ensures Valid() && State() == Nested(data, data, [], false) && db.marks == []
      ensures transaction == null && fresh(db)
    {
      db := new Database(data);
      transaction := null;
    }

    /** Begins a transaction, or opens a level under a fresh name inside the open one. */
    method Transaction(name: string)
      requires Valid() && forall m :: m in db.marks ==> m.name != name
      modifies this, db, transaction
      ensures Valid() && State() == Apply(old(State()), Begin)
      ensures transaction != null && (transaction == old(transaction) || fresh(transaction))
      ensures forall m :: m in db.marks ==> m in old(db.marks) || m.name == name
    {
      if transaction != null && !transaction.committed {
        var _ := transaction.Savepoint(name);
      } else {
        db.BeginTx();
        transaction := new Transaction(db);
      }
    }

    method Do(op: Op<D>, name: string)
      requires Valid() && (op.Begin? ==> forall m :: m in db.marks ==> m.name != name)
      modifies this, db, transaction
      ensures Valid() && State() == Apply(old(State()), op)
      ensures transaction == old(transaction) || fresh(transaction)
      ensures forall m :: m in db.marks ==> m in old(db.marks) || (op.Begin? && m.name == name)
    {
      if op.Begin? {
        Transaction(name);
      } else if transaction != null {
        match op {
          case Write(change) => var _ := transaction.Exec(change);
          case Commit => var _ := transaction.Commit();
          case Rollback => var _ := transaction.Rollback();
          case CommitAll => var _ := transaction.CommitAll();
          case RollbackAll => var _ := transaction.RollbackAll();
        }
      }
    }

    /** For every sequence of operations, with fresh savepoint names, the database behaves
        like the stack of snapshots: the same view while a transaction is open, the same
        durable data always. */
    method Run(ops: seq<Op<D>>, names: seq<string>)
      requires Valid() && |names| == |ops|
      requires forall i, j :: 0 <= i < j < |names| ==> names[i] != names[j]
      requires forall m :: m in db.marks ==> m.name !in names
      modifies this, db, transaction
      ensures Valid() && State() == ApplyAll(old(State()), ops)
      ensures db.durable == State().durable && db.open == State().open
      ensures db.open ==> db.current == State().current
    {
      ghost var before := State();
      for i := 0 to |ops|
        invariant Valid() && ApplyAll(State(), ops[i..]) == ApplyAll(before, ops)
        invariant transaction == old(transaction) || fresh(transaction)
        invariant forall m, k :: m in db.marks && i <= k < |names| ==> m.name != names[k]
      {
        assert ops[i..][0] == ops[i] && ops[i..][1..] == ops[i + 1..];
        Do(ops[i], names[i]);
      }
    }
  }
}
