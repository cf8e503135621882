/** Transactions as callers think of them: a stack of snapshots. */
module NestedTransactions {

  /** What callers do. A write is any change of the data. */
  datatype Op<!D> =
    | Begin
    | Write(change: D -> D)
    | Commit
    | Rollback
    | CommitAll
    | RollbackAll

  /** The durable data, and while a transaction is open its own view with a snapshot for
      every level begun inside it. */
  datatype Nested<D> = Nested(durable: D, current: D, saved: seq<D>, open: bool)

  function Close<D>(n: Nested<D>, keep: bool): Nested<D> {
    var d := if keep then n.current else n.durable;
    Nested(d, d, [], false)
  }

  /** Operations outside a transaction, other than Begin, change nothing. */
  function Apply<D>(n: Nested<D>, op: Op<D>): Nested<D> {
    if op.Begin? then
      if n.open then n.(saved := n.saved + [n.current]) else Nested(n.durable, n.durable, [], true)
    else if !n.open then n
    else match op
      case Write(change) => n.(current := change(n.current))
      case Commit => if n.saved == [] then Close(n, true) else n.(saved := n.saved[..|n.saved| - 1])
      case Rollback =>
        if n.saved == [] then Close(n, false)
        else n.(current := n.saved[|n.saved| - 1], saved := n.saved[..|n.saved| - 1])
      case CommitAll => Close(n, true)
      case RollbackAll => Close(n, false)
  }

  function ApplyAll<D>(n: Nested<D>, ops: seq<Op<D>>): Nested<D>
    decreases |ops|
  {
    if ops == [] then n else ApplyAll(Apply(n, ops[0]), ops[1..])
  }

  lemma {:induction false} ApplyAllConcat<D>(n: Nested<D>, a: seq<Op<D>>, b: seq<Op<D>>)
    ensures ApplyAll(n, a + b) == ApplyAll(ApplyAll(n, a), b)
    decreases |a|
  {
    if a == [] {
      assert a + b == b;
    } else {
      assert (a + b)[1..] == a[1..] + b;
      ApplyAllConcat(Apply(n, a[0]), a[1..], b);
    }
  }

  /** Starting `level` levels deep the operations never end the level they start in. */
  predicate Stays<D>(ops: seq<Op<D>>, level: nat)
    decreases |ops|
  {
    ops == [] ||
    match ops[0]
    case Begin => Stays(ops[1..], level + 1)
    case Write(_) => Stays(ops[1..], level)
    case Commit => level > 0 && Stays(ops[1..], level - 1)
    case Rollback => level > 0 && Stays(ops[1..], level - 1)
    case CommitAll => false
    case RollbackAll => false
  }

  function EndLevel<D>(ops: seq<Op<D>>, level: int): int
    decreases |ops|
  {
    if ops == [] then level
    else
      EndLevel(ops[1..], match ops[0]
                         case Begin => level + 1
                         case Write(_) => level
                         case Commit => level - 1
                         case Rollback => level - 1
                         case CommitAll => level
                         case RollbackAll => level)
  }

  /** Every Begin has its own Commit or Rollback. */
  predicate Balanced<D>(ops: seq<Op<D>>) {
    Stays(ops, 0) && EndLevel(ops, 0) == 0
  }

  /** What happens inside a level touches neither the levels around it nor the durable data. */
  lemma {:induction false} LevelsAreClosed<D>(n: Nested<D>, ops: seq<Op<D>>, base: nat)
    requires n.open && base <= |n.saved| && Stays(ops, |n.saved| - base)
    ensures var r := ApplyAll(n, ops);
      && r.open && r.durable == n.durable
      && |r.saved| == base + EndLevel(ops, |n.saved| - base) && base <= |r.saved|
      && r.saved[..base] == n.saved[..base]
    decreases |ops|
  {
    if ops != [] {
      var m := Apply(n, ops[0]);
      assert m.saved[..base] == n.saved[..base];
      LevelsAreClosed(m, ops[1..], base);
    }
  }

  lemma BalancedKeepsLevels<D>(n: Nested<D>, ops: seq<Op<D>>)
    requires n.open && Balanced(ops)
    ensures var r := ApplyAll(n, ops); r == n.(current := r.current)
  {
    LevelsAreClosed(n, ops, |n.saved|);
    assert n.saved[..|n.saved|] == n.saved;
    var r := ApplyAll(n, ops);
    assert r.saved[..|n.saved|] == r.saved;
  }

  lemma Bracketed<D>(n: Nested<D>, ops: seq<Op<D>>, last: Op<D>)
    ensures ApplyAll(n, [Begin] + ops + [last]) == Apply(ApplyAll(Apply(n, Begin), ops), last)
  {
    ApplyAllConcat(n, [Begin] + ops, [last]);
    ApplyAllConcat(n, [Begin], ops);
    assert ApplyAll(n, [Begin]) == Apply(n, Begin);
  }

  /** Rolling back a level undoes everything since its Begin, whatever was begun, committed
      and rolled back inside: within a transaction the whole state is restored, and a whole
      transaction leaves the durable data as it was. */
  lemma RollbackUndoes<D>(n: Nested<D>, ops: seq<Op<D>>)
    requires Balanced(ops)
    ensures var r := ApplyAll(n, [Begin] + ops + [Rollback]);
      if n.open then r == n else r == Nested(n.durable, n.durable, [], false)
  {
    var m := Apply(n, Begin);
    Bracketed(n, ops, Rollback);
    BalancedKeepsLevels(m, ops);
    if n.open {
      assert m.saved[..|n.saved|] == n.saved;
    }
  }

  /** Committing an inner level keeps its changes and nothing else; only the commit of the
      outermost level makes them durable. */
  lemma CommitKeeps<D>(n: Nested<D>, ops: seq<Op<D>>)
    requires Balanced(ops)
    ensures var r := ApplyAll(n, [Begin] + ops + [Commit]);
      var m := ApplyAll(Apply(n, Begin), ops);
      if n.open then r == n.(current := m.current)
      else r == Nested(m.current, m.current, [], false)
  {
    Bracketed(n, ops, Commit);
    BalancedKeepsLevels(Apply(n, Begin), ops);
    if n.open {
      assert Apply(n, Begin).saved[..|n.saved|] == n.saved;
    }
  }

  lemma SameEnd<D>(s: seq<D>, t: seq<D>, a: nat, b: nat)
    requires a <= |s| && b <= |t| && s[a..] == t[b..]
    ensures |s| - a == |t| - b
    ensures |s| > a ==> s[|s| - 1] == t[|t| - 1] && s[..|s| - 1][a..] == t[..|t| - 1][b..]
  {
    assert |s[a..]| == |t[b..]|;
    if |s| > a {
      var k := |s| - a - 1;
      assert s[|s| - 1] == s[a..][k] && t[|t| - 1] == t[b..][k];
      assert s[..|s| - 1][a..] == s[a..][..k] && t[..|t| - 1][b..] == t[b..][..k];
    }
  }

  lemma OneMore<D>(s: seq<D>, t: seq<D>, a: nat, b: nat, d: D)
    requires a <= |s| && b <= |t| && s[a..] == t[b..]
    ensures (s + [d])[a..] == (t + [d])[b..]
  {
    assert (s + [d])[a..] == s[a..] + [d] && (t + [d])[b..] == t[b..] + [d];
  }

  /** The changes of an inner level are those the operations make without the level around them. */
  lemma {:induction false} LevelsDoNotMatter<D>(n: Nested<D>, m: Nested<D>, ops: seq<Op<D>>, a: nat, b: nat)
    requires n.open && m.open && n.current == m.current && a <= |n.saved| && b <= |m.saved|
    requires n.saved[a..] == m.saved[b..] && Stays(ops, |n.saved| - a)
    ensures ApplyAll(n, ops).current == ApplyAll(m, ops).current
    decreases |ops|
  {
    if ops != [] {
      SameEnd(n.saved, m.saved, a, b);
      OneMore(n.saved, m.saved, a, b, n.current);
      LevelsDoNotMatter(Apply(n, ops[0]), Apply(m, ops[0]), ops[1..], a, b);
    }
  }

  /** An inner transaction that commits has the effect of its operations alone. */
  lemma InnerCommitIsTransparent<D>(n: Nested<D>, ops: seq<Op<D>>)
    requires n.open && Balanced(ops)
    ensures ApplyAll(n, [Begin] + ops + [Commit]) == ApplyAll(n, ops)
  {
    CommitKeeps(n, ops);
    BalancedKeepsLevels(n, ops);
    var m := Apply(n, Begin);
    LevelsDoNotMatter(n, m, ops, |n.saved|, |m.saved|);
  }

  // ----- the same without snapshots: the changes that survive ------------------------------------------------

  /** The changes that are durable, and those of each open level, the outermost first. */
  datatype Journal<!D> = Journal(kept: seq<D -> D>, levels: seq<seq<D -> D>>)

  function Merged<D(!new)>(levels: seq<seq<D -> D>>): seq<D -> D> {
    if levels == [] then [] else Merged(levels[..|levels| - 1]) + levels[|levels| - 1]
  }

  /** A write is noted in the innermost level. Committing a level passes its changes to the one around
      it, rolling it back drops them. */
  function Note<D(!new)>(j: Journal<D>, op: Op<D>): Journal<D> {
    var n := |j.levels|;
    if op.Begin? then j.(levels := j.levels + [[]])
    else if n == 0 then j
    else match op
      case Write(change) => j.(levels := j.levels[n - 1 := j.levels[n - 1] + [change]])
      case Commit =>
        if n == 1 then Journal(j.kept + j.levels[0], [])
        else j.(levels := j.levels[..n - 2] + [j.levels[n - 2] + j.levels[n - 1]])
      case Rollback => j.(levels := j.levels[..n - 1])
      case CommitAll => Journal(j.kept + Merged(j.levels), [])
      case RollbackAll => Journal(j.kept, [])
  }

  function NoteAll<D(!new)>(j: Journal<D>, ops: seq<Op<D>>): Journal<D>
    decreases |ops|
  {
    if ops == [] then j else NoteAll(Note(j, ops[0]), ops[1..])
  }

  /** Does the changes in order. */
  function Redo<D(!new)>(d: D, changes: seq<D -> D>): D {
    if changes == [] then d else changes[|changes| - 1](Redo(d, changes[..|changes| - 1]))
  }

  lemma {:induction false} RedoConcat<D(!new)>(d: D, a: seq<D -> D>, b: seq<D -> D>)
    ensures Redo(d, a + b) == Redo(Redo(d, a), b)
  {
    if b == [] {
      assert a + b == a;
    } else {
      var n := |b| - 1;
      assert (a + b)[..|a + b| - 1] == a + b[..n];
      RedoConcat(d, a, b[..n]);
    }
  }

  lemma RedoOne<D(!new)>(d: D, a: seq<D -> D>, change: D -> D)
    ensures Redo(d, a + [change]) == change(Redo(d, a))
  {
    assert (a + [change])[..|a|] == a;
  }

  lemma MergedLast<D(!new)>(levels: seq<seq<D -> D>>, last: seq<D -> D>)
    ensures Merged(levels + [last]) == Merged(levels) + last && Merged<D>([]) == []
  {
    assert (levels + [last])[..|levels|] == levels;
  }

  /** The data are the surviving changes done over, level by level. */
  predicate Follows<D(!new, ==)>(n: Nested<D>, j: Journal<D>, d: D) {
    && n.durable == Redo(d, j.kept)
    && (n.open <==> j.levels != [])
    && (if n.open then
          && |n.saved| == |j.levels| - 1
          && n.current == Redo(n.durable, Merged(j.levels))
          && forall i :: 0 <= i < |n.saved| ==> n.saved[i] == Redo(n.durable, Merged(j.levels[..i + 1]))
        else n.saved == [] && n.current == n.durable)
  }

  lemma BeginFollows<D(!new)>(n: Nested<D>, j: Journal<D>, d: D)
    requires Follows(n, j, d)
    ensures Follows(Apply(n, Begin), Note(j, Begin), d)
  {
    hide Redo, Merged;
    var k := Note(j, Begin);
    MergedLast(j.levels, []);
    assert k.levels[..|j.levels|] == j.levels;
    assert Merged(j.levels) + [] == Merged(j.levels);
    forall i {:trigger k.levels[..i + 1]} | 0 <= i < |n.saved|
      ensures k.levels[..i + 1] == j.levels[..i + 1]
    {
    }
    if !n.open {
      RedoNothing(n.durable);
    }
  }

  lemma RedoNothing<D(!new)>(d: D)
    ensures Redo(d, []) == d && Merged<D>([]) == []
  {
  }

  lemma WriteFollows<D(!new)>(n: Nested<D>, j: Journal<D>, d: D, change: D -> D)
    requires Follows(n, j, d) && n.open
    ensures Follows(Apply(n, Write(change)), Note(j, Write(change)), d)
  {
    hide Redo, Merged;
    var m := |j.levels| - 1;
    var front, last := j.levels[..m], j.levels[m];
    var k := Note(j, Write(change));
    assert j.levels == front + [last] && k.levels == front + [last + [change]];
    MergedLast(front, last);
    MergedLast(front, last + [change]);
    assert Merged(front) + (last + [change]) == Merged(front) + last + [change];
    RedoOne(n.durable, Merged(front) + last, change);
    forall i {:trigger k.levels[..i + 1]} | 0 <= i < |n.saved|
      ensures k.levels[..i + 1] == j.levels[..i + 1]
    {
    }
  }

  lemma CommitFollows<D(!new)>(n: Nested<D>, j: Journal<D>, d: D)
    requires Follows(n, j, d) && n.open
    ensures Follows(Apply(n, Commit), Note(j, Commit), d)
  {
    hide Redo, Merged;
    var m := |j.levels| - 1;
    var front, last := j.levels[..m], j.levels[m];
    assert j.levels == front + [last];
    MergedLast(front, last);
    if m == 0 {
      RedoConcat(d, j.kept, last);
      assert [] + last == last;
    } else {
      var rest, mine := j.levels[..m - 1], j.levels[m - 1];
      var k := Note(j, Commit);
      assert front == rest + [mine];
      MergedLast(rest, mine);
      MergedLast(rest, mine + last);
      assert Merged(rest) + (mine + last) == Merged(rest) + mine + last;
      forall i {:trigger k.levels[..i + 1]} | 0 <= i < |n.saved| - 1
        ensures k.levels[..i + 1] == j.levels[..i + 1]
      {
      }
    }
  }

  lemma RollbackFollows<D(!new)>(n: Nested<D>, j: Journal<D>, d: D)
    requires Follows(n, j, d) && n.open
    ensures Follows(Apply(n, Rollback), Note(j, Rollback), d)
  {
    hide Redo, Merged;
    var k := Note(j, Rollback);
    forall i {:trigger k.levels[..i + 1]} | 0 <= i < |k.levels|
      ensures k.levels[..i + 1] == j.levels[..i + 1]
    {
    }
    assert k.levels == j.levels[..|k.levels|];
  }

  lemma AllFollow<D(!new)>(n: Nested<D>, j: Journal<D>, d: D)
    requires Follows(n, j, d) && n.open
    ensures Follows(Apply(n, CommitAll), Note(j, CommitAll), d)
    ensures Follows(Apply(n, RollbackAll), Note(j, RollbackAll), d)
  {
    hide Redo, Merged;
    RedoConcat(d, j.kept, Merged(j.levels));
  }

  /** For every sequence of operations the durable data are what the changes that have been committed
      through all their levels make of the first data, in order; and what callers see in a transaction
      is that with the changes of its open levels. */
  lemma {:induction false} SurvivingChanges<D(!new)>(n: Nested<D>, j: Journal<D>, d: D, ops: seq<Op<D>>)
    requires Follows(n, j, d)
    ensures Follows(ApplyAll(n, ops), NoteAll(j, ops), d)
    decreases |ops|
  {
    hide Follows, Apply, Note;
    if ops != [] {
      match ops[0] {
        case Begin => BeginFollows(n, j, d);
        case _ =>
          if !n.open {
            NothingFollows(n, j, d, ops[0]);
          } else {
            match ops[0]
            case Write(change) => WriteFollows(n, j, d, change);
            case Commit => CommitFollows(n, j, d);
            case Rollback => RollbackFollows(n, j, d);
            case CommitAll => AllFollow(n, j, d);
            case RollbackAll => AllFollow(n, j, d);
          }
      }
      SurvivingChanges(Apply(n, ops[0]), Note(j, ops[0]), d, ops[1..]);
    }
  }

  lemma NothingFollows<D(!new)>(n: Nested<D>, j: Journal<D>, d: D, op: Op<D>)
    requires Follows(n, j, d) && !n.open && !op.Begin?
    ensures Apply(n, op) == n && Note(j, op) == j
  {
  }

  lemma FirstJournal<D(!new)>(d: D)
    ensures Follows(Nested(d, d, [], false), Journal([], []), d)
  {
  }

  /** Committing or rolling back everything is committing or rolling back level by level. */
  lemma {:induction false} AllAtOnce<D(!new)>(n: Nested<D>)
    requires n.open
    ensures ApplyAll(n, seq<Op<D>>(|n.saved| + 1, _ => Commit)) == Apply(n, CommitAll)
    ensures ApplyAll(n, seq<Op<D>>(|n.saved| + 1, _ => Rollback)) == Apply(n, RollbackAll)
    decreases |n.saved|
  {
    var k := |n.saved| + 1;
    var cs: seq<Op<D>> := seq(k, _ => Commit);
    var rs: seq<Op<D>> := seq(k, _ => Rollback);
    assert cs[1..] == seq(k - 1, _ => Commit);
    assert rs[1..] == seq(k - 1, _ => Rollback);
    if k > 1 {
      AllAtOnce(Apply(n, Commit));
      AllAtOnce(Apply(n, Rollback));
    }
  }
}
