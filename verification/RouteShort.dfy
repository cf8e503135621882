/** The requests for which one value is not enough. */
module RouteShort {
  import opened Options
  import opened RouteTree
  import opened RouteSearch
  import opened RouteRun

  /** A character that no node has, in a tree where a slash follows a parameter and nothing a star. */
  predicate Fresh(n: Node, c: char)
    decreases n
  {
    && c !in n.prefix
    && (n.kind == Any ==> n.children == [])
    && (n.kind == Param ==> forall i :: 0 <= i < |n.children| ==> n.children[i].tag == '/')
    && (forall i :: 0 <= i < |n.children| ==> Fresh(n.children[i], c))
  }

  /** A character for the value of a wildcard. */
  predicate Letter(c: char) { c != '/' && !IsWildcard(c) }

  /** No path from the node down has more wildcards than `room`. */
  predicate Few(n: Node, room: nat)
    decreases n
  {
    if n.kind == Static then forall i :: 0 <= i < |n.children| ==> Few(n.children[i], room)
    else room > 0 && forall i :: 0 <= i < |n.children| ==> Few(n.children[i], room - 1)
  }

  lemma ChildLookup(n: Node, i: nat, q: string)
    requires Radix(n) && i < |n.children| && Lookup(n.children[i], q).Some?
    ensures Lookup(n, n.prefix + q) == Lookup(n.children[i], q)
  {
    var c := n.children[i];
    assert Radix(c) && c.prefix <= q && q[0] == c.prefix[0] == c.tag;
    LookupDown(n, q);
    ChildIndexUnique(n.children, i);
  }

  lemma {:induction false} FewIs(n: Node, base: string, room: nat)
    requires Radix(n) && Kinds(n, base)
    requires forall q :: Lookup(n, q).Some? ==> Wildcards(q) <= room
    ensures Few(n, room)
    decreases n
  {
    hide Wildcards;
    WildcardsOfKind(n.prefix, n.kind);
    assert Lookup(n, n.prefix).Some?;
    var left := if n.kind == Static then room else room - 1;
    forall i | 0 <= i < |n.children|
      ensures Few(n.children[i], left)
    {
      var c := n.children[i];
      forall q | Lookup(c, q).Some?
        ensures Wildcards(q) <= left
      {
        ChildLookup(n, i, q);
        WildcardsConcat(n.prefix, q);
      }
      assert Radix(c) && Kinds(c, base + n.prefix);
      FewIs(c, base + n.prefix, left);
    }
  }

  lemma WildcardsOfKind(s: string, kind: Kind)
    requires OneKind(s, kind)
    ensures Wildcards(s) == if kind == Static then 0 else 1
  {
    if kind == Static {
      PlainHasNone(s);
    } else {
      assert s[..0] == "";
    }
  }

  lemma {:induction false} NamesOfFew(n: Node, base: string, room: nat, most: nat)
    requires Kinds(n, base) && Few(n, room) && Wildcards(base) + room <= most
    ensures NamesWithin(n, most)
    decreases n
  {
    hide Wildcards;
    WildcardsOfKind(n.prefix, n.kind);
    WildcardsConcat(base, n.prefix);
    var left := if n.kind == Static then room else room - 1;
    forall i | 0 <= i < |n.children|
      ensures NamesWithin(n.children[i], most)
    {
      assert Kinds(n.children[i], base + n.prefix);
      NamesOfFew(n.children[i], base + n.prefix, left, most);
    }
  }

  lemma {:induction false} NoUses(n: Node)
    requires forall i :: 0 <= i < |n.children| ==> Few(n.children[i], 0)
    ensures Uses(n) == Use(0, 0) && KindIndex(n.children, Param) == KindIndex(n.children, Any) == |n.children|
    decreases n
  {
    NoUsesIn(n, |n.children|);
    NoParamUses(n);
    hide StaticUses;
  }

  lemma {:induction false} NoUsesIn(n: Node, k: nat)
    requires k <= |n.children| && forall i :: 0 <= i < |n.children| ==> Few(n.children[i], 0)
    ensures StaticUses(n, k) == Use(0, 0)
    decreases n, k
  {
    hide Uses;
    if k > 0 {
      NoUsesIn(n, k - 1);
      assert Few(n.children[k - 1], 0);
      NoUses(n.children[k - 1]);
    }
  }

  // ----- a path with two wildcards ---------------------------------------------------------------

  /** The pattern with one letter for each wildcard. */
  function Sample(p: string, c: char): string {
    if p == "" then "" else [if IsWildcard(p[0]) then c else p[0]] + Sample(p[1..], c)
  }

  lemma {:induction false} SamplePlain(p: string, rest: string, c: char)
    requires Plain(p)
    ensures Sample(p + rest, c) == p + Sample(rest, c)
  {
    if p == "" {
      assert p + rest == rest;
    } else {
      assert (p + rest)[1..] == p[1..] + rest;
      SamplePlain(p[1..], rest, c);
    }
  }

  lemma SampleWild(p: string, rest: string, c: char)
    requires |p| == 1 && IsWildcard(p[0])
    ensures Sample(p + rest, c) == [c] + Sample(rest, c)
  {
    assert (p + rest)[1..] == rest;
  }

  lemma FreshLabel(n: Node, c: char)
    requires Radix(n) && Fresh(n, c)
    ensures NoStatic(n, c)
  {
    forall i | 0 <= i < |n.children|
      ensures n.children[i].tag != c
    {
      assert Radix(n.children[i]) && Fresh(n.children[i], c);
    }
  }

  lemma ParamBelow(n: Node, base: string)
    requires Radix(n) && Kinds(n, base) && KindIndex(n.children, Param) < |n.children|
    ensures Lookup(n, n.prefix + ":").Some?
  {
    var i := KindIndex(n.children, Param);
    assert Kinds(n.children[i], base + n.prefix);
    ChildLookup(n, i, ":");
  }

  predicate Uncontested(n: Node, p: string) {
    p != "" && p[|p| - 1] == '*' ==> Lookup(n, p[..|p| - 1] + ":").None?
  }

  lemma UncontestedBelow(n: Node, i: nat, rest: string)
    requires Radix(n) && i < |n.children| && rest != "" && Uncontested(n, n.prefix + rest)
    ensures Uncontested(n.children[i], rest)
  {
    var front := rest[..|rest| - 1] + ":";
    assert (n.prefix + rest)[..|n.prefix + rest| - 1] + ":" == n.prefix + front;
    if Lookup(n.children[i], front).Some? {
      ChildLookup(n, i, front);
    }
  }

  lemma SampleBelow(n: Node, base: string, rest: string, c: char)
    requires Kinds(n, base) && n.kind != Any
    ensures var p := n.prefix + rest;
      var s := Sample(if n.kind == Param then p[1..] else p, c);
      (n.kind == Param || n.prefix <= s) && Rest(n, s) == Sample(rest, c)
    ensures Sample(rest, c) == "" <==> rest == ""
  {
    if n.kind == Param {
      assert (n.prefix + rest)[1..] == rest;
    } else {
      SamplePlain(n.prefix, rest, c);
    }
  }

  lemma ChildOk(n: Node, base: string, i: nat, c: char)
    requires Radix(n) && Kinds(n, base) && Fresh(n, c) && i < |n.children|
    ensures Radix(n.children[i]) && Kinds(n.children[i], base + n.prefix) && Fresh(n.children[i], c)
  {
  }

  lemma StarEnds(d: Node, base: string, rest: string, c: char)
    requires Kinds(d, base) && Fresh(d, c) && d.kind == Any && Lookup(d, rest).Some?
    ensures rest == "*" && d.prefix == "*"
  {
  }

  lemma SampleSegment(d: Node, base: string, rest: string, c: char)
    requires Radix(d) && Kinds(d, base) && Fresh(d, c) && Letter(c) && d.kind == Param && Lookup(d, rest).Some?
    ensures rest != "" && Sample(rest, c) != ""
    ensures var t := Sample(rest, c); t[0] == c && SegmentEnd(t, 0) == 1 && t[1..] == Sample(rest[1..], c)
  {
    var tail := rest[1..];
    assert rest == ":" + tail;
    SampleWild(":", tail, c);
    var t := Sample(rest, c);
    if tail != "" {
      LookupDown(d, tail);
      assert tail[0] == '/';
      assert t[1] == Sample(tail, c)[0] == '/';
    }
    assert t[0..1] == [c];
    SegmentEndIs(t, 0, 1);
  }

  lemma StarAlone(n: Node, base: string, p: string)
    requires Radix(n) && Kinds(n, base) && p == n.prefix + "*" && Uncontested(n, p)
    ensures KindIndex(n.children, Param) == |n.children|
  {
    assert p[..|p| - 1] == n.prefix;
    if KindIndex(n.children, Param) < |n.children| {
      ParamBelow(n, base);
    }
  }

  /** The sample of a node's path follows it. */
  lemma {:induction false} SampleLeads(n: Node, base: string, p: string, c: char)
    requires Radix(n) && Kinds(n, base) && Fresh(n, c) && Letter(c) && n.kind != Any
    requires Lookup(n, p).Some? && Uncontested(n, p)
    ensures n.prefix <= p && p != "" && Leads(n, p, Sample(if n.kind == Param then p[1..] else p, c))
    decreases n
  {
    hide Radix, Kinds, Fresh, Wildcards, KindIndex, FirstChild, Uncontested, Sample, SegmentEnd, NoStatic, Letter;
    var rest := p[|n.prefix|..];
    assert p == n.prefix + rest;
    SampleBelow(n, base, rest, c);
    NotEmpty(n);
    if rest != "" {
      LookupDown(n, rest);
      var i := ChildIndex(n.children, rest[0]);
      var d := n.children[i];
      ChildOk(n, base, i, c);
      UncontestedBelow(n, i, rest);
      FreshLabel(n, c);
      if d.kind == Any {
        StarEnds(d, base + n.prefix, rest, c);
        StarAlone(n, base, p);
        SampleWild("*", "", c);
        assert "*" + "" == "*";
      } else {
        SampleLeads(d, base + n.prefix, rest, c);
        if d.kind == Param {
          SampleSegment(d, base + n.prefix, rest, c);
        }
      }
    }
  }

  lemma NotEmpty(n: Node)
    requires Radix(n)
    ensures n.prefix != ""
  {
  }

  /** The part of a path up to its last wildcard. */
  lemma {:induction false} LastWildcard(s: string) returns (q: string)
    requires Wildcards(s) > 0
    ensures q <= s && q != "" && IsWildcard(q[|q| - 1]) && Wildcards(q) == Wildcards(s)
  {
    if IsWildcard(s[|s| - 1]) {
      q := s;
    } else {
      q := LastWildcard(s[..|s| - 1]);
    }
  }

  lemma RadixBelow(n: Node, i: nat)
    requires Radix(n) && i < |n.children|
    ensures Radix(n.children[i])
  {
  }

  lemma WildInNode(n: Node, base: string, q: string)
    requires Kinds(n, base) && q <= n.prefix && q != "" && IsWildcard(q[|q| - 1])
    ensures q == n.prefix
  {
    assert q[|q| - 1] == n.prefix[|q| - 1];
  }

  /** A path to a node has a node at each of its wildcards. */
  lemma {:induction false} WildIsNode(n: Node, base: string, path: string, q: string)
    requires Radix(n) && Kinds(n, base) && Lookup(n, path).Some?
    requires q <= path && q != "" && IsWildcard(q[|q| - 1])
    ensures Lookup(n, q).Some?
    decreases n
  {
    hide Radix, Kinds;
    if |q| <= |n.prefix| {
      assert n.prefix <= path;
      WildInNode(n, base, q);
    } else {
      var tail, rest := q[|n.prefix|..], path[|n.prefix|..];
      assert q == n.prefix + tail && path == n.prefix + rest && tail <= rest;
      LookupDown(n, rest);
      LookupDown(n, tail);
      var i := ChildIndex(n.children, rest[0]);
      KindsBelow(n, base, i);
      RadixBelow(n, i);
      WildIsNode(n.children[i], base + n.prefix, rest, tail);
    }
  }

  /** A path with a wildcard too many has a request that runs out of values. */
  lemma ManyWildcards(root: Node, q: string, room: nat, c: char) returns (path: string)
    requires TreeOk(root) && Fresh(root, c) && Letter(c)
    requires Lookup(root, q).Some? && Wildcards(q) > room
    ensures path != "" && forall values, verb :: |values| == room ==> Answered(root, path, values, verb).Short?
  {
    hide Lookup, Wildcards, Radix, Kinds, Fresh, Answered, Leads, TreeOk;
    var p := LastWildcard(q);
    RootParts(root, q);
    WildIsNode(root, "", q, p);
    var front := p[..|p| - 1];
    if p[|p| - 1] == '*' && Lookup(root, front + ":").Some? {
      SwapWildcard(p);
      p := front + ":";
    }
    SampleLeads(root, "", p, c);
    path := Sample(p, c);
    SampleSize(p, c);
    forall values: seq<string>, verb | |values| == room
      ensures Answered(root, path, values, verb).Short?
    {
      FollowedIsShort(root, path, values, verb, p);
    }
  }

  lemma RootParts(root: Node, q: string)
    requires TreeOk(root) && Lookup(root, q).Some? && Wildcards(q) > 0
    ensures Radix(root) && Kinds(root, "") && root.kind == Static
  {
    RootIsStatic(root);
    if root == EMPTY {
      NothingThere(q);
    }
  }

  lemma NothingThere(q: string)
    ensures Lookup(EMPTY, q).Some? ==> q == "" && Wildcards(q) == 0
  {
  }

  lemma SwapWildcard(p: string)
    requires p != "" && p[|p| - 1] == '*'
    ensures Wildcards(p[..|p| - 1] + ":") == Wildcards(p)
  {
    var q := p[..|p| - 1] + ":";
    assert q[..|q| - 1] == p[..|p| - 1];
  }

  lemma SampleSize(p: string, c: char)
    ensures p != "" ==> Sample(p, c) != ""
  {
  }

  // ----- a stray into a parameter child below a slash with its own ---------------------------------

  /** The first static child that a search can stray through. */
  function StrayChild(n: Node, k: nat): (i: nat)
    requires k <= |n.children| && StaticUses(n, k).stray > 0
    ensures i < k && n.children[i].kind == Static && Uses(n.children[i]).stray > 0
  {
    if n.children[k - 1].kind == Static && Uses(n.children[k - 1]).stray > 0 then k - 1 else StrayChild(n, k - 1)
  }

  /** The way to a parameter child that a search enters before it comes back. */
  function StrayPath(n: Node): string
    requires Uses(n).stray > 0
    decreases n
  {
    if ParamUses(n).stray > 0 then n.prefix
    else n.prefix + StrayPath(n.children[StrayChild(n, |n.children|)])
  }

  /** A static child from which more than one value can be used. */
  function BusyChild(n: Node, k: nat): (i: nat)
    requires k <= |n.children| && StaticUses(n, k).all > 1
    ensures i < k && n.children[i].kind == Static && Uses(n.children[i]).all > 1
  {
    if n.children[k - 1].kind == Static && Uses(n.children[k - 1]).all > 1 then k - 1 else BusyChild(n, k - 1)
  }

  lemma FewUses(n: Node)
    requires Few(n, 1) && n.kind == Static
    ensures ParamUses(n).all <= 1 && ParamUses(n).stray <= 1
  {
    var i := KindIndex(n.children, Param);
    if i < |n.children| {
      assert Few(n.children[i], 1);
      NoUses(n.children[i]);
    }
  }

  lemma {:induction false} StrayIsPart(n: Node)
    ensures Uses(n).stray <= Uses(n).all && ParamUses(n).stray <= ParamUses(n).all
    decreases n, |n.children| + 1
  {
    hide StaticUses;
    StrayIsPartIn(n, |n.children|);
    var i := KindIndex(n.children, Param);
    if i < |n.children| {
      StrayIsPart(n.children[i]);
    }
  }

  lemma {:induction false} StrayIsPartIn(n: Node, k: nat)
    requires k <= |n.children|
    ensures StaticUses(n, k).stray <= StaticUses(n, k).all
    decreases n, k
  {
    hide Uses;
    if k > 0 {
      StrayIsPartIn(n, k - 1);
      StrayIsPart(n.children[k - 1]);
    }
  }

  /** From a slash with a parameter child, through static children to a second one. */
  function ClashPath(n: Node): string
    requires n.kind == Static && Few(n, 1) && Uses(n).all > 1
    decreases n
  {
    FewUses(n);
    var k := |n.children|;
    if StaticUses(n, k).all > 1 then
      var i := BusyChild(n, k);
      n.prefix + ClashPath(n.children[i])
    else n.prefix + StrayPath(n.children[StrayChild(n, k)])
  }

  /** Back at a saved slash whose parameter child is still to come, with no room left. */
  predicate Stuck(g: State) {
    && g.nn.Some? && g.nk == Param && KindIndex(g.nn.value.children, Param) < |g.nn.value.children|
    && g.n == |g.values| == 1
  }

  lemma ResumedIsFull(root: Node, path: string, pc: Pc, g: State, h: State)
    requires Ok(root, path, pc, g) && Stuck(g) && (h == Return(g) || h == ReturnOnce(g)) && Next(pc, g) == Go(Branch, h)
    ensures Outcome(root, path, pc, g) == Full(h)
  {
    hide Ok, Next;
    OutcomeNext(root, path, pc, g, Branch, h);
    NoRoom(root, path, h);
  }

  /** A node with neither a parameter child nor a star, and no static child for what is left. */
  lemma DeadEnd(root: Node, path: string, b: State)
    requires Ok(root, path, Branch, b) && Stuck(b)
    requires KindIndex(b.cn.children, Param) == KindIndex(b.cn.children, Any) == |b.cn.children|
    ensures Outcome(root, path, Branch, b).Full?
  {
    hide Ok, KindIndex;
    OutcomeNext(root, path, Branch, b, Wild, b);
    ResumedIsFull(root, path, Wild, b, ReturnOnce(b));
  }

  lemma MismatchIsFull(root: Node, path: string, f: State)
    requires Ok(root, path, Top, f) && Stuck(f) && f.search != "" && f.cn.kind != Param && !(f.cn.prefix <= f.search)
    ensures Outcome(root, path, Top, f).Full?
  {
    hide Ok, KindIndex;
    ResumedIsFull(root, path, Top, f, Return(f));
  }

  lemma UseOfChild(n: Node, i: nat, c: char)
    requires Radix(n) && i < |n.children| && n.children[i].kind == Static
    requires Few(n, 1) && n.kind == Static && Fresh(n, c)
    ensures Few(n.children[i], 1) && Fresh(n.children[i], c) && Radix(n.children[i])
    ensures n.children[i].prefix != "" && StaticChild(n, n.children[i].prefix[0]) == i
  {
    var d := n.children[i];
    assert Radix(d);
    FirstChildIs(n.children, LabelAndKind(d.tag, Static), i);
  }

  /** What follows the way to a parameter child: a value, and a segment that leads nowhere. */
  function Tail(c: char): string { [c, '/', c] }

  /** Behind its own text the search enters the static child that the path begins with. */
  lemma GoDown(root: Node, path: string, g: State, i: nat, rest: string) returns (h: State)
    requires Ok(root, path, Top, g) && g.cn.kind == Static && g.search == g.cn.prefix + rest
    requires i < |g.cn.children| && rest != "" && StaticChild(g.cn, rest[0]) == i && Child(g, i).kind == Static
    ensures Ok(root, path, Top, h) && Outcome(root, path, Top, g) == Outcome(root, path, Top, h)
    ensures h.cn == Child(g, i) && h.search == rest && h.n == g.n && h.values == g.values
    ensures if g.cn.tag == '/' then h.nn == Some(g.cn) && h.nk == Param else h.nn == g.nn && h.nk == g.nk
  {
    hide Ok;
    OkParts(root, path, Top, g);
    assert (g.cn.prefix + rest)[|g.cn.prefix|..] == rest;
    h := EnterStatic(Consume(g), i);
    OutcomeNext(root, path, Top, g, Top, h);
  }

  /** In the parameter child nothing takes the rest, so the search is stuck. */
  lemma BehindParam(root: Node, path: string, e: State, c: char)
    requires Ok(root, path, Top, e) && e.cn.kind == Param && Stuck(e)
    requires Radix(e.cn) && Few(e.cn, 1) && Fresh(e.cn, c) && Letter(c) && e.search == ['/', c]
    ensures Outcome(root, path, Top, e).Full?
  {
    hide Ok, Outcome, KindIndex, Fresh, Stuck, Radix;
    OkParts(root, path, Top, e);
    ConsumeNothing(e);
    NoUses(e.cn);
    var i := StaticChild(e.cn, '/');
    if i == |e.cn.children| {
      OutcomeNext(root, path, Top, e, Branch, e);
      DeadEnd(root, path, e);
    } else {
      var f := EnterStatic(e, i);
      OutcomeNext(root, path, Top, e, Top, f);
      SlashChild(e.cn, i, c);
      assert Stuck(f) by { SameStuck(e, f); }
      BehindSlash(root, path, f, c);
    }
  }

  lemma SameStuck(e: State, f: State)
    requires Stuck(e) && f.nn == e.nn && f.nk == e.nk && f.n == e.n && f.values == e.values
    ensures Stuck(f)
  {
  }

  lemma SlashChild(p: Node, i: nat, c: char)
    requires Few(p, 1) && p.kind == Param && Radix(p) && Fresh(p, c) && i < |p.children| && p.children[i].kind == Static
    ensures Few(p.children[i], 0) && Fresh(p.children[i], c) && Radix(p.children[i])
  {
  }

  lemma LongerSlash(prefix: string, c: char)
    requires |prefix| > 1 && c !in prefix
    ensures !(prefix <= ['/', c])
  {
    assert prefix[1] != c;
  }

  lemma BehindSlash(root: Node, path: string, f: State, c: char)
    requires Ok(root, path, Top, f) && f.cn.kind == Static && f.cn.tag == '/' && Stuck(f)
    requires Radix(f.cn) && Few(f.cn, 0) && Fresh(f.cn, c) && f.search == ['/', c]
    ensures Outcome(root, path, Top, f).Full?
  {
    hide Ok, Outcome, KindIndex, Stuck;
    if |f.cn.prefix| == 1 {
      var b := Consume(f);
      ConsumeIs(f);
      assert f.cn.prefix == "/" && b.search == [c];
      FreshLabel(f.cn, c);
      NoUses(f.cn);
      OutcomeNext(root, path, Top, f, Branch, b);
      SameStuck(f, b);
      DeadEnd(root, path, b);
    } else {
      LongerSlash(f.cn.prefix, c);
      MismatchIsFull(root, path, f);
    }
  }

  lemma SomeParam(n: Node)
    requires ParamUses(n).all > 0 || ParamUses(n).stray > 0
    ensures KindIndex(n.children, Param) < |n.children|
  {
  }

  /** The state in the node's parameter child, with a value taken. */
  lemma EnterOnlyParam(root: Node, path: string, g: State, c: char) returns (e: State)
    requires Ok(root, path, Top, g) && g.cn.kind == Static && g.cn.tag != '/' && g.search == g.cn.prefix + Tail(c)
    requires Fresh(g.cn, c) && Radix(g.cn) && Few(g.cn, 1) && Letter(c) && ParamUses(g.cn).stray > 0
    requires g.n == 0 && |g.values| == 1 && g.nn.Some? && g.nk == Param
    ensures Ok(root, path, Top, e) && Outcome(root, path, Top, g) == Outcome(root, path, Top, e)
    ensures e.cn.kind == Param && Few(e.cn, 1) && Fresh(e.cn, c) && Radix(e.cn) && e.search == ['/', c]
    ensures e.n == 1 && |e.values| == 1 && e.nn == g.nn && e.nk == g.nk
  {
    hide Ok, Outcome, KindIndex;
    var i := KindIndex(g.cn.children, Param);
    SomeParam(g.cn);
    assert (g.cn.prefix + Tail(c))[|g.cn.prefix|..] == Tail(c);
    var b := Consume(g);
    ConsumeIs(g);
    FreshLabel(g.cn, c);
    OutcomeNext(root, path, Top, g, Branch, b);
    assert Tail(c)[0..1] == [c];
    SegmentEndIs(Tail(c), 0, 1);
    e := EnterParam(b, i, 1);
    OutcomeNext(root, path, Branch, b, Top, e);
    assert Tail(c)[1..] == ['/', c];
    assert Few(g.cn.children[i], 1) && Radix(g.cn.children[i]);
  }

  lemma {:induction false} StrayIsFull(root: Node, path: string, g: State, c: char)
    requires Ok(root, path, Top, g) && g.cn.kind == Static && Few(g.cn, 1) && Fresh(g.cn, c) && Radix(g.cn) && Letter(c)
    requires Uses(g.cn).stray > 0 && g.search == StrayPath(g.cn) + Tail(c)
    requires g.n == 0 && |g.values| == 1 && g.nn.Some? && g.nk == Param
    requires KindIndex(g.nn.value.children, Param) < |g.nn.value.children|
    ensures Outcome(root, path, Top, g).Full?
    decreases g.cn
  {
    hide Ok, Outcome, KindIndex, Few, Fresh, Radix, ParamUses;
    if ParamUses(g.cn).stray > 0 {
      var e := EnterOnlyParam(root, path, g, c);
      BehindParam(root, path, e, c);
    } else {
      var i := StrayChild(g.cn, |g.cn.children|);
      UseOfChild(g.cn, i, c);
      var d := g.cn.children[i];
      var rest := StrayPath(d) + Tail(c);
      assert g.search == g.cn.prefix + rest;
      StrayBegins(d);
      var h := GoDown(root, path, g, i, rest);
      StrayIsFull(root, path, h, c);
    }
  }

  lemma StrayBegins(d: Node)
    requires Uses(d).stray > 0 && d.prefix != ""
    ensures StrayPath(d) != "" && StrayPath(d)[0] == d.prefix[0]
  {
  }

  lemma ClashBegins(d: Node)
    requires d.kind == Static && Few(d, 1) && Uses(d).all > 1 && d.prefix != ""
    ensures ClashPath(d) != "" && ClashPath(d)[0] == d.prefix[0]
  {
  }

  lemma {:induction false} ClashIsFull(root: Node, path: string, g: State, c: char)
    requires Ok(root, path, Top, g) && g.cn.kind == Static && Few(g.cn, 1) && Fresh(g.cn, c) && Radix(g.cn) && Letter(c)
    requires Uses(g.cn).all > 1 && g.search == ClashPath(g.cn) + Tail(c)
    requires g.n == 0 && |g.values| == 1
    ensures Outcome(root, path, Top, g).Full?
    decreases g.cn
  {
    hide Ok, Outcome, KindIndex, Few, Fresh, Radix, ParamUses, StaticUses, Consume;
    FewUses(g.cn);
    StrayIsPartIn(g.cn, |g.cn.children|);
    var k := |g.cn.children|;
    if StaticUses(g.cn, k).all > 1 {
      var i := BusyChild(g.cn, k);
      UseOfChild(g.cn, i, c);
      var d := g.cn.children[i];
      var rest := ClashPath(d) + Tail(c);
      assert g.search == g.cn.prefix + rest;
      ClashBegins(d);
      var h := GoDown(root, path, g, i, rest);
      ClashIsFull(root, path, h, c);
    } else {
      var i := StrayChild(g.cn, k);
      UseOfChild(g.cn, i, c);
      var d := g.cn.children[i];
      var rest := StrayPath(d) + Tail(c);
      assert g.search == g.cn.prefix + rest;
      StrayBegins(d);
      var h := GoDown(root, path, g, i, rest);
      SomeParam(g.cn);
      StrayIsFull(root, path, h, c);
    }
  }

  // ----- when one value is enough --------------------------------------------------------------------

  predicate HasParam(n: Node) { KindIndex(n.children, Param) < |n.children| }

  /** A search from this node can take a parameter and then come back above the node. */
  predicate Strays(n: Node)
    decreases n, |n.children| + 1
  {
    n.tag != '/' && (HasParam(n) || StaticStrays(n, |n.children|))
  }

  predicate StaticStrays(n: Node, k: nat)
    requires k <= |n.children|
    decreases n, k
  {
    exists i :: 0 <= i < k && n.children[i].kind == Static && Strays(n.children[i])
  }

  /** Somewhere below static nodes a node that begins with a slash has a parameter child, and so has
      a node below it, with only static nodes that do not begin with a slash down to that. */
  predicate Clashes(n: Node)
    decreases n, |n.children| + 1
  {
    (n.tag == '/' && HasParam(n) && StaticStrays(n, |n.children|)) || StaticClashes(n, |n.children|)
  }

  predicate StaticClashes(n: Node, k: nat)
    requires k <= |n.children|
    decreases n, k
  {
    exists i :: 0 <= i < k && n.children[i].kind == Static && Clashes(n.children[i])
  }

  lemma {:induction false} StraysIs(n: Node)
    requires n.kind == Static && Few(n, 1)
    ensures Strays(n) <==> Uses(n).stray > 0
    decreases n, |n.children| + 1
  {
    FewUses(n);
    StraysIn(n, |n.children|);
    HasParamIs(n);
    hide StaticUses, ParamUses, StaticStrays;
  }

  lemma HasParamIs(n: Node)
    ensures HasParam(n) <==> ParamUses(n).stray > 0
    ensures HasParam(n) <==> ParamUses(n).all > 0
  {
  }

  lemma {:induction false} StraysIn(n: Node, k: nat)
    requires k <= |n.children| && n.kind == Static && Few(n, 1)
    ensures StaticUses(n, k).stray > 0 <==> StaticStrays(n, k)
    decreases n, k
  {
    hide Uses, Strays;
    if k > 0 {
      StraysIn(n, k - 1);
      if n.children[k - 1].kind == Static {
        StraysIs(n.children[k - 1]);
      }
    }
  }

  lemma {:induction false} ClashesIs(n: Node)
    requires n.kind == Static && Few(n, 1)
    ensures Clashes(n) <==> Uses(n).all > 1
    decreases n, |n.children| + 1
  {
    FewUses(n);
    StraysIn(n, |n.children|);
    ClashesIn(n, |n.children|);
    StrayIsPartIn(n, |n.children|);
    HasParamIs(n);
    hide StaticUses, ParamUses, HasParam, StaticStrays, StaticClashes;
  }

  lemma {:induction false} ClashesIn(n: Node, k: nat)
    requires k <= |n.children| && n.kind == Static && Few(n, 1)
    ensures StaticUses(n, k).all > 1 <==> StaticClashes(n, k)
    decreases n, k
  {
    hide Uses, Clashes;
    if k > 0 {
      ClashesIn(n, k - 1);
      if n.children[k - 1].kind == Static {
        ClashesIs(n.children[k - 1]);
      }
    }
  }

  /** That many values are enough for every request. */
  ghost predicate Enough(root: Node, room: nat)
    requires TreeOk(root)
  {
    forall path, values: seq<string>, verb | path != "" && |values| == room ::
      !Answered(root, path, values, verb).Short?
  }

  lemma ClashIsShort(root: Node, c: char) returns (path: string)
    requires TreeOk(root) && Radix(root) && Few(root, 1) && Fresh(root, c) && Letter(c) && Uses(root).all > 1
    ensures path != "" && forall values, verb :: |values| == 1 ==> Answered(root, path, values, verb).Short?
  {
    hide Ok, TreeOk, Few, Fresh, Radix, Uses, Outcome;
    RootIsStatic(root);
    path := ClashPath(root) + Tail(c);
    forall values: seq<string>, verb | |values| == 1
      ensures Answered(root, path, values, verb).Short?
    {
      StartOk(root, path, values);
      ClashIsFull(root, path, Start(root, path, values), c);
    }
  }

  /** No wildcard at all needs no value. */
  lemma NoneIsEnough(root: Node)
    requires TreeOk(root) && Few(root, 0)
    ensures Enough(root, 0)
  {
    RootKinds(root);
    NoUses(root);
    NoWildcards();
    NamesOfFew(root, "", 0, 0);
    forall path, values: seq<string>, verb | path != "" && |values| == 0
      ensures !Answered(root, path, values, verb).Short?
    {
      EnoughValues(root, path, values, verb);
    }
  }

  lemma RootKinds(root: Node)
    requires TreeOk(root)
    ensures Kinds(root, "") && root.kind == Static
  {
    RootIsStatic(root);
  }

  lemma NoWildcards()
    ensures Wildcards("") == 0
  {
  }

  /** Where every path has at most one wildcard and nothing clashes, one value is enough. */
  lemma OneSuffices(root: Node)
    requires TreeOk(root) && Few(root, 1) && !Clashes(root)
    ensures Enough(root, 1)
  {
    hide Answered, TreeOk, Kinds, NamesWithin, Wildcards, Clashes, Few;
    RootKinds(root);
    ClashesIs(root);
    NoWildcards();
    NamesOfFew(root, "", 1, 1);
    forall path, values: seq<string>, verb | path != "" && |values| == 1
      ensures !Answered(root, path, values, verb).Short?
    {
      EnoughValues(root, path, values, verb);
    }
  }

  /** Where something clashes there is a request that is short of values. */
  lemma ClashFails(root: Node, c: char)
    requires TreeOk(root) && Few(root, 1) && Fresh(root, c) && Letter(c) && Clashes(root)
    ensures !Enough(root, 1)
  {
    hide Answered, TreeOk, Radix, Kinds, Clashes, Fresh, Few;
    RootKinds(root);
    ClashesIs(root);
    NotEmptyTree(root);
    var path := ClashIsShort(root, c);
    assert Answered(root, path, [""], "").Short?;
  }

  lemma NotEmptyTree(root: Node)
    requires TreeOk(root) && Uses(root).all > 0
    ensures Radix(root)
  {
    if root == EMPTY {
      NoUses(root);
    }
  }
}
