/** The routes for which the router's depth is as many values as its searches need. */
module RouteDepth {
  import opened Options
  import opened RouteTree
  import opened RouteSearch
  import opened RouteRun
  import opened RouteShort
  import opened Router

  // ----- the nodes that routes leave ------------------------------------------------------------

  predicate Named(routes: seq<Added>) { forall i :: 0 <= i < |routes| ==> routes[i].path != "" }

  predicate NoWildcard(routes: seq<Added>)
    requires Named(routes)
  {
    forall i :: 0 <= i < |routes| ==> Names(routes[i].path) == []
  }

  lemma {:induction false} NamesOfKey(s: string)
    ensures |Erase(s).1| == Wildcards(Erase(s).0)
    decreases |s|
  {
    if s != "" {
      if s[0] == ':' {
        var e := SegmentEnd(s, 1);
        NamesOfKey(s[e..]);
        WildcardsConcat(":", Erase(s[e..]).0);
        OneCharacter(':');
      } else if s[0] == '*' {
        OneCharacter('*');
      } else {
        NamesOfKey(s[1..]);
        WildcardsConcat([s[0]], Erase(s[1..]).0);
        OneCharacter(s[0]);
      }
    }
  }

  lemma OneCharacter(c: char)
    ensures Wildcards([c]) == if IsWildcard(c) then 1 else 0
  {
    assert [c][..0] == "" && Wildcards("") == 0;
  }

  lemma KeyNames(path: string)
    requires path != ""
    ensures |Names(path)| == Wildcards(Key(path))
  {
    NamesOfKey(WithSlash(path));
  }

  lemma WildcardsOfWay(p: string, s: string)
    requires p <= s
    ensures Wildcards(p) <= Wildcards(s)
  {
    assert s == p + s[|p|..];
    WildcardsConcat(p, s[|p|..]);
  }

  /** A slash follows every colon, and nothing a star. */
  predicate Slashed(q: string) {
    forall i :: 0 <= i < |q| - 1 ==> (q[i] == ':' ==> q[i + 1] == '/') && q[i] != '*'
  }

  lemma SlashedNext(c: char, q: string)
    requires Slashed(q) && c != '*' && (c == ':' && q != "" ==> q[0] == '/')
    ensures Slashed([c] + q)
  {
    var r := [c] + q;
    forall i | 0 <= i < |r| - 1
      ensures (r[i] == ':' ==> r[i + 1] == '/') && r[i] != '*'
    {
      assert i > 0 ==> r[i] == q[i - 1] && r[i + 1] == q[i];
    }
  }

  /** Keys are slashed, and have no letter that is not in the path. */
  lemma {:induction false} ErasedIsSlashed(s: string, c: char)
    ensures Slashed(Erase(s).0)
    ensures c !in s && Letter(c) ==> c !in Erase(s).0
    ensures s != "" ==> Erase(s).0 != "" && (s[0] == '/' ==> Erase(s).0[0] == '/')
    decreases |s|
  {
    if s != "" {
      if s[0] == ':' {
        var e := SegmentEnd(s, 1);
        ErasedIsSlashed(s[e..], c);
        SlashedNext(':', Erase(s[e..]).0);
      } else if s[0] != '*' {
        ErasedIsSlashed(s[1..], c);
        SlashedNext(s[0], Erase(s[1..]).0);
      }
    }
  }

  lemma NodeOnTheWay(routes: seq<Added>, tree: Node, q: string)
    requires Named(routes) && Built(routes, tree) && q != "" && Lookup(tree, q).Some?
    ensures OnTheWay(routes, q)
  {
    hide Key, OnTheWay, LastNamed;
    assert NamedAt(routes, HeldAt(tree, q), q);
  }

  /** What is known of every node's path. */
  lemma NodePath(routes: seq<Added>, tree: Node, q: string, most: nat, c: char)
    requires Named(routes) && Built(routes, tree) && Lookup(tree, q).Some?
    ensures (forall i :: 0 <= i < |routes| ==> |Names(routes[i].path)| <= most) ==> Wildcards(q) <= most
    ensures (forall i :: 0 <= i < |routes| ==> c !in routes[i].path) && Letter(c) ==> c !in q
    ensures Slashed(q)
  {
    hide Built, Names, Lookup, Wildcards, Letter;
    if q == "" {
      NoWildcards();
    } else {
      NodeOnTheWay(routes, tree, q);
      var i :| 0 <= i < |routes| && q <= Key(routes[i].path);
      var path := routes[i].path;
      KeyNames(path);
      WildcardsOfWay(q, Key(path));
      ErasedIsSlashed(WithSlash(path), c);
      LetterInPath(path, c);
    }
  }

  lemma LetterInPath(path: string, c: char)
    requires path != ""
    ensures Letter(c) && c !in path ==> c !in WithSlash(path)
  {
  }

  lemma {:induction false} FreshIs(n: Node, base: string, c: char)
    requires Radix(n) && Kinds(n, base)
    requires forall q :: Lookup(n, q).Some? ==> c !in q && Slashed(q)
    ensures Fresh(n, c)
    decreases n, 1
  {
    hide Radix, Kinds, Slashed, Lookup;
    assert c !in n.prefix by { OwnPath(n); }
    if n.children != [] {
      FreshBelow(n, base, 0, c);
    }
    forall i | 0 <= i < |n.children|
      ensures (n.kind == Param ==> n.children[i].tag == '/') && Fresh(n.children[i], c)
    {
      FreshBelow(n, base, i, c);
    }
  }

  lemma OwnPath(n: Node)
    ensures Lookup(n, n.prefix).Some?
  {
  }

  lemma {:induction false} FreshBelow(n: Node, base: string, i: nat, c: char)
    requires Radix(n) && Kinds(n, base) && i < |n.children|
    requires forall q :: Lookup(n, q).Some? ==> c !in q && Slashed(q)
    ensures n.kind != Any && (n.kind == Param ==> n.children[i].tag == '/') && Fresh(n.children[i], c)
    decreases n, 0
  {
    hide Radix, Kinds, Slashed, Lookup, Fresh;
    var d := n.children[i];
    ChildOkKinds(n, base, i);
    forall q | Lookup(d, q).Some?
      ensures c !in q && Slashed(q)
    {
      ChildLookup(n, i, q);
      SlashedTail(n.prefix, q);
    }
    FreshIs(d, base + n.prefix, c);
    ChildLookup(n, i, d.prefix);
    SlashedHead(n.prefix, d.prefix);
  }

  lemma ChildOkKinds(n: Node, base: string, i: nat)
    requires Radix(n) && Kinds(n, base) && i < |n.children|
    ensures Radix(n.children[i]) && Kinds(n.children[i], base + n.prefix)
    ensures n.children[i].prefix != "" && n.children[i].tag == n.children[i].prefix[0]
    ensures Lookup(n.children[i], n.children[i].prefix).Some?
    ensures n.kind == Param ==> n.prefix == ":"
    ensures n.kind == Any ==> n.prefix == "*"
  {
    assert Radix(n.children[i]);
  }

  lemma SlashedTail(a: string, q: string)
    requires Slashed(a + q)
    ensures Slashed(q)
  {
    forall i | 0 <= i < |q| - 1
      ensures (q[i] == ':' ==> q[i + 1] == '/') && q[i] != '*'
    {
      assert (a + q)[|a| + i] == q[i] && (a + q)[|a| + i + 1] == q[i + 1];
    }
  }

  lemma SlashedHead(a: string, q: string)
    requires Slashed(a + q) && q != ""
    ensures a == ":" ==> q[0] == '/'
    ensures a != "*"
  {
    if |a| == 1 {
      assert (a + q)[0] == a[0] && (a + q)[1] == q[0];
    }
  }

  /** Paths have no more wildcards than routes have names. */
  lemma FewFacts(routes: seq<Added>, tree: Node, most: nat)
    requires Named(routes) && TreeOk(tree) && Built(routes, tree)
    requires forall i :: 0 <= i < |routes| ==> |Names(routes[i].path)| <= most
    ensures Few(tree, most)
  {
    hide Built, Names, Lookup, Wildcards, Letter, Radix, Kinds, Slashed;
    if tree == EMPTY {
      EmptyFacts('/');
    } else {
      forall q | Lookup(tree, q).Some?
        ensures Wildcards(q) <= most
      {
        NodePath(routes, tree, q, most, '/');
      }
      FewIs(tree, "", most);
    }
  }

  /** The tree of routes without the letter does not have it. */
  lemma FreshFacts(routes: seq<Added>, tree: Node, c: char)
    requires Named(routes) && TreeOk(tree) && Built(routes, tree) && Letter(c)
    requires forall i :: 0 <= i < |routes| ==> c !in routes[i].path
    ensures Fresh(tree, c)
  {
    hide Built, Names, Lookup, Wildcards, Letter, Radix, Kinds, Slashed, Fresh;
    if tree == EMPTY {
      EmptyFacts(c);
    } else {
      forall q | Lookup(tree, q).Some?
        ensures c !in q && Slashed(q)
      {
        NodePath(routes, tree, q, 0, c);
      }
      FreshIs(tree, "", c);
    }
  }

  lemma EmptyFacts(c: char)
    ensures Fresh(EMPTY, c) && forall room: nat :: Few(EMPTY, room)
  {
  }

  // ----- when the depth is enough ---------------------------------------------------------------------

  lemma TwoNames(routes: seq<Added>, tree: Node, i: nat, c: char)
    requires Named(routes) && TreeOk(tree) && Built(routes, tree) && Letter(c) && Fresh(tree, c)
    requires i < |routes| && |Names(routes[i].path)| > 1
    ensures !Enough(tree, 1)
  {
    hide Names, Key, Wildcards, TreeOk, Answered, Fresh, Letter;
    KeyNames(routes[i].path);
    var q := LastWildcard(Key(routes[i].path));
    assert HeldAt(tree, q).Some?;
    var path := ManyWildcards(tree, q, 1, c);
    assert Answered(tree, path, [""], "").Short?;
  }

  /** The depth is enough for every request if no route has more than one name and nothing clashes. */
  lemma DepthSuffices(routes: seq<Added>, tree: Node, depth: nat)
    requires Named(routes) && TreeOk(tree) && Built(routes, tree)
    requires depth == if NoWildcard(routes) then 0 else 1
    requires (forall i :: 0 <= i < |routes| ==> |Names(routes[i].path)| <= 1) && !Clashes(tree)
    ensures Enough(tree, depth)
  {
    hide TreeOk, Built, Names, Enough, Clashes;
    if NoWildcard(routes) {
      FewFacts(routes, tree, 0);
      NoneIsEnough(tree);
    } else {
      FewFacts(routes, tree, 1);
      OneSuffices(tree);
    }
  }

  /** The depth of a router is as many values as every request needs if and only if no route has more
      than one name and nothing in the tree clashes. The letter is any that no route uses. */
  lemma DepthIsEnough(routes: seq<Added>, tree: Node, depth: nat, c: char)
    requires Named(routes) && TreeOk(tree) && Built(routes, tree)
    requires depth == if NoWildcard(routes) then 0 else 1
    requires Letter(c) && forall i :: 0 <= i < |routes| ==> c !in routes[i].path
    ensures Enough(tree, depth)
      <==> (forall i :: 0 <= i < |routes| ==> |Names(routes[i].path)| <= 1) && !Clashes(tree)
  {
    hide TreeOk, Built, Names, Enough, Clashes, Fresh, Letter;
    FreshFacts(routes, tree, c);
    if NoWildcard(routes) {
      FewFacts(routes, tree, 0);
      FewFacts(routes, tree, 1);
      NothingClashes(tree);
      DepthSuffices(routes, tree, depth);
    } else if i :| 0 <= i < |routes| && |Names(routes[i].path)| > 1 {
      TwoNames(routes, tree, i, c);
    } else {
      FewFacts(routes, tree, 1);
      if Clashes(tree) {
        ClashFails(tree, c);
      } else {
        DepthSuffices(routes, tree, depth);
      }
    }
  }

  lemma NothingClashes(tree: Node)
    requires TreeOk(tree) && Few(tree, 0) && Few(tree, 1)
    ensures !Clashes(tree)
  {
    hide Clashes, Few;
    RootKinds(tree);
    ClashesIs(tree);
    FewNone(tree);
    NoUses(tree);
  }

  lemma FewNone(n: Node)
    requires Few(n, 0)
    ensures n.kind == Static && forall i :: 0 <= i < |n.children| ==> Few(n.children[i], 0)
  {
  }

  // ----- routes that cannot clash, whatever their tree --------------------------------------------------

  /** A parameter stands behind this path. */
  predicate ParamAt(tree: Node, at: string) { Lookup(tree, at + ":").Some? }

  lemma ParamUnder(n: Node, base: string, i: nat, at: string)
    requires Radix(n) && Kinds(n, base) && i < |n.children| && ParamAt(n.children[i], at)
    ensures ParamAt(n, n.prefix + at)
  {
    hide Lookup;
    ChildLookup(n, i, at + ":");
    assert n.prefix + at + ":" == n.prefix + (at + ":");
  }

  lemma {:induction false} StrayHasParam(n: Node, base: string) returns (at: string)
    requires Radix(n) && Kinds(n, base) && Strays(n)
    ensures n.prefix <= at && ParamAt(n, at)
    decreases n
  {
    hide ParamAt, KindIndex;
    if HasParam(n) {
      at := n.prefix;
      ParamHere(n, base);
    } else {
      var i :| 0 <= i < |n.children| && n.children[i].kind == Static && Strays(n.children[i]);
      ChildOkKinds(n, base, i);
      at := StrayHasParam(n.children[i], base + n.prefix);
      ParamUnder(n, base, i, at);
      at := n.prefix + at;
    }
  }

  lemma ParamHere(n: Node, base: string)
    requires Radix(n) && Kinds(n, base) && HasParam(n)
    ensures ParamAt(n, n.prefix)
  {
    ParamBelow(n, base);
  }

  /** A clash is of two parameters, one behind a path that goes on to the other. */
  lemma {:induction false} ClashHasTwo(n: Node, base: string) returns (a: string, b: string)
    requires Radix(n) && Kinds(n, base) && Clashes(n)
    ensures a <= b && a != b && ParamAt(n, a) && ParamAt(n, b)
    decreases n
  {
    hide ParamAt, HasParam, Strays, Radix, Kinds;
    if n.tag == '/' && HasParam(n) && StaticStrays(n, |n.children|) {
      var i :| 0 <= i < |n.children| && n.children[i].kind == Static && Strays(n.children[i]);
      ChildOkKinds(n, base, i);
      var rest := StrayHasParam(n.children[i], base + n.prefix);
      a, b := n.prefix, n.prefix + rest;
      ParamHere(n, base);
      ParamUnder(n, base, i, rest);
      assert |b| > |a|;
    } else {
      var i :| 0 <= i < |n.children| && n.children[i].kind == Static && Clashes(n.children[i]);
      ChildOkKinds(n, base, i);
      var s, t := ClashHasTwo(n.children[i], base + n.prefix);
      a, b := n.prefix + s, n.prefix + t;
      ParamUnder(n, base, i, s);
      ParamUnder(n, base, i, t);
      assert a[|n.prefix|..] == s && b[|n.prefix|..] == t;
    }
  }

  /** No parameter of the routes stands behind a path that goes on to another parameter. */
  ghost predicate Apart(routes: seq<Added>)
    requires Named(routes)
  {
    forall a, b: string :: a <= b && OnTheWay(routes, a + ":") && OnTheWay(routes, b + ":") ==> a == b
  }

  /** Then one name a route is all that the depth asks for. */
  lemma ApartIsEnough(routes: seq<Added>, tree: Node, depth: nat)
    requires Named(routes) && TreeOk(tree) && Built(routes, tree) && Apart(routes)
    requires depth == if NoWildcard(routes) then 0 else 1
    requires forall i :: 0 <= i < |routes| ==> |Names(routes[i].path)| <= 1
    ensures Enough(tree, depth)
  {
    hide Built, Names, Enough, Clashes, Radix, Kinds, Lookup, OnTheWay;
    if Clashes(tree) {
      if tree != EMPTY {
        var a, b := ClashHasTwo(tree, "");
        NodeOnTheWay(routes, tree, a + ":");
        NodeOnTheWay(routes, tree, b + ":");
      } else {
        NoClash();
      }
    } else {
      DepthSuffices(routes, tree, depth);
    }
  }

  lemma NoClash()
    ensures !Clashes(EMPTY)
  {
  }
}
