/** The router as written: nodes rewritten in place by Add, walked by Find. */
module Router {
  import opened Options
  import opened RouteTree
  import opened RouteSearch
  import opened RouteRun
  import opened RouteBack

  class RouteNode {
    var kind: Kind
    var tag: char
    var prefix: string
    var children: seq<RouteNode>
    var ppath: string
    var pnames: seq<string>
    var handlers: map<string, Func>

    ghost var repr: set<RouteNode>
    ghost var tree: Node

    /** The children are disjoint from each other and hold the given values. */
    static ghost predicate Holds(children: seq<RouteNode>, values: seq<Node>, owned: set<RouteNode>)
      reads owned
      decreases owned, 1
    {
      && |values| == |children|
      && (forall i :: 0 <= i < |children| ==>
            && children[i] in owned && children[i].repr <= owned
            && children[i].Valid() && values[i] == children[i].tree)
      && (forall i, j :: 0 <= i < j < |children| ==> children[i].repr !! children[j].repr)
    }

    /** The node and everything below it hold the value `tree`. */
    ghost predicate Valid()
      reads this, repr
      ensures Valid() ==> this in repr
      decreases repr, 0
    {
      && this in repr
      && tree == Node(kind, tag, prefix, tree.children, ppath, pnames, handlers)
      && Holds(children, tree.children, repr - {this})
    }

    constructor (kind: Kind, prefix: string, children: seq<RouteNode>, ppath: string, pnames: seq<string>,
                 handlers: map<string, Func>, ghost values: seq<Node>, ghost owned: set<RouteNode>)
      requires prefix != "" && Holds(children, values, owned)
      ensures Valid() && repr == {this} + owned
      ensures tree == Node(kind, prefix[0], prefix, values, ppath, pnames, handlers)
    {
      this.kind, this.tag, this.prefix, this.children := kind, prefix[0], prefix, children;
      this.ppath, this.pnames, this.handlers := ppath, pnames, handlers;
      this.repr := {this} + owned;
      this.tree := Node(kind, prefix[0], prefix, values, ppath, pnames, handlers);
      new;
      assert repr - {this} == owned;
    }

    lemma Fields()
      requires Valid()
      ensures tree.tag == tag && tree.prefix == prefix && tree.pnames == pnames && |tree.children| == |children|
    {
    }

    lemma ChildFields(i: nat)
      requires Valid() && i < |children|
      ensures |tree.children| == |children| && children[i] in repr && children[i].repr <= repr
      ensures children[i].Valid() && children[i].tree == tree.children[i]
        && children[i].pnames == tree.children[i].pnames
    {
    }

    /** The root of a router without routes. */
    constructor Root()
      ensures Valid() && repr == {this} && tree == EMPTY
    {
      kind, tag, prefix, children := Static, '\0', "", [];
      ppath, pnames, handlers := "", [], map[];
      repr := {this};
      tree := EMPTY;
    }

    method AddHandler(verb: string, h: Option<Func>)
      requires Valid()
      modifies this`handlers, this`tree
      ensures Valid() && tree == old(tree).(handlers := RouteTree.AddHandler(old(tree).handlers, verb, h))
    {
      if verb in METHODS {
        handlers := match h case Some(f) => handlers[verb := f] case None => handlers - {verb};
      }
      tree := tree.(handlers := handlers);
    }

    method FindHandler(verb: string) returns (h: Option<Func>)
      requires Valid()
      ensures h == tree.FindHandler(verb)
    {
      h := if verb in handlers then Some(handlers[verb]) else None;
    }

    method AddChild(c: RouteNode)
      requires Valid() && c.Valid() && c.repr !! repr
      modifies this`children, this`repr, this`tree
      ensures Valid() && repr == old(repr) + c.repr
      ensures tree == old(tree).(children := old(tree).children + [c.tree])
    {
      ghost var before := children;
      children := children + [c];
      repr := repr + c.repr;
      tree := tree.(children := tree.children + [c.tree]);
      assert repr - {this} == old(repr) - {this} + c.repr;
    }

    /** The first child with the given label, as an index. */
    method FindChildWithLabel(l: char) returns (i: nat)
      requires Valid()
      ensures i == ChildIndex(tree.children, l)
    {
      i := 0;
      while i < |children| && children[i].tag != l
        invariant i <= |children|
        invariant forall j :: 0 <= j < i ==> children[j].tag != l
      {
        i := i + 1;
      }
      assert forall j :: 0 <= j < |children| ==> children[j].Valid() && children[j].tree == tree.children[j];
      FirstChildIs(tree.children, Label(l), i);
    }

    /** The first child of a kind, as an index. */
    method FindChildByKind(k: Kind) returns (i: nat)
      requires Valid()
      ensures i == KindIndex(tree.children, k) <= |children| == |tree.children|
    {
      i := 0;
      while i < |children| && children[i].kind != k
        invariant i <= |children|
        invariant forall j :: 0 <= j < i ==> children[j].kind != k
      {
        i := i + 1;
      }
      assert forall j :: 0 <= j < |children| ==> children[j].Valid() && children[j].tree == tree.children[j];
      FirstChildIs(tree.children, OfKind(k), i);
    }

    /** The first child with the given label and kind, as an index. */
    method FindChild(l: char, k: Kind) returns (i: nat)
      requires Valid()
      ensures i == FirstChild(tree.children, LabelAndKind(l, k)) <= |children| == |tree.children|
    {
      i := 0;
      while i < |children| && !(children[i].tag == l && children[i].kind == k)
        invariant i <= |children|
        invariant forall j :: 0 <= j < i ==> children[j].tag != l || children[j].kind != k
      {
        i := i + 1;
      }
      assert forall j :: 0 <= j < |children| ==> children[j].Valid() && children[j].tree == tree.children[j];
      FirstChildIs(tree.children, LabelAndKind(l, k), i);
    }

    /** Nothing in common: the node takes the new text. */
    method RewriteInPlace(search: string, r: Route)
      requires Valid() && search != ""
      modifies this
      ensures Valid() && repr == old(repr) && tree == Rewrite(old(tree), search, r)
    {
      tag := search[0];
      prefix := search;
      tree := tree.(tag := tag, prefix := prefix);
      if r.h.Some? {
        kind := r.kind;
        ppath := r.ppath;
        pnames := r.pnames;
        tree := tree.(kind := kind, ppath := ppath, pnames := pnames);
        AddHandler(r.verb, r.h);
      }
    }

    /** The node keeps the first `l` characters; the rest of its text, with everything the
        node held, moves to a new child. */
    method MoveDown(l: nat)
      requires Valid() && 0 < l < |prefix|
      modifies this
      ensures Valid() && fresh(repr - old(repr))
      ensures tree == Node(Static, old(prefix)[0], old(prefix)[..l], [LowerHalf(old(tree), l)], "", [], map[])
    {
      var n := new RouteNode(kind, prefix[l..], children, ppath, pnames, handlers, tree.children, repr - {this});
      kind := Static;
      tag := prefix[0];
      prefix := prefix[..l];
      children := [];
      handlers := map[];
      ppath := "";
      pnames := [];
      repr := {this};
      tree := Node(Static, tag, prefix, [], "", [], map[]);
      assert repr - {this} == {};
      AddChild(n);
    }

    method NewChild(text: string, r: Route)
      requires Valid() && text != ""
      modifies this`children, this`repr, this`tree
      ensures Valid() && fresh(repr - old(repr))
      ensures tree == old(tree).(children := old(tree).children + [NewNode(text, r)])
    {
      var n := new RouteNode(r.kind, text, [], r.ppath, r.pnames, map[], [], {});
      n.AddHandler(r.verb, r.h);
      AddChild(n);
    }

    method SplitInPlace(search: string, l: nat, r: Route)
      requires Valid() && 0 < l < |prefix| && l <= |search|
      modifies this
      ensures Valid() && fresh(repr - old(repr)) && tree == Split(old(tree), search, l, r)
    {
      MoveDown(l);
      if l == |search| {
        // At the parent node.
        kind := r.kind;
        ppath := r.ppath;
        pnames := r.pnames;
        tree := tree.(kind := kind, ppath := ppath, pnames := pnames);
        AddHandler(r.verb, r.h);
      } else {
        NewChild(search[l..], r);
      }
    }

    /** Inserts into the node that is in charge of the text, in place; the value held by the
        tree becomes the value of the insertion. */
    method InsertInPlace(search: string, r: Route)
      requires Valid() && search != ""
      modifies repr
      ensures Valid() && fresh(repr - old(repr)) && tree == Insert(old(tree), search, r)
      decreases tree, 1
    {
      var l := CommonPrefix(search, prefix);
      if l == 0 {
        RewriteInPlace(search, r);
      } else if l < |prefix| {
        SplitInPlace(search, l, r);
      } else if l < |search| {
        var i := FindChildWithLabel(search[l]);
        if i < |children| {
          assert |tree.children| == |children|;
          InsertIntoChild(i, search[l..], r);
        } else {
          NewChild(search[l..], r);
        }
      } else if r.h.Some? {
        // The node exists already.
        ppath := r.ppath;
        pnames := r.pnames;
        tree := tree.(ppath := ppath, pnames := pnames);
        AddHandler(r.verb, r.h);
      }
    }

    /** Goes deeper. */
    method InsertIntoChild(i: nat, rest: string, r: Route)
      requires Valid() && i < |children| == |tree.children| && rest != ""
      modifies repr - {this}, this`tree, this`repr
      ensures Valid() && fresh(repr - old(repr))
      ensures tree == old(tree).(children := old(tree).children[i := Insert(old(tree).children[i], rest, r)])
      decreases tree, 0
    {
      var c := children[i];
      c.InsertInPlace(rest, r);
      assert forall j :: 0 <= j < |children| && j != i ==>
        children[j].Valid() && children[j].repr == old(children[j].repr) && children[j].tree == old(children[j].tree);
      tree := tree.(children := tree.children[i := c.tree]);
      repr := repr + c.repr;
      assert Holds(children, tree.children, repr - {this});
    }
  }

  /** The length of the text before the next slash. */
  method SegmentLength(s: string) returns (k: nat)
    ensures k == SegmentEnd(s, 0)
    ensures k <= |s| && NoSlash(s[..k]) && (k < |s| ==> s[k] == '/')
  {
    k := 0;
    while k < |s| && s[k] != '/'
      invariant k <= |s| && NoSlash(s[..k])
    {
      assert s[..k + 1] == s[..k] + [s[k]];
      k := k + 1;
    }
    assert s[0..k] == s[..k];
    SegmentEndIs(s, 0, k);
  }

  method CommonPrefix(a: string, b: string) returns (l: nat)
    ensures l == Lcp(a, b)
  {
    l := 0;
    while l < |a| && l < |b| && a[l] == b[l]
      invariant l <= |a| && l <= |b|
      invariant Lcp(a, b) == l + Lcp(a[l..], b[l..])
    {
      assert a[l..][1..] == a[l + 1..] && b[l..][1..] == b[l + 1..];
      l := l + 1;
    }
  }

  // ----- paths as given by the caller -----------------------------------------------

  /** A path with its parameter names erased and everything after a star dropped, and the names. */
  function Erase(s: string): (r: (string, seq<string>))
    decreases |s|
  {
    if s == "" then ("", [])
    else if s[0] == ':' then
      var e := SegmentEnd(s, 1);
      var r := Erase(s[e..]);
      (":" + r.0, [s[1..e]] + r.1)
    else if s[0] == '*' then ("*", ["_*"])
    else
      var r := Erase(s[1..]);
      ([s[0]] + r.0, r.1)
  }

  function WithSlash(path: string): string
    requires path != ""
  {
    if path[0] != '/' then "/" + path else path
  }

  /** The key under which Add registers a path. */
  function Key(path: string): string
    requires path != ""
  {
    Erase(WithSlash(path)).0
  }

  /** The parameter names of a path, with `_*` for a star. */
  function Names(path: string): seq<string>
    requires path != ""
  {
    Erase(WithSlash(path)).1
  }

  /** A path that does not begin with a slash gets one. */
  lemma PathsBeginWithSlash(path: string)
    requires path != ""
    ensures WithSlash(path)[0] == '/' && (path[0] == '/' ==> WithSlash(path) == path)
    ensures path[0] != '/' ==> WithSlash(path) == "/" + path
    ensures Key("/" + path) == Key(path) || path[0] == '/'
  {
  }

  /** As a map from method and erased path to handler, `after` is `before` with the handler
      registered under the key; a nil handler or an unknown method registers nothing. */
  ghost predicate Registers(before: Node, after: Node, key: string, verb: string, h: Option<Func>) {
    forall v, p ::
      HandlerAt(after, v, p)
      == if p == key && v == verb && v in METHODS && h.Some? then h else HandlerAt(before, v, p)
  }

  ghost predicate SameMap(before: Node, after: Node) {
    forall v, p :: HandlerAt(after, v, p) == HandlerAt(before, v, p)
  }

  lemma RecordsNothing(before: Node, mid: Node, after: Node, search: string, r: Route)
    requires SameMap(before, mid) && Records(mid, after, search, r) && r.h.None?
    ensures SameMap(before, after)
  {
  }

  lemma RecordsLast(before: Node, mid: Node, after: Node, search: string, r: Route)
    requires SameMap(before, mid) && Records(mid, after, search, r)
    ensures Registers(before, after, search, r.verb, r.h)
  {
  }

  /** The text ends in a parameter or a star. */
  predicate EndsWild(q: string) { q != "" && IsWildcard(q[|q| - 1]) }

  /** The way to `p` is prepared: what was held is held still, nodes have appeared on the way only
      and without handlers, and there is a node at every wildcard of `p`. */
  ghost predicate Grown(before: Node, now: Node, p: string) {
    forall q :: q != "" ==> GrownAt(HeldAt(before, q), HeldAt(now, q), p, q)
  }

  predicate GrownAt(b: Option<Held>, n: Option<Held>, p: string, q: string) {
    && (if b.Some? then n == b else n.None? || (q <= p && n.value.handlers == map[]))
    && (q <= p && EndsWild(q) ==> n.Some?)
  }

  /** A route has been added: its node has its pristine path and its names, unless the handler is
      nil and the node was there before; every other node holds what it held; new nodes are on the
      way only, and there is one at every wildcard. */
  ghost predicate Installs(before: Node, after: Node, key: string, ppath: string, names: seq<string>, h: Option<Func>) {
    forall q :: q != "" ==> InstalledAt(HeldAt(before, q), HeldAt(after, q), key, ppath, names, h, q)
  }

  predicate InstalledAt(b: Option<Held>, n: Option<Held>, key: string, ppath: string, names: seq<string>,
                        h: Option<Func>, q: string)
  {
    && (q == key || (q <= key && EndsWild(q)) ==> n.Some?)
    && (if q == key && h.Some? then n.Some? && n.value.ppath == ppath && n.value.pnames == names
        else if b.Some? then n == b
        else n.None? || q <= key)
  }

  lemma GrownStart(now: Node)
    ensures Grown(now, now, "")
  {
  }

  lemma WildPrefix(p: string, p': string, q: string)
    requires p <= p' && |p| < |p'| && Plain(p'[|p|..|p'| - 1])
    requires q <= p' && EndsWild(q) && q != p'
    ensures q <= p
  {
    assert forall k :: |p| <= k < |p'| - 1 ==> p'[k] == p'[|p|..|p'| - 1][k - |p|];
    assert q[|q| - 1] == p'[|q| - 1] && |q| <= |p|;
    assert q == p'[..|q|] && p == p'[..|p|];
  }

  /** One more insertion on the way, up to the next wildcard or before it. */
  lemma GrownNext(before: Node, mid: Node, now: Node, p: string, p': string, r: Route)
    requires Grown(before, mid, p) && Updates(mid, now, p', r) && r.h.None?
    requires p <= p' && |p| < |p'| && Plain(p'[|p|..|p'| - 1])
    ensures Grown(before, now, p')
  {
    hide HeldAt, EndsWild;
    forall q | q != ""
      ensures GrownAt(HeldAt(before, q), HeldAt(now, q), p', q)
    {
      NoHandlerAdded(r);
      assert GrownAt(HeldAt(before, q), HeldAt(mid, q), p, q) && TreeStep(mid, now, p', r, q);
      if q <= p' && EndsWild(q) && q != p' {
        WildPrefix(p, p', q);
      }
    }
  }

  lemma InstalledNext(before: Node, mid: Node, after: Node, p: string, key: string, r: Route)
    requires Grown(before, mid, p) && Updates(mid, after, key, r)
    requires p <= key && |p| < |key| && Plain(key[|p|..|key| - 1])
    ensures Installs(before, after, key, r.ppath, r.pnames, r.h)
  {
    hide HeldAt, EndsWild, AddHandler;
    forall q | q != ""
      ensures InstalledAt(HeldAt(before, q), HeldAt(after, q), key, r.ppath, r.pnames, r.h, q)
    {
      assert GrownAt(HeldAt(before, q), HeldAt(mid, q), p, q) && TreeStep(mid, after, key, r, q);
      if q <= key && EndsWild(q) && q != key {
        WildPrefix(p, key, q);
      }
    }
  }

  /** One call of Add. */
  datatype Added = Added(verb: string, path: string, h: Option<Func>)

  /** The last handler added for a method and erased path. */
  function LastAdded(routes: seq<Added>, verb: string, path: string): Option<Func>
    requires forall i :: 0 <= i < |routes| ==> routes[i].path != ""
  {
    if routes == [] then None
    else
      var r := routes[|routes| - 1];
      if path == Key(r.path) && verb == r.verb && verb in METHODS && r.h.Some? then r.h
      else LastAdded(routes[..|routes| - 1], verb, path)
  }

  /** A handler in the map was added for its method and a path with that erased form. */
  lemma {:induction false} LastWasAdded(routes: seq<Added>, verb: string, path: string)
    requires forall i :: 0 <= i < |routes| ==> routes[i].path != ""
    requires LastAdded(routes, verb, path).Some?
    ensures exists i :: (0 <= i < |routes| && routes[i].verb == verb && Key(routes[i].path) == path
                         && routes[i].h == LastAdded(routes, verb, path))
  {
    var n := |routes| - 1;
    var r := routes[n];
    if path == Key(r.path) && verb == r.verb && verb in METHODS && r.h.Some? {
    } else {
      LastWasAdded(routes[..n], verb, path);
      var i :| 0 <= i < n && routes[..n][i].verb == verb && Key(routes[..n][i].path) == path
        && routes[..n][i].h == LastAdded(routes, verb, path);
      assert routes[..n][i] == routes[i];
    }
  }

  /** The tree after the rest of a path, from `i` on, has been inserted: before each wildcard a node
      without a handler, then the wildcard's own. */
  function AddedFrom(tree: Node, verb: string, h: Option<Func>, ppath: string, path: string, i: nat,
      pnames: seq<string>): Node
    requires i <= |path| && path != "" && path[0] == '/'
    decreases |path| - i
  {
    if i == |path| then Insert(tree, path, Route(verb, h, Static, ppath, pnames))
    else if path[i] == ':' then
      var e := SegmentEnd(path, i + 1);
      var p, names := path[..i + 1] + path[e..], pnames + [path[i + 1..e]];
      var mid := Insert(tree, path[..i], Route(verb, None, Static, "", []));
      if e == |path| then Insert(mid, p[..i + 1], Route(verb, h, Param, ppath, names))
      else AddedFrom(Insert(mid, p[..i + 1], Route(verb, None, Param, ppath, names)), verb, h, ppath, p, i + 1, names)
    else if path[i] == '*' then
      var mid := Insert(tree, path[..i], Route(verb, None, Static, "", []));
      Insert(mid, path[..i + 1], Route(verb, h, Any, ppath, pnames + ["_*"]))
    else AddedFrom(tree, verb, h, ppath, path, i + 1, pnames)
  }

  lemma AddedParam(tree: Node, verb: string, h: Option<Func>, ppath: string, path: string, i: nat, pnames: seq<string>,
      e: nat)
    requires i < |path| && path[0] == '/' && path[i] == ':' && e == SegmentEnd(path, i + 1)
    ensures var p, names := path[..i + 1] + path[e..], pnames + [path[i + 1..e]];
      var mid := Insert(tree, path[..i], Route(verb, None, Static, "", []));
      AddedFrom(tree, verb, h, ppath, path, i, pnames)
      == if e == |path| then Insert(mid, p[..i + 1], Route(verb, h, Param, ppath, names))
         else AddedFrom(Insert(mid, p[..i + 1], Route(verb, None, Param, ppath, names)), verb, h, ppath, p, i + 1,
           names)
  {
    hide Insert;
  }

  lemma AddedStar(tree: Node, verb: string, h: Option<Func>, ppath: string, path: string, i: nat, pnames: seq<string>)
    requires 0 < i < |path| && path[0] == '/' && path[i] == '*'
    ensures AddedFrom(tree, verb, h, ppath, path, i, pnames)
      == Insert(Insert(tree, path[..i], Route(verb, None, Static, "", [])), path[..i + 1],
                Route(verb, h, Any, ppath, pnames + ["_*"]))
  {
    hide Insert;
  }

  lemma AddedPlain(tree: Node, verb: string, h: Option<Func>, ppath: string, path: string, i: nat, pnames: seq<string>)
    requires i <= |path| && path != "" && path[0] == '/'
    ensures AddedFrom(tree, verb, h, ppath, path, |path|, pnames)
      == Insert(tree, path, Route(verb, h, Static, ppath, pnames))
    ensures i < |path| && !IsWildcard(path[i]) ==>
      AddedFrom(tree, verb, h, ppath, path, i, pnames) == AddedFrom(tree, verb, h, ppath, path, i + 1, pnames)
  {
    hide Insert;
  }

  function WithRoute(tree: Node, r: Added): Node
    requires r.path != ""
  {
    AddedFrom(tree, r.verb, r.h, WithSlash(r.path), WithSlash(r.path), 0, [])
  }

  lemma WithRouteIs(tree: Node, r: Added)
    requires r.path != ""
    ensures var path := WithSlash(r.path);
      path != "" && path[0] == '/' && WithRoute(tree, r) == AddedFrom(tree, r.verb, r.h, path, path, 0, [])
  {
  }

  lemma PathParts(given: string)
    requires given != ""
    ensures WithSlash(given) == if given[0] != '/' then "/" + given else given
    ensures Key(given) == Erase(WithSlash(given)).0 && Names(given) == Erase(WithSlash(given)).1
  {
  }

  lemma NotWild(c: char)
    ensures c != ':' && c != '*' ==> !IsWildcard(c)
  {
  }

  /** The tree of a list of routes. */
  function TreeOf(routes: seq<Added>): Node
    requires forall i :: 0 <= i < |routes| ==> routes[i].path != ""
  {
    if routes == [] then EMPTY else WithRoute(TreeOf(routes[..|routes| - 1]), routes[|routes| - 1])
  }

  ghost predicate AsAdded(routes: seq<Added>, tree: Node)
    requires forall i :: 0 <= i < |routes| ==> routes[i].path != ""
  {
    forall v, p :: HandlerAt(tree, v, p) == LastAdded(routes, v, p)
  }

  lemma AsAddedIs(routes: seq<Added>, tree: Node)
    requires forall i :: 0 <= i < |routes| ==> routes[i].path != ""
    requires AsAdded(routes, tree)
    ensures forall v, p :: HandlerAt(tree, v, p) == LastAdded(routes, v, p)
  {
    hide HandlerAt, LastAdded;
  }

  lemma AsAddedNext(routes: seq<Added>, r: Added, before: Node, after: Node)
    requires r.path != "" && forall i :: 0 <= i < |routes| ==> routes[i].path != ""
    requires AsAdded(routes, before) && Registers(before, after, Key(r.path), r.verb, r.h)
    ensures AsAdded(routes + [r], after)
  {
    hide HandlerAt, Key;
    assert (routes + [r])[..|routes|] == routes;
  }

  lemma NothingAtFirst()
    ensures AsAdded([], EMPTY)
  {
  }

  // ----- names and depth ---------------------------------------------------------------

  /** The last route with a handler for an erased path, whatever its method. */
  function LastNamed(routes: seq<Added>, path: string): Option<Added>
    requires forall i :: 0 <= i < |routes| ==> routes[i].path != ""
  {
    if routes == [] then None
    else
      var r := routes[|routes| - 1];
      if path == Key(r.path) && r.h.Some? then Some(r) else LastNamed(routes[..|routes| - 1], path)
  }

  /** What the routes leave at the nodes: the pristine path and the names of the last route with a
      handler there; nodes on the way to some route only; and one at every wildcard of every route. */
  ghost predicate Built(routes: seq<Added>, tree: Node)
    requires forall i :: 0 <= i < |routes| ==> routes[i].path != ""
  {
    && (forall q :: q != "" ==> NamedAt(routes, HeldAt(tree, q), q))
    && (forall i, q :: 0 <= i < |routes| && q <= Key(routes[i].path) && EndsWild(q) ==> HeldAt(tree, q).Some?)
  }

  predicate NamedAt(routes: seq<Added>, held: Option<Held>, q: string)
    requires forall i :: 0 <= i < |routes| ==> routes[i].path != ""
  {
    && (held.Some? ==> OnTheWay(routes, q))
    && match LastNamed(routes, q)
       case None => true
       case Some(r) =>
         r.path != "" && held.Some? && held.value.ppath == WithSlash(r.path) && held.value.pnames == Names(r.path)
  }

  predicate OnTheWay(routes: seq<Added>, q: string)
    requires forall i :: 0 <= i < |routes| ==> routes[i].path != ""
  {
    exists i :: 0 <= i < |routes| && q <= Key(routes[i].path)
  }

  lemma TreeOfNone()
    ensures TreeOf([]) == EMPTY
  {
  }

  lemma TreeOfNext(routes: seq<Added>, r: Added)
    requires r.path != "" && forall i :: 0 <= i < |routes| ==> routes[i].path != ""
    ensures TreeOf(routes + [r]) == WithRoute(TreeOf(routes), r)
  {
    hide WithRoute;
    assert (routes + [r])[..|routes|] == routes;
  }

  lemma NothingBuilt()
    ensures Built([], EMPTY)
  {
  }

  lemma BuiltNext(routes: seq<Added>, r: Added, before: Node, after: Node)
    requires r.path != "" && forall i :: 0 <= i < |routes| ==> routes[i].path != ""
    requires Built(routes, before)
    requires Installs(before, after, Key(r.path), WithSlash(r.path), Names(r.path), r.h)
    ensures Built(routes + [r], after)
  {
    hide HeldAt, Key, Names, EndsWild, OnTheWay, LastNamed;
    var all := routes + [r];
    LongerWays(routes, r);
    forall q | q != ""
      ensures NamedAt(all, HeldAt(after, q), q)
      ensures EndsWild(q) && (HeldAt(before, q).Some? || q <= Key(r.path)) ==> HeldAt(after, q).Some?
    {
      assert NamedAt(routes, HeldAt(before, q), q);
      assert InstalledAt(HeldAt(before, q), HeldAt(after, q), Key(r.path), WithSlash(r.path), Names(r.path), r.h, q);
      LastNamedNext(routes, r, q);
    }
    forall i, q | 0 <= i < |all| && q <= Key(all[i].path) && EndsWild(q)
      ensures HeldAt(after, q).Some?
    {
      WildIsSome(q);
      if i < |routes| {
        assert HeldAt(before, q).Some?;
      }
    }
  }

  lemma WildIsSome(q: string)
    ensures EndsWild(q) ==> q != ""
  {
  }

  lemma LongerWays(routes: seq<Added>, r: Added)
    requires r.path != "" && forall i :: 0 <= i < |routes| ==> routes[i].path != ""
    ensures forall q :: OnTheWay(routes, q) || q <= Key(r.path) ==> OnTheWay(routes + [r], q)
  {
    hide Key;
    var all := routes + [r];
    assert all[|routes|] == r && forall i :: 0 <= i < |routes| ==> all[i] == routes[i];
  }

  lemma LastNamedNext(routes: seq<Added>, r: Added, q: string)
    requires r.path != "" && forall i :: 0 <= i < |routes| ==> routes[i].path != ""
    ensures LastNamed(routes + [r], q) == if q == Key(r.path) && r.h.Some? then Some(r) else LastNamed(routes, q)
  {
    assert (routes + [r])[..|routes|] == routes;
  }

  /** The last route for a method and an erased path, whose handler is the one in the map. */
  function LastRoute(routes: seq<Added>, verb: string, path: string): (r: Option<Added>)
    requires forall i :: 0 <= i < |routes| ==> routes[i].path != ""
    ensures LastAdded(routes, verb, path) == if r.Some? then r.value.h else None
    ensures r.Some? ==> r.value.path != ""
  {
    if routes == [] then None
    else
      var r := routes[|routes| - 1];
      if path == Key(r.path) && verb == r.verb && verb in METHODS && r.h.Some? then Some(r)
      else LastRoute(routes[..|routes| - 1], verb, path)
  }

  /** The names at the node of a route that is found are its own if and only if the last route with
      a handler for the same erased path, of whatever method, has the same names. */
  lemma NamesOfFound(routes: seq<Added>, tree: Node, verb: string, path: string)
    requires forall i :: 0 <= i < |routes| ==> routes[i].path != ""
    requires Built(routes, tree) && path != "" && LastRoute(routes, verb, path).Some?
    ensures Lookup(tree, path).Some? && LastNamed(routes, path).Some? && LastNamed(routes, path).value.path != ""
    ensures Lookup(tree, path).value.pnames == Names(LastRoute(routes, verb, path).value.path)
      <==> Names(LastNamed(routes, path).value.path) == Names(LastRoute(routes, verb, path).value.path)
  {
    hide Key, Names;
    FoundIsNamed(routes, verb, path);
    assert NamedAt(routes, HeldAt(tree, path), path);
  }

  lemma {:induction false} FoundIsNamed(routes: seq<Added>, verb: string, path: string)
    requires forall i :: 0 <= i < |routes| ==> routes[i].path != ""
    requires LastRoute(routes, verb, path).Some?
    ensures LastNamed(routes, path).Some?
  {
    hide Key;
    var r := routes[|routes| - 1];
    if !(path == Key(r.path) && r.h.Some?) {
      FoundIsNamed(routes[..|routes| - 1], verb, path);
    }
  }

  /** Everything up to `b` ends at a node, and plain text follows up to `i`. */
  predicate Boundary(root: Node, path: string, b: nat, i: nat) {
    && b <= i <= |path| && Plain(path[b..i])
    && (b > 0 ==> Lookup(root, path[..b]).Some?)
  }

  lemma PlainFits(root: Node, path: string, b: nat, i: nat)
    requires TreeOk(root) && Boundary(root, path, b, i) && b < i
    ensures FitsTree(root, path[..i], Static)
  {
    assert path[..i] == path[..b] + path[b..i];
    if b > 0 {
      assert root != EMPTY;
      BoundaryFits(root, path[..b], path[b..i], Static);
    } else {
      assert path[..i] == path[b..i];
    }
  }

  lemma WildcardFits(root: Node, path: string, i: nat, kind: Kind)
    requires TreeOk(root) && 0 < i < |path| && Lookup(root, path[..i]).Some? && OneKind([path[i]], kind)
    ensures FitsTree(root, path[..i + 1], kind)
  {
    assert path[..i + 1] == path[..i] + [path[i]];
    BoundaryFits(root, path[..i], [path[i]], kind);
  }

  lemma WildcardsOfPrefix(path: string, i: nat)
    requires i < |path|
    ensures Wildcards(path[..i + 1]) == Wildcards(path[..i]) + (if IsWildcard(path[i]) then 1 else 0)
  {
    assert path[..i + 1][..i] == path[..i];
  }

  lemma EraseOne(s: string, i: nat)
    requires i < |s| && !IsWildcard(s[i])
    ensures Erase(s[i..]) == ([s[i]] + Erase(s[i + 1..]).0, Erase(s[i + 1..]).1)
  {
    assert s[i..][1..] == s[i + 1..];
  }

  lemma EraseParam(s: string, i: nat, e: nat)
    requires i < e <= |s| && s[i] == ':' && NoSlash(s[i + 1..e]) && (e < |s| ==> s[e] == '/')
    ensures Erase(s[i..]) == (":" + Erase(s[e..]).0, [s[i + 1..e]] + Erase(s[e..]).1)
  {
    var t := s[i..];
    assert t[1..e - i] == s[i + 1..e] && t[e - i..] == s[e..];
    SegmentEndIs(t, 1, e - i);
  }

  /** Add has erased the path up to `i` and inserted what ends at `b`; no handler has changed. */
  ghost predicate Progress(before: Node, now: Node, ppath: string, path: string, b: nat, i: nat, pnames: seq<string>) {
    && TreeOk(now) && SameMap(before, now)
    && 0 < |path| && path[0] == '/' && i <= |path|
    && Boundary(now, path, b, i) && Grown(before, now, path[..b])
    && |pnames| == Wildcards(path[..i])
    && Erase(ppath) == (path[..i] + Erase(path[i..]).0, pnames + Erase(path[i..]).1)
  }

  lemma ProgressStart(now: Node, path: string)
    requires TreeOk(now) && path != "" && path[0] == '/'
    ensures Progress(now, now, path, path, 0, 0, [])
  {
    GrownStart(now);
    assert Plain(path[0..0]);
    assert path[..0] == "" && path[0..] == path;
    assert "" + Erase(path).0 == Erase(path).0 && [] + Erase(path).1 == Erase(path).1;
  }

  lemma ProgressPlain(before: Node, now: Node, ppath: string, path: string, b: nat, i: nat, pnames: seq<string>)
    requires Progress(before, now, ppath, path, b, i, pnames) && i < |path| && !IsWildcard(path[i])
    ensures Progress(before, now, ppath, path, b, i + 1, pnames)
  {
    hide SameMap, TreeOk, Lookup, Grown;
    EraseOne(path, i);
    WildcardsOfPrefix(path, i);
    assert path[..i + 1] == path[..i] + [path[i]];
    assert path[..i] + ([path[i]] + Erase(path[i + 1..]).0) == path[..i + 1] + Erase(path[i + 1..]).0;
    assert path[b..i + 1] == path[b..i] + [path[i]];
  }

  lemma ProgressParts(before: Node, now: Node, ppath: string, path: string, b: nat, i: nat, pnames: seq<string>)
    requires Progress(before, now, ppath, path, b, i, pnames) && b < i
    ensures SameMap(before, now) && Grown(before, now, path[..b]) && Boundary(now, path, b, i)
    ensures 0 < |path| && path[0] == '/' && i <= |path| && |pnames| == Wildcards(path[..i])
    ensures Erase(ppath) == (path[..i] + Erase(path[i..]).0, pnames + Erase(path[i..]).1)
    ensures path[..b] <= path[..i] && |path[..b]| < |path[..i]|
    ensures Plain(path[..i][|path[..b]|..|path[..i]| - 1])
    ensures forall k :: 0 <= k < |path| && path[k] == ':' ==> OneKind([path[k]], Param)
    ensures forall k :: 0 <= k < |path| && path[k] == '*' ==> OneKind([path[k]], Any)
  {
    PlainBetween(now, path, b, i);
  }

  lemma ColonIsWild()
    ensures IsWildcard(':')
  {
  }

  /** In `p` the parameter name between `i + 1` and `e` is erased. */
  lemma ErasedParam(ppath: string, path: string, i: nat, e: nat, pnames: seq<string>, p: string)
    requires 0 < i < e <= |path| && p == path[..i + 1] + path[e..]
    requires Erase(ppath) == (path[..i] + Erase(path[i..]).0, pnames + Erase(path[i..]).1)
    requires |pnames| == Wildcards(path[..i])
    requires path[i] == ':' && NoSlash(path[i + 1..e]) && (e < |path| ==> path[e] == '/')
    ensures var names := pnames + [path[i + 1..e]];
      && p[..i] == path[..i] && p[i] == ':' && p[0] == path[0]
      && |names| == Wildcards(p[..i + 1])
      && Erase(ppath) == (p[..i + 1] + Erase(p[i + 1..]).0, names + Erase(p[i + 1..]).1)
  {
    hide *;
    var names := pnames + [path[i + 1..e]];
    ColonIsWild();
    EraseParam(path, i, e);
    WildcardsOfPrefix(path, i);
    assert p[..i + 1] == path[..i + 1] == path[..i] + ":";
    assert p[i + 1..] == path[e..];
    assert p[..i] == path[..i];
    assert path[..i] + (":" + Erase(path[e..]).0) == p[..i + 1] + Erase(path[e..]).0;
    assert pnames + ([path[i + 1..e]] + Erase(path[e..]).1) == names + Erase(path[e..]).1;
  }

  /** After a parameter node has been inserted the next boundary is that node. */
  lemma ProgressParam(before: Node, mid: Node, now: Node, ppath: string, path: string, j: nat, pnames: seq<string>,
      r: Route)
    requires 0 < j <= |path|
    requires SameMap(before, mid) && Records(mid, now, path[..j], r) && r.h.None?
    requires Grown(before, now, path[..j])
    requires TreeOk(now) && path[0] == '/' && Lookup(now, path[..j]).Some?
    requires |pnames| == Wildcards(path[..j])
    requires Erase(ppath) == (path[..j] + Erase(path[j..]).0, pnames + Erase(path[j..]).1)
    ensures Progress(before, now, ppath, path, j, j, pnames)
  {
    RecordsNothing(before, mid, now, path[..j], r);
    assert Plain(path[j..j]);
  }

  lemma SameMapTwice(a: Node, b: Node, c: Node)
    requires SameMap(a, b) && SameMap(b, c)
    ensures SameMap(a, c)
  {
  }

  lemma ProgressStar(ppath: string, path: string, i: nat, pnames: seq<string>)
    requires i < |path| && path[i] == '*' && |pnames| == Wildcards(path[..i])
    requires Erase(ppath) == (path[..i] + Erase(path[i..]).0, pnames + Erase(path[i..]).1)
    ensures |pnames + ["_*"]| == Wildcards(path[..i + 1]) && Erase(ppath) == (path[..i + 1], pnames + ["_*"])
  {
    WildcardsOfPrefix(path, i);
    assert path[..i + 1] == path[..i] + "*";
  }

  lemma EraseNothing(path: string)
    ensures path[..|path|] == path && path[|path|..] == "" && Erase("") == ("", [])
    ensures path + "" == path
  {
  }

  lemma PlainBetween(root: Node, path: string, b: nat, i: nat)
    requires Boundary(root, path, b, i) && b < i
    ensures path[..b] <= path[..i] && |path[..b]| < |path[..i]|
    ensures Plain(path[..i][|path[..b]|..|path[..i]| - 1])
  {
    assert forall k :: b <= k < i - 1 ==> path[k] == path[b..i][k - b];
  }

  /** At the end of the path what follows the last wildcard is inserted. */
  lemma ProgressEnds(before: Node, now: Node, ppath: string, path: string, b: nat, pnames: seq<string>)
    requires Progress(before, now, ppath, path, b, |path|, pnames) && b < |path|
    ensures SameMap(before, now) && Grown(before, now, path[..b]) && FitsTree(now, path, Static)
    ensures |pnames| == Wildcards(path) && Erase(ppath) == (path, pnames)
    ensures path[..b] <= path && |path[..b]| < |path| && Plain(path[|path[..b]|..|path| - 1])
  {
    hide SameMap, TreeOk, Lookup, Grown, Erase, Wildcards, FitsTree;
    PlainFits(now, path, b, |path|);
    EraseNothing(path);
    PlainBetween(now, path, b, |path|);
    assert pnames + [] == pnames;
  }

  lemma NothingBetween(path: string, i: nat)
    requires i < |path|
    ensures path[..i] <= path[..i + 1] && |path[..i]| < |path[..i + 1]|
    ensures Plain(path[..i + 1][|path[..i]|..|path[..i + 1]| - 1])
  {
  }

  class Router {
    const root: RouteNode
    var depth: nat

    ghost predicate Valid()
      reads this, root, root.repr
    {
      root.Valid() && TreeOk(root.tree)
    }

    lemma ValidTree()
      requires Valid()
      ensures TreeOk(root.tree)
    {
    }

    constructor ()
      ensures Valid() && root.tree == EMPTY && depth == 0 && fresh(root.repr)
    {
      root := new RouteNode.Root();
      depth := 0;
    }

    /** One insertion of Add, at a node boundary. */
    method Insert(path: string, r: Route)
      requires Valid() && path != "" && path[0] == '/'
      requires FitsTree(root.tree, path, r.kind) && NamesFit(r, path)
      modifies this, root.repr
      ensures Valid() && fresh(root.repr - old(root.repr))
      ensures root.tree == RouteTree.Insert(old(root.tree), path, r)
      ensures Lookup(root.tree, path).Some? && root.tree != EMPTY
      ensures Records(old(root.tree), root.tree, path, r) && Updates(old(root.tree), root.tree, path, r)
      ensures depth == if old(depth) < 1 then |r.pnames| else old(depth)
    {
      if depth < 1 {
        depth := |r.pnames|;
      }
      TreeInsert(root.tree, path, r);
      root.InsertInPlace(path, r);
    }

    /** Inserts the text before a wildcard, without a handler. */
    method InsertBefore(verb: string, path: string, ghost b: nat, i: nat)
      requires Valid() && i <= |path| && path != "" && path[0] == '/' && b < i
      requires Boundary(root.tree, path, b, i)
      modifies this, root.repr
      ensures Valid() && fresh(root.repr - old(root.repr)) && root.tree != EMPTY
      ensures root.tree == RouteTree.Insert(old(root.tree), path[..i], Route(verb, None, Static, "", []))
      ensures SameMap(old(root.tree), root.tree) && Lookup(root.tree, path[..i]).Some?
      ensures Updates(old(root.tree), root.tree, path[..i], Route(verb, None, Static, "", []))
      ensures depth == old(depth)
    {
      var r := Route(verb, None, Static, "", []);
      PlainFits(root.tree, path, b, i);
      Insert(path[..i], r);
      RecordsNothing(old(root.tree), old(root.tree), root.tree, path[..i], r);
    }

    /** Inserts a wildcard after a node, with or without a handler. */
    method InsertWildcard(path: string, i: nat, r: Route)
      requires Valid() && 0 < i < |path| && path[0] == '/' && OneKind([path[i]], r.kind)
      requires Lookup(root.tree, path[..i]).Some? && |r.pnames| == Wildcards(path[..i + 1])
      modifies this, root.repr
      ensures Valid() && fresh(root.repr - old(root.repr)) && root.tree != EMPTY
      ensures root.tree == RouteTree.Insert(old(root.tree), path[..i + 1], r)
      ensures Lookup(root.tree, path[..i + 1]).Some?
      ensures Records(old(root.tree), root.tree, path[..i + 1], r)
      ensures Updates(old(root.tree), root.tree, path[..i + 1], r)
      ensures depth == if old(depth) < 1 then |r.pnames| else old(depth)
    {
      WildcardFits(root.tree, path, i, r.kind);
      Insert(path[..i + 1], r);
    }

    /** The end of the parameter name that starts behind the colon at `i`. */
    method NameEnd(path: string, i: nat) returns (e: nat)
      requires i < |path| && path[i] == ':'
      ensures e == SegmentEnd(path, i + 1)
      ensures i < e <= |path| && NoSlash(path[i + 1..e]) && (e < |path| ==> path[e] == '/')
    {
      e := i;
      while e < |path| && path[e] != '/'
        invariant i <= e <= |path| && (e > i ==> NoSlash(path[i + 1..e]))
      {
        assert e > i ==> path[i + 1..e + 1] == path[i + 1..e] + [path[e]];
        e := e + 1;
      }
      SegmentEndIs(path, i + 1, e);
    }

    /** Handles a parameter: the node before it, the erased name, the parameter node, which gets the
        names so far. */
    method AddParam(verb: string, h: Option<Func>, ppath: string, path: string, ghost b: nat, i: nat,
                    pnames: seq<string>, ghost before: Node)
      returns (p: string, names: seq<string>)
      requires Valid() && i < |path| && path[i] == ':' && b < i
      requires Progress(before, root.tree, ppath, path, b, i, pnames)
      modifies this, root.repr
      ensures Valid() && fresh(root.repr - old(root.repr))
      ensures i + 1 <= |p| <= |path| && (i + 1 < |p| ==> p[i + 1] == '/') && p[0] == path[0]
      ensures if i + 1 == |p| then
                && Registers(before, root.tree, Erase(ppath).0, verb, h)
                && Installs(before, root.tree, Erase(ppath).0, ppath, Erase(ppath).1, h)
              else Progress(before, root.tree, ppath, p, i + 1, i + 1, names)
      ensures i + 1 == |p| ==> Erase(ppath).1 == names
      ensures AddedFrom(old(root.tree), verb, h, ppath, path, i, pnames)
        == if i + 1 == |p| then root.tree else AddedFrom(root.tree, verb, h, ppath, p, i + 1, names)
      ensures |names| == |pnames| + 1 && depth == (if old(depth) < 1 then |names| else old(depth))
    {
      hide *;
      ProgressParts(before, root.tree, ppath, path, b, i, pnames);
      ghost var first, now := root.tree, root.tree;
      InsertBefore(verb, path, b, i);
      SameMapTwice(before, now, root.tree);
      GrownNext(before, now, root.tree, path[..b], path[..i], Route(verb, None, Static, "", []));
      now := root.tree;
      var e := NameEnd(path, i);
      AddedParam(first, verb, h, ppath, path, i, pnames, e);
      names := pnames + [path[i + 1..e]];
      p := path[..i + 1] + path[e..];
      ErasedParam(ppath, path, i, e, pnames, p);
      var last := i + 1 == |p|;
      var r := Route(verb, if last then h else None, Param, ppath, names);
      InsertWildcard(p, i, r);
      NothingBetween(p, i);
      if last {
        RecordsLast(before, now, root.tree, p[..i + 1], r);
        InstalledNext(before, now, root.tree, p[..i], p[..i + 1], r);
        EraseNothing(p);
        assert names + [] == names;
      } else {
        GrownNext(before, now, root.tree, p[..i], p[..i + 1], r);
        ProgressParam(before, now, root.tree, ppath, p, i + 1, names, r);
      }
    }

    /** Handles a star: the node before it and the wildcard node; what follows is dropped. */
    method AddStar(verb: string, h: Option<Func>, ppath: string, path: string, ghost b: nat, i: nat,
                   pnames: seq<string>, ghost before: Node)
      requires Valid() && i < |path| && path[i] == '*' && b < i
      requires Progress(before, root.tree, ppath, path, b, i, pnames)
      modifies this, root.repr
      ensures Valid() && fresh(root.repr - old(root.repr))
      ensures Registers(before, root.tree, Erase(ppath).0, verb, h)
      ensures Installs(before, root.tree, Erase(ppath).0, ppath, Erase(ppath).1, h)
      ensures root.tree == AddedFrom(old(root.tree), verb, h, ppath, path, i, pnames)
      ensures Erase(ppath).1 != [] && depth == if old(depth) < 1 then |pnames| + 1 else old(depth)
    {
      hide *;
      ProgressParts(before, root.tree, ppath, path, b, i, pnames);
      AddedStar(root.tree, verb, h, ppath, path, i, pnames);
      ghost var now := root.tree;
      InsertBefore(verb, path, b, i);
      SameMapTwice(before, now, root.tree);
      GrownNext(before, now, root.tree, path[..b], path[..i], Route(verb, None, Static, "", []));
      now := root.tree;
      ProgressStar(ppath, path, i, pnames);
      var r := Route(verb, h, Any, ppath, pnames + ["_*"]);
      InsertWildcard(path, i, r);
      NothingBetween(path, i);
      RecordsLast(before, now, root.tree, path[..i + 1], r);
      InstalledNext(before, now, root.tree, path[..i], path[..i + 1], r);
    }

    /** Registers a handler for a method and path. Whatever the method, a handler also leaves the
        pristine path and the names of this call at the node, for all methods. The depth becomes 1
        with the first wildcard and stays. */
    method Add(verb: string, given: string, h: Option<Func>)
      requires Valid() && given != ""
      modifies this, root.repr
      ensures Valid() && fresh(root.repr - old(root.repr))
      ensures Registers(old(root.tree), root.tree, Key(given), verb, h)
      ensures Installs(old(root.tree), root.tree, Key(given), WithSlash(given), Names(given), h)
      ensures root.tree == WithRoute(old(root.tree), Added(verb, given, h))
      ensures depth == if old(depth) >= 1 then old(depth) else if Names(given) == [] then 0 else 1
    {
      hide *;
      PathParts(given);
      WithRouteIs(root.tree, Added(verb, given, h));
      ValidTree();
      var path := if given[0] != '/' then "/" + given else given;
      var ppath := path;
      var pnames: seq<string> := [];
      var i := 0;
      ghost var b, before := 0, root.tree;
      ProgressStart(before, path);
      while i < |path|
        invariant Valid() && fresh(root.repr - old(root.repr))
        invariant Progress(before, root.tree, ppath, path, b, i, pnames)
        invariant b <= i <= |path| && (i > 0 ==> b < i) && path != "" && path[0] == '/'
        invariant AddedFrom(root.tree, verb, h, ppath, path, i, pnames)
          == AddedFrom(before, verb, h, ppath, ppath, 0, [])
        invariant depth == if old(depth) >= 1 then old(depth) else if pnames == [] then 0 else 1
        decreases |path| - i
      {
        if path[i] == ':' {
          path, pnames := AddParam(verb, h, ppath, path, b, i, pnames, before);
          i := i + 1;
          if i == |path| {
            return;
          }
          b := i;
        } else if path[i] == '*' {
          AddStar(verb, h, ppath, path, b, i, pnames, before);
          return;
        }
        NotWild(path[i]);
        ProgressPlain(before, root.tree, ppath, path, b, i, pnames);
        AddedPlain(root.tree, verb, h, ppath, path, i, pnames);
        i := i + 1;
      }
      var r := Route(verb, h, Static, ppath, pnames);
      ghost var now := root.tree;
      AddedPlain(now, verb, h, ppath, path, i, pnames);
      ProgressEnds(before, now, ppath, path, b, pnames);
      Insert(path, r);
      RecordsLast(before, now, root.tree, path, r);
      InstalledNext(before, now, root.tree, path[..b], path, r);
    }

    /** Adds a list of routes, in order, to a router without routes: as a map the tree holds
        the last handler added for each method and erased path, and nothing else; a node has the
        pristine path and the names of the last route with a handler at its path, whatever the
        method; and the depth is 1 if some route has a wildcard, else 0. */
    method BuildRoutes(routes: seq<Added>)
      requires Valid() && root.tree == EMPTY && depth == 0
      requires forall i :: 0 <= i < |routes| ==> routes[i].path != ""
      modifies this, root.repr
      ensures Valid() && fresh(root.repr - old(root.repr))
      ensures forall v, p :: HandlerAt(root.tree, v, p) == LastAdded(routes, v, p)
      ensures Built(routes, root.tree) && root.tree == TreeOf(routes)
      ensures depth == if forall i :: 0 <= i < |routes| ==> Names(routes[i].path) == [] then 0 else 1
    {
      hide *;
      NothingAtFirst();
      NothingBuilt();
      TreeOfNone();
      for i := 0 to |routes|
        invariant Valid() && fresh(root.repr - old(root.repr))
        invariant AsAdded(routes[..i], root.tree) && Built(routes[..i], root.tree) && root.tree == TreeOf(routes[..i])
        invariant depth == if forall k :: 0 <= k < i ==> Names(routes[k].path) == [] then 0 else 1
      {
        var r := routes[i];
        assert routes[..i + 1] == routes[..i] + [r];
        ghost var before := root.tree;
        Add(r.verb, r.path, r.h);
        AsAddedNext(routes[..i], r, before, root.tree);
        BuiltNext(routes[..i], r, before, root.tree);
        TreeOfNext(routes[..i], r);
      }
      assert routes[..|routes|] == routes;
      AsAddedIs(routes, root.tree);
    }

    /** Looks up the route for a method and path and captures the parameters on the way: the answer
        is that of the search as a function. What it returns matches the whole path; a request that
        follows a pattern with nothing competing is answered by it, if there are values enough, and a
        static route always wins. It is short of values only if the tree can use more. */
    method Find(verb: string, path: string, pvalues: array<string>)
      returns (short: bool, node: RouteNode?, func: Option<Func>, ghost at: string, ghost straight: bool)
      requires Valid() && path != ""
      modifies pvalues
      ensures match Answered(root.tree, path, old(pvalues[..]), verb)
        case Found(g) =>
          !short && node != null && node.tree == g.cn && at == g.at && straight == g.straight && pvalues[..] == g.values
        case Nothing => !short && node == null
        case Short => short && node == null
      ensures node == null ==> func == None
      ensures node != null ==>
        Lookup(root.tree, at) == Some(node.tree) && Matches(at, path) && func == HandlerAt(root.tree, verb, at)
      ensures node != null && straight ==> Wildcards(at) <= pvalues.Length && Fill(at, pvalues[..]) == path
      ensures forall p :: Leads(root.tree, p, path) && HandlerAt(root.tree, verb, p).Some? ==>
        if Wildcards(p) <= pvalues.Length then
          node != null && at == p && func == HandlerAt(root.tree, verb, p) && Fill(p, pvalues[..]) == path
        else short
      ensures forall p, t :: FallsToStar(root.tree, path, p, t) && HandlerAt(root.tree, verb, p + "*").Some? ==>
        if Wildcards(p) < pvalues.Length then
          && node != null && at == p + "*" && func == HandlerAt(root.tree, verb, at)
          && pvalues[Wildcards(p)] == t && Wildcards(at) == Wildcards(p) + 1 && Fill(at, pvalues[..]) == path
        else short
      ensures forall p, t, r ::
        FallsToParam(root.tree, path, p, t, r) && HandlerAt(root.tree, verb, p + ":" + r).Some? ==>
        if Wildcards(p + ":" + r) <= pvalues.Length then
          node != null && at == p + ":" + r && func == HandlerAt(root.tree, verb, at) && Fill(at, pvalues[..]) == path
        else short
      ensures Plain(path) && HandlerAt(root.tree, verb, path).Some? ==>
        node != null && at == path && func == HandlerAt(root.tree, verb, path) && pvalues[..] == old(pvalues[..])
      ensures Uses(root.tree).all <= pvalues.Length && NamesWithin(root.tree, pvalues.Length) ==> !short
    {
      hide TreeOk, Lookup, Matches, NamesWithin, Fill, Wildcards, HandlerAt, Plain, Leads, Uses, Answered, Ok,
        FallsToStar, FallsToParam,
        RouteNode.Valid,
        RouteRun.Outcome, Search.Holds, Search.Moved;
      ghost var tree, values := root.tree, pvalues[..];
      FindFacts(tree, path, values, verb);
      var s := new Search(root, path, pvalues);
      s.Seek(values);
      short, node, func := s.Finish(values, verb);
      at, straight := s.g.at, s.g.straight;
    }
  }

  /** What the answer of a search means. */
  lemma FindFacts(tree: Node, path: string, values: seq<string>, verb: string)
    requires TreeOk(tree) && path != ""
    ensures var a := Answered(tree, path, values, verb);
      && (a.Found? ==>
            && Lookup(tree, a.g.at) == Some(a.g.cn) && Matches(a.g.at, path)
            && HandlerAt(tree, verb, a.g.at) == a.g.cn.FindHandler(verb)
            && (a.g.straight ==> Wildcards(a.g.at) <= |a.g.values| && Fill(a.g.at, a.g.values) == path))
      && (forall p :: Leads(tree, p, path) && HandlerAt(tree, verb, p).Some? ==>
            if Wildcards(p) <= |values| then
              a.Found? && a.g.at == p && |a.g.values| == |values| && Fill(p, a.g.values) == path
            else a.Short?)
      && (forall p, t :: FallsToStar(tree, path, p, t) && HandlerAt(tree, verb, p + "*").Some? ==>
            if Wildcards(p) < |values| then
              && a.Found? && a.g.at == p + "*" && |a.g.values| == |values| && a.g.values[Wildcards(p)] == t
              && Wildcards(p + "*") == Wildcards(p) + 1 && Fill(p + "*", a.g.values) == path
            else a.Short?)
      && (forall p, t, r :: FallsToParam(tree, path, p, t, r) && HandlerAt(tree, verb, p + ":" + r).Some? ==>
            if Wildcards(p + ":" + r) <= |values| then
              && a.Found? && a.g.at == p + ":" + r && |a.g.values| == |values|
              && Fill(p + ":" + r, a.g.values) == path
            else a.Short?)
      && (Plain(path) && HandlerAt(tree, verb, path).Some? ==> a.Found? && a.g.at == path && a.g.values == values)
      && (Uses(tree).all <= |values| && NamesWithin(tree, |values|) ==> !a.Short?)
  {
    hide *;
    if Answered(tree, path, values, verb).Found? {
      AnswerMatches(tree, path, values, verb);
    }
    forall p | Leads(tree, p, path) && HandlerAt(tree, verb, p).Some?
      ensures var a := Answered(tree, path, values, verb);
        if Wildcards(p) <= |values| then
          a.Found? && a.g.at == p && |a.g.values| == |values| && Fill(p, a.g.values) == path
        else a.Short?
    {
      FollowedIsFound(tree, path, values, verb, p);
    }
    forall p, t | FallsToStar(tree, path, p, t) && HandlerAt(tree, verb, p + "*").Some?
      ensures var a := Answered(tree, path, values, verb);
        if Wildcards(p) < |values| then
          && a.Found? && a.g.at == p + "*" && |a.g.values| == |values| && a.g.values[Wildcards(p)] == t
          && Wildcards(p + "*") == Wildcards(p) + 1 && Fill(p + "*", a.g.values) == path
        else a.Short?
    {
      StarIsFound(tree, path, values, verb, p, t);
    }
    forall p, t, r | FallsToParam(tree, path, p, t, r) && HandlerAt(tree, verb, p + ":" + r).Some?
      ensures var a := Answered(tree, path, values, verb);
        if Wildcards(p + ":" + r) <= |values| then
          a.Found? && a.g.at == p + ":" + r && |a.g.values| == |values| && Fill(p + ":" + r, a.g.values) == path
        else a.Short?
    {
      ParamIsFound(tree, path, values, verb, p, t, r);
    }
    if Plain(path) && HandlerAt(tree, verb, path).Some? {
      StaticIsFound(tree, path, values, verb);
    }
    if Uses(tree).all <= |values| && NamesWithin(tree, |values|) {
      EnoughValues(tree, path, values, verb);
    }
  }

  /** `Lacking` is a search that has run out of values: at the Param label it goes round without an
      effect, at a star's value it panics. */
  datatype Outcome = Running | Reached | NotFound | Lacking

  /** The variables of one search; its labels are the methods AtTop, AtBranch, AtWild and Finish. */
  class Search {
    const root: RouteNode
    const path: string
    const pvalues: array<string>
    var cn: RouteNode
    var search: string
    var n: nat
    var nk: Kind
    var nn: RouteNode?
    var ns: string
    var pc: Pc
    var outcome: Outcome
    ghost var g: State

    /** The variables hold the abstract state `g`. */
    ghost predicate Holds()
      reads this`cn, this`search, this`n, this`nk, this`nn, this`ns, this`g, root, root.repr, pvalues
    {
      && root.Valid() && TreeOk(root.tree)
      && cn in root.repr && cn.repr <= root.repr && cn.Valid() && cn.tree == g.cn
      && (nn != null ==> nn in root.repr && nn.repr <= root.repr && nn.Valid())
      && g.nn == (if nn == null then None else Some(nn.tree))
      && g.search == search && g.n == n && g.nk == nk && g.ns == ns && g.values == pvalues[..]
    }

    /** The search is where a move leads. */
    ghost predicate Moved(m: Move)
      reads this`pc, this`outcome, this`g
    {
      match m
      case Go(q, h) => outcome == Running && pc == q && g == h
      case Reach(h) => outcome == Reached && g == h
      case Miss => outcome == NotFound
      case _ => outcome == Lacking
    }

    constructor (root: RouteNode, path: string, pvalues: array<string>)
      requires root.Valid() && TreeOk(root.tree) && path != ""
      ensures Holds() && Moved(Go(Top, Start(root.tree, path, pvalues[..])))
      ensures this.root == root && this.path == path && this.pvalues == pvalues
    {
      this.root, this.path, this.pvalues := root, path, pvalues;
      cn, search, n, nk, nn, ns := root, path, 0, Static, null, "";
      pc, outcome := Top, Running;
      g := Start(root.tree, path, pvalues[..]);
    }

    lemma Vars()
      requires Holds()
      ensures cn.Valid() && cn.tree == g.cn && cn.tag == g.cn.tag && cn.prefix == g.cn.prefix
      ensures |cn.children| == |g.cn.children|
      ensures nn != null ==> g.nn == Some(nn.tree)
      ensures nn == null ==> g.nn == None
      ensures g.search == search && g.n == n && g.nk == nk && g.values == pvalues[..]
    {
      cn.Fields();
    }

    // The assignments of the search, each with what it does to the abstract state.

    /** Saves the node as the point to come back to, if it stands right after a slash. */
    method Remember(k: Kind)
      requires Holds()
      modifies this`nk, this`nn, this`ns, this`g
      ensures Holds() && g == Save(old(g), k)
    {
      hide TreeOk, RouteNode.Valid;
      cn.Fields();
      g := Save(g, k);
      if cn.tag == '/' {
        nk := k;
        nn := cn;
        ns := search;
      }
    }

    method Descend(i: nat)
      requires Holds() && i < |cn.children| == |g.cn.children|
      modifies this`cn, this`g
      ensures Holds()
      ensures g == old(g).(cn := Child(old(g), i), at := old(g).at + Child(old(g), i).prefix, back := false)
      ensures cn.tree == g.cn && cn.pnames == g.cn.pnames
    {
      hide TreeOk, RouteNode.Valid;
      cn.ChildFields(i);
      g := g.(cn := Child(g, i), at := g.at + Child(g, i).prefix, back := false);
      cn := cn.children[i];
    }

    /** Drops the first `k` characters of the remaining path. */
    method Advance(k: nat)
      requires Holds() && k <= |search|
      modifies this`search, this`g
      ensures Holds() && g == old(g).(search := old(search)[k..], done := old(g).done + old(search)[..k])
    {
      hide TreeOk, RouteNode.Valid;
      g := g.(search := search[k..], done := g.done + search[..k]);
      search := search[k..];
    }

    method Capture(index: nat, value: string)
      requires Holds() && index < pvalues.Length
      modifies this`n, this`g, pvalues
      ensures Holds() && g == old(g).(n := old(g).n + 1, values := old(g).values[index := value])
    {
      hide TreeOk, RouteNode.Valid;
      pvalues[index] := value;
      n := n + 1;
      g := g.(n := n, values := g.values[index := value]);
      assert g.values == pvalues[..];
    }

    /** Goes back to the saved node, and forgets it unless it is kept. */
    method JumpBack(keep: bool)
      requires Holds() && nn != null
      modifies this`cn, this`search, this`nn, this`pc, this`g
      ensures Holds() && pc == Resume(old(g).nk)
      ensures g == if keep then Return(old(g)) else ReturnOnce(old(g))
    {
      hide TreeOk, RouteNode.Valid;
      g := if keep then Return(g) else ReturnOnce(g);
      cn := nn;
      search := ns;
      if !keep {
        nn := null;
      }
      pc := if nk == Param then Branch else Wild;
    }

    // The labels of the search: each makes the next move.

    /** Goes from label to label until the path is consumed, nothing is left to try, or a value is
        lacking. */
    method Seek(ghost values: seq<string>)
      requires Holds() && path != "" && Moved(Go(Top, Start(root.tree, path, values)))
      modifies this, pvalues
      ensures Holds() && outcome != Running
      ensures Ok(root.tree, path, Top, Start(root.tree, path, values))
      ensures Moved(RouteRun.Outcome(root.tree, path, Top, Start(root.tree, path, values)))
    {
      hide Ok, TreeOk, Radix, Height, RouteNode.Valid, RouteRun.Outcome, Search.Holds, Search.Moved, Next, SavedRank,
        BackRank;
      ghost var tree, start := root.tree, Start(root.tree, path, values);
      HoldsTree();
      StartOk(tree, path, values);
      MovedTo(Top, start);
      while outcome == Running
        invariant Holds() && root.tree == tree
        invariant outcome == Running ==>
          Ok(tree, path, pc, g) && RouteRun.Outcome(tree, path, pc, g) == RouteRun.Outcome(tree, path, Top, start)
        invariant outcome != Running ==> Moved(RouteRun.Outcome(tree, path, Top, start))
        decreases outcome == Running, SavedRank(pc, g), BackRank(g), Height(g.cn), PcRank(pc)
      {
        ghost var q, h := pc, g;
        NextOk(tree, path, q, h);
        match pc {
          case Top => AtTop();
          case Branch => AtBranch();
          case Wild => AtWild();
        }
        OneMove(q, h);
      }
    }

    lemma HoldsTree()
      requires Holds()
      ensures TreeOk(root.tree)
    {
    }

    lemma MovedTo(q: Pc, h: State)
      requires Moved(Go(q, h))
      ensures outcome == Running && pc == q && g == h
    {
    }

    /** After one move the search ends as it would have ended before. */
    lemma OneMove(q: Pc, h: State)
      requires Ok(root.tree, path, q, h) && Moved(Next(q, h))
      ensures outcome == Running ==>
        && Ok(root.tree, path, pc, g) && Smaller(pc, g, q, h)
        && RouteRun.Outcome(root.tree, path, pc, g) == RouteRun.Outcome(root.tree, path, q, h)
      ensures outcome != Running ==> Moved(RouteRun.Outcome(root.tree, path, q, h))
    {
      hide Ok, Next, RouteRun.Outcome, Smaller;
      NextOk(root.tree, path, q, h);
      match Next(q, h)
      case Go(_, _) => OutcomeNext(root.tree, path, q, h, pc, g);
      case _ => OutcomeStops(root.tree, path, q, h);
    }

    /** A node's own text: it must be matched, or the search goes back to the saved node. */
    method AtTop()
      requires Holds() && pc == Top && outcome == Running && Ok(root.tree, path, Top, g)
      modifies this
      ensures Holds() && Moved(Next(Top, old(g)))
    {
      hide Ok, TreeOk, Radix, RouteNode.Valid, Search.Holds, Behind, Return;
      Vars();
      OkParts(root.tree, path, Top, g);
      if search == "" {
        outcome := Reached;
        return;
      }
      var pl, l := 0, 0;
      if cn.tag != ':' {
        pl := |cn.prefix|;
        l := CommonPrefix(search, cn.prefix);
      }
      if l != pl {
        if nn == null {
          outcome := NotFound;
        } else {
          JumpBack(true);
        }
        return;
      }
      Advance(l);
      assert g == Consume(old(g)) by {
        assert old(g).search[0..] == old(g).search && old(g).done + "" == old(g).done;
      }
      EnterStaticChild();
    }

    /** Behind a node's own text the path is consumed, or a static child goes first. */
    method EnterStaticChild()
      requires Holds() && outcome == Running && g.nk == nk
      modifies this`cn, this`pc, this`nk, this`nn, this`ns, this`g, this`outcome
      ensures Holds() && Moved(Behind(old(g)))
    {
      hide TreeOk, Radix, RouteNode.Valid, Search.Holds;
      Vars();
      if search == "" {
        outcome := Reached;
        return;
      }
      var i := cn.FindChild(search[0], Static);
      if i < |cn.children| {
        Remember(Param);
        Descend(i);
        pc := Top;
      } else {
        pc := Branch;
      }
    }

    /** Enters the parameter child, if there is one and room for its value, and captures a segment. */
    method AtBranch()
      requires Holds() && pc == Branch && outcome == Running && Ok(root.tree, path, Branch, g)
      modifies this, pvalues
      ensures Holds() && Moved(Next(Branch, old(g)))
    {
      hide Ok, TreeOk, Radix, RouteNode.Valid, NoSlash, Search.Holds, Behind, Return, ReturnOnce, EnterAny, EnterStatic,
        Consume;
      Vars();
      OkParts(root.tree, path, Branch, g);
      var i := cn.FindChildByKind(Param);
      if i == |cn.children| {
        pc := Wild;
        return;
      }
      if n == pvalues.Length {
        outcome := Lacking;
        return;
      }
      var k := SegmentLength(search);
      Remember(Any);
      Descend(i);
      Capture(n, search[..k]);
      Advance(k);
      assert g == EnterParam(old(g), i, k);
      pc := Top;
    }

    /** Takes the wildcard child, or goes back once to the saved node. */
    method AtWild()
      requires Holds() && pc == Wild && outcome == Running && Ok(root.tree, path, Wild, g)
      modifies this, pvalues
      ensures Holds() && Moved(Next(Wild, old(g)))
    {
      hide Ok, TreeOk, Radix, RouteNode.Valid, Search.Holds, ReturnOnce;
      Vars();
      var i := cn.FindChildByKind(Any);
      if i < |cn.children| {
        StarNamed(root.tree, path, g, i);
        Descend(i);
        if |cn.pnames| > pvalues.Length {
          outcome := Lacking;
          return;
        }
        Capture(|cn.pnames| - 1, search);
        assert search[|search|..] == "" && search[..|search|] == search;
        Advance(|search|);
        assert g == EnterAny(old(g), i);
        outcome := Reached;
      } else if nn != null {
        JumpBack(false);
      } else {
        outcome := NotFound;
      }
    }

    /** The whole path is consumed: the node's handler, or else that of its wildcard child. */
    method Finish(ghost values: seq<string>, verb: string) returns (short: bool, node: RouteNode?, func: Option<Func>)
      requires Holds() && path != "" && outcome != Running
      requires Ok(root.tree, path, Top, Start(root.tree, path, values))
      requires Moved(RouteRun.Outcome(root.tree, path, Top, Start(root.tree, path, values)))
      modifies this`g, this`cn, this`n, pvalues
      ensures root.Valid()
      ensures match Answered(root.tree, path, values, verb)
        case Found(h) =>
          !short && node != null && node.tree == h.cn && g == h && pvalues[..] == h.values
            && func == h.cn.FindHandler(verb)
        case Nothing => !short && node == null && func == None
        case Short => short && node == null && func == None
    {
      hide Ok, EndOk, TreeOk, Radix, Height, RouteNode.Valid, RouteRun.Outcome;
      if outcome != Reached {
        return outcome == Lacking, null, None;
      }
      func := cn.FindHandler(verb);
      if func.Some? {
        return false, cn, func;
      }
      var i := cn.FindChildByKind(Any);
      if i == |cn.children| {
        return false, null, None;
      }
      StarNamed(root.tree, path, g, i);
      Descend(i);
      if |cn.pnames| > pvalues.Length {
        return true, null, None;
      }
      Capture(|cn.pnames| - 1, "");
      func := cn.FindHandler(verb);
      return false, cn, func;
    }
  }
}
