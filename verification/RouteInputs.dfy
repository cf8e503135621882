/** Small lists of routes: one that the router's depth is enough for, one with a request that panics,
    and one with a request that is never answered. */
module RouteInputs {
  import opened Options
  import opened RouteTree
  import opened RouteSearch
  import opened RouteRun
  import opened RouteBack
  import opened RouteShort
  import opened Router
  import opened RouteDepth

  // ----- routes with one parameter ------------------------------------------------------------------

  lemma {:induction false} ErasePlain(a: string, rest: string)
    requires Plain(a)
    ensures Erase(a + rest) == (a + Erase(rest).0, Erase(rest).1)
  {
    if a == "" {
      assert a + rest == rest && a + Erase(rest).0 == Erase(rest).0;
    } else {
      assert (a + rest)[1..] == a[1..] + rest && (a + rest)[0..] == a + rest;
      EraseOne(a + rest, 0);
      ErasePlain(a[1..], rest);
      assert [a[0]] + (a[1..] + Erase(rest).0) == a + Erase(rest).0;
    }
  }

  /** A path with one parameter: plain text, a name, and plain text behind a slash or nothing. */
  predicate OneParam(a: string, name: string, b: string) {
    Plain(a) && a != "" && a[0] == '/' && NoSlash(name) && Plain(b) && (b != "" ==> b[0] == '/')
  }

  function ParamPath(a: string, name: string, b: string): string { a + ":" + name + b }

  lemma EraseTail(name: string, b: string)
    requires NoSlash(name) && Plain(b) && (b != "" ==> b[0] == '/')
    ensures Erase(":" + name + b) == (":" + b, [name])
  {
    hide Erase, Plain;
    var tail, e := ":" + name + b, 1 + |name|;
    assert tail[1..e] == name && tail[e..] == b && tail[0..] == tail;
    EraseParam(tail, 0, e);
    ErasePlain(b, "");
    EraseNothing(b);
    assert [name] + [] == [name];
  }

  lemma KeyOfParam(a: string, name: string, b: string)
    requires OneParam(a, name, b)
    ensures ParamPath(a, name, b) != "" && Key(ParamPath(a, name, b)) == a + ":" + b
    ensures Names(ParamPath(a, name, b)) == [name]
  {
    var path, tail := ParamPath(a, name, b), ":" + name + b;
    hide Erase, Plain;
    assert path == a + tail && path[0] == '/';
    ErasePlain(a, tail);
    EraseTail(name, b);
    assert a + (":" + b) == a + ":" + b;
  }

  lemma {:induction false} AddedPlainTo(tree: Node, verb: string, h: Option<Func>, ppath: string, path: string,
                                        i: nat, j: nat, pnames: seq<string>)
    requires i <= j <= |path| && path != "" && path[0] == '/' && Plain(path[i..j])
    ensures AddedFrom(tree, verb, h, ppath, path, i, pnames) == AddedFrom(tree, verb, h, ppath, path, j, pnames)
    decreases j - i
  {
    hide AddedFrom;
    if i < j {
      assert path[i..j][0] == path[i] && path[i..j][1..] == path[i + 1..j];
      AddedPlain(tree, verb, h, ppath, path, i, pnames);
      AddedPlainTo(tree, verb, h, ppath, path, i + 1, j, pnames);
    }
  }

  function Bare(verb: string): Route { Route(verb, None, Static, "", []) }

  /** What adding a path with one parameter inserts. */
  lemma AddedOneParam(tree: Node, verb: string, h: Option<Func>, a: string, name: string, b: string)
    requires OneParam(a, name, b)
    ensures ParamPath(a, name, b) != ""
    ensures var path := ParamPath(a, name, b);
      var mid := Insert(tree, a, Bare(verb));
      WithRoute(tree, Added(verb, path, h))
      == if b == "" then Insert(mid, a + ":", Route(verb, h, Param, path, [name]))
         else Insert(Insert(mid, a + ":", Route(verb, None, Param, path, [name])), a + ":" + b,
           Route(verb, h, Static, path, [name]))
  {
    hide AddedFrom, Insert;
    var path, i := ParamPath(a, name, b), |a|;
    assert path[..i] == a && path[i] == ':' && path[0..i] == a;
    AddedPlainTo(tree, verb, h, path, path, 0, i, []);
    var e := i + 1 + |name|;
    assert path[i + 1..e] == name && path[e..] == b;
    SegmentEndIs(path, i + 1, e);
    AddedParam(tree, verb, h, path, path, i, [], e);
    var p := path[..i + 1] + path[e..];
    assert path[..i + 1] == a + ":" && p == a + ":" + b && p[..i + 1] == a + ":";
    assert [] + [name] == [name];
    if b != "" {
      var now := Insert(Insert(tree, a, Bare(verb)), a + ":", Route(verb, None, Param, path, [name]));
      assert p[i + 1..|p|] == b;
      AddedPlainTo(now, verb, h, path, p, i + 1, |p|, [name]);
      AddedPlain(now, verb, h, path, p, i + 1, [name]);
    }
  }

  // ----- a list that one value serves ---------------------------------------------------------------------

  /** GET /a/:x and GET /b/:y: two parameters, and the depth 1 is enough for every request. */
  lemma OneValueServes(f: Func, g: Func, tree: Node)
    requires TreeOk(tree) && Built([Added("GET", "/a/:x", Some(f)), Added("GET", "/b/:y", Some(g))], tree)
    ensures !NoWildcard([Added("GET", "/a/:x", Some(f)), Added("GET", "/b/:y", Some(g))]) && Enough(tree, 1)
  {
    hide Built, Names, Key, Enough, TreeOk;
    var routes := [Added("GET", "/a/:x", Some(f)), Added("GET", "/b/:y", Some(g))];
    KeyOfParam("/a/", "x", "");
    KeyOfParam("/b/", "y", "");
    assert ParamPath("/a/", "x", "") == "/a/:x" && ParamPath("/b/", "y", "") == "/b/:y";
    assert Names(routes[0].path) == ["x"] && Names(routes[1].path) == ["y"];
    forall a, b: string | a <= b && OnTheWay(routes, a + ":") && OnTheWay(routes, b + ":")
      ensures a == b
    {
      OneOfTwo(a + ":");
      OneOfTwo(b + ":");
      assert a == (a + ":")[..|a|] && b == (b + ":")[..|b|];
    }
    ApartIsEnough(routes, tree, 1);
  }

  lemma OneOfTwo(q: string)
    requires q != "" && q[|q| - 1] == ':' && (q <= "/a/:" || q <= "/b/:")
    ensures q == "/a/:" || q == "/b/:"
  {
    assert q <= "/a/:" ==> q == "/a/:"[..|q|];
    assert q <= "/b/:" ==> q == "/b/:"[..|q|];
  }

  // ----- insertions below a slash -------------------------------------------------------------------------

  lemma {:induction false} LcpWhole(a: string, b: string)
    ensures Lcp(a + b, a) == |a|
  {
    if a != "" {
      assert (a + b)[1..] == a[1..] + b;
      LcpWhole(a[1..], b);
    }
  }

  /** Text behind a node's own goes below it. */
  lemma InsertAt(n: Node, rest: string, r: Route)
    requires n.prefix != "" && rest != ""
    ensures Insert(n, n.prefix + rest, r) == InsertBelow(n, rest, r)
  {
    LcpWhole(n.prefix, rest);
    assert (n.prefix + rest)[|n.prefix|..] == rest;
  }

  /** The node for text without a handler. */
  function Plainly(text: string, children: seq<Node>): Node
    requires text != ""
  {
    Node(Static, text[0], text, children, "", [], map[])
  }

  lemma InsertFirst(text: string)
    requires text != ""
    ensures Insert(EMPTY, text, Bare("GET")) == Plainly(text, [])
  {
  }

  lemma BareNode(text: string)
    requires text != ""
    ensures NewNode(text, Bare("GET")) == Plainly(text, [])
  {
    NoHandlerAdded(Bare("GET"));
  }

  /** `/:x` and `/a/:y`, with what is behind the second parameter. */
  function Clashing(f: Func, below: Node): Node {
    Plainly("/", [NewNode(":", Route("GET", Some(f), Param, "/:x", ["x"])), Plainly("a/", [below])])
  }

  lemma FirstTree(f: Func)
    ensures WithRoute(EMPTY, Added("GET", "/:x", Some(f)))
      == Plainly("/", [NewNode(":", Route("GET", Some(f), Param, "/:x", ["x"]))])
  {
    hide Insert, WithRoute, InsertBelow;
    var r := Route("GET", Some(f), Param, "/:x", ["x"]);
    AddedOneParam(EMPTY, "GET", Some(f), "/", "x", "");
    assert ParamPath("/", "x", "") == "/:x" && "/" + ":" == "/:";
    InsertFirst("/");
    InsertAt(Plainly("/", []), ":", r);
    BelowNone(Plainly("/", []), ":", r);
  }

  lemma BelowNone(n: Node, rest: string, r: Route)
    requires rest != "" && ChildIndex(n.children, rest[0]) == |n.children|
    ensures InsertBelow(n, rest, r) == n.(children := n.children + [NewNode(rest, r)])
  {
  }

  lemma BelowSome(n: Node, rest: string, r: Route, i: nat)
    requires rest != "" && ChildIndex(n.children, rest[0]) == i < |n.children|
    ensures InsertBelow(n, rest, r) == n.(children := n.children[i := Insert(n.children[i], rest, r)])
  {
  }

  /** The second route's parameter node, below a node for the text before it. */
  lemma SecondParam(f: Func, r: Route)
    requires r.kind == Param
    ensures var first := Plainly("/", [NewNode(":", Route("GET", Some(f), Param, "/:x", ["x"]))]);
      Insert(Insert(first, "/a/", Bare("GET")), "/a/:", r) == Clashing(f, NewNode(":", r))
  {
    hide Insert, InsertBelow, AddHandler;
    var p := NewNode(":", Route("GET", Some(f), Param, "/:x", ["x"]));
    var first, a := Plainly("/", [p]), Plainly("a/", []);
    assert "/" + "a/" == "/a/" && "/" + "a/:" == "/a/:" && "a/" + ":" == "a/:";
    InsertAt(first, "a/", Bare("GET"));
    FirstChildIs([p], Label('a'), 1);
    BelowNone(first, "a/", Bare("GET"));
    BareNode("a/");
    var second := Plainly("/", [p, a]);
    InsertAt(second, "a/:", r);
    FirstChildIs([p, a], Label('a'), 1);
    BelowSome(second, "a/:", r, 1);
    InsertAt(a, ":", r);
    BelowNone(a, ":", r);
    assert [p] + [a] == [p, a] && [] + [NewNode(":", r)] == [NewNode(":", r)];
    assert [p, a][1 := Plainly("a/", [NewNode(":", r)])] == [p, Plainly("a/", [NewNode(":", r)])];
  }

  lemma PanicTree(f: Func, g: Func)
    ensures TreeOf([Added("GET", "/:x", Some(f)), Added("GET", "/a/:y", Some(g))])
      == Clashing(f, NewNode(":", Route("GET", Some(g), Param, "/a/:y", ["y"])))
  {
    hide Insert, InsertBelow, AddHandler, WithRoute, Clashing;
    TwoRoutes(Added("GET", "/:x", Some(f)), Added("GET", "/a/:y", Some(g)));
    FirstTree(f);
    AddedOneParam(WithRoute(EMPTY, Added("GET", "/:x", Some(f))), "GET", Some(g), "/a/", "y", "");
    assert ParamPath("/a/", "y", "") == "/a/:y" && "/a/" + ":" == "/a/:";
    SecondParam(f, Route("GET", Some(g), Param, "/a/:y", ["y"]));
  }

  lemma TwoRoutes(r: Added, s: Added)
    requires r.path != "" && s.path != ""
    ensures TreeOf([r, s]) == WithRoute(WithRoute(EMPTY, r), s)
  {
    hide WithRoute, TreeOf;
    TreeOfNone();
    TreeOfNext([], r);
    TreeOfNext([r], s);
    assert [] + [r] == [r] && [r] + [s] == [r, s];
  }

  lemma HangTree(f: Func, g: Func)
    ensures var path := "/a/:y/b";
      TreeOf([Added("GET", "/:x", Some(f)), Added("GET", path, Some(g))])
      == Clashing(f, NewNode(":", Route("GET", None, Param, path, ["y"])).(
           children := [NewNode("/b", Route("GET", Some(g), Static, path, ["y"]))]))
  {
    hide Insert, InsertBelow, AddHandler, WithRoute;
    var path := "/a/:y/b";
    var r, s := Route("GET", None, Param, path, ["y"]), Route("GET", Some(g), Static, path, ["y"]);
    TwoRoutes(Added("GET", "/:x", Some(f)), Added("GET", path, Some(g)));
    FirstTree(f);
    AddedOneParam(WithRoute(EMPTY, Added("GET", "/:x", Some(f))), "GET", Some(g), "/a/", "y", "/b");
    assert ParamPath("/a/", "y", "/b") == path && "/a/" + ":" == "/a/:" && "/a/" + ":" + "/b" == "/a/:/b";
    SecondParam(f, r);
    ThirdNode(f, r, s);
  }

  lemma ThirdNode(f: Func, r: Route, s: Route)
    ensures Insert(Clashing(f, NewNode(":", r)), "/a/:/b", s)
      == Clashing(f, NewNode(":", r).(children := [NewNode("/b", s)]))
  {
    hide Insert, InsertBelow, AddHandler;
    var p, q := NewNode(":", Route("GET", Some(f), Param, "/:x", ["x"])), NewNode(":", r);
    var n, a := Clashing(f, q), Plainly("a/", [q]);
    assert "/" + "a/:/b" == "/a/:/b" && "a/" + ":/b" == "a/:/b" && ":" + "/b" == ":/b";
    InsertAt(n, "a/:/b", s);
    FirstChildIs([p, a], Label('a'), 1);
    BelowSome(n, "a/:/b", s, 1);
    InsertAt(a, ":/b", s);
    FirstChildIs([q], Label(':'), 0);
    BelowSome(a, ":/b", s, 0);
    InsertAt(q, "/b", s);
    BelowNone(q, "/b", s);
    var q' := q.(children := [NewNode("/b", s)]);
    assert [] + [NewNode("/b", s)] == [NewNode("/b", s)] && [q][0 := q'] == [q'];
    assert [p, a][1 := Plainly("a/", [q'])] == [p, Plainly("a/", [q'])];
  }

  // ----- what the program does without room for a value -----------------------------------------------

  /** At the Param label the program then goes round its loop with nothing changed. */
  function Onward(m: Move): Move {
    match m
    case Full(g) => Go(Top, g)
    case _ => m
  }

  /** The moves of the program, up to `k` of them. */
  function Steps(m: Move, k: nat): Move
    decreases k
  {
    if k == 0 || !m.Go? then m else Steps(Onward(Next(m.pc, m.g)), k - 1)
  }

  lemma StepsNext(pc: Pc, g: State, k: nat)
    requires k > 0
    ensures Steps(Go(pc, g), k) == Steps(Onward(Next(pc, g)), k - 1)
  {
  }

  /** In the parameter child below /a/, with the one value taken, and the root saved. */
  predicate Taken(g: State, root: Node, below: Node, ns: string) {
    && g.cn == below && g.search == "/c" && g.n == |g.values| == 1
    && g.nn == Some(root) && g.nk == Param && g.ns == ns
  }

  function Request(d: char): string { "/a/" + [d] + "/c" }

  /** From the root into the node of /a/. */
  lemma FirstStep(f: Func, below: Node, d: char, v: string) returns (g: State)
    requires d != '/'
    ensures var root := Clashing(f, below);
      && Next(Top, Start(root, Request(d), [v])) == Go(Top, g)
      && g.cn == root.children[1] && g.search == Request(d)[1..] && g.n == 0 && g.values == [v]
      && g.nn == Some(root) && g.nk == Param && g.ns == Request(d)[1..]
  {
    var root, path := Clashing(f, below), Request(d);
    ParamNode(f);
    hide NewNode;
    var g0 := Start(root, path, [v]);
    assert path == "/" + path[1..] && path[1..][0] == 'a';
    FirstChildIs(root.children, LabelAndKind('a', Static), 1);
    g := EnterStatic(Consume(g0), 1);
  }

  /** From there to the choice of its parameter child. */
  lemma SecondStep(root: Node, below: Node, d: char, g: State) returns (h: State)
    requires below.kind == Param && d != '/' && g.cn == Plainly("a/", [below]) && g.search == Request(d)[1..]
    ensures Next(Top, g) == Go(Branch, h) && h == g.(search := [d, '/', 'c'], done := h.done)
  {
    assert Request(d)[1..] == "a/" + [d, '/', 'c'];
    FirstChildIs([below], LabelAndKind(d, Static), 1);
    h := Consume(g);
  }

  /** And into it. */
  lemma ThirdStep(below: Node, d: char, g: State) returns (h: State)
    requires below.kind == Param && d != '/' && g.cn == Plainly("a/", [below]) && g.search == [d, '/', 'c']
    requires g.n == 0 && |g.values| == 1
    ensures Next(Branch, g) == Go(Top, h)
    ensures h.cn == below && h.search == "/c" && h.n == |h.values| == 1 && h.nn == g.nn && h.nk == g.nk && h.ns == g.ns
  {
    FirstChildIs([below], OfKind(Param), 0);
    assert g.search[0..1] == [d];
    SegmentEndIs(g.search, 0, 1);
    h := EnterParam(g, 0, 1);
    assert g.search[1..] == "/c";
  }

  lemma FirstSteps(f: Func, below: Node, d: char, v: string, k: nat) returns (g: State)
    requires below.kind == Param && d != '/' && k >= 3
    ensures var root := Clashing(f, below);
      && Taken(g, root, below, Request(d)[1..])
      && Steps(Go(Top, Start(root, Request(d), [v])), k) == Steps(Go(Top, g), k - 3)
  {
    hide Steps, NewNode, Next, Request, Start;
    var root := Clashing(f, below);
    var g1 := FirstStep(f, below, d, v);
    StepsNext(Top, Start(root, Request(d), [v]), k);
    var g2 := SecondStep(root, below, d, g1);
    StepsNext(Top, g1, k - 1);
    g := ThirdStep(below, d, g2);
    StepsNext(Branch, g2, k - 2);
  }

  lemma ParamNode(f: Func)
    ensures var p := NewNode(":", Route("GET", Some(f), Param, "/:x", ["x"]));
      p.kind == Param && p.tag == ':' && p.prefix == ":" && p.children == []
  {
  }

  /** The root has a parameter child, and the path left does not begin as its text. */
  predicate BackAtRoot(g: State, f: Func, below: Node, d: char) {
    g.cn == Clashing(f, below) && g.search == Request(d)[1..] && g.n == |g.values| == 1 && g.nk == Param
  }

  /** Back at the root there is no room for the parameter, and the root's text does not match again. */
  lemma AtRoot(g: State, f: Func, below: Node, d: char)
    requires BackAtRoot(g, f, below, d)
    ensures Next(Branch, g) == Full(g)
    ensures Next(Top, g) == if g.nn.Some? then Go(Branch, Return(g)) else Panic
  {
    ParamNode(f);
    hide NewNode;
    FirstChildIs(g.cn.children, OfKind(Param), 0);
    assert g.search[0] == 'a' && g.cn.prefix[0] == '/';
  }

  /** A node without children leads back to the saved one, which is forgotten. */
  lemma AtLeaf(g: State)
    requires g.cn.kind == Param && g.cn.children == [] && g.search != "" && g.nn.Some? && g.nk == Param
    ensures Next(Top, g) == Go(Branch, g) && Next(Branch, g) == Go(Wild, g)
      && Next(Wild, g) == Go(Branch, ReturnOnce(g))
  {
  }

  /** GET /:x and GET /a/:y with the request /a/b/c: the first value is taken below /a/, the search goes
      back to the root, whose parameter has no room, and then to a node that is not there. */
  lemma RequestPanics(f: Func, g: Func, v: string)
    ensures var tree := TreeOf([Added("GET", "/:x", Some(f)), Added("GET", "/a/:y", Some(g))]);
      Steps(Go(Top, Start(tree, "/a/b/c", [v])), 8) == Panic
  {
    hide Steps, NewNode, Next, Clashing, TreeOf, Start;
    PanicTree(f, g);
    var below := NewNode(":", Route("GET", Some(g), Param, "/a/:y", ["y"]));
    LastNode(g);
    assert Request('b') == "/a/b/c";
    var g3 := FirstSteps(f, below, 'b', v, 8);
    AtLeaf(g3);
    StepsNext(Top, g3, 5);
    StepsNext(Branch, g3, 4);
    StepsNext(Wild, g3, 3);
    var r := ReturnOnce(g3);
    AtRoot(r, f, below, 'b');
    StepsNext(Branch, r, 2);
    StepsNext(Top, r, 1);
    StepsEnd(Panic, 0);
  }

  lemma LastNode(g: Func)
    ensures var n := NewNode(":", Route("GET", Some(g), Param, "/a/:y", ["y"]));
      n.kind == Param && n.children == []
  {
  }

  lemma StepsEnd(m: Move, k: nat)
    requires !m.Go?
    ensures Steps(m, k) == m
  {
  }

  /** From the root to the root, with nothing changed, for ever. */
  lemma {:induction false} RoundAndRound(r: State, f: Func, below: Node, d: char, k: nat)
    requires BackAtRoot(r, f, below, d) && r.nn.Some? && Return(r) == r
    ensures Steps(Go(Branch, r), k).Go? && Steps(Go(Top, r), k).Go?
    decreases k
  {
    hide Next, BackAtRoot, Steps;
    if k == 0 {
      NoStep(Branch, r);
      NoStep(Top, r);
    } else {
      AtRoot(r, f, below, d);
      StepsNext(Branch, r, k);
      StepsNext(Top, r, k);
      RoundAndRound(r, f, below, d, k - 1);
    }
  }

  lemma NoStep(pc: Pc, g: State)
    ensures Steps(Go(pc, g), 0).Go?
  {
  }

  /** Steps that stop stop for good. */
  lemma {:induction false} LongerSteps(m: Move, j: nat, k: nat)
    requires j <= k && Steps(m, k).Go?
    ensures Steps(m, j).Go?
    decreases j
  {
    if j > 0 {
      LongerSteps(Onward(Next(m.pc, m.g)), j - 1, k - 1);
    }
  }

  /** GET /:x and GET /a/:y/b with the request /a/1/c: the first value is taken below /a/, and then the
      search comes back to the root again and again. */
  lemma RequestNeverEnds(f: Func, g: Func, v: string, k: nat)
    ensures var tree := TreeOf([Added("GET", "/:x", Some(f)), Added("GET", "/a/:y/b", Some(g))]);
      Steps(Go(Top, Start(tree, "/a/1/c", [v])), k).Go?
  {
    hide Steps, NewNode, Next, Clashing, TreeOf, Start;
    HangTree(f, g);
    var r, s := Route("GET", None, Param, "/a/:y/b", ["y"]), Route("GET", Some(g), Static, "/a/:y/b", ["y"]);
    var below := NewNode(":", r).(children := [NewNode("/b", s)]);
    MiddleNode(r, s);
    assert Request('1') == "/a/1/c";
    var g3 := FirstSteps(f, below, '1', v, k + 5);
    StepsNext(Top, g3, k + 2);
    AtMiddle(g3, r, s);
    var g4 := EnterStatic(g3, 0);
    StepsNext(Top, g4, k + 1);
    RoundAndRound(Return(g4), f, below, '1', k);
    LongerSteps(Go(Top, Start(Clashing(f, below), Request('1'), [v])), k, k + 5);
  }

  lemma MiddleNode(r: Route, s: Route)
    requires r.kind == Param && s.kind == Static
    ensures var n := NewNode(":", r).(children := [NewNode("/b", s)]);
      n.kind == Param && n.tag == ':' && n.children[0].kind == Static && n.children[0].tag == '/'
        && n.children[0].prefix == "/b"
  {
  }

  /** Below the parameter node /b does not match /c. */
  lemma AtMiddle(g: State, r: Route, s: Route)
    requires r.kind == Param && s.kind == Static && g.cn == NewNode(":", r).(children := [NewNode("/b", s)])
    requires g.search == "/c" && g.nn.Some? && g.nk == Param
    ensures var h := EnterStatic(g, 0);
      && Next(Top, g) == Go(Top, h) && Next(Top, h) == Go(Branch, Return(h)) && h.nn == g.nn && h.nk == g.nk
        && h.ns == g.ns
      && h.n == g.n && h.values == g.values
  {
    MiddleNode(r, s);
    hide NewNode;
    FirstChildIs(g.cn.children, LabelAndKind('/', Static), 0);
    assert "/b"[1] != "/c"[1];
  }

  // ----- names ------------------------------------------------------------------------------------------

  /** GET /a/:x and then POST /a/:y: what GET finds is named y. */
  lemma NamesOfOther(f: Func, g: Func, tree: Node)
    requires Built([Added("GET", "/a/:x", Some(f)), Added("POST", "/a/:y", Some(g))], tree)
    ensures var routes := [Added("GET", "/a/:x", Some(f)), Added("POST", "/a/:y", Some(g))];
      && LastRoute(routes, "GET", "/a/:") == Some(routes[0]) && Names(routes[0].path) == ["x"]
      && Lookup(tree, "/a/:").Some? && Lookup(tree, "/a/:").value.pnames == ["y"]
  {
    hide Built, Names, Key;
    var routes := [Added("GET", "/a/:x", Some(f)), Added("POST", "/a/:y", Some(g))];
    KeyOfParam("/a/", "x", "");
    KeyOfParam("/a/", "y", "");
    assert ParamPath("/a/", "x", "") == "/a/:x" && ParamPath("/a/", "y", "") == "/a/:y" && "/a/" + ":" + "" == "/a/:";
    LastOfTwo(routes[0], routes[1], "GET", "/a/:");
    NamesOfFound(routes, tree, "GET", "/a/:");
    SamePlace(routes, tree, "/a/:");
  }

  lemma LastOfTwo(r: Added, s: Added, verb: string, key: string)
    requires r.path != "" && s.path != "" && Key(r.path) == Key(s.path) == key
    requires r.h.Some? && s.h.Some? && r.verb == verb && s.verb != verb && verb in METHODS
    ensures LastRoute([r, s], verb, key) == Some(r) && LastNamed([r, s], key) == Some(s)
  {
    hide Key;
    assert [r, s][..1] == [r] && [r][..0] == [];
  }

  lemma SamePlace(routes: seq<Added>, tree: Node, q: string)
    requires Named(routes) && Built(routes, tree) && q != "" && LastNamed(routes, q).Some?
    ensures var r := LastNamed(routes, q).value;
      r.path != "" && Lookup(tree, q).Some? && Lookup(tree, q).value.pnames == Names(r.path)
  {
    hide Key, Names, LastNamed, OnTheWay;
    assert NamedAt(routes, HeldAt(tree, q), q);
  }

  // ----- a star behind a parameter ---------------------------------------------------------------------------

  lemma KeyOfStar(a: string, junk: string)
    requires Plain(a) && a != "" && a[0] == '/'
    ensures Key(a + "*" + junk) == a + "*" && Names(a + "*" + junk) == ["_*"]
  {
    var tail := "*" + junk;
    assert a + "*" + junk == a + tail;
    ErasePlain(a, tail);
    assert Erase(tail) == ("*", ["_*"]);
  }

  /** What adding a path with a star inserts. */
  lemma AddedOneStar(tree: Node, verb: string, h: Option<Func>, a: string)
    requires Plain(a) && a != "" && a[0] == '/'
    ensures WithRoute(tree, Added(verb, a + "*", h))
      == Insert(Insert(tree, a, Bare(verb)), a + "*", Route(verb, h, Any, a + "*", ["_*"]))
  {
    hide AddedFrom, Insert;
    var path, i := a + "*", |a|;
    assert path[..i] == a && path[i] == '*' && path[0..i] == a && path[..i + 1] == path;
    AddedPlainTo(tree, verb, h, path, path, 0, i, []);
    AddedStar(tree, verb, h, path, path, i, []);
    assert [] + ["_*"] == ["_*"];
  }

  lemma InsertAgain(n: Node)
    requires n.prefix != ""
    ensures Insert(n, n.prefix, Bare("GET")) == n
  {
    LcpWhole(n.prefix, "");
    assert n.prefix + "" == n.prefix;
  }

  function Users(f: Func, g: Func): Node {
    Plainly("/users/", [NewNode(":", Route("GET", Some(f), Param, "/users/:id", ["id"])),
                        NewNode("*", Route("GET", Some(g), Any, "/users/*", ["_*"]))])
  }

  lemma UsersTree(f: Func, g: Func)
    ensures TreeOf([Added("GET", "/users/:id", Some(f)), Added("GET", "/users/*", Some(g))]) == Users(f, g)
  {
    hide Insert, InsertBelow, AddHandler, WithRoute, TreeOf;
    TwoRoutes(Added("GET", "/users/:id", Some(f)), Added("GET", "/users/*", Some(g)));
    AddedOneParam(EMPTY, "GET", Some(f), "/users/", "id", "");
    var r, s := Route("GET", Some(f), Param, "/users/:id", ["id"]), Route("GET", Some(g), Any, "/users/*", ["_*"]);
    assert ParamPath("/users/", "id", "") == "/users/:id" && "/users/" + ":" == "/users/:";
    assert "/users/" + "*" == "/users/*";
    InsertFirst("/users/");
    var root, p := Plainly("/users/", []), NewNode(":", r);
    InsertAt(root, ":", r);
    BelowNone(root, ":", r);
    assert [] + [p] == [p];
    var first := Plainly("/users/", [p]);
    AddedOneStar(first, "GET", Some(g), "/users/");
    InsertAgain(first);
    InsertAt(first, "*", s);
    FirstChildIs([p], Label('*'), 1);
    BelowNone(first, "*", s);
    assert [p] + [NewNode("*", s)] == [p, NewNode("*", s)];
  }

  lemma UsersNodes(f: Func, g: Func)
    ensures var tree := Users(f, g);
      && |tree.children| == 2
      && tree.children[0].kind == Param && tree.children[0].tag == ':' && tree.children[0].children == []
      && tree.children[1].kind == Any && tree.children[1].tag == '*' && tree.children[1].prefix == "*"
      && tree.children[1].FindHandler("GET") == Some(g)
  {
  }

  lemma UsersStar(f: Func, g: Func)
    ensures HandlerAt(Users(f, g), "GET", "/users/*") == Some(g)
    ensures FallsToStar(Users(f, g), "/users/1/x", "/users/", "1/x")
  {
    var tree := Users(f, g);
    UsersNodes(f, g);
    hide NewNode;
    FirstChildIs(tree.children, Label('*'), 1);
    LookupDown(tree, "*");
    assert "/users/" + "*" == "/users/*";
    assert "/users/1/x" == "/users/" + "1/x" && "/users/1/x"[|"/users/"|..] == "1/x";
    FirstChildIs(tree.children, LabelAndKind('1', Static), 2);
    FirstChildIs(tree.children, OfKind(Param), 0);
    assert "1/x"[0..1] == "1";
    SegmentEndIs("1/x", 0, 1);
    assert "1/x"[1..] == "/x";
  }

  /** GET /users/:id and GET /users/ with a star, and the request /users/1/x: nothing is below the
      parameter, so the star answers with the whole rest. */
  lemma StarBehindParam(f: Func, g: Func, v: string)
    ensures var tree := TreeOf([Added("GET", "/users/:id", Some(f)), Added("GET", "/users/*", Some(g))]);
      && TreeOk(tree)
      && var a := Answered(tree, "/users/1/x", [v], "GET");
      a.Found? && a.g.at == "/users/*" && a.g.cn.FindHandler("GET") == Some(g) && a.g.values == ["1/x"]
  {
    UsersTree(f, g);
    UsersStar(f, g);
    UsersOk(f, g);
    hide Users, FallsToStar, HandlerAt, Answered, TreeOf, TreeOk;
    PlainHasNone("/users/");
    assert "/users/" + "*" == "/users/*";
    StarIsFound(Users(f, g), "/users/1/x", [v], "GET", "/users/", "1/x");
  }

  lemma UsersOk(f: Func, g: Func)
    ensures TreeOk(Users(f, g))
  {
    var r, s := Route("GET", Some(f), Param, "/users/:id", ["id"]), Route("GET", Some(g), Any, "/users/*", ["_*"]);
    assert Plain("/users/") && OneKind(":", Param) && OneKind("*", Any);
    hide *;
    WildcardNode("/users/", ":", r);
    WildcardNode("/users/", "*", s);
    PlainlyOk("/users/", NewNode(":", r), NewNode("*", s));
    UsersIs(f, g);
  }

  lemma UsersIs(f: Func, g: Func)
    ensures Users(f, g) == Plainly("/users/", [NewNode(":", Route("GET", Some(f), Param, "/users/:id", ["id"])),
                                               NewNode("*", Route("GET", Some(g), Any, "/users/*", ["_*"]))])
  {
  }

  lemma WildcardNode(above: string, text: string, r: Route)
    requires Plain(above) && OneKind(text, r.kind) && r.kind != Static && |r.pnames| == 1
    ensures text != "" && Radix(NewNode(text, r)) && Kinds(NewNode(text, r), above) && NewNode(text, r).tag == text[0]
  {
    PlainHasNone(above);
    WildcardsConcat(above, text);
    OneCharacter(text[0]);
    hide Wildcards;
    NewNodeRadix(text, r);
    NewNodeTag(text, r);
    NewNodeKinds(text, above, r);
  }

  lemma PlainlyOk(text: string, c: Node, d: Node)
    requires Plain(text) && text != "" && text[0] == '/'
    requires Radix(c) && Radix(d) && Kinds(c, text) && Kinds(d, text) && c.tag != d.tag
    ensures TreeOk(Plainly(text, [c, d]))
  {
    hide Wildcards;
    assert "" + text == text;
  }
}
