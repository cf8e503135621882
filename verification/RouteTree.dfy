/** The value of a route tree: what its nodes spell, and what one insertion does to it. */
module RouteTree {
  import opened Options

  /** A registered handler, known by a number. */
  datatype Func = Func(id: int)

  datatype Kind = Static | Param | Any

  const METHODS: set<string> :=
    {"CONNECT", "DELETE", "GET", "HEAD", "OPTIONS", "PATCH", "POST", "PUT", "TRACE"}

  datatype Node = Node(
    kind: Kind, tag: char, prefix: string, children: seq<Node>,
    ppath: string, pnames: seq<string>, handlers: map<string, Func>)
  {
    function FindHandler(verb: string): Option<Func> {
      if verb in handlers then Some(handlers[verb]) else None
    }
  }

  /** Setting the handler of an unknown verb changes nothing; a nil handler clears the entry. */
  function AddHandler(hs: map<string, Func>, verb: string, h: Option<Func>): map<string, Func> {
    if verb !in METHODS then hs
    else match h
      case Some(f) => hs[verb := f]
      case None => hs - {verb}
  }

  /** The nine methods of HTTP that have a place for a handler: it is set, found again and cleared there;
      any other verb is ignored. */
  lemma KnownMethods(hs: map<string, Func>, verb: string, f: Func)
    ensures
      if verb in {"CONNECT", "DELETE", "GET", "HEAD", "OPTIONS", "PATCH", "POST", "PUT", "TRACE"}
      then AddHandler(hs, verb, Some(f)) == hs[verb := f] && AddHandler(hs, verb, None) == hs - {verb}
      else AddHandler(hs, verb, Some(f)) == AddHandler(hs, verb, None) == hs
  {
  }

  const EMPTY: Node := Node(Static, '\0', "", [], "", [], map[])

  /** What an insertion stores at its node. */
  datatype Route = Route(verb: string, h: Option<Func>, kind: Kind, ppath: string, pnames: seq<string>)

  function NewNode(prefix: string, r: Route): Node
    requires prefix != ""
  {
    Node(r.kind, prefix[0], prefix, [], r.ppath, r.pnames, AddHandler(map[], r.verb, r.h))
  }

  /** Length of the longest common prefix. */
  function Lcp(a: string, b: string): (l: nat)
    ensures l <= |a| && l <= |b| && a[..l] == b[..l]
    ensures l < |a| && l < |b| ==> a[l] != b[l]
  {
    if a == "" || b == "" || a[0] != b[0] then 0
    else
      var l := 1 + Lcp(a[1..], b[1..]);
      assert a[..l] == [a[0]] + a[1..][..l - 1];
      assert b[..l] == [b[0]] + b[1..][..l - 1];
      l
  }

  /** What a child is looked for by: its label, its kind, or both. */
  datatype Wanted = Label(tag: char) | OfKind(kind: Kind) | LabelAndKind(tag: char, kind: Kind) {
    predicate Is(c: Node) {
      (OfKind? || c.tag == tag) && (Label? || c.kind == kind)
    }
  }

  /** Index of the first child that is wanted, or the number of children. */
  function FirstChild(cs: seq<Node>, w: Wanted): (i: nat)
    ensures i <= |cs|
    ensures i < |cs| ==> w.Is(cs[i])
    ensures forall j :: 0 <= j < i ==> !w.Is(cs[j])
  {
    if cs == [] || w.Is(cs[0]) then 0
    else
      var i := 1 + FirstChild(cs[1..], w);
      assert forall j :: 0 < j < i ==> cs[j] == cs[1..][j - 1];
      i
  }

  lemma {:induction false} FirstChildIs(cs: seq<Node>, w: Wanted, i: nat)
    requires i <= |cs| && (i < |cs| ==> w.Is(cs[i]))
    requires forall j :: 0 <= j < i ==> !w.Is(cs[j])
    ensures FirstChild(cs, w) == i
  {
    if i > 0 {
      FirstChildIs(cs[1..], w, i - 1);
    }
  }

  function ChildIndex(cs: seq<Node>, tag: char): (i: nat)
    ensures i <= |cs|
    ensures i < |cs| ==> cs[i].tag == tag
    ensures forall j :: 0 <= j < i ==> cs[j].tag != tag
  {
    var i := FirstChild(cs, Label(tag));
    assert forall j :: 0 <= j < i ==> !Label(tag).Is(cs[j]);
    i
  }

  // ----- insertion ------------------------------------------------------------------

  /** The branch taken when nothing is shared: the node is rewritten. */
  function Rewrite(n: Node, search: string, r: Route): Node
    requires search != ""
  {
    var m := n.(tag := search[0], prefix := search);
    if r.h.None? then m
    else m.(kind := r.kind, handlers := AddHandler(m.handlers, r.verb, r.h), ppath := r.ppath, pnames := r.pnames)
  }

  /** The lower half of a node that is split after `l` characters. */
  function LowerHalf(n: Node, l: nat): Node
    requires l < |n.prefix|
  {
    n.(tag := n.prefix[l], prefix := n.prefix[l..])
  }

  function Split(n: Node, search: string, l: nat, r: Route): Node
    requires 0 < l < |n.prefix| && l <= |search|
  {
    var lower := LowerHalf(n, l);
    if l == |search| then
      Node(r.kind, n.prefix[0], n.prefix[..l], [lower], r.ppath, r.pnames, AddHandler(map[], r.verb, r.h))
    else
      Node(Static, n.prefix[0], n.prefix[..l], [lower, NewNode(search[l..], r)], "", [], map[])
  }

  function Replace(n: Node, r: Route): Node {
    if r.h.None? then n
    else n.(handlers := AddHandler(n.handlers, r.verb, r.h), ppath := r.ppath, pnames := r.pnames)
  }

  function Insert(n: Node, search: string, r: Route): Node
    requires search != ""
    decreases n, 1
  {
    var l := Lcp(search, n.prefix);
    if l == 0 then Rewrite(n, search, r)
    else if l < |n.prefix| then Split(n, search, l, r)
    else if l < |search| then
      InsertBelow(n, search[l..], r)
    else Replace(n, r)
  }

  /** Goes deeper into the child that the next character selects, or creates it. */
  function InsertBelow(n: Node, rest: string, r: Route): (m: Node)
    requires rest != ""
    ensures m.prefix == n.prefix && m.handlers == n.handlers
    decreases n, 0
  {
    var i := ChildIndex(n.children, rest[0]);
    if i < |n.children| then n.(children := n.children[i := Insert(n.children[i], rest, r)])
    else n.(children := n.children + [NewNode(rest, r)])
  }

  // ----- the tree as a map -------------------------------------------------------------

  /** The node that spells exactly `path`. */
  function Lookup(n: Node, path: string): Option<Node>
    decreases n
  {
    if !(n.prefix <= path) then None
    else if n.prefix == path then Some(n)
    else
      var rest := path[|n.prefix|..];
      var i := ChildIndex(n.children, rest[0]);
      if i < |n.children| then Lookup(n.children[i], rest) else None
  }

  function HandlerAt(n: Node, verb: string, path: string): Option<Func> {
    match Lookup(n, path)
    case Some(x) => x.FindHandler(verb)
    case None => None
  }

  /** A label is the first character of its prefix, and siblings have distinct labels. */
  predicate Radix(n: Node)
    decreases n
  {
    && n.prefix != "" && n.tag == n.prefix[0]
    && (forall i, j :: 0 <= i < j < |n.children| ==> n.children[i].tag != n.children[j].tag)
    && (forall m :: m in n.handlers ==> m in METHODS)
    && (forall i :: 0 <= i < |n.children| ==> Radix(n.children[i]))
  }

  lemma ChildIndexUnique(cs: seq<Node>, i: nat)
    requires i < |cs|
    requires forall i, j :: 0 <= i < j < |cs| ==> cs[i].tag != cs[j].tag
    ensures ChildIndex(cs, cs[i].tag) == i
  {
  }

  lemma AddHandlerKnown(hs: map<string, Func>, r: Route)
    requires forall m :: m in hs ==> m in METHODS
    ensures forall m :: m in AddHandler(hs, r.verb, r.h) ==> m in METHODS
  {
  }

  lemma NewNodeRadix(prefix: string, r: Route)
    requires prefix != ""
    ensures Radix(NewNode(prefix, r))
  {
    AddHandlerKnown(map[], r);
  }

  lemma SplitRadix(n: Node, search: string, r: Route)
    requires Radix(n) && 0 < Lcp(search, n.prefix) < |n.prefix|
    ensures Radix(Split(n, search, Lcp(search, n.prefix), r))
  {
    hide AddHandler, NewNode;
    var l := Lcp(search, n.prefix);
    AddHandlerKnown(map[], r);
    assert Radix(LowerHalf(n, l));
    if l < |search| {
      NewNodeRadix(search[l..], r);
      NewNodeTag(search[l..], r);
    }
  }

  lemma NewNodeTag(prefix: string, r: Route)
    requires prefix != ""
    ensures NewNode(prefix, r).tag == prefix[0]
  {
  }

  /** One insertion keeps the tree a radix tree. */
  lemma {:induction false} InsertRadix(n: Node, search: string, r: Route)
    requires Radix(n) && search != "" && search[0] == n.tag
    ensures Radix(Insert(n, search, r)) && Insert(n, search, r).tag == n.tag
    decreases n
  {
    hide AddHandler, NewNode;
    var l := Lcp(search, n.prefix);
    if l < |n.prefix| {
      SplitRadix(n, search, r);
    } else if l < |search| {
      var rest := search[l..];
      var i := ChildIndex(n.children, rest[0]);
      if i < |n.children| {
        InsertRadix(n.children[i], rest, r);
      } else {
        NewNodeRadix(rest, r);
        NewNodeTag(rest, r);
      }
    } else {
      AddHandlerKnown(n.handlers, r);
    }
  }

  /** Below a node the lookup goes on in the child that the next character selects. */
  lemma LookupDown(n: Node, tail: string)
    requires tail != ""
    ensures var i := ChildIndex(n.children, tail[0]);
      Lookup(n, n.prefix + tail) == if i < |n.children| then Lookup(n.children[i], tail) else None
  {
    assert (n.prefix + tail)[|n.prefix|..] == tail;
  }

  /** What a node holds apart from its place in the tree. */
  datatype Held = Held(ppath: string, pnames: seq<string>, handlers: map<string, Func>)

  const NOTHING: Held := Held("", [], map[])

  function HeldAt(n: Node, path: string): Option<Held> {
    match Lookup(n, path)
    case Some(x) => Some(Held(x.ppath, x.pnames, x.handlers))
    case None => None
  }

  /** What an insertion makes of any path: the inserted one gets the route, unless it is held
      already and the handler is nil; every other node keeps what it holds; and a node may appear
      on the way, which holds nothing. */
  predicate Step(before: Option<Held>, after: Option<Held>, search: string, r: Route, path: string) {
    if path == search then
      match before
      case None => after == Some(Held(r.ppath, r.pnames, AddHandler(map[], r.verb, r.h)))
      case Some(x) => after == Some(if r.h.None? then x
        else Held(r.ppath, r.pnames, AddHandler(x.handlers, r.verb, r.h)))
    else if before.Some? then after == before
    else after.None? || (after == Some(NOTHING) && path <= search)
  }

  lemma StepUnder(a: string, before: Option<Held>, after: Option<Held>, rest: string, r: Route, tail: string)
    requires Step(before, after, rest, r, tail)
    ensures Step(before, after, a + rest, r, a + tail)
  {
    hide AddHandler;
    assert (a + rest)[|a|..] == rest && (a + tail)[|a|..] == tail;
  }

  lemma NewNodeHeld(prefix: string, r: Route, path: string)
    requires prefix != ""
    ensures Step(None, HeldAt(NewNode(prefix, r), path), prefix, r, path)
  {
    hide AddHandler;
  }

  /** The lower half of a split node answers for what was below the split. */
  lemma LowerHalfHeld(n: Node, l: nat, tail: string)
    requires l < |n.prefix|
    ensures HeldAt(LowerHalf(n, l), tail) == HeldAt(n, n.prefix[..l] + tail)
  {
    var a, b := n.prefix[..l], n.prefix[l..];
    assert n.prefix == a + b;
    assert b <= tail <==> n.prefix <= a + tail;
    if b <= tail {
      assert tail[|b|..] == (a + tail)[|n.prefix|..];
      assert tail == b <==> a + tail == n.prefix;
    }
  }

  lemma HeldDown(n: Node, tail: string)
    requires tail != ""
    ensures var i := ChildIndex(n.children, tail[0]);
      HeldAt(n, n.prefix + tail) == if i < |n.children| then HeldAt(n.children[i], tail) else None
  {
    LookupDown(n, tail);
  }

  lemma NotHeld(n: Node, path: string)
    requires !(n.prefix <= path)
    ensures HeldAt(n, path) == None
  {
  }

  lemma TwoChildren(a: Node, b: Node, tag: char)
    requires a.tag != b.tag
    ensures ChildIndex([a, b], tag) == if a.tag == tag then 0 else if b.tag == tag then 1 else 2
  {
    FirstChildIs([a, b], Label(tag), if a.tag == tag then 0 else if b.tag == tag then 1 else 2);
  }

  lemma SplitBelow(n: Node, search: string, l: nat, r: Route, tail: string)
    requires l == Lcp(search, n.prefix) && 0 < l < |n.prefix| && tail != ""
    ensures var path := n.prefix[..l] + tail;
      Step(HeldAt(n, path), HeldAt(Split(n, search, l, r), path), search, r, path)
  {
    hide HeldAt, AddHandler, NewNode, LowerHalf;
    var a, m := n.prefix[..l], Split(n, search, l, r);
    var path, lower := a + tail, LowerHalf(n, l);
    HeldDown(m, tail);
    LowerHalfHeld(n, l, tail);
    LowerTag(n, l);
    assert path[l] == tail[0] && search[..l] == a;
    if l < |search| {
      var rest := search[l..];
      assert search == a + rest && rest[0] == search[l];
      NewNodeTag(rest, r);
      NewNodeHeld(rest, r, tail);
      StepUnder(a, None, HeldAt(NewNode(rest, r), tail), rest, r, tail);
      TwoChildren(lower, NewNode(rest, r), tail[0]);
    } else {
      assert m.children == [lower];
    }
    if tail[0] != n.prefix[l] {
      NotHeld(n, path);
    }
  }

  lemma LowerTag(n: Node, l: nat)
    requires l < |n.prefix|
    ensures LowerHalf(n, l).tag == n.prefix[l]
  {
  }

  lemma SplitHeld(n: Node, search: string, l: nat, r: Route, path: string)
    requires l == Lcp(search, n.prefix) && 0 < l < |n.prefix|
    ensures Step(HeldAt(n, path), HeldAt(Split(n, search, l, r), path), search, r, path)
  {
    hide AddHandler, NewNode, LowerHalf;
    var a := n.prefix[..l];
    assert search[..l] == a;
    if a <= path && a != path {
      assert path == a + path[l..];
      SplitBelow(n, search, l, r, path[l..]);
    } else {
      NotHeld(n, path);
    }
  }

  lemma ReplaceHeld(n: Node, r: Route, path: string)
    ensures Step(HeldAt(n, path), HeldAt(Replace(n, r), path), n.prefix, r, path)
  {
    hide AddHandler;
    if n.prefix <= path && n.prefix != path {
      var tail := path[|n.prefix|..];
      assert path == n.prefix + tail;
      LookupDown(n, tail);
      LookupDown(Replace(n, r), tail);
    }
  }

  /** One insertion changes what is held under the inserted path, and nothing else. */
  lemma {:induction false} InsertHeld(n: Node, search: string, r: Route, path: string)
    requires Radix(n) && search != "" && search[0] == n.tag
    ensures Step(HeldAt(n, path), HeldAt(Insert(n, search, r), path), search, r, path)
    decreases n
  {
    hide HeldAt, Split, Replace, Step;
    var l := Lcp(search, n.prefix);
    if l < |n.prefix| {
      SplitHeld(n, search, l, r, path);
    } else if l < |search| {
      assert n.prefix + search[l..] == search;
      InsertBelowHeld(n, search[l..], r, path);
    } else {
      assert search == n.prefix;
      ReplaceHeld(n, r, path);
    }
  }

  lemma {:induction false} InsertBelowHeld(n: Node, rest: string, r: Route, path: string)
    requires Radix(n) && rest != "" && Lcp(n.prefix + rest, n.prefix) == |n.prefix|
    ensures Step(HeldAt(n, path), HeldAt(Insert(n, n.prefix + rest, r), path), n.prefix + rest, r, path)
    decreases n, 1
  {
    hide Step;
    var m := InsertBelow(n, rest, r);
    assert (n.prefix + rest)[|n.prefix|..] == rest;
    assert Insert(n, n.prefix + rest, r) == m;
    if n.prefix <= path && n.prefix != path {
      var tail := path[|n.prefix|..];
      assert path == n.prefix + tail;
      BelowHeld(n, rest, r, tail);
    } else {
      BelowOutside(n, rest, r, path);
    }
  }

  lemma BelowOutside(n: Node, rest: string, r: Route, path: string)
    requires rest != "" && (n.prefix <= path ==> n.prefix == path)
    ensures Step(HeldAt(n, path), HeldAt(InsertBelow(n, rest, r), path), n.prefix + rest, r, path)
  {
  }

  lemma {:induction false} BelowHeld(n: Node, rest: string, r: Route, tail: string)
    requires Radix(n) && rest != "" && tail != ""
    ensures Step(HeldAt(n, n.prefix + tail), HeldAt(InsertBelow(n, rest, r), n.prefix + tail),
                 n.prefix + rest, r, n.prefix + tail)
    decreases n, 0
  {
    hide HeldAt, Lookup, AddHandler, Insert, NewNode;
    var m := InsertBelow(n, rest, r);
    var i := ChildIndex(n.children, rest[0]);
    HeldDown(n, tail);
    HeldDown(m, tail);
    if i < |n.children| {
      InsertRadix(n.children[i], rest, r);
      InsertHeld(n.children[i], rest, r, tail);
      SameTags(n.children, m.children, tail[0]);
      StepUnder(n.prefix, HeldAt(n.children[i], tail), HeldAt(m.children[i], tail), rest, r, tail);
    } else {
      NewNodeHeld(rest, r, tail);
      NewNodeTag(rest, r);
      ChildAppended(n.children, NewNode(rest, r), tail[0]);
      StepUnder(n.prefix, None, HeldAt(NewNode(rest, r), tail), rest, r, tail);
    }
    assert n.prefix + tail == n.prefix + rest <==> tail == rest by {
      assert (n.prefix + tail)[|n.prefix|..] == tail;
      assert (n.prefix + rest)[|n.prefix|..] == rest;
    }
  }

  lemma {:induction false} SameTags(cs: seq<Node>, ds: seq<Node>, tag: char)
    requires |cs| == |ds| && forall i :: 0 <= i < |cs| ==> cs[i].tag == ds[i].tag
    ensures ChildIndex(cs, tag) == ChildIndex(ds, tag)
  {
    if cs != [] && cs[0].tag != tag {
      SameTags(cs[1..], ds[1..], tag);
    }
  }

  lemma {:induction false} ChildAppended(cs: seq<Node>, c: Node, tag: char)
    ensures var i := ChildIndex(cs, tag);
      ChildIndex(cs + [c], tag) == if i < |cs| then i else if c.tag == tag then |cs| else |cs| + 1
  {
    if cs != [] && cs[0].tag != tag {
      assert (cs + [c])[1..] == cs[1..] + [c];
      ChildAppended(cs[1..], c, tag);
    }
  }

  /** What an insertion makes of the handler of any verb and path: the inserted pair gets
      the new handler, unless that is nil, and every other pair keeps its own. */
  function Updated(before: Option<Func>, search: string, r: Route, verb: string, path: string): Option<Func> {
    if path == search && verb == r.verb && verb in METHODS && r.h.Some? then r.h else before
  }

  lemma InsertLookup(n: Node, search: string, r: Route, verb: string, path: string)
    requires Radix(n) && search != "" && search[0] == n.tag
    ensures HandlerAt(Insert(n, search, r), verb, path)
      == Updated(HandlerAt(n, verb, path), search, r, verb, path)
  {
    hide Insert, Lookup;
    InsertHeld(n, search, r, path);
  }

  /** An inserted path ends at a node. */
  lemma InsertedIsNode(n: Node, search: string, r: Route)
    requires Radix(n) && search != "" && search[0] == n.tag
    ensures Lookup(Insert(n, search, r), search).Some?
  {
    hide Insert, Lookup;
    InsertHeld(n, search, r, search);
  }

  // ----- parameter and wildcard nodes -----------------------------------------------------

  predicate Plain(s: string) {
    forall i :: 0 <= i < |s| ==> s[i] != ':' && s[i] != '*'
  }

  /** Text that may stand in one node of the given kind. */
  predicate OneKind(s: string, kind: Kind) {
    match kind
    case Static => Plain(s)
    case Param => s == ":"
    case Any => s == "*"
  }

  predicate IsWildcard(c: char) { c == ':' || c == '*' }

  /** Number of `:` and `*` in an erased path. */
  function Wildcards(s: string): nat {
    if s == "" then 0 else Wildcards(s[..|s| - 1]) + (if IsWildcard(s[|s| - 1]) then 1 else 0)
  }

  lemma {:induction false} WildcardsConcat(s: string, t: string)
    ensures Wildcards(s + t) == Wildcards(s) + Wildcards(t)
  {
    if t == "" {
      assert s + t == s;
    } else {
      assert (s + t)[..|s + t| - 1] == s + t[..|t| - 1];
      WildcardsConcat(s, t[..|t| - 1]);
    }
  }

  /** Colons and stars stand in nodes of their own, of matching kind, and a node that can
      be reached by a match names all wildcards on the way; `base` is the text above the node. */
  predicate Kinds(n: Node, base: string)
    decreases n
  {
    && OneKind(n.prefix, n.kind)
    && |n.pnames| <= Wildcards(base + n.prefix)
    && (n.kind != Static || n.handlers != map[] ==> |n.pnames| == Wildcards(base + n.prefix))
    && (forall i :: 0 <= i < |n.children| ==> Kinds(n.children[i], base + n.prefix))
  }

  /** The inserted text joins the tree at a node boundary, from where it is of one kind. */
  predicate Fits(n: Node, search: string, kind: Kind)
    decreases n
  {
    || OneKind(search, kind)
    || (&& n.prefix <= search && n.prefix != search
        && var rest := search[|n.prefix|..];
           var i := ChildIndex(n.children, rest[0]);
           if i < |n.children| then Fits(n.children[i], rest, kind) else OneKind(rest, kind))
  }

  /** Text that follows a node boundary fits. */
  lemma {:induction false} BoundaryFits(n: Node, path: string, s: string, kind: Kind)
    requires Lookup(n, path).Some? && s != "" && OneKind(s, kind)
    ensures Fits(n, path + s, kind)
    decreases n
  {
    if n.prefix == path {
      var i := ChildIndex(n.children, s[0]);
      assert (path + s)[|n.prefix|..] == s;
    } else {
      var rest := path[|n.prefix|..];
      assert (path + s)[|n.prefix|..] == rest + s;
      BoundaryFits(n.children[ChildIndex(n.children, rest[0])], rest, s, kind);
    }
  }

  predicate NamesFit(r: Route, path: string) {
    |r.pnames| <= Wildcards(path) && (r.kind != Static || r.h.Some? ==> |r.pnames| == Wildcards(path))
  }

  lemma NewNodeKinds(prefix: string, base: string, r: Route)
    requires prefix != "" && OneKind(prefix, r.kind) && NamesFit(r, base + prefix)
    ensures Kinds(NewNode(prefix, r), base)
  {
  }

  lemma LowerHalfKinds(n: Node, base: string, l: nat)
    requires Kinds(n, base) && n.kind == Static && l < |n.prefix|
    ensures Kinds(LowerHalf(n, l), base + n.prefix[..l])
  {
    assert base + n.prefix[..l] + n.prefix[l..] == base + n.prefix;
  }

  lemma SplitKinds(n: Node, base: string, search: string, l: nat, r: Route)
    requires Radix(n) && Kinds(n, base) && l == Lcp(search, n.prefix) && 0 < l < |n.prefix|
    requires OneKind(search, r.kind) && NamesFit(r, base + search)
    ensures Kinds(Split(n, search, l, r), base)
  {
    hide AddHandler, NewNode, LowerHalf, Wildcards, Radix;
    assert n.kind == Static && r.kind == Static;
    var a := n.prefix[..l];
    LowerHalfKinds(n, base, l);
    if l < |search| {
      assert base + a + search[l..] == base + search;
      NewNodeKinds(search[l..], base + a, r);
    } else {
      assert search == a;
      NoHandlerAdded(r);
    }
  }

  lemma NoHandlerAdded(r: Route)
    ensures r.h.None? ==> AddHandler(map[], r.verb, r.h) == map[]
  {
  }

  lemma ReplaceKinds(n: Node, base: string, r: Route)
    requires Kinds(n, base) && NamesFit(r, base + n.prefix)
    ensures Kinds(Replace(n, r), base)
  {
    hide Wildcards, AddHandler;
  }

  /** One insertion at a node boundary keeps the kinds apart. */
  lemma {:induction false} InsertKinds(n: Node, base: string, search: string, r: Route)
    requires Radix(n) && Kinds(n, base) && search != "" && search[0] == n.tag
    requires Fits(n, search, r.kind) && NamesFit(r, base + search)
    ensures Kinds(Insert(n, search, r), base)
    decreases n
  {
    hide Wildcards, AddHandler, Split, NewNode, Lcp;
    var l := Lcp(search, n.prefix);
    if l < |n.prefix| {
      SplitKinds(n, base, search, l, r);
    } else if l < |search| {
      var rest := search[l..];
      assert base + search == base + n.prefix + rest;
      var i := ChildIndex(n.children, rest[0]);
      assert OneKind(search, r.kind) ==> r.kind == Static && Plain(rest);
      if i < |n.children| {
        InsertKinds(n.children[i], base + n.prefix, rest, r);
      } else {
        NewNodeKinds(rest, base + n.prefix, r);
      }
    } else {
      assert search == n.prefix;
      ReplaceKinds(n, base, r);
    }
  }

  // ----- the whole tree -----------------------------------------------------------------

  /** Every tree built by Add: empty, or a radix tree below a slash with its kinds kept apart. */
  predicate TreeOk(root: Node) {
    root == EMPTY || (Radix(root) && root.tag == '/' && Kinds(root, ""))
  }

  predicate FitsTree(root: Node, search: string, kind: Kind) {
    if root == EMPTY then kind == Static && OneKind(search, kind) else Fits(root, search, kind)
  }

  /** As a map from method and erased path to handler, `after` is `before` with one update. */
  ghost predicate Records(before: Node, after: Node, search: string, r: Route) {
    forall verb, path ::
      HandlerAt(after, verb, path) == Updated(HandlerAt(before, verb, path), search, r, verb, path)
  }

  /** What every path holds after an insertion; the root of an empty tree takes the text, but
      without a handler nothing else of the route. */
  ghost predicate Updates(before: Node, after: Node, search: string, r: Route) {
    forall path :: path != "" ==> TreeStep(before, after, search, r, path)
  }

  predicate TreeStep(before: Node, after: Node, search: string, r: Route, path: string) {
    || Step(HeldAt(before, path), HeldAt(after, path), search, r, path)
    || (HeldAt(before, path).None? && r.h.None? && path == search && HeldAt(after, path) == Some(NOTHING))
  }

  /** The tree after an insertion holds what it held, with the inserted handler in its place;
      the branch that rewrites a node is taken on the empty tree only. */
  lemma TreeInsert(root: Node, search: string, r: Route)
    requires TreeOk(root) && search != "" && search[0] == '/'
    requires FitsTree(root, search, r.kind) && NamesFit(r, search)
    ensures TreeOk(Insert(root, search, r)) && Insert(root, search, r) != EMPTY
    ensures Lookup(Insert(root, search, r), search).Some?
    ensures Records(root, Insert(root, search, r), search, r)
    ensures Updates(root, Insert(root, search, r), search, r)
    ensures Lcp(search, root.prefix) == 0 <==> root == EMPTY
  {
    assert "" + search == search;
    if root == EMPTY {
      EmptyInsert(search, r);
    } else {
      InsertRadix(root, search, r);
      InsertKinds(root, "", search, r);
      InsertedIsNode(root, search, r);
      forall verb, path
        ensures HandlerAt(Insert(root, search, r), verb, path)
          == Updated(HandlerAt(root, verb, path), search, r, verb, path)
      {
        InsertLookup(root, search, r, verb, path);
      }
      forall path
        ensures TreeStep(root, Insert(root, search, r), search, r, path)
      {
        InsertHeld(root, search, r, path);
      }
    }
  }

  lemma EmptyInsert(search: string, r: Route)
    requires search != "" && search[0] == '/' && r.kind == Static && Plain(search) && NamesFit(r, search)
    ensures TreeOk(Insert(EMPTY, search, r)) && Lookup(Insert(EMPTY, search, r), search).Some?
    ensures Records(EMPTY, Insert(EMPTY, search, r), search, r)
    ensures Updates(EMPTY, Insert(EMPTY, search, r), search, r)
  {
    var m := Insert(EMPTY, search, r);
    AddHandlerKnown(map[], r);
    assert "" + search == search;
    forall path | path != ""
      ensures TreeStep(EMPTY, m, search, r, path)
    {
      EmptyStep(search, r, path);
    }
  }

  lemma EmptyStep(search: string, r: Route, path: string)
    requires search != "" && path != "" && r.kind == Static
    ensures TreeStep(EMPTY, Insert(EMPTY, search, r), search, r, path)
  {
  }
}
