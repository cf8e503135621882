/** The whole search of a route, as a function of the tree, the path and the values: what it
    answers, which requests it is bound to answer, and how many values it uses. */
module RouteRun {
  import opened Options
  import opened RouteTree
  import opened RouteSearch

  // ----- one move ---------------------------------------------------------------------------

  /** What follows at a label: another label, the end of the path, nothing left to try, a value for
      which there is no room before the parameter child is entered, or a panic. */
  datatype Move = Go(pc: Pc, g: State) | Reach(g: State) | Miss | Full(g: State) | Panic

  function StaticChild(n: Node, c: char): nat {
    FirstChild(n.children, LabelAndKind(c, Static))
  }

  /** Behind a node's own text a static child goes first. */
  function Behind(h: State): Move {
    if h.search == "" then Reach(h)
    else
      var i := StaticChild(h.cn, h.search[0]);
      if i < |h.cn.children| then Go(Top, EnterStatic(h, i)) else Go(Branch, h)
  }

  function Next(pc: Pc, g: State): Move {
    match pc
    case Top =>
      if g.search == "" then Reach(g)
      else if g.cn.kind == Param || g.cn.prefix <= g.search then Behind(Consume(g))
      else if g.nn.Some? then Go(Resume(g.nk), Return(g))
      else if g.nk == Static then Miss
      else Panic // there is no node at the label that is resumed
    case Branch =>
      var i := KindIndex(g.cn.children, Param);
      if i == |g.cn.children| then Go(Wild, g)
      else if g.n >= |g.values| then Full(g)
      else Go(Top, EnterParam(g, i, SegmentEnd(g.search, 0)))
    case Wild =>
      var i := KindIndex(g.cn.children, Any);
      if i < |g.cn.children| then
        if 0 < |Child(g, i).pnames| <= |g.values| then Reach(EnterAny(g, i)) else Panic
      else if g.nn.Some? then Go(Resume(g.nk), ReturnOnce(g))
      else Miss
  }

  /** Every move keeps what the search relies on and makes its measure smaller; the only panic is
      that of a star's value that has no place. */
  lemma NextOk(root: Node, path: string, pc: Pc, g: State)
    requires Ok(root, path, pc, g)
    ensures match Next(pc, g)
      case Go(q, h) => Ok(root, path, q, h) && Smaller(q, h, pc, g)
      case Reach(h) => EndOk(root, path, h)
      case Miss => true
      case Full(h) => pc == Branch && h == g
      case Panic => pc == Wild
  {
    hide Ok, EndOk, Smaller;
    OkParts(root, path, pc, g);
    match pc {
      case Top => TopOk(root, path, g);
      case Branch =>
        var i := KindIndex(g.cn.children, Param);
        if i == |g.cn.children| {
          NoParamOk(root, path, g);
        } else if g.n < |g.values| {
          assert g.search[0..SegmentEnd(g.search, 0)] == g.search[..SegmentEnd(g.search, 0)];
          EnterParamOk(root, path, g, i, SegmentEnd(g.search, 0));
        }
      case Wild =>
        var i := KindIndex(g.cn.children, Any);
        if i < |g.cn.children| {
          if |Child(g, i).pnames| <= |g.values| {
            EnterAnyOk(root, path, g, i);
          }
        } else if g.nn.Some? {
          ReturnOnceOk(root, path, g);
        }
    }
  }

  lemma TopOk(root: Node, path: string, g: State)
    requires Ok(root, path, Top, g)
    ensures match Next(Top, g)
      case Go(q, h) => Ok(root, path, q, h) && Smaller(q, h, Top, g)
      case Reach(h) => EndOk(root, path, h)
      case Miss => true
      case _ => false
  {
    hide Ok, EndOk, Smaller, Consume;
    OkParts(root, path, Top, g);
    if g.search == "" {
      ConsumeOk(root, path, g);
      ConsumeNothing(g);
    } else if g.cn.kind == Param || g.cn.prefix <= g.search {
      ConsumeOk(root, path, g);
      ConsumeSmaller(g);
      var h := Consume(g);
      if h.search != "" {
        NotBack(root, path, g);
        var i := StaticChild(h.cn, h.search[0]);
        if i < |h.cn.children| {
          EnterStaticOk(root, path, h, i);
          SmallerTwice(Top, g, Branch, h, Top, EnterStatic(h, i));
        }
      }
    } else if g.nn.Some? {
      ReturnOk(root, path, g);
    }
  }

  lemma ConsumeNothing(g: State)
    requires g.cn.kind == Param
    ensures Consume(g) == g
  {
  }

  lemma NotBack(root: Node, path: string, g: State)
    requires Ok(root, path, Top, g) && (g.cn.kind == Param || g.cn.prefix <= g.search)
    ensures !Consume(g).back && Consume(g).cn == g.cn
  {
    hide Matches, Captured;
  }

  // ----- the whole search -------------------------------------------------------------------------

  /** How the search ends: the moves one after the other. */
  ghost function Outcome(root: Node, path: string, pc: Pc, g: State): (m: Move)
    requires Ok(root, path, pc, g)
    ensures !m.Go? && (m.Reach? ==> EndOk(root, path, m.g))
    decreases SavedRank(pc, g), BackRank(g), Height(g.cn), PcRank(pc)
  {
    NextOk(root, path, pc, g);
    match Next(pc, g)
    case Go(q, h) => Outcome(root, path, q, h)
    case m => m
  }

  /** What Find answers: a node, nothing, or neither because the values were too few. */
  datatype Answer = Found(g: State) | Nothing | Short

  /** At the end of the path: the node's handler, or else its wildcard child. */
  function Finished(g: State, verb: string): Answer {
    if g.cn.FindHandler(verb).Some? then Found(g)
    else
      var i := KindIndex(g.cn.children, Any);
      if i == |g.cn.children| then Nothing
      else if 0 < |Child(g, i).pnames| <= |g.values| then Found(EnterEmptyAny(g, i))
      else Short
  }

  function Final(m: Move, verb: string): Answer {
    match m
    case Reach(g) => Finished(g, verb)
    case Miss => Nothing
    case _ => Short
  }

  ghost function Answered(root: Node, path: string, values: seq<string>, verb: string): Answer
    requires TreeOk(root) && path != ""
  {
    StartOk(root, path, values);
    Final(Outcome(root, path, Top, Start(root, path, values)), verb)
  }

  /** The end of the path is a match, also at the wildcard child. */
  lemma FinishedOk(root: Node, path: string, g: State, verb: string)
    requires EndOk(root, path, g)
    ensures Finished(g, verb).Found? ==> EndOk(root, path, Finished(g, verb).g)
  {
    hide EndOk;
    var i := KindIndex(g.cn.children, Any);
    if g.cn.FindHandler(verb).None? && i < |g.cn.children| && |Child(g, i).pnames| <= |g.values| {
      EmptyAnyOk(root, path, g, i);
    }
  }

  /** What is found was registered for an erased pattern that matches the whole path, and the values
      of a search that never went back fill the pattern to the path. */
  lemma AnswerMatches(root: Node, path: string, values: seq<string>, verb: string)
    requires TreeOk(root) && path != "" && Answered(root, path, values, verb).Found?
    ensures var g := Answered(root, path, values, verb).g;
      && Lookup(root, g.at) == Some(g.cn) && Matches(g.at, path)
      && HandlerAt(root, verb, g.at) == g.cn.FindHandler(verb)
      && (g.straight ==> Wildcards(g.at) <= |g.values| && Fill(g.at, g.values) == path)
  {
    hide Ok, EndOk, TreeOk, Matches, Finished;
    StartOk(root, path, values);
    var m := Outcome(root, path, Top, Start(root, path, values));
    FinishedOk(root, path, m.g, verb);
    EndFacts(root, path, Finished(m.g, verb).g, verb);
  }

  // ----- requests that follow a pattern --------------------------------------------------------------

  /** From the node on, the rest of the path follows the rest of the pattern and nothing competes: no
      static child takes what a parameter or a star should capture, and no parameter child what a
      star should. The value of a parameter node is taken before its text. */
  predicate Leads(n: Node, pattern: string, s: string)
    decreases n
  {
    && n.prefix <= pattern && (n.kind == Param || n.prefix <= s)
    && var p, t := pattern[|n.prefix|..], if n.kind == Param then s else s[|n.prefix|..];
       if p == "" || t == "" then p == t
       else
         var i := ChildIndex(n.children, p[0]);
         && i < |n.children|
         && match n.children[i].kind
            case Static => Leads(n.children[i], p, t)
            case Param => NoStatic(n, t[0]) && Leads(n.children[i], p, t[SegmentEnd(t, 0)..])
            case Any => NoStatic(n, t[0]) && KindIndex(n.children, Param) == |n.children| && p == n.children[i].prefix
  }

  predicate NoStatic(n: Node, c: char) { StaticChild(n, c) == |n.children| }

  lemma LeadsStatic(n: Node, base: string, c: char, d: char, i: nat)
    requires Radix(n) && Kinds(n, base) && i == ChildIndex(n.children, c) < |n.children|
    requires n.children[i].kind == Static && d == n.children[i].tag
    ensures c == d && StaticChild(n, d) == i
  {
    FirstChildIs(n.children, LabelAndKind(d, Static), i);
  }

  lemma LeadsWild(n: Node, base: string, c: char, i: nat)
    requires Radix(n) && Kinds(n, base) && i == ChildIndex(n.children, c) < |n.children|
    requires n.children[i].kind != Static
    ensures KindIndex(n.children, n.children[i].kind) == i
    ensures c == (if n.children[i].kind == Param then ':' else '*') && n.children[i].prefix == [c]
  {
    assert Radix(n.children[i]) && Kinds(n.children[i], base + n.prefix);
    forall j | 0 <= j < i
      ensures n.children[j].kind != n.children[i].kind
    {
      assert Radix(n.children[j]) && Kinds(n.children[j], base + n.prefix);
    }
    FirstChildIs(n.children, OfKind(n.children[i].kind), i);
  }

  /** The search stops at the end of the pattern with the values beyond it as they were, or, if the
      pattern has more wildcards than there are values, for lack of one. */
  predicate Follows(m: Move, pattern: string, g: State) {
    if Wildcards(pattern) <= |g.values| then
      && m.Reach? && m.g.at == pattern && m.g.straight && |m.g.values| == |g.values|
      && forall i :: Wildcards(pattern) <= i < |g.values| ==> m.g.values[i] == g.values[i]
    else m.Full? || m.Panic?
  }

  lemma OutcomeNext(root: Node, path: string, pc: Pc, g: State, q: Pc, h: State)
    requires Ok(root, path, pc, g) && Next(pc, g) == Go(q, h)
    ensures Ok(root, path, q, h) && Outcome(root, path, pc, g) == Outcome(root, path, q, h)
  {
    NextOk(root, path, pc, g);
  }

  lemma OutcomeStops(root: Node, path: string, pc: Pc, g: State)
    requires Ok(root, path, pc, g) && !Next(pc, g).Go?
    ensures Outcome(root, path, pc, g) == Next(pc, g)
  {
    hide Ok, Next;
  }

  lemma OkAtNode(root: Node, path: string, pc: Pc, g: State)
    requires Ok(root, path, pc, g)
    ensures |g.cn.prefix| <= |g.at| && g.at == Above(g.at, g.cn) + g.cn.prefix && Kinds(g.cn, Above(g.at, g.cn))
    ensures root != EMPTY ==> Radix(g.cn)
    ensures root == EMPTY ==> g.cn == EMPTY
    ensures g.straight ==> g.n == Wildcards(Matched(pc, g)) && !g.back
    ensures g.n <= |g.values|
    ensures pc == Top ==> (g.search == "" ==> g.cn.kind == Param)
  {
    hide Matches, SavedOk;
    AtNode(root, g.at, g.cn);
  }

  /** The text above, and what follows the node's own text. */
  lemma PatternParts(above: string, prefix: string, p: string)
    requires prefix <= p
    ensures above + p == (above + prefix) + p[|prefix|..]
    ensures Wildcards(above + p) == Wildcards(above + prefix) + Wildcards(p[|prefix|..])
  {
    hide Wildcards;
    assert above + p == (above + prefix) + p[|prefix|..];
    WildcardsConcat(above + prefix, p[|prefix|..]);
  }

  lemma AboveChild(at: string, c: Node)
    ensures Above(at + c.prefix, c) == at
  {
  }

  /** The rest of the path behind the node's own text. */
  function Rest(n: Node, s: string): string
    requires n.kind == Param || n.prefix <= s
  {
    if n.kind == Param then s else s[|n.prefix|..]
  }

  lemma ConsumeIs(g: State)
    requires g.cn.kind == Param || g.cn.prefix <= g.search
    ensures var h := Consume(g);
      && h.search == Rest(g.cn, g.search) && h.cn == g.cn && h.at == g.at && h.n == g.n && h.values == g.values
      && h.straight == g.straight && h.back == g.back && h.nn == g.nn && h.nk == g.nk && h.ns == g.ns
  {
  }

  lemma FollowEnds(root: Node, path: string, g: State, p: string)
    requires Ok(root, path, Top, g) && g.straight && Leads(g.cn, p, g.search) && p == g.cn.prefix
    ensures Follows(Outcome(root, path, Top, g), g.at, g)
  {
    hide Ok, Kinds, Radix, TreeOk, Wildcards, Consume;
    OkAtNode(root, path, Top, g);
    ConsumeIs(g);
    if g.search == "" {
      ConsumeNothing(g);
    }
    MatchedIs(root, Top, g) by { OkTree(root, path, Top, g); }
    OutcomeStops(root, path, Top, g);
  }

  lemma OkTree(root: Node, path: string, pc: Pc, g: State)
    requires Ok(root, path, pc, g)
    ensures TreeOk(root) && At(root, g.at, g.cn)
  {
    hide TreeOk, At;
  }

  lemma FollowStatic(root: Node, path: string, g: State, p: string, i: nat)
    requires Ok(root, path, Top, g) && Leads(g.cn, p, g.search) && p != g.cn.prefix
    requires i == ChildIndex(g.cn.children, p[|g.cn.prefix|]) < |g.cn.children| && Child(g, i).kind == Static
    ensures g.cn.kind == Param || g.cn.prefix <= g.search
    ensures var h := EnterStatic(Consume(g), i);
      && Next(Top, g) == Go(Top, h)
      && h.cn == Child(g, i) && h.straight == g.straight && h.values == g.values && h.n == g.n
      && h.at == g.at + h.cn.prefix && Leads(h.cn, p[|g.cn.prefix|..], h.search)
  {
    hide Ok, Kinds, Radix, Consume;
    OkAtNode(root, path, Top, g);
    ConsumeIs(g);
    var rest := p[|g.cn.prefix|..];
    assert rest[0] == p[|g.cn.prefix|];
    assert Leads(Child(g, i), rest, Rest(g.cn, g.search));
    PrefixOfChild(g.cn, i);
    LeadsStatic(g.cn, Above(g.at, g.cn), rest[0], Rest(g.cn, g.search)[0], i);
  }

  lemma PrefixOfChild(n: Node, i: nat)
    requires Radix(n) && i < |n.children|
    ensures n.children[i].prefix != "" && n.children[i].tag == n.children[i].prefix[0]
  {
    assert Radix(n.children[i]);
  }

  lemma FollowBranch(root: Node, path: string, g: State, p: string, i: nat)
    requires Ok(root, path, Top, g) && Leads(g.cn, p, g.search) && p != g.cn.prefix
    requires i == ChildIndex(g.cn.children, p[|g.cn.prefix|]) < |g.cn.children| && Child(g, i).kind != Static
    ensures g.cn.kind == Param || g.cn.prefix <= g.search
    ensures Next(Top, g) == Go(Branch, Consume(g)) && Consume(g).search != ""
    ensures KindIndex(g.cn.children, Child(g, i).kind) == i
    ensures p[|g.cn.prefix|] == (if Child(g, i).kind == Param then ':' else '*')
      && Child(g, i).prefix == [p[|g.cn.prefix|]]
  {
    hide Ok, Kinds, Radix, Consume;
    OkAtNode(root, path, Top, g);
    ConsumeIs(g);
    assert p[|g.cn.prefix|..][0] == p[|g.cn.prefix|];
    LeadsWild(g.cn, Above(g.at, g.cn), p[|g.cn.prefix|], i);
  }

  /** A search that follows a pattern so far follows it to its end. */
  lemma {:induction false} Followed(root: Node, path: string, g: State, p: string)
    requires Ok(root, path, Top, g) && g.straight && Leads(g.cn, p, g.search)
    ensures |g.cn.prefix| <= |g.at| && Follows(Outcome(root, path, Top, g), Above(g.at, g.cn) + p, g)
    decreases g.cn
  {
    hide Ok, EndOk, Kinds, Radix, TreeOk, Matches, Wildcards, Outcome, KindIndex, ChildIndex, FirstChild, NoStatic,
      Follows, Next;
    OkAtNode(root, path, Top, g);
    PatternParts(Above(g.at, g.cn), g.cn.prefix, p);
    var rest := p[|g.cn.prefix|..];
    if rest == "" {
      FollowEnds(root, path, g, p);
      assert g.at + rest == g.at;
    } else {
      var i := ChildIndex(g.cn.children, rest[0]);
      if g.cn.children[i].kind == Static {
        FollowStatic(root, path, g, p, i);
        var h := EnterStatic(Consume(g), i);
        OutcomeNext(root, path, Top, g, Top, h);
        Followed(root, path, h, rest);
        AboveChild(g.at, h.cn);
        SameValues(Outcome(root, path, Top, h), g.at + rest, g, h);
      } else {
        FollowBranch(root, path, g, p, i);
        var b := Consume(g);
        ConsumeIs(g);
        OutcomeNext(root, path, Top, g, Branch, b);
        SomeWildcard(rest);
        OkAtNode(root, path, Branch, b);
        if Child(g, i).kind == Any {
          FollowAny(root, path, b, i, rest);
        } else if b.n < |b.values| {
          var k := SegmentEnd(b.search, 0);
          FollowParam(root, path, b, i, k);
          Followed(root, path, EnterParam(b, i, k), rest);
          AboveChild(g.at, Child(b, i));
          LaterValues(Outcome(root, path, Branch, b), g.at + rest, b, EnterParam(b, i, k));
        } else {
          NoRoom(root, path, b);
          FollowsNot(Full(b), g.at + rest, b);
        }
        SameValues(Outcome(root, path, Branch, b), g.at + rest, g, b);
      }
    }
  }

  lemma SomeWildcard(p: string)
    requires p != "" && IsWildcard(p[0])
    ensures Wildcards(p) >= 1
  {
    assert p == [p[0]] + p[1..];
    assert [p[0]][..0] == "";
    WildcardsConcat([p[0]], p[1..]);
  }

  lemma FollowsNot(m: Move, q: string, g: State)
    requires (m.Full? || m.Panic?) && Wildcards(q) > |g.values|
    ensures Follows(m, q, g)
  {
  }

  lemma LaterValues(m: Move, q: string, g: State, h: State)
    requires Follows(m, q, h) && g.n < |g.values| && g.n < Wildcards(q)
    requires |h.values| == |g.values| && forall i :: g.n < i < |g.values| ==> h.values[i] == g.values[i]
    ensures Follows(m, q, g)
  {
  }

  lemma FollowParam(root: Node, path: string, b: State, i: nat, k: nat)
    requires Ok(root, path, Branch, b) && b.n < |b.values|
    requires i == KindIndex(b.cn.children, Param) < |b.cn.children| && k == SegmentEnd(b.search, 0)
    ensures var h := EnterParam(b, i, k);
      && Ok(root, path, Top, h) && Outcome(root, path, Branch, b) == Outcome(root, path, Top, h)
      && h.cn == Child(b, i) && h.at == b.at + h.cn.prefix && h.straight == b.straight && h.search == b.search[k..]
      && |h.values| == |b.values| && forall j :: b.n < j < |b.values| ==> h.values[j] == b.values[j]
  {
    hide Ok, Outcome;
    OutcomeNext(root, path, Branch, b, Top, EnterParam(b, i, k));
  }

  lemma NoRoom(root: Node, path: string, b: State)
    requires Ok(root, path, Branch, b) && KindIndex(b.cn.children, Param) < |b.cn.children| && b.n >= |b.values|
    ensures Outcome(root, path, Branch, b) == Full(b)
  {
    hide Ok;
    OutcomeStops(root, path, Branch, b);
  }

  lemma FollowAny(root: Node, path: string, b: State, i: nat, rest: string)
    requires Ok(root, path, Branch, b) && b.straight && Wildcards(b.at) <= |b.values| && rest == "*"
    requires KindIndex(b.cn.children, Param) == |b.cn.children|
    requires i == KindIndex(b.cn.children, Any) < |b.cn.children|
    ensures Follows(Outcome(root, path, Branch, b), b.at + rest, b)
  {
    hide Ok, Wildcards, TreeOk, At;
    OutcomeNext(root, path, Branch, b, Wild, b);
    OutcomeStops(root, path, Wild, b);
    OkTree(root, path, Wild, b);
    AnyChild(root, b, i);
    WildcardsConcat(b.at, rest);
    OneStar();
  }

  lemma OneStar()
    ensures Wildcards("*") == 1
  {
    assert "*"[..0] == "" && Wildcards("") == 0;
  }

  lemma SameValues(m: Move, q: string, g: State, h: State)
    requires Follows(m, q, h) && h.values == g.values
    ensures Follows(m, q, g)
  {
  }

  /** A request that follows a registered pattern with nothing competing is answered by it, and the
      values fill the pattern to the path, if and only if there are as many values as the pattern has
      wildcards; the other values stay as they are. */
  lemma FollowedIsFound(root: Node, path: string, values: seq<string>, verb: string, pattern: string)
    requires TreeOk(root) && path != "" && Leads(root, pattern, path) && HandlerAt(root, verb, pattern).Some?
    ensures var a := Answered(root, path, values, verb);
      if Wildcards(pattern) <= |values| then
        && a.Found? && a.g.at == pattern && |a.g.values| == |values| && Fill(pattern, a.g.values) == path
        && forall i :: Wildcards(pattern) <= i < |values| ==> a.g.values[i] == values[i]
      else a.Short?
  {
    hide Ok, EndOk, TreeOk, Matches, Leads, Wildcards, Fill, HandlerAt;
    StartOk(root, path, values);
    RootIsStatic(root);
    var g := Start(root, path, values);
    Followed(root, path, g, pattern);
    assert "" + pattern == pattern;
    var m := Outcome(root, path, Top, g);
    if Wildcards(pattern) <= |values| {
      EndFacts(root, path, m.g, verb);
    }
  }

  /** A pattern with more wildcards than there are values. */
  lemma FollowedIsShort(root: Node, path: string, values: seq<string>, verb: string, pattern: string)
    requires TreeOk(root) && path != "" && Leads(root, pattern, path) && Wildcards(pattern) > |values|
    ensures Answered(root, path, values, verb).Short?
  {
    hide Ok, EndOk, TreeOk, Matches, Leads, Wildcards, Fill;
    StartOk(root, path, values);
    RootIsStatic(root);
    Followed(root, path, Start(root, path, values), pattern);
    assert "" + pattern == pattern;
  }

  lemma {:induction false} LookupOn(n: Node, path: string, x: Node, tail: string)
    requires Radix(n) && Lookup(n, path) == Some(x) && tail != ""
    ensures Lookup(n, path + tail) == Lookup(x, x.prefix + tail)
    decreases n
  {
    if n.prefix != path {
      var rest := path[|n.prefix|..];
      var i := ChildIndex(n.children, rest[0]);
      LookupDown(n, rest + tail);
      assert n.prefix + (rest + tail) == path + tail;
      LookupOn(n.children[i], rest, x, tail);
    }
  }

  lemma StarBelow(root: Node, at: string, x: Node)
    requires TreeOk(root) && At(root, at, x) && Lookup(root, at + "*").Some?
    ensures KindIndex(x.children, Any) < |x.children|
  {
    hide Lookup, Kinds, Radix;
    if root != EMPTY {
      AtNode(root, at, x);
      LookupOn(root, at, x, "*");
      LookupDown(x, "*");
      var i := ChildIndex(x.children, '*');
      StarChild(x, Above(at, x), i);
    } else {
      NothingBelow(at);
    }
  }

  lemma NothingBelow(at: string)
    ensures Lookup(EMPTY, at + "*").None?
  {
  }

  lemma StarChild(x: Node, base: string, i: nat)
    requires Radix(x) && Kinds(x, base) && i < |x.children| && x.children[i].tag == '*'
    ensures x.children[i].kind == Any
  {
    var c := x.children[i];
    assert Radix(c) && Kinds(c, base + x.prefix);
  }

  lemma FinishedStar(root: Node, path: string, h: State, verb: string)
    requires EndOk(root, path, h) && h.straight && h.cn.FindHandler(verb).None? && Lookup(root, h.at + "*").Some?
    requires Wildcards(h.at) <= |h.values|
    ensures var a := Finished(h, verb);
      if Wildcards(h.at) < |h.values| then
        && a.Found? && a.g.at == h.at + "*" && a.g.straight && EndOk(root, path, a.g)
        && a.g.values == h.values[Wildcards(h.at) := ""]
      else a.Short?
  {
    hide EndOk, TreeOk, Wildcards, Lookup, KindIndex;
    OkTreeEnd(root, path, h);
    StarBelow(root, h.at, h.cn);
    var i := KindIndex(h.cn.children, Any);
    AnyChild(root, h, i);
    if Wildcards(h.at) < |h.values| {
      EmptyAnyOk(root, path, h, i);
    }
  }

  lemma OkTreeEnd(root: Node, path: string, g: State)
    requires EndOk(root, path, g)
    ensures TreeOk(root) && At(root, g.at, g.cn)
  {
    hide TreeOk, At;
  }

  /** The same for a star that has nothing left to capture, where the path's own node has no handler. */
  lemma EmptyStarIsFound(root: Node, path: string, values: seq<string>, verb: string, pattern: string)
    requires TreeOk(root) && path != "" && Leads(root, pattern, path) && HandlerAt(root, verb, pattern).None?
    requires Wildcards(pattern) <= |values| && Lookup(root, pattern + "*").Some?
    ensures var a := Answered(root, path, values, verb);
      if Wildcards(pattern) < |values| then
        && a.Found? && a.g.at == pattern + "*" && |a.g.values| == |values|
        && Wildcards(pattern + "*") <= |values| && Fill(pattern + "*", a.g.values) == path
        && forall i :: Wildcards(pattern) < i < |values| ==> a.g.values[i] == values[i]
      else a.Short?
  {
    hide Ok, EndOk, TreeOk, Leads, Wildcards, Fill, HandlerAt, Lookup, Finished;
    StartOk(root, path, values);
    RootIsStatic(root);
    var g := Start(root, path, values);
    Followed(root, path, g, pattern);
    assert "" + pattern == pattern;
    var h := Outcome(root, path, Top, g).g;
    EndFacts(root, path, h, verb);
    FinishedStar(root, path, h, verb);
    if Wildcards(pattern) < |values| {
      EndFacts(root, path, Finished(h, verb).g, verb);
    }
  }

  /** A plain path with a handler leads to itself, whatever parameters and stars there are. */
  lemma {:induction false} PlainLeads(n: Node, base: string, path: string)
    requires Radix(n) && Kinds(n, base) && n.kind == Static && Plain(path) && Lookup(n, path).Some?
    ensures Leads(n, path, path)
    decreases n
  {
    if n.prefix != path {
      var rest := path[|n.prefix|..];
      var i := ChildIndex(n.children, rest[0]);
      var c := n.children[i];
      assert Radix(c) && Kinds(c, base + n.prefix) && Lookup(c, rest).Some?;
      assert c.prefix[0] == c.tag == rest[0] == path[|n.prefix|];
      assert c.kind == Static;
      PlainLeads(c, base + n.prefix, rest);
    }
  }

  lemma {:induction false} PlainHasNone(s: string)
    requires Plain(s)
    ensures Wildcards(s) == 0
  {
    if s != "" {
      PlainHasNone(s[..|s| - 1]);
    }
  }

  /** A static route always wins, and leaves the values alone. */
  lemma StaticIsFound(root: Node, path: string, values: seq<string>, verb: string)
    requires TreeOk(root) && path != "" && Plain(path) && HandlerAt(root, verb, path).Some?
    ensures var a := Answered(root, path, values, verb);
      a.Found? && a.g.at == path && a.g.values == values
  {
    hide Leads, Answered;
    if root != EMPTY {
      RootIsStatic(root);
      PlainLeads(root, "", path);
      PlainHasNone(path);
      FollowedIsFound(root, path, values, verb, path);
    }
  }

  // ----- how many values a search uses ------------------------------------------------------------

  /** The most parameter children that a search can enter from a node on, and those of them that it
      can have entered when it goes back to a point saved above the node. */
  datatype Use = Use(all: nat, stray: nat)

  function Max(a: nat, b: nat): nat { if a < b then b else a }

  /** Behind a slash the search comes back to the node's own parameter child after a stray through
      its static children; anything saved above is forgotten. */
  function Uses(n: Node): Use
    decreases n, |n.children| + 1
  {
    var s, p := StaticUses(n, |n.children|), ParamUses(n);
    if n.tag == '/' then Use(Max(s.all, s.stray + p.all), 0)
    else Use(Max(s.all, p.all), Max(s.stray, p.stray))
  }

  function ParamUses(n: Node): Use
    decreases n, 0
  {
    var i := KindIndex(n.children, Param);
    if i == |n.children| then Use(0, 0)
    else
      var u := Uses(n.children[i]);
      Use(u.all + 1, u.stray + 1)
  }

  function StaticUses(n: Node, k: nat): Use
    requires k <= |n.children|
    decreases n, k
  {
    if k == 0 then Use(0, 0)
    else
      var s := StaticUses(n, k - 1);
      if n.children[k - 1].kind != Static then s
      else
        var u := Uses(n.children[k - 1]);
        Use(Max(s.all, u.all), Max(s.stray, u.stray))
  }

  lemma {:induction false} StaticUsesAt(n: Node, k: nat, i: nat)
    requires i < k <= |n.children| && n.children[i].kind == Static
    ensures Uses(n.children[i]).all <= StaticUses(n, k).all
    ensures Uses(n.children[i]).stray <= StaticUses(n, k).stray
  {
    hide Uses;
    if i < k - 1 {
      StaticUsesAt(n, k - 1, i);
    }
  }

  /** There is room for the parameters of the node, and for those of the saved point. */
  predicate Roomy(g: State, all: nat, stray: nat) {
    && g.n + all <= |g.values|
    && (g.nn.Some? && g.nk == Param ==> g.n + stray + ParamUses(g.nn.value).all <= |g.values|)
  }

  predicate WithinRoom(pc: Pc, g: State) {
    if pc == Wild then Roomy(g, 0, 0)
    else if pc == Branch && g.back then Roomy(g, ParamUses(g.cn).all, 0)
    else Roomy(g, Uses(g.cn).all, Uses(g.cn).stray)
  }

  lemma UsesParts(n: Node, i: nat)
    requires i < |n.children|
    ensures ParamUses(n).all <= Uses(n).all
    ensures n.tag != '/' ==> ParamUses(n).stray <= Uses(n).stray
    ensures i == KindIndex(n.children, Param) ==>
      ParamUses(n) == Use(Uses(n.children[i]).all + 1, Uses(n.children[i]).stray + 1)
    ensures n.children[i].kind == Static ==>
      && Uses(n.children[i]).all <= Uses(n).all
      && (if n.tag == '/' then Uses(n.children[i]).stray + ParamUses(n).all <= Uses(n).all
          else Uses(n.children[i]).stray <= Uses(n).stray)
  {
    hide ParamUses, StaticUses;
    if n.children[i].kind == Static {
      StaticUsesAt(n, |n.children|, i);
    }
    ParamUsesIs(n, i);
  }

  lemma ParamUsesIs(n: Node, i: nat)
    requires i < |n.children|
    ensures i == KindIndex(n.children, Param) ==>
      ParamUses(n) == Use(Uses(n.children[i]).all + 1, Uses(n.children[i]).stray + 1)
  {
  }

  lemma NoParamUses(n: Node)
    requires KindIndex(n.children, Param) == |n.children|
    ensures ParamUses(n) == Use(0, 0)
  {
  }

  /** What is left of the room at the saved point is enough for it. */
  lemma ResumeRoom(g: State, h: State)
    requires Roomy(g, 0, 0) && g.nn.Some? && (h == Return(g) || h == ReturnOnce(g))
    ensures WithinRoom(Resume(g.nk), h) && |h.values| == |g.values|
  {
    hide Uses, ParamUses;
  }

  lemma StaticRoom(h: State, i: nat)
    requires Roomy(h, Uses(h.cn).all, Uses(h.cn).stray) && i < |h.cn.children| && Child(h, i).kind == Static
    ensures WithinRoom(Top, EnterStatic(h, i))
  {
    hide Uses, ParamUses;
    UsesParts(h.cn, i);
  }

  lemma ParamRoom(g: State, i: nat, k: nat)
    requires WithinRoom(Branch, g) && (g.back ==> g.cn.tag == '/')
    requires i == KindIndex(g.cn.children, Param) < |g.cn.children| && k <= |g.search|
    ensures g.n < |g.values| && WithinRoom(Top, EnterParam(g, i, k)) && |EnterParam(g, i, k).values| == |g.values|
  {
    hide Uses, ParamUses;
    UsesParts(g.cn, i);
  }

  lemma TopRoom(root: Node, path: string, g: State)
    requires Ok(root, path, Top, g) && WithinRoom(Top, g)
    ensures match Next(Top, g)
      case Go(q, h) => WithinRoom(q, h) && |h.values| == |g.values|
      case Reach(h) => |h.values| == |g.values|
      case _ => true
  {
    hide Ok, Uses, ParamUses, Consume;
    if g.search != "" && (g.cn.kind == Param || g.cn.prefix <= g.search) {
      ConsumeIs(g);
      NotBack(root, path, g);
      var h := Consume(g);
      if h.search != "" {
        var i := StaticChild(h.cn, h.search[0]);
        if i < |h.cn.children| {
          StaticRoom(h, i);
        }
      }
    } else if g.search != "" && g.nn.Some? {
      ResumeRoom(g, Return(g));
    }
  }

  lemma OkBack(root: Node, path: string, pc: Pc, g: State)
    requires Ok(root, path, pc, g) && g.back
    ensures g.cn.tag == '/'
  {
    hide Matches, Captured;
  }

  /** Room that is enough stays enough, and is never exceeded. */
  lemma NextRoom(root: Node, path: string, pc: Pc, g: State)
    requires Ok(root, path, pc, g) && WithinRoom(pc, g) && NamesWithin(root, |g.values|)
    ensures match Next(pc, g)
      case Go(q, h) => WithinRoom(q, h) && |h.values| == |g.values|
      case Reach(h) => |h.values| == |g.values|
      case Miss => true
      case _ => false
  {
    hide Ok, Uses, ParamUses, NamesWithin;
    NextOk(root, path, pc, g);
    match pc {
      case Top => TopRoom(root, path, g);
      case Branch =>
        var i := KindIndex(g.cn.children, Param);
        if g.back {
          OkBack(root, path, pc, g);
        }
        if i < |g.cn.children| {
          ParamRoom(g, i, SegmentEnd(g.search, 0));
        }
      case Wild =>
        var i := KindIndex(g.cn.children, Any);
        if i < |g.cn.children| {
          RoomForNames(root, path, pc, g, i, |g.values|);
          StarNamed(root, path, g, i);
        } else if g.nn.Some? {
          ResumeRoom(g, ReturnOnce(g));
        }
    }
  }

  lemma StarNamed(root: Node, path: string, g: State, i: nat)
    requires Ok(root, path, Wild, g) || EndOk(root, path, g)
    requires i < |g.cn.children| && Child(g, i).kind == Any
    ensures 0 < |Child(g, i).pnames|
  {
    hide TreeOk, Matches, At, Wildcards;
    AnyChild(root, g, i);
  }

  lemma {:induction false} OutcomeRoom(root: Node, path: string, pc: Pc, g: State)
    requires Ok(root, path, pc, g) && WithinRoom(pc, g) && NamesWithin(root, |g.values|)
    ensures match Outcome(root, path, pc, g)
      case Reach(h) => |h.values| == |g.values|
      case Miss => true
      case _ => false
    decreases SavedRank(pc, g), BackRank(g), Height(g.cn), PcRank(pc)
  {
    hide Ok, WithinRoom, NamesWithin, Next, Outcome;
    NextOk(root, path, pc, g);
    NextRoom(root, path, pc, g);
    match Next(pc, g)
    case Go(q, h) =>
      OutcomeNext(root, path, pc, g, q, h);
      OutcomeRoom(root, path, q, h);
    case _ => OutcomeStops(root, path, pc, g);
  }

  /** With as many values as a search can use, and as the longest list of names, no request is short
      of values. */
  lemma EnoughValues(root: Node, path: string, values: seq<string>, verb: string)
    requires TreeOk(root) && path != "" && Uses(root).all <= |values| && NamesWithin(root, |values|)
    ensures !Answered(root, path, values, verb).Short?
  {
    hide Ok, EndOk, Uses, NamesWithin, TreeOk;
    StartOk(root, path, values);
    var g := Start(root, path, values);
    OutcomeRoom(root, path, Top, g);
    var m := Outcome(root, path, Top, g);
    if m.Reach? {
      var i := KindIndex(m.g.cn.children, Any);
      if i < |m.g.cn.children| {
        RoomForNames(root, path, Wild, m.g, i, |values|);
        StarNamed(root, path, m.g, i);
      }
    }
  }
}
