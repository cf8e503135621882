/** Requests for which the search goes back: to the parameter after a static sibling that fails, and
    to the star after both. */
module RouteBack {
  import opened Options
  import opened RouteTree
  import opened RouteSearch
  import opened RouteRun

  /** From the node on, the path follows the pattern to its end with nothing competing, and `t` is left. */
  predicate LeadsTo(n: Node, pattern: string, s: string, t: string)
    decreases n
  {
    && n.prefix <= pattern && (n.kind == Param || n.prefix <= s)
    && var p, u := pattern[|n.prefix|..], Rest(n, s);
       if p == "" then u == t && t != ""
       else
         var i := ChildIndex(n.children, p[0]);
         && u != "" && i < |n.children|
         && match n.children[i].kind
            case Static => LeadsTo(n.children[i], p, u, t)
            case Param => NoStatic(n, u[0]) && LeadsTo(n.children[i], p, u[SegmentEnd(u, 0)..], t)
            case Any => false
  }

  /** From the node on, whose value is taken if it is a parameter, nothing takes the rest of the path,
      and no node that begins with a slash is gone through. */
  predicate Fails(n: Node, s: string)
    decreases n
  {
    if n.kind != Param && !(n.prefix <= s) then s != ""
    else
      var u := Rest(n, s);
      && u != ""
      && var i := StaticChild(n, u[0]);
         if i < |n.children| then n.tag != '/' && Fails(n.children[i], u)
         else KindIndex(n.children, Param) == KindIndex(n.children, Any) == |n.children|
  }

  /** No static child takes the text. */
  predicate StaticFails(z: Node, t: string)
    requires t != ""
  {
    var i := StaticChild(z, t[0]);
    i < |z.children| ==> Fails(z.children[i], t)
  }

  /** Neither does the parameter child, behind its segment. */
  predicate ParamFails(z: Node, t: string) {
    var i := KindIndex(z.children, Param);
    i < |z.children| ==> Fails(z.children[i], t[SegmentEnd(t, 0)..])
  }

  /** The path leads to a node at `p` that begins with a slash, and nothing but its star takes the
      rest `t`. */
  predicate FallsToStar(root: Node, path: string, p: string, t: string) {
    && LeadsTo(root, p, path, t) && t != ""
    && Lookup(root, p).Some?
    && var z := Lookup(root, p).value;
       z.tag == '/' && StaticFails(z, t) && ParamFails(z, t)
  }

  /** The path leads to a node at `p` that begins with a slash, no static child takes the rest `t`, and
      behind the segment for the parameter it follows `r`. */
  predicate FallsToParam(root: Node, path: string, p: string, t: string, r: string) {
    && LeadsTo(root, p, path, t) && t != ""
    && Lookup(root, p).Some?
    && var z := Lookup(root, p).value;
       var i := KindIndex(z.children, Param);
       && z.tag == '/' && StaticFails(z, t)
       && i < |z.children| && Leads(z.children[i], ":" + r, t[SegmentEnd(t, 0)..])
  }

  // ----- on the way to the node -----------------------------------------------------------------------------

  /** The search stands before the text of the node at the pattern, which leaves `t`, and has taken the
      values of the pattern. */
  ghost predicate Arrived(root: Node, path: string, h: State, at: string, t: string, g: State) {
    && Ok(root, path, Top, h) && h.straight && h.at == at
    && (h.cn.kind == Param || h.cn.prefix <= h.search) && Rest(h.cn, h.search) == t
    && |h.values| == |g.values| && forall i :: Wildcards(at) <= i < |g.values| ==> h.values[i] == g.values[i]
  }

  lemma LeadsToNext(n: Node, pattern: string, s: string, t: string)
    requires LeadsTo(n, pattern, s, t) && pattern != n.prefix
    ensures var p, u := pattern[|n.prefix|..], Rest(n, s);
      var i := ChildIndex(n.children, p[0]);
      && u != "" && i < |n.children| && n.children[i].kind != Any
      && (n.children[i].kind == Static ==> LeadsTo(n.children[i], p, u, t) && n.children[i].prefix <= u)
      && (n.children[i].kind == Param ==> NoStatic(n, u[0]) && LeadsTo(n.children[i], p, u[SegmentEnd(u, 0)..], t))
  {
  }

  /** Behind a node's text the static child goes first, */
  lemma GoStatic(root: Node, path: string, g: State, i: nat)
    requires Ok(root, path, Top, g) && (g.cn.kind == Param || g.cn.prefix <= g.search) && Rest(g.cn, g.search) != ""
    requires i == StaticChild(g.cn, Rest(g.cn, g.search)[0]) < |g.cn.children|
    ensures var h := EnterStatic(Consume(g), i);
      && Ok(root, path, Top, h) && Outcome(root, path, Top, g) == Outcome(root, path, Top, h)
      && h.cn == Child(g, i) && h.search == Rest(g.cn, g.search) && h.at == g.at + h.cn.prefix
      && h.n == g.n && h.values == g.values && h.straight == g.straight
      && (g.cn.tag == '/' ==>
            && h.nn == Some(g.cn) && h.nk == Param && h.ns == h.search
            && h.savedAt == g.at && h.savedDone == Consume(g).done)
      && (g.cn.tag != '/' ==>
            h.nn == g.nn && h.nk == g.nk && h.ns == g.ns && h.savedAt == g.savedAt && h.savedDone == g.savedDone)
  {
    hide Ok;
    OkAtNode(root, path, Top, g);
    ConsumeIs(g);
    if g.search != "" {
      OutcomeNext(root, path, Top, g, Top, EnterStatic(Consume(g), i));
    }
  }

  /** and without one the parameter child is looked for. */
  lemma GoBranch(root: Node, path: string, g: State)
    requires Ok(root, path, Top, g) && (g.cn.kind == Param || g.cn.prefix <= g.search) && Rest(g.cn, g.search) != ""
    requires NoStatic(g.cn, Rest(g.cn, g.search)[0])
    ensures var b := Consume(g);
      Ok(root, path, Branch, b) && Outcome(root, path, Top, g) == Outcome(root, path, Branch, b)
  {
    hide Ok;
    OkAtNode(root, path, Top, g);
    ConsumeIs(g);
    if g.search != "" {
      OutcomeNext(root, path, Top, g, Branch, Consume(g));
    }
  }

  lemma StaticFits(root: Node, path: string, g: State, c: char, d: char, i: nat)
    requires Ok(root, path, Top, g) && i == ChildIndex(g.cn.children, c) < |g.cn.children|
    requires Child(g, i).kind == Static && (Child(g, i).prefix != "" ==> Child(g, i).prefix[0] == d)
    ensures StaticChild(g.cn, d) == i
  {
    hide Ok, Kinds, Radix;
    OkAtNode(root, path, Top, g);
    PrefixOfChild(g.cn, i);
    LeadsStatic(g.cn, Above(g.at, g.cn), c, d, i);
  }

  lemma HereAlready(root: Node, path: string, g: State, t: string)
    requires Ok(root, path, Top, g) && g.straight && LeadsTo(g.cn, g.cn.prefix, g.search, t)
    ensures Wildcards(g.at) <= |g.values| && Arrived(root, path, g, g.at, t, g)
  {
    hide Ok, Wildcards;
    OkAtNode(root, path, Top, g);
    OkTree(root, path, Top, g);
    MatchedIs(root, Top, g);
    hide Kinds;
    MatchedWildcards(root, path, g);
  }

  lemma MatchedWildcards(root: Node, path: string, g: State)
    requires Ok(root, path, Top, g) && g.straight
    ensures Wildcards(g.at) <= |g.values|
  {
    hide Ok, Radix, TreeOk;
    OkAtNode(root, path, Top, g);
    NotAny(root, path, g);
    WildcardsConcat(Above(g.at, g.cn), g.cn.prefix);
    if g.cn.kind == Static {
      PlainHasNone(g.cn.prefix);
    }
  }

  lemma NotAny(root: Node, path: string, g: State)
    requires Ok(root, path, Top, g)
    ensures g.cn.kind != Any
  {
    hide Matches, Captured;
  }

  lemma LaterArrival(root: Node, path: string, h: State, at: string, t: string, e: State, g: State)
    requires Arrived(root, path, h, at, t, e) && |e.values| == |g.values| && g.n < Wildcards(at)
    requires forall j :: g.n < j < |g.values| ==> e.values[j] == g.values[j]
    ensures Arrived(root, path, h, at, t, g)
  {
    hide Ok;
  }

  /** Where the path leads to, the search arrives, if there are values enough; otherwise it is short. */
  lemma {:induction false} Arrives(root: Node, path: string, g: State, p: string, t: string) returns (h: State)
    requires Ok(root, path, Top, g) && g.straight && LeadsTo(g.cn, p, g.search, t)
    ensures |g.cn.prefix| <= |g.at|
    ensures var at := Above(g.at, g.cn) + p;
      if Wildcards(at) <= |g.values| then
        Arrived(root, path, h, at, t, g) && Outcome(root, path, Top, g) == Outcome(root, path, Top, h)
      else Outcome(root, path, Top, g).Full?
    decreases g.cn
  {
    hide Ok, Kinds, Radix, TreeOk, Matches, Wildcards, Outcome, KindIndex, ChildIndex, FirstChild, NoStatic, Next,
      LeadsTo,
      Arrived;
    h := g;
    OkAtNode(root, path, Top, g);
    LeadsToPrefix(g.cn, p, g.search, t);
    PatternParts(Above(g.at, g.cn), g.cn.prefix, p);
    var rest := p[|g.cn.prefix|..];
    if rest == "" {
      assert g.at + rest == g.at && p == g.cn.prefix;
      HereAlready(root, path, g, t);
    } else {
      LeadsToNext(g.cn, p, g.search, t);
      var i := ChildIndex(g.cn.children, rest[0]);
      if Child(g, i).kind == Static {
        StaticFits(root, path, g, rest[0], Rest(g.cn, g.search)[0], i);
        GoStatic(root, path, g, i);
        var s := EnterStatic(Consume(g), i);
        h := Arrives(root, path, s, rest, t);
        AboveChild(g.at, s.cn);
        SameArrival(root, path, h, g.at + rest, t, s, g);
      } else {
        GoBranch(root, path, g);
        var b := Consume(g);
        ConsumeIs(g);
        LeadsWild(g.cn, Above(g.at, g.cn), rest[0], i);
        SomeWildcard(rest);
        OkAtNode(root, path, Branch, b);
        if b.n < |b.values| {
          var k := SegmentEnd(b.search, 0);
          FollowParam(root, path, b, i, k);
          var e := EnterParam(b, i, k);
          h := Arrives(root, path, e, rest, t);
          AboveChild(g.at, Child(b, i));
          LaterArrivalIf(root, path, h, g.at + rest, t, e, g);
        } else {
          NoRoom(root, path, b);
        }
      }
    }
  }

  lemma LeadsToPrefix(n: Node, p: string, s: string, t: string)
    requires LeadsTo(n, p, s, t)
    ensures n.prefix <= p && (n.kind == Param || n.prefix <= s)
  {
  }

  lemma SameArrival(root: Node, path: string, h: State, at: string, t: string, s: State, g: State)
    requires Wildcards(at) <= |s.values| ==> Arrived(root, path, h, at, t, s)
    requires s.values == g.values
    ensures Wildcards(at) <= |g.values| ==> Arrived(root, path, h, at, t, g)
  {
    hide Ok;
  }

  lemma LaterArrivalIf(root: Node, path: string, h: State, at: string, t: string, e: State, g: State)
    requires Wildcards(at) <= |e.values| ==> Arrived(root, path, h, at, t, e)
    requires |e.values| == |g.values| && g.n < Wildcards(at)
    requires forall j :: g.n < j < |g.values| ==> e.values[j] == g.values[j]
    ensures Wildcards(at) <= |g.values| ==> Arrived(root, path, h, at, t, g)
  {
    hide Ok, Wildcards;
    if Wildcards(at) <= |g.values| {
      LaterArrival(root, path, h, at, t, e, g);
    }
  }

  // ----- coming back ------------------------------------------------------------------------------------------

  /** The search is back at the saved point, with no more values than before. */
  ghost predicate BackFrom(root: Node, path: string, h: State, g: State) {
    && g.nn.Some? && Ok(root, path, Resume(g.nk), h)
    && h.cn == g.nn.value && h.at == g.savedAt && h.search == g.ns && h.done == g.savedDone && h.nk == g.nk
    && h.n == g.n && h.values == g.values && h.back
  }

  /** Where nothing takes the rest of the path the search comes back to the saved point. */
  lemma {:induction false} ComesBack(root: Node, path: string, g: State) returns (h: State)
    requires Ok(root, path, Top, g) && g.nn.Some? && Fails(g.cn, g.search)
    ensures BackFrom(root, path, h, g) && Outcome(root, path, Top, g) == Outcome(root, path, Resume(g.nk), h)
    decreases g.cn
  {
    hide Ok, Outcome, KindIndex, FirstChild, Next;
    if g.cn.kind != Param && !(g.cn.prefix <= g.search) {
      h := Return(g);
      MismatchReturns(root, path, g);
    } else {
      ConsumeIs(g);
      var u := Rest(g.cn, g.search);
      var i := StaticChild(g.cn, u[0]);
      if i < |g.cn.children| {
        GoStatic(root, path, g, i);
        h := ComesBack(root, path, EnterStatic(Consume(g), i));
      } else {
        GoBranch(root, path, g);
        h := ReturnOnce(Consume(g));
        LeafReturns(root, path, Consume(g));
      }
    }
  }

  lemma MismatchReturns(root: Node, path: string, g: State)
    requires Ok(root, path, Top, g) && g.nn.Some? && g.cn.kind != Param && !(g.cn.prefix <= g.search) && g.search != ""
    ensures var h := Return(g);
      Ok(root, path, Resume(g.nk), h) && Outcome(root, path, Top, g) == Outcome(root, path, Resume(g.nk), h)
  {
    hide Ok;
    OutcomeNext(root, path, Top, g, Resume(g.nk), Return(g));
  }

  lemma LeafReturns(root: Node, path: string, b: State)
    requires Ok(root, path, Branch, b) && b.nn.Some?
    requires KindIndex(b.cn.children, Param) == KindIndex(b.cn.children, Any) == |b.cn.children|
    ensures var h := ReturnOnce(b);
      Ok(root, path, Resume(b.nk), h) && Outcome(root, path, Branch, b) == Outcome(root, path, Resume(b.nk), h)
  {
    hide Ok;
    OutcomeNext(root, path, Branch, b, Wild, b);
    OutcomeNext(root, path, Wild, b, Resume(b.nk), ReturnOnce(b));
  }

  /** Behind the text of a node that begins with a slash, when no static child takes the rest: the
      parameter child is next, with the values as they were. */
  lemma AfterStatic(root: Node, path: string, g: State) returns (b: State)
    requires Ok(root, path, Top, g) && (g.cn.kind == Param || g.cn.prefix <= g.search) && g.cn.tag == '/'
    requires Rest(g.cn, g.search) != "" && StaticFails(g.cn, Rest(g.cn, g.search))
    ensures Ok(root, path, Branch, b) && Outcome(root, path, Top, g) == Outcome(root, path, Branch, b)
    ensures b.cn == g.cn && b.at == g.at && b.search == Rest(g.cn, g.search) && b.done == Consume(g).done
    ensures b.n == g.n && b.values == g.values
  {
    hide Ok, Outcome, FirstChild, Fails;
    var i := StaticChild(g.cn, Rest(g.cn, g.search)[0]);
    ConsumeIs(g);
    if i < |g.cn.children| {
      GoStatic(root, path, g, i);
      b := ComesBack(root, path, EnterStatic(Consume(g), i));
    } else {
      GoBranch(root, path, g);
      b := Consume(g);
    }
  }

  /** When the parameter child does not take the rest either, the star is next; one value is taken. */
  lemma AfterParam(root: Node, path: string, b: State) returns (w: State)
    requires Ok(root, path, Branch, b) && b.cn.tag == '/' && ParamFails(b.cn, b.search) && b.n < |b.values|
    ensures Ok(root, path, Wild, w) && Outcome(root, path, Branch, b) == Outcome(root, path, Wild, w)
    ensures w.cn == b.cn && w.at == b.at && w.search == b.search && w.done == b.done
    ensures |w.values| == |b.values| && forall j :: 0 <= j < |b.values| && j != b.n ==> w.values[j] == b.values[j]
  {
    hide Ok, Outcome, Fails, KindIndex;
    var i := KindIndex(b.cn.children, Param);
    if i < |b.cn.children| {
      var k := SegmentEnd(b.search, 0);
      FollowParam(root, path, b, i, k);
      w := ComesBack(root, path, EnterParam(b, i, k));
    } else {
      w := b;
      OutcomeNext(root, path, Branch, b, Wild, b);
    }
  }

  // ----- what is found after coming back ------------------------------------------------------------------------

  /** What is known of the search that has arrived at a node. */
  lemma ArrivedFacts(root: Node, path: string, h: State, p: string, t: string, g: State)
    requires Arrived(root, path, h, p, t, g) && t != "" && Lookup(root, p) == Some(h.cn) && h.cn.kind == Static
    ensures h.n == Wildcards(p) <= |h.values|
    ensures Fill(p, h.values) == Consume(h).done && Consume(h).done + t == path && Matches(p, Consume(h).done)
    ensures TreeOk(root) && At(root, p, h.cn)
  {
    hide EndOk, Matches, Fill, Wildcards, TreeOk, Lookup;
    ConsumeOk(root, path, h);
    ConsumeIs(h);
    var b := Consume(h);
    PositionParts(root, path, Branch, b, p);
  }

  lemma ArrivedAt(root: Node, path: string, h: State, p: string, t: string, g: State)
    requires Arrived(root, path, h, p, t, g)
    ensures Lookup(root, p) == Some(h.cn) && Ok(root, path, Top, h) && h.at == p
    ensures h.cn.kind == Param || h.cn.prefix <= h.search
    ensures Rest(h.cn, h.search) == t && |h.values| == |g.values|
    ensures forall i :: Wildcards(p) <= i < |g.values| ==> h.values[i] == g.values[i]
    ensures h.cn.tag == '/' ==> h.cn.kind == Static
  {
    hide Ok, TreeOk, Lookup, Wildcards;
    OkTree(root, path, Top, h);
    OkParts(root, path, Top, h);
    SlashIsStatic(root, path, h);
  }

  lemma SlashIsStatic(root: Node, path: string, h: State)
    requires Ok(root, path, Top, h)
    ensures h.cn.tag == '/' ==> h.cn.kind == Static
  {
    hide Ok;
    OkParts(root, path, Top, h);
    NotAny(root, path, h);
  }

  /** The star of a node takes the rest of the path. */
  lemma StarTakes(root: Node, path: string, w: State, p: string, values: seq<string>) returns (i: nat)
    requires Ok(root, path, Wild, w) && w.at == p && At(root, p, w.cn) && Lookup(root, p + "*").Some?
    requires |values| == |w.values| && Wildcards(p) <= |values| && w.done + w.search == path
    requires forall j :: 0 <= j < Wildcards(p) ==> w.values[j] == values[j]
    requires Fill(p, values) == w.done
    ensures i < |w.cn.children| && Child(w, i).kind == Any && Wildcards(p + "*") == Wildcards(p) + 1
    ensures if Wildcards(p) < |values| then
              && 0 < |Child(w, i).pnames| == Wildcards(p) + 1
              && Outcome(root, path, Wild, w) == Reach(EnterAny(w, i))
              && EnterAny(w, i).at == p + "*" && EnterAny(w, i).values == w.values[Wildcards(p) := w.search]
              && Fill(p + "*", EnterAny(w, i).values) == path
            else Outcome(root, path, Wild, w) == Panic
  {
    hide Ok, TreeOk, Lookup, Wildcards, Fill, KindIndex;
    OkTree(root, path, Wild, w);
    StarBelow(root, p, w.cn);
    i := KindIndex(w.cn.children, Any);
    AnyChild(root, w, i);
    WildcardsConcat(p, "*");
    OneStar();
    OutcomeStops(root, path, Wild, w);
    if Wildcards(p) < |values| {
      FillWildcard(p, '*', w.values, w.search);
      assert w.values[..Wildcards(p)] == values[..Wildcards(p)];
      FillAgrees(p, w.values, values);
    }
  }

  /** A request that leads to a node beginning with a slash whose static and parameter children fail on
      the rest is answered by its star, which captures the rest, if and only if there are values
      enough. */
  lemma StarIsFound(root: Node, path: string, values: seq<string>, verb: string, p: string, t: string)
    requires TreeOk(root) && path != "" && FallsToStar(root, path, p, t) && HandlerAt(root, verb, p + "*").Some?
    ensures var a := Answered(root, path, values, verb);
      if Wildcards(p) < |values| then
        && a.Found? && a.g.at == p + "*" && |a.g.values| == |values|
        && Wildcards(p + "*") == Wildcards(p) + 1
        && a.g.values[Wildcards(p)] == t && Fill(p + "*", a.g.values) == path
        && a.g.cn.FindHandler(verb) == HandlerAt(root, verb, p + "*")
      else a.Short?
  {
    hide Ok, EndOk, TreeOk, Lookup, Matches, Wildcards, Fill, LeadsTo, Fails, HandlerAt, KindIndex, Arrived, Outcome;
    StartOk(root, path, values);
    RootIsStatic(root);
    var g := Start(root, path, values);
    var h := Arrives(root, path, g, p, t);
    assert "" + p == p;
    if Wildcards(p) <= |values| {
      ArrivedAt(root, path, h, p, t, g);
      ArrivedFacts(root, path, h, p, t, g);
      ConsumeIs(h);
      var b := AfterStatic(root, path, h);
      HandlerIsNode(root, verb, p + "*");
      StarAfter(root, path, h, b, p, t, verb);
    }
  }

  lemma HandlerIsNode(root: Node, verb: string, q: string)
    requires HandlerAt(root, verb, q).Some?
    ensures Lookup(root, q).Some?
  {
  }

  lemma StarAfter(root: Node, path: string, h: State, b: State, p: string, t: string, verb: string)
    requires Ok(root, path, Branch, b) && TreeOk(root) && At(root, p, b.cn) && b.at == p && b.cn.tag == '/'
    requires b.search == t != "" && ParamFails(b.cn, t) && Lookup(root, p + "*").Some?
    requires b.n == Wildcards(p) <= |b.values| && b.values == h.values
    requires Fill(p, b.values) == b.done && b.done + t == path && HandlerAt(root, verb, p + "*").Some?
    ensures var m := Outcome(root, path, Branch, b);
      if Wildcards(p) < |b.values| then
        && m.Reach? && m.g.at == p + "*" && |m.g.values| == |b.values| && Wildcards(p + "*") == Wildcards(p) + 1
        && m.g.values[Wildcards(p)] == t && Fill(p + "*", m.g.values) == path
        && m.g.cn.FindHandler(verb) == HandlerAt(root, verb, p + "*")
      else m.Full? || m.Panic?
  {
    hide Ok, TreeOk, Lookup, Wildcards, Fill, Fails, HandlerAt, KindIndex, Outcome, EndOk, EnterAny;
    if b.n < |b.values| {
      var w := AfterParam(root, path, b);
      var i := StarTakes(root, path, w, p, b.values);
      EndFacts(root, path, EnterAny(w, i), verb);
    } else if KindIndex(b.cn.children, Param) < |b.cn.children| {
      NoRoom(root, path, b);
    } else {
      OutcomeNext(root, path, Branch, b, Wild, b);
      var i := StarTakes(root, path, b, p, b.values);
    }
  }

  // ----- the parameter after a static sibling ------------------------------------------------------------------

  /** The moves of the search do not depend on whether it has gone back before. */
  predicate Alike(m: Move, k: Move) {
    match m
    case Go(q, g) => k.Go? && k.pc == q && k.g == g.(straight := k.g.straight)
    case Reach(g) => k.Reach? && k.g == g.(straight := k.g.straight)
    case Full(g) => k.Full? && k.g == g.(straight := k.g.straight)
    case Miss => k.Miss?
    case Panic => k.Panic?
  }

  lemma NextAlike(pc: Pc, g: State, h: State)
    requires h == g.(straight := h.straight)
    ensures Alike(Next(pc, g), Next(pc, h))
  {
    hide Alike, Next;
    match pc
    case Top => TopAlike(g, h);
    case Branch => BranchAlike(g, h);
    case Wild => WildAlike(g, h);
  }

  lemma TopAlike(g: State, h: State)
    requires h == g.(straight := h.straight)
    ensures Alike(Next(Top, g), Next(Top, h))
  {
    hide FirstChild;
    if g.cn.kind == Param || g.cn.prefix <= g.search {
      assert Consume(h) == Consume(g).(straight := h.straight);
      hide Consume;
    }
  }

  lemma BranchAlike(g: State, h: State)
    requires h == g.(straight := h.straight)
    ensures Alike(Next(Branch, g), Next(Branch, h))
  {
    hide KindIndex;
  }

  lemma WildAlike(g: State, h: State)
    requires h == g.(straight := h.straight)
    ensures Alike(Next(Wild, g), Next(Wild, h))
  {
    hide KindIndex;
  }

  lemma {:induction false} OutcomeAlike(root: Node, path: string, pc: Pc, g: State, h: State)
    requires Ok(root, path, pc, g) && Ok(root, path, pc, h) && h == g.(straight := h.straight)
    ensures Alike(Outcome(root, path, pc, g), Outcome(root, path, pc, h))
    decreases SavedRank(pc, g), BackRank(g), Height(g.cn), PcRank(pc)
  {
    hide Ok, Next, Outcome;
    NextAlike(pc, g, h);
    NextOk(root, path, pc, g);
    NextOk(root, path, pc, h);
    match Next(pc, g)
    case Go(q, u) =>
      var v := Next(pc, h).g;
      OutcomeNext(root, path, pc, g, q, u);
      OutcomeNext(root, path, pc, h, q, v);
      OutcomeAlike(root, path, q, u, v);
    case _ =>
      OutcomeStops(root, path, pc, g);
      OutcomeStops(root, path, pc, h);
  }

  /** A parameter entered with the values of its pattern, as if the search had never gone back. */
  lemma EnteredStraight(root: Node, path: string, b: State, i: nat, k: nat)
    requires Ok(root, path, Branch, b) && b.n < |b.values| && b.n == Wildcards(b.at) && Fill(b.at, b.values) == b.done
    requires i == KindIndex(b.cn.children, Param) < |b.cn.children| && k == SegmentEnd(b.search, 0)
    ensures Ok(root, path, Top, EnterParam(b, i, k).(straight := true))
  {
    hide Matches, Fill, Wildcards, TreeOk, At, Height, KindIndex;
    var e := EnterParam(b, i, k);
    FollowParam(root, path, b, i, k);
    OkTree(root, path, Branch, b);
    ParamChild(root, b, i);
    FillWildcard(b.at, ':', b.values, b.search[..k]);
    assert Captured(b.at + ":", e.(straight := true));
    assert Matched(Top, e) == b.at + ":";
  }

  /** A request whose static sibling fails on the rest and that follows a pattern through the parameter
      is answered by that pattern, with the values that fill it to the path, if and only if there are
      values enough. */
  lemma ParamIsFound(root: Node, path: string, values: seq<string>, verb: string, p: string, t: string, r: string)
    requires TreeOk(root) && path != "" && FallsToParam(root, path, p, t, r)
    requires HandlerAt(root, verb, p + ":" + r).Some?
    ensures var a := Answered(root, path, values, verb);
      var pattern := p + ":" + r;
      if Wildcards(pattern) <= |values| then
        && a.Found? && a.g.at == pattern && |a.g.values| == |values| && Fill(pattern, a.g.values) == path
        && a.g.cn.FindHandler(verb) == HandlerAt(root, verb, pattern)
      else a.Short?
  {
    hide Ok, EndOk, TreeOk, Lookup, Matches, Wildcards, Fill, LeadsTo, Leads, Fails, HandlerAt, KindIndex, Arrived,
      Outcome;
    StartOk(root, path, values);
    RootIsStatic(root);
    var g := Start(root, path, values);
    var h := Arrives(root, path, g, p, t);
    assert "" + p == p;
    WildcardsConcat(p, ":" + r);
    SomeWildcard(":" + r);
    assert p + (":" + r) == p + ":" + r;
    if Wildcards(p) <= |values| {
      ArrivedAt(root, path, h, p, t, g);
      ArrivedFacts(root, path, h, p, t, g);
      ConsumeIs(h);
      var b := AfterStatic(root, path, h);
      if b.n < |b.values| {
        ParamAfter(root, path, b, p, r, verb);
      } else {
        NoRoom(root, path, b);
      }
    }
  }

  lemma ParamAfter(root: Node, path: string, b: State, p: string, r: string, verb: string)
    requires Ok(root, path, Branch, b) && TreeOk(root) && At(root, p, b.cn) && b.at == p && b.search != ""
    requires b.n == Wildcards(p) < |b.values| && Fill(p, b.values) == b.done
    requires var i := KindIndex(b.cn.children, Param);
      i < |b.cn.children| && Leads(b.cn.children[i], ":" + r, b.search[SegmentEnd(b.search, 0)..])
    requires HandlerAt(root, verb, p + ":" + r).Some?
    ensures var m := Outcome(root, path, Branch, b);
      var pattern := p + ":" + r;
      if Wildcards(pattern) <= |b.values| then
        && m.Reach? && m.g.at == pattern && |m.g.values| == |b.values| && Fill(pattern, m.g.values) == path
        && m.g.cn.FindHandler(verb) == HandlerAt(root, verb, pattern)
      else m.Full? || m.Panic?
  {
    hide Ok, EndOk, TreeOk, Matches, Wildcards, Fill, Leads, HandlerAt, KindIndex, Outcome;
    var i, k := KindIndex(b.cn.children, Param), SegmentEnd(b.search, 0);
    FollowParam(root, path, b, i, k);
    EnteredStraight(root, path, b, i, k);
    var e := EnterParam(b, i, k);
    var s := e.(straight := true);
    OutcomeAlike(root, path, Top, s, e);
    Followed(root, path, s, ":" + r);
    AboveChild(p, e.cn);
    assert p + (":" + r) == p + ":" + r;
    var m := Outcome(root, path, Top, s);
    if Wildcards(p + ":" + r) <= |b.values| {
      EndFacts(root, path, m.g, verb);
    }
  }
}
