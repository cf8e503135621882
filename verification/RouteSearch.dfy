/** What a route search may rely on at each of its states, on tree values:
    patterns, captured values, positions in the tree and the measure that shrinks. */
module RouteSearch {
  import opened Options
  import opened RouteTree

  // ----- patterns -------------------------------------------------------------------

  predicate NoSlash(s: string) {
    forall i :: 0 <= i < |s| ==> s[i] != '/'
  }

  /** Index of the first slash at or after `k`, or the length. */
  function SegmentEnd(s: string, k: nat): (e: nat)
    requires k <= |s|
    ensures k <= e <= |s| && NoSlash(s[k..e]) && (e < |s| ==> s[e] == '/')
    decreases |s| - k
  {
    if k == |s| || s[k] == '/' then k
    else
      var e := SegmentEnd(s, k + 1);
      assert s[k..e] == [s[k]] + s[k + 1..e];
      e
  }

  lemma {:induction false} SegmentEndIs(s: string, k: nat, e: nat)
    requires k <= e <= |s| && NoSlash(s[k..e]) && (e < |s| ==> s[e] == '/')
    ensures SegmentEnd(s, k) == e
    decreases e - k
  {
    if k < e {
      assert s[k..e][0] == s[k];
      assert s[k + 1..e] == s[k..e][1..];
      SegmentEndIs(s, k + 1, e);
    }
  }

  /** An erased path as a pattern: `:` stands for a slash-free segment, `*` for any text. */
  ghost predicate Matches(pattern: string, s: string)
    decreases pattern
  {
    if pattern == "" then s == ""
    else
      var front, c := pattern[..|pattern| - 1], pattern[|pattern| - 1];
      if IsWildcard(c) then
        exists k :: 0 <= k <= |s| && (c == ':' ==> NoSlash(s[k..])) && Matches(front, s[..k])
      else s != "" && s[|s| - 1] == c && Matches(front, s[..|s| - 1])
  }

  lemma MatchesWildcard(p: string, s: string, c: char, t: string)
    requires Matches(p, s) && IsWildcard(c) && (c == ':' ==> NoSlash(t))
    ensures Matches(p + [c], s + t)
  {
    assert (p + [c])[..|p|] == p;
    assert (s + t)[..|s|] == s && (s + t)[|s|..] == t;
  }

  lemma {:induction false} MatchesPlain(p: string, s: string, t: string)
    requires Matches(p, s) && Plain(t)
    ensures Matches(p + t, s + t)
  {
    if t == "" {
      assert p + t == p && s + t == s;
    } else {
      var front := t[..|t| - 1];
      MatchesPlain(p, s, front);
      assert (p + t)[..|p + t| - 1] == p + front && (s + t)[..|s + t| - 1] == s + front;
    }
  }

  /** The pattern with its wildcards replaced, in order, by the given values. */
  function Fill(pattern: string, values: seq<string>): string
    requires Wildcards(pattern) <= |values|
    decreases pattern
  {
    if pattern == "" then ""
    else
      var front, c := pattern[..|pattern| - 1], pattern[|pattern| - 1];
      Fill(front, values) + (if IsWildcard(c) then values[Wildcards(front)] else [c])
  }

  lemma {:induction false} FillAgrees(p: string, vs: seq<string>, ws: seq<string>)
    requires Wildcards(p) <= |vs| && Wildcards(p) <= |ws| && vs[..Wildcards(p)] == ws[..Wildcards(p)]
    ensures Fill(p, vs) == Fill(p, ws)
  {
    if p != "" {
      var front := p[..|p| - 1];
      assert vs[..Wildcards(front)] == vs[..Wildcards(p)][..Wildcards(front)];
      assert ws[..Wildcards(front)] == ws[..Wildcards(p)][..Wildcards(front)];
      FillAgrees(front, vs, ws);
      if IsWildcard(p[|p| - 1]) {
        assert vs[Wildcards(front)] == vs[..Wildcards(p)][Wildcards(front)];
        assert ws[Wildcards(front)] == ws[..Wildcards(p)][Wildcards(front)];
      }
    }
  }

  lemma FillWildcard(p: string, c: char, values: seq<string>, v: string)
    requires IsWildcard(c) && Wildcards(p) < |values|
    ensures Wildcards(p + [c]) == Wildcards(p) + 1
    ensures Fill(p + [c], values[Wildcards(p) := v]) == Fill(p, values) + v
  {
    var ws := values[Wildcards(p) := v];
    assert (p + [c])[..|p|] == p;
    assert ws[..Wildcards(p)] == values[..Wildcards(p)];
    FillAgrees(p, values, ws);
  }

  lemma {:induction false} FillPlain(p: string, t: string, values: seq<string>)
    requires Plain(t) && Wildcards(p) <= |values|
    ensures Wildcards(p + t) == Wildcards(p)
    ensures Fill(p + t, values) == Fill(p, values) + t
  {
    if t == "" {
      assert p + t == p;
    } else {
      var front := t[..|t| - 1];
      FillPlain(p, front, values);
      assert (p + t)[..|p + t| - 1] == p + front;
      assert t == front + [t[|t| - 1]];
    }
  }

  // ----- positions in the tree ----------------------------------------------------------

  /** The text above a node that stands at `at`. */
  function Above(at: string, x: Node): string
    requires |x.prefix| <= |at|
  {
    at[..|at| - |x.prefix|]
  }

  lemma AboveConcat(p: string, s: string, x: Node)
    requires |x.prefix| <= |s| && Above(s, x) + x.prefix == s
    ensures Above(p + s, x) == p + Above(s, x) && Above(p + s, x) + x.prefix == p + s
  {
  }

  /** `x` is the node of the tree at `at`, a path from the root. */
  predicate At(root: Node, at: string, x: Node) {
    Lookup(root, at) == Some(x)
  }

  lemma LookupSelf(n: Node, path: string, x: Node)
    requires Lookup(n, path) == Some(x) && n.prefix == path
    ensures x == n && Above(path, x) == ""
  {
  }

  lemma Descend(n: Node, path: string, x: Node) returns (i: nat, rest: string)
    requires Radix(n) && Lookup(n, path) == Some(x) && n.prefix != path
    ensures i < |n.children| && path == n.prefix + rest
    ensures Lookup(n.children[i], rest) == Some(x) && Radix(n.children[i])
  {
    rest := path[|n.prefix|..];
    i := ChildIndex(n.children, rest[0]);
  }

  lemma {:induction false} LookupAbove(n: Node, path: string, x: Node)
    requires Radix(n) && Lookup(n, path) == Some(x)
    ensures |x.prefix| <= |path| && Above(path, x) + x.prefix == path && Radix(x)
    decreases n
  {
    hide Lookup, Radix;
    if n.prefix == path {
      LookupSelf(n, path, x);
    } else {
      var i, rest := Descend(n, path, x);
      LookupAbove(n.children[i], rest, x);
      AboveConcat(n.prefix, rest, x);
    }
  }

  lemma KindsBelow(n: Node, base: string, i: nat)
    requires Kinds(n, base) && i < |n.children|
    ensures Kinds(n.children[i], base + n.prefix)
  {
  }

  lemma AboveBase(n: Node, base: string, path: string, x: Node)
    requires Kinds(n, base) && Lookup(n, path) == Some(x) && n.prefix == path
    ensures Kinds(x, base + Above(path, x))
  {
    assert base + Above(path, x) == base;
  }

  lemma {:induction false} LookupKinds(n: Node, base: string, path: string, x: Node)
    requires Radix(n) && Kinds(n, base) && Lookup(n, path) == Some(x)
    ensures |x.prefix| <= |path| && Kinds(x, base + Above(path, x))
    decreases n
  {
    hide Lookup, Radix, Kinds;
    LookupAbove(n, path, x);
    if n.prefix == path {
      AboveBase(n, base, path, x);
    } else {
      var i, rest := Descend(n, path, x);
      var c := n.children[i];
      KindsBelow(n, base, i);
      LookupAbove(c, rest, x);
      LookupKinds(c, base + n.prefix, rest, x);
      AboveConcat(n.prefix, rest, x);
      assert base + n.prefix + Above(rest, x) == base + Above(path, x);
    }
  }

  lemma {:induction false} LookupChild(n: Node, path: string, i: nat)
    requires Radix(n) && Lookup(n, path).Some?
    requires var x := Lookup(n, path).value; i < |x.children| && Radix(x)
    ensures var x := Lookup(n, path).value; Lookup(n, path + x.children[i].prefix) == Some(x.children[i])
    decreases n
  {
    var x := Lookup(n, path).value;
    var c := x.children[i];
    assert Radix(c);
    if n.prefix == path {
      LookupDown(n, c.prefix);
      ChildIndexUnique(n.children, i);
    } else {
      var rest := path[|n.prefix|..];
      assert path + c.prefix == n.prefix + (rest + c.prefix);
      LookupDown(n, rest + c.prefix);
      LookupChild(n.children[ChildIndex(n.children, rest[0])], rest, i);
    }
  }

  /** What is known of a node of a well-formed tree. */
  lemma AtNode(root: Node, at: string, x: Node)
    requires TreeOk(root) && At(root, at, x)
    ensures |x.prefix| <= |at| && Above(at, x) + x.prefix == at
    ensures OneKind(x.prefix, x.kind) && Kinds(x, Above(at, x))
    ensures root != EMPTY ==> Radix(x)
    ensures root == EMPTY ==> x == EMPTY
    ensures x.tag == ':' <==> x.kind == Param
  {
    if root != EMPTY {
      LookupAbove(root, at, x);
      LookupKinds(root, "", at, x);
      assert "" + Above(at, x) == Above(at, x);
    }
  }

  lemma AtChild(root: Node, at: string, x: Node, i: nat)
    requires TreeOk(root) && At(root, at, x) && i < |x.children|
    ensures At(root, at + x.children[i].prefix, x.children[i])
    ensures Above(at + x.children[i].prefix, x.children[i]) == at
  {
    AtNode(root, at, x);
    LookupChild(root, at, i);
  }

  // ----- sizes ----------------------------------------------------------------------------

  function Height(n: Node): (h: nat)
    ensures forall i :: 0 <= i < |n.children| ==> Height(n.children[i]) < h
    decreases n, |n.children|
  {
    1 + MaxHeight(n, |n.children|)
  }

  function MaxHeight(n: Node, k: nat): (h: nat)
    requires k <= |n.children|
    ensures forall i :: 0 <= i < k ==> Height(n.children[i]) <= h
    decreases n, k, 0
  {
    if k == 0 then 0
    else
      var a, b := MaxHeight(n, k - 1), Height(n.children[k - 1]);
      if a < b then b else a
  }

  function KindIndex(cs: seq<Node>, kind: Kind): (i: nat)
    ensures i <= |cs|
    ensures i < |cs| ==> cs[i].kind == kind
    ensures forall j :: 0 <= j < i ==> cs[j].kind != kind
  {
    var i := FirstChild(cs, OfKind(kind));
    assert forall j :: 0 <= j < i ==> !OfKind(kind).Is(cs[j]);
    i
  }

  // ----- states of the search -----------------------------------------------------------------

  /** Where the search stands: before a node's own text, at the choice of a parameter child
      and at the choice of a wildcard child. */
  datatype Pc = Top | Branch | Wild

  /** The search variables, the text already matched, and the one saved point with its own. */
  datatype State = State(
    cn: Node, at: string, search: string, done: string, n: nat, values: seq<string>,
    nn: Option<Node>, savedAt: string, ns: string, savedDone: string, nk: Kind,
    back: bool, straight: bool)

  /** The pattern matched so far: the node's own text is not part of it before a static node. */
  function Matched(pc: Pc, g: State): string {
    if pc == Top && g.cn.kind != Param && |g.cn.prefix| <= |g.at| then Above(g.at, g.cn) else g.at
  }

  /** The text matched so far is spelled by the pattern with the captured values. */
  predicate Captured(pattern: string, g: State) {
    g.straight ==>
      g.n == Wildcards(pattern) && g.n <= |g.values| && Fill(pattern, g.values) == g.done
  }

  ghost predicate SavedOk(root: Node, path: string, g: State) {
    g.nn.Some? ==>
      && At(root, g.savedAt, g.nn.value) && Matches(g.savedAt, g.savedDone)
      && g.savedDone + g.ns == path && g.ns != ""
      && g.nn.value.tag == '/' && g.nk != Static
      && (if g.back then g.cn == g.nn.value else Height(g.cn) < Height(g.nn.value))
  }

  /** The text consumed so far matches the pattern down to the node. */
  ghost predicate Position(root: Node, path: string, pc: Pc, g: State) {
    && TreeOk(root) && At(root, g.at, g.cn)
    && g.done + g.search == path
    && Matches(Matched(pc, g), g.done) && Captured(Matched(pc, g), g)
  }

  /** The control variables agree with the state. */
  predicate Control(pc: Pc, g: State) {
    && g.n <= |g.values|
    && (g.straight ==> !g.back)
    && (g.back ==> g.cn.tag == '/')
    && (!g.back && g.nn.None? && pc != Wild ==> g.nk == Static)
    && (g.back && g.nn.Some? && pc == Branch ==> g.nk == Param)
    && (if pc == Top then !g.back && g.cn.kind != Any && (g.search == "" ==> g.cn.kind == Param)
        else g.search != "")
  }

  ghost predicate Ok(root: Node, path: string, pc: Pc, g: State) {
    Position(root, path, pc, g) && SavedOk(root, path, g) && Control(pc, g)
  }

  /** The search has consumed the whole path at its node. */
  ghost predicate EndOk(root: Node, path: string, g: State) {
    && TreeOk(root) && At(root, g.at, g.cn)
    && g.done == path && Matches(g.at, path) && Captured(g.at, g)
  }

  // The measure of a state: four numbers, compared in order.

  function SavedRank(pc: Pc, g: State): nat {
    match g.nn
    case Some(x) => 4 * Height(x) + (if g.nk == Param then 2 else 1)
    case None =>
      4 * Height(g.cn) + (match pc
                          case Top => 4
                          case Branch => if g.back then 2 else 3
                          case Wild => 1)
  }

  function BackRank(g: State): nat { if g.nn.None? then 0 else if g.back then 1 else 2 }

  function PcRank(pc: Pc): nat { match pc case Top => 2 case Branch => 1 case Wild => 0 }

  predicate Smaller(pc': Pc, g': State, pc: Pc, g: State) {
    || SavedRank(pc', g') < SavedRank(pc, g)
    || (SavedRank(pc', g') == SavedRank(pc, g)
        && (|| BackRank(g') < BackRank(g)
            || (BackRank(g') == BackRank(g)
                && (|| Height(g'.cn) < Height(g.cn)
                    || (Height(g'.cn) == Height(g.cn) && PcRank(pc') < PcRank(pc))))))
  }

  // ----- the moves of the search -------------------------------------------------------------------

  function Start(root: Node, path: string, values: seq<string>): State {
    State(root, root.prefix, path, "", 0, values, None, "", "", "", Static, false, true)
  }

  lemma StartOk(root: Node, path: string, values: seq<string>)
    requires TreeOk(root) && path != ""
    ensures Ok(root, path, Top, Start(root, path, values))
  {
    RootIsStatic(root);
    NothingMatched(values);
    hide TreeOk, At, Above, Matches, Fill, Wildcards, Height;
    assert "" + path == path;
  }

  lemma RootIsStatic(root: Node)
    requires TreeOk(root)
    ensures root.kind == Static && At(root, root.prefix, root) && Above(root.prefix, root) == ""
  {
    assert root != EMPTY ==> OneKind(root.prefix, root.kind) && root.prefix[0] == '/';
  }

  lemma NothingMatched(values: seq<string>)
    ensures Matches("", "") && Wildcards("") == 0 && Fill("", values) == ""
  {
  }

  /** Drops the node's own text from the remaining path. */
  function Consume(g: State): State
    requires g.cn.kind == Param || |g.cn.prefix| <= |g.search|
  {
    if g.cn.kind == Param then g
    else g.(search := g.search[|g.cn.prefix|..], done := g.done + g.cn.prefix)
  }

  lemma PositionParts(root: Node, path: string, pc: Pc, g: State, pattern: string)
    requires Matched(pc, g) == pattern
    ensures Position(root, path, pc, g) <==>
      && TreeOk(root) && At(root, g.at, g.cn) && g.done + g.search == path
      && Matches(pattern, g.done) && Captured(pattern, g)
  {
    hide Matches, Captured, TreeOk, At;
  }

  lemma MatchedIs(root: Node, pc: Pc, g: State)
    requires TreeOk(root) && At(root, g.at, g.cn)
    ensures |g.cn.prefix| <= |g.at| && g.at == Above(g.at, g.cn) + g.cn.prefix
    ensures Matched(pc, g) == if pc == Top && g.cn.kind != Param then Above(g.at, g.cn) else g.at
    ensures OneKind(g.cn.prefix, g.cn.kind)
  {
    AtNode(root, g.at, g.cn);
  }

  lemma ConsumeStatic(root: Node, path: string, g: State, above: string)
    requires TreeOk(root) && At(root, g.at, g.cn) && g.done + g.search == path
    requires Matches(above, g.done) && Captured(above, g) && g.n <= |g.values|
    requires g.cn.kind != Param && Plain(g.cn.prefix) && g.cn.prefix <= g.search
    requires g.at == above + g.cn.prefix
    ensures Position(root, path, Branch, Consume(g))
  {
    hide Captured, Matches, TreeOk, At, Plain;
    assert g.search == g.cn.prefix + Consume(g).search;
    MatchesPlain(above, g.done, g.cn.prefix);
    ConsumeCaptured(above, g);
  }

  lemma ConsumePosition(root: Node, path: string, g: State)
    requires Position(root, path, Top, g) && (g.cn.kind == Param || g.cn.prefix <= g.search)
    requires g.cn.kind != Any && g.n <= |g.values|
    ensures Position(root, path, Branch, Consume(g))
  {
    hide Captured, Matches, TreeOk, At, Plain;
    if g.cn.kind != Param {
      MatchedIs(root, Top, g);
      ConsumeStatic(root, path, g, Above(g.at, g.cn));
    }
  }

  lemma ConsumeCaptured(above: string, g: State)
    requires Captured(above, g) && g.cn.kind != Param && |g.cn.prefix| <= |g.search|
    requires g.n <= |g.values| && Plain(g.cn.prefix)
    ensures Captured(above + g.cn.prefix, Consume(g))
  {
    if g.straight {
      FillPlain(above, g.cn.prefix, g.values);
    }
  }

  lemma ConsumeOk(root: Node, path: string, g: State)
    requires Ok(root, path, Top, g) && (g.cn.kind == Param || g.cn.prefix <= g.search)
    ensures var h := Consume(g); if h.search == "" then EndOk(root, path, h) else Ok(root, path, Branch, h)
  {
    hide Captured, Matches, TreeOk, At, Height;
    ConsumePosition(root, path, g);
    var h := Consume(g);
    assert h.search == "" ==> h.done == h.done + h.search;
  }

  lemma ConsumeSmaller(g: State)
    requires (g.cn.kind == Param || |g.cn.prefix| <= |g.search|)
    ensures Smaller(Branch, Consume(g), Top, g)
  {
  }

  function Child(g: State, i: nat): Node
    requires i < |g.cn.children|
  {
    g.cn.children[i]
  }

  /** Saves the node as the point to come back to, if it stands right after a slash. */
  function Save(g: State, nk: Kind): State {
    if g.cn.tag == '/' then g.(nn := Some(g.cn), savedAt := g.at, ns := g.search, savedDone := g.done, nk := nk) else g
  }

  /** Enters a static child; coming back means trying the parameter child. */
  function EnterStatic(g: State, i: nat): State
    requires i < |g.cn.children|
  {
    Save(g, Param).(cn := Child(g, i), at := g.at + Child(g, i).prefix, back := false)
  }

  /** Entering a child makes the measure smaller: a new saved point is lower in the tree
      than the old one, or the node itself is lower. */
  lemma EnterSmaller(g: State, h: State, nk: Kind, i: nat)
    requires !g.back && g.nn.Some? ==> Height(g.cn) < Height(g.nn.value)
    requires g.back ==> g.cn.tag == '/' && nk == Any && (g.nn.Some? ==> g.nk == Param && g.nn.value == g.cn)
    requires i < |g.cn.children| && h.cn == Child(g, i) && !h.back && nk != Static
    requires h.nn == Save(g, nk).nn && h.nk == Save(g, nk).nk
    ensures Smaller(Top, h, Branch, g)
  {
    hide Height;
    HeightOfChild(g.cn, i);
  }

  lemma HeightOfChild(x: Node, i: nat)
    requires i < |x.children|
    ensures Height(x.children[i]) < Height(x)
  {
  }

  lemma EnterStaticOk(root: Node, path: string, g: State, i: nat)
    requires Ok(root, path, Branch, g) && !g.back
    requires i < |g.cn.children| && Child(g, i).kind == Static
    ensures Ok(root, path, Top, EnterStatic(g, i)) && Smaller(Top, EnterStatic(g, i), Branch, g)
  {
    hide Matches, Captured, TreeOk, At, Height, Smaller;
    var h := EnterStatic(g, i);
    AtChild(root, g.at, g.cn, i);
    HeightOfChild(g.cn, i);
    EnterSmaller(g, h, Param, i);
    assert Captured(g.at, h) by { SameCaptured(g.at, g, h); }
  }

  lemma SameCaptured(pattern: string, g: State, h: State)
    requires Captured(pattern, g) && (h.straight ==> g.straight)
    requires h.n == g.n && h.values == g.values && h.done == g.done
    ensures Captured(pattern, h)
  {
  }

  /** Enters the parameter child; coming back means trying the wildcard child. */
  function EnterParam(g: State, i: nat, k: nat): State
    requires i < |g.cn.children| && k <= |g.search| && g.n < |g.values|
  {
    Save(g, Any).(cn := Child(g, i), at := g.at + Child(g, i).prefix, back := false,
      search := g.search[k..], done := g.done + g.search[..k],
      n := g.n + 1, values := g.values[g.n := g.search[..k]])
  }

  lemma EnterParamPosition(root: Node, path: string, g: State, i: nat, k: nat)
    requires Position(root, path, Branch, g) && g.n < |g.values|
    requires i < |g.cn.children| && Child(g, i).kind == Param
    requires k <= |g.search| && NoSlash(g.search[..k])
    ensures Position(root, path, Top, EnterParam(g, i, k))
  {
    hide Captured, Matches, TreeOk, At, Position, NoSlash, Radix, Kinds, Lookup;
    var h := EnterParam(g, i, k);
    PositionParts(root, path, Branch, g, g.at);
    AtChild(root, g.at, g.cn, i);
    ParamChild(root, g, i);
    PositionParts(root, path, Top, h, g.at + ":");
    assert g.search == g.search[..k] + g.search[k..];
    MatchesWildcard(g.at, g.done, ':', g.search[..k]);
    ParamCaptured(g, i, k);
  }

  lemma ParamChild(root: Node, g: State, i: nat)
    requires TreeOk(root) && At(root, g.at, g.cn) && i < |g.cn.children| && Child(g, i).kind == Param
    ensures Child(g, i).prefix == ":"
  {
    AtChild(root, g.at, g.cn, i);
    AtNode(root, g.at + Child(g, i).prefix, Child(g, i));
  }

  lemma EnterParamOk(root: Node, path: string, g: State, i: nat, k: nat)
    requires Ok(root, path, Branch, g)
    requires i == KindIndex(g.cn.children, Param) < |g.cn.children|
    requires k <= |g.search| && NoSlash(g.search[..k]) && g.n < |g.values|
    ensures Ok(root, path, Top, EnterParam(g, i, k)) && Smaller(Top, EnterParam(g, i, k), Branch, g)
  {
    hide Matches, Captured, TreeOk, At, Height, Smaller, Position, NoSlash;
    EnterParamPosition(root, path, g, i, k);
    HeightOfChild(g.cn, i);
    EnterSmaller(g, EnterParam(g, i, k), Any, i);
    assert At(root, g.at, g.cn) && Matches(g.at, g.done) && g.done + g.search == path by {
      PositionParts(root, path, Branch, g, g.at);
    }
  }

  lemma ParamCaptured(g: State, i: nat, k: nat)
    requires i < |g.cn.children| && k <= |g.search| && g.n < |g.values| && Captured(g.at, g)
    ensures Captured(g.at + ":", EnterParam(g, i, k))
  {
    if g.straight {
      FillWildcard(g.at, ':', g.values, g.search[..k]);
    }
  }

  lemma NoParamOk(root: Node, path: string, g: State)
    requires Ok(root, path, Branch, g)
    ensures Ok(root, path, Wild, g) && Smaller(Wild, g, Branch, g)
  {
    hide Matches, Captured, TreeOk, At, Height;
  }

  /** Takes the wildcard child, which consumes the rest of the path. */
  function EnterAny(g: State, i: nat): State
    requires i < |g.cn.children| && 0 < |Child(g, i).pnames| <= |g.values|
  {
    g.(cn := Child(g, i), at := g.at + Child(g, i).prefix, back := false, search := "", done := g.done + g.search,
       n := g.n + 1, values := g.values[|Child(g, i).pnames| - 1 := g.search])
  }

  lemma AnyChild(root: Node, g: State, i: nat)
    requires TreeOk(root) && At(root, g.at, g.cn) && i < |g.cn.children| && Child(g, i).kind == Any
    ensures Child(g, i).prefix == "*" && |Child(g, i).pnames| == Wildcards(g.at) + 1
  {
    var c := Child(g, i);
    AtChild(root, g.at, g.cn, i);
    AtNode(root, g.at + c.prefix, c);
    WildcardsConcat(g.at, "*");
    assert Wildcards("*") == 1;
  }

  lemma EnterAnyOk(root: Node, path: string, g: State, i: nat)
    requires Ok(root, path, Wild, g) && i < |g.cn.children| && Child(g, i).kind == Any
    requires |Child(g, i).pnames| <= |g.values|
    ensures 0 < |Child(g, i).pnames| && EndOk(root, path, EnterAny(g, i))
  {
    hide Matches, Fill, TreeOk, At, Height, Wildcards;
    AnyChild(root, g, i);
    AtChild(root, g.at, g.cn, i);
    MatchesWildcard(g.at, g.done, '*', g.search);
    if g.straight {
      FillWildcard(g.at, '*', g.values, g.search);
    }
  }

  /** Goes back to the saved node, which stays saved. */
  function Return(g: State): State
    requires g.nn.Some?
  {
    g.(cn := g.nn.value, at := g.savedAt, search := g.ns, done := g.savedDone, back := true, straight := false)
  }

  function Resume(nk: Kind): Pc { if nk == Param then Branch else Wild }

  lemma ReturnOk(root: Node, path: string, g: State)
    requires Ok(root, path, Top, g) && g.nn.Some?
    ensures Ok(root, path, Resume(g.nk), Return(g)) && Smaller(Resume(g.nk), Return(g), Top, g)
  {
    hide Matches;
  }

  /** Goes back to the saved node and forgets it. */
  function ReturnOnce(g: State): State
    requires g.nn.Some?
  {
    Return(g).(nn := None)
  }

  lemma ReturnOnceOk(root: Node, path: string, g: State)
    requires Ok(root, path, Wild, g) && g.nn.Some?
    ensures Ok(root, path, Resume(g.nk), ReturnOnce(g)) && Smaller(Resume(g.nk), ReturnOnce(g), Wild, g)
  {
    hide Matches;
  }

  /** A node without a handler answers with its wildcard child, which captures nothing. */
  function EnterEmptyAny(g: State, i: nat): State
    requires i < |g.cn.children| && 0 < |Child(g, i).pnames| <= |g.values|
  {
    g.(cn := Child(g, i), at := g.at + Child(g, i).prefix, back := false, n := g.n + 1,
       values := g.values[|Child(g, i).pnames| - 1 := ""])
  }

  lemma EmptyAnyOk(root: Node, path: string, g: State, i: nat)
    requires EndOk(root, path, g) && i < |g.cn.children| && Child(g, i).kind == Any
    requires |Child(g, i).pnames| <= |g.values|
    ensures 0 < |Child(g, i).pnames| && EndOk(root, path, EnterEmptyAny(g, i))
  {
    hide Matches, Fill, TreeOk, At, Wildcards;
    AnyChild(root, g, i);
    AtChild(root, g.at, g.cn, i);
    MatchesWildcard(g.at, g.done, '*', "");
    assert g.done + "" == g.done;
    if g.straight {
      FillWildcard(g.at, '*', g.values, "");
    }
  }

  /** No node names more parameters than there is room for. */
  predicate NamesWithin(n: Node, room: nat)
    decreases n
  {
    |n.pnames| <= room && forall i :: 0 <= i < |n.children| ==> NamesWithin(n.children[i], room)
  }

  lemma {:induction false} NamesWithinAt(n: Node, room: nat, path: string)
    requires NamesWithin(n, room) && Lookup(n, path).Some?
    ensures NamesWithin(Lookup(n, path).value, room)
    decreases n
  {
    if n.prefix != path {
      var rest := path[|n.prefix|..];
      NamesWithinAt(n.children[ChildIndex(n.children, rest[0])], room, rest);
    }
  }

  // ----- what the search reads off its state -----------------------------------------------------

  lemma OkParts(root: Node, path: string, pc: Pc, g: State)
    requires Ok(root, path, pc, g)
    ensures g.n <= |g.values|
    ensures g.cn.tag == ':' <==> g.cn.kind == Param
    ensures pc == Top ==> !g.back && (g.search == "" ==> g.cn.kind == Param) && (g.nn.None? ==> g.nk == Static)
    ensures pc == Branch ==> g.search != "" && (!g.back && g.nn.None? ==> g.nk == Static)
    ensures pc == Wild ==> g.search != ""
    ensures g.nn.Some? ==> g.nk != Static
  {
    hide Matches, Captured;
    AtNode(root, g.at, g.cn);
  }

  lemma EndFacts(root: Node, path: string, g: State, verb: string)
    requires EndOk(root, path, g)
    ensures Lookup(root, g.at) == Some(g.cn) && Matches(g.at, path) && g.done == path
    ensures HandlerAt(root, verb, g.at) == g.cn.FindHandler(verb)
    ensures g.straight ==> Wildcards(g.at) <= |g.values| && Fill(g.at, g.values) == path
  {
    hide Matches, TreeOk;
  }

  lemma RoomForNames(root: Node, path: string, pc: Pc, g: State, i: nat, room: nat)
    requires Ok(root, path, pc, g) || EndOk(root, path, g)
    requires NamesWithin(root, room) && i < |g.cn.children|
    ensures |Child(g, i).pnames| <= room
  {
    hide Matches, Captured, TreeOk;
    NamesWithinAt(root, room, g.at);
  }

  lemma SmallerTwice(pc: Pc, g: State, pc': Pc, g': State, pc'': Pc, g'': State)
    requires Smaller(pc', g', pc, g) && Smaller(pc'', g'', pc', g')
    ensures Smaller(pc'', g'', pc, g)
  {
    hide Height, SavedRank, BackRank;
  }
}
