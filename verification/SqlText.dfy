/** SQL text with holes: what replacing placeholders one at a time comes to. */
module SqlText {

  datatype Piece<+V> = Lit(text: string) | Hole(value: V)

  type Template<+V> = seq<Piece<V>>

  /** The text with every hole written as the mark. */
  function Render<V>(mark: string, t: Template<V>): string {
    if t == [] then "" else (if t[0].Lit? then t[0].text else mark) + Render(mark, t[1..])
  }

  /** The values of the holes, from left to right. */
  function Holes<V>(t: Template<V>): seq<V> {
    if t == [] then [] else (if t[0].Lit? then [] else [t[0].value]) + Holes(t[1..])
  }

  /** No literal text contains the character. */
  predicate Without<V>(t: Template<V>, c: char) {
    forall i :: 0 <= i < |t| && t[i].Lit? ==> c !in t[i].text
  }

  function Count(s: string, c: char): nat {
    if s == "" then 0 else (if s[0] == c then 1 else 0) + Count(s[1..], c)
  }

  // ----- replacing ------------------------------------------------------------------------

  /** Replaces the first `?`, if there is one. */
  function ReplaceFirst(s: string, mark: string): string {
    if s == "" then ""
    else if s[0] == '?' then mark + s[1..]
    else [s[0]] + ReplaceFirst(s[1..], mark)
  }

  /** Replaces every `$$` by `?`, from left to right. */
  function ReplaceMarks(s: string): string {
    if |s| >= 2 && s[0] == '$' && s[1] == '$' then "?" + ReplaceMarks(s[2..])
    else if s == "" then ""
    else [s[0]] + ReplaceMarks(s[1..])
  }

  function Join(parts: seq<string>, sep: string): string {
    if parts == [] then ""
    else if |parts| == 1 then parts[0]
    else parts[0] + sep + Join(parts[1..], sep)
  }

  function JoinTemplates<V>(parts: seq<Template<V>>, sep: string): Template<V> {
    if parts == [] then []
    else if |parts| == 1 then parts[0]
    else parts[0] + [Lit(sep)] + JoinTemplates(parts[1..], sep)
  }

  // ----- lemmas on templates ----------------------------------------------------------------

  lemma RenderNext<V>(mark: string, p: Piece<V>, t: Template<V>)
    ensures Render(mark, [p] + t) == Render(mark, [p]) + Render(mark, t)
    ensures Holes([p] + t) == Holes([p]) + Holes(t)
  {
    assert ([p] + t)[1..] == t && [p][1..] == [];
  }

  lemma Regroup<T>(a: seq<T>, b: seq<T>, c: seq<T>)
    ensures a + (b + c) == a + b + c
  {
  }

  lemma RenderStep<V>(mark: string, a: Template<V>, b: Template<V>)
    requires a != []
    requires Render(mark, a[1..] + b) == Render(mark, a[1..]) + Render(mark, b)
    requires Holes(a[1..] + b) == Holes(a[1..]) + Holes(b)
    ensures Render(mark, a + b) == Render(mark, a) + Render(mark, b)
    ensures Holes(a + b) == Holes(a) + Holes(b)
  {
    hide *;
    Regroup([a[0]], a[1..], b);
    assert a == [a[0]] + a[1..];
    RenderNext(mark, a[0], a[1..] + b);
    RenderNext(mark, a[0], a[1..]);
    Regroup(Render(mark, [a[0]]), Render(mark, a[1..]), Render(mark, b));
    Regroup(Holes([a[0]]), Holes(a[1..]), Holes(b));
  }

  lemma RenderNone<V>(mark: string)
    ensures Render<V>(mark, []) == "" && Holes<V>([]) == []
  {
  }

  lemma {:induction false} RenderConcat<V>(mark: string, a: Template<V>, b: Template<V>)
    ensures Render(mark, a + b) == Render(mark, a) + Render(mark, b)
    ensures Holes(a + b) == Holes(a) + Holes(b)
  {
    hide *;
    if a == [] {
      RenderNone<V>(mark);
      assert a + b == b;
    } else {
      RenderConcat(mark, a[1..], b);
      RenderStep(mark, a, b);
    }
  }

  lemma {:induction false} CountConcat(a: string, b: string, c: char)
    ensures Count(a + b, c) == Count(a, c) + Count(b, c)
  {
    if a == "" {
      assert a + b == b;
    } else {
      assert (a + b)[1..] == a[1..] + b;
      CountConcat(a[1..], b, c);
    }
  }

  lemma {:induction false} CountNone(s: string, c: char)
    ensures Count(s, c) == 0 <==> c !in s
  {
    if s != "" {
      CountNone(s[1..], c);
    }
  }

  lemma {:induction false} ReplaceAfter(a: string, b: string, mark: string)
    requires '?' !in a
    ensures ReplaceFirst(a + b, mark) == a + ReplaceFirst(b, mark)
  {
    if a == "" {
      assert a + b == b;
    } else {
      assert (a + b)[1..] == a[1..] + b;
      ReplaceAfter(a[1..], b, mark);
    }
  }

  /** No `$` of the text is followed by another, in it or at the start of the rest. */
  predicate Tight(a: string, rest: string) {
    forall k :: 0 <= k < |a| && a[k] == '$' && k + 1 < |a + rest| ==> (a + rest)[k + 1] != '$'
  }

  /** Tight text is left alone by the replacement of marks, and no other text is. */
  lemma {:induction false} MarksAfter(a: string, rest: string)
    ensures Tight(a, rest) ==> ReplaceMarks(a + rest) == a + ReplaceMarks(rest)
    ensures a <= ReplaceMarks(a + rest) ==> Tight(a, rest)
  {
    if a == "" {
      assert a + rest == rest;
    } else {
      var s := a + rest;
      assert s[1..] == a[1..] + rest;
      MarksAfter(a[1..], rest);
      if |s| >= 2 && s[0] == '$' && s[1] == '$' {
        assert ReplaceMarks(s)[0] == '?' && a[0] == '$';
      } else {
        assert ReplaceMarks(s) == [a[0]] + ReplaceMarks(s[1..]);
        assert a[1..] <= ReplaceMarks(s[1..]) <==> a <= ReplaceMarks(s) by {
          assert ReplaceMarks(s)[1..] == ReplaceMarks(s[1..]);
          assert a == [a[0]] + a[1..];
        }
        assert Tight(a[1..], rest) <==> Tight(a, rest) by {
          assert forall k :: 0 <= k < |a| - 1 ==> a[1..][k] == a[k + 1];
          assert forall k :: 0 <= k < |s| - 1 ==> s[1..][k] == s[k + 1];
          assert forall k :: 0 < k < |a| ==> a[k] == a[1..][k - 1];
        }
      }
    }
  }

  /** No `$` of a literal stands right before another `$` or before a hole. */
  predicate Settled<V>(t: Template<V>) {
    t != [] ==> Settled(t[1..]) && (t[0].Lit? ==> Tight(t[0].text, Render("$$", t[1..])))
  }

  /** Replacing the marks turns exactly the holes into `?`, and leaves the literals, if and only
      if no `$` of a literal stands right before another `$` or a hole. */
  lemma {:induction false} ReplaceRendered<V>(t: Template<V>)
    ensures ReplaceMarks(Render("$$", t)) == Render("?", t) <==> Settled(t)
  {
    if t != [] {
      ReplaceRendered(t[1..]);
      var rest := Render("$$", t[1..]);
      if t[0].Lit? {
        var s := t[0].text;
        MarksAfter(s, rest);
        assert s <= s + Render("?", t[1..]);
        assert (s + ReplaceMarks(rest))[|s|..] == ReplaceMarks(rest);
        assert (s + Render("?", t[1..]))[|s|..] == Render("?", t[1..]);
      } else {
        assert ("$$" + rest)[2..] == rest;
        assert ("?" + ReplaceMarks(rest))[1..] == ReplaceMarks(rest);
        assert ("?" + Render("?", t[1..]))[1..] == Render("?", t[1..]);
      }
    }
  }

  lemma {:induction false} SettledWithout<V>(t: Template<V>)
    requires Without(t, '$')
    ensures Settled(t)
  {
    if t != [] {
      SettledWithout(t[1..]);
    }
  }

  // ----- what stray dollars add ---------------------------------------------------------------

  /** The pairs of `$` in a text, and whether a `$` is left over at its end; `odd` says that one
      stands before it. */
  function Pairs(s: string, odd: bool): (nat, bool) {
    if s == "" then (0, odd)
    else if s[0] != '$' then Pairs(s[1..], false)
    else if odd then
      var r := Pairs(s[1..], false);
      (r.0 + 1, r.1)
    else Pairs(s[1..], true)
  }

  /** The pairs of literal `$` that have nothing but holes between them. */
  function Stray<V>(t: Template<V>, odd: bool): nat {
    if t == [] then 0
    else if t[0].Hole? then Stray(t[1..], odd)
    else
      var r := Pairs(t[0].text, odd);
      r.0 + Stray(t[1..], r.1)
  }

  /** The `?` in the final text, when a lone `$` may stand before it. */
  function FinalCount(s: string, odd: bool): nat {
    Count(ReplaceMarks(if odd then ['$'] + s else s), '?')
  }

  lemma FinalNext(c: char, tail: string, odd: bool)
    ensures FinalCount([c] + tail, odd)
      == if c != '$' then (if c == '?' then 1 else 0) + FinalCount(tail, false)
         else if odd then 1 + FinalCount(tail, false)
         else FinalCount(tail, true)
  {
    var s := [c] + tail;
    assert s[1..] == tail;
    if odd {
      var t := ['$'] + s;
      assert t[1..] == s && t[2..] == tail && t[1] == c;
      if c == '$' {
        CountConcat("?", ReplaceMarks(tail), '?');
      } else {
        assert ReplaceMarks(t) == ['$'] + ReplaceMarks(s);
        CountConcat(['$'], ReplaceMarks(s), '?');
        CountConcat([c], ReplaceMarks(tail), '?');
        assert ReplaceMarks(s) == [c] + ReplaceMarks(tail);
      }
    } else if c != '$' {
      assert ReplaceMarks(s) == [c] + ReplaceMarks(tail);
      CountConcat([c], ReplaceMarks(tail), '?');
    }
  }

  lemma {:induction false} CountPairs(s: string, odd: bool, rest: string)
    ensures var r := Pairs(s, odd);
      FinalCount(s + rest, odd) == Count(s, '?') + r.0 + FinalCount(rest, r.1)
  {
    hide FinalCount;
    if s == "" {
      assert s + rest == rest;
    } else {
      assert s + rest == [s[0]] + (s[1..] + rest);
      FinalNext(s[0], s[1..] + rest, odd);
      CountPairs(s[1..], if s[0] == '$' then !odd else false, rest);
    }
  }

  /** The `?` in the final text are the holes, those of the literals, and the stray pairs. */
  lemma {:induction false} CountFinal<V>(t: Template<V>, odd: bool)
    ensures FinalCount(Render("$$", t), odd) == |Holes(t)| + LitCount(t) + Stray(t, odd)
  {
    if t == [] {
      assert ['$'] + "" == "$" && "$"[1..] == "" && ReplaceMarks("$") == "$";
    } else {
      var rest := Render("$$", t[1..]);
      hide FinalCount, Pairs;
      if t[0].Hole? {
        CountFinal(t[1..], odd);
        assert "$$" + rest == ['$'] + (['$'] + rest);
        FinalNext('$', ['$'] + rest, odd);
        FinalNext('$', rest, !odd);
      } else {
        CountPairs(t[0].text, odd, rest);
        CountFinal(t[1..], Pairs(t[0].text, odd).1);
      }
    }
  }

  lemma {:induction false} NoPairs(s: string)
    requires '$' !in s
    ensures Pairs(s, false) == (0, false)
  {
    if s != "" {
      NoPairs(s[1..]);
    }
  }

  lemma {:induction false} NoStray<V>(t: Template<V>)
    requires Without(t, '$')
    ensures Stray(t, false) == 0
  {
    if t != [] {
      NoStray(t[1..]);
      if t[0].Lit? {
        NoPairs(t[0].text);
      }
    }
  }

  /** The `?` in the rendered text are its holes and those of its literals. */
  lemma {:induction false} CountRendered<V>(t: Template<V>)
    ensures Count(Render("?", t), '?') == |Holes(t)| + LitCount(t)
    ensures Without(t, '?') ==> LitCount(t) == 0
  {
    if t != [] {
      CountRendered(t[1..]);
      var head := if t[0].Lit? then t[0].text else "?";
      CountConcat(head, Render("?", t[1..]), '?');
      CountNone(head, '?');
      if Without(t, '?') {
        assert Without(t[1..], '?');
      }
    }
  }

  function LitCount<V>(t: Template<V>): nat {
    if t == [] then 0 else (if t[0].Lit? then Count(t[0].text, '?') else 0) + LitCount(t[1..])
  }

  /** The i-th placeholder of the rendered text stands where the i-th hole is: there are as many
      placeholders before any hole as holes. */
  lemma PlaceholderOf<V>(t: Template<V>, k: nat)
    requires k < |t| && t[k].Hole? && Without(t, '?')
    ensures var before := Render("?", t[..k]);
      && before + "?" <= Render("?", t)
      && Count(before, '?') == |Holes(t[..k])| < |Holes(t)|
      && Holes(t)[|Holes(t[..k])|] == t[k].value
  {
    assert t == t[..k] + ([t[k]] + t[k + 1..]);
    RenderConcat("?", t[..k], [t[k]] + t[k + 1..]);
    assert ([t[k]] + t[k + 1..])[1..] == t[k + 1..];
    CountRendered(t[..k]);
    CountRendered(t);
  }

  lemma LitHoles<V>(text: string)
    ensures Holes<V>([Lit(text)]) == []
  {
    var t: Template<V> := [Lit(text)];
    assert t[1..] == [];
  }

  lemma LitText<V>(mark: string, text: string)
    ensures Render<V>(mark, [Lit(text)]) == text
  {
    var t: Template<V> := [Lit(text)];
    assert t[1..] == [];
  }

  lemma {:induction false} RenderJoin<V>(mark: string, parts: seq<Template<V>>, sep: string)
    ensures Render(mark, JoinTemplates(parts, sep))
      == Join(seq(|parts|, i requires 0 <= i < |parts| => Render(mark, parts[i])), sep)
    ensures Holes(JoinTemplates(parts, sep)) == AllHoles(parts)
  {
    var texts := seq(|parts|, i requires 0 <= i < |parts| => Render(mark, parts[i]));
    if |parts| > 1 {
      hide Render, Holes, AllHoles, JoinTemplates, Join;
      JoinsNext(parts, texts, sep);
      LitHoles<V>(sep);
      LitText<V>(mark, sep);
      RenderJoin(mark, parts[1..], sep);
      assert texts[1..] == seq(|parts[1..]|, i requires 0 <= i < |parts[1..]| => Render(mark, parts[1..][i]));
      var rest := JoinTemplates(parts[1..], sep);
      RenderConcat(mark, parts[0] + [Lit(sep)], rest);
      RenderConcat(mark, parts[0], [Lit(sep)]);
    } else if |parts| == 1 {
      hide Render, Holes;
      assert AllHoles(parts[1..]) == [];
    }
  }

  lemma JoinsNext<V>(parts: seq<Template<V>>, texts: seq<string>, sep: string)
    requires |parts| == |texts| > 1
    ensures JoinTemplates(parts, sep) == parts[0] + [Lit(sep)] + JoinTemplates(parts[1..], sep)
    ensures Join(texts, sep) == texts[0] + sep + Join(texts[1..], sep)
    ensures AllHoles(parts) == Holes(parts[0]) + AllHoles(parts[1..])
  {
    hide Holes;
  }

  function AllHoles<V>(parts: seq<Template<V>>): seq<V> {
    if parts == [] then [] else Holes(parts[0]) + AllHoles(parts[1..])
  }

  lemma {:induction false} JoinWithout<V>(parts: seq<Template<V>>, sep: string, c: char)
    requires c !in sep && forall i :: 0 <= i < |parts| ==> Without(parts[i], c)
    ensures Without(JoinTemplates(parts, sep), c)
  {
    if |parts| > 1 {
      JoinWithout(parts[1..], sep, c);
    }
  }

  /** A text that renders to nothing has no holes. */
  lemma {:induction false} EmptyRender<V>(t: Template<V>)
    ensures Render("$$", t) == "" ==> Holes(t) == []
  {
    if t != [] {
      EmptyRender(t[1..]);
    }
  }

  /** Marks are replaced in each of two texts if the second does not begin with a dollar sign. */
  lemma {:induction false} MarksApart(a: string, b: string)
    requires b == "" || b[0] != '$'
    ensures ReplaceMarks(a + b) == ReplaceMarks(a) + ReplaceMarks(b)
    decreases |a|
  {
    hide ReplaceMarks;
    if a == "" {
      MarksNext(a);
      assert a + b == b && "" + ReplaceMarks(b) == ReplaceMarks(b);
    } else {
      var k := if |a| >= 2 && a[0] == '$' && a[1] == '$' then 2 else 1;
      MarksNext(a);
      MarksNext(a + b);
      assert (a + b)[k..] == a[k..] + b;
      MarksApart(a[k..], b);
    }
  }

  lemma MarksNext(s: string)
    ensures ReplaceMarks(s)
      == if s == "" then "" else if |s| >= 2 && s[0] == '$' && s[1] == '$' then "?" + ReplaceMarks(s[2..])
         else [s[0]] + ReplaceMarks(s[1..])
  {
  }

  /** Text without a dollar sign is left alone. */
  lemma {:induction false} NoMarksIn(a: string)
    requires '$' !in a
    ensures ReplaceMarks(a) == a
  {
    if a != "" {
      NoMarksIn(a[1..]);
    }
  }

  /** Joined parts stand one after the other with the separator in between. */
  lemma JoinNext(first: string, rest: seq<string>, sep: string)
    ensures Join([], sep) == "" && Join([first], sep) == first
    ensures rest != [] ==> Join([first] + rest, sep) == first + sep + Join(rest, sep)
  {
    assert ([first] + rest)[1..] == rest;
  }
}
