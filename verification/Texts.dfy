/** Text functions of the standard library, on ASCII. */
module Texts {

  function LowerChar(c: char): char { if 'A' <= c <= 'Z' then (c as int + 32) as char else c }

  function Lower(s: string): string { seq(|s|, i requires 0 <= i < |s| => LowerChar(s[i])) }

  predicate IsSpace(c: char) { c == ' ' || 9 <= c as int <= 13 }

  /** The position of the first separator, or the length. */
  function Cut(s: string, sep: char -> bool): (p: nat)
    ensures p <= |s| && (p < |s| ==> sep(s[p])) && forall i :: 0 <= i < p ==> !sep(s[i])
  {
    if s == "" || sep(s[0]) then 0 else 1 + Cut(s[1..], sep)
  }

  /** The parts between separators, empty ones included. */
  function Split(s: string, sep: char -> bool): (parts: seq<string>)
    ensures parts != []
    ensures forall k :: 0 <= k < |parts| ==> forall i :: 0 <= i < |parts[k]| ==> !sep(parts[k][i])
  {
    var p := Cut(s, sep);
    if p == |s| then [s] else [s[..p]] + Split(s[p + 1..], sep)
  }

  function NonEmpty(parts: seq<string>): seq<string> {
    if parts == [] then [] else (if parts[0] == "" then [] else [parts[0]]) + NonEmpty(parts[1..])
  }

  /** The non-empty parts between separators. */
  function Fields(s: string, sep: char -> bool): seq<string> { NonEmpty(Split(s, sep)) }

  predicate Free(s: string, sep: char -> bool) { forall i :: 0 <= i < |s| ==> !sep(s[i]) }

  lemma {:induction false} CutAt(a: string, c: char, rest: string, sep: char -> bool)
    requires Free(a, sep) && sep(c)
    ensures Cut(a + [c] + rest, sep) == |a|
  {
    if a != "" {
      assert (a + [c] + rest)[1..] == a[1..] + [c] + rest;
      CutAt(a[1..], c, rest, sep);
    }
  }

  lemma SplitWhole(a: string, sep: char -> bool)
    requires Free(a, sep)
    ensures Split(a, sep) == [a]
  {
  }

  lemma SplitAt(a: string, c: char, rest: string, sep: char -> bool)
    requires Free(a, sep) && sep(c)
    ensures Split(a + [c] + rest, sep) == [a] + Split(rest, sep)
  {
    CutAt(a, c, rest, sep);
    var s := a + [c] + rest;
    assert s[..|a|] == a && s[|a| + 1..] == rest;
  }

  /** A separator ends a part; parts that would be empty are none. */
  lemma FieldsAt(a: string, c: char, rest: string, sep: char -> bool)
    requires Free(a, sep) && sep(c)
    ensures Fields(a + [c] + rest, sep) == (if a == "" then [] else [a]) + Fields(rest, sep)
  {
    SplitAt(a, c, rest, sep);
    assert ([a] + Split(rest, sep))[1..] == Split(rest, sep);
  }

  lemma OneField(a: string, sep: char -> bool)
    requires Free(a, sep)
    ensures Fields(a, sep) == if a == "" then [] else [a]
  {
    SplitWhole(a, sep);
    assert Split(a, sep) == [a];
    assert [a][1..] == [] && NonEmpty([]) == [];
  }

  /** The ASCII letters in lower case, and what separates fields. */
  lemma CharactersAre(c: char)
    ensures 'A' <= c <= 'Z' ==> 'a' <= LowerChar(c) <= 'z' && LowerChar(c) - c == 'a' - 'A'
    ensures !('A' <= c <= 'Z') ==> LowerChar(c) == c
    ensures IsSpace(c) <==> c == ' ' || c == '\t' || c == '\n' || c == '\r' || c as int == 11 || c as int == 12
  {
  }
}
