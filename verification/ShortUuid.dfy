/** Short UUIDs: a 128-bit number as 22 characters of a 57-letter alphabet, and back. */
module ShortUuid {
  import opened Options
  import opened Texts

  /** Digits and letters without 0, 1, I, O and l. */
  const ALPHABET: string := "23456789" + "ABCDEFGH" + "JKLMN" + "PQRSTUVWXYZ" + "abcdefghijk" + "mnopqrstuvwxyz"
  const SHORT_LENGTH := 22

  function Pow(base: nat, k: nat): nat {
    if k == 0 then 1 else base * Pow(base, k - 1)
  }

  // ----- hexadecimal ----------------------------------------------------------------------------

  predicate IsHex(c: char) { '0' <= c <= '9' || 'a' <= c <= 'f' }

  predicate HexText(s: string) { forall i :: 0 <= i < |s| ==> IsHex(s[i]) }

  function HexDigit(c: char): (d: nat)
    requires IsHex(c)
    ensures d < 16
  {
    if c <= '9' then c as int - '0' as int else c as int - 'a' as int + 10
  }

  function HexChar(d: nat): (c: char)
    requires d < 16
    ensures IsHex(c) && HexDigit(c) == d
  {
    if d < 10 then (d + '0' as int) as char else (d - 10 + 'a' as int) as char
  }

  function HexValue(s: string): nat
    requires HexText(s)
  {
    if s == "" then 0 else 16 * HexValue(s[..|s| - 1]) + HexDigit(s[|s| - 1])
  }

  /** The number in hexadecimal without leading zeros. */
  function Hex(n: nat): string {
    if n < 16 then [HexChar(n)] else Hex(n / 16) + [HexChar(n % 16)]
  }

  function FormatHex(n: int): string { if n < 0 then "-" + Hex(-n) else Hex(n) }

  function Zeros(n: nat): string { seq(n, _ => '0') }

  function PadLeft(s: string, width: nat): string {
    if |s| < width then Zeros(width - |s|) + s else s
  }

  /** The sixteen digits, and what a number is written as: its digits, without leading zeros. */
  lemma HexDigits(i: nat)
    requires i < 16
    ensures IsHex("0123456789abcdef"[i]) && HexDigit("0123456789abcdef"[i]) == i
  {
    assert "0123456789abcdef"[i] as int == if i < 10 then 48 + i else 87 + i;
  }

  lemma {:induction false} HexOfNumber(n: nat)
    ensures HexText(Hex(n)) && HexValue(Hex(n)) == n && (n > 0 ==> Hex(n)[0] != '0')
    ensures FormatHex(n) == Hex(n) && (n > 0 ==> FormatHex(-(n as int)) == "-" + Hex(n))
  {
    if n >= 16 {
      HexOfNumber(n / 16);
      assert Hex(n)[..|Hex(n)| - 1] == Hex(n / 16);
    }
  }

  lemma SameHexChar(c: char)
    requires IsHex(c)
    ensures HexChar(HexDigit(c)) == c
  {
  }

  /** A digit at the end is a digit at the end of the number. */
  lemma HexOfNext(v: nat, d: nat)
    requires d < 16
    ensures Hex(16 * v + d) == (if v == 0 then "" else Hex(v)) + [HexChar(d)]
  {
    if v > 0 {
      assert (16 * v + d) / 16 == v && (16 * v + d) % 16 == d;
    }
  }

  lemma PadBefore(s: string, width: nat, c: char)
    ensures PadLeft(s, width) + [c] == PadLeft(s + [c], width + 1)
  {
  }

  lemma PadZero(width: nat)
    requires width > 0
    ensures PadLeft("0", width) == PadLeft("", width)
  {
  }

  lemma HexOfZero()
    ensures HexValue("") == 0 && Hex(0) == "0"
  {
  }

  /** A hexadecimal text is its number, padded with zeros. */
  lemma {:induction false} HexIsPadded(s: string)
    requires s != "" && HexText(s)
    ensures |Hex(HexValue(s))| <= |s|
    ensures s == PadLeft(Hex(HexValue(s)), |s|)
  {
    var front, last := s[..|s| - 1], s[|s| - 1];
    var v := HexValue(front);
    assert s == front + [last];
    assert HexValue(s) == 16 * v + HexDigit(last);
    hide HexValue, HexChar, HexDigit;
    SameHexChar(last);
    HexOfNext(v, HexDigit(last));
    HexOfZero();
    hide Hex;
    var head := if v == 0 then "" else Hex(v);
    if front == "" {
      assert v == 0;
      assert "" + [last] == [last];
    } else {
      HexIsPadded(front);
      PadZero(|front|);
      PadBefore(head, |front|, last);
    }
  }

  lemma {:induction false} HexLength(n: nat, k: nat)
    requires k > 0
    ensures |Hex(n)| > k <==> n >= Pow(16, k)
    decreases n
  {
    if n < 16 {
      PowGrows(16, 1, k);
    } else if k > 1 {
      HexLength(n / 16, k - 1);
    }
  }

  lemma {:induction false} PowGrows(base: nat, j: nat, k: nat)
    requires base > 0 && j <= k
    ensures 1 <= Pow(base, j) <= Pow(base, k)
  {
    if k == 0 {
    } else if j < k {
      PowGrows(base, j, k - 1);
    } else {
      PowGrows(base, 0, k - 1);
    }
  }

  lemma {:induction false} HexBelow(s: string)
    requires HexText(s)
    ensures HexValue(s) < Pow(16, |s|)
  {
    if s != "" {
      HexBelow(s[..|s| - 1]);
    }
  }

  // ----- the alphabet ----------------------------------------------------------------------------

  /** The first position of the character, or -1. */
  function Index(s: string, c: char): int {
    if s == "" then -1
    else if s[0] == c then 0
    else
      var i := Index(s[1..], c);
      if i < 0 then -1 else i + 1
  }

  lemma {:induction false} IndexAt(s: string, i: nat)
    requires i < |s| && forall j :: 0 <= j < i ==> s[j] != s[i]
    ensures Index(s, s[i]) == i
  {
    if i > 0 {
      assert s[1..][i - 1] == s[i];
      IndexAt(s[1..], i - 1);
    }
  }

  lemma Runs()
    ensures |"23456789"| == 8 && forall i :: 0 <= i < 8 ==> "23456789"[i] as int == 50 + i
    ensures |"ABCDEFGH"| == 8 && forall i :: 0 <= i < 8 ==> "ABCDEFGH"[i] as int == 65 + i
    ensures |"JKLMN"| == 5 && forall i :: 0 <= i < 5 ==> "JKLMN"[i] as int == 74 + i
    ensures |"PQRSTUVWXYZ"| == 11 && forall i :: 0 <= i < 11 ==> "PQRSTUVWXYZ"[i] as int == 80 + i
    ensures |"abcdefghijk"| == 11 && forall i :: 0 <= i < 11 ==> "abcdefghijk"[i] as int == 97 + i
    ensures |"mnopqrstuvwxyz"| == 14 && forall i :: 0 <= i < 14 ==> "mnopqrstuvwxyz"[i] as int == 109 + i
  {
  }

  lemma AlphabetAscends()
    ensures |ALPHABET| == 57 && forall i, j :: 0 <= i < j < 57 ==> ALPHABET[i] < ALPHABET[j]
  {
    Runs();
  }

  /** The alphabet is the digits and letters of ASCII but for five that look alike, in order. */
  lemma AlphabetIs(c: char)
    ensures c in ALPHABET
      <==> ('0' <= c <= '9' || 'A' <= c <= 'Z' || 'a' <= c <= 'z') && c !in {'0', '1', 'I', 'O', 'l'}
  {
    Runs();
    var n := c as int;
    if 50 <= n <= 57 {
      assert "23456789"[n - 50] == c;
    } else if 65 <= n <= 72 {
      assert "ABCDEFGH"[n - 65] == c;
    } else if 74 <= n <= 78 {
      assert "JKLMN"[n - 74] == c;
    } else if 80 <= n <= 90 {
      assert "PQRSTUVWXYZ"[n - 80] == c;
    } else if 97 <= n <= 107 {
      assert "abcdefghijk"[n - 97] == c;
    } else if 109 <= n <= 122 {
      assert "mnopqrstuvwxyz"[n - 109] == c;
    }
  }

  /** A letter's value is its first place in the text, and -1 if it has none. */
  lemma {:induction false} IndexIs(s: string, c: char)
    ensures var i := Index(s, c);
      if c in s then 0 <= i < |s| && s[i] == c && c !in s[..i] else i == -1
  {
    if s != "" && s[0] != c {
      IndexIs(s[1..], c);
      var i := Index(s, c);
      if c in s[1..] {
        assert s[..i] == [s[0]] + s[1..][..i - 1];
      }
    }
  }

  // ----- numbers in the alphabet, lowest digit first ---------------------------------------------

  function Letters(n: nat): string {
    if n == 0 then "" else [ALPHABET[n % 57]] + Letters(n / 57)
  }

  function Padded(s: string): string {
    if |s| < SHORT_LENGTH then s + seq(SHORT_LENGTH - |s|, _ => ALPHABET[0]) else s
  }

  /** The number that a text stands for; a letter outside the alphabet counts as -1. */
  function NumberOf(s: string): int {
    if s == "" then 0 else Index(ALPHABET, s[0]) + 57 * NumberOf(s[1..])
  }

  lemma LetterIndex(i: nat)
    requires i < 57
    ensures Index(ALPHABET, ALPHABET[i]) == i
  {
    AlphabetAscends();
    IndexAt(ALPHABET, i);
  }

  lemma {:induction false} NumberOfPadding(n: nat)
    ensures NumberOf(seq(n, _ => ALPHABET[0])) == 0
  {
    if n > 0 {
      LetterIndex(0);
      assert seq(n, _ => ALPHABET[0])[1..] == seq(n - 1, _ => ALPHABET[0]);
      NumberOfPadding(n - 1);
    }
  }

  lemma NumberOfFirst(i: nat, rest: string)
    requires i < 57
    ensures NumberOf([ALPHABET[i]] + rest) == i + 57 * NumberOf(rest)
  {
    LetterIndex(i);
    hide Index;
    assert ([ALPHABET[i]] + rest)[1..] == rest;
  }

  lemma {:induction false} NumberOfLetters(n: nat, pad: string)
    requires NumberOf(pad) == 0
    ensures NumberOf(Letters(n) + pad) == n
    decreases n
  {
    hide Index, NumberOf;
    if n == 0 {
      assert "" + pad == pad;
    } else {
      var rest := Letters(n / 57) + pad;
      NumberOfLetters(n / 57, pad);
      NumberOfFirst(n % 57, rest);
      assert Letters(n) + pad == [ALPHABET[n % 57]] + rest;
    }
  }

  lemma {:induction false} LettersLength(n: nat, k: nat)
    ensures |Letters(n)| <= k <==> n < Pow(57, k)
    decreases k
  {
    if k > 0 && n > 0 {
      LettersLength(n / 57, k - 1);
    } else {
      PowGrows(57, 0, k);
    }
  }

  lemma EnoughLetters()
    ensures Pow(16, 32) < Pow(57, 22)
  {
    PowSum(16, 2, 2);
    PowSum(16, 4, 4);
    PowSum(16, 8, 8);
    PowSum(16, 16, 16);
    PowSum(57, 2, 1);
    PowSum(57, 2, 2);
    PowSum(57, 4, 4);
    PowSum(57, 8, 3);
    PowSum(57, 11, 11);
  }

  lemma PowNext(base: nat, k: nat)
    ensures Pow(base, k + 1) == base * Pow(base, k)
  {
  }

  lemma Reassociate(a: int, b: int, c: int)
    ensures a * (b * c) == (a * b) * c
  {
  }

  lemma {:induction false} PowSum(base: nat, j: nat, k: nat)
    ensures Pow(base, j + k) == Pow(base, j) * Pow(base, k)
  {
    if j > 0 {
      PowSum(base, j - 1, k);
      PowNext(base, j - 1);
      PowNext(base, j - 1 + k);
      hide Pow;
      Reassociate(base, Pow(base, j - 1), Pow(base, k));
    }
  }

  // ----- the two conversions -----------------------------------------------------------------------

  function Strip(s: string): string {
    if s == "" then "" else (if s[0] == '-' then "" else [s[0]]) + Strip(s[1..])
  }

  /** The digits of a text: hyphens removed, in lower case, behind a plus sign if there is one. */
  function DigitsOf(s: string): string {
    var t := Lower(Strip(s));
    if t != "" && t[0] == '+' then t[1..] else t
  }

  predicate Readable(s: string) { DigitsOf(s) != "" && HexText(DigitsOf(s)) }

  /** The number that a text is read as; what a text that is no number leaves behind is `junk`. */
  function ValueOf(s: string, junk: int): int {
    if Readable(s) then HexValue(DigitsOf(s)) else junk
  }

  function Short(n: nat): string { Padded(Letters(n)) }

  /** A number that is not positive is written as no digits at all. */
  method ShortenUUID(s: string, junk: int) returns (ss: string)
    ensures var n := ValueOf(s, junk); ss == Short(if n < 0 then 0 else n)
  {
    var uuInt := ValueOf(s, junk);
    ghost var n: nat := if uuInt < 0 then 0 else uuInt;
    ss := "";
    assert "" + Letters(n) == Letters(n);
    while uuInt > 0
      invariant ss + Letters(if uuInt < 0 then 0 else uuInt) == Letters(n)
    {
      var off := uuInt % 57;
      ghost var rest := Letters(uuInt / 57);
      AlphabetAscends();
      assert ss + ([ALPHABET[off]] + rest) == (ss + [ALPHABET[off]]) + rest;
      uuInt := uuInt / 57;
      ss := ss + [ALPHABET[off]];
    }
    assert ss + "" == ss;
    var diff := SHORT_LENGTH - |ss|;
    if diff > 0 {
      ss := ss + seq(diff, _ => ALPHABET[0]);
    }
  }

  /** The printed layout of section 3 of RFC 4122, from the end: the first group takes the digits
      that are left. None stands for the panic when there are not enough. */
  function Long(n: int): Option<string> { Groups(FormatHex(n)) }

  function Groups(b: string): Option<string> {
    var ll := |b|;
    if ll < 24 then None
    else Some(PadLeft(b[..ll - 24], 8) + "-" + PadLeft(b[ll - 24..ll - 20], 4) + "-" + PadLeft(b[ll - 20..ll - 16], 4)
              + "-" + PadLeft(b[ll - 16..ll - 12], 4) + "-" + PadLeft(b[ll - 12..], 12))
  }

  method LengthenUUID(s: string) returns (ls: Option<string>)
    ensures ls == Long(NumberOf(s))
  {
    var uuInt := 0;
    var i := |s| - 1;
    while i >= 0
      invariant -1 <= i < |s|
      invariant uuInt == NumberOf(s[i + 1..])
    {
      var off := Index(ALPHABET, s[i]);
      assert s[i..][1..] == s[i + 1..];
      uuInt := uuInt * 57 + off;
      i := i - 1;
    }
    assert s[0..] == s;
    return Long(uuInt);
  }

  // ----- what they promise -----------------------------------------------------------------------------

  lemma ShortNumber(n: nat)
    ensures NumberOf(Short(n)) == n
  {
    var pad := seq(if |Letters(n)| < SHORT_LENGTH then SHORT_LENGTH - |Letters(n)| else 0, _ => ALPHABET[0]);
    NumberOfPadding(|pad|);
    NumberOfLetters(n, pad);
    assert Short(n) == Letters(n) + pad;
  }

  /** Different numbers have different short forms, and the short form has 22 characters exactly
      when the number is below 57^22, as every 128-bit number is. */
  lemma ShortIsInjective(m: nat, n: nat)
    ensures Short(m) == Short(n) <==> m == n
    ensures |Short(n)| == 22 <==> n < Pow(57, 22)
    ensures n < Pow(16, 32) ==> |Short(n)| == 22
  {
    ShortNumber(m);
    ShortNumber(n);
    LettersLength(n, 22);
    EnoughLetters();
  }

  /** 32 digits in groups of 8, 4, 4, 4 and 12. */
  function Layout(h: string): string
    requires |h| == 32
  {
    h[..8] + "-" + h[8..12] + "-" + h[12..16] + "-" + h[16..20] + "-" + h[20..]
  }

  lemma LayoutIs(h: string)
    requires |h| == 32 && '-' !in h
    ensures |Layout(h)| == 36 && forall i :: 0 <= i < 36 ==> (Layout(h)[i] == '-' <==> i in {8, 13, 18, 23})
    ensures forall i :: 0 <= i < 32 ==>
      h[i] == Layout(h)[i + if i < 8 then 0 else if i < 12 then 1 else if i < 16 then 2 else if i < 20 then 3 else 4]
  {
  }

  /** One plus sign in front changes nothing, and a second one cannot be read. */
  lemma SignedTexts(s: string)
    requires '-' !in s && s != "" && s[0] != '+'
    ensures DigitsOf(s) == DigitsOf("+" + s) == Lower(s) && !Readable("++" + s)
  {
    hide Strip;
    StripNone(s);
    StripNone("+" + s);
    StripNone("++" + s);
    assert Lower("+" + s)[1..] == Lower(s);
    assert Lower("++" + s)[0] == '+' && Lower("++" + s)[1..][0] == '+';
  }

  /** Hyphens are dropped wherever they stand. */
  lemma HyphensDropped(s: string, t: string)
    requires '-' !in t
    ensures DigitsOf(s + "-" + t) == DigitsOf(s + t) && !Readable("-")
  {
    StripHyphen();
    hide Strip;
    StripGroup(s, t);
    StripConcat(s, t);
    StripNone(t);
  }

  lemma {:induction false} StripConcat(a: string, b: string)
    ensures Strip(a + b) == Strip(a) + Strip(b)
  {
    if a == "" {
      assert a + b == b;
    } else {
      assert (a + b)[1..] == a[1..] + b;
      StripConcat(a[1..], b);
    }
  }

  lemma {:induction false} StripNone(s: string)
    requires '-' !in s
    ensures Strip(s) == s
  {
    if s != "" {
      StripNone(s[1..]);
    }
  }

  lemma StripHyphen()
    ensures Strip("-") == ""
  {
  }

  lemma StripGroup(front: string, group: string)
    requires '-' !in group
    ensures Strip(front + "-" + group) == Strip(front) + group
  {
    StripHyphen();
    hide Strip;
    StripConcat(front + "-", group);
    StripConcat(front, "-");
    StripNone(group);
  }

  lemma StripLayout(h: string)
    requires |h| == 32 && '-' !in h
    ensures Strip(Layout(h)) == h
  {
    var a := h[..8];
    var b := a + "-" + h[8..12];
    var c := b + "-" + h[12..16];
    var d := c + "-" + h[16..20];
    StripNone(a);
    StripGroup(a, h[8..12]);
    StripGroup(b, h[12..16]);
    StripGroup(c, h[16..20]);
    StripGroup(d, h[20..]);
    assert h == h[..8] + h[8..12] + h[12..16] + h[16..20] + h[20..];
  }

  lemma HexHasNoHyphen(h: string)
    requires HexText(Lower(h))
    ensures '-' !in h
  {
    forall i | 0 <= i < |h|
      ensures h[i] != '-'
    {
      assert IsHex(Lower(h)[i]);
    }
  }

  lemma SliceAfter(z: string, b: string, i: nat, j: nat)
    requires |z| <= i <= j <= |z| + |b|
    ensures (z + b)[i..j] == b[i - |z|..j - |z|]
  {
  }

  lemma SliceAcross(z: string, b: string, j: nat)
    requires |z| <= j <= |z| + |b|
    ensures (z + b)[..j] == z + b[..j - |z|]
  {
  }

  lemma GroupsOfPadded(b: string)
    requires 24 <= |b| <= 32
    ensures Groups(b) == Some(Layout(Zeros(32 - |b|) + b))
  {
    var z := Zeros(32 - |b|);
    var h := z + b;
    SliceAcross(z, b, 8);
    SliceAfter(z, b, 8, 12);
    SliceAfter(z, b, 12, 16);
    SliceAfter(z, b, 16, 20);
    SliceAfter(z, b, 20, 32);
    assert h[20..32] == h[20..] && b[|b| - 12..|b|] == b[|b| - 12..];
    assert PadLeft(b[..|b| - 24], 8) == h[..8];
    assert b[|b| - 24..|b| - 20] == h[8..12];
    assert b[|b| - 20..|b| - 16] == h[12..16];
    assert b[|b| - 16..|b| - 12] == h[16..20];
    assert b[|b| - 12..] == h[20..];
  }

  lemma PaddedTo32(b: string)
    requires |b| <= 32
    ensures PadLeft(b, 32) == Zeros(32 - |b|) + b
  {
  }

  lemma LongIsGroups(n: nat)
    ensures Long(n) == Groups(Hex(n))
    ensures |Hex(n)| < 24 ==> Long(n) == None
  {
  }

  /** A number of 24 to 32 hexadecimal digits is laid out as its digits, padded to 32. */
  lemma LongOfHex(h: string)
    requires |h| == 32 && HexText(h)
    ensures Long(HexValue(h)) == if HexValue(h) >= Pow(16, 23) then Some(Layout(h)) else None
  {
    hide *;
    var b := Hex(HexValue(h));
    HexIsPadded(h);
    HexLength(HexValue(h), 23);
    LongIsGroups(HexValue(h));
    PaddedTo32(b);
    if |b| >= 24 {
      GroupsOfPadded(b);
    }
  }

  lemma NoPlus(h: string)
    requires h != "" && HexText(Lower(h))
    ensures Lower(h) != "" && Lower(h)[0] != '+' && |Lower(h)| == |h|
  {
    assert IsHex(Lower(h)[0]);
  }

  lemma ReadsBack(h: string, junk: int)
    requires |h| == 32 && HexText(Lower(h))
    ensures Readable(Layout(h)) && ValueOf(Layout(h), junk) == HexValue(Lower(h))
    ensures |Lower(h)| == 32
  {
    hide HexValue, Layout, Strip;
    HexHasNoHyphen(h);
    StripLayout(h);
    NoPlus(h);
    hide Lower, HexText;
  }

  /** Lengthening the short form of a UUID gives the UUID back, in lower case, exactly when its
      number is at least 16^23; below that it panics. */
  lemma RoundTrip(h: string, junk: int)
    requires |h| == 32 && HexText(Lower(h))
    ensures Readable(Layout(h)) && ValueOf(Layout(h), junk) == HexValue(Lower(h))
    ensures |Short(HexValue(Lower(h)))| == 22
    ensures Long(NumberOf(Short(HexValue(Lower(h)))))
      == if HexValue(Lower(h)) >= Pow(16, 23) then Some(Layout(Lower(h))) else None
  {
    hide *;
    ReadsBack(h, junk);
    HexBelow(Lower(h));
    ShortIsInjective(0, HexValue(Lower(h)));
    ShortNumber(HexValue(Lower(h)));
    LongOfHex(Lower(h));
  }
}
