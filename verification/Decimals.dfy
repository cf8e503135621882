/** Decimal numbers in text, as the standard library reads them into 64-bit integers. */
module Decimals {

  const MAX_INT := 0x7FFF_FFFF_FFFF_FFFF

  predicate IsDigit(c: char) { '0' <= c <= '9' }

  predicate AllDigits(s: string) { s != "" && forall i :: 0 <= i < |s| ==> IsDigit(s[i]) }

  function Decimal(s: string): nat
    requires forall i :: 0 <= i < |s| ==> IsDigit(s[i])
  {
    if s == "" then 0
    else
      var last := s[|s| - 1];
      assert IsDigit(last);
      10 * Decimal(s[..|s| - 1]) + (last as int - '0' as int)
  }

  /** The value read, and whether it was read without an error; a number out of range gives an
      error and the nearest value. */
  datatype Parsed = Parsed(value: int, ok: bool)

  function Atoi(s: string): Parsed {
    var signed := s != "" && (s[0] == '+' || s[0] == '-');
    var digits := if signed then s[1..] else s;
    if !AllDigits(digits) then Parsed(0, false)
    else
      var n: int := Decimal(digits);
      if signed && s[0] == '-' then
        if n > MAX_INT + 1 then Parsed(-MAX_INT - 1, false) else Parsed(-n, true)
      else
        if n > MAX_INT then Parsed(MAX_INT, false) else Parsed(n, true)
  }

  /** One more digit is worth ten times what was there, and itself. */
  lemma DecimalNext(s: string, c: char)
    requires (forall i :: 0 <= i < |s| ==> IsDigit(s[i])) && IsDigit(c)
    ensures Decimal(s + [c]) == 10 * Decimal(s) + (c - '0') as int
    ensures Decimal("") == 0 && Decimal("2024") == 2024
  {
    assert (s + [c])[..|s|] == s;
    assert Decimal("20") == 20 && "202"[..2] == "20" && "2024"[..3] == "202";
  }
}
