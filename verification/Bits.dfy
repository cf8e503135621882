/** Single bits of the 64-bit field masks. */
module Bits {

  /** A word shifted left by `k`, one bit at a time. */
  function Shift(a: bv64, k: nat): bv64 {
    if k == 0 then a else Double(Shift(a, k - 1))
  }

  function Double(a: bv64): bv64 { a << 1 }

  function Single(i: nat): bv64
    requires i < 64
  {
    Shift(1, i)
  }

  predicate Meets(a: bv64, b: bv64) { a & b != 0 }

  predicate Bit(mask: bv64, i: nat)
    requires i < 64
  {
    Meets(Single(i), mask)
  }

  lemma AndOverOr(m: bv64, a: bv64, b: bv64)
    ensures m & (a | b) == (m & a) | (m & b)
  {
  }

  lemma OrIsZero(a: bv64, b: bv64)
    ensures a | b == 0 <==> a == 0 && b == 0
  {
  }

  lemma MeetsOr(m: bv64, a: bv64, b: bv64)
    ensures Meets(m, a | b) <==> Meets(m, a) || Meets(m, b)
  {
    AndOverOr(m, a, b);
    OrIsZero(m & a, m & b);
  }

  function Or(a: bv64, b: bv64): bv64 { a | b }

  function AndNot(a: bv64, b: bv64): bv64 { !a & b }

  lemma BitOfOr(a: bv64, b: bv64, i: nat)
    requires i < 64
    ensures Bit(Or(a, b), i) <==> Bit(a, i) || Bit(b, i)
  {
    MeetsOr(Single(i), a, b);
  }

  lemma NoBits(i: nat)
    requires i < 64
    ensures !Bit(0, i)
  {
  }

  predicate IsSingle(m: bv64) { m != 0 && m & (m - 1) == 0 }

  lemma {:induction false} ShiftSum(a: bv64, j: nat, k: nat)
    ensures Shift(Shift(a, j), k) == Shift(a, j + k)
  {
    if k > 0 {
      ShiftSum(a, j, k - 1);
    }
  }

  lemma {:induction false} ShiftNothing(k: nat)
    ensures Shift(0, k) == 0
  {
    if k > 0 {
      ShiftNothing(k - 1);
    }
  }

  lemma Twice(a: bv64)
    ensures Double(a) == a << 1 && Double(Double(a)) == a << 2
  {
  }

  lemma TwiceMore(a: bv64)
    ensures (a << 2) << 2 == a << 4 && (a << 4) << 4 == a << 8 && (a << 8) << 8 == a << 16
  {
  }

  lemma ShiftTwo(a: bv64)
    ensures Shift(a, 1) == a << 1 && Shift(a, 2) == a << 2
  {
    Twice(a);
    hide Double;
    assert Shift(a, 1) == Double(a) && Shift(a, 2) == Double(Double(a));
  }

  lemma ShiftFour(a: bv64)
    ensures Shift(a, 4) == a << 4
  {
    TwiceMore(a);
    hide Shift;
    ShiftTwo(a);
    ShiftTwo(a << 2);
    ShiftSum(a, 2, 2);
  }

  lemma ShiftEight(a: bv64)
    ensures Shift(a, 8) == a << 8
  {
    TwiceMore(a);
    hide Shift;
    ShiftFour(a);
    ShiftFour(a << 4);
    ShiftSum(a, 4, 4);
  }

  lemma ShiftSixteen(a: bv64)
    ensures Shift(a, 16) == a << 16
  {
    TwiceMore(a);
    hide Shift;
    ShiftEight(a);
    ShiftEight(a << 8);
    ShiftSum(a, 8, 8);
  }

  lemma TopBit()
    ensures Shift(1, 63) == 0x8000_0000_0000_0000
  {
    hide Shift;
    ShiftSixteen(1);
    ShiftSum(1, 16, 16);
    ShiftSixteen(0x1_0000);
    ShiftSum(1, 32, 16);
    ShiftSixteen(0x1_0000_0000);
    ShiftSum(1, 48, 8);
    ShiftEight(0x1_0000_0000_0000);
    ShiftSum(1, 56, 4);
    ShiftFour(0x100_0000_0000_0000);
    ShiftSum(1, 60, 2);
    ShiftTwo(0x1000_0000_0000_0000);
    ShiftSum(1, 62, 1);
    ShiftTwo(0x4000_0000_0000_0000);
  }

  lemma NoneLost(k: nat)
    requires k <= 63
    ensures Shift(1, k) != 0
  {
    TopBit();
    ShiftSum(1, k, 63 - k);
    ShiftNothing(63 - k);
  }

  lemma DoubleSingle(m: bv64)
    requires IsSingle(m) && Double(m) != 0
    ensures IsSingle(Double(m))
  {
  }

  lemma {:induction false} SingleIsSingle(i: nat)
    requires i < 64
    ensures IsSingle(Single(i))
  {
    hide Double;
    if i > 0 {
      SingleIsSingle(i - 1);
      NoneLost(i);
      DoubleSingle(Single(i - 1));
    }
  }

  lemma EvenMissesOne(a: bv64)
    ensures !Meets(1, Double(a)) && !Meets(Double(a), 1)
  {
  }

  lemma DoubledMeets(m: bv64, n: bv64)
    requires IsSingle(m) && Double(m) != 0
    ensures Meets(Double(m), Double(n)) <==> Meets(m, n)
  {
  }

  lemma {:induction false} SingleDisjoint(i: nat, j: nat)
    requires i < 64 && j < 64
    ensures Meets(Single(i), Single(j)) <==> i == j
  {
    hide Double, IsSingle;
    if i == 0 || j == 0 {
      if i > 0 {
        EvenMissesOne(Single(i - 1));
      }
      if j > 0 {
        EvenMissesOne(Single(j - 1));
      }
    } else {
      SingleDisjoint(i - 1, j - 1);
      SingleIsSingle(i - 1);
      NoneLost(i);
      DoubledMeets(Single(i - 1), Single(j - 1));
    }
  }

  lemma BitOfSingle(i: nat, j: nat)
    requires i < 64 && j < 64
    ensures Bit(Single(i), j) <==> i == j
  {
    SingleDisjoint(j, i);
  }

  lemma AllOrNothing(m: bv64, a: bv64)
    requires IsSingle(m)
    ensures m & a == 0 || m & a == m
  {
  }

  lemma AndSplit(m: bv64, a: bv64)
    ensures (m & a) | (m & !a) == m
    ensures (m & a) & (m & !a) == 0
  {
  }

  lemma AndOverAnd(m: bv64, a: bv64, b: bv64)
    ensures m & (a & b) == (m & a) & (m & b)
  {
  }

  lemma MeetsAndNot(m: bv64, a: bv64, b: bv64)
    requires IsSingle(m)
    ensures Meets(m, !a & b) <==> !Meets(m, a) && Meets(m, b)
  {
    AllOrNothing(m, a);
    AllOrNothing(m, !a);
    AllOrNothing(m, b);
    AndSplit(m, a);
    AndOverAnd(m, !a, b);
  }

  lemma BitOfAndNot(a: bv64, b: bv64, i: nat)
    requires i < 64
    ensures Bit(AndNot(a, b), i) <==> !Bit(a, i) && Bit(b, i)
  {
    SingleIsSingle(i);
    MeetsAndNot(Single(i), a, b);
  }

  /** All ones shifted left by `k`. */
  function Tail(k: nat): bv64
    requires k < 64
  {
    Shift(0xFFFF_FFFF_FFFF_FFFF, k)
  }

  /** The lowest set bit of `m` and everything above it, for a single bit. */
  function FromBit(m: bv64): bv64 { !(m - 1) }

  lemma DoubleFromBit(m: bv64)
    ensures Double(FromBit(m)) == FromBit(Double(m)) && FromBit(1) == 0xFFFF_FFFF_FFFF_FFFF
    ensures FromBit(0x8000_0000_0000_0000) == 0x8000_0000_0000_0000
  {
  }

  lemma {:induction false} TailFromSingle(k: nat)
    requires k < 64
    ensures Tail(k) == FromBit(Single(k))
  {
    hide Double, FromBit;
    if k == 0 {
      DoubleFromBit(1);
    } else {
      TailFromSingle(k - 1);
      DoubleFromBit(Single(k - 1));
    }
  }

  lemma DoubleTail(m: bv64)
    requires IsSingle(m) && IsSingle(Double(m))
    ensures FromBit(m) == Or(m, FromBit(Double(m)))
  {
  }

  lemma TailNext(k: nat)
    requires k < 63
    ensures Tail(k) == Or(Single(k), Tail(k + 1))
  {
    hide Double, Or, IsSingle, FromBit, Tail;
    TailFromSingle(k);
    TailFromSingle(k + 1);
    SingleIsSingle(k);
    SingleIsSingle(k + 1);
    DoubleTail(Single(k));
  }

  lemma LastTail()
    ensures Tail(63) == Single(63)
  {
    hide FromBit, Tail;
    TailFromSingle(63);
    TopBit();
    DoubleFromBit(1);
  }

  /** The tail from `k` holds exactly the bits from `k` up. */
  lemma {:induction false} BitOfTail(k: nat, i: nat)
    requires k < 64 && i < 64
    ensures Bit(Tail(k), i) <==> k <= i
    decreases 64 - k
  {
    hide Bit, Single, Tail, Or;
    if k == 63 {
      LastTail();
      BitOfSingle(63, i);
    } else {
      TailNext(k);
      BitOfOr(Single(k), Tail(k + 1), i);
      BitOfSingle(k, i);
      BitOfTail(k + 1, i);
    }
  }

  /** The bits from `low` to `high`, by two shifts. */
  function Window(low: nat, high: nat): bv64
    requires low <= high < 63
  {
    AndNot(Tail(high + 1), Tail(low))
  }

  lemma BitOfWindow(low: nat, high: nat, i: nat)
    requires low <= high < 63 && i < 64
    ensures Bit(Window(low, high), i) <==> low <= i <= high
  {
    BitOfAndNot(Tail(high + 1), Tail(low), i);
    hide Bit, Tail, AndNot;
    BitOfTail(high + 1, i);
    BitOfTail(low, i);
  }
}
