/**
 Four bits at a time: the mask and the shift of alt_printf, and the hexadecimal digits that they pick out.
 */
module HexBits {
  import opened Numerals

  /** v & (0xF << shift) */
  function Masked(v: bv32, shift: nat): bv32
    requires shift < 32
  {
    v & (0xF << shift)
  }

  /** (v & (0xF << shift)) >> shift */
  function NibbleAt(v: bv32, shift: nat): bv32
    requires shift < 32
  {
    Masked(v, shift) >> shift
  }

  /** The number that the low four bits stand for. */
  function Low(v: bv32): (d: nat)
    ensures d < 16
  {
    (if v & 8 != 0 then 8 else 0) + (if v & 4 != 0 then 4 else 0)
    + (if v & 2 != 0 then 2 else 0) + (if v & 1 != 0 then 1 else 0)
  }

  lemma LowIsMask(v: bv32)
    ensures Low(v) == (v & 0xF) as nat
  {}

  /** v >> n for whole digits */
  function Shr(v: bv32, n: nat): bv32 {
    if n == 0 then v else if n == 4 then v >> 4 else if n == 8 then v >> 8 else if n == 12 then v >> 12
    else if n == 16 then v >> 16 else if n == 20 then v >> 20 else if n == 24 then v >> 24
    else if n == 28 then v >> 28 else 0
  }

  /** The number that the low 4 * `k` bits stand for. */
  function Num(v: bv32, k: nat): nat {
    if k == 0 then 0 else 16 * Num(Shr(v, 4), k - 1) + Low(v)
  }

  /** The number that the whole word stands for. */
  function Number(v: bv32): nat {
    Num(v, 8)
  }

  /** `v` without its low 4 * `j` bits. */
  function Down(v: bv32, j: nat): bv32 {
    if j == 0 then v else Shr(Down(v, j - 1), 4)
  }

  // ----- Shift by shift ------------------------------------------------------------------------------

  lemma Down2(v: bv32) ensures Shr(Shr(v, 4), 4) == Shr(v, 8) {}
  lemma Down3(v: bv32) ensures Shr(Shr(v, 8), 4) == Shr(v, 12) {}
  lemma Down4(v: bv32) ensures Shr(Shr(v, 12), 4) == Shr(v, 16) {}
  lemma Down5(v: bv32) ensures Shr(Shr(v, 16), 4) == Shr(v, 20) {}
  lemma Down6(v: bv32) ensures Shr(Shr(v, 20), 4) == Shr(v, 24) {}
  lemma Down7(v: bv32) ensures Shr(Shr(v, 24), 4) == Shr(v, 28) {}
  lemma Down8(v: bv32) ensures Shr(Shr(v, 28), 4) == 0 {}
  lemma Down0(v: bv32) ensures Shr(v, 0) == v {}

  lemma {:induction false} DownIs(v: bv32, j: nat)
    requires j <= 8
    ensures Down(v, j) == if j == 8 then 0 else Shr(v, 4 * j)
  {
    hide Shr;
    if j == 0 {
      Down0(v);
    } else {
      DownIs(v, j - 1);
      Down2(v); Down3(v); Down4(v); Down5(v); Down6(v); Down7(v); Down8(v);
    }
  }

  lemma Pick0(v: bv32) ensures Low(NibbleAt(v, 0)) == Low(Shr(v, 0)) {}
  lemma Pick1(v: bv32) ensures Low(NibbleAt(v, 4)) == Low(Shr(v, 4)) {}
  lemma Pick2(v: bv32) ensures Low(NibbleAt(v, 8)) == Low(Shr(v, 8)) {}
  lemma Pick3(v: bv32) ensures Low(NibbleAt(v, 12)) == Low(Shr(v, 12)) {}
  lemma Pick4(v: bv32) ensures Low(NibbleAt(v, 16)) == Low(Shr(v, 16)) {}
  lemma Pick5(v: bv32) ensures Low(NibbleAt(v, 20)) == Low(Shr(v, 20)) {}
  lemma Pick6(v: bv32) ensures Low(NibbleAt(v, 24)) == Low(Shr(v, 24)) {}
  lemma Pick7(v: bv32) ensures Low(NibbleAt(v, 28)) == Low(Shr(v, 28)) {}

  lemma Pick(v: bv32, j: nat)
    requires j < 8
    ensures Low(NibbleAt(v, 4 * j)) == Low(Down(v, j))
  {
    hide NibbleAt, Low, Down, Shr;
    DownIs(v, j);
    Pick0(v); Pick1(v); Pick2(v); Pick3(v); Pick4(v); Pick5(v); Pick6(v); Pick7(v);
  }

  lemma Empty0(v: bv32) ensures Masked(v, 0) == 0 <==> Low(NibbleAt(v, 0)) == 0 {}
  lemma Empty1(v: bv32) ensures Masked(v, 4) == 0 <==> Low(NibbleAt(v, 4)) == 0 {}
  lemma Empty2(v: bv32) ensures Masked(v, 8) == 0 <==> Low(NibbleAt(v, 8)) == 0 {}
  lemma Empty3(v: bv32) ensures Masked(v, 12) == 0 <==> Low(NibbleAt(v, 12)) == 0 {}
  lemma Empty4(v: bv32) ensures Masked(v, 16) == 0 <==> Low(NibbleAt(v, 16)) == 0 {}
  lemma Empty5(v: bv32) ensures Masked(v, 20) == 0 <==> Low(NibbleAt(v, 20)) == 0 {}
  lemma Empty6(v: bv32) ensures Masked(v, 24) == 0 <==> Low(NibbleAt(v, 24)) == 0 {}
  lemma Empty7(v: bv32) ensures Masked(v, 28) == 0 <==> Low(NibbleAt(v, 28)) == 0 {}

  /** The loop condition of alt_printf: the mask leaves nothing exactly when the digit is zero. */
  lemma EmptyIsZero(v: bv32, j: nat)
    requires j < 8
    ensures Masked(v, 4 * j) == 0 <==> Low(NibbleAt(v, 4 * j)) == 0
  {
    hide Masked, NibbleAt, Low;
    Empty0(v); Empty1(v); Empty2(v); Empty3(v); Empty4(v); Empty5(v); Empty6(v); Empty7(v);
  }

  lemma Small0(v: bv32) ensures NibbleAt(v, 0) < 16 {}
  lemma Small1(v: bv32) ensures NibbleAt(v, 4) < 16 {}
  lemma Small2(v: bv32) ensures NibbleAt(v, 8) < 16 {}
  lemma Small3(v: bv32) ensures NibbleAt(v, 12) < 16 {}
  lemma Small4(v: bv32) ensures NibbleAt(v, 16) < 16 {}
  lemma Small5(v: bv32) ensures NibbleAt(v, 20) < 16 {}
  lemma Small6(v: bv32) ensures NibbleAt(v, 24) < 16 {}
  lemma Small7(v: bv32) ensures NibbleAt(v, 28) < 16 {}

  lemma Small(v: bv32, j: nat)
    requires j < 8
    ensures NibbleAt(v, 4 * j) < 16
  {
    hide NibbleAt;
    Small0(v); Small1(v); Small2(v); Small3(v); Small4(v); Small5(v); Small6(v); Small7(v);
  }

  /** The two branches that make a character of a digit. */
  lemma DigitBranch(d: bv32)
    requires d < 16
    ensures d <= 9 <==> Low(d) <= 9
    ensures d > 9 ==> Low(d - 10) == Low(d) - 10
  {
    BranchTest(d);
    if d > 9 {
      BranchDifference(d);
    }
  }

  lemma BranchTest(d: bv32) requires d < 16 ensures d <= 9 <==> Low(d) <= 9 {}

  lemma BranchDifference(d: bv32) requires 9 < d < 16 ensures Low(d - 10) == Low(d) - 10 {}

  lemma OneNibble(v: bv32, k: nat)
    requires k > 0
    ensures Num(v, k) == 16 * Num(Shr(v, 4), k - 1) + Low(v)
  {}

  lemma NumberSum(v: bv32)
    ensures Number(v) == Low(Shr(v, 0)) + 0x10 * Low(Shr(v, 4)) + 0x100 * Low(Shr(v, 8)) + 0x1000 * Low(Shr(v, 12))
      + 0x10000 * Low(Shr(v, 16)) + 0x100000 * Low(Shr(v, 20)) + 0x1000000 * Low(Shr(v, 24))
      + 0x10000000 * Low(Shr(v, 28))
  {
    assert Num(Shr(Shr(v, 28), 4), 0) == 0;
    hide Low, Shr, Num;
    Down0(v); Down2(v); Down3(v); Down4(v); Down5(v); Down6(v); Down7(v);
    OneNibble(v, 8); OneNibble(Shr(v, 4), 7); OneNibble(Shr(v, 8), 6); OneNibble(Shr(v, 12), 5);
    OneNibble(Shr(v, 16), 4); OneNibble(Shr(v, 20), 3); OneNibble(Shr(v, 24), 2); OneNibble(Shr(v, 28), 1);
  }

  /** The number that a word stands for, in the bits of the word: sixteen to the power `j` for bit 4 * `j`. */
  lemma NumberOfBits(v: bv32)
    ensures Number(v) == (v & 0xF) as nat
      + 0x10 * ((v >> 4) & 0xF) as nat
      + 0x100 * ((v >> 8) & 0xF) as nat
      + 0x1000 * ((v >> 12) & 0xF) as nat
      + 0x10000 * ((v >> 16) & 0xF) as nat
      + 0x100000 * ((v >> 20) & 0xF) as nat
      + 0x1000000 * ((v >> 24) & 0xF) as nat
      + 0x10000000 * ((v >> 28) & 0xF) as nat
  {
    NumberSum(v);
    hide Number, Low;
    LowIsMask(v); LowIsMask(v >> 4); LowIsMask(v >> 8); LowIsMask(v >> 12);
    LowIsMask(v >> 16); LowIsMask(v >> 20); LowIsMask(v >> 24); LowIsMask(v >> 28);
  }

  // ----- From bits to digits ---------------------------------------------------------------------------

  lemma NumStep(v: bv32, k: nat)
    requires k > 0
    ensures Quot(Num(v, k), 16) == Num(Shr(v, 4), k - 1) && Rest(Num(v, k), 16) == Low(v)
  {
    hide Low, Shr;
    assert Num(v, k) == Num(Shr(v, 4), k - 1) * 16 + Low(v);
    DivUnique(Num(v, k), 16, Num(Shr(v, 4), k - 1), Low(v));
  }

  lemma {:induction false} NumberDown(v: bv32, j: nat)
    requires j <= 8
    ensures Quot(Number(v), Pow(16, j)) == Num(Down(v, j), 8 - j)
  {
    hide Quot, Rest, Low, Shr;
    if j == 0 {
      DivUnique(Number(v), 1, Number(v), 0);
    } else {
      NumberDown(v, j - 1);
      QuotTwice(Number(v), Pow(16, j - 1), 16);
      assert Pow(16, j) == 16 * Pow(16, j - 1);
      NumStep(Down(v, j - 1), 9 - j);
    }
  }

  /** What mask and shift pick out at bit 4 * `j` is the `j`th hexadecimal digit of the number. */
  lemma NibbleIsDigit(v: bv32, j: nat)
    requires j < 8
    ensures Low(NibbleAt(v, 4 * j)) == Rest(Quot(Number(v), Pow(16, j)), 16)
  {
    hide Quot, Rest, Low, NibbleAt, Number, Pow, Shr;
    Pick(v, j);
    NumberDown(v, j);
    NumStep(Down(v, j), 8 - j);
  }

  lemma {:induction false} NumBound(v: bv32, k: nat)
    ensures Num(v, k) < Pow(16, k)
    decreases k
  {
    hide Low, Shr;
    if k > 0 {
      NumBound(Shr(v, 4), k - 1);
    }
  }

  lemma NothingLeft(v: bv32)
    requires Shr(v, 4) == 0 && Low(v) == 0
    ensures v == 0
  {}

  lemma {:induction false} ZeroNumDown(v: bv32, j: nat)
    requires j <= 8 && Num(Down(v, j), 8 - j) == 0
    ensures Down(v, j) == 0
    decreases 8 - j
  {
    hide Low, Shr;
    if j == 8 {
      DownIs(v, 8);
    } else {
      ZeroNumDown(v, j + 1);
      NothingLeft(Down(v, j));
    }
  }

  /** The number is zero exactly when the word is. */
  lemma ZeroNumber(v: bv32)
    ensures Number(v) == 0 <==> v == 0
  {
    if Number(v) == 0 {
      ZeroNumDown(v, 0);
    }
    if v == 0 {
      ZeroBits(8);
    }
  }

  lemma ShiftedZero()
    ensures Shr(0, 4) == 0 && Low(0) == 0
  {}

  lemma {:induction false} ZeroBits(k: nat)
    ensures Num(0, k) == 0
    decreases k
  {
    ShiftedZero();
    hide Low, Shr;
    if k > 0 {
      ZeroBits(k - 1);
    }
  }
}
