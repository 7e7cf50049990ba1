/**
 Bytes, four-byte words and sixteen-byte blocks, with the arithmetic of GF(2^8)
 that FIPS 197 section 4 builds on.

 `Xor`, `Sum4` and `Gmul` are hidden in most proofs: each algebraic law is proved
 once over a few free bytes, and everything larger is congruence over these laws.
 */
module GaloisField {

  type Byte = bv8

  /** A 32-bit word; `b0` is bits [31:24]. It is also one column of the AES state. */
  datatype Word = Word(b0: Byte, b1: Byte, b2: Byte, b3: Byte)

  /** A 128-bit bus; `w0` is bits [127:96]. */
  datatype Block = Block(w0: Word, w1: Word, w2: Word, w3: Word)

  const ZeroWord := Word(0, 0, 0, 0)
  const ZeroBlock := Block(ZeroWord, ZeroWord, ZeroWord, ZeroWord)

  function Xor(a: Byte, b: Byte): Byte {
    a ^ b
  }

  function XorWord(u: Word, v: Word): Word {
    Word(Xor(u.b0, v.b0), Xor(u.b1, v.b1), Xor(u.b2, v.b2), Xor(u.b3, v.b3))
  }

  function XorBlock(x: Block, y: Block): Block {
    Block(XorWord(x.w0, y.w0), XorWord(x.w1, y.w1), XorWord(x.w2, y.w2), XorWord(x.w3, y.w3))
  }

  function Sum4(a: Byte, b: Byte, c: Byte, d: Byte): Byte {
    a ^ b ^ c ^ d
  }

  function XtimeShift(b: Byte): Byte {
    b << 1
  }

  /** Multiplication by {02}: shift left, then subtract the field polynomial on overflow. */
  function Xtime(b: Byte): Byte {
    Xor(XtimeShift(b), if b & 0x80 != 0 then 0x1b else 0)
  }

  /** The product `a` * `k` in GF(2^8), one bit of `k` at a time (FIPS 197 section 4.2). */
  function Gmul(a: Byte, k: Byte): Byte
    decreases k
  {
    if k == 0 then 0 else Xor(if k & 1 != 0 then a else 0, Gmul(Xtime(a), k >> 1))
  }

  // ----- Laws of exclusive or ---------------------------------------------------

  lemma XorAssoc(a: Byte, b: Byte, c: Byte)
    ensures Xor(Xor(a, b), c) == Xor(a, Xor(b, c))
  {}

  lemma XorComm(a: Byte, b: Byte)
    ensures Xor(a, b) == Xor(b, a)
  {}

  lemma XorZero(a: Byte)
    ensures Xor(a, 0) == a && Xor(0, a) == a && Xor(a, a) == 0
  {}

  lemma XorCancel(a: Byte, k: Byte)
    ensures Xor(Xor(a, k), k) == a
  {}

  lemma XorSwap(x: Byte, y: Byte, u: Byte, v: Byte)
    ensures Xor(Xor(x, y), Xor(u, v)) == Xor(Xor(x, u), Xor(y, v))
  {
    hide Xor;
    XorAssoc(Xor(x, y), u, v);
    XorAssoc(x, y, u);
    XorComm(y, u);
    XorAssoc(x, u, y);
    XorAssoc(Xor(x, u), y, v);
  }

  lemma XorWordCancel(u: Word, v: Word)
    ensures XorWord(XorWord(u, v), v) == u
  {
    hide Xor;
    XorCancel(u.b0, v.b0);
    XorCancel(u.b1, v.b1);
    XorCancel(u.b2, v.b2);
    XorCancel(u.b3, v.b3);
  }

  lemma XorWordComm(u: Word, v: Word)
    ensures XorWord(u, v) == XorWord(v, u)
  {
    hide Xor;
    XorComm(u.b0, v.b0);
    XorComm(u.b1, v.b1);
    XorComm(u.b2, v.b2);
    XorComm(u.b3, v.b3);
  }

  lemma XorBlockCancel(x: Block, k: Block)
    ensures XorBlock(XorBlock(x, k), k) == x
  {
    hide XorWord;
    XorWordCancel(x.w0, k.w0);
    XorWordCancel(x.w1, k.w1);
    XorWordCancel(x.w2, k.w2);
    XorWordCancel(x.w3, k.w3);
  }

  /** Two keys that whiten a block to the same value are equal. */
  lemma XorBlockInjective(x: Block, k: Block, k': Block)
    requires XorBlock(x, k) == XorBlock(x, k')
    ensures k == k'
  {
    hide XorWord;
    XorWordComm(x.w0, k.w0);
    XorWordComm(x.w1, k.w1);
    XorWordComm(x.w2, k.w2);
    XorWordComm(x.w3, k.w3);
    XorWordComm(x.w0, k'.w0);
    XorWordComm(x.w1, k'.w1);
    XorWordComm(x.w2, k'.w2);
    XorWordComm(x.w3, k'.w3);
    XorBlockCancel(k, x);
    XorBlockCancel(k', x);
  }

  lemma Sum4AsXor(a: Byte, b: Byte, c: Byte, d: Byte)
    ensures Sum4(a, b, c, d) == Xor(Xor(a, b), Xor(c, d))
  {}

  lemma Sum4Rotate(a: Byte, b: Byte, c: Byte, d: Byte)
    ensures Sum4(a, b, c, d) == Sum4(b, c, d, a)
  {}

  lemma Sum4Linear(a: Byte, b: Byte, c: Byte, d: Byte, a': Byte, b': Byte, c': Byte, d': Byte)
    ensures Sum4(Xor(a, a'), Xor(b, b'), Xor(c, c'), Xor(d, d')) == Xor(Sum4(a, b, c, d), Sum4(a', b', c', d'))
  {
    Sum4AsXor(a, b, c, d);
    Sum4AsXor(a', b', c', d');
    Sum4AsXor(Xor(a, a'), Xor(b, b'), Xor(c, c'), Xor(d, d'));
    hide Xor, Sum4;
    XorSwap(a, a', b, b');
    XorSwap(c, c', d, d');
    XorSwap(Xor(a, b), Xor(a', b'), Xor(c, d), Xor(c', d'));
  }

  // ----- Multiplication is linear -----------------------------------------------

  lemma XtimeLinear(x: Byte, y: Byte)
    ensures Xtime(Xor(x, y)) == Xor(Xtime(x), Xtime(y))
  {
    var cx, cy: Byte := if x & 0x80 != 0 then 0x1b else 0, if y & 0x80 != 0 then 0x1b else 0;
    assert XtimeShift(Xor(x, y)) == Xor(XtimeShift(x), XtimeShift(y));
    assert (if Xor(x, y) & 0x80 != 0 then 0x1b else 0) == Xor(cx, cy);
    hide Xor, XtimeShift;
    XorSwap(XtimeShift(x), cx, XtimeShift(y), cy);
  }

  /** Multiplication by x: as a polynomial the product has nine coefficients, and when the ninth is not zero the
      polynomial {01}{1b} is taken off (FIPS 197 section 4.2.1). */
  lemma XtimeIsReduction(b: Byte)
    ensures var product := b as bv9 << 1;
            Xtime(b) as bv9 == if product & 0x100 != 0 then product ^ 0x11b else product
  {}

  lemma {:induction false} GmulLinear(x: Byte, y: Byte, k: Byte)
    ensures Gmul(Xor(x, y), k) == Xor(Gmul(x, k), Gmul(y, k))
    decreases k
  {
    XorZero(0);
    hide Xor;
    if k != 0 {
      XtimeLinear(x, y);
      hide Xtime;
      GmulLinear(Xtime(x), Xtime(y), k >> 1);
      var u, v := Gmul(Xtime(x), k >> 1), Gmul(Xtime(y), k >> 1);
      XorSwap(x, y, u, v);
      XorSwap(0, 0, u, v);
    }
  }

  lemma {:induction false} GmulZero(k: Byte)
    ensures Gmul(0, k) == 0
    decreases k
  {
    assert Xtime(0) == 0;
    XorZero(0);
    hide Xtime, Xor;
    if k != 0 {
      GmulZero(k >> 1);
    }
  }

  lemma {:induction false} GmulXtime(a: Byte, k: Byte)
    ensures Gmul(Xtime(a), k) == Xtime(Gmul(a, k))
    decreases k
  {
    assert Xtime(0) == 0;
    if k != 0 {
      var lead := if k & 1 != 0 then a else 0;
      XtimeLinear(lead, Gmul(Xtime(a), k >> 1));
      hide Xtime, Xor;
      GmulXtime(Xtime(a), k >> 1);
    }
  }

  lemma {:induction false} GmulCommute(a: Byte, k: Byte, l: Byte)
    ensures Gmul(Gmul(a, k), l) == Gmul(Gmul(a, l), k)
    decreases k
  {
    GmulZero(l);
    hide Xtime, Xor;
    if k != 0 {
      var lead := if k & 1 != 0 then a else 0;
      GmulLinear(lead, Gmul(Xtime(a), k >> 1), l);
      GmulXtime(a, l);
      GmulCommute(Xtime(a), k >> 1, l);
    }
  }

  /** The multipliers of the two matrices as polynomials in {02}. */
  lemma GmulConstants(a: Byte)
    ensures Gmul(a, 0x01) == a
    ensures Gmul(a, 0x02) == Xtime(a)
    ensures Gmul(a, 0x03) == Xor(a, Xtime(a))
    ensures Gmul(a, 0x09) == Xor(a, Xtime(Xtime(Xtime(a))))
    ensures Gmul(a, 0x0b) == Xor(a, Xor(Xtime(a), Xtime(Xtime(Xtime(a)))))
    ensures Gmul(a, 0x0d) == Xor(a, Xor(Xtime(Xtime(a)), Xtime(Xtime(Xtime(a)))))
    ensures Gmul(a, 0x0e) == Xor(Xtime(a), Xor(Xtime(Xtime(a)), Xtime(Xtime(Xtime(a)))))
  {
    var a1 := Xtime(a);
    var a2 := Xtime(a1);
    var a3 := Xtime(a2);
    ShiftOut(a);
    ShiftOut(a1);
    ShiftOut(a2);
    ShiftOut(a3);
    hide Xtime;
    assert Gmul(a2, 2) == a3;
    assert Gmul(a2, 3) == Xor(a2, a3);
    assert Gmul(a1, 4) == a3;
    assert Gmul(a1, 5) == Xor(a1, a3);
    assert Gmul(a1, 6) == Xor(a2, a3);
    assert Gmul(a1, 7) == Xor(a1, Xor(a2, a3));
  }

  lemma ShiftOut(a: Byte)
    ensures Gmul(a, 1) == a
    ensures forall b :: Xor(0, b) == b
  {}

  // ----- Columns times a circulant matrix ------------------------------------------

  /** The circulant matrix whose first row is (k0, k1, k2, k3) (FIPS 197 section 4.3). */
  datatype Circulant = Circulant(k0: Byte, k1: Byte, k2: Byte, k3: Byte)

  function Dot(w: Word, k0: Byte, k1: Byte, k2: Byte, k3: Byte): Byte {
    Sum4(Gmul(w.b0, k0), Gmul(w.b1, k1), Gmul(w.b2, k2), Gmul(w.b3, k3))
  }

  function MulColumn(w: Word, m: Circulant): Word {
    Word(Dot(w, m.k0, m.k1, m.k2, m.k3),
         Dot(w, m.k3, m.k0, m.k1, m.k2),
         Dot(w, m.k2, m.k3, m.k0, m.k1),
         Dot(w, m.k1, m.k2, m.k3, m.k0))
  }

  const Mix := Circulant(0x02, 0x03, 0x01, 0x01)
  const InvMix := Circulant(0x0e, 0x0b, 0x0d, 0x09)

  lemma DotLinear(u: Word, v: Word, k0: Byte, k1: Byte, k2: Byte, k3: Byte)
    ensures Dot(XorWord(u, v), k0, k1, k2, k3) == Xor(Dot(u, k0, k1, k2, k3), Dot(v, k0, k1, k2, k3))
  {
    hide Xor, Sum4, Gmul;
    GmulLinear(u.b0, v.b0, k0);
    GmulLinear(u.b1, v.b1, k1);
    GmulLinear(u.b2, v.b2, k2);
    GmulLinear(u.b3, v.b3, k3);
    Sum4Linear(Gmul(u.b0, k0), Gmul(u.b1, k1), Gmul(u.b2, k2), Gmul(u.b3, k3),
               Gmul(v.b0, k0), Gmul(v.b1, k1), Gmul(v.b2, k2), Gmul(v.b3, k3));
  }

  lemma MulColumnLinear(u: Word, v: Word, m: Circulant)
    ensures MulColumn(XorWord(u, v), m) == XorWord(MulColumn(u, m), MulColumn(v, m))
  {
    hide Xor, Dot;
    DotLinear(u, v, m.k0, m.k1, m.k2, m.k3);
    DotLinear(u, v, m.k3, m.k0, m.k1, m.k2);
    DotLinear(u, v, m.k2, m.k3, m.k0, m.k1);
    DotLinear(u, v, m.k1, m.k2, m.k3, m.k0);
  }

  /** {a0, a1, a2, a3} becomes {a1, a2, a3, a0}. */
  function RotWord(w: Word): Word {
    Word(w.b1, w.b2, w.b3, w.b0)
  }

  lemma DotRotate(w: Word, k0: Byte, k1: Byte, k2: Byte, k3: Byte)
    ensures Dot(RotWord(w), k1, k2, k3, k0) == Dot(w, k0, k1, k2, k3)
  {
    hide Gmul;
    Sum4Rotate(Gmul(w.b0, k0), Gmul(w.b1, k1), Gmul(w.b2, k2), Gmul(w.b3, k3));
    hide Sum4;
  }

  lemma MulColumnRotate(w: Word, m: Circulant)
    ensures MulColumn(RotWord(w), m) == RotWord(MulColumn(w, m))
  {
    hide Dot;
    DotRotate(w, m.k0, m.k1, m.k2, m.k3);
    DotRotate(w, m.k3, m.k0, m.k1, m.k2);
    DotRotate(w, m.k2, m.k3, m.k0, m.k1);
    DotRotate(w, m.k1, m.k2, m.k3, m.k0);
  }

  // ----- The two AES matrices are inverses of each other ------------------------------

  function Unit(a: Byte): Word {
    Word(a, 0, 0, 0)
  }

  lemma MulUnit(a: Byte, m: Circulant)
    ensures MulColumn(Unit(a), m) == Word(Gmul(a, m.k0), Gmul(a, m.k3), Gmul(a, m.k2), Gmul(a, m.k1))
  {
    GmulZero(m.k0);
    GmulZero(m.k1);
    GmulZero(m.k2);
    GmulZero(m.k3);
    hide Gmul;
  }

  lemma UnitMixInverse(a: Byte)
    ensures MulColumn(MulColumn(Unit(a), Mix), InvMix) == Unit(a)
  {
    MulUnit(a, Mix);
    GmulConstants(a);
    GmulConstants(Xtime(a));
    GmulConstants(Xor(a, Xtime(a)));
    hide Gmul;
  }

  lemma Sum4SwapEnds(a: Byte, b: Byte, c: Byte, d: Byte)
    ensures Sum4(a, b, c, d) == Sum4(a, d, c, b)
  {}

  lemma Sum4Reverse(a: Byte, b: Byte, c: Byte, d: Byte)
    ensures Sum4(a, b, c, d) == Sum4(a, d, c, b) == Sum4(d, c, b, a) == Sum4(c, b, a, d) == Sum4(b, a, d, c)
  {
    hide Sum4;
    Sum4SwapEnds(a, b, c, d);
    Sum4Rotate(a, d, c, b);
    Sum4Rotate(d, c, b, a);
    Sum4Rotate(c, b, a, d);
  }

  lemma {:induction false} GmulCommuteAll(a: Byte)
    ensures forall k, l :: Gmul(Gmul(a, k), l) == Gmul(Gmul(a, l), k)
  {
    hide Gmul;
    forall k, l {
      GmulCommute(a, k, l);
    }
  }

  /** Circulant matrices commute on a column with a single nonzero byte. */
  lemma UnitCommute(a: Byte, m: Circulant, n: Circulant)
    ensures MulColumn(MulColumn(Unit(a), m), n) == MulColumn(MulColumn(Unit(a), n), m)
  {
    MulUnit(a, m);
    MulUnit(a, n);
    GmulCommuteAll(a);
    hide Gmul, Sum4;
    var a0, a1, a2, a3 := Gmul(a, m.k0), Gmul(a, m.k1), Gmul(a, m.k2), Gmul(a, m.k3);
    Sum4Reverse(Gmul(a0, n.k0), Gmul(a3, n.k1), Gmul(a2, n.k2), Gmul(a1, n.k3));
    Sum4Reverse(Gmul(a0, n.k3), Gmul(a3, n.k0), Gmul(a2, n.k1), Gmul(a1, n.k2));
    Sum4Reverse(Gmul(a0, n.k2), Gmul(a3, n.k3), Gmul(a2, n.k0), Gmul(a1, n.k1));
    Sum4Reverse(Gmul(a0, n.k1), Gmul(a3, n.k2), Gmul(a2, n.k3), Gmul(a1, n.k0));
  }

  /** If `n` undoes `m` on the first unit column, then it undoes `m` on every column. */
  lemma InverseFromUnits(w: Word, m: Circulant, n: Circulant)
    requires forall a :: MulColumn(MulColumn(Unit(a), m), n) == Unit(a)
    ensures MulColumn(MulColumn(w, m), n) == w
  {
    var e0, e1, e2, e3 := Unit(w.b0), RotWord(RotWord(RotWord(Unit(w.b1)))), RotWord(RotWord(Unit(w.b2))), RotWord(Unit(w.b3));
    var lo, hi := XorWord(e0, e1), XorWord(e2, e3);
    XorZero(0);
    XorZero(w.b0);
    XorZero(w.b1);
    XorZero(w.b2);
    XorZero(w.b3);
    hide Xor, MulColumn;
    assert w == XorWord(lo, hi);
    RotatedUnitInverse(w.b1, m, n);
    RotatedUnitInverse(w.b2, m, n);
    RotatedUnitInverse(w.b3, m, n);
    MulColumnLinear(e0, e1, m);
    MulColumnLinear(e2, e3, m);
    MulColumnLinear(lo, hi, m);
    MulColumnLinear(MulColumn(e0, m), MulColumn(e1, m), n);
    MulColumnLinear(MulColumn(e2, m), MulColumn(e3, m), n);
    MulColumnLinear(MulColumn(lo, m), MulColumn(hi, m), n);
  }

  lemma RotatedUnitInverse(a: Byte, m: Circulant, n: Circulant)
    requires MulColumn(MulColumn(Unit(a), m), n) == Unit(a)
    ensures var r1 := RotWord(Unit(a));
            var r2 := RotWord(r1);
            var r3 := RotWord(r2);
            && MulColumn(MulColumn(r1, m), n) == r1
            && MulColumn(MulColumn(r2, m), n) == r2
            && MulColumn(MulColumn(r3, m), n) == r3
  {
    hide MulColumn;
    var r0 := Unit(a);
    var r1 := RotWord(r0);
    var r2 := RotWord(r1);
    MulColumnRotate(r0, m);
    MulColumnRotate(r1, m);
    MulColumnRotate(r2, m);
    MulColumnRotate(MulColumn(r0, m), n);
    MulColumnRotate(MulColumn(r1, m), n);
    MulColumnRotate(MulColumn(r2, m), n);
  }

  lemma MixInverse(w: Word)
    ensures MulColumn(MulColumn(w, Mix), InvMix) == w
    ensures MulColumn(MulColumn(w, InvMix), Mix) == w
  {
    forall a: Byte
      ensures MulColumn(MulColumn(Unit(a), Mix), InvMix) == Unit(a)
      ensures MulColumn(MulColumn(Unit(a), InvMix), Mix) == Unit(a)
    {
      UnitMixInverse(a);
      UnitCommute(a, Mix, InvMix);
    }
    hide MulColumn, Unit;
    InverseFromUnits(w, Mix, InvMix);
    InverseFromUnits(w, InvMix, Mix);
  }
}
