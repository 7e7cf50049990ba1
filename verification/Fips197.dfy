/**
 AES-128 as FIPS 197 defines it: the transformations of sections 5.1 and 5.3, the key
 expansion of section 5.2, and the inverse cipher. Nothing here follows the hardware.
 */
module Fips197 {

  import opened GaloisField
  import opened SboxRom

  // ----- The state array of section 3.4 ---------------------------------------------------

  function Column(s: Block, c: nat): Word
    requires c < 4
  {
    if c == 0 then s.w0 else if c == 1 then s.w1 else if c == 2 then s.w2 else s.w3
  }

  /** Row `r` of column `c`. */
  function At(s: Block, r: nat, c: nat): Byte
    requires r < 4 && c < 4
  {
    Row(Column(s, c), r)
  }

  function Row(w: Word, r: nat): Byte
    requires r < 4
  {
    if r == 0 then w.b0 else if r == 1 then w.b1 else if r == 2 then w.b2 else w.b3
  }

  // ----- Section 5.1 ------------------------------------------------------------------------

  function SubWord(w: Word): Word {
    Word(SubByte(w.b0), SubByte(w.b1), SubByte(w.b2), SubByte(w.b3))
  }

  function SubBytes(s: Block): Block {
    Block(SubWord(s.w0), SubWord(s.w1), SubWord(s.w2), SubWord(s.w3))
  }

  function ShiftedColumn(s: Block, c: nat): Word
    requires c < 4
  {
    Word(At(s, 0, c), At(s, 1, (c + 1) % 4), At(s, 2, (c + 2) % 4), At(s, 3, (c + 3) % 4))
  }

  function ShiftRows(s: Block): Block {
    Block(ShiftedColumn(s, 0), ShiftedColumn(s, 1), ShiftedColumn(s, 2), ShiftedColumn(s, 3))
  }

  function MulColumns(s: Block, m: Circulant): Block {
    Block(MulColumn(s.w0, m), MulColumn(s.w1, m), MulColumn(s.w2, m), MulColumn(s.w3, m))
  }

  function MixColumns(s: Block): Block {
    MulColumns(s, Mix)
  }

  function Round(s: Block, k: Block): Block {
    XorBlock(MixColumns(ShiftRows(SubBytes(s))), k)
  }

  /** The state after round `n`, from a state `x` that has had the first AddRoundKey. */
  function Rounds(w: seq<Block>, x: Block, n: nat): Block
    requires n < |w|
  {
    if n == 0 then x else Round(Rounds(w, x, n - 1), w[n])
  }

  /** Rounds 1 to 10: everything after the first AddRoundKey. */
  function TenRounds(w: seq<Block>, x: Block): Block
    requires |w| == 11
  {
    XorBlock(ShiftRows(SubBytes(Rounds(w, x, 9))), w[10])
  }

  function Cipher(input: Block, w: seq<Block>): Block
    requires |w| == 11
  {
    TenRounds(w, XorBlock(input, w[0]))
  }

  // ----- The equations of section 5, byte by byte --------------------------------------------

  /** Equation 5.7: every byte of the state meets the byte of the round key in its own row and column. */
  lemma AddRoundKeyByte(s: Block, k: Block, r: nat, c: nat)
    requires r < 4 && c < 4
    ensures At(XorBlock(s, k), r, c) == At(s, r, c) ^ At(k, r, c)
  {
    XorIs(At(s, r, c), At(k, r, c));
    ByteOfSum(s, k, r, c);
    hide *;
  }

  lemma XorIs(a: Byte, b: Byte)
    ensures Xor(a, b) == a ^ b
  {}

  lemma ByteOfSum(s: Block, k: Block, r: nat, c: nat)
    requires r < 4 && c < 4
    ensures At(XorBlock(s, k), r, c) == Xor(At(s, r, c), At(k, r, c))
  {
    hide Xor;
  }

  lemma SubBytesByte(s: Block, r: nat, c: nat)
    requires r < 4 && c < 4
    ensures At(SubBytes(s), r, c) == SubByte(At(s, r, c))
  {
    hide SubByte;
  }

  /** Equation 5.3: row `r` is shifted by `r`. */
  lemma ShiftRowsByte(s: Block, r: nat, c: nat)
    requires r < 4 && c < 4
    ensures At(ShiftRows(s), r, c) == At(s, r, (c + r) % 4)
  {}

  /** Equation 5.6. */
  lemma MixColumnsByte(s: Block, r: nat, c: nat)
    requires r < 4 && c < 4
    ensures At(MixColumns(s), r, c)
         == Gmul(At(s, r, c), 2) ^ Gmul(At(s, (r + 1) % 4, c), 3) ^ At(s, (r + 2) % 4, c) ^ At(s, (r + 3) % 4, c)
  {
    hide Gmul, MulColumn, Row;
    RowOfMix(Column(s, c), r);
    Sum4IsSum(Gmul(At(s, r, c), 2), Gmul(At(s, (r + 1) % 4, c), 3), At(s, (r + 2) % 4, c), At(s, (r + 3) % 4, c));
    hide Sum4;
    assert Column(MixColumns(s), c) == MulColumn(Column(s, c), Mix);
  }

  lemma RowOfMix(w: Word, r: nat)
    requires r < 4
    ensures Row(MulColumn(w, Mix), r)
         == Sum4(Gmul(Row(w, r), 2), Gmul(Row(w, (r + 1) % 4), 3), Row(w, (r + 2) % 4), Row(w, (r + 3) % 4))
  {
    hide Sum4, Gmul, MulColumn;
    MixBytes(w);
    Sum4Cycles(w.b0, Gmul(w.b1, 2), Gmul(w.b2, 3), w.b3);
    Sum4Cycles(w.b0, w.b1, Gmul(w.b2, 2), Gmul(w.b3, 3));
    Sum4Cycles(Gmul(w.b0, 3), w.b1, w.b2, Gmul(w.b3, 2));
  }

  lemma MixBytes(w: Word)
    ensures MulColumn(w, Mix) == Word(
      Sum4(Gmul(w.b0, 2), Gmul(w.b1, 3), w.b2, w.b3), Sum4(w.b0, Gmul(w.b1, 2), Gmul(w.b2, 3), w.b3),
      Sum4(w.b0, w.b1, Gmul(w.b2, 2), Gmul(w.b3, 3)), Sum4(Gmul(w.b0, 3), w.b1, w.b2, Gmul(w.b3, 2)))
  {
    hide Sum4, Gmul;
    GmulOne(w.b0);
    GmulOne(w.b1);
    GmulOne(w.b2);
    GmulOne(w.b3);
  }

  lemma GmulOne(a: Byte)
    ensures Gmul(a, 1) == a
  {
    GmulConstants(a);
    hide Gmul;
  }

  lemma Sum4Cycles(a: Byte, b: Byte, c: Byte, d: Byte)
    ensures Sum4(a, b, c, d) == Sum4(b, c, d, a) == Sum4(c, d, a, b) == Sum4(d, a, b, c)
  {
    hide Sum4;
    Sum4Rotate(a, b, c, d);
    Sum4Rotate(b, c, d, a);
    Sum4Rotate(c, d, a, b);
  }

  lemma Sum4IsSum(a: Byte, b: Byte, c: Byte, d: Byte)
    ensures Sum4(a, b, c, d) == a ^ b ^ c ^ d
  {}

  // ----- Section 5.2 ------------------------------------------------------------------------

  /** x^(i-1) in GF(2^8). */
  function RconByte(i: nat): Byte
    requires i >= 1
  {
    if i == 1 then 1 else Xtime(RconByte(i - 1))
  }

  function Rcon(i: nat): Word
    requires i >= 1
  {
    Word(RconByte(i), 0, 0, 0)
  }

  /** w[i] of the expanded key. */
  function ExpandedWord(key: Block, i: nat): Word {
    if i < 4 then Column(key, i)
    else
      var temp := ExpandedWord(key, i - 1);
      var temp := if i % 4 == 0 then XorWord(SubWord(RotWord(temp)), Rcon(i / 4)) else temp;
      XorWord(ExpandedWord(key, i - 4), temp)
  }

  function RoundKey(key: Block, r: nat): Block {
    Block(ExpandedWord(key, 4 * r), ExpandedWord(key, 4 * r + 1), ExpandedWord(key, 4 * r + 2), ExpandedWord(key, 4 * r + 3))
  }

  /** The eleven round keys w[0..43]. */
  function KeyExpansion(key: Block): (w: seq<Block>)
    ensures |w| == 11
    ensures w[0] == key
  {
    seq(11, r requires 0 <= r < 11 => RoundKey(key, r))
  }

  // ----- Section 5.3 ------------------------------------------------------------------------

  function InvSubWord(w: Word): Word {
    Word(InvSubByte(w.b0), InvSubByte(w.b1), InvSubByte(w.b2), InvSubByte(w.b3))
  }

  function InvSubBytes(s: Block): Block {
    Block(InvSubWord(s.w0), InvSubWord(s.w1), InvSubWord(s.w2), InvSubWord(s.w3))
  }

  function InvShiftedColumn(s: Block, c: nat): Word
    requires c < 4
  {
    Word(At(s, 0, c), At(s, 1, (c + 3) % 4), At(s, 2, (c + 2) % 4), At(s, 3, (c + 1) % 4))
  }

  function InvShiftRows(s: Block): Block {
    Block(InvShiftedColumn(s, 0), InvShiftedColumn(s, 1), InvShiftedColumn(s, 2), InvShiftedColumn(s, 3))
  }

  function InvMixColumns(s: Block): Block {
    MulColumns(s, InvMix)
  }

  /** The loop of InvCipher, for rounds `n` down to 1. */
  function InvLoop(w: seq<Block>, s: Block, n: nat): Block
    requires n < |w|
    decreases n
  {
    if n == 0 then s
    else InvLoop(w, InvMixColumns(XorBlock(InvSubBytes(InvShiftRows(s)), w[n])), n - 1)
  }

  function InvTenRounds(w: seq<Block>, y: Block): Block
    requires |w| == 11
  {
    InvSubBytes(InvShiftRows(InvLoop(w, XorBlock(y, w[10]), 9)))
  }

  function InvCipher(output: Block, w: seq<Block>): Block
    requires |w| == 11
  {
    XorBlock(InvTenRounds(w, output), w[0])
  }

  // ----- Each transformation undoes its inverse ---------------------------------------------

  lemma SubBytesInverse(s: Block)
    ensures InvSubBytes(SubBytes(s)) == s
    ensures SubBytes(InvSubBytes(s)) == s
  {
    hide SubByte, InvSubByte;
    forall b: Byte
      ensures InvSubByte(SubByte(b)) == b
      ensures SubByte(InvSubByte(b)) == b
    {
      SubByteInverse(b);
    }
  }

  lemma ShiftRowsBytes(s: Block)
    ensures ShiftRows(s) == Block(
      Word(s.w0.b0, s.w1.b1, s.w2.b2, s.w3.b3), Word(s.w1.b0, s.w2.b1, s.w3.b2, s.w0.b3),
      Word(s.w2.b0, s.w3.b1, s.w0.b2, s.w1.b3), Word(s.w3.b0, s.w0.b1, s.w1.b2, s.w2.b3))
  {}

  lemma InvShiftRowsBytes(s: Block)
    ensures InvShiftRows(s) == Block(
      Word(s.w0.b0, s.w3.b1, s.w2.b2, s.w1.b3), Word(s.w1.b0, s.w0.b1, s.w3.b2, s.w2.b3),
      Word(s.w2.b0, s.w1.b1, s.w0.b2, s.w3.b3), Word(s.w3.b0, s.w2.b1, s.w1.b2, s.w0.b3))
  {}

  lemma ShiftRowsInverse(s: Block)
    ensures InvShiftRows(ShiftRows(s)) == s
    ensures ShiftRows(InvShiftRows(s)) == s
  {
    ShiftRowsBytes(s);
    InvShiftRowsBytes(s);
    ShiftRowsBytes(InvShiftRows(s));
    InvShiftRowsBytes(ShiftRows(s));
    hide ShiftRows, InvShiftRows;
  }

  lemma MixColumnsInverse(s: Block)
    ensures InvMixColumns(MixColumns(s)) == s
    ensures MixColumns(InvMixColumns(s)) == s
  {
    hide MulColumn;
    MixInverse(s.w0);
    MixInverse(s.w1);
    MixInverse(s.w2);
    MixInverse(s.w3);
  }

  lemma {:induction false} InvLoopAfterRounds(w: seq<Block>, x: Block, n: nat)
    requires n < |w|
    ensures InvLoop(w, ShiftRows(SubBytes(Rounds(w, x, n))), n) == ShiftRows(SubBytes(x))
  {
    hide SubBytes, ShiftRows, MixColumns, InvSubBytes, InvShiftRows, InvMixColumns, XorBlock;
    if n > 0 {
      var before := ShiftRows(SubBytes(Rounds(w, x, n - 1)));
      var after := Rounds(w, x, n);
      ShiftRowsInverse(SubBytes(after));
      SubBytesInverse(after);
      XorBlockCancel(MixColumns(before), w[n]);
      MixColumnsInverse(before);
      InvLoopAfterRounds(w, x, n - 1);
    }
  }

  lemma {:induction false} RoundsAfterInvLoop(w: seq<Block>, s: Block, n: nat)
    requires n < |w|
    ensures ShiftRows(SubBytes(Rounds(w, InvSubBytes(InvShiftRows(InvLoop(w, s, n))), n))) == s
    decreases n
  {
    hide SubBytes, ShiftRows, MixColumns, InvSubBytes, InvShiftRows, InvMixColumns, XorBlock;
    SubBytesInverse(InvShiftRows(s));
    ShiftRowsInverse(s);
    if n > 0 {
      var whitened := XorBlock(InvSubBytes(InvShiftRows(s)), w[n]);
      RoundsAfterInvLoop(w, InvMixColumns(whitened), n - 1);
      MixColumnsInverse(whitened);
      XorBlockCancel(InvSubBytes(InvShiftRows(s)), w[n]);
    }
  }

  /** The map of rounds 1 to 10 is a bijection, whatever the round keys. */
  lemma TenRoundsBijection(w: seq<Block>, x: Block)
    requires |w| == 11
    ensures InvTenRounds(w, TenRounds(w, x)) == x
    ensures TenRounds(w, InvTenRounds(w, x)) == x
  {
    hide SubBytes, ShiftRows, InvSubBytes, InvShiftRows, XorBlock, InvLoop, Rounds;
    XorBlockCancel(ShiftRows(SubBytes(Rounds(w, x, 9))), w[10]);
    InvLoopAfterRounds(w, x, 9);
    ShiftRowsInverse(SubBytes(x));
    SubBytesInverse(x);
    RoundsAfterInvLoop(w, XorBlock(x, w[10]), 9);
    XorBlockCancel(x, w[10]);
  }

  /** InvCipher undoes Cipher and Cipher undoes InvCipher, for every block and every eleven round keys. */
  lemma CipherBijection(x: Block, w: seq<Block>)
    requires |w| == 11
    ensures InvCipher(Cipher(x, w), w) == x
    ensures Cipher(InvCipher(x, w), w) == x
  {
    hide TenRounds, InvTenRounds, XorBlock;
    TenRoundsBijection(w, XorBlock(x, w[0]));
    XorBlockCancel(x, w[0]);
    TenRoundsBijection(w, x);
    XorBlockCancel(InvTenRounds(w, x), w[0]);
  }

  // ----- The key schedule runs backwards ------------------------------------------------------

  /** One round of section 5.2 on whole round keys. */
  function NextKey(k: Block, r: nat): Block
    requires r >= 1
  {
    var n0 := XorWord(k.w0, XorWord(SubWord(RotWord(k.w3)), Rcon(r)));
    var n1 := XorWord(k.w1, n0);
    var n2 := XorWord(k.w2, n1);
    Block(n0, n1, n2, XorWord(k.w3, n2))
  }

  lemma RoundKeyStep(key: Block, r: nat)
    requires r >= 1
    ensures RoundKey(key, r) == NextKey(RoundKey(key, r - 1), r)
  {
    hide SubWord, XorWord, Rcon;
  }

  function PreviousKey(k: Block, r: nat): Block
    requires r >= 1
  {
    var p3 := XorWord(k.w3, k.w2);
    Block(XorWord(k.w0, XorWord(SubWord(RotWord(p3)), Rcon(r))), XorWord(k.w1, k.w0), XorWord(k.w2, k.w1), p3)
  }

  lemma NextKeyInverse(k: Block, r: nat)
    requires r >= 1
    ensures PreviousKey(NextKey(k, r), r) == k
    ensures NextKey(PreviousKey(k, r), r) == k
  {
    hide SubWord, XorWord, Rcon;
    forall u, v: Word
      ensures XorWord(XorWord(u, v), v) == u
    {
      XorWordCancel(u, v);
    }
  }

  /** The cipher key recovered from the round key of round `r`. */
  function Unwind(k: Block, r: nat): Block
    decreases r
  {
    if r == 0 then k else Unwind(PreviousKey(k, r), r - 1)
  }

  lemma RoundKeyZero(key: Block)
    ensures RoundKey(key, 0) == key
  {}

  lemma {:induction false} UnwindRoundKey(key: Block, r: nat)
    ensures Unwind(RoundKey(key, r), r) == key
    decreases r
  {
    hide PreviousKey, NextKey, RoundKey;
    if r > 0 {
      RoundKeyStep(key, r);
      NextKeyInverse(RoundKey(key, r - 1), r);
      UnwindRoundKey(key, r - 1);
    } else {
      RoundKeyZero(key);
    }
  }

  lemma {:induction false} RoundKeyUnwind(k: Block, r: nat)
    ensures RoundKey(Unwind(k, r), r) == k
    decreases r
  {
    hide PreviousKey, NextKey, RoundKey;
    if r > 0 {
      RoundKeyUnwind(PreviousKey(k, r), r - 1);
      RoundKeyStep(Unwind(k, r), r);
      NextKeyInverse(k, r);
    } else {
      RoundKeyZero(k);
    }
  }

  /** Any one round key determines the cipher key, and any block is the round key of some cipher key. */
  lemma RoundKeyBijection(key: Block, key': Block, r: nat)
    ensures RoundKey(key, r) == RoundKey(key', r) <==> key == key'
    ensures exists origin :: RoundKey(origin, r) == key
  {
    hide RoundKey, Unwind;
    UnwindRoundKey(key, r);
    UnwindRoundKey(key', r);
    RoundKeyUnwind(key, r);
  }
}
