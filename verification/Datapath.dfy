/**
 The combinational blocks of the accelerator, wired as their Verilog modules wire them,
 and what each computes in terms of FIPS 197.
 */
module Datapath {

  import opened GaloisField
  import opened SboxRom
  import Fips = Fips197

  // ----- ShiftRow.v ----------------------------------------------------------------------

  function ShiftRow(s: Block): Block {
    Block(Word(s.w0.b0, s.w1.b1, s.w2.b2, s.w3.b3),
          Word(s.w1.b0, s.w2.b1, s.w3.b2, s.w0.b3),
          Word(s.w2.b0, s.w3.b1, s.w0.b2, s.w1.b3),
          Word(s.w3.b0, s.w0.b1, s.w1.b2, s.w2.b3))
  }

  /** The round engine shifts rows before the ROM substitutes; FIPS 197 substitutes first. */
  lemma SubBytesAfterShiftRow(s: Block)
    ensures Fips.SubBytes(ShiftRow(s)) == Fips.ShiftRows(Fips.SubBytes(s))
  {
    hide SubByte;
  }

  // ----- MixColumnsAddRoundKey.v ---------------------------------------------------------

  function Mult3(b: Byte): Byte {
    Xor(Xtime(b), b)
  }

  function MixOne(c: Word): Word {
    Word(Sum4(Xtime(c.b0), Mult3(c.b1), c.b2, c.b3),
         Sum4(c.b0, Xtime(c.b1), Mult3(c.b2), c.b3),
         Sum4(c.b0, c.b1, Xtime(c.b2), Mult3(c.b3)),
         Sum4(Mult3(c.b0), c.b1, c.b2, Xtime(c.b3)))
  }

  function MixColumnsAddRoundKey(s: Block, roundKey: Block): Block {
    XorBlock(Block(MixOne(s.w0), MixOne(s.w1), MixOne(s.w2), MixOne(s.w3)), roundKey)
  }

  lemma MixOneIsMixColumn(c: Word)
    ensures MixOne(c) == MulColumn(c, Mix)
  {
    GmulConstants(c.b0);
    GmulConstants(c.b1);
    GmulConstants(c.b2);
    GmulConstants(c.b3);
    XorComm(c.b0, Xtime(c.b0));
    XorComm(c.b1, Xtime(c.b1));
    XorComm(c.b2, Xtime(c.b2));
    XorComm(c.b3, Xtime(c.b3));
    hide Xor, Xtime, Gmul, Sum4;
  }

  lemma MixColumnsAddRoundKeyIsFips(s: Block, k: Block)
    ensures MixColumnsAddRoundKey(s, k) == XorBlock(Fips.MixColumns(s), k)
  {
    hide MixOne, MulColumn, XorBlock;
    MixOneIsMixColumn(s.w0);
    MixOneIsMixColumn(s.w1);
    MixOneIsMixColumn(s.w2);
    MixOneIsMixColumn(s.w3);
  }

  // ----- RoundKeyExpander.v --------------------------------------------------------------

  function RconCase(round: nat): Word {
    var top: Byte :=
      if round == 1 then 0x01 else if round == 2 then 0x02 else if round == 3 then 0x04
      else if round == 4 then 0x08 else if round == 5 then 0x10 else if round == 6 then 0x20
      else if round == 7 then 0x40 else if round == 8 then 0x80 else if round == 9 then 0x1b
      else if round == 10 then 0x36 else 0;
    Word(top, 0, 0, 0)
  }

  function RoundKeyExpander(phase: bool, prev: Block, round: nat, sbox: Block): Block {
    if phase then
      var temp := XorWord(XorWord(prev.w0, sbox.w3), RconCase(round));
      Block(temp,
            XorWord(prev.w1, temp),
            XorWord(prev.w2, XorWord(prev.w1, temp)),
            XorWord(prev.w3, XorWord(prev.w2, XorWord(prev.w1, temp))))
    else
      prev
  }

  /** The case table holds the powers of {02} that section 5.2 asks for, and zero outside rounds 1 to 10. */
  lemma RconCaseIsRcon(r: nat)
    ensures 1 <= r <= 10 ==> RconCase(r) == Fips.Rcon(r)
    ensures r == 0 || r > 10 ==> RconCase(r) == Word(0, 0, 0, 0)
  {
    assert Fips.RconByte(4) == 0x08;
    assert Fips.RconByte(7) == 0x40;
    assert Fips.RconByte(10) == 0x36;
  }

  lemma XorWordAssoc(u: Word, v: Word, w: Word)
    ensures XorWord(XorWord(u, v), w) == XorWord(u, XorWord(v, w))
  {
    hide Xor;
    XorAssoc(u.b0, v.b0, w.b0);
    XorAssoc(u.b1, v.b1, w.b1);
    XorAssoc(u.b2, v.b2, w.b2);
    XorAssoc(u.b3, v.b3, w.b3);
  }

  /** In its second phase the expander turns round key `r - 1` into round key `r`, provided the low word
      of the S-box output is SubWord(RotWord) of the previous key's last word. */
  lemma RoundKeyExpanderIsFips(key: Block, r: nat, sbox: Block)
    requires 1 <= r <= 10
    requires sbox.w3 == Fips.SubWord(RotWord(Fips.RoundKey(key, r - 1).w3))
    ensures RoundKeyExpander(true, Fips.RoundKey(key, r - 1), r, sbox) == Fips.RoundKey(key, r)
  {
    Fips.RoundKeyStep(key, r);
    RconCaseIsRcon(r);
    XorWordAssoc(Fips.RoundKey(key, r - 1).w0, sbox.w3, Fips.Rcon(r));
    hide Fips.RoundKey, Fips.SubWord, XorWord, RconCase, Fips.Rcon, RotWord;
  }
}
