/**
 The S-box ROM: a 256-entry table addressed by a byte. The contents are the case table
 of asROM.v, which sbox.mif repeats entry by entry.
 */
module SboxRom {

  import opened GaloisField

  /** The value selected by the low four bits of `b`. */
  function PickLow(b: Byte, v0: Byte, v1: Byte, v2: Byte, v3: Byte, v4: Byte, v5: Byte, v6: Byte, v7: Byte,
                   v8: Byte, v9: Byte, va: Byte, vb: Byte, vc: Byte, vd: Byte, ve: Byte, vf: Byte): Byte
  {
    if b & 0x08 == 0 then
      if b & 0x04 == 0 then
        if b & 0x02 == 0 then (if b & 0x01 == 0 then v0 else v1) else (if b & 0x01 == 0 then v2 else v3)
      else
        if b & 0x02 == 0 then (if b & 0x01 == 0 then v4 else v5) else (if b & 0x01 == 0 then v6 else v7)
    else if b & 0x04 == 0 then
      if b & 0x02 == 0 then (if b & 0x01 == 0 then v8 else v9) else (if b & 0x01 == 0 then va else vb)
    else
      if b & 0x02 == 0 then (if b & 0x01 == 0 then vc else vd) else (if b & 0x01 == 0 then ve else vf)
  }

  /** The table, one row for each high half of the address. */
  function SubByte(b: Byte): Byte {
    if b & 0x80 == 0 then
      if b & 0x40 == 0 then
        if b & 0x20 == 0 then
          if b & 0x10 == 0 then
            PickLow(b, 0x63, 0x7c, 0x77, 0x7b, 0xf2, 0x6b, 0x6f, 0xc5, 0x30, 0x01, 0x67, 0x2b, 0xfe, 0xd7, 0xab, 0x76)
          else
            PickLow(b, 0xca, 0x82, 0xc9, 0x7d, 0xfa, 0x59, 0x47, 0xf0, 0xad, 0xd4, 0xa2, 0xaf, 0x9c, 0xa4, 0x72, 0xc0)
        else
          if b & 0x10 == 0 then
            PickLow(b, 0xb7, 0xfd, 0x93, 0x26, 0x36, 0x3f, 0xf7, 0xcc, 0x34, 0xa5, 0xe5, 0xf1, 0x71, 0xd8, 0x31, 0x15)
          else
            PickLow(b, 0x04, 0xc7, 0x23, 0xc3, 0x18, 0x96, 0x05, 0x9a, 0x07, 0x12, 0x80, 0xe2, 0xeb, 0x27, 0xb2, 0x75)
      else
        if b & 0x20 == 0 then
          if b & 0x10 == 0 then
            PickLow(b, 0x09, 0x83, 0x2c, 0x1a, 0x1b, 0x6e, 0x5a, 0xa0, 0x52, 0x3b, 0xd6, 0xb3, 0x29, 0xe3, 0x2f, 0x84)
          else
            PickLow(b, 0x53, 0xd1, 0x00, 0xed, 0x20, 0xfc, 0xb1, 0x5b, 0x6a, 0xcb, 0xbe, 0x39, 0x4a, 0x4c, 0x58, 0xcf)
        else
          if b & 0x10 == 0 then
            PickLow(b, 0xd0, 0xef, 0xaa, 0xfb, 0x43, 0x4d, 0x33, 0x85, 0x45, 0xf9, 0x02, 0x7f, 0x50, 0x3c, 0x9f, 0xa8)
          else
            PickLow(b, 0x51, 0xa3, 0x40, 0x8f, 0x92, 0x9d, 0x38, 0xf5, 0xbc, 0xb6, 0xda, 0x21, 0x10, 0xff, 0xf3, 0xd2)
    else
      if b & 0x40 == 0 then
        if b & 0x20 == 0 then
          if b & 0x10 == 0 then
            PickLow(b, 0xcd, 0x0c, 0x13, 0xec, 0x5f, 0x97, 0x44, 0x17, 0xc4, 0xa7, 0x7e, 0x3d, 0x64, 0x5d, 0x19, 0x73)
          else
            PickLow(b, 0x60, 0x81, 0x4f, 0xdc, 0x22, 0x2a, 0x90, 0x88, 0x46, 0xee, 0xb8, 0x14, 0xde, 0x5e, 0x0b, 0xdb)
        else
          if b & 0x10 == 0 then
            PickLow(b, 0xe0, 0x32, 0x3a, 0x0a, 0x49, 0x06, 0x24, 0x5c, 0xc2, 0xd3, 0xac, 0x62, 0x91, 0x95, 0xe4, 0x79)
          else
            PickLow(b, 0xe7, 0xc8, 0x37, 0x6d, 0x8d, 0xd5, 0x4e, 0xa9, 0x6c, 0x56, 0xf4, 0xea, 0x65, 0x7a, 0xae, 0x08)
      else
        if b & 0x20 == 0 then
          if b & 0x10 == 0 then
            PickLow(b, 0xba, 0x78, 0x25, 0x2e, 0x1c, 0xa6, 0xb4, 0xc6, 0xe8, 0xdd, 0x74, 0x1f, 0x4b, 0xbd, 0x8b, 0x8a)
          else
            PickLow(b, 0x70, 0x3e, 0xb5, 0x66, 0x48, 0x03, 0xf6, 0x0e, 0x61, 0x35, 0x57, 0xb9, 0x86, 0xc1, 0x1d, 0x9e)
        else
          if b & 0x10 == 0 then
            PickLow(b, 0xe1, 0xf8, 0x98, 0x11, 0x69, 0xd9, 0x8e, 0x94, 0x9b, 0x1e, 0x87, 0xe9, 0xce, 0x55, 0x28, 0xdf)
          else
            PickLow(b, 0x8c, 0xa1, 0x89, 0x0d, 0xbf, 0xe6, 0x42, 0x68, 0x41, 0x99, 0x2d, 0x0f, 0xb0, 0x54, 0xbb, 0x16)
  }


  // ----- The table is the S-box of FIPS 197 section 5.1.1 ---------------------------------

  /** The affine map of section 5.1.1. */
  function Affine(b: Byte): Byte {
    b ^ b.RotateLeft(1) ^ b.RotateLeft(2) ^ b.RotateLeft(3) ^ b.RotateLeft(4) ^ 0x63
  }

  function InvAffine(b: Byte): Byte {
    b.RotateLeft(1) ^ b.RotateLeft(3) ^ b.RotateLeft(6) ^ 0x05
  }

  /** The table read backwards through the affine map; `FieldInverseUnique` says what it computes. */
  function FieldInverse(b: Byte): Byte {
    InvAffine(SubByte(b))
  }

  lemma AffineInverse(b: Byte)
    ensures InvAffine(Affine(b)) == b
    ensures Affine(InvAffine(b)) == b
  {}

  lemma LowInvolution(b: Byte)
    requires b & 0x80 == 0
    ensures FieldInverse(FieldInverse(b)) == b
  {}

  lemma HighInvolution(b: Byte)
    requires b & 0x80 != 0
    ensures FieldInverse(FieldInverse(b)) == b
  {}

  lemma FieldInverseInvolution(b: Byte)
    ensures FieldInverse(FieldInverse(b)) == b
  {
    hide FieldInverse;
    if b & 0x80 == 0 {
      LowInvolution(b);
    } else {
      HighInvolution(b);
    }
  }

  function Lead(a: Byte, k: Byte): Byte {
    if k & 1 != 0 then a else 0
  }

  lemma GmulStep(a: Byte, k: Byte)
    ensures Gmul(a, k) == Xor(Lead(a, k), Gmul(Xtime(a), k >> 1))
  {
    XorZero(0);
    hide Xor, Xtime;
    if k == 0 {
      assert k >> 1 == 0;
    }
  }

  function Xtime2(a: Byte): Byte {
    Xtime(Xtime(a))
  }

  function TwoTerms(a: Byte, k: Byte, rest: Byte): Byte {
    Xor(Lead(a, k), Xor(Lead(Xtime(a), k >> 1), rest))
  }

  lemma GmulTwoSteps(a: Byte, k: Byte)
    ensures Gmul(a, k) == TwoTerms(a, k, Gmul(Xtime2(a), k >> 2))
  {
    GmulStep(a, k);
    GmulStep(Xtime(a), k >> 1);
    assert (k >> 1) >> 1 == k >> 2;
    hide Gmul, Xor, Lead, Xtime;
  }

  /** The product written out over all eight bits of `k`. */
  function EightTerms(a: Byte, k: Byte): Byte {
    var a2 := Xtime2(a);
    var a4 := Xtime2(a2);
    var a6 := Xtime2(a4);
    TwoTerms(a, k, TwoTerms(a2, k >> 2, TwoTerms(a4, k >> 4, TwoTerms(a6, k >> 6, 0))))
  }

  lemma GmulUnrolled(a: Byte, k: Byte)
    ensures Gmul(a, k) == EightTerms(a, k)
  {
    var a2 := Xtime2(a);
    var a4 := Xtime2(a2);
    var a6 := Xtime2(a4);
    GmulTwoSteps(a, k);
    GmulTwoSteps(a2, k >> 2);
    GmulTwoSteps(a4, k >> 4);
    GmulTwoSteps(a6, k >> 6);
    assert (k >> 2) >> 2 == k >> 4 && (k >> 4) >> 2 == k >> 6 && (k >> 6) >> 2 == 0;
    assert Gmul(Xtime2(a6), 0) == 0;
    hide Gmul, TwoTerms, Xtime2;
  }

  lemma EightTermsInverse(b: Byte)
    ensures EightTerms(b, FieldInverse(b)) == if b == 0 then 0 else 1
  {}

  lemma EightTermsOne(k: Byte)
    ensures EightTerms(1, k) == k
  {}

  /** In GF(2^8) every nonzero byte has exactly one inverse, and `FieldInverse` is it. */
  lemma FieldInverseUnique(b: Byte, y: Byte)
    requires b != 0
    ensures Gmul(b, y) == 1 <==> y == FieldInverse(b)
  {
    var x := FieldInverse(b);
    GmulUnrolled(b, x);
    EightTermsInverse(b);
    if Gmul(b, y) == 1 {
      GmulCommute(b, x, y);
      GmulUnrolled(1, x);
      GmulUnrolled(1, y);
      EightTermsOne(x);
      EightTermsOne(y);
    }
    hide Gmul, EightTerms, FieldInverse;
  }

  /** The ROM contents are exactly the S-box of FIPS 197: {00} goes to the affine image of {00}, and
      every other byte to the affine image of its multiplicative inverse. */
  lemma SboxIsFips(b: Byte, y: Byte)
    requires if b == 0 then y == 0 else Gmul(b, y) == 1
    ensures SubByte(b) == Affine(y)
  {
    AffineInverse(SubByte(b));
    if b == 0 {
      assert SubByte(0) == Affine(0);
    } else {
      FieldInverseUnique(b, y);
    }
    hide Gmul, SubByte, Affine, InvAffine;
  }

  /** FIPS 197 section 5.3.2: undo the affine map, then take the multiplicative inverse. */
  function InvSubByte(b: Byte): Byte {
    FieldInverse(InvAffine(b))
  }

  lemma SubByteInverse(b: Byte)
    ensures InvSubByte(SubByte(b)) == b
    ensures SubByte(InvSubByte(b)) == b
  {
    AffineInverse(b);
    FieldInverseInvolution(b);
    FieldInverseInvolution(InvAffine(b));
    AffineInverse(SubByte(InvSubByte(b)));
    hide SubByte, Affine, InvAffine;
  }
}
