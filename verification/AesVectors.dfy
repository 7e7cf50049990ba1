/**
 The worked example of FIPS 197, appendix B, with the values that the appendix prints for every round. They are the
 standard's own, so they hold the specification itself to it. The key is also the one that the test bench of the key
 logic loads.
 */
module AesVectors {

  import opened GaloisField
  import opened SboxRom
  import opened Datapath
  import opened AesMachine
  import opened AesRuns
  import opened AesTheorems
  import opened AesScenario
  import Fips = Fips197

  // The eleven round keys, the block, the state after the first key addition and after each round, and the state
  // in the middle of each round, after SubBytes.
  const K0 := Block(Word(0x2b, 0x7e, 0x15, 0x16), Word(0x28, 0xae, 0xd2, 0xa6), Word(0xab, 0xf7, 0x15, 0x88), Word(0x09, 0xcf, 0x4f, 0x3c))
  const K1 := Block(Word(0xa0, 0xfa, 0xfe, 0x17), Word(0x88, 0x54, 0x2c, 0xb1), Word(0x23, 0xa3, 0x39, 0x39), Word(0x2a, 0x6c, 0x76, 0x05))
  const K2 := Block(Word(0xf2, 0xc2, 0x95, 0xf2), Word(0x7a, 0x96, 0xb9, 0x43), Word(0x59, 0x35, 0x80, 0x7a), Word(0x73, 0x59, 0xf6, 0x7f))
  const K3 := Block(Word(0x3d, 0x80, 0x47, 0x7d), Word(0x47, 0x16, 0xfe, 0x3e), Word(0x1e, 0x23, 0x7e, 0x44), Word(0x6d, 0x7a, 0x88, 0x3b))
  const K4 := Block(Word(0xef, 0x44, 0xa5, 0x41), Word(0xa8, 0x52, 0x5b, 0x7f), Word(0xb6, 0x71, 0x25, 0x3b), Word(0xdb, 0x0b, 0xad, 0x00))
  const K5 := Block(Word(0xd4, 0xd1, 0xc6, 0xf8), Word(0x7c, 0x83, 0x9d, 0x87), Word(0xca, 0xf2, 0xb8, 0xbc), Word(0x11, 0xf9, 0x15, 0xbc))
  const K6 := Block(Word(0x6d, 0x88, 0xa3, 0x7a), Word(0x11, 0x0b, 0x3e, 0xfd), Word(0xdb, 0xf9, 0x86, 0x41), Word(0xca, 0x00, 0x93, 0xfd))
  const K7 := Block(Word(0x4e, 0x54, 0xf7, 0x0e), Word(0x5f, 0x5f, 0xc9, 0xf3), Word(0x84, 0xa6, 0x4f, 0xb2), Word(0x4e, 0xa6, 0xdc, 0x4f))
  const K8 := Block(Word(0xea, 0xd2, 0x73, 0x21), Word(0xb5, 0x8d, 0xba, 0xd2), Word(0x31, 0x2b, 0xf5, 0x60), Word(0x7f, 0x8d, 0x29, 0x2f))
  const K9 := Block(Word(0xac, 0x77, 0x66, 0xf3), Word(0x19, 0xfa, 0xdc, 0x21), Word(0x28, 0xd1, 0x29, 0x41), Word(0x57, 0x5c, 0x00, 0x6e))
  const K10 := Block(Word(0xd0, 0x14, 0xf9, 0xa8), Word(0xc9, 0xee, 0x25, 0x89), Word(0xe1, 0x3f, 0x0c, 0xc8), Word(0xb6, 0x63, 0x0c, 0xa6))
  const INPUT := Block(Word(0x32, 0x43, 0xf6, 0xa8), Word(0x88, 0x5a, 0x30, 0x8d), Word(0x31, 0x31, 0x98, 0xa2), Word(0xe0, 0x37, 0x07, 0x34))
  const S0 := Block(Word(0x19, 0x3d, 0xe3, 0xbe), Word(0xa0, 0xf4, 0xe2, 0x2b), Word(0x9a, 0xc6, 0x8d, 0x2a), Word(0xe9, 0xf8, 0x48, 0x08))
  const S1 := Block(Word(0xa4, 0x9c, 0x7f, 0xf2), Word(0x68, 0x9f, 0x35, 0x2b), Word(0x6b, 0x5b, 0xea, 0x43), Word(0x02, 0x6a, 0x50, 0x49))
  const S2 := Block(Word(0xaa, 0x8f, 0x5f, 0x03), Word(0x61, 0xdd, 0xe3, 0xef), Word(0x82, 0xd2, 0x4a, 0xd2), Word(0x68, 0x32, 0x46, 0x9a))
  const S3 := Block(Word(0x48, 0x6c, 0x4e, 0xee), Word(0x67, 0x1d, 0x9d, 0x0d), Word(0x4d, 0xe3, 0xb1, 0x38), Word(0xd6, 0x5f, 0x58, 0xe7))
  const S4 := Block(Word(0xe0, 0x92, 0x7f, 0xe8), Word(0xc8, 0x63, 0x63, 0xc0), Word(0xd9, 0xb1, 0x35, 0x50), Word(0x85, 0xb8, 0xbe, 0x01))
  const S5 := Block(Word(0xf1, 0x00, 0x6f, 0x55), Word(0xc1, 0x92, 0x4c, 0xef), Word(0x7c, 0xc8, 0x8b, 0x32), Word(0x5d, 0xb5, 0xd5, 0x0c))
  const S6 := Block(Word(0x26, 0x0e, 0x2e, 0x17), Word(0x3d, 0x41, 0xb7, 0x7d), Word(0xe8, 0x64, 0x72, 0xa9), Word(0xfd, 0xd2, 0x8b, 0x25))
  const S7 := Block(Word(0x5a, 0x41, 0x42, 0xb1), Word(0x19, 0x49, 0xdc, 0x1f), Word(0xa3, 0xe0, 0x19, 0x65), Word(0x7a, 0x8c, 0x04, 0x0c))
  const S8 := Block(Word(0xea, 0x83, 0x5c, 0xf0), Word(0x04, 0x45, 0x33, 0x2d), Word(0x65, 0x5d, 0x98, 0xad), Word(0x85, 0x96, 0xb0, 0xc5))
  const S9 := Block(Word(0xeb, 0x40, 0xf2, 0x1e), Word(0x59, 0x2e, 0x38, 0x84), Word(0x8b, 0xa1, 0x13, 0xe7), Word(0x1b, 0xc3, 0x42, 0xd2))
  const B1 := Block(Word(0xd4, 0x27, 0x11, 0xae), Word(0xe0, 0xbf, 0x98, 0xf1), Word(0xb8, 0xb4, 0x5d, 0xe5), Word(0x1e, 0x41, 0x52, 0x30))
  const B2 := Block(Word(0x49, 0xde, 0xd2, 0x89), Word(0x45, 0xdb, 0x96, 0xf1), Word(0x7f, 0x39, 0x87, 0x1a), Word(0x77, 0x02, 0x53, 0x3b))
  const B3 := Block(Word(0xac, 0x73, 0xcf, 0x7b), Word(0xef, 0xc1, 0x11, 0xdf), Word(0x13, 0xb5, 0xd6, 0xb5), Word(0x45, 0x23, 0x5a, 0xb8))
  const B4 := Block(Word(0x52, 0x50, 0x2f, 0x28), Word(0x85, 0xa4, 0x5e, 0xd7), Word(0xe3, 0x11, 0xc8, 0x07), Word(0xf6, 0xcf, 0x6a, 0x94))
  const B5 := Block(Word(0xe1, 0x4f, 0xd2, 0x9b), Word(0xe8, 0xfb, 0xfb, 0xba), Word(0x35, 0xc8, 0x96, 0x53), Word(0x97, 0x6c, 0xae, 0x7c))
  const B6 := Block(Word(0xa1, 0x63, 0xa8, 0xfc), Word(0x78, 0x4f, 0x29, 0xdf), Word(0x10, 0xe8, 0x3d, 0x23), Word(0x4c, 0xd5, 0x03, 0xfe))
  const B7 := Block(Word(0xf7, 0xab, 0x31, 0xf0), Word(0x27, 0x83, 0xa9, 0xff), Word(0x9b, 0x43, 0x40, 0xd3), Word(0x54, 0xb5, 0x3d, 0x3f))
  const B8 := Block(Word(0xbe, 0x83, 0x2c, 0xc8), Word(0xd4, 0x3b, 0x86, 0xc0), Word(0x0a, 0xe1, 0xd4, 0x4d), Word(0xda, 0x64, 0xf2, 0xfe))
  const B9 := Block(Word(0x87, 0xec, 0x4a, 0x8c), Word(0xf2, 0x6e, 0xc3, 0xd8), Word(0x4d, 0x4c, 0x46, 0x95), Word(0x97, 0x90, 0xe7, 0xa6))
  const B10 := Block(Word(0xe9, 0x09, 0x89, 0x72), Word(0xcb, 0x31, 0x07, 0x5f), Word(0x3d, 0x32, 0x7d, 0x94), Word(0xaf, 0x2e, 0x2c, 0xb5))
  const OUTPUT := Block(Word(0x39, 0x25, 0x84, 0x1d), Word(0x02, 0xdc, 0x09, 0xfb), Word(0xdc, 0x11, 0x85, 0x97), Word(0x19, 0x6a, 0x0b, 0x32))

  // ----- The key schedule ---------------------------------------------------------------------

  lemma Key1() ensures Fips.NextKey(K0, 1) == K1 { RconCaseIsRcon(1); hide Fips.Rcon; }
  lemma Key2() ensures Fips.NextKey(K1, 2) == K2 { RconCaseIsRcon(2); hide Fips.Rcon; }
  lemma Key3() ensures Fips.NextKey(K2, 3) == K3 { RconCaseIsRcon(3); hide Fips.Rcon; }
  lemma Key4() ensures Fips.NextKey(K3, 4) == K4 { RconCaseIsRcon(4); hide Fips.Rcon; }
  lemma Key5() ensures Fips.NextKey(K4, 5) == K5 { RconCaseIsRcon(5); hide Fips.Rcon; }
  lemma Key6() ensures Fips.NextKey(K5, 6) == K6 { RconCaseIsRcon(6); hide Fips.Rcon; }
  lemma Key7() ensures Fips.NextKey(K6, 7) == K7 { RconCaseIsRcon(7); hide Fips.Rcon; }
  lemma Key8() ensures Fips.NextKey(K7, 8) == K8 { RconCaseIsRcon(8); hide Fips.Rcon; }
  lemma Key9() ensures Fips.NextKey(K8, 9) == K9 { RconCaseIsRcon(9); hide Fips.Rcon; }
  lemma Key10() ensures Fips.NextKey(K9, 10) == K10 { RconCaseIsRcon(10); hide Fips.Rcon; }

  /** The round keys of appendix A.1. */
  lemma PrintedKeys()
    ensures Fips.KeyExpansion(K0) == [K0, K1, K2, K3, K4, K5, K6, K7, K8, K9, K10]
  {
    hide *;
    var w := Fips.KeyExpansion(K0);
    forall r: nat | r < 10
      ensures w[r + 1] == Fips.NextKey(w[r], r + 1)
    {
      Fips.RoundKeyStep(K0, r + 1);
      Scheduled(K0, r);
      Scheduled(K0, r + 1);
    }
    Key1(); Key2(); Key3(); Key4(); Key5(); Key6(); Key7(); Key8(); Key9(); Key10();
    assert w[1] == K1 && w[2] == K2 && w[3] == K3 && w[4] == K4 && w[5] == K5;
    assert w[6] == K6 && w[7] == K7 && w[8] == K8 && w[9] == K9 && w[10] == K10;
  }

  lemma Scheduled(key: Block, r: nat)
    requires r < 11
    ensures Fips.KeyExpansion(key)[r] == Fips.RoundKey(key, r)
  {
    hide Fips.RoundKey;
  }

  // ----- The rounds -----------------------------------------------------------------------------

  lemma RoundThrough(s: Block, k: Block, substituted: Block, next: Block)
    requires Fips.SubBytes(s) == substituted
    requires MixColumnsAddRoundKey(ShiftRow(substituted), k) == next
    ensures Fips.Round(s, k) == next
  {
    ShiftRowIsFips(substituted);
    hide Fips.SubBytes, Fips.ShiftRows, ShiftRow, Fips.MixColumns, MixColumnsAddRoundKey, XorBlock;
    MixColumnsAddRoundKeyIsFips(ShiftRow(substituted), k);
  }

  lemma ShiftRowIsFips(s: Block)
    ensures ShiftRow(s) == Fips.ShiftRows(s)
  {
    Fips.ShiftRowsBytes(s);
    hide Fips.ShiftRows;
  }

  lemma Sub1() ensures Fips.SubBytes(S0) == B1 {}
  lemma Sub2() ensures Fips.SubBytes(S1) == B2 {}
  lemma Sub3() ensures Fips.SubBytes(S2) == B3 {}
  lemma Sub4() ensures Fips.SubBytes(S3) == B4 {}
  lemma Sub5() ensures Fips.SubBytes(S4) == B5 {}
  lemma Sub6() ensures Fips.SubBytes(S5) == B6 {}
  lemma Sub7() ensures Fips.SubBytes(S6) == B7 {}
  lemma Sub8() ensures Fips.SubBytes(S7) == B8 {}
  lemma Sub9() ensures Fips.SubBytes(S8) == B9 {}
  lemma Sub10() ensures Fips.SubBytes(S9) == B10 {}

  lemma Mixed1() ensures MixColumnsAddRoundKey(ShiftRow(B1), K1) == S1 {}
  lemma Mixed2() ensures MixColumnsAddRoundKey(ShiftRow(B2), K2) == S2 {}
  lemma Mixed3() ensures MixColumnsAddRoundKey(ShiftRow(B3), K3) == S3 {}
  lemma Mixed4() ensures MixColumnsAddRoundKey(ShiftRow(B4), K4) == S4 {}
  lemma Mixed5() ensures MixColumnsAddRoundKey(ShiftRow(B5), K5) == S5 {}
  lemma Mixed6() ensures MixColumnsAddRoundKey(ShiftRow(B6), K6) == S6 {}
  lemma Mixed7() ensures MixColumnsAddRoundKey(ShiftRow(B7), K7) == S7 {}
  lemma Mixed8() ensures MixColumnsAddRoundKey(ShiftRow(B8), K8) == S8 {}
  lemma Mixed9() ensures MixColumnsAddRoundKey(ShiftRow(B9), K9) == S9 {}

  lemma Round1() ensures Fips.Round(S0, K1) == S1 { hide *; Sub1(); Mixed1(); RoundThrough(S0, K1, B1, S1); }
  lemma Round2() ensures Fips.Round(S1, K2) == S2 { hide *; Sub2(); Mixed2(); RoundThrough(S1, K2, B2, S2); }
  lemma Round3() ensures Fips.Round(S2, K3) == S3 { hide *; Sub3(); Mixed3(); RoundThrough(S2, K3, B3, S3); }
  lemma Round4() ensures Fips.Round(S3, K4) == S4 { hide *; Sub4(); Mixed4(); RoundThrough(S3, K4, B4, S4); }
  lemma Round5() ensures Fips.Round(S4, K5) == S5 { hide *; Sub5(); Mixed5(); RoundThrough(S4, K5, B5, S5); }
  lemma Round6() ensures Fips.Round(S5, K6) == S6 { hide *; Sub6(); Mixed6(); RoundThrough(S5, K6, B6, S6); }
  lemma Round7() ensures Fips.Round(S6, K7) == S7 { hide *; Sub7(); Mixed7(); RoundThrough(S6, K7, B7, S7); }
  lemma Round8() ensures Fips.Round(S7, K8) == S8 { hide *; Sub8(); Mixed8(); RoundThrough(S7, K8, B8, S8); }
  lemma Round9() ensures Fips.Round(S8, K9) == S9 { hide *; Sub9(); Mixed9(); RoundThrough(S8, K9, B9, S9); }

  lemma FirstKey() ensures XorBlock(INPUT, K0) == S0 {}

  lemma LastRound() ensures XorBlock(ShiftRow(B10), K10) == OUTPUT {}

  lemma {:induction false} PrintedStates(w: seq<Block>)
    requires w == [K0, K1, K2, K3, K4, K5, K6, K7, K8, K9, K10]
    ensures Fips.Rounds(w, S0, 9) == S9
  {
    hide *;
    OneMore(w, S0, 1); OneMore(w, S0, 2); OneMore(w, S0, 3); OneMore(w, S0, 4); OneMore(w, S0, 5);
    OneMore(w, S0, 6); OneMore(w, S0, 7); OneMore(w, S0, 8); OneMore(w, S0, 9);
    NoRound(w, S0);
    Round1(); Round2(); Round3(); Round4(); Round5(); Round6(); Round7(); Round8(); Round9();
  }

  lemma NoRound(w: seq<Block>, x: Block)
    requires |w| == 11
    ensures Fips.Rounds(w, x, 0) == x
  {}

  lemma OneMore(w: seq<Block>, x: Block, n: nat)
    requires |w| == 11 && 1 <= n <= 9
    ensures Fips.Rounds(w, x, n) == Fips.Round(Fips.Rounds(w, x, n - 1), w[n])
  {
    hide Fips.Round;
  }

  /** The ciphertext of appendix B, and the way back. */
  lemma WorkedExample()
    ensures Fips.Cipher(INPUT, Fips.KeyExpansion(K0)) == OUTPUT
    ensures Fips.InvCipher(OUTPUT, Fips.KeyExpansion(K0)) == INPUT
  {
    PrintedKeys();
    hide K0, K1, K2, K3, K4, K5, K6, K7, K8, K9, K10, S0, S1, S2, S3, S4, S5, S6, S7, S8, S9, B10, INPUT, OUTPUT;
    ShiftRowIsFips(B10);
    hide XorBlock, Fips.KeyExpansion, Fips.SubBytes, Fips.ShiftRows, ShiftRow, Fips.Rounds, Fips.InvCipher;
    var w := Fips.KeyExpansion(K0);
    FirstKey();
    PrintedStates(w);
    Sub10();
    LastRound();
    Fips.CipherBijection(INPUT, w);
  }

  /** The accelerator, given the key and the block of appendix B, shows the ciphertext of appendix B. */
  lemma WorkedExampleOnMachine(s: Regs, cycles: seq<Cycle>, z: Floating)
    requires IsReset(s) && OneBlock(cycles, K0, INPUT)
    ensures CTValid(Run(s, cycles)) && CipherText(Run(s, cycles), z) == OUTPUT
  {
    hide *;
    EncryptOneBlock(s, cycles, K0, INPUT, z);
    WorkedExample();
  }
}
