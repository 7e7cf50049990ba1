/**
 One complete use of the accelerator: load a key, wait, load a block, wait.
 */
module AesScenario {

  import opened GaloisField
  import opened AesMachine
  import opened AesRuns
  import opened AesTheorems
  import Fips = Fips197

  predicate Quiet(h: Host) {
    !h.loadKey && !h.loadData
  }

  /** 46 cycles: the key in cycle 0, the block in cycle 23, nothing else. */
  predicate OneBlock(cycles: seq<Cycle>, key: Block, data: Block) {
    && |cycles| == 46
    && cycles[0].host == Host(true, false, key)
    && cycles[23].host == Host(false, true, data)
    && forall j :: 0 <= j < 46 && j != 0 && j != 23 ==> Quiet(cycles[j].host)
  }

  lemma {:induction false} LastLoads(cycles: seq<Cycle>, key: Block, data: Block, n: nat)
    requires OneBlock(cycles, key, data) && 1 <= n <= 46
    ensures LastKey(cycles[..n]) == Some(key)
    ensures LastData(cycles[..n]) == if n <= 23 then None else Some(data)
    ensures Loads(cycles[..n]) == if n <= 23 then 0 else 1
  {
    assert cycles[..n][..n - 1] == cycles[..n - 1];
    if n > 1 {
      LastLoads(cycles, key, data, n - 1);
    }
  }

  lemma RunTake(s: Regs, cycles: seq<Cycle>, n: nat)
    requires n < |cycles|
    ensures Run(s, cycles[..0]) == s
    ensures Run(s, cycles[..n + 1]) == Step(Run(s, cycles[..n]), cycles[n].host, cycles[n].floating)
  {
    hide Step;
    assert cycles[..n + 1][..n] == cycles[..n];
  }

  lemma FirstCycle(s: Regs, c: Cycle)
    requires IsReset(s) && c.host.loadKey
    ensures var t := Step(s, c.host, c.floating); Control(t) && t.sys == Key_Expand && KeyLeft(t) == 21
  {
    ResetControl(s);
    ControlStep(s, c.host, c.floating);
    hide StateRegNext, MuxOut, KeyRegNext;
  }

  lemma DoneGoesIdle(s: Regs, c: Cycle)
    requires Control(s) && s.sys == wait_Keyex && KeyLeft(s) == 0 && !s.inLoaded
    ensures Ready(Step(s, c.host, c.floating))
  {}

  lemma NothingPending(s: Regs, cycles: seq<Cycle>, key: Block, data: Block, n: nat)
    requires IsReset(s) && OneBlock(cycles, key, data) && 1 <= n <= 23
    ensures !Run(s, cycles[..n]).inLoaded
  {
    LastLoads(cycles, key, data, n);
    BlocksConserved(s, cycles[..n]);
    hide Run, Loads, Results, LoadsWhilePending, InFlight, IsReset, OneBlock;
  }

  /** The key engine is done and the machine is ready again, with no block pending, after 23 cycles. */
  lemma ReadyAgain(s: Regs, cycles: seq<Cycle>, key: Block, data: Block)
    requires IsReset(s) && OneBlock(cycles, key, data)
    ensures Ready(Run(s, cycles[..23])) && !Run(s, cycles[..23]).inLoaded
  {
    assert |cycles| == 46 && cycles[0].host.loadKey;
    hide *;
    NothingPending(s, cycles, key, data, 22);
    NothingPending(s, cycles, key, data, 23);
    RunTake(s, cycles, 0);
    RunTake(s, cycles, 22);
    FirstCycle(s, cycles[0]);
    assert cycles[..22] == cycles[..1] + cycles[1..22];
    RunConcat(s, cycles[..1], cycles[1..22]);
    KeyCountdown(Run(s, cycles[..1]), cycles[1..22]);
    DoneGoesIdle(Run(s, cycles[..22]), cycles[22]);
  }

  lemma OneBlockDisciplined(s: Regs, cycles: seq<Cycle>, key: Block, data: Block)
    requires IsReset(s) && OneBlock(cycles, key, data)
    ensures Disciplined(s, cycles)
  {
    ReadyAgain(s, cycles, key, data);
    RunTake(s, cycles, 0);
    assert Ready(s);
    hide Run, IsReset;
    forall j | 0 <= j < |cycles|
      ensures DisciplinedAt(Run(s, cycles[..j]), cycles[j].host)
    {
      if j != 0 && j != 23 {
        assert Quiet(cycles[j].host);
      }
    }
  }

  /** From any reset state and for every key and block, the script ends with the FIPS 197 ciphertext. */
  lemma EncryptOneBlock(s: Regs, cycles: seq<Cycle>, key: Block, data: Block, z: Floating)
    requires IsReset(s) && OneBlock(cycles, key, data)
    ensures CTValid(Run(s, cycles))
    ensures CipherText(Run(s, cycles), z) == Fips.Cipher(data, Fips.KeyExpansion(key))
  {
    var start, rest := cycles[..23], cycles[23..];
    assert rest[0].host == Host(false, true, data) && !rest[1].host.loadKey by {
      assert Quiet(cycles[24].host);
    }
    assert cycles == start + rest && rest[..23] == rest && cycles[..46] == cycles;
    hide IsReset, OneBlock, Run, Control, CTValid, CipherText, LastKey, LastData, Disciplined, Fips.Cipher, Fips.KeyExpansion;
    ReadyAgain(s, cycles, key, data);
    ResetControl(s);
    RunControl(s, start);
    RunConcat(s, start, rest);
    LoadLatency(Run(s, start), rest, 23);
    OneBlockDisciplined(s, cycles, key, data);
    LastLoads(cycles, key, data, 46);
    DisciplinedCipher(s, cycles, z);
  }
}
