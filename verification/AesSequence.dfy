/**
 A host that waits for each result: what it is shown, block by block.
 */
module AesSequence {

  import opened GaloisField
  import opened AesMachine
  import opened AesRuns
  import opened AesTheorems
  import Fips = Fips197

  /** The blocks that the host loads, in order. */
  function Blocks(cycles: seq<Cycle>): seq<Block> {
    if |cycles| == 0 then []
    else
      var h := cycles[|cycles| - 1].host;
      Blocks(cycles[..|cycles| - 1]) + if h.loadData then [h.inData] else []
  }

  /** The ciphertexts that it is shown, up to and including the present cycle. */
  function Shown(s: Regs, cycles: seq<Cycle>, z: Floating): seq<Block> {
    (if |cycles| == 0 then [] else Shown(s, cycles[..|cycles| - 1], z))
    + if CTValid(Run(s, cycles)) then [CipherText(Run(s, cycles), z)] else []
  }

  /** The last key loaded when each of them is shown. */
  function KeysShown(s: Regs, cycles: seq<Cycle>): seq<Option<Block>> {
    (if |cycles| == 0 then [] else KeysShown(s, cycles[..|cycles| - 1]))
    + if CTValid(Run(s, cycles)) then [LastKey(cycles)] else []
  }

  /** The host loads a block only with a key loaded and when every earlier block has shown its result. */
  ghost predicate Waiting(s: Regs, cycles: seq<Cycle>) {
    forall j :: 0 <= j < |cycles| && cycles[j].host.loadData ==>
      Loads(cycles[..j]) == Results(s, cycles[..j]) && LastKey(cycles[..j]).Some?
  }

  /** The results so far are the blocks so far, each enciphered under the last key loaded. */
  ghost predicate Enciphered(shown: seq<Block>, keys: seq<Option<Block>>, blocks: seq<Block>) {
    && |shown| == |keys| <= |blocks|
    && forall m :: 0 <= m < |shown| ==>
         keys[m].Some? && shown[m] == Fips.Cipher(blocks[m], Fips.KeyExpansion(keys[m].value))
  }

  lemma {:induction false} BlocksCount(cycles: seq<Cycle>)
    ensures |Blocks(cycles)| == Loads(cycles)
    ensures Loads(cycles) > 0 ==> LastData(cycles) == Some(Blocks(cycles)[Loads(cycles) - 1])
  {
    if |cycles| > 0 {
      BlocksCount(cycles[..|cycles| - 1]);
    }
  }

  lemma {:induction false} ShownCount(s: Regs, cycles: seq<Cycle>, z: Floating)
    ensures |Shown(s, cycles, z)| == |KeysShown(s, cycles)| == Results(s, cycles)
  {
    hide Run, CTValid, CipherText;
    if |cycles| > 0 {
      ShownCount(s, cycles[..|cycles| - 1], z);
    }
  }

  lemma WaitingEarlier(s: Regs, cycles: seq<Cycle>)
    requires |cycles| > 0 && Waiting(s, cycles) && Disciplined(s, cycles)
    ensures Waiting(s, cycles[..|cycles| - 1]) && Disciplined(s, cycles[..|cycles| - 1])
  {
    hide Loads, Results, LastKey, DisciplinedAt, Run;
    var before := cycles[..|cycles| - 1];
    assert forall j :: 0 <= j < |before| ==> before[..j] == cycles[..j] && before[j] == cycles[j];
  }

  /** There is never more than one block without a result, and a block loaded means a key loaded. */
  lemma {:induction false} OneOutstanding(s: Regs, cycles: seq<Cycle>)
    requires Waiting(s, cycles) && Disciplined(s, cycles) && |cycles| > 0
    ensures Loads(cycles) <= Results(s, cycles[..|cycles| - 1]) + 1
    ensures Loads(cycles) > 0 ==> LastKey(cycles).Some?
  {
    var n := |cycles| - 1;
    var before := cycles[..n];
    hide Run, Disciplined;
    if cycles[n].host.loadData {
      assert Loads(before) == Results(s, before) && LastKey(before).Some?;
    } else if n > 0 {
      WaitingEarlier(s, cycles);
      OneOutstanding(s, before);
      assert Results(s, before[..n - 1]) <= Results(s, before);
    } else {
      assert Loads(before) == 0;
    }
  }

  /** When a result is shown every block has its result. */
  lemma ResultMeansAll(s: Regs, cycles: seq<Cycle>)
    requires IsReset(s) && Waiting(s, cycles) && Disciplined(s, cycles) && CTValid(Run(s, cycles)) && |cycles| > 0
    ensures Loads(cycles) == Results(s, cycles) == Results(s, cycles[..|cycles| - 1]) + 1
    ensures LastKey(cycles).Some?
  {
    OneOutstanding(s, cycles);
    BlocksConserved(s, cycles);
    hide Run, IsReset, Loads, Waiting, Disciplined, LoadsWhilePending, InFlight;
  }

  lemma MoreBlocks(shown: seq<Block>, keys: seq<Option<Block>>, blocks: seq<Block>, more: seq<Block>)
    requires Enciphered(shown, keys, blocks)
    ensures Enciphered(shown, keys, blocks + more)
  {
    hide Fips.Cipher, Fips.KeyExpansion;
  }

  lemma OneMoreShown(shown: seq<Block>, keys: seq<Option<Block>>, blocks: seq<Block>, c: Block, k: Option<Block>)
    requires Enciphered(shown, keys, blocks) && |blocks| == |shown| + 1 && k.Some?
    requires c == Fips.Cipher(blocks[|shown|], Fips.KeyExpansion(k.value))
    ensures Enciphered(shown + [c], keys + [k], blocks)
  {
    hide Fips.Cipher, Fips.KeyExpansion;
  }

  lemma SequenceStep(s: Regs, cycles: seq<Cycle>, z: Floating)
    requires |cycles| > 0
    ensures var before, h := cycles[..|cycles| - 1], cycles[|cycles| - 1].host;
            && Blocks(cycles) == Blocks(before) + (if h.loadData then [h.inData] else [])
            && (if CTValid(Run(s, cycles)) then
                  && Shown(s, cycles, z) == Shown(s, before, z) + [CipherText(Run(s, cycles), z)]
                  && KeysShown(s, cycles) == KeysShown(s, before) + [LastKey(cycles)]
                else
                  Shown(s, cycles, z) == Shown(s, before, z) && KeysShown(s, cycles) == KeysShown(s, before))
  {
    hide Run, CTValid, CipherText, LastKey;
  }

  lemma NothingShown(s: Regs, cycles: seq<Cycle>, z: Floating)
    requires IsReset(s) && |cycles| == 0
    ensures Shown(s, cycles, z) == [] && KeysShown(s, cycles) == [] && Blocks(cycles) == []
  {}

  /** The result shown now is the cipher of the newest block. */
  lemma NewestShown(s: Regs, cycles: seq<Cycle>, z: Floating)
    requires IsReset(s) && Waiting(s, cycles) && Disciplined(s, cycles) && CTValid(Run(s, cycles)) && |cycles| > 0
    ensures LastKey(cycles).Some? && |Blocks(cycles)| == |Shown(s, cycles[..|cycles| - 1], z)| + 1
    ensures CipherText(Run(s, cycles), z)
         == Fips.Cipher(Blocks(cycles)[|Blocks(cycles)| - 1], Fips.KeyExpansion(LastKey(cycles).value))
  {
    hide *;
    ResultMeansAll(s, cycles);
    BlocksCount(cycles);
    ShownCount(s, cycles[..|cycles| - 1], z);
    DisciplinedCipher(s, cycles, z);
  }

  /** The ciphertexts shown to a waiting host are, in order, the ciphers of the blocks it loaded; at most the last
      block has none yet. */
  lemma {:induction false} ShownInOrder(s: Regs, cycles: seq<Cycle>, z: Floating)
    requires IsReset(s) && Waiting(s, cycles) && Disciplined(s, cycles)
    ensures Enciphered(Shown(s, cycles, z), KeysShown(s, cycles), Blocks(cycles))
    ensures |Blocks(cycles)| <= |Shown(s, cycles, z)| + 1
    decreases |cycles|
  {
    hide Run, IsReset, Waiting, Disciplined, CTValid, CipherText, Fips.Cipher, Fips.KeyExpansion, Loads, Results,
         LastKey, LastData, Shown, KeysShown, Blocks;
    if |cycles| == 0 {
      NothingShown(s, cycles, z);
    } else {
      var before, h := cycles[..|cycles| - 1], cycles[|cycles| - 1].host;
      WaitingEarlier(s, cycles);
      ShownInOrder(s, before, z);
      SequenceStep(s, cycles, z);
      OneOutstanding(s, cycles);
      BlocksCount(cycles);
      ShownCount(s, before, z);
      hide Enciphered;
      if h.loadData {
        MoreBlocks(Shown(s, before, z), KeysShown(s, before), Blocks(before), [h.inData]);
      }
      if CTValid(Run(s, cycles)) {
        NewestShown(s, cycles, z);
        OneMoreShown(Shown(s, before, z), KeysShown(s, before), Blocks(cycles), CipherText(Run(s, cycles), z), LastKey(cycles));
      }
    }
  }
}
