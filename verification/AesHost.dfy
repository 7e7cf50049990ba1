/**
 The ciphertext in terms of what a host can see: its own loads and the ready line.
 */
module AesHost {

  import opened GaloisField
  import opened AesMachine
  import opened AesRuns
  import opened AesTheorems
  import opened AesBlocks
  import Fips = Fips197

  /** The last key that the host loaded in a cycle with the ready line high. */
  function LastReadyKey(s: Regs, cycles: seq<Cycle>): Option<Block> {
    if |cycles| == 0 then None
    else
      var before, h := cycles[..|cycles| - 1], cycles[|cycles| - 1].host;
      if h.loadKey && Ready(Run(s, before)) then Some(h.inData) else LastReadyKey(s, before)
  }

  /** What the key register holds: the last key loaded, or zero. */
  function KeyLoaded(cycles: seq<Cycle>): Block {
    match LastKey(cycles)
    case None => ZeroBlock
    case Some(k) => k
  }

  lemma {:induction false} KeyIs(s: Regs, cycles: seq<Cycle>)
    requires IsReset(s)
    ensures Run(s, cycles).key == KeyLoaded(cycles)
  {
    if |cycles| > 0 {
      var before, last := cycles[..|cycles| - 1], cycles[|cycles| - 1];
      KeyIs(s, before);
      hide Step, IsReset;
      DataStep(Run(s, before), last.host, last.floating);
    }
  }

  /** The key of the schedule, or in the cycle of the key start the key about to be taken. */
  ghost predicate ScheduleView(r: Regs, n: Notes, key: Option<Block>) {
    if r.sys == Key_Expand then key == Some(r.key) else n.scheduled == key
  }

  lemma ScheduleViewStep(s: Regs, n: Notes, key: Option<Block>, h: Host, z: Floating)
    requires Control(s) && ScheduleView(s, n, key)
    ensures ScheduleView(Step(s, h, z), Observe(n, s), if h.loadKey && Ready(s) then Some(h.inData) else key)
  {
    hide StateRegNext, MuxOut, KeyRegNext, KeyStateNext, KeyRoundNext, CoreRoundNext, CoreStateNext;
  }

  lemma {:induction false} ScheduleIs(s: Regs, cycles: seq<Cycle>)
    requires IsReset(s)
    ensures ScheduleView(Run(s, cycles), Observed(s, cycles), LastReadyKey(s, cycles))
  {
    if |cycles| > 0 {
      var before, last := cycles[..|cycles| - 1], cycles[|cycles| - 1];
      ScheduleIs(s, before);
      RunInvariant(s, before);
      hide Step, IsReset, Observe, ScheduleView, KeyData, CoreData;
      ScheduleViewStep(Run(s, before), Observed(s, before), LastReadyKey(s, before), last.host, last.floating);
    }
  }

  lemma ObserveStart(s: Regs, cycles: seq<Cycle>)
    requires |cycles| > 0
    ensures var before := cycles[..|cycles| - 1];
            var r, n, t := Run(s, before), Observed(s, before), Observed(s, cycles);
            if PCoreStart(r) then t.startData == r.data && t.startKey == r.key
            else t.startData == n.startData && t.startKey == n.startKey
  {
    hide Run;
  }

  /** The data and the key of the last core start are what the host had loaded by then. */
  lemma {:induction false} StartIs(s: Regs, cycles: seq<Cycle>, i: nat)
    requires IsReset(s) && i < |cycles| && StartAt(s, cycles, i) && NoStartIn(s, cycles, i + 1, |cycles|)
    ensures Observed(s, cycles).startData == DataLoaded(cycles[..i])
    ensures Observed(s, cycles).startKey == KeyLoaded(cycles[..i])
  {
    hide *;
    if i == |cycles| - 1 {
      StartIsNow(s, cycles);
    } else {
      StartEarlier(s, cycles, i);
      StartIs(s, cycles[..|cycles| - 1], i);
      StartUnchanged(s, cycles);
    }
  }

  lemma StartIsNow(s: Regs, cycles: seq<Cycle>)
    requires IsReset(s) && |cycles| > 0 && StartAt(s, cycles, |cycles| - 1)
    ensures Observed(s, cycles).startData == DataLoaded(cycles[..|cycles| - 1])
    ensures Observed(s, cycles).startKey == KeyLoaded(cycles[..|cycles| - 1])
  {
    hide *;
    var before := cycles[..|cycles| - 1];
    StartNow(s, cycles, |cycles| - 1);
    ObserveStart(s, cycles);
    DataIs(s, before);
    KeyIs(s, before);
  }

  lemma StartUnchanged(s: Regs, cycles: seq<Cycle>)
    requires |cycles| > 0 && !StartAt(s, cycles, |cycles| - 1)
    ensures Observed(s, cycles).startData == Observed(s, cycles[..|cycles| - 1]).startData
    ensures Observed(s, cycles).startKey == Observed(s, cycles[..|cycles| - 1]).startKey
  {
    hide *;
    StartNow(s, cycles, |cycles| - 1);
    ObserveStart(s, cycles);
  }

  lemma StartNow(s: Regs, cycles: seq<Cycle>, n: nat)
    requires n <= |cycles|
    ensures StartAt(s, cycles, n) == PCoreStart(Run(s, cycles[..n]))
  {}

  lemma StartEarlier(s: Regs, cycles: seq<Cycle>, i: nat)
    requires i + 1 < |cycles| && StartAt(s, cycles, i) && NoStartIn(s, cycles, i + 1, |cycles|)
    ensures var n := |cycles| - 1;
            && !StartAt(s, cycles, n) && cycles[..n][..i] == cycles[..i]
            && StartAt(s, cycles[..n], i) && NoStartIn(s, cycles[..n], i + 1, n)
  {
    hide StartAt;
    SameStarts(s, cycles, |cycles| - 1);
  }

  lemma ShownNotExpanding(s: Regs, cycles: seq<Cycle>)
    requires IsReset(s) && CTValid(Run(s, cycles))
    ensures Run(s, cycles).sys != Key_Expand
  {
    RunInvariant(s, cycles);
    hide IsReset, Run, KeyData, CoreData, Observed;
  }

  /** For any host: the ciphertext shown is the cipher of the block in the data register at the last core start,
      under the last key loaded in a ready cycle, if and only if that key was also the last one loaded in any cycle
      before that start. */
  lemma CipherIff(s: Regs, cycles: seq<Cycle>, i: nat, z: Floating)
    requires IsReset(s) && CTValid(Run(s, cycles))
    requires i < |cycles| && StartAt(s, cycles, i) && NoStartIn(s, cycles, i + 1, |cycles|)
    requires LastReadyKey(s, cycles).Some?
    ensures var k := LastReadyKey(s, cycles).value;
            CipherText(Run(s, cycles), z) == Fips.Cipher(DataLoaded(cycles[..i]), Fips.KeyExpansion(k))
            <==> KeyLoaded(cycles[..i]) == k
  {
    hide Run, IsReset, CTValid, Invariant, Observed, CipherText, Fips.Cipher, Fips.KeyExpansion, LastReadyKey, StartAt, NoStartIn;
    ShownNotExpanding(s, cycles);
    ScheduleIs(s, cycles);
    StartIs(s, cycles, i);
    CipherTextIsCipherIff(s, cycles, z);
  }

  // ----- A key that comes too late ----------------------------------------------------------------

  /** A key while ready, a block in the next cycle, another key in the cycle after, and then nothing. */
  predicate LateKey(cycles: seq<Cycle>, k: Block, d: Block, k': Block) {
    && |cycles| == 44
    && cycles[0].host == Host(true, false, k) && cycles[1].host == Host(false, true, d)
    && cycles[2].host == Host(true, false, k')
    && forall j :: 3 <= j < 44 ==> !cycles[j].host.loadKey && !cycles[j].host.loadData
  }

  lemma {:induction false} LateKeyLoads(s: Regs, cycles: seq<Cycle>, k: Block, d: Block, k': Block, n: nat)
    requires LateKey(cycles, k, d, k') && 3 <= n <= 44
    requires Ready(Run(s, cycles[..0])) && !Ready(Run(s, cycles[..2]))
    ensures LastReadyKey(s, cycles[..n]) == Some(k)
    ensures KeyLoaded(cycles[..n]) == k' && DataLoaded(cycles[..n]) == d
  {
    hide Run;
    assert cycles[..n][..n - 1] == cycles[..n - 1];
    if n == 3 {
      assert cycles[..2][..1] == cycles[..1] && cycles[..1][..0] == cycles[..0];
      assert LastReadyKey(s, cycles[..1]) == Some(k);
      assert LastReadyKey(s, cycles[..2]) == Some(k);
      assert DataLoaded(cycles[..2]) == d;
    } else {
      LateKeyLoads(s, cycles, k, d, k', n - 1);
    }
  }

  /** The key engine starts in cycle 1, and in cycle 2 it is running with the block pending. */
  lemma LateKeyExpands(s: Regs, cycles: seq<Cycle>, k: Block, d: Block, k': Block)
    requires IsReset(s) && LateKey(cycles, k, d, k')
    ensures var t := Run(s, cycles[..2]);
            Control(t) && t.sys == wait_Keyex && t.inLoaded && KeyLeft(t) == 20 && Ready(Run(s, cycles[..0]))
  {
    ResetControl(s);
    RunControl(s, cycles[..1]);
    var r := Run(s, cycles[..1]);
    RunNext(s, cycles, 0);
    RunNext(s, cycles, 1);
    assert s.sys == IDLE && s.keyState == KeyIdle;
    assert r.sys == Key_Expand && r.keyState == KeyIdle by { hide StateRegNext, MuxOut, KeyRegNext; }
    hide Step, Run, IsReset, Control;
    KeyTick(r, cycles[1].host, cycles[1].floating);
    DataStep(r, cycles[1].host, cycles[1].floating);
  }

  lemma LateKeyStarts(s: Regs, cycles: seq<Cycle>, k: Block, d: Block, k': Block)
    requires IsReset(s) && LateKey(cycles, k, d, k')
    ensures Control(Run(s, cycles[..23])) && PCoreStart(Run(s, cycles[..23]))
  {
    hide Run, Step, IsReset, KeyLeft, Control;
    LateKeyExpands(s, cycles, k, d, k');
    KeyDone(Run(s, cycles[..2]), cycles[2..22]);
    assert cycles[..22] == cycles[..2] + cycles[2..22];
    RunConcat(s, cycles[..2], cycles[2..22]);
    RunNext(s, cycles, 22);
    DoneStarts(Run(s, cycles[..22]), cycles[22].host, cycles[22].floating);
  }

  /** The core starts in cycle 23 and is done in cycle 44. */
  lemma LateKeyRun(s: Regs, cycles: seq<Cycle>, k: Block, d: Block, k': Block)
    requires IsReset(s) && LateKey(cycles, k, d, k')
    ensures StartAt(s, cycles, 23) && NoStartIn(s, cycles, 24, 44) && CTValid(Run(s, cycles))
  {
    LateKeyStarts(s, cycles, k, d, k');
    assert |cycles| == 44 && cycles[..44] == cycles;
    hide Run, IsReset, Control, CTValid, LateKey;
    forall m | 24 <= m <= 44 ensures Run(s, cycles[..m]).sys == wait_PCore && (m == 44 ==> CTValid(Run(s, cycles[..m]))) {
      assert cycles[..m] == cycles[..23] + cycles[23..m];
      RunConcat(s, cycles[..23], cycles[23..m]);
      CoreRuns(Run(s, cycles[..23]), cycles[23..m]);
    }
  }

  lemma KeyDone(t: Regs, c: seq<Cycle>)
    requires Control(t) && t.sys == wait_Keyex && t.inLoaded && KeyLeft(t) == 20 && |c| == 20
    ensures var r := Run(t, c);
            Control(r) && r.sys == wait_Keyex && r.inLoaded && ExpansionDone(r)
  {
    KeyCountdown(t, c);
    hide Run;
  }

  lemma DoneStarts(r: Regs, h: Host, z: Floating)
    requires Control(r) && r.sys == wait_Keyex && r.inLoaded && ExpansionDone(r)
    ensures Control(Step(r, h, z)) && PCoreStart(Step(r, h, z))
  {
    hide Step;
    ControlStep(r, h, z);
    SysStep(r, h, z);
  }

  lemma CoreRuns(u: Regs, c: seq<Cycle>)
    requires Control(u) && PCoreStart(u) && 1 <= |c| <= 21
    ensures Run(u, c).sys == wait_PCore && (|c| == 21 ==> CTValid(Run(u, c)))
  {
    hide Run;
    assert CoreLeft(u) == 21;
    CoreCountdown(u, c);
  }

  /** Such a host is shown a text that is not the cipher of its block under the key that it loaded while ready. */
  lemma LateKeySpoils(s: Regs, cycles: seq<Cycle>, k: Block, d: Block, k': Block, z: Floating)
    requires IsReset(s) && LateKey(cycles, k, d, k') && k' != k
    ensures CTValid(Run(s, cycles))
    ensures CipherText(Run(s, cycles), z) != Fips.Cipher(d, Fips.KeyExpansion(k))
  {
    hide Run, IsReset, CTValid, CipherText, Fips.Cipher, Fips.KeyExpansion, StartAt, NoStartIn, KeyLoaded, DataLoaded,
         LastReadyKey;
    LateKeyExpands(s, cycles, k, d, k');
    LateKeyRun(s, cycles, k, d, k');
    LateKeyLoads(s, cycles, k, d, k', 23);
    LateKeyLoads(s, cycles, k, d, k', 44);
    assert cycles[..44] == cycles;
    CipherIff(s, cycles, 23, z);
  }
}
