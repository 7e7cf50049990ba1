/**
 What the accelerator computes in every run from reset, whatever the host does and
 whatever the undriven nets carry.
 */
module AesRuns {

  import opened GaloisField
  import opened Datapath
  import opened AesMachine
  import Fips = Fips197

  datatype Option<+T> = None | Some(value: T)

  datatype Cycle = Cycle(host: Host, floating: Floating)

  /** The registers after the given cycles. */
  function Run(s: Regs, cycles: seq<Cycle>): Regs {
    if |cycles| == 0 then s
    else
      var last := cycles[|cycles| - 1];
      Step(Run(s, cycles[..|cycles| - 1]), last.host, last.floating)
  }

  /** What an observer notes down: the key taken by the last key start, and the data and key that met on
      the shared bus at the last core start. */
  datatype Notes = Notes(scheduled: Option<Block>, startData: Block, startKey: Block)

  const Blank := Notes(None, ZeroBlock, ZeroBlock)

  function Observe(n: Notes, s: Regs): Notes {
    Notes(
      if KeyLogicStart(s) then Some(s.key) else n.scheduled,
      if PCoreStart(s) then s.data else n.startData,
      if PCoreStart(s) then s.key else n.startKey)
  }

  function Observed(s: Regs, cycles: seq<Cycle>): Notes {
    if |cycles| == 0 then Blank
    else
      var before := cycles[..|cycles| - 1];
      Observe(Observed(s, before), Run(s, before))
  }

  /** The eleven round keys in force: the schedule of the last started key, all zero before the first. */
  function RoundKeys(n: Notes): (w: seq<Block>)
    ensures |w| == 11
  {
    match n.scheduled
    case None => seq(11, _ => ZeroBlock)
    case Some(k) => Fips.KeyExpansion(k)
  }

  function Whitened(n: Notes): Block {
    XorBlock(n.startData, n.startKey)
  }

  // ----- The data invariant --------------------------------------------------------------------

  /** While the schedule is being built the first `keyRound` entries are done, and in the second phase the
      ROM address holds the rotated last word of the newest one. */
  ghost predicate KeyData(s: Regs, n: Notes)
    requires Control(s)
  {
    if s.sys == wait_Keyex then
      && n.scheduled.Some?
      && (forall j :: 0 <= j < s.keyRound ==> s.keyReg[j] == Fips.RoundKey(n.scheduled.value, j))
      && (s.keyState == KeyexpandPhase ==> s.romAddr.w3 == RotWord(s.keyReg[s.keyRound - 1].w3))
    else
      s.keyReg == RoundKeys(n)
  }

  ghost predicate CoreData(s: Regs, n: Notes)
    requires Control(s)
  {
    match s.coreState
    case CoreIdle => true
    case Phase0 => s.stateReg == Fips.Rounds(RoundKeys(n), Whitened(n), s.coreRound - 1)
    case Phase1 => s.stateReg == Fips.Rounds(RoundKeys(n), Whitened(n), s.coreRound - 1) && s.romAddr == ShiftRow(s.stateReg)
    case CoreFinish => s.stateReg == Fips.TenRounds(RoundKeys(n), Whitened(n))
  }

  lemma KeyStartStep(s: Regs, n: Notes, h: Host, z: Floating)
    requires Control(s) && KeyData(s, n) && s.sys == Key_Expand
    requires Control(Step(s, h, z))
    ensures KeyData(Step(s, h, z), Observe(n, s))
  {
    Fips.RoundKeyZero(s.key);
    hide XorBlock, StateRegNext, MuxOut, NewRoundKey, Fips.RoundKey;
  }

  lemma KeyRotwordStep(s: Regs, n: Notes, h: Host, z: Floating)
    requires Control(s) && KeyData(s, n) && s.keyState == RotwordPhase
    requires Control(Step(s, h, z))
    ensures KeyData(Step(s, h, z), Observe(n, s))
  {
    hide StateRegNext, NewRoundKey, ShiftRow, RotWord, Fips.RoundKey;
    var t := Step(s, h, z);
    assert t.romAddr == MuxOut(s, z);
    assert t.keyReg == s.keyReg;
    assert t.keyRound == s.keyRound;
    hide Step;
  }

  lemma KeyexpandStep(s: Regs, n: Notes, h: Host, z: Floating)
    requires Control(s) && KeyData(s, n) && s.keyState == KeyexpandPhase
    requires Control(Step(s, h, z))
    ensures KeyData(Step(s, h, z), Observe(n, s))
  {
    hide StateRegNext, MuxOut, RotWord, Fips.RoundKey, Fips.SubWord, RoundKeyExpander;
    var k := n.scheduled.value;
    RoundKeyExpanderIsFips(k, s.keyRound, SboxOut(s));
    var t := Step(s, h, z);
    assert t.keyReg == s.keyReg[s.keyRound := Fips.RoundKey(k, s.keyRound)];
    assert t.keyRound == s.keyRound + 1;
    assert t.sys == wait_Keyex && t.keyState != KeyexpandPhase;
    hide Step, SboxOut;
  }

  lemma KeyDoneStep(s: Regs, n: Notes, h: Host, z: Floating)
    requires Control(s) && KeyData(s, n) && s.keyState == KeyDone
    requires Control(Step(s, h, z))
    ensures KeyData(Step(s, h, z), Observe(n, s))
  {
    hide StateRegNext, MuxOut, NewRoundKey, Fips.RoundKey;
    var t := Step(s, h, z);
    assert t.keyReg == s.keyReg && t.sys != wait_Keyex;
    hide Step;
    assert s.keyReg == Fips.KeyExpansion(n.scheduled.value);
  }

  lemma KeyDataStep(s: Regs, n: Notes, h: Host, z: Floating)
    requires Control(s) && KeyData(s, n)
    ensures Control(Step(s, h, z)) && KeyData(Step(s, h, z), Observe(n, s))
  {
    ControlStep(s, h, z);
    if s.sys == Key_Expand {
      KeyStartStep(s, n, h, z);
    } else if s.sys == wait_Keyex {
      match s.keyState
      case RotwordPhase => KeyRotwordStep(s, n, h, z);
      case KeyexpandPhase => KeyexpandStep(s, n, h, z);
      case KeyDone => KeyDoneStep(s, n, h, z);
      case KeyIdle =>
    } else {
      hide StateRegNext, MuxOut, NewRoundKey, Fips.KeyExpansion;
      var t := Step(s, h, z);
      assert t.keyReg == s.keyReg && t.sys != wait_Keyex;
      hide Step;
    }
  }

  lemma CoreStartStep(s: Regs, n: Notes, h: Host, z: Floating)
    requires Control(s) && s.sys == PCore_Prc
    requires Control(Step(s, h, z))
    ensures CoreData(Step(s, h, z), Observe(n, s))
  {
    hide XorBlock, KeyRegNext, MuxOut, RoundKeys;
    assert Step(s, h, z).stateReg == XorBlock(s.data, s.key);
  }

  lemma CorePhase0Step(s: Regs, n: Notes, h: Host, z: Floating)
    requires Control(s) && CoreData(s, n) && s.coreState == Phase0
    requires Control(Step(s, h, z))
    ensures CoreData(Step(s, h, z), Observe(n, s))
  {
    hide KeyRegNext, ShiftRow, RoundKeys, Whitened, Fips.Rounds;
  }

  lemma CorePhase1Step(s: Regs, n: Notes, h: Host, z: Floating)
    requires Control(s) && KeyData(s, n) && CoreData(s, n) && s.coreState == Phase1
    requires Control(Step(s, h, z))
    ensures CoreData(Step(s, h, z), Observe(n, s))
  {
    hide KeyRegNext, MuxOut, RoundKeys, Whitened, XorBlock, ShiftRow, MixColumnsAddRoundKey,
         Fips.SubBytes, Fips.ShiftRows, Fips.MixColumns;
    SubBytesAfterShiftRow(s.stateReg);
    MixColumnsAddRoundKeyIsFips(SboxOut(s), RoundKeyBus(s, z));
    var t := Step(s, h, z);
    assert RoundKeyBus(s, z) == RoundKeys(n)[s.coreRound];
    if s.coreRound == 10 {
      assert t.coreState == CoreFinish;
    } else {
      assert t.stateReg == Fips.Round(s.stateReg, RoundKeys(n)[s.coreRound]);
      assert t.coreState == Phase0 && t.coreRound == s.coreRound + 1;
    }
    hide Step;
  }

  lemma CoreDataStep(s: Regs, n: Notes, h: Host, z: Floating)
    requires Control(s) && KeyData(s, n) && CoreData(s, n)
    ensures Control(Step(s, h, z)) && CoreData(Step(s, h, z), Observe(n, s))
  {
    ControlStep(s, h, z);
    match s.coreState
    case Phase0 => CorePhase0Step(s, n, h, z);
    case Phase1 => CorePhase1Step(s, n, h, z);
    case CoreFinish =>
    case CoreIdle =>
      if s.sys == PCore_Prc {
        CoreStartStep(s, n, h, z);
      }
  }

}
