/**
 The accelerator as a clocked machine: every register of AES_Top, and one clock edge as a
 function from registers and inputs to registers.

 Nets that nothing drives (the shared bus outside a start pulse, the round-key bus in
 expansion mode, a register file read out of range, the state latch of an uncovered case)
 take values from `Floating`, about which nothing is ever assumed.
 */
module AesMachine {

  import opened GaloisField
  import opened Datapath
  import Fips = Fips197

  /** The 3-bit encodings of SystemController; the last three have no case arm. */
  datatype SysState = IDLE | Key_Expand | wait_Keyex | PCore_Prc | wait_PCore | Finish | Code010 | Code101

  datatype KeyState = KeyIdle | RotwordPhase | KeyexpandPhase | KeyDone

  datatype CoreState = CoreIdle | Phase0 | Phase1 | CoreFinish

  /** A 4-bit counter. */
  type Nibble = n: nat | n < 16

  datatype Regs = Regs(
    sys: SysState, inLoaded: bool, keyGenerated: bool,   // SystemController
    key: Block, data: Block,                             // InputInterface
    keyReg: seq<Block>,                                  // KeyLogic
    keyState: KeyState, keyRound: Nibble,                // KeyLogicController
    coreState: CoreState, coreRound: Nibble,             // ProcessingCoreController
    stateReg: Block,                                     // ProcessingCore
    romAddr: Block)                                      // S_box: the registered ROM address

  /** What the host drives in one cycle. */
  datatype Host = Host(loadKey: bool, loadData: bool, inData: Block)

  datatype Floating = Floating(bus: Block, roundKey: Block, outOfRange: Block, cipher: Block, latched: SysState)

  // ----- Wires -----------------------------------------------------------------------------

  predicate KeyLogicStart(s: Regs) { s.sys == Key_Expand }

  predicate PCoreStart(s: Regs) { s.sys == PCore_Prc }

  /** 0 (false): expansion mode; 1 (true): read mode. */
  predicate KeyLogicMode(s: Regs) { s.sys != wait_Keyex }

  predicate Ready(s: Regs) { s.sys == IDLE }

  predicate ExpansionDone(s: Regs) { s.keyState == KeyDone }

  predicate CTValid(s: Regs) { s.coreState == CoreFinish }

  function CipherText(s: Regs, z: Floating): Block {
    if CTValid(s) then s.stateReg else z.cipher
  }

  function TempBus(s: Regs, z: Floating): Block {
    if KeyLogicStart(s) then s.key
    else if PCoreStart(s) then XorBlock(s.data, s.key)
    else z.bus
  }

  function ReadKey(s: Regs, index: int, z: Floating): Block {
    if 0 <= index < |s.keyReg| then s.keyReg[index] else z.outOfRange
  }

  function SboxOut(s: Regs): Block {
    Fips.SubBytes(s.romAddr)
  }

  function NewRoundKey(s: Regs, z: Floating): Block {
    RoundKeyExpander(s.keyState == KeyexpandPhase, ReadKey(s, s.keyRound - 1, z), s.keyRound, SboxOut(s))
  }

  function RoundKeyBus(s: Regs, z: Floating): Block {
    if KeyLogicMode(s) then ReadKey(s, s.coreRound, z) else z.roundKey
  }

  /** The shared S-box address: the rotated key word in expansion mode, the shifted state otherwise. */
  function MuxOut(s: Regs, z: Floating): Block {
    if KeyLogicMode(s) then ShiftRow(s.stateReg)
    else Block(ZeroWord, ZeroWord, ZeroWord, RotWord(ReadKey(s, s.keyRound - 1, z).w3))
  }

  // ----- One clock edge, module by module ----------------------------------------------------

  function SysNext(s: Regs, h: Host, z: Floating): SysState {
    match s.sys
    case IDLE => if h.loadKey then Key_Expand else if s.inLoaded then PCore_Prc else IDLE
    case Key_Expand => wait_Keyex
    case wait_Keyex => if !ExpansionDone(s) then wait_Keyex else if s.inLoaded then PCore_Prc else IDLE
    case PCore_Prc => wait_PCore
    case wait_PCore => if !CTValid(s) then wait_PCore else IDLE
    case _ => z.latched
  }

  function KeyStateNext(s: Regs): KeyState {
    match s.keyState
    case KeyIdle => if KeyLogicStart(s) then RotwordPhase else KeyIdle
    case RotwordPhase => KeyexpandPhase
    case KeyexpandPhase => if s.keyRound == 10 then KeyDone else RotwordPhase
    case KeyDone => KeyIdle
  }

  function KeyRoundNext(s: Regs): Nibble {
    if s.keyState == KeyexpandPhase then (s.keyRound + 1) % 16
    else if s.keyState == KeyDone then 1
    else s.keyRound
  }

  function KeyRegNext(s: Regs, z: Floating): seq<Block> {
    if KeyLogicStart(s) then
      if |s.keyReg| > 0 then s.keyReg[0 := TempBus(s, z)] else s.keyReg
    else if s.keyState == KeyexpandPhase && s.keyRound < |s.keyReg| then s.keyReg[s.keyRound := NewRoundKey(s, z)]
    else s.keyReg
  }

  function CoreStateNext(s: Regs): CoreState {
    match s.coreState
    case CoreIdle => if PCoreStart(s) then Phase0 else CoreIdle
    case Phase0 => Phase1
    case Phase1 => if s.coreRound == 10 then CoreFinish else Phase0
    case CoreFinish => CoreIdle
  }

  function CoreRoundNext(s: Regs): Nibble {
    if s.coreState == Phase1 then (s.coreRound + 1) % 16
    else if s.coreState == CoreIdle then 1
    else s.coreRound
  }

  function StateRegNext(s: Regs, z: Floating): Block {
    if PCoreStart(s) then TempBus(s, z)
    else if s.coreState == Phase1 then
      if s.coreRound == 10 then XorBlock(SboxOut(s), RoundKeyBus(s, z))
      else MixColumnsAddRoundKey(SboxOut(s), RoundKeyBus(s, z))
    else s.stateReg
  }

  function Step(s: Regs, h: Host, z: Floating): Regs {
    Regs(
      SysNext(s, h, z),
      s.sys != PCore_Prc && (h.loadData || s.inLoaded),
      s.keyGenerated || (s.sys == wait_Keyex && ExpansionDone(s)),
      if h.loadKey then h.inData else s.key,
      if h.loadData && !h.loadKey then h.inData else s.data,
      KeyRegNext(s, z),
      KeyStateNext(s), KeyRoundNext(s),
      CoreStateNext(s), CoreRoundNext(s),
      StateRegNext(s, z),
      MuxOut(s, z))
  }

  /** The registers while `rst` is high; the ROM address register has no reset. */
  predicate IsReset(s: Regs) {
    s == Regs(IDLE, false, false, ZeroBlock, ZeroBlock, seq(11, _ => ZeroBlock),
              KeyIdle, 1, CoreIdle, 1, ZeroBlock, s.romAddr)
  }

  // ----- Control: the three state machines stay in step --------------------------------------

  predicate KeyControl(s: Regs) {
    match s.keyState
    case KeyIdle => s.sys != wait_Keyex && s.keyRound == 1
    case KeyDone => s.sys == wait_Keyex && s.keyRound == 11
    case _ => s.sys == wait_Keyex && 1 <= s.keyRound <= 10
  }

  predicate CoreControl(s: Regs) {
    match s.coreState
    case CoreIdle => s.sys != wait_PCore && (s.coreRound == 1 || (s.coreRound == 11 && s.sys == IDLE))
    case CoreFinish => s.sys == wait_PCore && s.coreRound == 11
    case _ => s.sys == wait_PCore && 1 <= s.coreRound <= 10
  }

  predicate Control(s: Regs) {
    && |s.keyReg| == 11
    && !s.sys.Finish? && !s.sys.Code010? && !s.sys.Code101?
    && (s.sys == PCore_Prc ==> s.inLoaded)
    && KeyControl(s)
    && CoreControl(s)
  }

  lemma ResetControl(s: Regs)
    requires IsReset(s)
    ensures Control(s)
  {}

  /** For any host inputs and any floating values the control invariant is kept. */
  lemma ControlStep(s: Regs, h: Host, z: Floating)
    requires Control(s)
    ensures Control(Step(s, h, z))
  {
    hide StateRegNext, MuxOut, NewRoundKey, TempBus;
    var t := Step(s, h, z);
    assert KeyControl(t);
    assert CoreControl(t);
  }

}
