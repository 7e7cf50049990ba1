/**
 The accelerator in the form of its Verilog: one object holding every register, clocked in
 place. `Clock` first samples the wires, then performs the nonblocking assignments of each
 always block; it is proved equal to the step that the theorems of AesTheorems are about.
 */
module AesTop {

  import opened GaloisField
  import opened Datapath
  import opened AesMachine
  import opened AesRuns

  class Accelerator {
    // SystemController
    var sys: SysState
    var inLoaded: bool
    var keyGenerated: bool
    // InputInterface
    var key: Block
    var data: Block
    // KeyLogic and its controller
    const keyReg: array<Block>
    var keyState: KeyState
    var keyRound: Nibble
    // ProcessingCore and its controller
    var coreState: CoreState
    var coreRound: Nibble
    var stateReg: Block
    // S_box
    var romAddr: Block

    function State(): Regs
      reads this, keyReg
    {
      Regs(sys, inLoaded, keyGenerated, key, data, keyReg[..], keyState, keyRound, coreState, coreRound, stateReg, romAddr)
    }

    /** Power-up: the registers hold their reset values, the ROM address anything at all. */
    constructor (address: Block)
      ensures fresh(keyReg) && keyReg.Length == 11 && IsReset(State()) && State().romAddr == address
    {
      sys, inLoaded, keyGenerated := IDLE, false, false;
      key, data := ZeroBlock, ZeroBlock;
      keyReg := new Block[11](_ => ZeroBlock);
      keyState, keyRound := KeyIdle, 1;
      coreState, coreRound := CoreIdle, 1;
      stateReg := ZeroBlock;
      romAddr := address;
      new;
      assert keyReg[..] == seq(11, _ => ZeroBlock);
    }

    // Each module's always block, given the wires of the cycle: `s` is what every register showed before
    // the edge, so that the assignments act as nonblocking ones in any order.

    method EdgeInputInterface(h: Host)
      modifies `key, `data
      ensures key == if h.loadKey then h.inData else old(key)
      ensures data == if h.loadData && !h.loadKey then h.inData else old(data)
    {
      if h.loadKey {
        key := h.inData;
      } else if h.loadData {
        data := h.inData;
      }
    }

    method EdgeKeyLogic(s: Regs, z: Floating)
      requires keyReg[..] == s.keyReg && keyReg.Length == 11
      modifies keyReg
      ensures keyReg[..] == KeyRegNext(s, z)
    {
      hide TempBus, NewRoundKey;
      if KeyLogicStart(s) {
        keyReg[0] := TempBus(s, z);
      } else if s.keyState == KeyexpandPhase && s.keyRound < keyReg.Length {
        keyReg[s.keyRound] := NewRoundKey(s, z);
      }
    }

    method EdgeKeyLogicController(s: Regs)
      requires keyState == s.keyState && keyRound == s.keyRound
      modifies `keyState, `keyRound
      ensures keyState == KeyStateNext(s) && keyRound == KeyRoundNext(s)
    {
      if keyState == KeyexpandPhase {
        keyState := if keyRound == 10 then KeyDone else RotwordPhase;
        keyRound := (keyRound + 1) % 16;
      } else if keyState == KeyDone {
        keyState := KeyIdle;
        keyRound := 1;
      } else if keyState == RotwordPhase {
        keyState := KeyexpandPhase;
      } else if KeyLogicStart(s) {
        keyState := RotwordPhase;
      }
    }

    method EdgeProcessingCore(s: Regs, z: Floating)
      requires stateReg == s.stateReg
      modifies `stateReg
      ensures stateReg == StateRegNext(s, z)
    {
      hide TempBus, SboxOut, RoundKeyBus, XorBlock, MixColumnsAddRoundKey;
      if PCoreStart(s) {
        stateReg := TempBus(s, z);
      } else if s.coreState == Phase1 {
        if s.coreRound == 10 {
          stateReg := XorBlock(SboxOut(s), RoundKeyBus(s, z));
        } else {
          stateReg := MixColumnsAddRoundKey(SboxOut(s), RoundKeyBus(s, z));
        }
      }
    }

    method EdgeProcessingCoreController(s: Regs)
      requires coreState == s.coreState && coreRound == s.coreRound
      modifies `coreState, `coreRound
      ensures coreState == CoreStateNext(s) && coreRound == CoreRoundNext(s)
    {
      if coreState == CoreIdle {
        coreState := if PCoreStart(s) then Phase0 else CoreIdle;
        coreRound := 1;
      } else if coreState == Phase0 {
        coreState := Phase1;
      } else if coreState == Phase1 {
        coreState := if coreRound == 10 then CoreFinish else Phase0;
        coreRound := (coreRound + 1) % 16;
      } else {
        coreState := CoreIdle;
      }
    }

    method EdgeSystemController(s: Regs, h: Host, z: Floating)
      requires sys == s.sys && inLoaded == s.inLoaded && keyGenerated == s.keyGenerated
      modifies `sys, `inLoaded, `keyGenerated
      ensures sys == SysNext(s, h, z)
      ensures inLoaded == (s.sys != PCore_Prc && (h.loadData || s.inLoaded))
      ensures keyGenerated == (s.keyGenerated || (s.sys == wait_Keyex && ExpansionDone(s)))
    {
      sys := SysNext(s, h, z);
      if h.loadData {
        inLoaded := true;
      }
      if s.sys == wait_Keyex && ExpansionDone(s) {
        keyGenerated := true;
      }
      if s.sys == PCore_Prc {
        inLoaded := false;
      }
    }

    /** One rising edge of `clk`. */
    method Clock(h: Host, z: Floating)
      requires keyReg.Length == 11
      modifies this, keyReg
      ensures State() == Step(old(State()), h, z)
    {
      var s := State();
      hide KeyRegNext, KeyStateNext, KeyRoundNext, CoreStateNext, CoreRoundNext, StateRegNext, SysNext, MuxOut,
           ExpansionDone;
      EdgeInputInterface(h);
      EdgeKeyLogic(s, z);
      EdgeKeyLogicController(s);
      EdgeProcessingCore(s, z);
      EdgeProcessingCoreController(s);
      EdgeSystemController(s, h, z);
      romAddr := MuxOut(s, z);
    }

    /** Any number of edges: the object goes through exactly the states of `Run`. */
    method ClockAll(cycles: seq<Cycle>)
      requires keyReg.Length == 11
      modifies this, keyReg
      ensures State() == Run(old(State()), cycles)
    {
      hide Step, State;
      for i := 0 to |cycles|
        invariant State() == Run(old(State()), cycles[..i])
      {
        Clock(cycles[i].host, cycles[i].floating);
        assert cycles[..i + 1][..i] == cycles[..i];
      }
      assert cycles[..|cycles|] == cycles;
    }
  }
}
