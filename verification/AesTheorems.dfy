/**
 The properties of the whole accelerator: functional correctness against FIPS 197, the
 lock step of its state machines, latency, and conservation of blocks.
 */
module AesTheorems {

  import opened GaloisField
  import opened Datapath
  import opened AesMachine
  import opened AesRuns
  import Fips = Fips197

  ghost predicate Invariant(s: Regs, n: Notes) {
    Control(s) && KeyData(s, n) && CoreData(s, n)
  }

  lemma InvariantStep(s: Regs, n: Notes, h: Host, z: Floating)
    requires Invariant(s, n)
    ensures Invariant(Step(s, h, z), Observe(n, s))
  {
    KeyDataStep(s, n, h, z);
    CoreDataStep(s, n, h, z);
  }

  lemma {:induction false} RunInvariant(s: Regs, cycles: seq<Cycle>)
    requires IsReset(s)
    ensures Invariant(Run(s, cycles), Observed(s, cycles))
  {
    if |cycles| == 0 {
      ResetControl(s);
      assert KeyData(s, Blank);
    } else {
      var before := cycles[..|cycles| - 1];
      var last := cycles[|cycles| - 1];
      RunInvariant(s, before);
      InvariantStep(Run(s, before), Observed(s, before), last.host, last.floating);
    }
  }

  // ----- What the ciphertext is, for every host ---------------------------------------------

  lemma FinishedData(r: Regs, n: Notes, z: Floating)
    requires Invariant(r, n) && CTValid(r)
    ensures CipherText(r, z) == Fips.TenRounds(RoundKeys(n), Whitened(n))
  {
    hide Fips.TenRounds, RoundKeys, Whitened;
  }

  /** Whatever the host does, a valid ciphertext is rounds 1 to 10 under the round keys of the last started
      key, applied to the data and key that were in the input registers at the last core start. */
  lemma CipherTextOfAnyRun(s: Regs, cycles: seq<Cycle>, z: Floating)
    requires IsReset(s)
    requires CTValid(Run(s, cycles))
    ensures var n := Observed(s, cycles);
            CipherText(Run(s, cycles), z) == Fips.TenRounds(RoundKeys(n), Whitened(n))
  {
    RunInvariant(s, cycles);
    FinishedData(Run(s, cycles), Observed(s, cycles), z);
    hide *;
  }

  lemma TenRoundsInjective(w: seq<Block>, x: Block, y: Block)
    requires |w| == 11
    ensures Fips.TenRounds(w, x) == Fips.TenRounds(w, y) <==> x == y
  {
    hide Fips.TenRounds, Fips.InvTenRounds;
    Fips.TenRoundsBijection(w, x);
    Fips.TenRoundsBijection(w, y);
  }

  /** Whatever the host does, the ciphertext is the FIPS 197 cipher of the started data under the expanded
      key exactly when the key register still held that key at the core start. */
  lemma CipherTextIsCipherIff(s: Regs, cycles: seq<Cycle>, z: Floating)
    requires IsReset(s)
    requires CTValid(Run(s, cycles))
    requires Observed(s, cycles).scheduled.Some?
    ensures var n := Observed(s, cycles);
            CipherText(Run(s, cycles), z) == Fips.Cipher(n.startData, Fips.KeyExpansion(n.scheduled.value))
            <==> n.startKey == n.scheduled.value
  {
    hide Run, Observed, CTValid, CipherText, XorBlock, Fips.TenRounds, Fips.KeyExpansion;
    var n := Observed(s, cycles);
    var k := n.scheduled.value;
    CipherTextOfAnyRun(s, cycles, z);
    TenRoundsInjective(RoundKeys(n), XorBlock(n.startData, n.startKey), XorBlock(n.startData, k));
    if XorBlock(n.startData, n.startKey) == XorBlock(n.startData, k) {
      XorBlockInjective(n.startData, n.startKey, k);
    }
  }

  /** When the key engine reports completion, and from then on until the next one has been started, the
      register file is the key schedule of section 5.2 of the key that was started. */
  lemma ScheduleInForce(s: Regs, cycles: seq<Cycle>)
    requires IsReset(s)
    requires Run(s, cycles).sys != wait_Keyex || ExpansionDone(Run(s, cycles))
    ensures Run(s, cycles).keyReg == RoundKeys(Observed(s, cycles))
  {
    RunInvariant(s, cycles);
    hide Fips.RoundKey;
    var r, n := Run(s, cycles), Observed(s, cycles);
    if r.sys == wait_Keyex {
      assert forall j :: 0 <= j < 11 ==> r.keyReg[j] == Fips.RoundKey(n.scheduled.value, j);
    }
  }

  // ----- The disciplined host ----------------------------------------------------------------

  function LastKey(cycles: seq<Cycle>): Option<Block> {
    if |cycles| == 0 then None
    else
      var h := cycles[|cycles| - 1].host;
      if h.loadKey then Some(h.inData) else LastKey(cycles[..|cycles| - 1])
  }

  function LastData(cycles: seq<Cycle>): Option<Block> {
    if |cycles| == 0 then None
    else
      var h := cycles[|cycles| - 1].host;
      if h.loadData then Some(h.inData) else LastData(cycles[..|cycles| - 1])
  }

  /** The host loads only while the ready line is high, and never key and data together. */
  ghost predicate Disciplined(s: Regs, cycles: seq<Cycle>) {
    forall j :: 0 <= j < |cycles| ==> DisciplinedAt(Run(s, cycles[..j]), cycles[j].host)
  }

  predicate DisciplinedAt(s: Regs, h: Host) {
    && (h.loadKey || h.loadData ==> Ready(s))
    && !(h.loadKey && h.loadData)
  }

  ghost predicate HostView(s: Regs, n: Notes, key: Option<Block>, data: Option<Block>) {
    && (key.Some? ==> s.key == key.value && (s.sys == Key_Expand || n.scheduled == key))
    && (data.Some? ==> s.data == data.value)
    && (s.inLoaded || s.sys == wait_PCore ==> data.Some?)
    && (s.sys == wait_PCore ==> n.startData == s.data && n.startKey == s.key)
  }

  lemma HostViewStep(s: Regs, n: Notes, key: Option<Block>, data: Option<Block>, h: Host, z: Floating)
    requires Control(s) && HostView(s, n, key, data) && DisciplinedAt(s, h)
    ensures HostView(Step(s, h, z), Observe(n, s),
                     if h.loadKey then Some(h.inData) else key, if h.loadData then Some(h.inData) else data)
  {
    hide StateRegNext, MuxOut, KeyRegNext, KeyStateNext, KeyRoundNext, CoreRoundNext;
  }

  lemma {:induction false} HostViewHolds(s: Regs, cycles: seq<Cycle>)
    requires IsReset(s) && Disciplined(s, cycles)
    ensures HostView(Run(s, cycles), Observed(s, cycles), LastKey(cycles), LastData(cycles))
  {
    if |cycles| > 0 {
      var before := cycles[..|cycles| - 1];
      var last := cycles[|cycles| - 1];
      assert forall j :: 0 <= j < |before| ==> before[..j] == cycles[..j];
      HostViewHolds(s, before);
      RunInvariant(s, before);
      hide Step, HostView, Observe, KeyData, CoreData;
      assert DisciplinedAt(Run(s, before), last.host);
      HostViewStep(Run(s, before), Observed(s, before), LastKey(before), LastData(before), last.host, last.floating);
    }
  }

  /** In every run of a disciplined host, each valid ciphertext is the FIPS 197 cipher of the last loaded
      data under the last loaded key. */
  lemma DisciplinedCipher(s: Regs, cycles: seq<Cycle>, z: Floating)
    requires IsReset(s) && Disciplined(s, cycles)
    requires CTValid(Run(s, cycles))
    requires LastKey(cycles).Some?
    ensures LastData(cycles).Some?
    ensures CipherText(Run(s, cycles), z)
         == Fips.Cipher(LastData(cycles).value, Fips.KeyExpansion(LastKey(cycles).value))
  {
    HostViewHolds(s, cycles);
    RunInvariant(s, cycles);
    CipherTextIsCipherIff(s, cycles, z);
  }

  // ----- Lock step -----------------------------------------------------------------------------

  /** For any host inputs: each engine runs exactly while the system controller waits for it, the S-box mux
      is switched to the running engine, every round key consumed has an index in 1..10, and no unused
      encoding is reached. */
  lemma EnginesInStep(s: Regs, cycles: seq<Cycle>)
    requires IsReset(s)
    ensures var r := Run(s, cycles);
            && (r.keyState != KeyIdle <==> r.sys == wait_Keyex)
            && (r.coreState != CoreIdle <==> r.sys == wait_PCore)
            && (r.keyState != KeyIdle ==> !KeyLogicMode(r))
            && (r.coreState != CoreIdle ==> KeyLogicMode(r))
            && (r.coreState == Phase1 ==> 1 <= r.coreRound <= 10)
            && (r.keyState == KeyexpandPhase ==> 1 <= r.keyRound <= 10)
            && !r.sys.Finish? && !r.sys.Code010? && !r.sys.Code101?
  {
    RunInvariant(s, cycles);
  }

  predicate SameHost(c: seq<Cycle>, c': seq<Cycle>) {
    |c| == |c'| && forall j :: 0 <= j < |c| ==> c[j].host == c'[j].host
  }

  lemma FloatingStep(s: Regs, h: Host, z: Floating, z': Floating)
    requires Control(s)
    ensures Step(s, h, z) == Step(s, h, z')
  {
    hide RoundKeyExpander, MixColumnsAddRoundKey, ShiftRow, XorBlock, RotWord, SboxOut;
  }

  /** No register and no valid ciphertext ever depends on a floating net. */
  lemma {:induction false} FloatingNeverMatters(s: Regs, c: seq<Cycle>, c': seq<Cycle>, z: Floating, z': Floating)
    requires IsReset(s) && SameHost(c, c')
    ensures Run(s, c) == Run(s, c')
    ensures CTValid(Run(s, c)) ==> CipherText(Run(s, c), z) == CipherText(Run(s, c'), z')
  {
    if |c| > 0 {
      var b, b' := c[..|c| - 1], c'[..|c| - 1];
      var l, l' := c[|c| - 1], c'[|c| - 1];
      FloatingNeverMatters(s, b, b', z, z');
      RunInvariant(s, b);
      FloatingStep(Run(s, b), l.host, l.floating, l'.floating);
    }
  }

  // ----- Latency -------------------------------------------------------------------------------

  lemma {:induction false} RunConcat(s: Regs, a: seq<Cycle>, b: seq<Cycle>)
    ensures Run(s, a + b) == Run(Run(s, a), b)
  {
    hide Step;
    if |b| == 0 {
      assert a + b == a;
    } else {
      RunConcat(s, a, b[..|b| - 1]);
      assert (a + b)[..|a + b| - 1] == a + b[..|b| - 1];
    }
  }

  lemma {:induction false} RunControl(s: Regs, cycles: seq<Cycle>)
    requires Control(s)
    ensures Control(Run(s, cycles))
  {
    if |cycles| > 0 {
      var before := cycles[..|cycles| - 1];
      RunControl(s, before);
      ControlStep(Run(s, before), cycles[|cycles| - 1].host, cycles[|cycles| - 1].floating);
    }
  }

  /** Cycles until the key engine reports completion. */
  function KeyLeft(s: Regs): int
    requires Control(s)
  {
    match s.keyState
    case RotwordPhase => 2 * (10 - s.keyRound) + 2
    case KeyexpandPhase => 2 * (10 - s.keyRound) + 1
    case KeyDone => 0
    case KeyIdle => 21
  }

  function CoreLeft(s: Regs): int
    requires Control(s)
  {
    match s.coreState
    case Phase0 => 2 * (10 - s.coreRound) + 2
    case Phase1 => 2 * (10 - s.coreRound) + 1
    case CoreFinish => 0
    case CoreIdle => 21
  }

  lemma KeyFields(s: Regs, h: Host, z: Floating)
    requires Control(s) && (s.sys == Key_Expand || s.sys == wait_Keyex) && s.keyState != KeyDone
    ensures Step(s, h, z).sys == wait_Keyex
    ensures Step(s, h, z).keyState == KeyStateNext(s) && Step(s, h, z).keyRound == KeyRoundNext(s)
    ensures s.inLoaded ==> Step(s, h, z).inLoaded
  {}

  lemma KeyCount(s: Regs, t: Regs)
    requires Control(s) && (s.sys == Key_Expand || s.sys == wait_Keyex) && KeyLeft(s) > 0
    requires Control(t) && t.sys == wait_Keyex && t.keyState == KeyStateNext(s) && t.keyRound == KeyRoundNext(s)
    ensures KeyLeft(t) == KeyLeft(s) - 1
  {}

  lemma KeyTick(s: Regs, h: Host, z: Floating)
    requires Control(s) && (s.sys == Key_Expand || s.sys == wait_Keyex) && KeyLeft(s) > 0
    ensures var t := Step(s, h, z);
            Control(t) && t.sys == wait_Keyex && KeyLeft(t) == KeyLeft(s) - 1 && (s.inLoaded ==> t.inLoaded)
  {
    assert s.keyState != KeyDone;
    hide *;
    ControlStep(s, h, z);
    KeyFields(s, h, z);
    KeyCount(s, Step(s, h, z));
  }

  lemma CoreFields(s: Regs, h: Host, z: Floating)
    requires Control(s) && (s.sys == PCore_Prc || s.sys == wait_PCore) && s.coreState != CoreFinish
    ensures Step(s, h, z).sys == wait_PCore
    ensures Step(s, h, z).coreState == CoreStateNext(s) && Step(s, h, z).coreRound == CoreRoundNext(s)
  {}

  lemma CoreCount(s: Regs, t: Regs)
    requires Control(s) && (s.sys == PCore_Prc || s.sys == wait_PCore) && CoreLeft(s) > 0
    requires Control(t) && t.sys == wait_PCore && t.coreState == CoreStateNext(s) && t.coreRound == CoreRoundNext(s)
    ensures CoreLeft(t) == CoreLeft(s) - 1
  {}

  lemma CoreTick(s: Regs, h: Host, z: Floating)
    requires Control(s) && (s.sys == PCore_Prc || s.sys == wait_PCore) && CoreLeft(s) > 0
    ensures var t := Step(s, h, z);
            Control(t) && t.sys == wait_PCore && CoreLeft(t) == CoreLeft(s) - 1
  {
    assert s.coreState != CoreFinish;
    hide *;
    ControlStep(s, h, z);
    CoreFields(s, h, z);
    CoreCount(s, Step(s, h, z));
  }

  lemma {:induction false} KeyCountdown(s: Regs, cycles: seq<Cycle>)
    requires Control(s) && (s.sys == Key_Expand || s.sys == wait_Keyex)
    requires |cycles| <= KeyLeft(s)
    ensures var t := Run(s, cycles);
            Control(t) && (|cycles| == 0 || t.sys == wait_Keyex) && KeyLeft(t) == KeyLeft(s) - |cycles| && (s.inLoaded ==> t.inLoaded)
  {
    hide Step, Control, KeyLeft;
    if |cycles| > 0 {
      var before := cycles[..|cycles| - 1];
      KeyCountdown(s, before);
      KeyTick(Run(s, before), cycles[|cycles| - 1].host, cycles[|cycles| - 1].floating);
    }
  }

  lemma {:induction false} CoreCountdown(s: Regs, cycles: seq<Cycle>)
    requires Control(s) && (s.sys == PCore_Prc || s.sys == wait_PCore)
    requires |cycles| <= CoreLeft(s)
    ensures var t := Run(s, cycles);
            Control(t) && (|cycles| == 0 || t.sys == wait_PCore) && CoreLeft(t) == CoreLeft(s) - |cycles|
  {
    hide Step, Control, CoreLeft;
    if |cycles| > 0 {
      var before := cycles[..|cycles| - 1];
      CoreCountdown(s, before);
      CoreTick(Run(s, before), cycles[|cycles| - 1].host, cycles[|cycles| - 1].floating);
    }
  }

  /** Each engine finishes exactly 21 cycles after its start pulse, whatever the host does meanwhile. */
  lemma EngineLatency(s: Regs, cycles: seq<Cycle>, j: nat)
    requires Control(s) && j <= |cycles| && j <= 21
    ensures KeyLogicStart(s) ==> (ExpansionDone(Run(s, cycles[..j])) <==> j == 21)
    ensures PCoreStart(s) ==> (CTValid(Run(s, cycles[..j])) <==> j == 21)
  {
    if KeyLogicStart(s) {
      KeyCountdown(s, cycles[..j]);
    } else if PCoreStart(s) {
      CoreCountdown(s, cycles[..j]);
    }
  }

  /** Cycles from a data load to its ciphertext: 22 if a block was already pending, 45 if a key load follows
      at once, 23 otherwise. */
  function Latency(s: Regs, next: Host): nat {
    if s.inLoaded then 22 else if next.loadKey then 45 else 23
  }

  /** A block that the system controller has committed to. */
  predicate Committed(s: Regs) {
    s.sys == PCore_Prc || s.sys == wait_PCore || (s.inLoaded && (s.sys == Key_Expand || s.sys == wait_Keyex))
  }

  /** Cycles until the committed block shows its result. */
  function ResultLeft(s: Regs): int
    requires Control(s)
  {
    if s.sys == PCore_Prc || s.sys == wait_PCore then CoreLeft(s) else KeyLeft(s) + 22
  }

  lemma ResultNow(s: Regs)
    requires Control(s) && Committed(s)
    ensures ResultLeft(s) >= 0 && (CTValid(s) <==> ResultLeft(s) == 0)
  {}

  lemma ResultTick(s: Regs, h: Host, z: Floating)
    requires Control(s) && Committed(s) && ResultLeft(s) > 0
    ensures var t := Step(s, h, z); Control(t) && Committed(t) && ResultLeft(t) == ResultLeft(s) - 1
  {
    if s.sys == PCore_Prc || s.sys == wait_PCore {
      CoreTick(s, h, z);
    } else if KeyLeft(s) > 0 {
      KeyTick(s, h, z);
    } else {
      ControlStep(s, h, z);
      hide StateRegNext, MuxOut, KeyRegNext;
    }
  }

  lemma {:induction false} ResultCountdown(s: Regs, cycles: seq<Cycle>)
    requires Control(s) && Committed(s) && |cycles| <= ResultLeft(s)
    ensures var t := Run(s, cycles);
            Control(t) && Committed(t) && ResultLeft(t) == ResultLeft(s) - |cycles|
  {
    hide Step, Control, ResultLeft, Committed;
    if |cycles| > 0 {
      var before := cycles[..|cycles| - 1];
      ResultCountdown(s, before);
      ResultTick(Run(s, before), cycles[|cycles| - 1].host, cycles[|cycles| - 1].floating);
    }
  }

  /** Two edges after a lone data load the block is committed, with this many cycles to go. */
  lemma LoadCommits(s: Regs, a: Cycle, b: Cycle)
    requires Control(s) && Ready(s)
    requires a.host.loadData && !a.host.loadKey
    ensures var t := Step(s, a.host, a.floating);
            var u := Step(t, b.host, b.floating);
            && Control(t) && Control(u) && Committed(u) && !CTValid(s) && !CTValid(t)
            && ResultLeft(u) == Latency(s, b.host) - 2
  {
    ControlStep(s, a.host, a.floating);
    var t := Step(s, a.host, a.floating);
    ControlStep(t, b.host, b.floating);
    hide StateRegNext, MuxOut, KeyRegNext;
  }

  /** A data block loaded alone while ready gets its result after exactly `Latency` cycles, never more than
      45, and no earlier cycle shows a result, whatever the host does after the load. */
  lemma LoadLatency(s: Regs, cycles: seq<Cycle>, j: nat)
    requires Control(s) && Ready(s)
    requires |cycles| >= 2 && cycles[0].host.loadData && !cycles[0].host.loadKey
    requires j <= |cycles| && j <= Latency(s, cycles[1].host)
    ensures CTValid(Run(s, cycles[..j])) <==> j == Latency(s, cycles[1].host)
    ensures Latency(s, cycles[1].host) <= 45
  {
    LoadCommits(s, cycles[0], cycles[1]);
    var t := Step(s, cycles[0].host, cycles[0].floating);
    var u := Step(t, cycles[1].host, cycles[1].floating);
    assert cycles[..1][..0] == [] && cycles[..2][..1] == cycles[..1];
    assert Run(s, cycles[..1]) == t;
    assert Run(s, cycles[..2]) == u;
    hide Step, Control, Committed, ResultLeft, CTValid;
    if j >= 2 {
      assert cycles[..j] == cycles[..2] + cycles[2..j];
      RunConcat(s, cycles[..2], cycles[2..j]);
      ResultCountdown(u, cycles[2..j]);
      ResultNow(Run(u, cycles[2..j]));
    } else if j == 0 {
      assert cycles[..0] == [];
    }
  }

  // ----- Conservation --------------------------------------------------------------------------

  /** Cycles in which the host loads data. */
  function Loads(cycles: seq<Cycle>): nat {
    if |cycles| == 0 then 0
    else Loads(cycles[..|cycles| - 1]) + (if cycles[|cycles| - 1].host.loadData then 1 else 0)
  }

  /** Loads made while an earlier block was still waiting to start, so that one start serves both; module AesBlocks
      says which of them it takes. */
  function LoadsWhilePending(s: Regs, cycles: seq<Cycle>): nat {
    if |cycles| == 0 then 0
    else
      var before := cycles[..|cycles| - 1];
      LoadsWhilePending(s, before) + (if cycles[|cycles| - 1].host.loadData && Run(s, before).inLoaded then 1 else 0)
  }

  /** Cycles, up to and including the present one, that show a result. */
  function Results(s: Regs, cycles: seq<Cycle>): nat {
    (if |cycles| == 0 then 0 else Results(s, cycles[..|cycles| - 1])) + (if CTValid(Run(s, cycles)) then 1 else 0)
  }

  function InFlight(s: Regs): nat {
    if s.sys == wait_PCore && !CTValid(s) then 1 else 0
  }

  function Pending(s: Regs): nat {
    if s.inLoaded then 1 else 0
  }

  lemma ConservationStep(s: Regs, h: Host, z: Floating)
    requires Control(s)
    ensures var t := Step(s, h, z);
            (InFlight(t) + Pending(t) + (if CTValid(t) then 1 else 0) + (if h.loadData && s.inLoaded then 1 else 0)
             == InFlight(s) + Pending(s) + (if h.loadData then 1 else 0))
  {
    ControlStep(s, h, z);
    hide StateRegNext, MuxOut, KeyRegNext, KeyStateNext, KeyRoundNext, KeyControl;
  }

  /** Every load is a result shown, the block in flight, the block pending, or a load made while another was
      pending; so results never outnumber loads, for any host whatever. */
  lemma {:induction false} BlocksConserved(s: Regs, cycles: seq<Cycle>)
    requires IsReset(s)
    ensures var r := Run(s, cycles);
            Loads(cycles) == Results(s, cycles) + InFlight(r) + Pending(r) + LoadsWhilePending(s, cycles)
  {
    if |cycles| > 0 {
      var before := cycles[..|cycles| - 1];
      BlocksConserved(s, before);
      RunInvariant(s, before);
      hide Step, Control, InFlight, Pending, CTValid, IsReset;
      ConservationStep(Run(s, before), cycles[|cycles| - 1].host, cycles[|cycles| - 1].floating);
    }
  }

  lemma {:induction false} NoneWhilePendingIff(s: Regs, cycles: seq<Cycle>)
    ensures LoadsWhilePending(s, cycles) == 0
       <==> forall j :: 0 <= j < |cycles| && cycles[j].host.loadData ==> !Run(s, cycles[..j]).inLoaded
  {
    hide Run;
    if |cycles| > 0 {
      var before := cycles[..|cycles| - 1];
      NoneWhilePendingIff(s, before);
      assert forall j :: 0 <= j < |before| ==> before[..j] == cycles[..j];
    }
  }

  /** For a host that loads a block only when every earlier one has shown its result the loads balance. */
  lemma WaitingHostLosesNothing(s: Regs, cycles: seq<Cycle>)
    requires IsReset(s)
    requires forall j :: 0 <= j < |cycles| && cycles[j].host.loadData ==> Loads(cycles[..j]) == Results(s, cycles[..j])
    ensures var r := Run(s, cycles);
            Loads(cycles) == Results(s, cycles) + InFlight(r) + Pending(r)
  {
    hide IsReset, Loads, Results, LoadsWhilePending, Run, InFlight;
    forall j | 0 <= j < |cycles| && cycles[j].host.loadData ensures !Run(s, cycles[..j]).inLoaded {
      BlocksConserved(s, cycles[..j]);
    }
    NoneWhilePendingIff(s, cycles);
    BlocksConserved(s, cycles);
  }
}
