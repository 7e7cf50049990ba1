/**
 What becomes of each block that the host loads, for any host whatever: which core start takes it, and the ways
 in which it is lost.
 */
module AesBlocks {

  import opened GaloisField
  import opened AesMachine
  import opened AesRuns
  import opened AesTheorems

  /** A load that reaches the data register: with Load_Key in the same cycle the bus goes to the key register. */
  predicate DataOnly(h: Host) { h.loadData && !h.loadKey }

  predicate Joint(h: Host) { h.loadData && h.loadKey }

  /** Cycle `i` is a core start. */
  predicate StartAt(s: Regs, cycles: seq<Cycle>, i: nat)
    requires i <= |cycles|
  {
    PCoreStart(Run(s, cycles[..i]))
  }

  /** The cycle whose block sits in the data register. */
  function DataFrom(cycles: seq<Cycle>): Option<nat> {
    if |cycles| == 0 then None
    else if DataOnly(cycles[|cycles| - 1].host) then Some(|cycles| - 1)
    else DataFrom(cycles[..|cycles| - 1])
  }

  /** What the data register holds: the block loaded last, or zero. */
  function DataLoaded(cycles: seq<Cycle>): Block {
    if |cycles| == 0 then ZeroBlock
    else if DataOnly(cycles[|cycles| - 1].host) then cycles[|cycles| - 1].host.inData
    else DataLoaded(cycles[..|cycles| - 1])
  }

  /** The core start in cycle `i` takes the block that the host presented in cycle `j`. */
  predicate Takes(s: Regs, cycles: seq<Cycle>, i: nat, j: nat)
    requires i <= |cycles|
  {
    StartAt(s, cycles, i) && DataFrom(cycles[..i]) == Some(j)
  }

  /** A load that makes the system controller start the core: any load but one in the cycle of a core start. */
  predicate Accepted(s: Regs, cycles: seq<Cycle>, r: nat)
    requires r < |cycles|
  {
    cycles[r].host.loadData && !StartAt(s, cycles, r)
  }

  // ----- The data register -----------------------------------------------------------------------

  lemma {:induction false} DataFromIff(cycles: seq<Cycle>, j: nat)
    ensures DataFrom(cycles) == Some(j)
       <==> j < |cycles| && DataOnly(cycles[j].host) && forall m :: j < m < |cycles| ==> !DataOnly(cycles[m].host)
    ensures DataFrom(cycles) == Some(j) ==> DataLoaded(cycles) == cycles[j].host.inData
    ensures DataFrom(cycles) == None ==> DataLoaded(cycles) == ZeroBlock
  {
    if |cycles| > 0 {
      DataFromIff(cycles[..|cycles| - 1], j);
    }
  }

  lemma DataStep(s: Regs, h: Host, z: Floating)
    ensures Step(s, h, z).data == if DataOnly(h) then h.inData else s.data
    ensures Step(s, h, z).key == if h.loadKey then h.inData else s.key
    ensures Step(s, h, z).inLoaded == (!PCoreStart(s) && (h.loadData || s.inLoaded))
  {}

  lemma {:induction false} DataIs(s: Regs, cycles: seq<Cycle>)
    requires IsReset(s)
    ensures Run(s, cycles).data == DataLoaded(cycles)
  {
    if |cycles| > 0 {
      var before, last := cycles[..|cycles| - 1], cycles[|cycles| - 1];
      DataIs(s, before);
      hide Step, IsReset;
      DataStep(Run(s, before), last.host, last.floating);
    }
  }

  /** At any core start after it a load has reached the core if and only if it carried no key and no later block
      has replaced it; and then the core works on its data. */
  lemma TakenIff(s: Regs, cycles: seq<Cycle>, i: nat, j: nat)
    requires IsReset(s) && j < i <= |cycles| && StartAt(s, cycles, i) && cycles[j].host.loadData
    ensures Takes(s, cycles, i, j)
       <==> !cycles[j].host.loadKey && forall m :: j < m < i ==> !DataOnly(cycles[m].host)
    ensures Takes(s, cycles, i, j) ==> Run(s, cycles[..i]).data == cycles[j].host.inData
  {
    hide Run, IsReset;
    DataFromIff(cycles[..i], j);
    DataIs(s, cycles[..i]);
  }

  // ----- Requests and starts ---------------------------------------------------------------------

  /** Some load has been accepted since the last core start. */
  ghost predicate Requested(s: Regs, cycles: seq<Cycle>) {
    exists r :: 0 <= r < |cycles| && Accepted(s, cycles, r) && NoStartIn(s, cycles, r + 1, |cycles|)
  }

  lemma RequestedEarlier(s: Regs, cycles: seq<Cycle>)
    requires |cycles| > 0 && Requested(s, cycles)
    ensures var n := |cycles| - 1;
            !StartAt(s, cycles, n) && (cycles[n].host.loadData || Requested(s, cycles[..n]))
  {
    var n := |cycles| - 1;
    hide StartAt, Run;
    SameStarts(s, cycles, n);
    var r :| 0 <= r < |cycles| && Accepted(s, cycles, r) && NoStartIn(s, cycles, r + 1, |cycles|);
    if r < n {
      assert Accepted(s, cycles[..n], r) && NoStartIn(s, cycles[..n], r + 1, n);
    }
  }

  lemma RequestedLater(s: Regs, cycles: seq<Cycle>)
    requires |cycles| > 0
    ensures var n := |cycles| - 1;
            !StartAt(s, cycles, n) && (cycles[n].host.loadData || Requested(s, cycles[..n])) ==> Requested(s, cycles)
  {
    var n := |cycles| - 1;
    hide StartAt, Run;
    SameStarts(s, cycles, n);
    if !StartAt(s, cycles, n) {
      if cycles[n].host.loadData {
        assert Accepted(s, cycles, n) && NoStartIn(s, cycles, n + 1, |cycles|);
      } else if Requested(s, cycles[..n]) {
        var r :| 0 <= r < n && Accepted(s, cycles[..n], r) && NoStartIn(s, cycles[..n], r + 1, n);
        assert Accepted(s, cycles, r) && NoStartIn(s, cycles, r + 1, |cycles|);
      }
    }
  }

  /** A block is waiting to be started exactly when some load has been accepted since the last core start. */
  lemma {:induction false} PendingIff(s: Regs, cycles: seq<Cycle>)
    requires IsReset(s)
    ensures Run(s, cycles).inLoaded <==> Requested(s, cycles)
  {
    hide Step, Requested;
    if |cycles| > 0 {
      var n := |cycles| - 1;
      PendingIff(s, cycles[..n]);
      DataStep(Run(s, cycles[..n]), cycles[n].host, cycles[n].floating);
      if Requested(s, cycles) {
        RequestedEarlier(s, cycles);
      }
      RequestedLater(s, cycles);
    } else {
      NothingRequested(s, cycles);
    }
  }

  lemma NothingRequested(s: Regs, cycles: seq<Cycle>)
    requires |cycles| == 0
    ensures !Requested(s, cycles)
  {}

  ghost predicate NoStartIn(s: Regs, cycles: seq<Cycle>, from: nat, to: nat)
    requires to <= |cycles|
  {
    forall m :: from <= m < to ==> !StartAt(s, cycles, m)
  }

  lemma SameStarts(s: Regs, cycles: seq<Cycle>, n: nat)
    requires n <= |cycles|
    ensures forall m :: 0 <= m <= n ==> StartAt(s, cycles[..n], m) == StartAt(s, cycles, m)
  {
    hide Run;
    forall m | 0 <= m <= n ensures StartAt(s, cycles[..n], m) == StartAt(s, cycles, m) {
      assert cycles[..n][..m] == cycles[..m];
    }
  }

  lemma StartIsRequested(s: Regs, cycles: seq<Cycle>, i: nat)
    requires IsReset(s) && i <= |cycles| && StartAt(s, cycles, i)
    ensures Requested(s, cycles[..i])
  {
    hide Run, Requested, IsReset;
    RunInvariant(s, cycles[..i]);
    PendingIff(s, cycles[..i]);
  }

  /** A core start comes from a load since the one before it: if none started in between and cycle `j` was itself
      a core start, some later load asked for this one. */
  lemma StartAfterStart(s: Regs, cycles: seq<Cycle>, j: nat, i: nat)
    requires IsReset(s) && j < i <= |cycles| && StartAt(s, cycles, j) && StartAt(s, cycles, i)
    requires NoStartIn(s, cycles, j + 1, i)
    ensures exists r :: j < r < i && cycles[r].host.loadData
  {
    hide StartAt, Run, IsReset;
    StartIsRequested(s, cycles, i);
    SameStarts(s, cycles, i);
    var c := cycles[..i];
    var r :| 0 <= r < |c| && Accepted(s, c, r) && NoStartIn(s, c, r + 1, |c|);
    assert c[r] == cycles[r] && StartAt(s, c, j);
  }

  // ----- How long an accepted block waits -----------------------------------------------------------

  /** At least as many cycles as a pending block still has to wait. */
  function Wait(s: Regs): int
    requires Control(s)
  {
    match s.sys
    case PCore_Prc => 0
    case IDLE => 24
    case Key_Expand => 23
    case wait_Keyex => if KeyLeft(s) > 0 then KeyLeft(s) + 1 else 1
    case wait_PCore => if CoreLeft(s) > 0 then CoreLeft(s) + 25 else 25
    case _ => 0
  }

  lemma WaitBound(s: Regs)
    requires Control(s)
    ensures 0 <= Wait(s) <= 46
    ensures s.inLoaded ==> (PCoreStart(s) <==> Wait(s) == 0)
  {}

  lemma WaitStep(s: Regs, h: Host, z: Floating)
    requires Control(s) && s.inLoaded && !PCoreStart(s)
    ensures var t := Step(s, h, z);
            Control(t) && t.inLoaded && Wait(t) < Wait(s)
  {
    if s.sys == Key_Expand || (s.sys == wait_Keyex && KeyLeft(s) > 0) {
      KeyTick(s, h, z);
    } else if s.sys == wait_PCore && CoreLeft(s) > 0 {
      CoreTick(s, h, z);
      DataStep(s, h, z);
      hide Step, Control;
    } else {
      ControlStep(s, h, z);
      LastOfWait(s, h, z);
      DataStep(s, h, z);
      hide Step, Control;
    }
  }

  lemma LastOfWait(s: Regs, h: Host, z: Floating)
    requires Control(s) && s.inLoaded && !PCoreStart(s)
    requires s.sys == IDLE || (s.sys == wait_Keyex && KeyLeft(s) <= 0) || (s.sys == wait_PCore && CoreLeft(s) <= 0)
    ensures var t := Step(s, h, z);
            t.sys == if s.sys == IDLE && h.loadKey then Key_Expand else if s.sys == wait_PCore then IDLE else PCore_Prc
  {
    hide StateRegNext, MuxOut, KeyRegNext, KeyStateNext, KeyRoundNext, CoreRoundNext;
  }

  lemma RunNext(s: Regs, cycles: seq<Cycle>, n: nat)
    requires n < |cycles|
    ensures Run(s, cycles[..n + 1]) == Step(Run(s, cycles[..n]), cycles[n].host, cycles[n].floating)
  {
    assert cycles[..n + 1][..n] == cycles[..n];
    hide Step;
  }

  /** A pending block is started before its wait is over, whatever the host does. */
  lemma {:induction false} StartsSoon(s: Regs, cycles: seq<Cycle>, from: nat) returns (i: nat)
    requires from <= |cycles| && Control(Run(s, cycles[..from])) && Run(s, cycles[..from]).inLoaded
    requires from + Wait(Run(s, cycles[..from])) <= |cycles|
    ensures from <= i <= from + Wait(Run(s, cycles[..from])) && i <= |cycles| && StartAt(s, cycles, i)
    decreases Wait(Run(s, cycles[..from]))
  {
    var r := Run(s, cycles[..from]);
    WaitBound(r);
    hide Run, Control, Wait, Step;
    if PCoreStart(r) {
      i := from;
    } else {
      RunNext(s, cycles, from);
      WaitStep(r, cycles[from].host, cycles[from].floating);
      i := StartsSoon(s, cycles, from + 1);
    }
  }

  /** An accepted load is followed by a core start within 47 cycles, if the run is that long. */
  lemma AcceptedStarts(s: Regs, cycles: seq<Cycle>, r: nat) returns (i: nat)
    requires IsReset(s) && r + 47 <= |cycles| && Accepted(s, cycles, r)
    ensures r < i <= r + 47 && StartAt(s, cycles, i)
  {
    hide Run, Control, Wait, Step, IsReset;
    RunInvariant(s, cycles[..r + 1]);
    RunNext(s, cycles, r);
    DataStep(Run(s, cycles[..r]), cycles[r].host, cycles[r].floating);
    WaitBound(Run(s, cycles[..r + 1]));
    i := StartsSoon(s, cycles, r + 1);
  }

  // ----- The fate of a block -----------------------------------------------------------------------

  /** No load after cycle `j` puts a key and a block on the bus together. */
  predicate NoJointAfter(cycles: seq<Cycle>, j: nat) {
    forall m :: j < m < |cycles| ==> !Joint(cycles[m].host)
  }

  /** The first core start after a load takes its block if and only if there was no key load in the same cycle, that
      cycle was not itself a core start, and no other block came in between. */
  lemma TakenByNextStartIff(s: Regs, cycles: seq<Cycle>, j: nat, i: nat)
    requires IsReset(s) && j < i <= |cycles| && cycles[j].host.loadData && NoJointAfter(cycles, j)
    requires StartAt(s, cycles, i) && NoStartIn(s, cycles, j + 1, i)
    ensures Takes(s, cycles, i, j)
       <==> !cycles[j].host.loadKey && !StartAt(s, cycles, j) && forall m :: j < m < i ==> !DataOnly(cycles[m].host)
    ensures Takes(s, cycles, i, j) ==> Run(s, cycles[..i]).data == cycles[j].host.inData
  {
    hide Run, IsReset, StartAt, Takes;
    TakenIff(s, cycles, i, j);
    if StartAt(s, cycles, j) {
      StartAfterStart(s, cycles, j, i);
      var r :| j < r < i && cycles[r].host.loadData;
      assert DataOnly(cycles[r].host);
    }
  }

  /** A block is started at some time after its load if and only if there was no key load in the same cycle, that
      cycle was not a core start, and no other block came before the next core start. */
  lemma StartedIff(s: Regs, cycles: seq<Cycle>, j: nat)
    requires IsReset(s) && j + 47 <= |cycles| && cycles[j].host.loadData && NoJointAfter(cycles, j)
    ensures (exists i :: j < i <= |cycles| && Takes(s, cycles, i, j))
       <==> !cycles[j].host.loadKey && !StartAt(s, cycles, j) && !ReplacedInTime(s, cycles, j)
  {
    hide Run, IsReset, StartAt, Takes;
    if exists i :: j < i <= |cycles| && Takes(s, cycles, i, j) {
      var i :| j < i <= |cycles| && Takes(s, cycles, i, j);
      StartOfTake(s, cycles, i, j);
      TakenIff(s, cycles, i, j);
      var f := FirstStart(s, cycles, j, i);
      TakenIff(s, cycles, f, j);
      TakenByNextStartIff(s, cycles, j, f);
      forall m | j < m < |cycles| && DataOnly(cycles[m].host) ensures !NoStartIn(s, cycles, j + 1, m + 1) {
        assert i <= m && StartAt(s, cycles, i);
      }
    }
    if !cycles[j].host.loadKey && !StartAt(s, cycles, j) && !ReplacedInTime(s, cycles, j) {
      var i := AcceptedStarts(s, cycles, j);
      var f := FirstStart(s, cycles, j, i);
      forall m | j < m < f ensures !DataOnly(cycles[m].host) {
        assert NoStartIn(s, cycles, j + 1, m + 1);
      }
      TakenByNextStartIff(s, cycles, j, f);
    }
  }

  /** Another block was loaded after cycle `j` and no core start came first. */
  ghost predicate ReplacedInTime(s: Regs, cycles: seq<Cycle>, j: nat) {
    exists m :: j < m < |cycles| && DataOnly(cycles[m].host) && NoStartIn(s, cycles, j + 1, m + 1)
  }

  lemma StartOfTake(s: Regs, cycles: seq<Cycle>, i: nat, j: nat)
    requires i <= |cycles| && Takes(s, cycles, i, j)
    ensures StartAt(s, cycles, i)
  {}

  lemma {:induction false} FirstStart(s: Regs, cycles: seq<Cycle>, j: nat, i: nat) returns (f: nat)
    requires j < i <= |cycles| && StartAt(s, cycles, i)
    ensures j < f <= i && StartAt(s, cycles, f) && NoStartIn(s, cycles, j + 1, f)
  {
    hide StartAt;
    f := j + 1;
    while !StartAt(s, cycles, f)
      invariant j < f <= i && NoStartIn(s, cycles, j + 1, f)
      decreases i - f
    {
      f := f + 1;
    }
  }

  // ----- Blocks that are lost, and one that comes back ------------------------------------------------

  /** No load at all from cycle `j` on. */
  predicate NoLoadFrom(cycles: seq<Cycle>, j: nat) {
    forall m :: j <= m < |cycles| ==> !cycles[m].host.loadData
  }

  lemma {:induction false} NothingLoaded(cycles: seq<Cycle>)
    requires forall m :: 0 <= m < |cycles| ==> !DataOnly(cycles[m].host)
    ensures DataLoaded(cycles) == ZeroBlock
  {
    if |cycles| > 0 {
      NothingLoaded(cycles[..|cycles| - 1]);
    }
  }

  /** Loaded together with a key: the block is lost, and the core still starts, on the zero block of the reset. */
  lemma LostWithKey(s: Regs, cycles: seq<Cycle>) returns (i: nat)
    requires IsReset(s) && |cycles| >= 47 && Joint(cycles[0].host) && NoLoadFrom(cycles, 1)
    ensures 0 < i <= 47 && StartAt(s, cycles, i) && Run(s, cycles[..i]).data == ZeroBlock
    ensures forall k :: 0 < k <= |cycles| ==> !Takes(s, cycles, k, 0)
  {
    assert !StartAt(s, cycles, 0);
    hide Run, IsReset;
    i := AcceptedStarts(s, cycles, 0);
    NothingLoaded(cycles[..i]);
    DataIs(s, cycles[..i]);
    forall k | 0 < k <= |cycles| ensures !Takes(s, cycles, k, 0) {
      DataFromIff(cycles[..k], 0);
    }
  }

  /** From reset a lone load starts the core two cycles later. */
  lemma FirstStarts(s: Regs, cycles: seq<Cycle>)
    requires IsReset(s) && |cycles| >= 2 && DataOnly(cycles[0].host) && !cycles[1].host.loadKey
    ensures !StartAt(s, cycles, 0) && !StartAt(s, cycles, 1) && StartAt(s, cycles, 2)
    ensures |cycles| >= 3 ==> !StartAt(s, cycles, 3)
  {
    assert Run(s, cycles[..0]) == s;
    assert !ExpansionDone(s) && !CTValid(s);
    hide Run, Step, IsReset;
    forall n | 0 <= n < |cycles| && n < 3
      ensures Run(s, cycles[..n + 1]).sys == SysNext(Run(s, cycles[..n]), cycles[n].host, cycles[n].floating)
      ensures Run(s, cycles[..n + 1]).inLoaded
           == (!PCoreStart(Run(s, cycles[..n])) && (cycles[n].host.loadData || Run(s, cycles[..n]).inLoaded))
    {
      RunNext(s, cycles, n);
      SysStep(Run(s, cycles[..n]), cycles[n].host, cycles[n].floating);
      DataStep(Run(s, cycles[..n]), cycles[n].host, cycles[n].floating);
    }
    assert Run(s, cycles[..0 + 1]).inLoaded && Run(s, cycles[..0 + 1]).sys == IDLE;
    assert Run(s, cycles[..1 + 1]).sys == PCore_Prc;
    if |cycles| >= 3 { assert Run(s, cycles[..2 + 1]).sys == wait_PCore; }
  }

  lemma SysStep(s: Regs, h: Host, z: Floating)
    ensures Step(s, h, z).sys == SysNext(s, h, z)
  {}

  lemma NoMoreStarts(s: Regs, cycles: seq<Cycle>, j: nat)
    requires IsReset(s) && j < |cycles| && StartAt(s, cycles, j) && NoLoadFrom(cycles, j + 1)
    ensures forall i :: j < i <= |cycles| ==> !StartAt(s, cycles, i)
  {
    hide IsReset, StartAt;
    forall i | j < i <= |cycles| ensures !StartAt(s, cycles, i) {
      if StartAt(s, cycles, i) {
        var f := FirstStart(s, cycles, j, i);
        StartAfterStart(s, cycles, j, f);
      }
    }
  }

  /** Loaded in the cycle of a core start: the core takes the block before, and this one waits for ever. */
  lemma LostAtStart(s: Regs, cycles: seq<Cycle>)
    requires IsReset(s) && |cycles| >= 3 && DataOnly(cycles[0].host) && cycles[1].host == Host(false, false, ZeroBlock)
    requires DataOnly(cycles[2].host) && NoLoadFrom(cycles, 3)
    ensures Takes(s, cycles, 2, 0) && forall i :: 2 < i <= |cycles| ==> !Takes(s, cycles, i, 2)
  {
    hide Run, IsReset;
    FirstStarts(s, cycles);
    TakenIff(s, cycles, 2, 0);
    NoMoreStarts(s, cycles, 2);
  }

  /** Replaced while it waits: the core takes the later block, and never the earlier one. */
  lemma LostReplaced(s: Regs, cycles: seq<Cycle>)
    requires IsReset(s) && |cycles| >= 2 && DataOnly(cycles[0].host) && DataOnly(cycles[1].host)
    ensures Takes(s, cycles, 2, 1) && forall i :: 0 < i <= |cycles| ==> !Takes(s, cycles, i, 0)
  {
    hide Run, IsReset;
    FirstStarts(s, cycles);
    TakenIff(s, cycles, 2, 1);
    forall i | 0 < i <= |cycles| ensures !Takes(s, cycles, i, 0) {
      DataFromIff(cycles[..i], 0);
      if i == 1 { assert !StartAt(s, cycles, 1); }
    }
  }

  /** Why `StartedIff` speaks of later joint loads: one of them starts the core on the block that was dropped. */
  lemma BroughtBack(s: Regs, cycles: seq<Cycle>) returns (i: nat)
    requires IsReset(s) && |cycles| >= 50 && DataOnly(cycles[0].host) && cycles[1].host == Host(false, false, ZeroBlock)
    requires DataOnly(cycles[2].host) && Joint(cycles[3].host) && NoLoadFrom(cycles, 4)
    ensures StartAt(s, cycles, 2) && 3 < i <= 50 && Takes(s, cycles, i, 2)
  {
    hide Run, IsReset;
    FirstStarts(s, cycles);
    i := AcceptedStarts(s, cycles, 3);
    TakenIff(s, cycles, i, 2);
  }
}
