/**
 The enable bits: no wakeup is ever lost, the interrupt routine always ends, and it never
 writes to a full device FIFO.
 */
module UartControl {

  import opened UartRing
  import opened Uart
  import opened UartStreams

  // ----- The windows ------------------------------------------------------------------------------

  /** The writer has moved tx_in and has not yet set WE in irq_enable. */
  predicate WriterWindow(t: TxSide) {
    t.call.moved && (t.pc == WTop || t.pc == WReadOut || t.pc.WCopy? || t.pc.WPublish? || t.pc == WLock || t.pc == WSetVar)
  }

  /** The reader has moved rx_out and has not yet set RE in irq_enable. */
  predicate ReaderWindow(x: RxSide) {
    && x.call.published > 0
    && (x.pc == RReadIn || x.pc == RReadOut || x.pc.RCopy? || x.pc.RPublish? || x.pc == RAfterInner
        || x.pc == RFinish || x.pc == RSetVar)
  }

  predicate RingEmpty(r: Ring) {
    r.out == r.inn
  }

  /** Outside the windows, bytes waiting to be sent keep WE set, and RE is off only with bytes waiting to be read. */
  predicate NoLostWakeup(s: State) {
    && (!RingEmpty(s.tx.ring) && !s.en.irqWE ==> WriterWindow(s.tx))
    && (RingEmpty(s.rx.ring) && !s.en.irqRE ==> ReaderWindow(s.rx))
  }

  /** The device agrees with irq_enable except between the two stores of an update. */
  predicate DeviceAgrees(s: State) {
    && (s.en.hwWE == s.en.irqWE || s.tx.pc == WSetHw || s.isr == TxHw)
    && (s.en.hwRE == s.en.irqRE || s.rx.pc == RSetHw || s.isr.RxHw?)
  }

  /** At most one of writer, reader and interrupt routine is updating the enable bits. */
  predicate Exclusive(s: State) {
    && !(WriterLocked(s.tx.pc) && ReaderLocked(s.rx.pc))
    && (s.isr != IsrOff ==> !WriterLocked(s.tx.pc) && !ReaderLocked(s.rx.pc))
  }

  /** What the interrupt routine relies on at each point; in particular each pass has something to use up. */
  predicate IsrInv(s: State) {
    && s.txCount <= s.txDepth
    && match s.isr
       case RxLoop(avail, wi, space, worked) =>
         && s.en.irqRE && (wi ==> s.en.irqWE)
         && (!worked ==> avail && s.rxFifo != [])
         && s.txCount + space <= s.txDepth && (wi ==> space > 0)
       case RxHw(wi, space, worked) =>
         worked && (wi ==> s.en.irqWE) && s.txCount + space <= s.txDepth && (wi ==> space > 0)
       case TxLoop(wi, space, worked) =>
         && (wi ==> s.en.irqWE) && (!worked ==> wi && space > 0)
         && s.txCount + space <= s.txDepth
       case _ => true
  }

  predicate Control(s: State) {
    NoLostWakeup(s) && DeviceAgrees(s) && Exclusive(s) && IsrInv(s)
  }

  // ----- Every event keeps the control invariant ------------------------------------------------------

  lemma WriterControlStep(s: State)
    requires Streams(s) && Control(s) && Enabled(s, WriterStep)
    ensures Control(Next(s, WriterStep))
  {
    hide RxInv;
  }

  lemma ReaderControlStep(s: State)
    requires Streams(s) && Control(s) && Enabled(s, ReaderStep)
    ensures Control(Next(s, ReaderStep))
  {
    hide TxInv, RxStream;
  }

  lemma IsrWakeup(s: State, ri: bool, wi: bool)
    requires RingsValid(s) && Control(s) && Enabled(s, IsrStep(ri, wi))
    ensures NoLostWakeup(IsrNext(s, ri, wi))
  {
    hide Ring.Store, DeviceAgrees, WriterWindow, ReaderWindow, Exclusive, PollAllowed, Space;
  }

  lemma IsrAgrees(s: State, ri: bool, wi: bool)
    requires RingsValid(s) && Control(s) && Enabled(s, IsrStep(ri, wi))
    ensures DeviceAgrees(IsrNext(s, ri, wi)) && Exclusive(IsrNext(s, ri, wi))
  {
    hide NoLostWakeup, IsrInv, PollAllowed, Space, Ring.Store, Ring.AdvanceIn, Ring.AdvanceOut;
  }

  lemma IsrKeepsInv(s: State, ri: bool, wi: bool)
    requires RingsValid(s) && Control(s) && Enabled(s, IsrStep(ri, wi))
    ensures IsrInv(IsrNext(s, ri, wi))
  {
    hide NoLostWakeup, Ring.Store, Ring.AdvanceIn, Ring.AdvanceOut;
  }

  lemma ControlStep(s: State, e: Event)
    requires Streams(s) && Control(s)
    ensures Control(Next(s, e))
  {
    if !Enabled(s, e) {
      return;
    }
    match e
    case WriterStep => WriterControlStep(s);
    case ReaderStep => ReaderControlStep(s);
    case IsrStep(ri, wi) =>
      IsrWakeup(s, ri, wi);
      IsrAgrees(s, ri, wi);
      IsrKeepsInv(s, ri, wi);
      hide IsrNext, NoLostWakeup, DeviceAgrees, Exclusive, IsrInv, Streams;
    case Write(_, _) => hide RxInv;
    case Read(_, _) => hide TxInv;
    case _ => hide Streams;
  }

  lemma {:induction false} ControlHolds(s: State, events: seq<Event>)
    requires Initial(s)
    ensures Streams(s) && Control(Execute(s, events))
  {
    InitialStreams(s);
    if |events| > 0 {
      ControlHolds(s, events[..|events| - 1]);
      ControlStep(Execute(s, events[..|events| - 1]), events[|events| - 1]);
      hide Next, Control, Streams, Initial;
    }
  }

  /** In every reachable state: outside the writer's window a non-empty transmit ring has WE set, outside the
      reader's window a cleared RE means that bytes wait to be read, and whenever nobody is inside an update
      the device sees the same bits, so it will interrupt again. */
  lemma NoWakeupLost(s: State, events: seq<Event>)
    requires Initial(s)
    ensures Streams(s)
    ensures var t := Execute(s, events);
            && (!RingEmpty(t.tx.ring) ==> t.en.irqWE || WriterWindow(t.tx))
            && (!t.en.irqRE ==> !RingEmpty(t.rx.ring) || ReaderWindow(t.rx))
            && (InterruptsOn(t) ==> t.en == t.en.WriteControl())
            && (InterruptsOn(t) && t.tx.pc.WDone? && t.tx.ring.out != t.tx.ring.inn ==> t.en.irqWE && t.en.hwWE)
            && (InterruptsOn(t) && t.rx.pc.RDone? && t.rx.ring.out == t.rx.ring.inn ==> t.en.irqRE && t.en.hwRE)
  {
    ControlHolds(s, events);
    hide Execute, Initial, IsrInv;
  }

  /** The device's transmit FIFO is never written when full. */
  lemma DeviceNeverOverrun(s: State, events: seq<Event>)
    requires Initial(s)
    ensures Streams(s)
    ensures Execute(s, events).txCount <= Execute(s, events).txDepth
  {
    ControlHolds(s, events);
  }

  /** The routine returns from a look at the control register that shows neither interrupt, and from nowhere else. */
  lemma RoutineReturns(s: State, ri: bool, wi: bool)
    requires RingsValid(s) && s.isr != IsrOff && Enabled(s, IsrStep(ri, wi))
    ensures Next(s, IsrStep(ri, wi)).isr == IsrOff <==> s.isr == Poll && !ri && !wi
  {
    hide RingsValid, RingFull, PollAllowed, Space;
  }

  // ----- The interrupt routine ends -----------------------------------------------------------------------

  /** What a pass of the routine can use up: free receive slots, bytes to send, and the two enable bits. */
  function Fuel(s: State): nat
    requires RingsValid(s)
  {
    s.rx.ring.Free() + s.tx.ring.Used() + (if s.en.irqRE then 1 else 0) + (if s.en.irqWE then 1 else 0)
  }

  function Rank(isr: IsrPc): nat {
    match isr
    case IsrOff => 0
    case Poll => 3
    case RxLoop(_, _, _, worked) => if worked then 5 else 2
    case RxHw(_, _, _) => 5
    case TxLoop(_, _, worked) => if worked then 4 else 1
    case TxHw => 4
  }

  function Work(s: State): nat
    requires RingsValid(s)
  {
    4 * Fuel(s) + Rank(s.isr)
  }

  lemma WorkBound(s: State)
    requires RingsValid(s)
    ensures Work(s) <= 4 * (2047 + 2047 + 2) + 5
  {}

  lemma FillFree(x: RxSide, b: Octet)
    requires x.ring.Valid() && !RingFull(x.ring)
    ensures Fill(x, b).ring.Valid() && Fill(x, b).ring.Free() == x.ring.Free() - 1
  {
    StoreFree(x.ring, 0, b);
    Publish(x.ring.Store(x.ring.inn, b), 1);
  }

  lemma DrainUsed(t: TxSide)
    requires t.ring.Valid() && t.ring.out != t.ring.inn
    ensures Drain(t).ring.Valid() && Drain(t).ring.Used() == t.ring.Used() - 1
  {
    Consume(t.ring, 1);
  }

  /** Every step of the routine, whatever the device reports, uses up work. */
  lemma IsrWorks(s: State, ri: bool, wi: bool)
    requires RingsValid(s) && IsrInv(s) && s.isr != IsrOff && PollAllowed(s, ri, wi)
    ensures RingsValid(IsrNext(s, ri, wi))
    ensures Work(IsrNext(s, ri, wi)) < Work(s)
  {
    if !RingFull(s.rx.ring) && s.rxFifo != [] {
      FillFree(s.rx, s.rxFifo[0]);
    }
    if s.tx.ring.out != s.tx.ring.inn {
      DrainUsed(s.tx);
    }
    hide Ring.Free, Ring.Used, Ring.Valid, RingFull, Fill, Drain, PollAllowed, Space;
  }

  /** Steps of the interrupt routine among the events. */
  function IsrSteps(s: State, events: seq<Event>): nat
    requires Streams(s)
  {
    if |events| == 0 then 0
    else
      var before := events[..|events| - 1];
      var e := events[|events| - 1];
      IsrSteps(s, before) + (if e.IsrStep? && Enabled(Execute(s, before), e) then 1 else 0)
  }

  predicate StaysIn(s: State, events: seq<Event>)
    requires Streams(s)
  {
    forall j :: 0 <= j <= |events| ==> Execute(s, events[..j]).isr != IsrOff
  }

  lemma {:induction false} WorkUsed(s: State, events: seq<Event>)
    requires Streams(s) && Control(s) && StaysIn(s, events)
    ensures Control(Execute(s, events))
    ensures Work(Execute(s, events)) + IsrSteps(s, events) <= Work(s)
  {
    assert events[..0] == [];
    if |events| > 0 {
      var before := events[..|events| - 1];
      var e := events[|events| - 1];
      assert forall j :: 0 <= j <= |before| ==> before[..j] == events[..j];
      WorkUsed(s, before);
      var t := Execute(s, before);
      assert t.isr != IsrOff;
      ControlStep(t, e);
      QuietWork(t, e);
      hide Next, Control, Work, Streams, StaysIn, Enabled;
    }
  }

  lemma QuietWork(t: State, e: Event)
    requires Streams(t) && Control(t) && t.isr != IsrOff
    ensures RingsValid(Next(t, e))
    ensures Work(Next(t, e)) + (if e.IsrStep? && Enabled(t, e) then 1 else 0) <= Work(t)
  {
    StreamsStep(t, e);
    if e.IsrStep? && Enabled(t, e) {
      IsrWorks(t, e.ri, e.wi);
    }
    hide Work, IsrNext, WriterNext, ReaderNext, TxInv, RxInv;
    if !e.IsrStep? {
      SameWork(t, e);
    }
  }

  lemma SameWork(t: State, e: Event)
    requires RingsValid(t) && t.isr != IsrOff && !e.IsrStep?
    ensures Next(t, e).tx == t.tx && Next(t, e).rx == t.rx && Next(t, e).en == t.en && Next(t, e).isr == t.isr
    ensures Work(Next(t, e)) == Work(t)
  {
    hide WriterNext, ReaderNext, IsrNext, Ring.Free, Ring.Used;
  }

  lemma CanStep(s: State)
    requires s.isr != IsrOff
    ensures Enabled(s, IsrStep(false, false))
  {}

  /** Once entered, the routine takes fewer than 16400 steps whatever the host does meanwhile, and while it is
      running it can always step: so it always returns. */
  lemma InterruptRoutineEnds(s: State, events: seq<Event>)
    requires Streams(s) && Control(s) && StaysIn(s, events)
    ensures IsrSteps(s, events) <= Work(s) < 16400
    ensures Enabled(Execute(s, events), IsrStep(false, false))
  {
    assert events[..|events|] == events;
    assert Execute(s, events[..|events|]).isr != IsrOff;
    CanStep(Execute(s, events));
    hide *;
    WorkUsed(s, events);
    WorkBound(s);
  }
}
