/**
 The driver in the form of its source: the circular buffers changed in place by an interrupt routine, a timer
 callback and the read and write calls, with the host moving before every access to the device and the interrupt
 routine running whole between the accesses of a call. Whatever the object does is proved to be a run of the
 transition system in module Uart, so that what is proved there about streams, wakeups and blocking holds of it.
 */
module UartDriver {
  import opened UartRing
  import opened Uart
  import opened UartStreams
  import opened UartControl
  import opened UartBlocking
  import opened UartReturns
  import opened UartSteps

  datatype HostMove = Sends(b: Octet) | Drains

  /** What the device and its host do: the moves made before an access, and the interrupts asked for at a poll. */
  datatype Turn = Turn(moves: seq<HostMove>, ri: bool, wi: bool)

  /** What may come between two accesses of a call. */
  datatype Other = Host(move: HostMove) | Timer(ac: bool) | Interrupting(turns: nat -> Turn)

  class JtagUart {
    // altera_avalon_jtag_uart_state
    const rxBuf: array<Octet>
    var rxIn: nat
    var rxOut: nat
    const txBuf: array<Octet>
    var txIn: nat
    var txOut: nat
    var irqRE: bool
    var irqWE: bool
    var hostInactive: nat
    const timeout: nat
    // the device
    var hwRE: bool
    var hwWE: bool
    var rxFifo: seq<Octet>
    var txCount: nat
    const txDepth: nat
    // the state of the transition system, and the run that led to it
    ghost var state: State
    ghost var start: State
    ghost var trace: seq<Event>
    // what had been accepted at the beginning of the last call of write(), and returned at that of read()
    ghost var acceptedBefore: seq<Octet>
    ghost var returnedBefore: seq<Octet>

    /** As altera_avalon_jtag_uart_init leaves it. */
    constructor (depth: nat, patience: nat)
      ensures InRun() && fresh(rxBuf) && fresh(txBuf) && start == state && trace == []
      ensures state.tx.pc.WDone? && state.rx.pc.RDone? && state.isr == IsrOff
      ensures rxIn == rxOut == txIn == txOut == 0 && irqRE && hwRE && !irqWE && !hwWE
      ensures hostInactive == 0 && timeout == patience && rxFifo == [] && txCount == 0 && txDepth == depth
    {
      rxBuf := new Octet[LEN](_ => 0);
      txBuf := new Octet[LEN](_ => 0);
      rxIn, rxOut, txIn, txOut := 0, 0, 0, 0;
      irqRE, irqWE, hwRE, hwWE := true, false, true, false;
      hostInactive, timeout := 0, patience;
      rxFifo, txCount, txDepth := [], 0, depth;
      ghost var empty := Ring(seq(LEN, _ => 0), 0, 0);
      ghost var tx := TxSide(empty, WDone(WouldBlock), WriteCall([], true, 0, 0, 0, false, false), [], []);
      ghost var rx := RxSide(empty, RDone(WouldBlock), ReadCall(0, true, [], 0, 0, 0, false), [], []);
      ghost var s := State(tx, rx, Enables(true, false, true, false), IsrOff, 0, patience, [], 0, depth);
      state, start, trace, acceptedBefore, returnedBefore := s, s, [], [], [];
      new;
      InitialStreams(s);
      ControlHolds(s, []);
      assert rxBuf[..] == seq(LEN, _ => 0) && txBuf[..] == seq(LEN, _ => 0);
    }

    /** The fields of the driver and the device are as in `n`. */
    ghost predicate Shows(n: State)
      reads this`rxIn, this`rxOut, this`txIn, this`txOut, this`irqRE, this`irqWE, this`hostInactive
      reads this`hwRE, this`hwWE, this`rxFifo, this`txCount, rxBuf, txBuf
    {
      && n.tx.ring == Ring(txBuf[..], txOut, txIn) && n.rx.ring == Ring(rxBuf[..], rxOut, rxIn)
      && n.en == Enables(irqRE, irqWE, hwRE, hwWE) && n.hostInactive == hostInactive && n.timeout == timeout
      && n.rxFifo == rxFifo && n.txCount == txCount && n.txDepth == txDepth
    }

    /** The object has come to where it is by a run of the transition system. */
    ghost predicate InRun()
      reads this, rxBuf, txBuf
    {
      && rxBuf.Length == LEN && txBuf.Length == LEN && rxBuf != txBuf
      && Shows(state) && Reached(start, trace, state)
    }

    ghost function Now(): Moment
      reads this`state, this`trace
    {
      Moment(state, trace)
    }

    /** Records that the assignments just made were the step `e`. */
    ghost method Record(e: Event)
      requires rxBuf.Length == LEN && txBuf.Length == LEN && rxBuf != txBuf
      requires RingsValid(state) && Reached(start, trace, state)
      requires Enabled(state, e) && Shows(Next(state, e))
      modifies this`state, this`trace
      ensures InRun() && state == old(Next(state, e)) && trace == old(trace) + [e] && Onward(old(Now()), Now())
    {
      hide Next, Reached, Enabled, Shows, RingsValid, Onward;
      OneMore(start, trace, state, e);
      OneOnward(state, trace, e);
      state, trace := Next(state, e), trace + [e];
    }

    // ----- The host and the timer -----------------------------------------------------------------

    /** A move of the host; a FIFO that is empty already is not drained. */
    method HostMoves(m: HostMove)
      requires InRun()
      modifies this`rxFifo, this`txCount, this`state, this`trace
      ensures InRun() && state.isr == old(state.isr) && Undisturbed(old(state), state) && Onward(old(Now()), Now())
      ensures Measure(state) <= old(Measure(state)) && state.tx.sent == old(state.tx.sent)
    {
      OnwardAndOn();
      hide Reached, Measure, Next, Enabled, RingsValid, Onward;
      InReach(start, trace, state);
      match m
      case Sends(b) =>
        HostIs(state, b);
        rxFifo := rxFifo + [b];
        Record(HostSends(b));
      case Drains =>
        if txCount > 0 {
          HostIs(state, 0);
          txCount := txCount - 1;
          Record(HostDrains);
        }
    }

    method HostActs(moves: seq<HostMove>)
      requires InRun()
      modifies this`rxFifo, this`txCount, this`state, this`trace
      ensures InRun() && state.isr == old(state.isr) && Undisturbed(old(state), state) && Onward(old(Now()), Now())
      ensures Measure(state) <= old(Measure(state)) && state.tx.sent == old(state.tx.sent)
    {
      OnwardAndOn();
      hide InRun, Measure, Onward;
      for i := 0 to |moves|
        invariant InRun() && state.isr == old(state.isr) && Undisturbed(old(state), state) && Onward(old(Now()), Now())
        invariant Measure(state) <= old(Measure(state)) && state.tx.sent == old(state.tx.sent)
      {
        HostMoves(moves[i]);
      }
    }

    /** altera_avalon_jtag_uart_timeout: activity rewrites the enables and resets the count of inactive seconds. */
    method TimerExpires(ac: bool)
      requires InRun() && InterruptsOn(state)
      modifies this`hwRE, this`hwWE, this`hostInactive, this`state, this`trace
      ensures InRun() && state.isr == IsrOff && Undisturbed(old(state), state) && Onward(old(Now()), Now())
      ensures if ac then hwRE == irqRE && hwWE == irqWE && hostInactive == 0 else hwRE == old(hwRE) && hwWE == old(hwWE)
      ensures !ac ==> hostInactive == old(hostInactive) + if old(hostInactive) < INT_MAX - 2 then 1 else 0
    {
      hide Reached, Next, Enabled, RingsValid, Onward;
      InReach(start, trace, state);
      TimerIs(state, ac);
      if ac {
        hwRE, hwWE := irqRE, irqWE;
        hostInactive := 0;
      } else if hostInactive < INT_MAX - 2 {
        hostInactive := hostInactive + 1;
      }
      Record(TimerTick(ac));
    }

    // ----- The interrupt routine ------------------------------------------------------------------

    /** Reads the control register. RI comes only with RE set and data present, WI only with WE set and room. */
    method PollControl(wantRi: bool, wantWi: bool) returns (ri: bool, wi: bool, space: nat)
      requires InRun() && state.isr == Poll
      modifies this`state, this`trace
      ensures InRun() && Undisturbed(old(state), state) && Onward(old(Now()), Now()) && Measure(state) < old(Measure(state))
      ensures ri == (wantRi && hwRE && rxFifo != []) && wi == (wantWi && hwWE && txCount < txDepth)
      ensures state.isr == if ri then RxLoop(true, wi, space, false) else if wi then TxLoop(wi, space, false) else IsrOff
    {
      hide Reached, Measure, Next, Enabled, RingsValid, Onward;
      InReach(start, trace, state);
      space := txDepth - txCount;
      ri, wi := wantRi && hwRE && rxFifo != [], wantWi && hwWE && space > 0;
      assert space == Space(state) && PollAllowed(state, ri, wi);
      hide PollAllowed, Space;
      PollIs(state, ri, wi);
      IsrProgress(start, trace, state, ri, wi);
      Record(IsrStep(ri, wi));
    }

    /** Moves one byte from the device to the receive ring, which has room; tells whether there is more. */
    method Receive() returns (avail: bool)
      requires InRun() && state.isr.RxLoop? && rxFifo != [] && (rxIn + 1) % LEN != rxOut
      modifies rxBuf, this`rxIn, this`rxFifo, this`state, this`trace
      ensures InRun() && Undisturbed(old(state), state) && Onward(old(Now()), Now()) && Measure(state) < old(Measure(state))
      ensures state.isr == RxLoop(avail, old(state.isr.wi), old(state.isr.space), true)
    {
      hide Reached, Measure, Next, Enabled, RingsValid, Onward;
      InReach(start, trace, state);
      ReceiveIs(state);
      IsrProgress(start, trace, state, false, false);
      var data := rxFifo[0];
      rxFifo := rxFifo[1..];
      rxBuf[rxIn] := data;
      rxIn := (rxIn + 1) % LEN;
      avail := rxFifo != [];
      Record(IsrStep(false, false));
    }

    /** Leaves the receive loop; with data left over the ring is full, and receive interrupts are to go off. */
    method EndReceive(avail: bool)
      requires InRun() && state.isr.RxLoop? && ((rxIn + 1) % LEN == rxOut || rxFifo == [])
      requires avail == ((rxIn + 1) % LEN == rxOut && state.isr.avail)
      modifies this`irqRE, this`state, this`trace
      ensures InRun() && Undisturbed(old(state), state) && Onward(old(Now()), Now()) && Measure(state) < old(Measure(state))
      ensures state.isr == (
        if avail then RxHw(old(state.isr.wi), old(state.isr.space), true)
        else TxLoop(old(state.isr.wi), old(state.isr.space), old(state.isr.worked)))
      ensures irqRE == (old(irqRE) && !avail)
    {
      hide Reached, Measure, Next, Enabled, RingsValid, Onward;
      InReach(start, trace, state);
      EndReceiveIs(state);
      IsrProgress(start, trace, state, false, false);
      if avail {
        irqRE := false;
      }
      Record(IsrStep(false, false));
    }

    /** Writes irq_enable to the control register of the device. */
    method WriteControl()
      requires InRun() && (state.isr.RxHw? || state.isr.TxHw?)
      modifies this`hwRE, this`hwWE, this`state, this`trace
      ensures InRun() && Undisturbed(old(state), state) && Onward(old(Now()), Now()) && Measure(state) < old(Measure(state))
      ensures state.isr == (
        if old(state.isr.TxHw?) then Poll
        else TxLoop(old(state.isr.wi), old(state.isr.space), old(state.isr.worked)))
      ensures hwRE == irqRE && hwWE == irqWE && state.tx.sent == old(state.tx.sent)
    {
      hide Reached, Measure, Next, Enabled, RingsValid, Onward;
      InReach(start, trace, state);
      TurnOffIs(state);
      IsrProgress(start, trace, state, false, false);
      hwRE, hwWE := irqRE, irqWE;
      Record(IsrStep(false, false));
    }

    /** Moves one byte from the transmit ring to the device. */
    method Transmit()
      requires InRun() && state.isr.TxLoop? && state.isr.wi && state.isr.space > 0 && txOut != txIn
      modifies this`txOut, this`txCount, this`state, this`trace
      ensures InRun() && Undisturbed(old(state), state) && Onward(old(Now()), Now()) && Measure(state) < old(Measure(state))
      ensures state.isr == TxLoop(true, old(state.isr.space) - 1, true)
      ensures |state.tx.sent| == |old(state.tx.sent)| + 1
    {
      hide Reached, Measure, Next, Enabled, RingsValid, Onward;
      InReach(start, trace, state);
      TransmitIs(state);
      IsrProgress(start, trace, state, false, false);
      txCount := txCount + 1;
      txOut := (txOut + 1) % LEN;
      Record(IsrStep(false, false));
    }

    /** Leaves the transmit loop; with room left over the ring is empty, and transmit interrupts are to go off. */
    method EndTransmit(idle: bool)
      requires InRun() && state.isr.TxLoop? && idle == (state.isr.wi && state.isr.space > 0) && (idle ==> txOut == txIn)
      modifies this`irqWE, this`state, this`trace
      ensures InRun() && Undisturbed(old(state), state) && Onward(old(Now()), Now()) && Measure(state) < old(Measure(state))
      ensures state.isr == if idle then TxHw else Poll
      ensures state.tx.sent == old(state.tx.sent) && irqWE == (old(irqWE) && !idle)
    {
      hide Reached, Measure, Next, Enabled, RingsValid, Onward;
      InReach(start, trace, state);
      EndTransmitIs(state);
      IsrProgress(start, trace, state, false, false);
      if idle {
        irqWE := false;
      }
      Record(IsrStep(false, false));
    }

    /** altera_avalon_jtag_uart_irq. The routine returns, whatever the host does at whatever access; and where the
        device shows an interrupt whenever it may, it returns only with nothing left to read or with receive interrupts
        off, and with no room left to write or with transmit interrupts off. */
    method Irq(turns: nat -> Turn)
      requires InRun() && InterruptsOn(state)
      modifies `rxIn, `txOut, `irqRE, `irqWE, `hwRE, `hwWE, `rxFifo, `txCount, `state, `trace, rxBuf
      ensures InRun() && state.isr == IsrOff && Undisturbed(old(state), state) && Onward(old(Now()), Now())
      ensures (forall t :: turns(t).ri) ==> !hwRE || rxFifo == []
      ensures (forall t :: turns(t).wi) ==> !hwWE || txCount >= txDepth
    {
      OnwardAndOn();
      hide InRun, Measure, InterruptsOn, Onward;
      Enter();
      var t, more := 0, true;
      while more
        invariant !more && (forall t :: turns(t).ri) ==> !hwRE || rxFifo == []
        invariant !more && (forall t :: turns(t).wi) ==> !hwWE || txCount >= txDepth
        invariant InRun() && Undisturbed(old(state), state) && Onward(old(Now()), Now())
        invariant state.isr == if more then Poll else IsrOff
        decreases more, Measure(state)
      {
        t, more := Pass(turns, t);
      }
    }

    /** One turn of the outer loop of the routine. */
    method Pass(turns: nat -> Turn, t: nat) returns (u: nat, more: bool)
      requires InRun() && state.isr == Poll
      modifies `rxIn, `txOut, `irqRE, `irqWE, `hwRE, `hwWE, `rxFifo, `txCount, `state, `trace, rxBuf
      ensures InRun() && Undisturbed(old(state), state) && Onward(old(Now()), Now()) && Measure(state) < old(Measure(state))
      ensures state.isr == if more then Poll else IsrOff
      ensures !more ==> !(turns(t).ri && hwRE && rxFifo != []) && !(turns(t).wi && hwWE && txCount < txDepth)
    {
      OnwardAndOn();
      hide InRun, Measure, Onward;
      u := t + 1;
      HostActs(turns(t).moves);
      var ri, wi, space := PollControl(turns(t).ri, turns(t).wi);
      more := ri || wi;
      var off;
      if ri {
        u, off := ReceiveAll(turns, u, wi, space);
      }
      if more {
        u, off := TransmitAll(turns, u, wi, space);
      }
    }

    ghost method Enter()
      requires InRun() && InterruptsOn(state)
      modifies this`state, this`trace
      ensures InRun() && state.isr == Poll && Undisturbed(old(state), state) && Onward(old(Now()), Now())
    {
      hide Reached, Next, Enabled, RingsValid, InterruptsOn, Onward;
      InReach(start, trace, state);
      InterruptIs(state);
      Record(Interrupt);
    }

    /** The part of the routine for RI: receive interrupts go off exactly when data is left over for a full ring. */
    method ReceiveAll(turns: nat -> Turn, t: nat, wi: bool, space: nat) returns (u: nat, off: bool)
      requires InRun() && state.isr == RxLoop(true, wi, space, false)
      modifies `rxIn, `irqRE, `hwRE, `hwWE, `rxFifo, `txCount, `state, `trace, rxBuf
      ensures InRun() && state.isr.TxLoop? && state.isr.wi == wi && state.isr.space == space
      ensures Undisturbed(old(state), state) && Onward(old(Now()), Now()) && Measure(state) < old(Measure(state))
      ensures off ==> !irqRE && !hwRE && hwWE == irqWE && (rxIn + 1) % LEN == rxOut
      ensures !off ==> irqRE == old(irqRE) && hwRE == old(hwRE) && hwWE == old(hwWE)
      ensures !off ==> rxFifo == [] || (rxIn + 1) % LEN == rxOut
    {
      OnwardAndOn();
      hide InRun, Measure, Onward;
      u, off := ReceiveLoop(turns, t, wi, space);
      if off {
        HostActs(turns(u).moves);
        u := u + 1;
        WriteControl();
      }
    }

    /** The receive loop, and the clearing of RE in irq_enable. */
    method ReceiveLoop(turns: nat -> Turn, t: nat, wi: bool, space: nat) returns (u: nat, avail: bool)
      requires InRun() && state.isr == RxLoop(true, wi, space, false)
      modifies `rxIn, `irqRE, `rxFifo, `txCount, `state, `trace, rxBuf
      ensures InRun() && if avail then state.isr == RxHw(wi, space, true) else state.isr.TxLoop?
      ensures !avail ==> state.isr.wi == wi && state.isr.space == space
      ensures Undisturbed(old(state), state) && Onward(old(Now()), Now()) && Measure(state) < old(Measure(state))
      ensures avail ==> !irqRE && (rxIn + 1) % LEN == rxOut
      ensures !avail ==> irqRE == old(irqRE) && (rxFifo == [] || (rxIn + 1) % LEN == rxOut)
    {
      OnwardAndOn();
      hide InRun, Measure, Onward;
      u, avail := t, true;
      ghost var worked := false;
      while true
        invariant InRun() && state.isr == RxLoop(avail, wi, space, worked) && irqRE == old(irqRE)
        invariant Undisturbed(old(state), state) && Onward(old(Now()), Now()) && Measure(state) <= old(Measure(state))
        decreases Measure(state)
      {
        HostActs(turns(u).moves);
        u := u + 1;
        if (rxIn + 1) % LEN == rxOut {
          EndReceive(avail);
          break;
        }
        if rxFifo == [] {
          avail := false;
          EndReceive(avail);
          break;
        }
        avail := Receive();
        worked := true;
      }
    }

    /** The part of the routine for WI, with the room that the control register reported: either all the room is
        used, or the ring runs empty and transmit interrupts go off. */
    method TransmitAll(turns: nat -> Turn, t: nat, wi: bool, space: nat) returns (u: nat, off: bool)
      requires InRun() && state.isr.TxLoop? && state.isr.wi == wi && state.isr.space == space
      modifies `txOut, `irqWE, `hwRE, `hwWE, `rxFifo, `txCount, `state, `trace
      ensures InRun() && state.isr == Poll
      ensures Undisturbed(old(state), state) && Onward(old(Now()), Now()) && Measure(state) < old(Measure(state))
      ensures off ==> !irqWE && !hwWE && hwRE == irqRE && txOut == txIn
      ensures !off ==> irqWE == old(irqWE) && hwRE == old(hwRE) && hwWE == old(hwWE)
      ensures !off ==> |state.tx.sent| == |old(state.tx.sent)| + if wi then space else 0
    {
      OnwardAndOn();
      hide InRun, Measure, Onward;
      u := t;
      var room := space;
      while wi && room > 0 && txOut != txIn
        invariant InRun() && state.isr.TxLoop? && state.isr.wi == wi && state.isr.space == room
        invariant Undisturbed(old(state), state) && Onward(old(Now()), Now()) && Measure(state) <= old(Measure(state))
        invariant irqWE == old(irqWE) && hwRE == old(hwRE) && hwWE == old(hwWE) && room <= space
        invariant |state.tx.sent| == |old(state.tx.sent)| + space - room && (!wi ==> room == space)
        decreases room
      {
        HostActs(turns(u).moves);
        u := u + 1;
        Transmit();
        room := room - 1;
      }
      off := wi && room > 0;
      EndTransmit(off);
      if off {
        HostActs(turns(u).moves);
        u := u + 1;
        WriteControl();
      }
    }

    /** The transmit ring is full if tx_out is `out`. */
    ghost predicate FullAt(out: nat)
      reads this`txIn
    {
      (txIn + 1) % LEN == out
    }

    lemma FullAtOne(out: nat)
      requires FullAt(out) && out != txOut
      ensures !FullAt(txOut)
    {}

    lemma RingsShown()
      requires InRun()
      ensures RingFull(state.tx.ring) <==> FullAt(txOut)
      ensures RingEmpty(state.rx.ring) <==> rxIn == rxOut
    {
      hide Reached;
    }

    /** Between two accesses of a call: the host moves, the timer expires, the interrupt routine runs. */
    method Others(others: seq<Other>)
      requires InRun() && InterruptsOn(state)
      modifies `rxIn, `txOut, `irqRE, `irqWE, `hwRE, `hwWE, `rxFifo, `txCount, `hostInactive, `state, `trace, rxBuf
      ensures InRun() && InterruptsOn(state) && Undisturbed(old(state), state) && Onward(old(Now()), Now())
      ensures old(!FullAt(txOut)) ==> !FullAt(txOut)
      ensures old(rxIn != rxOut) ==> rxIn != rxOut
    {
      OnwardAndOn();
      hide InRun, Onward, FullAt, RingFull, RingEmpty;
      RingsShown();
      for i := 0 to |others|
        invariant InRun() && InterruptsOn(state) && Undisturbed(old(state), state) && Onward(old(Now()), Now())
      {
        Another(others[i]);
      }
      RingsShown();
    }

    method Another(other: Other)
      requires InRun() && InterruptsOn(state)
      modifies `rxIn, `txOut, `irqRE, `irqWE, `hwRE, `hwWE, `rxFifo, `txCount, `hostInactive, `state, `trace, rxBuf
      ensures InRun() && InterruptsOn(state) && Undisturbed(old(state), state) && Onward(old(Now()), Now())
    {
      hide InRun, Onward;
      match other
      case Host(m) => HostMoves(m);
      case Timer(ac) => TimerExpires(ac);
      case Interrupting(turns) => Irq(turns);
    }

    /** While interrupts are disabled only the host moves. */
    method Held(others: seq<Other>)
      requires InRun()
      modifies `rxFifo, `txCount, `state, `trace
      ensures InRun() && state.isr == old(state.isr) && Undisturbed(old(state), state) && Onward(old(Now()), Now())
    {
      OnwardAndOn();
      hide InRun, Onward;
      for i := 0 to |others|
        invariant InRun() && state.isr == old(state.isr) && Undisturbed(old(state), state) && Onward(old(Now()), Now())
      {
        if others[i].Host? {
          HostMoves(others[i].move);
        }
      }
    }

    // ----- write() ----------------------------------------------------------------------------------

    /** The call in progress is at `pc` with its first `off` bytes in the ring, and the reader lets it run. */
    ghost predicate Writing(pc: WritePc, bytes: seq<Octet>, nonblock: bool, off: nat)
      reads this, rxBuf, txBuf
    {
      && InRun() && state.isr == IsrOff && !ReaderLocked(state.rx.pc)
      && state.tx.pc == pc && state.tx.call.bytes == bytes && state.tx.call.nonblock == nonblock && state.tx.call.off == off
      && state.tx.call.base == |acceptedBefore|
    }

    /** A step that changes nothing but the place in the code and the local variables of the call. */
    ghost method WriterMoves()
      requires InRun() && state.isr == IsrOff && !ReaderLocked(state.rx.pc)
      requires WriterNext(state.tx, hostInactive >= timeout).ring == state.tx.ring
      requires WriterEnables(state.tx.pc, state.en) == state.en
      modifies this`state, this`trace
      ensures InRun() && Onward(old(Now()), Now())
      ensures state == old(state).(tx := WriterNext(old(state.tx), hostInactive >= timeout))
    {
      hide Reached, Next, Enabled, RingsValid, WriterNext, WriterEnables, ReaderLocked, Onward;
      InReach(start, trace, state);
      WriterIs(state);
      Record(WriterStep);
    }

    /** A step from one place in the code to the next. */
    ghost method WriterGoes(from: WritePc, to: WritePc, bytes: seq<Octet>, nonblock: bool, off: nat)
      requires Writing(from, bytes, nonblock, off)
      requires match from
               case WTop => to == if off < |bytes| then WReadOut else WLock
               case WCopy(n, k) => k == n && to == WPublish(n)
               case WLock => to == WSetVar
               case WUnlock => to == WCheck
               case WCheck => off < |bytes| && !nonblock && to == WSpin
               case WSpin => !(state.tx.call.out == txOut && hostInactive < timeout) && to == WAfterSpin
               case WAfterSpin => state.tx.call.out != txOut && to == WTop
               case _ => false
      modifies this`state, this`trace
      ensures Writing(to, bytes, nonblock, off) && Onward(old(Now()), Now())
      ensures state.tx.call.out == old(state.tx.call.out) && state.rx.returned == old(state.rx.returned)
    {
      hide Reached, RingsValid, Onward;
      WriterMoves();
    }

    /** Finds the run of free slots that can be filled without passing the end of the buffer. */
    method TakeRun(bytes: seq<Octet>, nonblock: bool, off: nat, env: nat -> seq<Other>, t: nat)
      returns (out: nat, n: nat)
      requires Writing(WTop, bytes, nonblock, off) && off < |bytes|
      modifies `rxIn, `txOut, `irqRE, `irqWE, `hwRE, `hwWE, `rxFifo, `txCount, `hostInactive, `state, `trace, rxBuf
      ensures Writing(if n == 0 then WLock else WCopy(n, 0), bytes, nonblock, off)
      ensures state.tx.call.out == out && off + n <= |bytes| && (n == 0 ==> FullAt(out))
      ensures old(!FullAt(txOut)) ==> n > 0
      ensures Onward(old(Now()), Now()) && state.rx.returned == old(state.rx.returned)
    {
      OnwardAndOn();
      hide InRun, WriterNext, Onward, FullAt;
      Others(env(t));
      WriterGoes(WTop, WReadOut, bytes, nonblock, off);
      Others(env(t + 1));
      out, n := FreeRun(bytes, nonblock, off);
    }

    /** No free slot at all means that the ring is full as seen. */
    method FreeRun(bytes: seq<Octet>, nonblock: bool, off: nat) returns (out: nat, n: nat)
      requires Writing(WReadOut, bytes, nonblock, off) && off < |bytes|
      modifies this`state, this`trace
      ensures Writing(if n == 0 then WLock else WCopy(n, 0), bytes, nonblock, off)
      ensures state.tx.call.out == out == txOut && off + n <= |bytes| && (n == 0 ==> FullAt(out))
      ensures Onward(old(Now()), Now()) && state.rx.returned == old(state.rx.returned)
    {
      hide Reached, RingsValid, Onward;
      InReach(start, trace, state);
      var inn := txIn;
      out := txOut;
      if inn < out {
        n := out - 1 - inn;
      } else if out > 0 {
        n := LEN - inn;
      } else {
        n := LEN - 1 - inn;
      }
      if n > |bytes| - off {
        n := |bytes| - off;
      }
      WriterMoves();
    }

    /** One byte of memcpy into the transmit ring. */
    method StoreByte(bytes: seq<Octet>, nonblock: bool, off: nat, n: nat, k: nat)
      requires Writing(WCopy(n, k), bytes, nonblock, off) && k < n
      modifies txBuf, this`state, this`trace
      ensures Writing(WCopy(n, k + 1), bytes, nonblock, off)
      ensures Onward(old(Now()), Now()) && state.rx.returned == old(state.rx.returned)
    {
      hide Reached, Next, Enabled, RingsValid, Onward;
      InReach(start, trace, state);
      Copying(start, trace, state, n, k);
      WriterIs(state);
      txBuf[txIn + k] := bytes[off + k];
      Record(WriterStep);
    }

    /** Moves tx_in over the slots that have been filled. */
    method PublishIn(bytes: seq<Octet>, nonblock: bool, off: nat, n: nat)
      requires Writing(WPublish(n), bytes, nonblock, off)
      modifies this`txIn, this`state, this`trace
      ensures Writing(WTop, bytes, nonblock, off + n)
      ensures Onward(old(Now()), Now()) && state.rx.returned == old(state.rx.returned)
    {
      hide Reached, Next, Enabled, RingsValid, Onward;
      InReach(start, trace, state);
      Copying(start, trace, state, n, n);
      WriterIs(state);
      txIn := (txIn + n) % LEN;
      Record(WriterStep);
    }

    /** memcpy(sp->tx_buf + in, ptr, n), and the new tx_in. */
    method CopyIn(bytes: seq<Octet>, nonblock: bool, off: nat, n: nat, env: nat -> seq<Other>, t: nat)
      requires Writing(WCopy(n, 0), bytes, nonblock, off)
      modifies `rxIn, `txIn, `txOut, `irqRE, `irqWE, `hwRE, `hwWE, `rxFifo, `txCount, `hostInactive, `state, `trace, rxBuf, txBuf
      ensures Writing(WTop, bytes, nonblock, off + n)
      ensures Onward(old(Now()), Now()) && state.rx.returned == old(state.rx.returned)
    {
      OnwardAndOn();
      hide InRun, WriterNext, Onward;
      for k := 0 to n
        invariant Writing(WCopy(n, k), bytes, nonblock, off)
        invariant Onward(old(Now()), Now()) && state.rx.returned == old(state.rx.returned)
      {
        Others(env(t + k));
        StoreByte(bytes, nonblock, off, n, k);
      }
      WriterGoes(WCopy(n, n), WPublish(n), bytes, nonblock, off);
      Others(env(t + n));
      PublishIn(bytes, nonblock, off, n);
    }

    /** Copies as much as fits into the transmit ring, which is something if there was room; bytes are left over only
        when the ring was full at the last look, at which tx_out was `out`. */
    method FillRing(bytes: seq<Octet>, nonblock: bool, from: nat, env: nat -> seq<Other>, t: nat)
      returns (off: nat, out: nat, u: nat)
      requires Writing(WTop, bytes, nonblock, from) && from <= |bytes|
      modifies `rxIn, `txIn, `txOut, `irqRE, `irqWE, `hwRE, `hwWE, `rxFifo, `txCount, `hostInactive, `state, `trace, rxBuf, txBuf
      ensures Writing(WLock, bytes, nonblock, off) && from <= off <= |bytes|
      ensures off < |bytes| ==> state.tx.call.out == out && FullAt(out)
      ensures from < |bytes| && old(!FullAt(txOut)) ==> off > from
      ensures Onward(old(Now()), Now()) && state.rx.returned == old(state.rx.returned)
    {
      OnwardAndOn();
      hide InRun, WriterNext, Onward, FullAt;
      off, out, u := from, 0, t;
      while off < |bytes|
        invariant Writing(WTop, bytes, nonblock, off) && from <= off <= |bytes|
        invariant off == from && old(!FullAt(txOut)) ==> !FullAt(txOut)
        invariant Onward(old(Now()), Now()) && state.rx.returned == old(state.rx.returned)
        decreases |bytes| - off
      {
        var n;
        out, n := TakeRun(bytes, nonblock, off, env, u);
        if n == 0 {
          return;
        }
        CopyIn(bytes, nonblock, off, n, env, u + 2);
        u := u + n + 3;
        off := off + n;
      }
      WriterGoes(WTop, WLock, bytes, nonblock, off);
    }

    /** Sets WE with interrupts disabled, so that the interrupt routine will transmit. */
    method EnableTransmit(bytes: seq<Octet>, nonblock: bool, off: nat, env: nat -> seq<Other>, t: nat)
      requires Writing(WLock, bytes, nonblock, off)
      modifies `rxIn, `txOut, `irqRE, `irqWE, `hwRE, `hwWE, `rxFifo, `txCount, `hostInactive, `state, `trace, rxBuf
      ensures Writing(WCheck, bytes, nonblock, off) && state.tx.call.out == old(state.tx.call.out)
      ensures irqWE && hwWE && hwRE == irqRE
      ensures Onward(old(Now()), Now()) && state.rx.returned == old(state.rx.returned)
    {
      OnwardAndOn();
      hide InRun, WriterNext, Onward;
      Others(env(t));
      WriterGoes(WLock, WSetVar, bytes, nonblock, off);
      StoreEnables(bytes, nonblock, off, env, t + 1);
      WriterGoes(WUnlock, WCheck, bytes, nonblock, off);
    }

    /** The two stores that set WE, with interrupts disabled. */
    method StoreEnables(bytes: seq<Octet>, nonblock: bool, off: nat, env: nat -> seq<Other>, t: nat)
      requires Writing(WSetVar, bytes, nonblock, off)
      modifies `irqWE, `hwRE, `hwWE, `rxFifo, `txCount, `state, `trace
      ensures Writing(WUnlock, bytes, nonblock, off) && state.tx.call.out == old(state.tx.call.out)
      ensures irqWE && hwWE && hwRE == irqRE
      ensures Onward(old(Now()), Now()) && state.rx.returned == old(state.rx.returned)
    {
      OnwardAndOn();
      hide InRun, Onward, Writing;
      HeldWriting(WSetVar, bytes, nonblock, off, env(t));
      SetWE(bytes, nonblock, off);
      HeldWriting(WSetHw, bytes, nonblock, off, env(t + 1));
      WriterControl(bytes, nonblock, off);
      HeldWriting(WUnlock, bytes, nonblock, off, env(t + 2));
    }

    method HeldWriting(ghost pc: WritePc, bytes: seq<Octet>, nonblock: bool, off: nat, others: seq<Other>)
      requires Writing(pc, bytes, nonblock, off)
      modifies `rxFifo, `txCount, `state, `trace
      ensures Writing(pc, bytes, nonblock, off) && state.tx.call.out == old(state.tx.call.out)
      ensures Onward(old(Now()), Now()) && state.rx.returned == old(state.rx.returned)
    {
      hide InRun, Onward;
      Held(others);
    }

    method SetWE(bytes: seq<Octet>, nonblock: bool, off: nat)
      requires Writing(WSetVar, bytes, nonblock, off)
      modifies this`irqWE, this`state, this`trace
      ensures Writing(WSetHw, bytes, nonblock, off) && irqWE && state.tx.call.out == old(state.tx.call.out)
      ensures Onward(old(Now()), Now()) && state.rx.returned == old(state.rx.returned)
    {
      hide Reached, Next, Enabled, RingsValid, Onward;
      InReach(start, trace, state);
      WriterIs(state);
      irqWE := true;
      Record(WriterStep);
    }

    method WriterControl(bytes: seq<Octet>, nonblock: bool, off: nat)
      requires Writing(WSetHw, bytes, nonblock, off)
      modifies this`hwRE, this`hwWE, this`state, this`trace
      ensures Writing(WUnlock, bytes, nonblock, off) && hwRE == irqRE && hwWE == irqWE
      ensures state.tx.call.out == old(state.tx.call.out)
      ensures Onward(old(Now()), Now()) && state.rx.returned == old(state.rx.returned)
    {
      hide Reached, Next, Enabled, RingsValid, Onward;
      InReach(start, trace, state);
      WriterIs(state);
      hwRE, hwWE := irqRE, irqWE;
      Record(WriterStep);
    }

    ghost method BeginWrite(bytes: seq<Octet>, nonblock: bool)
      requires InRun() && Enabled(state, Event.Write(bytes, nonblock))
      modifies this`state, this`trace, this`acceptedBefore
      ensures Writing(WTop, bytes, nonblock, 0) && acceptedBefore == old(state.tx.accepted)
      ensures trace == old(trace) + [Event.Write(bytes, nonblock)]
      ensures Onward(old(Now()), Now()) && state.rx.returned == old(state.rx.returned)
    {
      assert state.isr == IsrOff && !ReaderLocked(state.rx.pc);
      hide Reached, Next, Enabled, RingsValid, Onward;
      acceptedBefore := state.tx.accepted;
      InReach(start, trace, state);
      WriteIs(state, bytes, nonblock);
      Record(Event.Write(bytes, nonblock));
    }

    /** The call returns. */
    method EndWrite(bytes: seq<Octet>, nonblock: bool, off: nat) returns (r: Outcome)
      requires off <= |bytes|
      requires (Writing(WCheck, bytes, nonblock, off) && (off == |bytes| || nonblock))
            || (Writing(WAfterSpin, bytes, nonblock, off) && state.tx.call.out == txOut)
      modifies this`state, this`trace
      ensures Writing(WDone(r), bytes, nonblock, off)
      ensures Onward(old(Now()), Now()) && state.rx.returned == old(state.rx.returned)
    {
      hide Reached, RingsValid, Onward;
      WriterMoves();
      r := if off > 0 then Count(off) else if nonblock then WouldBlock else IoError;
    }

    /** altera_avalon_jtag_uart_write, watched for `polls` turns of its waiting loop: a call that blocks may wait
        for ever. What it has appended to the accepted bytes is at every time a prefix of what it was given, and
        when it is done exactly the prefix that its result counts; a call that has taken nothing would block if it
        must not, and fails otherwise. Bytes are left over only if the ring was full at some time during the call,
        and after a call that may block only if the host was inactive for the timeout. */
    method Write(bytes: seq<Octet>, nonblock: bool, env: nat -> seq<Other>, polls: nat) returns (done: bool, r: Outcome)
      requires InRun() && Enabled(state, Event.Write(bytes, nonblock))
      modifies `acceptedBefore, `rxIn, `txIn, `txOut, `irqRE, `irqWE, `hwRE, `hwWE, `rxFifo, `txCount, `hostInactive, `state, `trace, rxBuf, txBuf
      ensures InRun() && Onward(old(Now()), Now()) && state.rx.returned == old(state.rx.returned)
      ensures AcceptedBy(old(state.tx.accepted), state.tx, bytes, state.tx.call.off)
      ensures done ==> state.tx.pc == WDone(r) && match r
                       case Count(n) => state.tx.call.off == n > 0
                       case WouldBlock => state.tx.call.off == 0 && nonblock
                       case IoError => state.tx.call.off == 0 && !nonblock
      ensures done && state.tx.call.off < |bytes| ==> (
        && Streams(start) && FullAfter(start, trace, |old(trace)|)
        && (nonblock || InactiveAfter(start, trace, |old(trace)|)))
      ensures !done ==> !nonblock && state.tx.pc == WSpin && state.tx.call.out == txOut && hostInactive < timeout
    {
      OnwardAndOn();
      hide InRun, Writing, Enabled, Onward, AcceptedBy, Streams, FullAfter, InactiveAfter, FullAt;
      BeginWrite(bytes, nonblock);
      ghost var began := Now();
      var off: nat, t: nat, left: nat, over := 0, 0, polls, false;
      ghost var pc := WTop;
      done, r := false, WouldBlock;
      while !over
        invariant Writing(pc, bytes, nonblock, off) && (!over ==> pc == WTop) && (over && done ==> pc == WDone(r))
        invariant off <= |bytes| && acceptedBefore == old(state.tx.accepted)
        invariant over && !done ==> !nonblock && pc == WSpin && state.tx.call.out == txOut && hostInactive < timeout
        invariant Onward(began, Now()) && Onward(old(Now()), Now()) && state.rx.returned == old(state.rx.returned)
        decreases !over, FullAt(txOut), |bytes| - off
      {
        over, done, r, off, t, left, pc := WriteRound(bytes, nonblock, off, env, t, left);
      }
      HasWritten(old(Now()), began, pc, bytes, nonblock, off);
    }

    lemma HasWritten(before: Moment, began: Moment, pc: WritePc, bytes: seq<Octet>, nonblock: bool, off: nat)
      requires Writing(pc, bytes, nonblock, off) && acceptedBefore == before.state.tx.accepted
      requires Onward(before, Now()) && Onward(began, Now()) && began.trace == before.trace + [Event.Write(bytes, nonblock)]
      ensures InRun() && state.tx.pc == pc && state.tx.call.off == off
      ensures AcceptedBy(acceptedBefore, state.tx, bytes, off)
      ensures pc.WDone? ==> Reports(pc.result, off, nonblock)
      ensures pc.WDone? && off < |bytes| ==>
        && Streams(start) && FullAfter(start, trace, |before.trace|)
        && (nonblock || InactiveAfter(start, trace, |before.trace|))
    {
      hide Reached, Shows, FullAfter, InactiveAfter, AcceptedBy, Streams;
      CallAccepted(start, trace, state, acceptedBefore);
      if pc.WDone? && off < |bytes| {
        assert trace[|before.trace|] == began.trace[|before.trace|];
        WriteStopped(start, trace, state, |before.trace|);
      }
    }

    /** One turn of the outer loop: fill the ring, set WE, and wait if bytes are left. There is a further turn only with
        room in the ring, and then some bytes get in. */
    method WriteRound(bytes: seq<Octet>, nonblock: bool, from: nat, env: nat -> seq<Other>, t: nat, polls: nat)
      returns (over: bool, done: bool, r: Outcome, off: nat, u: nat, left: nat, ghost pc: WritePc)
      requires Writing(WTop, bytes, nonblock, from) && from <= |bytes|
      modifies `rxIn, `txIn, `txOut, `irqRE, `irqWE, `hwRE, `hwWE, `rxFifo, `txCount, `hostInactive, `state, `trace, rxBuf, txBuf
      ensures Writing(pc, bytes, nonblock, off) && from <= off <= |bytes|
      ensures !over ==> pc == WTop && !FullAt(txOut) && off < |bytes|
      ensures !over && old(!FullAt(txOut)) ==> off > from
      ensures over && done ==> pc == WDone(r)
      ensures over && !done ==> !nonblock && pc == WSpin && state.tx.call.out == txOut && hostInactive < timeout
      ensures Onward(old(Now()), Now()) && state.rx.returned == old(state.rx.returned)
    {
      OnwardAndOn();
      hide InRun, WriterNext, Onward, FullAt;
      var out;
      off, out, u := FillRing(bytes, nonblock, from, env, t);
      EnableTransmit(bytes, nonblock, off, env, u);
      u := u + 4;
      left, over, done, r := polls, true, true, WouldBlock;
      if off == |bytes| || nonblock {
        r := EndWrite(bytes, nonblock, off);
        pc := WDone(r);
        return;
      }
      over, done, r, u, left, pc := AwaitRoom(bytes, nonblock, off, out, env, u, polls);
    }

    /** The end of a turn with bytes left: waits, and gives up if tx_out has not moved. */
    method AwaitRoom(bytes: seq<Octet>, nonblock: bool, off: nat, out: nat, env: nat -> seq<Other>, t: nat, polls: nat)
      returns (over: bool, done: bool, r: Outcome, u: nat, left: nat, ghost pc: WritePc)
      requires Writing(WCheck, bytes, nonblock, off) && off < |bytes| && !nonblock && state.tx.call.out == out && FullAt(out)
      modifies `rxIn, `txOut, `irqRE, `irqWE, `hwRE, `hwWE, `rxFifo, `txCount, `hostInactive, `state, `trace, rxBuf
      ensures Writing(pc, bytes, nonblock, off) && (!over ==> pc == WTop && !FullAt(txOut)) && (over && done ==> pc == WDone(r))
      ensures over && !done ==> pc == WSpin && state.tx.call.out == txOut && hostInactive < timeout
      ensures Onward(old(Now()), Now()) && state.rx.returned == old(state.rx.returned)
    {
      OnwardAndOn();
      hide InRun, Writing, WriterNext, Onward, FullAt;
      var waiting;
      over, done, r := true, true, WouldBlock;
      Await(bytes, nonblock, off);
      waiting, left, u := Spin(bytes, nonblock, off, out, env, t, polls);
      if waiting {
        done, pc := false, WSpin;
      } else if out == txOut {
        r := EndWrite(bytes, nonblock, off);
        pc := WDone(r);
      } else {
        WriterGoes(WAfterSpin, WTop, bytes, nonblock, off);
        FullAtOne(out);
        over, pc := false, WTop;
      }
    }

    ghost method Await(bytes: seq<Octet>, nonblock: bool, off: nat)
      requires Writing(WCheck, bytes, nonblock, off) && off < |bytes| && !nonblock
      modifies this`state, this`trace
      ensures Writing(WSpin, bytes, nonblock, off) && state.tx.call.out == old(state.tx.call.out)
      ensures Onward(old(Now()), Now()) && state.rx.returned == old(state.rx.returned)
    {
      hide InRun, WriterNext, Onward;
      WriterGoes(WCheck, WSpin, bytes, nonblock, off);
    }

    /** Waits for the interrupt routine to move tx_out, or for the host to be inactive; after `polls` turns the call is
        left `waiting`. */
    method Spin(bytes: seq<Octet>, nonblock: bool, off: nat, out: nat, env: nat -> seq<Other>, t: nat, polls: nat)
      returns (waiting: bool, left: nat, u: nat)
      requires Writing(WSpin, bytes, nonblock, off) && state.tx.call.out == out
      modifies `rxIn, `txOut, `irqRE, `irqWE, `hwRE, `hwWE, `rxFifo, `txCount, `hostInactive, `state, `trace, rxBuf
      ensures Writing(if waiting then WSpin else WAfterSpin, bytes, nonblock, off) && state.tx.call.out == out
      ensures waiting ==> out == txOut && hostInactive < timeout
      ensures Onward(old(Now()), Now()) && state.rx.returned == old(state.rx.returned)
    {
      OnwardAndOn();
      hide InRun, WriterNext, Onward;
      waiting, left, u := false, polls, t + 1;
      Others(env(t));
      while out == txOut && hostInactive < timeout
        invariant Writing(WSpin, bytes, nonblock, off) && state.tx.call.out == out
        invariant Onward(old(Now()), Now()) && state.rx.returned == old(state.rx.returned)
        decreases left
      {
        if left == 0 {
          waiting := true;
          return;
        }
        Others(env(u));
        u, left := u + 1, left - 1;
      }
      LeaveSpin(bytes, nonblock, off);
      Others(env(u));
      u := u + 1;
    }

    ghost method LeaveSpin(bytes: seq<Octet>, nonblock: bool, off: nat)
      requires Writing(WSpin, bytes, nonblock, off) && !(state.tx.call.out == txOut && hostInactive < timeout)
      modifies this`state, this`trace
      ensures Writing(WAfterSpin, bytes, nonblock, off) && state.tx.call.out == old(state.tx.call.out)
      ensures Onward(old(Now()), Now()) && state.rx.returned == old(state.rx.returned)
    {
      hide InRun, WriterNext, Onward;
      WriterGoes(WSpin, WAfterSpin, bytes, nonblock, off);
    }

    // ----- read() -----------------------------------------------------------------------------------

    /** The call in progress is at `pc` with `got` in the caller's buffer, and the writer lets it run. */
    ghost predicate Reading(pc: ReadPc, space: nat, nonblock: bool, got: seq<Octet>)
      reads this, rxBuf, txBuf
    {
      && InRun() && state.isr == IsrOff && !WriterLocked(state.tx.pc)
      && state.rx.pc == pc && state.rx.call.space == space && state.rx.call.nonblock == nonblock && state.rx.call.got == got
      && state.rx.call.base == |returnedBefore|
    }

    /** A step that changes nothing but the place in the code and the local variables of the call. */
    ghost method ReaderMoves()
      requires InRun() && state.isr == IsrOff && !WriterLocked(state.tx.pc)
      requires ReaderNext(state.rx, hostInactive >= timeout).ring == state.rx.ring
      requires ReaderEnables(state.rx.pc, state.en) == state.en
      modifies this`state, this`trace
      ensures InRun() && Onward(old(Now()), Now())
      ensures state == old(state).(rx := ReaderNext(old(state.rx), hostInactive >= timeout))
    {
      hide Reached, Next, Enabled, RingsValid, ReaderNext, ReaderEnables, WriterLocked, Onward;
      InReach(start, trace, state);
      ReaderIs(state);
      Record(ReaderStep);
    }

    /** A step from one place in the code to the next. */
    ghost method ReaderGoes(from: ReadPc, to: ReadPc, space: nat, nonblock: bool, got: seq<Octet>)
      requires Reading(from, space, nonblock, got)
      requires match from
               case RTop => to == if |got| < space then RReadIn else RFinish
               case RCopy(n, k) => k == n && to == RPublish(n)
               case RAfterInner => to == if got != [] || nonblock then RFinish else RSpin
               case RSpin => !(state.rx.call.inn == rxIn && hostInactive < timeout) && to == RAfterSpin
               case RAfterSpin => to == if state.rx.call.inn == rxIn then RFinish else RTop
               case RFinish => got != [] && to == RSetVar
               case _ => false
      modifies this`state, this`trace
      ensures Reading(to, space, nonblock, got) && state.rx.call.inn == old(state.rx.call.inn)
      ensures Onward(old(Now()), Now()) && state.tx.accepted == old(state.tx.accepted)
    {
      hide Reached, RingsValid, Onward;
      ReaderMoves();
    }

    /** Finds the run of unread bytes that do not pass the end of the buffer. */
    method TakeUnread(space: nat, nonblock: bool, got: seq<Octet>, env: nat -> seq<Other>, t: nat)
      returns (inn: nat, n: nat)
      requires Reading(RReadIn, space, nonblock, got) && |got| < space
      modifies `rxIn, `txOut, `irqRE, `irqWE, `hwRE, `hwWE, `rxFifo, `txCount, `hostInactive, `state, `trace, rxBuf
      ensures Reading(if n == 0 then RAfterInner else RCopy(n, 0), space, nonblock, got)
      ensures state.rx.call.inn == inn && |got| + n <= space && (n == 0 ==> inn == rxOut)
      ensures old(rxIn != rxOut) ==> n > 0
      ensures Onward(old(Now()), Now()) && state.tx.accepted == old(state.tx.accepted)
    {
      OnwardAndOn();
      hide InRun, ReaderNext, Onward;
      Others(env(t));
      inn := rxIn;
      NoteIn(space, nonblock, got);
      Others(env(t + 1));
      n := UnreadRun(space, nonblock, got, inn);
    }

    ghost method NoteIn(space: nat, nonblock: bool, got: seq<Octet>)
      requires Reading(RReadIn, space, nonblock, got)
      modifies this`state, this`trace
      ensures Reading(RReadOut, space, nonblock, got) && state.rx.call.inn == rxIn
      ensures Onward(old(Now()), Now()) && state.tx.accepted == old(state.tx.accepted)
    {
      hide Reached, RingsValid, Onward;
      ReaderMoves();
    }

    /** No unread byte at all means that the ring is empty as seen. */
    method UnreadRun(space: nat, nonblock: bool, got: seq<Octet>, inn: nat) returns (n: nat)
      requires Reading(RReadOut, space, nonblock, got) && |got| < space && state.rx.call.inn == inn
      modifies this`state, this`trace
      ensures Reading(if n == 0 then RAfterInner else RCopy(n, 0), space, nonblock, got)
      ensures state.rx.call.inn == inn && |got| + n <= space && (n == 0 ==> inn == rxOut)
      ensures Onward(old(Now()), Now()) && state.tx.accepted == old(state.tx.accepted)
    {
      hide Reached, RingsValid, Onward;
      InReach(start, trace, state);
      var out := rxOut;
      if inn >= out {
        n := inn - out;
      } else {
        n := LEN - out;
      }
      if n > space - |got| {
        n := space - |got|;
      }
      ReaderMoves();
    }

    /** One byte of memcpy out of the receive ring. */
    method LoadByte(space: nat, nonblock: bool, got: seq<Octet>, n: nat, k: nat) returns (b: Octet)
      requires Reading(RCopy(n, k), space, nonblock, got) && k < n
      modifies this`state, this`trace
      ensures Reading(RCopy(n, k + 1), space, nonblock, got + [b])
      ensures state.rx.call.inn == old(state.rx.call.inn)
      ensures Onward(old(Now()), Now()) && state.tx.accepted == old(state.tx.accepted)
    {
      hide Reached, RingsValid, Onward, ReaderNext;
      InReach(start, trace, state);
      CopyingOut(start, trace, state, n, k);
      LoadIs(state.rx, n, k, hostInactive >= timeout);
      b := rxBuf[rxOut + k];
      ReaderMoves();
    }

    /** Moves rx_out over the slots that have been copied. */
    method PublishOut(space: nat, nonblock: bool, got: seq<Octet>, n: nat)
      requires Reading(RPublish(n), space, nonblock, got)
      modifies this`rxOut, this`state, this`trace
      ensures Reading(if |got| < space then RReadIn else RAfterInner, space, nonblock, got)
      ensures state.rx.call.inn == old(state.rx.call.inn)
      ensures Onward(old(Now()), Now()) && state.tx.accepted == old(state.tx.accepted)
    {
      hide Reached, Next, Enabled, RingsValid, Onward;
      InReach(start, trace, state);
      CopyingOut(start, trace, state, n, n);
      ReaderIs(state);
      rxOut := (rxOut + n) % LEN;
      Record(ReaderStep);
    }

    /** memcpy(ptr, sp->rx_buf + out, n), and the new rx_out. */
    method CopyOut(space: nat, nonblock: bool, before: seq<Octet>, n: nat, env: nat -> seq<Other>, t: nat)
      returns (got: seq<Octet>)
      requires Reading(RCopy(n, 0), space, nonblock, before)
      modifies `rxIn, `rxOut, `txOut, `irqRE, `irqWE, `hwRE, `hwWE, `rxFifo, `txCount, `hostInactive, `state, `trace, rxBuf
      ensures Reading(if |got| < space then RReadIn else RAfterInner, space, nonblock, got) && |got| == |before| + n
      ensures state.rx.call.inn == old(state.rx.call.inn)
      ensures Onward(old(Now()), Now()) && state.tx.accepted == old(state.tx.accepted)
    {
      OnwardAndOn();
      hide InRun, ReaderNext, Onward;
      got := before;
      for k := 0 to n
        invariant Onward(old(Now()), Now()) && state.tx.accepted == old(state.tx.accepted)
        invariant Reading(RCopy(n, k), space, nonblock, got) && |got| == |before| + k
        invariant state.rx.call.inn == old(state.rx.call.inn)
      {
        Others(env(t + k));
        var b := LoadByte(space, nonblock, got, n, k);
        got := got + [b];
      }
      ReaderGoes(RCopy(n, n), RPublish(n), space, nonblock, got);
      Others(env(t + n));
      PublishOut(space, nonblock, got, n);
    }

    /** Reads as much as there is and the caller has room for, which is something if there was anything; with room left
        the ring was empty at the last look, at which rx_in was `inn`. */
    method DrainRing(space: nat, nonblock: bool, env: nat -> seq<Other>, t: nat)
      returns (got: seq<Octet>, inn: nat, u: nat)
      requires Reading(RReadIn, space, nonblock, []) && space > 0
      modifies `rxIn, `rxOut, `txOut, `irqRE, `irqWE, `hwRE, `hwWE, `rxFifo, `txCount, `hostInactive, `state, `trace, rxBuf
      ensures Reading(RAfterInner, space, nonblock, got) && |got| <= space && state.rx.call.inn == inn
      ensures |got| < space ==> inn == rxOut
      ensures old(rxIn != rxOut) ==> got != []
      ensures Onward(old(Now()), Now()) && state.tx.accepted == old(state.tx.accepted)
    {
      OnwardAndOn();
      hide InRun, ReaderNext, Onward;
      got, u := [], t + 2;
      var n;
      inn, n := TakeUnread(space, nonblock, got, env, t);
      while n > 0
        invariant Reading(if n == 0 then RAfterInner else RCopy(n, 0), space, nonblock, got)
        invariant |got| + n <= space && state.rx.call.inn == inn && (n == 0 ==> inn == rxOut)
        invariant old(rxIn != rxOut) ==> n > 0 || got != []
        invariant Onward(old(Now()), Now()) && state.tx.accepted == old(state.tx.accepted)
        decreases space - |got|
      {
        got := CopyOut(space, nonblock, got, n, env, u);
        u := u + n + 1;
        if |got| == space {
          return;
        }
        inn, n := TakeUnread(space, nonblock, got, env, u);
        u := u + 2;
      }
    }

    ghost method BeginRead(space: nat, nonblock: bool)
      requires InRun() && Enabled(state, Event.Read(space, nonblock))
      modifies this`state, this`trace, this`returnedBefore
      ensures Reading(RTop, space, nonblock, []) && returnedBefore == old(state.rx.returned)
      ensures trace == old(trace) + [Event.Read(space, nonblock)]
      ensures Onward(old(Now()), Now()) && state.tx.accepted == old(state.tx.accepted)
    {
      assert state.isr == IsrOff && !WriterLocked(state.tx.pc);
      hide Reached, Next, Enabled, RingsValid, Onward;
      returnedBefore := state.rx.returned;
      InReach(start, trace, state);
      ReadIs(state, space, nonblock);
      Record(Event.Read(space, nonblock));
    }

    /** Waits for the interrupt routine to move rx_in, or for the host to be inactive; after `polls` turns the call is
        left `waiting`. */
    method SpinRead(space: nat, nonblock: bool, inn: nat, env: nat -> seq<Other>, t: nat, polls: nat)
      returns (waiting: bool, left: nat, u: nat)
      requires Reading(RSpin, space, nonblock, []) && state.rx.call.inn == inn
      modifies `rxIn, `txOut, `irqRE, `irqWE, `hwRE, `hwWE, `rxFifo, `txCount, `hostInactive, `state, `trace, rxBuf
      ensures Reading(if waiting then RSpin else RAfterSpin, space, nonblock, []) && state.rx.call.inn == inn
      ensures waiting ==> inn == rxIn && hostInactive < timeout
      ensures Onward(old(Now()), Now()) && state.tx.accepted == old(state.tx.accepted)
    {
      OnwardAndOn();
      hide InRun, ReaderNext, Onward;
      waiting, left, u := false, polls, t + 1;
      Others(env(t));
      while inn == rxIn && hostInactive < timeout
        invariant Reading(RSpin, space, nonblock, []) && state.rx.call.inn == inn
        invariant Onward(old(Now()), Now()) && state.tx.accepted == old(state.tx.accepted)
        decreases left
      {
        if left == 0 {
          waiting := true;
          return;
        }
        Others(env(u));
        u, left := u + 1, left - 1;
      }
      ReaderGoes(RSpin, RAfterSpin, space, nonblock, []);
      Others(env(u));
      u := u + 1;
    }

    /** One turn of the outer loop: read what there is, and wait if there was nothing. There is a further turn only with
        something to read, and then it is the last. */
    method ReadRound(space: nat, nonblock: bool, env: nat -> seq<Other>, t: nat, polls: nat)
      returns (over: bool, done: bool, got: seq<Octet>, u: nat, left: nat, ghost pc: ReadPc)
      requires Reading(RTop, space, nonblock, []) && space > 0
      modifies `rxIn, `rxOut, `txOut, `irqRE, `irqWE, `hwRE, `hwWE, `rxFifo, `txCount, `hostInactive, `state, `trace, rxBuf
      ensures Reading(pc, space, nonblock, got) && (!over || !done ==> got == [])
      ensures !over ==> pc == RTop && rxIn != rxOut && old(rxIn == rxOut)
      ensures over && done ==> pc == RFinish
      ensures over && !done ==> !nonblock && pc == RSpin && state.rx.call.inn == rxIn && hostInactive < timeout
      ensures Onward(old(Now()), Now()) && state.tx.accepted == old(state.tx.accepted)
    {
      OnwardAndOn();
      hide InRun, ReaderNext, Onward;
      ReaderGoes(RTop, RReadIn, space, nonblock, []);
      var inn;
      got, inn, u := DrainRing(space, nonblock, env, t);
      left, over, done, pc := polls, true, true, RFinish;
      if got != [] || nonblock {
        ReaderGoes(RAfterInner, RFinish, space, nonblock, got);
        return;
      }
      over, done, u, left, pc := AwaitByte(space, nonblock, inn, env, u, polls);
    }

    /** The end of a turn with nothing read: waits, and gives up if rx_in has not moved. */
    method AwaitByte(space: nat, nonblock: bool, inn: nat, env: nat -> seq<Other>, t: nat, polls: nat)
      returns (over: bool, done: bool, u: nat, left: nat, ghost pc: ReadPc)
      requires Reading(RAfterInner, space, nonblock, []) && !nonblock && state.rx.call.inn == inn == rxOut
      modifies `rxIn, `txOut, `irqRE, `irqWE, `hwRE, `hwWE, `rxFifo, `txCount, `hostInactive, `state, `trace, rxBuf
      ensures Reading(pc, space, nonblock, []) && (!over ==> pc == RTop && rxIn != rxOut) && (over && done ==> pc == RFinish)
      ensures over && !done ==> pc == RSpin && state.rx.call.inn == rxIn && hostInactive < timeout
      ensures Onward(old(Now()), Now()) && state.tx.accepted == old(state.tx.accepted)
    {
      OnwardAndOn();
      hide InRun, Reading, ReaderNext, Onward;
      var waiting;
      over, done, pc := true, true, RFinish;
      ReaderGoes(RAfterInner, RSpin, space, nonblock, []);
      waiting, left, u := SpinRead(space, nonblock, inn, env, t, polls);
      if waiting {
        done, pc := false, RSpin;
      } else if inn == rxIn {
        ReaderGoes(RAfterSpin, RFinish, space, nonblock, []);
      } else {
        ReaderGoes(RAfterSpin, RTop, space, nonblock, []);
        over, pc := false, RTop;
      }
    }

    /** The end of the call: with bytes read there is room in the ring, so RE is set with interrupts disabled. */
    method EndRead(space: nat, nonblock: bool, got: seq<Octet>, env: nat -> seq<Other>, t: nat) returns (r: Outcome)
      requires Reading(RFinish, space, nonblock, got)
      modifies `rxIn, `txOut, `irqRE, `irqWE, `hwRE, `hwWE, `rxFifo, `txCount, `hostInactive, `state, `trace, rxBuf
      ensures Reading(RDone(r), space, nonblock, got)
      ensures got != [] ==> irqRE && hwRE && hwWE == irqWE
      ensures Onward(old(Now()), Now()) && state.tx.accepted == old(state.tx.accepted)
    {
      OnwardAndOn();
      hide InRun, ReaderNext, Onward, Reading;
      OthersReading(RFinish, space, nonblock, got, env(t));
      if got != [] {
        ReaderGoes(RFinish, RSetVar, space, nonblock, got);
        StoreReadEnables(space, nonblock, got, env, t + 1);
      }
      r := Finished(space, nonblock, got);
    }

    /** The two stores that set RE, with interrupts disabled. */
    method StoreReadEnables(space: nat, nonblock: bool, got: seq<Octet>, env: nat -> seq<Other>, t: nat)
      requires Reading(RSetVar, space, nonblock, got)
      modifies `irqRE, `hwRE, `hwWE, `rxFifo, `txCount, `state, `trace
      ensures Reading(RUnlock, space, nonblock, got) && irqRE && hwRE && hwWE == irqWE
      ensures Onward(old(Now()), Now()) && state.tx.accepted == old(state.tx.accepted)
    {
      OnwardAndOn();
      hide InRun, Onward, Reading;
      HeldReading(RSetVar, space, nonblock, got, env(t));
      SetRE(space, nonblock, got);
      HeldReading(RSetHw, space, nonblock, got, env(t + 1));
      ReaderControl(space, nonblock, got);
      HeldReading(RUnlock, space, nonblock, got, env(t + 2));
    }

    method OthersReading(ghost pc: ReadPc, space: nat, nonblock: bool, got: seq<Octet>, others: seq<Other>)
      requires Reading(pc, space, nonblock, got) && !ReaderLocked(pc)
      modifies `rxIn, `txOut, `irqRE, `irqWE, `hwRE, `hwWE, `rxFifo, `txCount, `hostInactive, `state, `trace, rxBuf
      ensures Reading(pc, space, nonblock, got)
      ensures Onward(old(Now()), Now()) && state.tx.accepted == old(state.tx.accepted)
    {
      hide InRun, Onward;
      Others(others);
    }

    method HeldReading(ghost pc: ReadPc, space: nat, nonblock: bool, got: seq<Octet>, others: seq<Other>)
      requires Reading(pc, space, nonblock, got)
      modifies `rxFifo, `txCount, `state, `trace
      ensures Reading(pc, space, nonblock, got)
      ensures Onward(old(Now()), Now()) && state.tx.accepted == old(state.tx.accepted)
    {
      hide InRun, Onward;
      Held(others);
    }

    method SetRE(space: nat, nonblock: bool, got: seq<Octet>)
      requires Reading(RSetVar, space, nonblock, got)
      modifies this`irqRE, this`state, this`trace
      ensures Reading(RSetHw, space, nonblock, got) && irqRE
      ensures Onward(old(Now()), Now()) && state.tx.accepted == old(state.tx.accepted)
    {
      hide Reached, Next, Enabled, RingsValid, Onward;
      InReach(start, trace, state);
      ReaderIs(state);
      irqRE := true;
      Record(ReaderStep);
    }

    method ReaderControl(space: nat, nonblock: bool, got: seq<Octet>)
      requires Reading(RSetHw, space, nonblock, got)
      modifies this`hwRE, this`hwWE, this`state, this`trace
      ensures Reading(RUnlock, space, nonblock, got) && hwRE == irqRE && hwWE == irqWE
      ensures Onward(old(Now()), Now()) && state.tx.accepted == old(state.tx.accepted)
    {
      hide Reached, Next, Enabled, RingsValid, Onward;
      InReach(start, trace, state);
      ReaderIs(state);
      hwRE, hwWE := irqRE, irqWE;
      Record(ReaderStep);
    }

    method Finished(space: nat, nonblock: bool, got: seq<Octet>) returns (r: Outcome)
      requires Reading(RUnlock, space, nonblock, got) || (Reading(RFinish, space, nonblock, got) && got == [])
      modifies this`state, this`trace
      ensures Reading(RDone(r), space, nonblock, got)
      ensures Onward(old(Now()), Now()) && state.tx.accepted == old(state.tx.accepted)
    {
      hide Reached, RingsValid, Onward;
      ReaderMoves();
      r := if |got| > 0 then Count(|got|) else if nonblock then WouldBlock else IoError;
    }

    /** altera_avalon_jtag_uart_read, watched for `polls` turns of its waiting loop. When it is done it has appended
        to the returned bytes exactly those it delivers, as many as its result counts; when it is not, nothing. A call
        that brings nothing would block if it must not, and fails otherwise. It brings less than was asked for only if
        the ring was empty at some time during the call, and nothing after a call that may block only if the host was
        inactive for the timeout. */
    method Read(space: nat, nonblock: bool, env: nat -> seq<Other>, polls: nat)
      returns (done: bool, r: Outcome, got: seq<Octet>)
      requires InRun() && Enabled(state, Event.Read(space, nonblock))
      modifies `returnedBefore, `rxIn, `rxOut, `txOut, `irqRE, `irqWE, `hwRE, `hwWE, `rxFifo, `txCount, `hostInactive, `state, `trace, rxBuf
      ensures InRun() && Onward(old(Now()), Now()) && state.tx.accepted == old(state.tx.accepted)
      ensures done ==> state.rx.pc == RDone(r) && DeliveredBy(old(state.rx.returned), state.rx, got)
      ensures done ==> |got| <= space && match r
                       case Count(n) => |got| == n > 0
                       case WouldBlock => got == [] && nonblock
                       case IoError => got == [] && !nonblock
      ensures done && |got| < space ==> (
        && Streams(start) && EmptyAfter(start, trace, |old(trace)|)
        && (got != [] || nonblock || InactiveAfter(start, trace, |old(trace)|)))
      ensures !done ==> !nonblock && state.rx.pc == RSpin && state.rx.call.inn == rxIn && hostInactive < timeout
    {
      OnwardAndOn();
      hide InRun, Reading, Enabled, Onward, DeliveredBy, Streams, EmptyAfter, InactiveAfter;
      BeginRead(space, nonblock);
      ghost var began := Now();
      var t: nat, left: nat, over := 0, polls, space == 0;
      ghost var pc := RTop;
      done, r, got := true, WouldBlock, [];
      if space == 0 {
        ReaderGoes(RTop, RFinish, space, nonblock, []);
        pc := RFinish;
      }
      while !over
        invariant Reading(pc, space, nonblock, got) && (!over ==> pc == RTop && got == [])
        invariant (over && done ==> pc == RFinish) && (!over ==> space > 0)
        invariant over && !done ==> !nonblock && pc == RSpin && state.rx.call.inn == rxIn && hostInactive < timeout
        invariant returnedBefore == old(state.rx.returned)
        invariant Onward(began, Now()) && Onward(old(Now()), Now()) && state.tx.accepted == old(state.tx.accepted)
        decreases !over, rxIn == rxOut
      {
        over, done, got, t, left, pc := ReadRound(space, nonblock, env, t, left);
      }
      if done {
        r := EndRead(space, nonblock, got, env, t);
        HasRead(old(Now()), began, r, space, nonblock, got);
      } else {
        StillInRun(pc, space, nonblock, got);
      }
    }

    lemma StillInRun(pc: ReadPc, space: nat, nonblock: bool, got: seq<Octet>)
      requires Reading(pc, space, nonblock, got)
      ensures InRun() && state.rx.pc == pc
    {
      hide InRun;
    }

    lemma HasRead(before: Moment, began: Moment, r: Outcome, space: nat, nonblock: bool, got: seq<Octet>)
      requires Reading(RDone(r), space, nonblock, got) && returnedBefore == before.state.rx.returned
      requires Onward(before, Now()) && Onward(began, Now()) && began.trace == before.trace + [Event.Read(space, nonblock)]
      ensures InRun() && state.rx.pc == RDone(r) && DeliveredBy(returnedBefore, state.rx, got)
      ensures Reports(r, |got|, nonblock) && |got| <= space
      ensures |got| < space ==>
        && Streams(start) && EmptyAfter(start, trace, |before.trace|)
        && (got != [] || nonblock || InactiveAfter(start, trace, |before.trace|))
    {
      hide Reached, Shows, EmptyAfter, InactiveAfter, DeliveredBy, Streams;
      CallDelivered(start, trace, state, returnedBefore);
      if |got| < space {
        assert trace[|before.trace|] == began.trace[|before.trace|];
        ReadStopped(start, trace, state, |before.trace|);
      }
    }

    /** Between calls nothing is stuck: bytes to send have their interrupt enabled, and so has an empty receive ring. */
    lemma NothingStuck()
      requires InRun() && state.isr == IsrOff && state.tx.pc.WDone? && state.rx.pc.RDone?
      ensures txOut != txIn ==> irqWE && hwWE
      ensures rxOut == rxIn ==> irqRE && hwRE
    {
      hide Reached;
      Quiescent(start, trace, state);
    }

    // ----- close() ----------------------------------------------------------------------------------

    /** altera_avalon_jtag_uart_close, watched for `polls` turns: it succeeds only once everything accepted has been
        sent, or the host is inactive. */
    method Close(nonblock: bool, env: nat -> seq<Other>, polls: nat) returns (done: bool, wouldBlock: bool)
      requires InRun() && InterruptsOn(state)
      modifies `rxIn, `txOut, `irqRE, `irqWE, `hwRE, `hwWE, `rxFifo, `txCount, `hostInactive, `state, `trace, rxBuf
      ensures InRun() && InterruptsOn(state) && Undisturbed(old(state), state) && Onward(old(Now()), Now())
      ensures done && !wouldBlock ==> old(state.tx.accepted) == state.tx.sent || hostInactive >= timeout
      ensures wouldBlock ==> nonblock && done && txOut != txIn && hostInactive < timeout
      ensures !done ==> !nonblock && txOut != txIn && hostInactive < timeout
    {
      OnwardAndOn();
      hide InRun, Onward;
      var left, t: nat := polls, 0;
      done, wouldBlock := true, false;
      while txOut != txIn && hostInactive < timeout
        invariant InRun() && InterruptsOn(state) && Undisturbed(old(state), state) && Onward(old(Now()), Now())
        decreases left
      {
        if nonblock {
          wouldBlock := true;
          return;
        }
        if left == 0 {
          done := false;
          return;
        }
        Others(env(t));
        left, t := left - 1, t + 1;
      }
      if txOut == txIn {
        AllSent();
      }
    }

    lemma AllSent()
      requires InRun() && txOut == txIn
      ensures state.tx.accepted == state.tx.sent
    {
      hide Reached;
      EmptyIsSent(start, trace, state);
    }
  }
}
