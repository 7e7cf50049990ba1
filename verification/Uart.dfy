/**
 The interrupt-driven JTAG UART driver as a transition system: a writer, a reader, an
 interrupt routine that may start between any two of their memory accesses, a timer
 callback, and a host that fills and drains the hardware FIFOs at any time.

 The interrupt routine runs to completion before the foreground continues, but the host
 keeps moving during it. `accepted`, `sent`, `taken` and `returned` are history: the bytes
 the writer has put in the ring, those written to the device, those read from the device,
 and those handed to readers.
 */
module Uart {

  import opened UartRing

  const INT_MAX: nat := 0x7fff_ffff

  /** What a call returned; `Count` is positive. */
  datatype Outcome = Count(n: nat) | WouldBlock | IoError

  /** Where the writer is (altera_avalon_jtag_uart_write.c); locals live in `WriteCall`. */
  datatype WritePc =
    | WDone(result: Outcome)
    | WTop                       // while (count > 0), then in = tx_in
    | WReadOut                   // out = tx_out, then n
    | WCopy(n: nat, k: nat)      // memcpy, one byte at a time
    | WPublish(n: nat)           // tx_in = (in + n) % LEN
    | WLock                      // alt_irq_disable_all
    | WSetVar                    // irq_enable |= WE
    | WSetHw                     // write the control register
    | WUnlock                    // alt_irq_enable_all
    | WCheck                     // anything left?
    | WSpin                      // while (out == tx_out && host_inactive < timeout)
    | WAfterSpin                 // if (out == tx_out) break

  /** `off` bytes have gone; `out` is the last value read of tx_out; `base` is |accepted| at the call;
      `moved` says that tx_in has moved since interrupts were last enabled, `gaveUp` that the last spin ended
      with tx_out unmoved. */
  datatype WriteCall = WriteCall(bytes: seq<Octet>, nonblock: bool, off: nat, out: nat, base: nat, moved: bool, gaveUp: bool)

  datatype ReadPc =
    | RDone(result: Outcome)
    | RTop                       // while (space > 0)
    | RReadIn                    // in = rx_in
    | RReadOut                   // out = rx_out, then n
    | RCopy(n: nat, k: nat)
    | RPublish(n: nat)           // rx_out = (out + n) % LEN
    | RAfterInner
    | RSpin                      // while (in == rx_in && host_inactive < timeout)
    | RAfterSpin
    | RFinish
    | RSetVar                    // irq_enable |= RE, interrupts off
    | RSetHw
    | RUnlock

  /** `got` is what has been copied to the caller; `published` of it has left the ring. */
  datatype ReadCall = ReadCall(space: nat, nonblock: bool, got: seq<Octet>, published: nat, inn: nat, base: nat, gaveUp: bool)

  /** The interrupt routine; `worked` records that the present pass has used up a ring slot or an enable bit. */
  datatype IsrPc =
    | IsrOff
    | Poll                                                          // read the control register
    | RxLoop(avail: bool, wi: bool, space: nat, worked: bool)
    | RxHw(wi: bool, space: nat, worked: bool)                      // RE cleared in irq_enable, device not yet told
    | TxLoop(wi: bool, space: nat, worked: bool)
    | TxHw                                                          // WE cleared in irq_enable, device not yet told

  /** The transmit ring, its writer, and the transmit history. */
  datatype TxSide = TxSide(ring: Ring, pc: WritePc, call: WriteCall, accepted: seq<Octet>, sent: seq<Octet>)

  /** The receive ring, its reader, and the receive history. */
  datatype RxSide = RxSide(ring: Ring, pc: ReadPc, call: ReadCall, taken: seq<Octet>, returned: seq<Octet>)

  /** The two enable bits, in the driver's irq_enable word and in the device's control register. */
  datatype Enables = Enables(irqRE: bool, irqWE: bool, hwRE: bool, hwWE: bool) {
    /** Write irq_enable to the control register. */
    function WriteControl(): Enables {
      this.(hwRE := irqRE, hwWE := irqWE)
    }
  }

  datatype State = State(
    tx: TxSide, rx: RxSide, en: Enables, isr: IsrPc,
    hostInactive: nat, timeout: nat,
    rxFifo: seq<Octet>, txCount: nat, txDepth: nat)     // the device's FIFOs

  datatype Event =
    | Write(bytes: seq<Octet>, nonblock: bool)
    | WriterStep
    | Read(space: nat, nonblock: bool)
    | ReaderStep
    | Interrupt
    | IsrStep(ri: bool, wi: bool)
    | TimerTick(ac: bool)
    | HostSends(b: Octet)
    | HostDrains

  // ----- Who may step -------------------------------------------------------------------

  predicate WriterLocked(pc: WritePc) { pc == WSetVar || pc == WSetHw || pc == WUnlock }

  predicate ReaderLocked(pc: ReadPc) { pc == RSetVar || pc == RSetHw || pc == RUnlock }

  predicate InterruptsOn(s: State) {
    s.isr == IsrOff && !WriterLocked(s.tx.pc) && !ReaderLocked(s.rx.pc)
  }

  predicate Inactive(s: State) { s.hostInactive >= s.timeout }

  // ----- The writer ---------------------------------------------------------------------

  /** The largest run that can be copied without passing the end of the buffer or the consumer. */
  function WriteRun(inn: nat, out: nat): int {
    if inn < out then out - 1 - inn
    else if out > 0 then LEN - inn
    else LEN - 1 - inn
  }

  function WriteResult(c: WriteCall): Outcome {
    if c.off > 0 then Count(c.off) else if c.nonblock then WouldBlock else IoError
  }

  function Capped(run: int, left: int): nat {
    if 0 <= left < run then left else if run >= 0 then run else 0
  }

  function WriterNext(t: TxSide, inactive: bool): TxSide {
    var c := t.call;
    match t.pc
    case WDone(_) => t
    case WTop => t.(pc := if c.off < |c.bytes| then WReadOut else WLock)
    case WReadOut =>
      var run := WriteRun(t.ring.inn, t.ring.out);
      t.(call := c.(out := t.ring.out), pc := if run <= 0 then WLock else WCopy(Capped(run, |c.bytes| - c.off), 0))
    case WCopy(n, k) =>
      if k < n && c.off + k < |c.bytes| && t.ring.Valid() && t.ring.inn + k < LEN then
        t.(ring := t.ring.Store(t.ring.inn + k, c.bytes[c.off + k]), pc := WCopy(n, k + 1))
      else
        t.(pc := WPublish(n))
    case WPublish(n) =>
      if c.off + n <= |c.bytes| then
        t.(ring := t.ring.AdvanceIn(n), call := c.(off := c.off + n, moved := true), pc := WTop,
           accepted := t.accepted + c.bytes[c.off..c.off + n])
      else t
    case WLock => t.(pc := WSetVar)
    case WSetVar => t.(pc := WSetHw)
    case WSetHw => t.(call := c.(moved := false), pc := WUnlock)
    case WUnlock => t.(pc := WCheck)
    case WCheck => t.(pc := if c.off < |c.bytes| && !c.nonblock then WSpin else WDone(WriteResult(c)))
    case WSpin =>
      if c.out == t.ring.out && !inactive then t
      else t.(call := c.(gaveUp := c.out == t.ring.out), pc := WAfterSpin)
    case WAfterSpin => t.(pc := if c.out == t.ring.out then WDone(WriteResult(c)) else WTop)
  }

  function WriterEnables(pc: WritePc, en: Enables): Enables {
    if pc == WSetVar then en.(irqWE := true)
    else if pc == WSetHw then en.WriteControl()
    else en
  }

  // ----- The reader ---------------------------------------------------------------------

  function ReadRun(inn: nat, out: nat): int {
    if inn >= out then inn - out else LEN - out
  }

  function ReadResult(c: ReadCall): Outcome {
    if |c.got| > 0 then Count(|c.got|) else if c.nonblock then WouldBlock else IoError
  }

  function ReaderNext(x: RxSide, inactive: bool): RxSide {
    var c := x.call;
    match x.pc
    case RDone(_) => x
    case RTop => x.(pc := if |c.got| < c.space then RReadIn else RFinish)
    case RReadIn => x.(call := c.(inn := x.ring.inn), pc := RReadOut)
    case RReadOut =>
      var run := ReadRun(c.inn, x.ring.out);
      x.(pc := if run <= 0 then RAfterInner else RCopy(Capped(run, c.space - |c.got|), 0))
    case RCopy(n, k) =>
      if k < n && x.ring.out + k < |x.ring.buf| then
        x.(call := c.(got := c.got + [x.ring.buf[x.ring.out + k]]), pc := RCopy(n, k + 1))
      else
        x.(pc := RPublish(n))
    case RPublish(n) =>
      if c.published <= |c.got| then
        x.(ring := x.ring.AdvanceOut(n), call := c.(published := |c.got|), returned := x.returned + c.got[c.published..],
           pc := if |c.got| < c.space then RReadIn else RAfterInner)
      else x
    case RAfterInner => x.(pc := if |c.got| > 0 || c.nonblock then RFinish else RSpin)
    case RSpin =>
      if c.inn == x.ring.inn && !inactive then x
      else x.(call := c.(gaveUp := c.inn == x.ring.inn), pc := RAfterSpin)
    case RAfterSpin => x.(pc := if c.inn == x.ring.inn then RFinish else RTop)
    case RFinish => x.(pc := if |c.got| > 0 then RSetVar else RDone(ReadResult(c)))
    case RSetVar => x.(pc := RSetHw)
    case RSetHw => x.(pc := RUnlock)
    case RUnlock => x.(pc := RDone(ReadResult(c)))
  }

  function ReaderEnables(pc: ReadPc, en: Enables): Enables {
    if pc == RSetVar then en.(irqRE := true)
    else if pc == RSetHw then en.WriteControl()
    else en
  }

  // ----- The interrupt routine ------------------------------------------------------------

  function Space(s: State): nat {
    if s.txCount <= s.txDepth then s.txDepth - s.txCount else 0
  }

  /** RI is raised only with RE set and data present, WI only with WE set and room in the FIFO. */
  predicate PollAllowed(s: State, ri: bool, wi: bool) {
    && (ri ==> s.en.hwRE && s.rxFifo != [])
    && (wi ==> s.en.hwWE && Space(s) > 0)
  }

  predicate RingFull(r: Ring) {
    (r.inn + 1) % LEN == r.out
  }

  /** A byte read from the device goes into the receive ring. */
  function Fill(x: RxSide, b: Octet): RxSide
    requires x.ring.Valid()
  {
    x.(ring := x.ring.Store(x.ring.inn, b).AdvanceIn(1), taken := x.taken + [b])
  }

  /** The oldest byte of the transmit ring is written to the device. */
  function Drain(t: TxSide): TxSide
    requires t.ring.Valid()
  {
    t.(sent := t.sent + [t.ring.buf[t.ring.out]], ring := t.ring.AdvanceOut(1))
  }

  function IsrNext(s: State, ri: bool, wi: bool): State
    requires s.tx.ring.Valid() && s.rx.ring.Valid()
  {
    match s.isr
    case IsrOff => s
    case Poll =>
      if ri then s.(isr := RxLoop(true, wi, Space(s), false))
      else if wi then s.(isr := TxLoop(wi, Space(s), false))
      else s.(isr := IsrOff)
    case RxLoop(avail, w, space, worked) =>
      if RingFull(s.rx.ring) then RxEnd(s, avail, w, space, worked)
      else if s.rxFifo == [] then RxEnd(s, false, w, space, worked)
      else s.(rx := Fill(s.rx, s.rxFifo[0]), rxFifo := s.rxFifo[1..], isr := RxLoop(|s.rxFifo| > 1, w, space, true))
    case RxHw(w, space, worked) => s.(en := s.en.WriteControl(), isr := TxLoop(w, space, worked))
    case TxLoop(w, space, worked) =>
      if !w || space == 0 then s.(isr := Poll)
      else if s.tx.ring.out == s.tx.ring.inn then s.(en := s.en.(irqWE := false), isr := TxHw)
      else s.(tx := Drain(s.tx), txCount := s.txCount + 1, isr := TxLoop(w, space - 1, true))
    case TxHw => s.(en := s.en.WriteControl(), isr := Poll)
  }

  /** After the receive loop: data left over means that the ring is full, so receive interrupts go off. */
  function RxEnd(s: State, avail: bool, wi: bool, space: nat, worked: bool): State {
    if avail then s.(en := s.en.(irqRE := false), isr := RxHw(wi, space, true))
    else s.(isr := TxLoop(wi, space, worked))
  }

  // ----- One event --------------------------------------------------------------------------

  predicate Enabled(s: State, e: Event) {
    match e
    case Write(_, _) => s.isr == IsrOff && !ReaderLocked(s.rx.pc) && s.tx.pc.WDone?
    case WriterStep => s.isr == IsrOff && !ReaderLocked(s.rx.pc)
    case Read(_, _) => s.isr == IsrOff && !WriterLocked(s.tx.pc) && s.rx.pc.RDone?
    case ReaderStep => s.isr == IsrOff && !WriterLocked(s.tx.pc)
    case Interrupt => InterruptsOn(s)
    case IsrStep(ri, wi) => s.isr != IsrOff && PollAllowed(s, ri, wi)
    case TimerTick(_) => InterruptsOn(s)
    case HostSends(_) => true
    case HostDrains => s.txCount > 0
  }

  predicate RingsValid(s: State) {
    s.tx.ring.Valid() && s.rx.ring.Valid()
  }

  /** An event that is not enabled changes nothing, so that every sequence of events is a run. */
  function Next(s: State, e: Event): State
    requires RingsValid(s)
  {
    if !Enabled(s, e) then s
    else
      match e
      case Write(bytes, nonblock) =>
        s.(tx := s.tx.(pc := WTop, call := WriteCall(bytes, nonblock, 0, 0, |s.tx.accepted|, false, false)))
      case WriterStep => s.(tx := WriterNext(s.tx, Inactive(s)), en := WriterEnables(s.tx.pc, s.en))
      case Read(space, nonblock) =>
        s.(rx := s.rx.(pc := RTop, call := ReadCall(space, nonblock, [], 0, 0, |s.rx.returned|, false)))
      case ReaderStep => s.(rx := ReaderNext(s.rx, Inactive(s)), en := ReaderEnables(s.rx.pc, s.en))
      case Interrupt => s.(isr := Poll)
      case IsrStep(ri, wi) => IsrNext(s, ri, wi)
      case TimerTick(ac) =>
        if ac then s.(en := s.en.WriteControl(), hostInactive := 0)
        else if s.hostInactive < INT_MAX - 2 then s.(hostInactive := s.hostInactive + 1)
        else s
      case HostSends(b) => s.(rxFifo := s.rxFifo + [b])
      case HostDrains => s.(txCount := s.txCount - 1)
  }

  /** After altera_avalon_jtag_uart_init: empty rings, receive interrupts on, nothing in progress. */
  predicate Initial(s: State) {
    && s.tx == TxSide(Ring(s.tx.ring.buf, 0, 0), WDone(WouldBlock), WriteCall([], true, 0, 0, 0, false, false), [], [])
    && s.rx == RxSide(Ring(s.rx.ring.buf, 0, 0), RDone(WouldBlock), ReadCall(0, true, [], 0, 0, 0, false), [], [])
    && |s.tx.ring.buf| == |s.rx.ring.buf| == LEN
    && s.en == Enables(true, false, true, false)
    && s.hostInactive == 0 && s.txCount <= s.txDepth && s.isr == IsrOff
  }
}
