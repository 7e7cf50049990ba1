/**
 Single steps of the transition system, spelled out for the code that performs them.
 */
module UartSteps {
  import opened UartRing
  import opened Uart
  import opened UartStreams
  import opened UartControl
  import opened UartBlocking
  import opened UartReturns

  /** Every event of a run was one that could happen. */
  ghost predicate Genuine(s: State, events: seq<Event>)
    requires Streams(s)
  {
    |events| == 0 || (
      && Genuine(s, events[..|events| - 1])
      && Enabled(Execute(s, events[..|events| - 1]), events[|events| - 1]))
  }

  /** `t` is reached from `s` by the events, each of which could happen. */
  ghost predicate Reached(s: State, events: seq<Event>, t: State) {
    && Initial(s) && Streams(s) && Genuine(s, events) && t == Execute(s, events)
    && Streams(t) && Control(t) && RingsValid(t)
  }

  lemma InReach(s: State, events: seq<Event>, t: State)
    requires Reached(s, events, t)
    ensures RingsValid(t) && t.txCount <= t.txDepth && t.rx.ring.inn < LEN && t.tx.ring.inn < LEN
    ensures |t.rx.ring.buf| == |t.tx.ring.buf| == LEN && t.rx.ring.out < LEN && t.tx.ring.out < LEN
  {
    hide Genuine, Execute, Streams;
  }

  lemma OneMore(s: State, events: seq<Event>, t: State, e: Event)
    requires Reached(s, events, t) && Enabled(t, e)
    ensures RingsValid(t) && Reached(s, events + [e], Next(t, e))
  {
    assert (events + [e])[..|events|] == events;
    StreamsStep(t, e);
    ControlStep(t, e);
    assert RingsValid(Next(t, e)) by { StreamsValid(Next(t, e)); }
    hide Enabled, Next, Streams, Control;
  }

  lemma StreamsValid(t: State)
    requires Streams(t)
    ensures RingsValid(t)
  {}

  /** The measure of what the interrupt routine has left to do. */
  ghost function Measure(s: State): nat {
    if RingsValid(s) then Work(s) else 0
  }

  lemma IsrProgress(s: State, events: seq<Event>, t: State, ri: bool, wi: bool)
    requires Reached(s, events, t) && t.isr != IsrOff && Enabled(t, IsrStep(ri, wi))
    ensures RingsValid(t) && Measure(Next(t, IsrStep(ri, wi))) < Measure(t)
  {
    hide Genuine, Execute, Next, Enabled, Streams, Control, Work;
    QuietWork(t, IsrStep(ri, wi));
  }

  /** Nothing that the callers of the driver own has changed, and what they have found is still there: room in the
      transmit ring, bytes in the receive ring. */
  ghost predicate Undisturbed(s: State, t: State) {
    && t.tx.pc == s.tx.pc && t.tx.call == s.tx.call && t.tx.ring.inn == s.tx.ring.inn && t.tx.accepted == s.tx.accepted
    && t.rx.pc == s.rx.pc && t.rx.call == s.rx.call && t.rx.ring.out == s.rx.ring.out && t.rx.returned == s.rx.returned
    && (!RingFull(s.tx.ring) ==> !RingFull(t.tx.ring)) && (!RingEmpty(s.rx.ring) ==> !RingEmpty(t.rx.ring))
  }

  /** A state and the run that led to it. */
  datatype Moment = Moment(state: State, trace: seq<Event>)

  /** The run goes on from `a` to `b`, and so do the four byte streams: nothing is taken back. */
  ghost predicate Onward(a: Moment, b: Moment) {
    && a.trace <= b.trace
    && a.state.tx.accepted <= b.state.tx.accepted && a.state.tx.sent <= b.state.tx.sent
    && a.state.rx.taken <= b.state.rx.taken && a.state.rx.returned <= b.state.rx.returned
  }

  /** For the code that puts steps together. */
  lemma OnwardAndOn()
    ensures forall a, b, c :: Onward(a, b) && Onward(b, c) ==> Onward(a, c)
    ensures forall a {:trigger Onward(a, a)} :: Onward(a, a)
  {}

  lemma OneOnward(s: State, events: seq<Event>, e: Event)
    requires RingsValid(s)
    ensures Onward(Moment(s, events), Moment(Next(s, e), events + [e]))
  {
    DeviceStreamStep(s, e);
    hide Next, RingsValid;
  }

  // ----- The host and the timer ----------------------------------------------------------------------

  lemma HostIs(s: State, b: Octet)
    requires RingsValid(s)
    ensures Enabled(s, HostSends(b)) && Next(s, HostSends(b)) == s.(rxFifo := s.rxFifo + [b])
    ensures s.txCount > 0 ==> Enabled(s, HostDrains) && Next(s, HostDrains) == s.(txCount := s.txCount - 1)
    ensures Measure(Next(s, HostSends(b))) == Measure(s)
    ensures s.txCount > 0 ==> Measure(Next(s, HostDrains)) == Measure(s)
  {
    hide Ring.Free, Ring.Used, Rank;
  }

  lemma TimerIs(s: State, ac: bool)
    requires RingsValid(s) && InterruptsOn(s)
    ensures Enabled(s, TimerTick(ac))
    ensures Next(s, TimerTick(ac)) == (
      if ac then s.(en := s.en.WriteControl(), hostInactive := 0)
      else if s.hostInactive < INT_MAX - 2 then s.(hostInactive := s.hostInactive + 1)
      else s)
  {
    hide RingsValid;
  }

  lemma InterruptIs(s: State)
    requires RingsValid(s) && InterruptsOn(s)
    ensures Enabled(s, Interrupt) && Next(s, Interrupt) == s.(isr := Poll)
  {
    hide RingsValid;
  }

  // ----- The interrupt routine ------------------------------------------------------------------------

  lemma PollIs(s: State, ri: bool, wi: bool)
    requires RingsValid(s) && s.isr == Poll && PollAllowed(s, ri, wi)
    ensures Enabled(s, IsrStep(ri, wi))
    ensures Next(s, IsrStep(ri, wi))
         == s.(isr := if ri then RxLoop(true, wi, Space(s), false) else if wi then TxLoop(wi, Space(s), false) else IsrOff)
  {
    hide PollAllowed, Space, RingsValid;
  }

  lemma ReceiveIs(s: State)
    requires RingsValid(s) && s.isr.RxLoop? && s.rxFifo != [] && !RingFull(s.rx.ring)
    ensures Enabled(s, IsrStep(false, false))
    ensures (
      var n, r := Next(s, IsrStep(false, false)), s.rx.ring;
      && n == s.(rx := n.rx, rxFifo := s.rxFifo[1..], isr := RxLoop(s.rxFifo[1..] != [], s.isr.wi, s.isr.space, true))
      && n.rx.pc == s.rx.pc && n.rx.call == s.rx.call && n.rx.returned == s.rx.returned
      && n.rx.ring == Ring(r.buf[r.inn := s.rxFifo[0]], r.out, (r.inn + 1) % LEN))
  {
    hide RingFull;
  }

  lemma TransmitIs(s: State)
    requires RingsValid(s) && s.isr.TxLoop? && s.isr.wi && s.isr.space > 0 && s.tx.ring.out != s.tx.ring.inn
    ensures Enabled(s, IsrStep(false, false))
    ensures (
      var n, r := Next(s, IsrStep(false, false)), s.tx.ring;
      && n == s.(tx := n.tx, txCount := s.txCount + 1, isr := TxLoop(true, s.isr.space - 1, true))
      && n.tx.pc == s.tx.pc && n.tx.call == s.tx.call && n.tx.accepted == s.tx.accepted
      && |n.tx.sent| == |s.tx.sent| + 1
      && n.tx.ring == Ring(r.buf, (r.out + 1) % LEN, r.inn))
  {}

  lemma EndReceiveIs(s: State)
    requires RingsValid(s) && s.isr.RxLoop? && (RingFull(s.rx.ring) || s.rxFifo == [])
    ensures Enabled(s, IsrStep(false, false))
    ensures (
      var n, full := Next(s, IsrStep(false, false)), RingFull(s.rx.ring) && s.isr.avail;
      && n == s.(en := if full then s.en.(irqRE := false) else s.en, isr := n.isr)
      && (if full then n.isr == RxHw(s.isr.wi, s.isr.space, true)
          else n.isr == TxLoop(s.isr.wi, s.isr.space, s.isr.worked)))
  {
    hide RingFull, RingsValid;
  }

  lemma TurnOffIs(s: State)
    requires RingsValid(s) && (s.isr.RxHw? || s.isr.TxHw?)
    ensures Enabled(s, IsrStep(false, false))
    ensures Next(s, IsrStep(false, false)) == s.(en := s.en.WriteControl(),
              isr := if s.isr.RxHw? then TxLoop(s.isr.wi, s.isr.space, s.isr.worked) else Poll)
  {
    hide RingsValid;
  }

  lemma EndTransmitIs(s: State)
    requires RingsValid(s) && s.isr.TxLoop? && (!s.isr.wi || s.isr.space == 0 || s.tx.ring.out == s.tx.ring.inn)
    ensures Enabled(s, IsrStep(false, false))
    ensures (
      var n, idle := Next(s, IsrStep(false, false)), s.isr.wi && s.isr.space > 0;
      n == s.(en := if idle then s.en.(irqWE := false) else s.en, isr := if idle then TxHw else Poll))
  {
    hide RingsValid;
  }

  // ----- The writer -----------------------------------------------------------------------------------

  lemma WriteIs(s: State, bytes: seq<Octet>, nonblock: bool)
    requires RingsValid(s) && Enabled(s, Write(bytes, nonblock))
    ensures (
      var n := Next(s, Write(bytes, nonblock));
      && n == s.(tx := n.tx) && n.tx.ring == s.tx.ring && n.tx.pc == WTop && n.tx.accepted == s.tx.accepted
      && n.tx.call == WriteCall(bytes, nonblock, 0, 0, |s.tx.accepted|, false, false))
  {
    hide RingsValid;
  }

  lemma WriterIs(s: State)
    requires RingsValid(s) && s.isr == IsrOff && !ReaderLocked(s.rx.pc)
    ensures Enabled(s, WriterStep)
    ensures Next(s, WriterStep) == s.(tx := WriterNext(s.tx, Inactive(s)), en := WriterEnables(s.tx.pc, s.en))
  {
    hide RingsValid, WriterNext, WriterEnables, ReaderLocked, Inactive;
  }

  /** What the copying loop can rely on. */
  lemma Copying(s: State, events: seq<Event>, t: State, n: nat, k: nat)
    requires Reached(s, events, t) && (t.tx.pc == WCopy(n, k) || (t.tx.pc == WPublish(n) && n == k))
    ensures t.tx.call.off + n <= |t.tx.call.bytes| && k <= n && t.tx.ring.inn + n <= LEN && t.tx.ring.Valid()
  {
    hide Genuine, Execute, Control, RxInv;
  }

  // ----- The reader -----------------------------------------------------------------------------------

  lemma ReadIs(s: State, space: nat, nonblock: bool)
    requires RingsValid(s) && Enabled(s, Read(space, nonblock))
    ensures (
      var n := Next(s, Read(space, nonblock));
      && n == s.(rx := n.rx) && n.rx.ring == s.rx.ring && n.rx.pc == RTop && n.rx.returned == s.rx.returned
      && n.rx.call == ReadCall(space, nonblock, [], 0, 0, |s.rx.returned|, false))
  {
    hide RingsValid;
  }

  lemma ReaderIs(s: State)
    requires RingsValid(s) && s.isr == IsrOff && !WriterLocked(s.tx.pc)
    ensures Enabled(s, ReaderStep)
    ensures Next(s, ReaderStep) == s.(rx := ReaderNext(s.rx, Inactive(s)), en := ReaderEnables(s.rx.pc, s.en))
  {
    hide RingsValid, ReaderNext, ReaderEnables, WriterLocked, Inactive;
  }

  lemma CopyingOut(s: State, events: seq<Event>, t: State, n: nat, k: nat)
    requires Reached(s, events, t) && (t.rx.pc == RCopy(n, k) || (t.rx.pc == RPublish(n) && n == k))
    ensures k <= n && t.rx.ring.out + n <= LEN && t.rx.ring.Valid() && t.rx.call.published <= |t.rx.call.got|
    ensures t.rx.call.published + n <= t.rx.call.space && |t.rx.call.got| == t.rx.call.published + k
  {
    hide Genuine, Execute, Control, TxInv;
  }

  /** One byte of the copying loop of the reader. */
  lemma LoadIs(x: RxSide, n: nat, k: nat, inactive: bool)
    requires x.pc == RCopy(n, k) && k < n && x.ring.out + k < |x.ring.buf|
    ensures ReaderNext(x, inactive)
         == x.(call := x.call.(got := x.call.got + [x.ring.buf[x.ring.out + k]]), pc := RCopy(n, k + 1))
  {}

  // ----- What a call has done to the streams ---------------------------------------------------------

  /** The result of a call that has moved `n` bytes. */
  ghost predicate Reports(r: Outcome, n: nat, nonblock: bool) {
    match r
    case Count(m) => m == n > 0
    case WouldBlock => n == 0 && nonblock
    case IoError => n == 0 && !nonblock
  }

  /** `bytes[..n]` has been added to what was accepted before the call, and the ring holds what is not yet sent. */
  ghost predicate AcceptedBy(before: seq<Octet>, t: TxSide, bytes: seq<Octet>, n: nat) {
    && n <= |bytes| && t.accepted == before + bytes[..n]
    && t.ring.Valid() && t.sent + t.ring.Contents() == t.accepted
  }

  /** `got` has been added to what was returned before the call, and the ring holds the rest of what was taken. */
  ghost predicate DeliveredBy(before: seq<Octet>, x: RxSide, got: seq<Octet>) {
    && x.returned == before + got
    && x.ring.Valid() && x.returned + x.ring.Contents() == x.taken
  }

  lemma CallAccepted(s: State, events: seq<Event>, t: State, before: seq<Octet>)
    requires Reached(s, events, t) && t.tx.call.base == |before| && before <= t.tx.accepted
    ensures AcceptedBy(before, t.tx, t.tx.call.bytes, t.tx.call.off)
    ensures t.tx.pc.WDone? ==> Reports(t.tx.pc.result, t.tx.call.off, t.tx.call.nonblock)
  {
    hide Genuine, Execute, Control, RxInv, TxRun, Ring.Contents;
    assert t.tx.accepted == t.tx.accepted[..|before|] + t.tx.accepted[|before|..];
  }

  lemma CallDelivered(s: State, events: seq<Event>, t: State, before: seq<Octet>)
    requires Reached(s, events, t) && t.rx.pc.RDone? && t.rx.call.base == |before| && before <= t.rx.returned
    ensures DeliveredBy(before, t.rx, t.rx.call.got)
    ensures Reports(t.rx.pc.result, |t.rx.call.got|, t.rx.call.nonblock) && |t.rx.call.got| <= t.rx.call.space
  {
    hide Genuine, Execute, Control, TxInv, RxRun, Ring.Contents;
    assert t.rx.returned == t.rx.returned[..|before|] + t.rx.returned[|before|..];
  }

  lemma EmptyIsSent(s: State, events: seq<Event>, t: State)
    requires Reached(s, events, t) && t.tx.ring.out == t.tx.ring.inn
    ensures t.tx.accepted == t.tx.sent
  {
    hide Genuine, Execute, Control, RxInv, TxCopy;
    UsedIsLength(t.tx.ring);
  }

  lemma {:induction false} GenuineAt(s: State, events: seq<Event>, i: nat)
    requires Streams(s) && Genuine(s, events) && i < |events|
    ensures Enabled(Execute(s, events[..i]), events[i])
  {
    var before := events[..|events| - 1];
    hide Execute, Enabled, Streams;
    if i < |events| - 1 {
      assert before[..i] == events[..i];
      GenuineAt(s, before, i);
    }
  }

  /** Why a call of write() that began with event `a` stopped short. */
  lemma WriteStopped(s: State, events: seq<Event>, t: State, a: nat)
    requires Reached(s, events, t) && a < |events| && events[a].Write?
    requires t.tx.pc.WDone? && t.tx.call.off < |t.tx.call.bytes|
    ensures Streams(s) && FullAfter(s, events, a)
    ensures t.tx.call.nonblock || InactiveAfter(s, events, a)
  {
    GenuineAt(s, events, a);
    assert WriteBegan(s, events, a) && CutShort(t.tx);
    hide Genuine, Execute, Control, Streams, FullAfter, InactiveAfter, WriteBegan, Initial;
    WriterSawFull(s, events, a);
    BlockingWrite(s, events, a);
  }

  /** Why a call of read() that began with event `a` brought less than was asked for. */
  lemma ReadStopped(s: State, events: seq<Event>, t: State, a: nat)
    requires Reached(s, events, t) && a < |events| && events[a].Read?
    requires t.rx.pc.RDone? && |t.rx.call.got| < t.rx.call.space
    ensures Streams(s) && EmptyAfter(s, events, a)
    ensures t.rx.call.got != [] || t.rx.call.nonblock || InactiveAfter(s, events, a)
  {
    GenuineAt(s, events, a);
    assert ReadBegan(s, events, a) && RanOut(t.rx);
    hide Genuine, Execute, Control, Streams, EmptyAfter, InactiveAfter, ReadBegan, Initial;
    ReaderSawEmpty(s, events, a);
    BlockingRead(s, events, a);
  }

  /** Between calls nothing is stuck: bytes to send have their interrupt enabled, and so has an empty receive ring. */
  lemma Quiescent(s: State, events: seq<Event>, t: State)
    requires Reached(s, events, t) && t.isr == IsrOff && t.tx.pc.WDone? && t.rx.pc.RDone?
    ensures t.tx.ring.out != t.tx.ring.inn ==> t.en.irqWE && t.en.hwWE
    ensures t.rx.ring.out == t.rx.ring.inn ==> t.en.irqRE && t.en.hwRE
  {
    hide Genuine, Execute, Streams, Initial, IsrInv;
  }
}
