/**
 Calls come back: a call of write() or read() takes a bounded number of steps, not counting the turns of its waiting
 loop while nothing has moved and the host is still there. A host that has gone away therefore ends every call.
 */
module UartProgress {

  import opened UartRing
  import opened Uart
  import opened UartStreams
  import opened UartControl
  import opened UartBlocking

  // ----- The writer -------------------------------------------------------------------------------------

  /** What the writer has left to do, by where it is; a ring that is full costs a turn of the outer loop. */
  function WriterRank(t: TxSide): nat {
    var stuck := RingFull(t.ring) || t.call.off >= |t.call.bytes|;
    match t.pc
    case WDone(_) => 0
    case WPublish(_) => 1
    case WCopy(n, k) => if k < n then 2 + n - k else 2
    case WReadOut => if stuck then 2064 else 2050
    case WTop => if stuck then 2065 else 2051
    case WAfterSpin => 2052
    case WSpin => 2053
    case WCheck => 2054
    case WUnlock => 2055
    case WSetHw => 2056
    case WSetVar => 2057
    case WLock => 2058
  }

  function WriterWork(t: TxSide): nat {
    if t.pc.WDone? then 0
    else 2100 * (if t.call.off < |t.call.bytes| then |t.call.bytes| - t.call.off else 0) + WriterRank(t)
  }

  lemma WriterCopyWorks(t: TxSide, inactive: bool)
    requires TxInv(t) && (t.pc.WCopy? || t.pc.WPublish?)
    ensures WriterWork(WriterNext(t, inactive)) < WriterWork(t)
  {
    assert TxRun(t.ring, t.call, t.pc.n, if t.pc.WCopy? then t.pc.k else t.pc.n);
    hide Ring.Contents, Ring.Store, WriterWaits, TxStream;
  }

  /** Every step of a call but the turns of its waiting loop leaves less to do. */
  lemma WriterWorks(t: TxSide, inactive: bool)
    requires TxInv(t) && WriterWaits(t) && !t.pc.WDone?
    requires t.pc == WSpin ==> t.call.out != t.ring.out || inactive
    ensures WriterWork(WriterNext(t, inactive)) < WriterWork(t)
  {
    if t.pc.WCopy? || t.pc.WPublish? {
      WriterCopyWorks(t, inactive);
    } else {
      if t.pc == WReadOut {
        WReadOutStep(t.ring, t.call);
      }
      hide Ring.Contents, Ring.Store;
    }
  }

  lemma DrainWork(t: TxSide)
    requires t.ring.Valid() && t.ring.out != t.ring.inn
    ensures WriterWork(Drain(t)) <= WriterWork(t)
  {}

  // ----- The reader -------------------------------------------------------------------------------------

  function ReaderRank(x: RxSide): nat {
    match x.pc
    case RDone(_) => 0
    case RUnlock => 1
    case RSetHw => 2
    case RSetVar => 3
    case RFinish => 4
    case RPublish(_) => 5
    case RCopy(n, k) => if k < n then 6 + n - k else 6
    case RReadOut => if x.call.inn == x.ring.out then 2060 else 2054
    case RReadIn => if RingEmpty(x.ring) then 2061 else 2055
    case RTop => if RingEmpty(x.ring) then 2062 else 2056
    case RAfterSpin => 2057
    case RSpin => 2058
    case RAfterInner => 2059
  }

  function ReaderWork(x: RxSide): nat {
    if x.pc.RDone? then 0
    else 2100 * (if x.call.published < x.call.space then x.call.space - x.call.published else 0) + ReaderRank(x)
  }

  lemma ReaderCopyWorks(x: RxSide, inactive: bool)
    requires RxInv(x) && (x.pc.RCopy? || x.pc.RPublish?)
    ensures ReaderWork(ReaderNext(x, inactive)) < ReaderWork(x)
  {
    assert RxRun(x.ring, x.call, x.pc.n, if x.pc.RCopy? then x.pc.k else x.pc.n);
    hide Ring.Contents, ReaderWaits, RxStream;
  }

  /** Every step of a call but the turns of its waiting loop leaves less to do. */
  lemma ReaderWorks(x: RxSide, inactive: bool)
    requires RxInv(x) && ReaderWaits(x) && !x.pc.RDone?
    requires x.pc == RSpin ==> x.call.inn != x.ring.inn || inactive
    ensures ReaderWork(ReaderNext(x, inactive)) < ReaderWork(x)
  {
    if x.pc.RCopy? || x.pc.RPublish? {
      ReaderCopyWorks(x, inactive);
    } else {
      if x.pc == RReadOut {
        RReadOutStep(x.ring, x.call);
      }
      hide Ring.Contents;
    }
  }

  lemma FillWork(x: RxSide, b: Octet)
    requires x.ring.Valid() && !RingFull(x.ring)
    ensures ReaderWork(Fill(x, b)) <= ReaderWork(x)
  {}

  // ----- Runs -------------------------------------------------------------------------------------------

  /** Event `e` takes a call of write() further: not a turn of its waiting loop. */
  predicate WriterAdvances(s: State, e: Event) {
    && e.WriterStep? && Enabled(s, e) && !s.tx.pc.WDone?
    && (s.tx.pc == WSpin ==> s.tx.call.out != s.tx.ring.out || s.hostInactive >= s.timeout)
  }

  predicate ReaderAdvances(s: State, e: Event) {
    && e.ReaderStep? && Enabled(s, e) && !s.rx.pc.RDone?
    && (s.rx.pc == RSpin ==> s.rx.call.inn != s.rx.ring.inn || s.hostInactive >= s.timeout)
  }

  lemma IsrWork(s: State, ri: bool, wi: bool)
    requires RingsValid(s)
    ensures WriterWork(IsrNext(s, ri, wi).tx) <= WriterWork(s.tx)
    ensures ReaderWork(IsrNext(s, ri, wi).rx) <= ReaderWork(s.rx)
  {
    if s.tx.ring.out != s.tx.ring.inn {
      DrainWork(s.tx);
    }
    if !RingFull(s.rx.ring) && s.rxFifo != [] {
      FillWork(s.rx, s.rxFifo[0]);
    }
    hide Drain, Fill, WriterWork, ReaderWork, Ring.Valid, RingFull, Space;
  }

  /** One event leaves no more to do, and less if it takes the call further. */
  lemma WorkStep(s: State, e: Event)
    requires Streams(s) && Waits(s)
    ensures !e.Write? ==>
      WriterWork(Next(s, e).tx) + (if WriterAdvances(s, e) then 1 else 0) <= WriterWork(s.tx)
    ensures !e.Read? ==>
      ReaderWork(Next(s, e).rx) + (if ReaderAdvances(s, e) then 1 else 0) <= ReaderWork(s.rx)
  {
    if WriterAdvances(s, e) {
      WriterWorks(s.tx, Inactive(s));
    } else if e.WriterStep? && Enabled(s, e) {
      assert WriterNext(s.tx, Inactive(s)) == s.tx;
    }
    if ReaderAdvances(s, e) {
      ReaderWorks(s.rx, Inactive(s));
    } else if e.ReaderStep? && Enabled(s, e) {
      assert ReaderNext(s.rx, Inactive(s)) == s.rx;
    }
    if e.IsrStep? {
      IsrWork(s, e.ri, e.wi);
    }
    hide WriterNext, ReaderNext, IsrNext, WriterWork, ReaderWork, TxInv, RxInv, Waits;
  }

  /** How many of the events take a call of write() further. */
  function WriterAdvancing(s: State, events: seq<Event>): nat
    requires Streams(s)
  {
    if |events| == 0 then 0
    else
      var before := events[..|events| - 1];
      WriterAdvancing(s, before) + (if WriterAdvances(Execute(s, before), events[|events| - 1]) then 1 else 0)
  }

  function ReaderAdvancing(s: State, events: seq<Event>): nat
    requires Streams(s)
  {
    if |events| == 0 then 0
    else
      var before := events[..|events| - 1];
      ReaderAdvancing(s, before) + (if ReaderAdvances(Execute(s, before), events[|events| - 1]) then 1 else 0)
  }

  lemma {:induction false} WriterWorkUsed(s: State, events: seq<Event>)
    requires Streams(s) && Waits(s) && forall e <- events :: !e.Write?
    ensures Waits(Execute(s, events))
    ensures WriterWork(Execute(s, events).tx) + WriterAdvancing(s, events) <= WriterWork(s.tx)
  {
    if |events| > 0 {
      var before, e := events[..|events| - 1], events[|events| - 1];
      WriterWorkUsed(s, before);
      WaitsStep(Execute(s, before), e);
      WorkStep(Execute(s, before), e);
      assert e in events;
      hide Next, Streams, Waits, WriterWork, WriterAdvances, ReaderAdvances, ReaderWork;
    }
  }

  lemma {:induction false} ReaderWorkUsed(s: State, events: seq<Event>)
    requires Streams(s) && Waits(s) && forall e <- events :: !e.Read?
    ensures Waits(Execute(s, events))
    ensures ReaderWork(Execute(s, events).rx) + ReaderAdvancing(s, events) <= ReaderWork(s.rx)
  {
    if |events| > 0 {
      var before, e := events[..|events| - 1], events[|events| - 1];
      ReaderWorkUsed(s, before);
      WaitsStep(Execute(s, before), e);
      WorkStep(Execute(s, before), e);
      assert e in events;
      hide Next, Streams, Waits, WriterWork, WriterAdvances, ReaderAdvances, ReaderWork;
    }
  }

  lemma WorkAtBeginning(s: State)
    requires RingsValid(s)
    ensures forall bytes, nonblock :: Enabled(s, Write(bytes, nonblock)) ==>
      WriterWork(Next(s, Write(bytes, nonblock)).tx) <= 2100 * |bytes| + 2065
    ensures forall space: nat, nonblock :: Enabled(s, Read(space, nonblock)) ==>
      ReaderWork(Next(s, Read(space, nonblock)).rx) <= 2100 * space + 2062
  {
    hide RingsValid, RingFull, RingEmpty;
  }

  lemma NothingToDo(s: State)
    ensures WriterWork(s.tx) == 0 ==> s.tx.pc.WDone?
    ensures ReaderWork(s.rx) == 0 ==> s.rx.pc.RDone?
  {
    hide RingFull, RingEmpty;
  }

  /** A call of write() ends: from its beginning, whatever is interleaved, it takes at most so many steps that are not
      turns of its waiting loop with the host still there and tx_out where it was. */
  lemma WriteEnds(s: State, bytes: seq<Octet>, nonblock: bool, events: seq<Event>)
    requires Streams(s) && Waits(s) && Enabled(s, Write(bytes, nonblock)) && forall e <- events :: !e.Write?
    ensures Streams(Next(s, Write(bytes, nonblock)))
    ensures (
      var b := Next(s, Write(bytes, nonblock));
      var t := Execute(b, events);
      && WriterAdvancing(b, events) <= 2100 * |bytes| + 2065
      && (WriterAdvancing(b, events) == 2100 * |bytes| + 2065 ==> t.tx.pc.WDone?))
  {
    var b := Next(s, Write(bytes, nonblock));
    StreamsStep(s, Write(bytes, nonblock));
    WaitsStep(s, Write(bytes, nonblock));
    assert RingsValid(s) by { hide Next; }
    hide Next, Streams, Waits, Enabled, WriterWork, ReaderWork, Execute, WriterAdvancing;
    WorkAtBeginning(s);
    WriterWorkUsed(b, events);
    NothingToDo(Execute(b, events));
  }

  /** A call of read() ends in the same way. */
  lemma ReadEnds(s: State, space: nat, nonblock: bool, events: seq<Event>)
    requires Streams(s) && Waits(s) && Enabled(s, Read(space, nonblock)) && forall e <- events :: !e.Read?
    ensures Streams(Next(s, Read(space, nonblock)))
    ensures (
      var b := Next(s, Read(space, nonblock));
      var t := Execute(b, events);
      && ReaderAdvancing(b, events) <= 2100 * space + 2062
      && (ReaderAdvancing(b, events) == 2100 * space + 2062 ==> t.rx.pc.RDone?))
  {
    var b := Next(s, Read(space, nonblock));
    StreamsStep(s, Read(space, nonblock));
    WaitsStep(s, Read(space, nonblock));
    assert RingsValid(s) by { hide Next; }
    hide Next, Streams, Waits, Enabled, WriterWork, ReaderWork, Execute, ReaderAdvancing;
    WorkAtBeginning(s);
    ReaderWorkUsed(b, events);
    NothingToDo(Execute(b, events));
  }
}
