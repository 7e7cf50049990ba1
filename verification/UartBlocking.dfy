/**
 When blocking calls come back: a blocking write stops short, and a blocking read comes
 back with nothing, only after the host has been inactive for the timeout.
 */
module UartBlocking {

  import opened UartRing
  import opened Uart
  import opened UartStreams

  /** From the end of the copy loop on, with bytes left over, the ring is full as seen from the `out` that was
      read; a spin that ended because tx_out moved cannot be mistaken for one that gave up. */
  predicate WriterWaits(t: TxSide) {
    var c := t.call;
    match t.pc
    case WDone(_) => c.off < |c.bytes| && !c.nonblock ==> c.gaveUp
    case WTop => true
    case WReadOut => true
    case WCopy(_, _) => true
    case WPublish(_) => true
    case WSpin => c.off < |c.bytes| && (t.ring.inn + 1) % LEN == c.out
    case WAfterSpin =>
      c.off < |c.bytes| && (t.ring.inn + 1) % LEN == c.out && (!c.gaveUp ==> t.ring.out != c.out)
    case _ => c.off < |c.bytes| ==> (t.ring.inn + 1) % LEN == c.out
  }

  /** A reader with nothing copied found the ring empty at the `in` that it read. */
  predicate ReaderWaits(x: RxSide) {
    var c := x.call;
    match x.pc
    case RDone(_) => c.got == [] && c.space > 0 && !c.nonblock ==> c.gaveUp
    case RAfterInner => c.got == [] ==> c.inn == x.ring.out && c.space > 0
    case RSpin => c.inn == x.ring.out && c.space > 0
    case RAfterSpin => c.inn == x.ring.out && c.space > 0 && (!c.gaveUp ==> x.ring.inn != x.ring.out)
    case RFinish => c.got == [] && c.space > 0 && !c.nonblock ==> c.gaveUp
    case RSetVar => c.got != []
    case RSetHw => c.got != []
    case RUnlock => c.got != []
    case _ => true
  }

  predicate Waits(s: State) {
    WriterWaits(s.tx) && ReaderWaits(s.rx)
  }

  lemma WriterWaitsStep(t: TxSide, inactive: bool)
    requires TxInv(t) && WriterWaits(t)
    ensures WriterWaits(WriterNext(t, inactive))
    ensures WriterNext(t, inactive).call.gaveUp ==> t.call.gaveUp || inactive
  {
    assert t.ring.Valid() && t.call.off <= |t.call.bytes|;
    hide TxInv, TxStream, Ring.Store, Capped;
  }

  lemma ReaderWaitsStep(x: RxSide, inactive: bool)
    requires RxInv(x) && ReaderWaits(x)
    ensures ReaderWaits(ReaderNext(x, inactive))
    ensures ReaderNext(x, inactive).call.gaveUp ==> x.call.gaveUp || inactive
  {
    assert x.ring.Valid();
    hide RxStream, RxRun, Capped, Ring.Used;
  }

  lemma DrainWaits(t: TxSide)
    requires t.ring.Valid() && WriterWaits(t) && t.ring.out != t.ring.inn
    ensures WriterWaits(Drain(t))
  {}

  lemma FillWaits(x: RxSide, b: Octet)
    requires x.ring.Valid() && ReaderWaits(x) && !RingFull(x.ring)
    ensures ReaderWaits(Fill(x, b))
  {
    assert Fill(x, b).ring.out == x.ring.out && Fill(x, b).ring.inn == (x.ring.inn + 1) % LEN;
    hide Fill, Ring.Valid;
  }

  lemma IsrWaits(s: State, ri: bool, wi: bool)
    requires RingsValid(s) && Waits(s)
    ensures Waits(IsrNext(s, ri, wi))
    ensures IsrNext(s, ri, wi).tx.call == s.tx.call && IsrNext(s, ri, wi).rx.call == s.rx.call
  {
    if s.tx.ring.out != s.tx.ring.inn {
      DrainWaits(s.tx);
    }
    if !RingFull(s.rx.ring) && s.rxFifo != [] {
      FillWaits(s.rx, s.rxFifo[0]);
    }
    assert Drain(s.tx).call == s.tx.call;
    assert s.rxFifo != [] ==> Fill(s.rx, s.rxFifo[0]).call == s.rx.call;
    hide Drain, Fill, WriterWaits, ReaderWaits, Ring.Valid, RingFull, Space;
  }

  lemma WaitsStep(s: State, e: Event)
    requires Streams(s) && Waits(s)
    ensures Waits(Next(s, e))
    ensures Next(s, e).tx.call.gaveUp ==> s.tx.call.gaveUp || Inactive(s)
    ensures Next(s, e).rx.call.gaveUp ==> s.rx.call.gaveUp || Inactive(s)
  {
    WriterWaitsStep(s.tx, Inactive(s));
    ReaderWaitsStep(s.rx, Inactive(s));
    if e.IsrStep? {
      IsrWaits(s, e.ri, e.wi);
    }
    hide WriterNext, ReaderNext, IsrNext, TxInv, RxInv;
  }

  lemma {:induction false} WaitsHolds(s: State, events: seq<Event>)
    requires Initial(s)
    ensures Streams(s) && Waits(Execute(s, events))
  {
    InitialStreams(s);
    if |events| > 0 {
      hide Next, Waits, Streams, Initial;
      WaitsHolds(s, events[..|events| - 1]);
      WaitsStep(Execute(s, events[..|events| - 1]), events[|events| - 1]);
    }
  }

  // ----- From the beginning of a call -------------------------------------------------------------

  /** Event `a` was the beginning of a call of write(). */
  ghost predicate WriteBegan(s: State, events: seq<Event>, a: nat)
    requires Streams(s)
  {
    a < |events| && events[a].Write? && Enabled(Execute(s, events[..a]), events[a])
  }

  /** Event `a` was the beginning of a call of read(). */
  ghost predicate ReadBegan(s: State, events: seq<Event>, a: nat)
    requires Streams(s)
  {
    a < |events| && events[a].Read? && Enabled(Execute(s, events[..a]), events[a])
  }

  /** At some time after event `a` the host had been inactive for the timeout. */
  ghost predicate InactiveAfter(s: State, events: seq<Event>, a: nat)
    requires Streams(s)
  {
    exists j :: a < j < |events| && Inactive(Execute(s, events[..j]))
  }

  lemma InactiveLonger(s: State, events: seq<Event>, a: nat)
    requires Streams(s) && a + 1 < |events|
    ensures InactiveAfter(s, events[..|events| - 1], a) || Inactive(Execute(s, events[..|events| - 1]))
        ==> InactiveAfter(s, events, a)
  {
    hide Execute, Streams, Inactive;
    var before := events[..|events| - 1];
    if InactiveAfter(s, before, a) {
      var j :| a < j < |before| && Inactive(Execute(s, before[..j]));
      assert before[..j] == events[..j];
    }
  }

  lemma FreshCall(s: State, e: Event)
    requires RingsValid(s) && Enabled(s, e)
    ensures e.Write? ==> !Next(s, e).tx.call.gaveUp
    ensures e.Read? ==> !Next(s, e).rx.call.gaveUp
  {}

  lemma WriteBeganEarlier(s: State, events: seq<Event>, a: nat)
    requires Streams(s) && WriteBegan(s, events, a)
    ensures a < |events|
    ensures var before, e := events[..|events| - 1], events[|events| - 1];
            if a + 1 < |events| then WriteBegan(s, before, a) else e.Write? && Enabled(Execute(s, before), e)
  {
    hide Execute, Streams, Enabled;
    assert a + 1 < |events| ==> events[..|events| - 1][..a] == events[..a];
  }

  lemma ReadBeganEarlier(s: State, events: seq<Event>, a: nat)
    requires Streams(s) && ReadBegan(s, events, a)
    ensures a < |events|
    ensures var before, e := events[..|events| - 1], events[|events| - 1];
            if a + 1 < |events| then ReadBegan(s, before, a) else e.Read? && Enabled(Execute(s, before), e)
  {
    hide Execute, Streams, Enabled;
    assert a + 1 < |events| ==> events[..|events| - 1][..a] == events[..a];
  }

  lemma ExecuteStep(s: State, events: seq<Event>)
    requires Streams(s) && |events| > 0
    ensures RingsValid(Execute(s, events[..|events| - 1]))
    ensures Execute(s, events) == Next(Execute(s, events[..|events| - 1]), events[|events| - 1])
  {
    assert Streams(Execute(s, events[..|events| - 1]));
    hide Next;
  }

  /** A writer that gave up saw the host inactive after the beginning of its call. */
  lemma {:induction false} WriterGaveUp(s: State, events: seq<Event>, a: nat)
    requires Initial(s) && Streams(s) && WriteBegan(s, events, a)
    ensures Execute(s, events).tx.call.gaveUp ==> InactiveAfter(s, events, a)
  {
    hide Next, Waits, Streams, Initial, Inactive, InactiveAfter, WriteBegan, Enabled, Execute;
    WriteBeganEarlier(s, events, a);
    var before, e := events[..|events| - 1], events[|events| - 1];
    ExecuteStep(s, events);
    WaitsHolds(s, before);
    if a + 1 < |events| {
      WriterGaveUp(s, before, a);
      WaitsStep(Execute(s, before), e);
      InactiveLonger(s, events, a);
    } else {
      FreshCall(Execute(s, before), e);
    }
  }

  lemma {:induction false} ReaderGaveUp(s: State, events: seq<Event>, a: nat)
    requires Initial(s) && Streams(s) && ReadBegan(s, events, a)
    ensures Execute(s, events).rx.call.gaveUp ==> InactiveAfter(s, events, a)
  {
    hide Next, Waits, Streams, Initial, Inactive, InactiveAfter, ReadBegan, Enabled, Execute;
    ReadBeganEarlier(s, events, a);
    var before, e := events[..|events| - 1], events[|events| - 1];
    ExecuteStep(s, events);
    WaitsHolds(s, before);
    if a + 1 < |events| {
      ReaderGaveUp(s, before, a);
      WaitsStep(Execute(s, before), e);
      InactiveLonger(s, events, a);
    } else {
      FreshCall(Execute(s, before), e);
    }
  }

  /** A blocking write that has returned took every byte, unless at some time after the call began the host had
      been inactive for the timeout. */
  lemma BlockingWrite(s: State, events: seq<Event>, a: nat)
    requires Initial(s) && Streams(s) && WriteBegan(s, events, a)
    ensures var t := Execute(s, events).tx;
            t.pc.WDone? && !t.call.nonblock && t.call.off < |t.call.bytes| ==> InactiveAfter(s, events, a)
  {
    WaitsHolds(s, events);
    WriterGaveUp(s, events, a);
    hide Execute, Initial, InactiveAfter;
  }

  /** A blocking read of at least one byte that has returned brings at least one, unless at some time after the
      call began the host had been inactive for the timeout. */
  lemma BlockingRead(s: State, events: seq<Event>, a: nat)
    requires Initial(s) && Streams(s) && ReadBegan(s, events, a)
    ensures var x := Execute(s, events).rx;
            x.pc.RDone? && !x.call.nonblock && x.call.space > 0 && x.call.got == [] ==> InactiveAfter(s, events, a)
  {
    WaitsHolds(s, events);
    ReaderGaveUp(s, events, a);
    hide Execute, Initial, InactiveAfter;
  }
}
