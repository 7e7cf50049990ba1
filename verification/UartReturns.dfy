/**
 What a call that has returned says about the ring: a write stops short only of a ring that was full during the
 call, and a read brings less than was asked for only from a ring that was empty during the call.
 */
module UartReturns {

  import opened UartRing
  import opened Uart
  import opened UartStreams
  import opened UartControl
  import opened UartBlocking

  // ----- One event ------------------------------------------------------------------------------------

  /** The writer is past its copying loop with bytes left over. */
  predicate CutShort(t: TxSide) {
    && t.call.off < |t.call.bytes|
    && !(t.pc == WTop || t.pc == WReadOut || t.pc.WCopy? || t.pc.WPublish?)
  }

  /** The reader has found nothing more to read with room left over. */
  predicate RanOut(x: RxSide) {
    && |x.call.got| < x.call.space
    && !(x.pc == RTop || x.pc == RReadIn || x.pc.RCopy? || x.pc.RPublish?)
    && (x.pc == RReadOut ==> x.call.inn == x.ring.out)
  }

  lemma WriterCutShort(t: TxSide, inactive: bool)
    requires t.ring.Valid()
    ensures CutShort(WriterNext(t, inactive)) ==> CutShort(t) || RingFull(t.ring)
  {
    hide Ring.Store, Ring.AdvanceIn, Capped;
  }

  lemma ReaderRanOut(x: RxSide, inactive: bool)
    requires x.ring.Valid()
    ensures RanOut(ReaderNext(x, inactive)) ==> RanOut(x) || RingEmpty(x.ring)
  {
    hide Ring.AdvanceOut, Capped;
  }

  lemma IsrLeavesCalls(s: State, ri: bool, wi: bool)
    requires RingsValid(s)
    ensures IsrNext(s, ri, wi).tx.call == s.tx.call && IsrNext(s, ri, wi).tx.pc == s.tx.pc
    ensures IsrNext(s, ri, wi).rx.call == s.rx.call && IsrNext(s, ri, wi).rx.pc == s.rx.pc
    ensures IsrNext(s, ri, wi).rx.ring.out == s.rx.ring.out
  {
    hide RingFull, Space;
  }

  lemma CutShortStep(s: State, e: Event)
    requires RingsValid(s) && CutShort(Next(s, e).tx)
    ensures CutShort(s.tx) || RingFull(s.tx.ring)
  {
    hide WriterNext, ReaderNext, IsrNext;
    if e.WriterStep? {
      WriterCutShort(s.tx, Inactive(s));
    } else if e.IsrStep? {
      IsrLeavesCalls(s, e.ri, e.wi);
    }
  }

  lemma RanOutStep(s: State, e: Event)
    requires RingsValid(s) && RanOut(Next(s, e).rx)
    ensures RanOut(s.rx) || RingEmpty(s.rx.ring)
  {
    hide WriterNext, ReaderNext, IsrNext;
    if e.ReaderStep? {
      ReaderRanOut(s.rx, Inactive(s));
    } else if e.IsrStep? {
      IsrLeavesCalls(s, e.ri, e.wi);
    }
  }

  lemma FreshWrite(s: State, e: Event)
    requires RingsValid(s) && Enabled(s, e)
    ensures e.Write? ==> !CutShort(Next(s, e).tx)
    ensures e.Read? ==> !RanOut(Next(s, e).rx)
  {}

  // ----- From the beginning of a call -------------------------------------------------------------------

  /** At some time after event `a` the transmit ring was full. */
  ghost predicate FullAfter(s: State, events: seq<Event>, a: nat)
    requires Streams(s)
  {
    exists j :: a < j < |events| && RingFull(Execute(s, events[..j]).tx.ring)
  }

  /** At some time after event `a` the receive ring was empty. */
  ghost predicate EmptyAfter(s: State, events: seq<Event>, a: nat)
    requires Streams(s)
  {
    exists j :: a < j < |events| && RingEmpty(Execute(s, events[..j]).rx.ring)
  }

  lemma FullLonger(s: State, events: seq<Event>, a: nat)
    requires Streams(s) && a + 1 < |events|
    ensures FullAfter(s, events[..|events| - 1], a) || RingFull(Execute(s, events[..|events| - 1]).tx.ring)
        ==> FullAfter(s, events, a)
  {
    hide Execute, Streams, RingFull;
    var before := events[..|events| - 1];
    if FullAfter(s, before, a) {
      var j :| a < j < |before| && RingFull(Execute(s, before[..j]).tx.ring);
      assert before[..j] == events[..j];
    }
  }

  lemma EmptyLonger(s: State, events: seq<Event>, a: nat)
    requires Streams(s) && a + 1 < |events|
    ensures EmptyAfter(s, events[..|events| - 1], a) || RingEmpty(Execute(s, events[..|events| - 1]).rx.ring)
        ==> EmptyAfter(s, events, a)
  {
    hide Execute, Streams, RingEmpty;
    var before := events[..|events| - 1];
    if EmptyAfter(s, before, a) {
      var j :| a < j < |before| && RingEmpty(Execute(s, before[..j]).rx.ring);
      assert before[..j] == events[..j];
    }
  }

  lemma {:induction false} WriterSawFull(s: State, events: seq<Event>, a: nat)
    requires Streams(s) && WriteBegan(s, events, a)
    ensures CutShort(Execute(s, events).tx) ==> FullAfter(s, events, a)
  {
    hide Next, Streams, CutShort, FullAfter, WriteBegan, Enabled, Execute, RingFull;
    WriteBeganEarlier(s, events, a);
    var before, e := events[..|events| - 1], events[|events| - 1];
    ExecuteStep(s, events);
    if a + 1 < |events| {
      WriterSawFull(s, before, a);
      if CutShort(Next(Execute(s, before), e).tx) {
        CutShortStep(Execute(s, before), e);
        FullLonger(s, events, a);
      }
    } else {
      FreshWrite(Execute(s, before), e);
    }
  }

  lemma {:induction false} ReaderSawEmpty(s: State, events: seq<Event>, a: nat)
    requires Streams(s) && ReadBegan(s, events, a)
    ensures RanOut(Execute(s, events).rx) ==> EmptyAfter(s, events, a)
  {
    hide Next, Streams, RanOut, EmptyAfter, ReadBegan, Enabled, Execute, RingEmpty;
    ReadBeganEarlier(s, events, a);
    var before, e := events[..|events| - 1], events[|events| - 1];
    ExecuteStep(s, events);
    if a + 1 < |events| {
      ReaderSawEmpty(s, before, a);
      if RanOut(Next(Execute(s, before), e).rx) {
        RanOutStep(Execute(s, before), e);
        EmptyLonger(s, events, a);
      }
    } else {
      FreshWrite(Execute(s, before), e);
    }
  }

  lemma FullMeans(s: State)
    requires Streams(s) && RingFull(s.tx.ring)
    ensures s.tx.ring.Used() == 2047
  {
    hide TxCopy, RxInv, Ring.Contents;
  }

  lemma EmptyMeans(s: State)
    requires Streams(s) && RingEmpty(s.rx.ring)
    ensures s.rx.ring.Used() == 0
  {
    hide TxInv, RxCopy, Ring.Contents;
  }

  /** A write that has returned took every byte, unless at some time after the call began all 2047 slots of the
      transmit ring were taken; and if it may block, the host had been inactive for the timeout besides. */
  lemma WriteTakesWhatFits(s: State, events: seq<Event>, a: nat)
    requires Initial(s) && Streams(s) && WriteBegan(s, events, a)
    ensures var t := Execute(s, events).tx;
            t.pc.WDone? && t.call.off < |t.call.bytes| ==>
              && (exists j :: a < j < |events| && Execute(s, events[..j]).tx.ring.Used() == 2047)
              && (t.call.nonblock || InactiveAfter(s, events, a))
  {
    WriterSawFull(s, events, a);
    BlockingWrite(s, events, a);
    hide Execute, Initial, InactiveAfter, WriteBegan, RingFull, Ring.Used, Streams;
    if FullAfter(s, events, a) {
      var j :| a < j < |events| && RingFull(Execute(s, events[..j]).tx.ring);
      FullMeans(Execute(s, events[..j]));
    }
  }

  /** A read that has returned brings as much as was asked for, unless at some time after the call began the receive
      ring was empty; and if it brings nothing and may block, the host had been inactive for the timeout besides. */
  lemma ReadTakesWhatIsThere(s: State, events: seq<Event>, a: nat)
    requires Initial(s) && Streams(s) && ReadBegan(s, events, a)
    ensures var x := Execute(s, events).rx;
            x.pc.RDone? && |x.call.got| < x.call.space ==>
              && (exists j :: a < j < |events| && Execute(s, events[..j]).rx.ring.Used() == 0)
              && (x.call.got != [] || x.call.nonblock || InactiveAfter(s, events, a))
  {
    ReaderSawEmpty(s, events, a);
    BlockingRead(s, events, a);
    hide Execute, Initial, InactiveAfter, ReadBegan, RingEmpty, Ring.Used, Streams;
    if EmptyAfter(s, events, a) {
      var j :| a < j < |events| && RingEmpty(Execute(s, events[..j]).rx.ring);
      EmptyMeans(Execute(s, events[..j]));
    }
  }
}
