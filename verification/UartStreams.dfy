/**
 No byte is lost, repeated, reordered or overwritten in either direction, wherever the
 interrupt routine, the timer and the host strike.
 */
module UartStreams {

  import opened UartRing
  import opened Uart

  // ----- Sequences -----------------------------------------------------------------------------

  /** A stream grows by `more`, which continues what the caller has given or been given. */
  lemma ExtendStream(stream: seq<Octet>, base: nat, bytes: seq<Octet>, done: nat, upto: nat)
    requires done <= upto <= |bytes| && base + done == |stream| && stream[base..] == bytes[..done]
    ensures base + upto == |stream + bytes[done..upto]|
    ensures (stream + bytes[done..upto])[base..] == bytes[..upto]
  {
    assert bytes[..upto] == bytes[..done] + bytes[done..upto];
    assert (stream + bytes[done..upto])[base..] == stream[base..] + bytes[done..upto];
  }

  lemma ConcatAssoc(a: seq<Octet>, b: seq<Octet>, c: seq<Octet>)
    ensures (a + b) + c == a + (b + c)
  {}

  // ----- The transmit side ---------------------------------------------------------------------

  /** What is in the ring is what has been accepted and not sent, and the call in progress has had its first
      `off` bytes accepted. */
  predicate TxStream(tx: Ring, c: WriteCall, sent: seq<Octet>, accepted: seq<Octet>) {
    && tx.Valid()
    && sent + tx.Contents() == accepted
    && c.off <= |c.bytes|
    && c.base + c.off == |accepted|
    && accepted[c.base..] == c.bytes[..c.off]
  }

  /** `n` slots from `inn` are free and do not wrap, and the first `k` hold the caller's next bytes. */
  predicate TxRun(tx: Ring, c: WriteCall, n: nat, k: nat) {
    && tx.Valid() && c.off + n <= |c.bytes|
    && k <= n && 1 <= n <= tx.Free() && tx.inn + n <= LEN
    && tx.buf[tx.inn..tx.inn + k] == c.bytes[c.off..c.off + k]
  }

  predicate TxCopy(tx: Ring, w: WritePc, c: WriteCall) {
    match w
    case WReadOut => c.off < |c.bytes|
    case WCopy(n, k) => TxRun(tx, c, n, k)
    case WPublish(n) => TxRun(tx, c, n, n)
    case WDone(Count(n)) => n == c.off && n > 0
    case WDone(WouldBlock) => c.off == 0 && c.nonblock
    case WDone(IoError) => c.off == 0 && !c.nonblock
    case _ => true
  }

  predicate TxInv(t: TxSide) {
    TxStream(t.ring, t.call, t.sent, t.accepted) && TxCopy(t.ring, t.pc, t.call)
  }

  lemma WReadOutStep(tx: Ring, c: WriteCall)
    requires tx.Valid() && c.off < |c.bytes|
    ensures var run := WriteRun(tx.inn, tx.out);
            run > 0 ==> TxRun(tx, c.(out := tx.out), Capped(run, |c.bytes| - c.off), 0)
  {}

  lemma WCopyStep(tx: Ring, c: WriteCall, sent: seq<Octet>, accepted: seq<Octet>, n: nat, k: nat)
    requires TxStream(tx, c, sent, accepted) && TxRun(tx, c, n, k) && k < n
    ensures TxStream(tx.Store(tx.inn + k, c.bytes[c.off + k]), c, sent, accepted)
    ensures TxRun(tx.Store(tx.inn + k, c.bytes[c.off + k]), c, n, k + 1)
  {
    hide Ring.Contents, Ring.Free, Ring.Used;
    StoreFree(tx, k, c.bytes[c.off + k]);
    OneMoreCopied(tx.buf, tx.inn, c.bytes, c.off, k);
  }

  /** A copy of `k` bytes from `off` to `at`, one byte further. */
  lemma OneMoreCopied(buf: seq<Octet>, at: nat, bytes: seq<Octet>, off: nat, k: nat)
    requires at + k < |buf| && off + k < |bytes| && buf[at..at + k] == bytes[off..off + k]
    ensures buf[at + k := bytes[off + k]][at..at + k + 1] == bytes[off..off + k + 1]
  {
    var after := buf[at + k := bytes[off + k]];
    assert after[at..at + k] == buf[at..at + k];
    assert after[at..at + k + 1] == after[at..at + k] + [bytes[off + k]];
    assert bytes[off..off + k + 1] == bytes[off..off + k] + [bytes[off + k]];
  }

  lemma WPublishStep(tx: Ring, c: WriteCall, sent: seq<Octet>, accepted: seq<Octet>, n: nat)
    requires TxStream(tx, c, sent, accepted) && TxRun(tx, c, n, n)
    ensures TxStream(tx.AdvanceIn(n), c.(off := c.off + n, moved := true), sent, accepted + c.bytes[c.off..c.off + n])
  {
    Publish(tx, n);
    hide Ring.Contents, Ring.Used, Ring.Free, Ring.AdvanceIn;
    ExtendStream(accepted, c.base, c.bytes, c.off, c.off + n);
    ConcatAssoc(sent, tx.Contents(), c.bytes[c.off..c.off + n]);
  }

  /** A store or an advance by the consumer leaves a free run free. */
  lemma DrainKeepsCopy(tx: Ring, w: WritePc, c: WriteCall)
    requires tx.Valid() && TxCopy(tx, w, c) && tx.out != tx.inn
    ensures TxCopy(tx.AdvanceOut(1), w, c)
  {
    Consume(tx, 1);
    hide Ring.Contents;
  }

  lemma TxDrainStep(tx: Ring, w: WritePc, c: WriteCall, sent: seq<Octet>, accepted: seq<Octet>)
    requires TxStream(tx, c, sent, accepted) && TxCopy(tx, w, c) && tx.out != tx.inn
    ensures TxStream(tx.AdvanceOut(1), c, sent + [tx.buf[tx.out]], accepted) && TxCopy(tx.AdvanceOut(1), w, c)
  {
    DrainKeepsCopy(tx, w, c);
    Consume(tx, 1);
    var rest := tx.AdvanceOut(1).Contents();
    assert tx.buf[tx.out..tx.out + 1] == [tx.buf[tx.out]];
    hide Ring.Contents, Ring.AdvanceOut, TxCopy;
    ConcatAssoc(sent, [tx.buf[tx.out]], rest);
  }

  // ----- The receive side ----------------------------------------------------------------------

  /** What is in the ring is what has been taken from the device and not returned, and the call in progress
      has been given the bytes it published. */
  predicate RxStream(rx: Ring, c: ReadCall, taken: seq<Octet>, returned: seq<Octet>) {
    && rx.Valid()
    && returned + rx.Contents() == taken
    && c.published <= |c.got| <= c.space
    && c.base + c.published == |returned|
    && returned[c.base..] == c.got[..c.published]
  }

  /** `n` slots from `out` are unread and do not wrap, and the first `k` have been copied. */
  predicate RxRun(rx: Ring, c: ReadCall, n: nat, k: nat) {
    && rx.Valid() && c.published <= |c.got|
    && k <= n && 1 <= n <= rx.Used() && rx.out + n <= LEN
    && c.published + n <= c.space
    && c.got[c.published..] == rx.buf[rx.out..rx.out + k]
  }

  /** Slots from `out` up to `inn`, going round. */
  function Ahead(out: nat, inn: nat): int {
    if out <= inn then inn - out else LEN - out + inn
  }

  predicate RxCopy(rx: Ring, r: ReadPc, c: ReadCall)
    requires rx.Valid()
  {
    match r
    case RReadIn => c.published == |c.got| < c.space
    case RReadOut => c.published == |c.got| < c.space && c.inn < LEN && Ahead(rx.out, c.inn) <= rx.Used()
    case RCopy(n, k) => RxRun(rx, c, n, k)
    case RPublish(n) => RxRun(rx, c, n, n)
    case RDone(Count(n)) => n == |c.got| > 0 && c.published == |c.got|
    case RDone(WouldBlock) => c.got == [] && c.nonblock
    case RDone(IoError) => c.got == [] && !c.nonblock
    case RSetVar => c.published == |c.got| > 0
    case RSetHw => c.published == |c.got| > 0
    case RUnlock => c.published == |c.got| > 0
    case _ => c.published == |c.got|
  }

  predicate RxInv(x: RxSide) {
    RxStream(x.ring, x.call, x.taken, x.returned) && RxCopy(x.ring, x.pc, x.call)
  }

  lemma RReadOutStep(rx: Ring, c: ReadCall)
    requires rx.Valid() && RxCopy(rx, RReadOut, c)
    ensures var run := ReadRun(c.inn, rx.out);
            run > 0 ==> RxRun(rx, c, Capped(run, c.space - |c.got|), 0)
  {}

  lemma RCopyStep(rx: Ring, c: ReadCall, taken: seq<Octet>, returned: seq<Octet>, n: nat, k: nat)
    requires RxStream(rx, c, taken, returned) && RxRun(rx, c, n, k) && k < n
    ensures var c' := c.(got := c.got + [rx.buf[rx.out + k]]);
            RxStream(rx, c', taken, returned) && RxRun(rx, c', n, k + 1)
  {
    hide Ring.Contents, Ring.Used;
    var c' := c.(got := c.got + [rx.buf[rx.out + k]]);
    assert c'.got[c.published..] == c.got[c.published..] + [rx.buf[rx.out + k]];
    assert rx.buf[rx.out..rx.out + k + 1] == rx.buf[rx.out..rx.out + k] + [rx.buf[rx.out + k]];
    assert c'.got[..c.published] == c.got[..c.published];
    assert |c.got[c.published..]| == k;
  }

  lemma RPublishStep(rx: Ring, c: ReadCall, taken: seq<Octet>, returned: seq<Octet>, n: nat)
    requires RxStream(rx, c, taken, returned) && RxRun(rx, c, n, n)
    ensures RxStream(rx.AdvanceOut(n), c.(published := |c.got|), taken, returned + c.got[c.published..])
  {
    Consume(rx, n);
    var rest := rx.AdvanceOut(n).Contents();
    assert rx.Contents() == c.got[c.published..] + rest;
    assert c.got[c.published..|c.got|] == c.got[c.published..];
    hide Ring.Contents, Ring.Used, Ring.Free, Ring.AdvanceOut, RxRun;
    ExtendStream(returned, c.base, c.got, c.published, |c.got|);
    ConcatAssoc(returned, c.got[c.published..], rest);
  }

  /** The interrupt routine puts a byte in while the reader is anywhere in its loop. */
  lemma RxFillStep(rx: Ring, r: ReadPc, c: ReadCall, taken: seq<Octet>, returned: seq<Octet>, b: Octet)
    requires RxStream(rx, c, taken, returned) && RxCopy(rx, r, c) && (rx.inn + 1) % LEN != rx.out
    ensures var rx' := rx.Store(rx.inn, b).AdvanceIn(1);
            RxStream(rx', c, taken + [b], returned) && RxCopy(rx', r, c)
  {
    var mid := rx.Store(rx.inn, b);
    StoreFree(rx, 0, b);
    Publish(mid, 1);
    var rx' := mid.AdvanceIn(1);
    assert mid.buf[rx.inn..rx.inn + 1] == [b];
    assert rx'.Contents() == rx.Contents() + [b];
    FillKeepsCopy(rx, r, c, b);
    hide Ring.Contents, RxCopy;
  }

  lemma FillKeepsCopy(rx: Ring, r: ReadPc, c: ReadCall, b: Octet)
    requires rx.Valid() && RxCopy(rx, r, c) && (rx.inn + 1) % LEN != rx.out
    ensures var rx' := rx.Store(rx.inn, b).AdvanceIn(1);
            rx'.Valid() && RxCopy(rx', r, c)
  {
    hide RxRun;
    var rx' := rx.Store(rx.inn, b).AdvanceIn(1);
    assert rx'.Used() == rx.Used() + 1;
    if r.RCopy? {
      FillKeepsRun(rx, c, r.n, r.k, b);
    } else if r.RPublish? {
      FillKeepsRun(rx, c, r.n, r.n, b);
    }
  }

  lemma FillKeepsRun(rx: Ring, c: ReadCall, n: nat, k: nat, b: Octet)
    requires RxRun(rx, c, n, k) && (rx.inn + 1) % LEN != rx.out
    ensures RxRun(rx.Store(rx.inn, b).AdvanceIn(1), c, n, k)
  {
    var rx' := rx.Store(rx.inn, b).AdvanceIn(1);
    assert rx'.buf[rx.out..rx.out + k] == rx.buf[rx.out..rx.out + k];
  }

  // ----- The writer's and reader's own steps ------------------------------------------------------

  lemma WCopyCase(t: TxSide, n: nat, k: nat, inactive: bool)
    requires TxInv(t) && t.pc == WCopy(n, k)
    ensures TxInv(WriterNext(t, inactive))
  {
    var c := t.call;
    hide TxStream, Ring.Contents, Ring.Free, Ring.Store;
    assert t.ring.Valid() && c.off + n <= |c.bytes| && t.ring.inn + n <= LEN && k <= n;
    hide TxRun;
    if k < n {
      WCopyStep(t.ring, c, t.sent, t.accepted, n, k);
    }
  }

  lemma WPublishCase(t: TxSide, n: nat, inactive: bool)
    requires TxInv(t) && t.pc == WPublish(n)
    ensures TxInv(WriterNext(t, inactive))
  {
    hide TxStream, Ring.AdvanceIn, Ring.Contents, Ring.Free;
    var c := t.call;
    var grown := t.accepted + c.bytes[c.off..c.off + n];
    assert WriterNext(t, inactive)
        == TxSide(t.ring.AdvanceIn(n), WTop, c.(off := c.off + n, moved := true), grown, t.sent);
    hide WriterNext, TxRun;
    WPublishStep(t.ring, c, t.sent, t.accepted, n);
  }

  lemma WReadOutCase(t: TxSide, inactive: bool)
    requires TxInv(t) && t.pc == WReadOut
    ensures TxInv(WriterNext(t, inactive))
  {
    WReadOutStep(t.ring, t.call);
    hide TxRun, Ring.Contents, WriteRun, Capped;
  }

  lemma WOtherCase(t: TxSide, inactive: bool)
    requires TxInv(t) && t.pc != WReadOut && !t.pc.WCopy? && !t.pc.WPublish?
    ensures TxInv(WriterNext(t, inactive))
  {
    hide TxRun, Ring.Contents;
  }

  lemma WriterTxStep(t: TxSide, inactive: bool)
    requires TxInv(t)
    ensures TxInv(WriterNext(t, inactive))
  {
    hide *;
    match t.pc
    case WReadOut => WReadOutCase(t, inactive);
    case WCopy(n, k) => WCopyCase(t, n, k, inactive);
    case WPublish(n) => WPublishCase(t, n, inactive);
    case _ => WOtherCase(t, inactive);
  }

  lemma RCopyCase(x: RxSide, n: nat, k: nat, inactive: bool)
    requires RxInv(x) && x.pc == RCopy(n, k)
    ensures RxInv(ReaderNext(x, inactive))
  {
    assert x.ring.Valid() && x.ring.out + n <= LEN && k <= n;
    hide Ring.Contents, Ring.Used;
    if k < n {
      RCopyStep(x.ring, x.call, x.taken, x.returned, n, k);
    }
    hide RxRun, RxStream;
  }

  lemma RPublishCase(x: RxSide, n: nat, inactive: bool)
    requires RxInv(x) && x.pc == RPublish(n)
    ensures RxInv(ReaderNext(x, inactive))
  {
    assert x.call.published <= |x.call.got| <= x.call.space;
    hide RxRun, Ring.AdvanceOut, Ring.Contents;
    RPublishStep(x.ring, x.call, x.taken, x.returned, n);
  }

  lemma RReadOutCase(x: RxSide, inactive: bool)
    requires RxInv(x) && x.pc == RReadOut
    ensures RxInv(ReaderNext(x, inactive))
  {
    RReadOutStep(x.ring, x.call);
    hide RxRun, Ring.Contents, ReadRun, Capped, Ring.Used;
  }

  lemma ROtherCase(x: RxSide, inactive: bool)
    requires RxInv(x) && x.pc != RReadOut && !x.pc.RCopy? && !x.pc.RPublish?
    ensures RxInv(ReaderNext(x, inactive))
  {
    hide RxRun, Ring.Contents;
  }

  lemma ReaderRxStep(x: RxSide, inactive: bool)
    requires RxInv(x)
    ensures RxInv(ReaderNext(x, inactive))
  {
    hide *;
    match x.pc
    case RReadOut => RReadOutCase(x, inactive);
    case RCopy(n, k) => RCopyCase(x, n, k, inactive);
    case RPublish(n) => RPublishCase(x, n, inactive);
    case _ => ROtherCase(x, inactive);
  }

  // ----- Every run ------------------------------------------------------------------------------------

  predicate Streams(s: State) {
    TxInv(s.tx) && RxInv(s.rx)
  }

  lemma IsrStreamsStep(s: State, ri: bool, wi: bool)
    requires Streams(s)
    ensures Streams(IsrNext(s, ri, wi))
  {
    if s.isr.TxLoop? && s.tx.ring.out != s.tx.ring.inn {
      TxDrainStep(s.tx.ring, s.tx.pc, s.tx.call, s.tx.sent, s.tx.accepted);
    }
    if s.isr.RxLoop? && !RingFull(s.rx.ring) && s.rxFifo != [] {
      RxFillStep(s.rx.ring, s.rx.pc, s.rx.call, s.rx.taken, s.rx.returned, s.rxFifo[0]);
    }
    hide TxStream, TxCopy, RxStream, RxCopy, Ring.AdvanceOut, Ring.AdvanceIn, Ring.Store;
  }

  lemma StreamsStep(s: State, e: Event)
    requires Streams(s)
    ensures Streams(Next(s, e))
  {
    match e
    case WriterStep =>
      WriterTxStep(s.tx, Inactive(s));
      hide TxInv, RxInv, WriterNext;
    case ReaderStep =>
      ReaderRxStep(s.rx, Inactive(s));
      hide TxInv, RxInv, ReaderNext;
    case IsrStep(ri, wi) =>
      IsrStreamsStep(s, ri, wi);
      hide Streams, IsrNext;
    case Write(bytes, nonblock) =>
      hide RxInv, Ring.Contents;
    case Read(space, nonblock) =>
      hide TxInv, Ring.Contents;
    case _ =>
      hide TxInv, RxInv;
  }

  /** The state after the given events. */
  function Execute(s: State, events: seq<Event>): (t: State)
    requires Streams(s)
    ensures Streams(t)
  {
    if |events| == 0 then s
    else
      var before := Execute(s, events[..|events| - 1]);
      StreamsStep(before, events[|events| - 1]);
      Next(before, events[|events| - 1])
  }

  lemma InitialStreams(s: State)
    requires Initial(s)
    ensures Streams(s)
  {}

  /** In every run, whatever is interleaved: the bytes sent to the device followed by those in the ring are
      the bytes accepted; and a call that has returned accepted exactly the prefix it reports, or nothing, and
      then its error is that of its mode. */
  lemma TransmitStream(s: State, events: seq<Event>)
    requires Initial(s)
    ensures Streams(s)
    ensures var t := Execute(s, events).tx;
            && t.sent + t.ring.Contents() == t.accepted
            && (t.pc.WDone? ==> match t.pc.result
                                case Count(n) => n > 0 && t.accepted[t.call.base..] == t.call.bytes[..n]
                                case WouldBlock => t.call.nonblock && t.accepted[t.call.base..] == []
                                case IoError => !t.call.nonblock && t.accepted[t.call.base..] == [])
  {
    InitialStreams(s);
    var t := Execute(s, events).tx;
    assert TxInv(t);
    hide Execute, Ring.Contents, TxRun;
  }

  /** In every run: the bytes returned to readers followed by those in the ring are the bytes taken from the
      device, so no unread byte is ever overwritten; and a call that has returned was given the bytes it counts, or
      nothing, and then its error is that of its mode. */
  lemma ReceiveStream(s: State, events: seq<Event>)
    requires Initial(s)
    ensures Streams(s)
    ensures var x := Execute(s, events).rx;
            && x.returned + x.ring.Contents() == x.taken
            && (x.pc.RDone? ==> x.returned[x.call.base..] == x.call.got && match x.pc.result
                                case Count(n) => n > 0 && |x.call.got| == n
                                case WouldBlock => x.call.nonblock && x.call.got == []
                                case IoError => !x.call.nonblock && x.call.got == [])
  {
    InitialStreams(s);
    var x := Execute(s, events).rx;
    assert RxInv(x);
    hide Execute, Ring.Contents, RxRun;
  }

  // ----- From end to end ------------------------------------------------------------------------------

  /** Everything the host has sent. */
  function HostBytes(events: seq<Event>): seq<Octet> {
    if |events| == 0 then []
    else
      var e := events[|events| - 1];
      HostBytes(events[..|events| - 1]) + (if e.HostSends? then [e.b] else [])
  }

  lemma IsrDeviceStep(s: State, ri: bool, wi: bool)
    requires RingsValid(s)
    ensures var t := IsrNext(s, ri, wi);
            && t.rx.taken + t.rxFifo == s.rx.taken + s.rxFifo
            && t.tx.accepted == s.tx.accepted && s.tx.sent <= t.tx.sent
            && t.rx.returned == s.rx.returned && s.rx.taken <= t.rx.taken
  {
    hide Ring.AdvanceIn, Ring.AdvanceOut, Ring.Store, RingFull, Space;
    if s.rxFifo != [] {
      assert s.rxFifo == [s.rxFifo[0]] + s.rxFifo[1..];
      ConcatAssoc(s.rx.taken, [s.rxFifo[0]], s.rxFifo[1..]);
    }
  }

  lemma WriterHistory(t: TxSide, inactive: bool)
    ensures t.accepted <= WriterNext(t, inactive).accepted && WriterNext(t, inactive).sent == t.sent
  {
    hide Ring.AdvanceIn, Ring.Store, Ring.Valid;
  }

  lemma ReaderHistory(x: RxSide, inactive: bool)
    ensures x.returned <= ReaderNext(x, inactive).returned && ReaderNext(x, inactive).taken == x.taken
  {
    hide Ring.AdvanceOut;
  }

  /** One event: the device stream grows only by what the host sends, and no history is ever taken back. */
  lemma DeviceStreamStep(s: State, e: Event)
    requires RingsValid(s)
    ensures Next(s, e).rx.taken + Next(s, e).rxFifo
         == s.rx.taken + s.rxFifo + (if e.HostSends? then [e.b] else [])
    ensures s.tx.accepted <= Next(s, e).tx.accepted && s.tx.sent <= Next(s, e).tx.sent
    ensures s.rx.returned <= Next(s, e).rx.returned && s.rx.taken <= Next(s, e).rx.taken
  {
    WriterHistory(s.tx, Inactive(s));
    ReaderHistory(s.rx, Inactive(s));
    if e.IsrStep? {
      IsrDeviceStep(s, e.ri, e.wi);
    }
    hide WriterNext, ReaderNext, IsrNext;
  }

  /** What readers have been given, what waits in the ring and what waits in the device are together exactly
      what the host has sent since the driver started on an empty device, in order. */
  lemma {:induction false} HostToReader(s: State, events: seq<Event>)
    requires Initial(s) && s.rxFifo == []
    ensures Streams(s)
    ensures var t := Execute(s, events);
            t.rx.returned + t.rx.ring.Contents() + t.rxFifo == HostBytes(events)
  {
    InitialStreams(s);
    DeviceStream(s, events);
    ReceiveStream(s, events);
    hide Execute, HostBytes;
  }

  lemma {:induction false} DeviceStream(s: State, events: seq<Event>)
    requires Streams(s) && s.rx.taken == s.rxFifo == []
    ensures Execute(s, events).rx.taken + Execute(s, events).rxFifo == HostBytes(events)
  {
    if |events| > 0 {
      DeviceStream(s, events[..|events| - 1]);
      DeviceStreamStep(Execute(s, events[..|events| - 1]), events[|events| - 1]);
      hide Next, Streams;
    }
  }
}
