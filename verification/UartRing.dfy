/**
 The circular buffers of the JTAG UART driver: 2048 slots, one index moved by the producer
 and one by the consumer, one slot always left empty.
 */
module UartRing {

  const LEN: nat := 2048

  type Octet = n: nat | n < 256

  /** `out` is where the consumer reads next, `inn` where the producer writes next. */
  datatype Ring = Ring(buf: seq<Octet>, out: nat, inn: nat) {
    predicate Valid() {
      |buf| == LEN && out < LEN && inn < LEN
    }

    /** The unread bytes, oldest first. */
    function Contents(): seq<Octet>
      requires Valid()
    {
      if out <= inn then buf[out..inn] else buf[out..] + buf[..inn]
    }

    function Used(): nat
      requires Valid()
    {
      if out <= inn then inn - out else LEN - out + inn
    }

    function Free(): nat
      requires Valid()
    {
      LEN - 1 - Used()
    }

    function Store(slot: nat, b: Octet): Ring
      requires Valid() && slot < LEN
    {
      this.(buf := buf[slot := b])
    }

    function AdvanceIn(n: nat): Ring {
      this.(inn := (inn + n) % LEN)
    }

    function AdvanceOut(n: nat): Ring {
      this.(out := (out + n) % LEN)
    }
  }

  lemma UsedIsLength(r: Ring)
    requires r.Valid()
    ensures |r.Contents()| == r.Used() < LEN
    ensures r.out == r.inn <==> r.Contents() == []
  {}

  /** A store into a slot of the free run that starts at `inn` leaves the contents alone. */
  lemma StoreFree(r: Ring, k: nat, b: Octet)
    requires r.Valid() && r.inn + k < LEN && k < r.Free()
    ensures r.Store(r.inn + k, b).Valid()
    ensures r.Store(r.inn + k, b).Contents() == r.Contents()
    ensures r.Store(r.inn + k, b).Free() == r.Free()
  {}

  /** Moving `inn` over `n` free slots appends what they hold. */
  lemma Publish(r: Ring, n: nat)
    requires r.Valid() && r.inn + n <= LEN && n <= r.Free()
    ensures r.AdvanceIn(n).Valid()
    ensures r.AdvanceIn(n).Contents() == r.Contents() + r.buf[r.inn..r.inn + n]
    ensures r.AdvanceIn(n).Free() == r.Free() - n
  {
    var t := r.AdvanceIn(n);
    var added := r.buf[r.inn..r.inn + n];
    if r.inn + n == LEN {
      assert t.inn == 0 < r.out <= r.inn || n == 0;
      assert r.buf[r.out..] == r.buf[r.out..r.inn] + added;
    } else if r.out <= r.inn {
      assert r.buf[r.out..r.inn + n] == r.buf[r.out..r.inn] + added;
    } else {
      assert r.buf[..r.inn + n] == r.buf[..r.inn] + added;
    }
  }

  /** Moving `out` over `n` unread slots that do not wrap drops them from the front. */
  lemma Consume(r: Ring, n: nat)
    requires r.Valid() && r.out + n <= LEN && n <= r.Used()
    ensures r.AdvanceOut(n).Valid()
    ensures r.Contents() == r.buf[r.out..r.out + n] + r.AdvanceOut(n).Contents()
    ensures r.AdvanceOut(n).Used() == r.Used() - n
  {
    var t := r.AdvanceOut(n);
    var taken := r.buf[r.out..r.out + n];
    if r.out + n == LEN {
      assert t.out == 0;
      assert r.buf[r.out..] == taken;
    } else if r.out <= r.inn {
      assert r.buf[r.out..r.inn] == taken + r.buf[r.out + n..r.inn];
    } else {
      assert r.buf[r.out..] == taken + r.buf[r.out + n..];
    }
  }
}
