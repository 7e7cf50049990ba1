/**
 settimeofday() and gettimeofday(): wall clock time kept as an offset to the 32-bit tick counter.
 */
module TimeOfDay {
  import opened Hal

  const US: int := 1_000_000

  datatype Time = Time(sec: I32, usec: I32)

  /** Conversion to a signed 32-bit integer. */
  function Signed(x: int): I32 {
    if x % M < 0x8000_0000 then x % M else x % M - M
  }

  function Micros(t: Time): int {
    t.sec * US + t.usec
  }

  /** The microseconds of `n` ticks at rate `r`. */
  function Span(n: U32, r: U32): int
    requires r > 0
  {
    n * (US / r)
  }

  function Seconds(n: U32, r: U32): int
    requires r > 0
  {
    n / r
  }

  /** alt_settod: the offset, with the product of ticks and tick length cut to 32 bits. */
  function Offset(t: Time, n: U32, r: U32): Time
    requires r > 0
  {
    Time(Signed(t.sec - Seconds(n, r)), Signed(t.usec - (Span(n, r) % M) % US))
  }

  /** alt_gettod, before the loops: the product here has 64 bits. */
  function Raw(offset: Time, n: U32, r: U32): Time
    requires r > 0
  {
    Time(Signed(offset.sec + Seconds(n, r)), Signed(offset.usec + Span(n, r) % US))
  }

  /** What the loops of alt_gettod make of a time: microseconds brought into range, or zero for a time before zero
      whose microseconds are negative. */
  function Normal(t: Time): Time {
    if t.usec < 0 && Micros(t) < 0 then Time(0, 0)
    else if t.usec < 0 then Time(Micros(t) / US, Micros(t) % US)
    else Time(Signed(t.sec + t.usec / US), t.usec % US)
  }

  /** The microseconds that are lost when the product in alt_settod does not fit 32 bits. */
  function Lost(n: U32, r: U32): int
    requires r > 0
  {
    Span(n, r) % US - (Span(n, r) % M) % US
  }

  // ----- Set, then get ---------------------------------------------------------------------------

  lemma SmallSigned(x: int)
    requires -0x8000_0000 <= x < 0x8000_0000
    ensures Signed(x) == x
  {}

  lemma SignedSum(x: int, y: int)
    ensures Signed(Signed(x) + y) == Signed(x + y)
  {}

  /** Whole seconds and microseconds of `n` ticks add up when the rate divides a million. */
  lemma TicksAddUp(n: U32, r: U32)
    requires r > 0 && US % r == 0
    ensures Seconds(n, r) * US + Span(n, r) % US == Span(n, r)
  {
    var q, a, b := US / r, n / r, n % r;
    assert q > 0 && r * q == US && n == r * a + b;
    Distributed(r, q, a, b);
    Products(q, b, r - 1);
    Remainder(a, b * q);
  }

  lemma Distributed(r: int, q: int, a: int, b: int)
    requires r * q == US
    ensures (r * a + b) * q == a * US + b * q && (r - 1) * q == US - q
  {
    assert (r * a) * q == a * (r * q);
  }

  lemma Remainder(a: int, c: int)
    requires 0 <= c < US
    ensures (a * US + c) % US == c
  {}

  lemma Products(q: int, m: int, n: int)
    requires q >= 0 && 0 <= m <= n
    ensures n * q - m * q == (n - m) * q
    ensures 0 <= m * q <= n * q
  {
    assert (n - m) * q >= 0;
  }

  lemma Smaller(r: int, a: int, c: int)
    requires r > 0
    ensures r * a < r * c ==> a < c
  {
    if a >= c {
      assert r * (a - c) >= 0;
    }
  }

  lemma Quotients(m: int, n: int, r: int)
    requires r > 0 && m <= n
    ensures m / r <= n / r
  {
    Smaller(r, m / r, n / r + 1);
  }

  lemma SpanDifference(n: U32, n': U32, r: U32)
    requires r > 0 && n <= n'
    ensures Span(n', r) - Span(n, r) == Span(n' - n, r) >= 0 && Span(n, r) >= 0
    ensures Seconds(n, r) <= Seconds(n', r)
  {
    var q := US / r;
    Products(q, n, n');
    Products(q, 0, n' - n);
    Quotients(n, n', r);
  }

  /** What gettimeofday() works from: the time that was set, the ticks since, and what was lost. */
  lemma RawMicros(t: Time, n: U32, n': U32, r: U32)
    requires r > 0 && US % r == 0 && 0 <= t.sec && 0 <= t.usec < US && n <= n'
    requires t.sec + Seconds(n', r) - Seconds(n, r) < 0x7FFF_FFFF
    ensures (
      var raw := Raw(Offset(t, n, r), n', r);
      && 0 <= raw.sec < 0x7FFF_FFFF && -US < raw.usec < 2 * US
      && Micros(raw) == Micros(t) + Span(n' - n, r) + Lost(n, r))
  {
    SpanDifference(n, n', r);
    TicksAddUp(n, r);
    TicksAddUp(n', r);
    var a, b := Seconds(n, r), Seconds(n', r);
    var x, y := (Span(n, r) % M) % US, Span(n', r) % US;
    SignedSum(t.sec - a, b);
    SmallSigned(t.usec - x);
    SmallSigned(t.usec - x + y);
    SmallSigned(t.sec - a + b);
    hide Span, Seconds, Signed;
  }

  /** For every set time and tick counts: a later get gives the set time, plus the ticks that have passed in
      microseconds, plus what the set lost, or zero where that is before zero; and the result is normalised. */
  lemma SetThenGet(t: Time, n: U32, n': U32, r: U32)
    requires r > 0 && US % r == 0 && 0 <= t.sec && 0 <= t.usec < US && n <= n'
    requires t.sec + Seconds(n', r) - Seconds(n, r) < 0x7FFF_FFFF
    ensures (
      var g, due := Normal(Raw(Offset(t, n, r), n', r)), Micros(t) + Span(n' - n, r) + Lost(n, r);
      && 0 <= g.usec < US && 0 <= g.sec && Micros(g) == if due < 0 then 0 else due)
  {
    SpanDifference(n, n', r);
    RawMicros(t, n, n', r);
    hide Span, Seconds;
    var raw := Raw(Offset(t, n, r), n', r);
    SmallSigned(raw.sec + raw.usec / US);
    hide Raw, Offset, Lost, Signed;
    if raw.usec >= US { assert raw.usec / US == 1; }
  }

  lemma NothingLost(n: U32, r: U32)
    requires r > 0 && 0 <= Span(n, r) < M
    ensures Lost(n, r) == 0
  {
    hide Span;
  }

  /** When the microseconds at the set fit 32 bits nothing is lost: a later get gives the time that was set plus the
      length of the ticks since, with microseconds in range, and the clamp to zero is never taken. */
  lemma ExactWhenFitting(t: Time, n: U32, n': U32, r: U32)
    requires r > 0 && US % r == 0 && 0 <= t.sec && 0 <= t.usec < US && n <= n'
    requires t.sec + n' / r - n / r < 0x7FFF_FFFF
    requires n * (1_000_000 / r) < 0x1_0000_0000
    ensures (
      var raw := Raw(Offset(t, n, r), n', r);
      var g := Normal(raw);
      && (raw.usec < 0 ==> raw.sec > 0) && 0 <= g.usec < 1_000_000
      && g.sec * 1_000_000 + g.usec == t.sec * 1_000_000 + t.usec + (n' - n) * (1_000_000 / r))
  {
    SpanDifference(n, n', r);
    RawMicros(t, n, n', r);
    SetThenGet(t, n, n', r);
    assert Lost(n, r) == 0 by { NothingLost(n, r); }
    assert Span(n' - n, r) == (n' - n) * (1_000_000 / r);
    hide Span, Seconds, Lost, Raw, Normal, Offset;
  }

  /** Before the first set the clock counts from reset: whole seconds, and the length of all ticks in all. */
  lemma CountsFromReset(n: U32, r: U32)
    requires r > 0 && US % r == 0 && n / r < 0x7FFF_FFFF
    ensures (
      var g := Normal(Raw(Time(0, 0), n, r));
      && g.sec == n / r && 0 <= g.usec < 1_000_000
      && g.sec * 1_000_000 + g.usec == n * (1_000_000 / r))
  {
    TicksAddUp(n, r);
    var x, s := Span(n, r), Seconds(n, r);
    assert x == n * (1_000_000 / r) && s == n / r;
    hide Span, Seconds;
    assert s >= 0;
    SmallSigned(s);
    SmallSigned(x % US);
    assert (x % US) / US == 0;
  }

  /** Exactly when the result is right: nothing was lost at the set, or the loss was clamped away at time zero. */
  lemma ExactIff(t: Time, n: U32, n': U32, r: U32)
    requires r > 0 && US % r == 0 && 0 <= t.sec && 0 <= t.usec < US && n <= n'
    requires t.sec + Seconds(n', r) - Seconds(n, r) < 0x7FFF_FFFF
    ensures Micros(Normal(Raw(Offset(t, n, r), n', r))) == Micros(t) + Span(n' - n, r)
       <==> Lost(n, r) == 0 || (Lost(n, r) < 0 && t == Time(0, 0) && n == n')
  {
    SetThenGet(t, n, n', r);
    SpanDifference(n, n', r);
    TickPasses(n' - n, r);
    hide Raw, Offset, Lost, Normal, Span, Seconds;
  }

  lemma TickPasses(n: U32, r: U32)
    requires r > 0 && US % r == 0
    ensures Span(n, r) == 0 <==> n == 0
  {
    var q := US / r;
    assert r * q == US;
    assert q > 0;
    if n > 0 { assert n * q >= q; }
  }

  /** A case that fails: at 1000 ticks a second, a time set 4294968 ticks after reset reads almost a second late. */
  lemma LateAfterAnHour()
    ensures Lost(4294968, 1000) == 967296
    ensures Micros(Normal(Raw(Offset(Time(100, 0), 4294968, 1000), 4294968, 1000))) == 100 * US + 967296
  {
    assert Span(4294968, 1000) == 4294968000 && Span(0, 1000) == 0;
    hide Span;
    assert Lost(4294968, 1000) == 967296;
    hide Lost, Normal, Raw, Offset;
    SetThenGet(Time(100, 0), 4294968, 4294968, 1000);
  }

  /** A second takes `r` ticks exactly when `r` divides a million, or is too fast for microseconds at all. */
  lemma OneSecond(r: U32)
    requires r > 0
    ensures Normal(Raw(Time(0, 0), r, r)) == Time(1, 0) <==> US % r == 0 || r > US
  {
    SpanOfSecond(r);
    var x := Span(r, r);
    hide Span, Seconds;
    SmallSigned(1);
    SmallSigned(x % US);
  }

  lemma SpanOfSecond(r: U32)
    requires r > 0
    ensures Seconds(r, r) == 1 && Span(r, r) == US - US % r
    ensures if r > US then Span(r, r) == 0 else Span(r, r) >= 1
  {
    DivMod(US, r);
    DivMod(r, r);
    Smaller(r, 0, US / r);
  }

  lemma DivMod(x: int, r: int)
    requires r > 0 && x >= 0
    ensures r * (x / r) == x - x % r
    ensures 0 <= x % r < r
    ensures x < r ==> x / r == 0
    ensures x == r ==> x / r == 1
  {}


  // ----- The clock -----------------------------------------------------------------------------

  class TimeVal {
    var sec: I32
    var usec: I32
    constructor (t: Time) ensures Value() == t { sec, usec := t.sec, t.usec; }
    function Value(): Time reads this { Time(sec, usec) }
  }

  class TimeZone {
    var minuteswest: I32
    var dsttime: I32
    constructor () { minuteswest, dsttime := 0, 0; }
  }

  class WallClock {
    var tickRate: U32          // _alt_tick_rate
    var nticks: U32            // _alt_nticks
    var errno: int
    const resettime: TimeVal   // alt_resettime
    const timezone: TimeZone   // alt_timezone

    constructor (rate: U32)
      ensures tickRate == rate && nticks == 0 && resettime.Value() == Time(0, 0)
      ensures fresh(resettime) && fresh(timezone)
    {
      tickRate, nticks, errno := rate, 0, 0;
      resettime := new TimeVal(Time(0, 0));
      timezone := new TimeZone();
    }

    /** alt_settod */
    method SetTimeOfDay(t: TimeVal, tz: TimeZone) returns (rc: int)
      modifies this`errno, resettime, timezone
      ensures tickRate == 0 ==> rc == -1 && errno == ENOSYS && resettime.Value() == old(resettime.Value())
      ensures tickRate == 0 ==>
        timezone.minuteswest == old(timezone.minuteswest) && timezone.dsttime == old(timezone.dsttime)
      ensures tickRate != 0 ==> rc == 0 && errno == old(errno)
      ensures tickRate != 0 ==> resettime.Value() == Offset(old(t.Value()), nticks, tickRate)
      ensures tickRate != 0 ==> timezone.minuteswest == old(tz.minuteswest) && timezone.dsttime == old(tz.dsttime)
    {
      if tickRate != 0 {
        resettime.sec := Signed(t.sec - nticks / tickRate);
        resettime.usec := Signed(t.usec - ((nticks * (US / tickRate)) % M) % US);
        timezone.minuteswest := tz.minuteswest;
        timezone.dsttime := tz.dsttime;
        return 0;
      }
      errno := ENOSYS;
      return -1;
    }

    /** alt_gettod */
    method GetTimeOfDay(tv: TimeVal, tz: TimeZone?) returns (rc: int)
      modifies tv, tz
      ensures tickRate == 0 ==> rc == -ENOTSUP && tv.Value() == old(tv.Value())
      ensures tickRate == 0 && tz != null ==> tz.minuteswest == old(tz.minuteswest) && tz.dsttime == old(tz.dsttime)
      ensures tickRate != 0 ==> rc == 0
      ensures tickRate != 0 ==> tv.Value() == Normal(Raw(old(resettime.Value()), nticks, tickRate))
      ensures tickRate != 0 && tz != null ==> tz.minuteswest == timezone.minuteswest && tz.dsttime == timezone.dsttime
    {
      if tickRate != 0 {
        ghost var raw := Raw(resettime.Value(), nticks, tickRate);
        tv.sec := Signed(resettime.sec + nticks / tickRate);
        tv.usec := Signed(resettime.usec + (nticks * (US / tickRate)) % US);
        assert tv.Value() == raw;
        hide Span, Seconds, Raw;
        Borrow(tv);
        LoopsMakeNormal(raw, tv.Value());
        hide Signed, Normal;
        Carry(tv);
        if tz != null {
          tz.minuteswest := timezone.minuteswest;
          tz.dsttime := timezone.dsttime;
        }
        return 0;
      }
      return -ENOTSUP;
    }

    /** The two loops together. */
    static lemma LoopsMakeNormal(t: Time, u: Time)
      requires t.usec >= 0 ==> u == t
      requires t.usec < 0 && Micros(t) < 0 ==> u == Time(0, 0)
      requires t.usec < 0 <= Micros(t) ==> 0 <= u.usec < US && Micros(u) == Micros(t)
      ensures u.usec >= 0 && Time(Signed(u.sec + u.usec / US), u.usec % US) == Normal(t)
    {
      if t.usec < 0 {
        SmallSigned(u.sec);
      }
    }

    /** The first loop of alt_gettod. */
    static method Borrow(tv: TimeVal)
      modifies tv
      ensures old(tv.usec) >= 0 ==> tv.Value() == old(tv.Value())
      ensures old(tv.usec) < 0 && Micros(old(tv.Value())) < 0 ==> tv.Value() == Time(0, 0)
      ensures old(tv.usec) < 0 <= Micros(old(tv.Value())) ==>
        0 <= tv.usec < US && Micros(tv.Value()) == Micros(old(tv.Value()))
    {
      ghost var t := tv.Value();
      while tv.usec < 0
        invariant t.usec >= 0 ==> tv.Value() == t
        invariant t.usec < 0 ==> tv.usec < US && Micros(tv.Value()) == Micros(t)
        invariant tv.usec >= 0 && t.usec < 0 ==> tv.sec >= 0
        decreases 0 - tv.usec
      {
        if tv.sec <= 0 {
          tv.sec := 0;
          tv.usec := 0;
          break;
        } else {
          tv.sec := tv.sec - 1;
          tv.usec := tv.usec + US;
        }
      }
    }

    /** The second loop of alt_gettod. */
    static method Carry(tv: TimeVal)
      requires tv.usec >= 0
      modifies tv
      ensures tv.Value() == Time(Signed(old(tv.sec) + old(tv.usec) / US), old(tv.usec) % US)
    {
      ghost var s := tv.Value();
      ghost var i := 0;
      SmallSigned(s.sec);
      hide Signed;
      while tv.usec >= US
        invariant i >= 0 && tv.usec == s.usec - i * US && tv.usec >= 0 && tv.sec == Signed(s.sec + i)
        decreases tv.usec
      {
        SignedSum(s.sec + i, 1);
        tv.sec := Signed(tv.sec + 1);
        tv.usec := tv.usec - US;
        i := i + 1;
      }
      assert i == s.usec / US;
    }
  }
}
