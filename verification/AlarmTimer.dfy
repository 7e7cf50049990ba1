/**
 The 32-bit arithmetic of the alarm service: a due time modulo 2^32 and a one-bit rollover
 flag, against a tick count that never wraps.
 */
module AlarmTimer {
  import opened Hal

  /** The `time` and `rollover` fields of an alarm. */
  datatype Timer = Timer(time: U32, rollover: bool)

  /** alt_alarm_start: due `nticks` + 1 ticks after `now`. */
  function Started(nticks: U32, now: U32): Timer {
    var time := (nticks + now + 1) % M;
    Timer(time, time < now)
  }

  /** alt_tick, before the test: the flag is cleared when the counter comes round to zero. */
  function Ticked(t: Timer, now: U32): Timer {
    t.(rollover := t.rollover && now != 0)
  }

  predicate Expired(t: Timer, now: U32) {
    t.time <= now && !t.rollover
  }

  /** alt_tick, after a callback that returned `period`. */
  function Rearmed(t: Timer, period: U32, now: U32): Timer {
    var time := (t.time + period) % M;
    Timer(time, t.rollover || time < now)
  }

  // ----- Against an unbounded tick count ---------------------------------------------------

  /** When an alarm is to fire next. One that was started with the largest number of ticks is `behind`: it fires
      on the very next tick, and its time field then lies one tick in the past. */
  datatype Due = Due(tick: nat, behind: bool)

  /** alt_alarm_start after tick number `tick`. */
  function StartedDue(nticks: U32, tick: nat): Due {
    if nticks <= M - 2 then Due(tick + nticks + 1, false)
    else if tick % M == M - 1 then Due(tick + M, false)
    else Due(tick + 1, true)
  }

  /** alt_tick number `tick`, after a callback that returned `period`: an alarm that is behind loses one tick, and
      one more turn of the counter if that leaves none and the counter is about to wrap. */
  function NextDue(d: Due, period: U32, tick: nat): Due {
    if !d.behind then Due(tick + period, false)
    else if period >= 2 then Due(tick + period - 1, false)
    else if tick % M == M - 1 then Due(tick + M, false)
    else Due(tick + 1, true)
  }

  /** The timer, as it is after tick number `tick`, stands for the due tick. */
  predicate StandsFor(t: Timer, d: Due, tick: nat) {
    if d.behind then
      d.tick == tick + 1 && t == Timer(tick % M, false) && tick % M != M - 1
    else if d.tick == tick + M then
      t == Timer(M - 1, false) && tick % M == M - 1
    else
      && tick < d.tick < tick + M
      && t.time == d.tick % M
      && t.rollover == (d.tick / M > tick / M)
  }

  /** The timer of an alarm that fires on tick number `tick`. */
  predicate FiresOn(t: Timer, d: Due, tick: nat) {
    && d.tick == tick && !t.rollover
    && (d.behind ==> tick % M != 0)
    && t.time == if d.behind then tick % M - 1 else tick % M
  }

  lemma StartStandsFor(nticks: U32, tick: nat)
    ensures StandsFor(Started(nticks, tick % M), StartedDue(nticks, tick), tick)
  {
    if nticks == M - 1 {
      LongestStarted(tick);
    }
  }

  lemma LongestStarted(tick: nat)
    ensures Started(M - 1, tick % M) == Timer(tick % M, false)
  {}

  /** A timer expires on the tick it stands for and on no earlier one. */
  lemma ExpiresWhenDue(t: Timer, d: Due, tick: nat)
    requires StandsFor(t, d, tick)
    ensures Expired(Ticked(t, (tick + 1) % M), (tick + 1) % M) <==> d.tick == tick + 1
    ensures d.tick == tick + 1 ==> FiresOn(Ticked(t, (tick + 1) % M), d, tick + 1)
    ensures d.tick != tick + 1 ==> StandsFor(Ticked(t, (tick + 1) % M), d, tick + 1)
  {
    if d.behind {
      NextResidue(tick);
    }
  }

  lemma NextResidue(tick: nat)
    ensures tick % M != M - 1 ==> (tick + 1) % M == tick % M + 1
  {}

  /** An expired timer that is rearmed stands for the next due tick. */
  lemma RearmStandsFor(t: Timer, d: Due, period: U32, tick: nat)
    requires FiresOn(t, d, tick) && period > 0
    ensures StandsFor(Rearmed(t, period, tick % M), NextDue(d, period, tick), tick)
  {
    if d.behind {
      RearmBehind(t, period, tick);
    } else {
      RearmInTime(t, period, tick);
    }
  }

  lemma RearmInTime(t: Timer, period: U32, tick: nat)
    requires t == Timer(tick % M, false) && period > 0
    ensures StandsFor(Rearmed(t, period, tick % M), Due(tick + period, false), tick)
  {}

  lemma RearmBehind(t: Timer, period: U32, tick: nat)
    requires tick % M != 0 && t == Timer(tick % M - 1, false) && period > 0
    ensures StandsFor(Rearmed(t, period, tick % M), NextDue(Due(tick, true), period, tick), tick)
  {
    if period == 1 {
      assert Rearmed(t, period, tick % M) == Timer(tick % M, false);
    } else {
      assert Rearmed(t, period, tick % M) == Rearmed(Timer(tick % M, false), period - 1, tick % M) by {
        assert t.time + period == tick % M + (period - 1);
      }
      RearmInTime(Timer(tick % M, false), period - 1, tick);
    }
  }

  /** Starting after tick `tick`, the timer expires for the first time on the `k`th tick. */
  predicate FirstExpires(t: Timer, tick: nat, k: nat)
    requires k >= 1
    decreases k
  {
    var now := (tick + 1) % M;
    var t' := Ticked(t, now);
    if k == 1 then Expired(t', now) else !Expired(t', now) && FirstExpires(t', tick + 1, k - 1)
  }

  lemma {:induction false} FirstExpiresWhenDue(t: Timer, d: Due, tick: nat)
    requires StandsFor(t, d, tick)
    ensures d.tick > tick && FirstExpires(t, tick, d.tick - tick)
    decreases if d.tick > tick then d.tick - tick else 0
  {
    ExpiresWhenDue(t, d, tick);
    if d.tick != tick + 1 {
      FirstExpiresWhenDue(Ticked(t, (tick + 1) % M), d, tick + 1);
    }
  }

  lemma OnlyFirst(t: Timer, tick: nat, k: nat)
    requires FirstExpires(t, tick, 1) && k >= 1
    ensures FirstExpires(t, tick, k) <==> k == 1
  {}

  /** The failing case: with 2^32 - 1 ticks the alarm fires on the very next tick, so not on its own. */
  lemma LongestFiresAtOnce(tick: nat, k: nat)
    requires tick % M != M - 1 && k >= 1
    ensures FirstExpires(Started(M - 1, tick % M), tick, k) <==> k == 1
  {
    StartStandsFor(M - 1, tick);
    FirstExpiresWhenDue(Started(M - 1, tick % M), Due(tick + 1, true), tick);
    OnlyFirst(Started(M - 1, tick % M), tick, k);
  }

  /** An alarm started with `nticks` fires for the first time exactly `nticks` + 1 ticks later, across any
      number of wraps, except that the largest value fires at once unless the counter is about to wrap. */
  lemma StartExact(nticks: U32, tick: nat)
    ensures FirstExpires(Started(nticks, tick % M), tick, nticks + 1)
       <==> nticks <= M - 2 || tick % M == M - 1
  {
    hide FirstExpires, Started;
    StartStandsFor(nticks, tick);
    if nticks <= M - 2 || tick % M == M - 1 {
      FirstExpiresWhenDue(Started(nticks, tick % M), StartedDue(nticks, tick), tick);
    } else {
      LongestFiresAtOnce(tick, nticks + 1);
    }
  }

  /** After a callback that returned a nonzero period the next expiry is exactly that many ticks later. */
  lemma PeriodExact(t: Timer, period: U32, tick: nat)
    requires FiresOn(t, Due(tick, false), tick) && period > 0
    ensures FirstExpires(Rearmed(t, period, tick % M), tick, period)
  {
    RearmStandsFor(t, Due(tick, false), period, tick);
    FirstExpiresWhenDue(Rearmed(t, period, tick % M), Due(tick + period, false), tick);
  }
}
