/**
 Runs of the alarm service: any sequence of ticks, starts and stops, seen from one alarm.
 */
module AlarmRuns {
  import opened Hal
  import opened AlarmTimer
  import opened LinkedList
  import opened AlarmSchedule

  datatype Event = Ticking(reply: Alarm -> Reply) | Starting(alarm: Alarm, nticks: U32) | Stopping(alarm: Alarm)

  function TickOf(tick: nat, ev: Event): nat {
    if ev.Ticking? then tick + 1 else tick
  }

  function After(es: seq<Entry>, tick: nat, ev: Event): seq<Entry> {
    match ev
    case Ticking(reply) => AfterTick(es, tick + 1, reply)
    case Starting(b, n) => [Entry(b, StartedDue(n, tick))] + es
    case Stopping(b) => Without(es, b)
  }

  /** Nobody starts or stops `a` during the run; it may still take itself off the list by returning zero. */
  ghost predicate LeftAlone(es: seq<Entry>, tick: nat, run: seq<Event>, a: Alarm)
    decreases |run|
  {
    run == [] || (
      && (match run[0]
          case Ticking(reply) => forall q <- Requests(es, tick + 1, reply) :: q.alarm != a
          case Starting(b, _) => b != a
          case Stopping(b) => b != a)
      && LeftAlone(After(es, tick, run[0]), TickOf(tick, run[0]), run[1..], a))
  }

  /** `t` once for every time `a` fires on that tick. */
  function Hits(fired: seq<Alarm>, a: Alarm, t: nat): seq<nat> {
    if fired == [] then [] else (if fired[0] == a then [t] else []) + Hits(fired[1..], a, t)
  }

  /** The ticks on which `a` fires in a run. */
  function Firings(es: seq<Entry>, tick: nat, run: seq<Event>, a: Alarm): seq<nat>
    decreases |run|
  {
    if run == [] then [] else
      (if run[0].Ticking? then Hits(Fired(es, tick + 1), a, tick + 1) else [])
      + Firings(After(es, tick, run[0]), TickOf(tick, run[0]), run[1..], a)
  }

  /** The period that the callback of `a` returns if it is called, tick by tick. */
  function Periods(run: seq<Event>, a: Alarm): seq<U32> {
    if run == [] then [] else
      (if run[0].Ticking? then [run[0].reply(a).period] else []) + Periods(run[1..], a)
  }

  /** An alarm by itself: fires when due, and is then due again as its period says. */
  function Countdown(d: Due, tick: nat, periods: seq<U32>): seq<nat>
    decreases |periods|
  {
    if periods == [] then [] else
    if d.tick == tick + 1 && periods[0] == 0 then [d.tick] else
    if d.tick == tick + 1 then [d.tick] + Countdown(NextDue(d, periods[0], d.tick), tick + 1, periods[1..])
    else Countdown(d, tick + 1, periods[1..])
  }

  // ----- One alarm among the others --------------------------------------------------------------

  /** When `a` is due, by the entries of a list. */
  function DuesOf(es: seq<Entry>, a: Alarm): seq<Due> {
    if es == [] then [] else (if es[0].alarm == a then [es[0].due] else []) + DuesOf(es[1..], a)
  }

  lemma {:induction false} DuesSplit(p: seq<Entry>, q: seq<Entry>, a: Alarm)
    ensures DuesOf(p + q, a) == DuesOf(p, a) + DuesOf(q, a)
  {
    if p == [] {
      assert p + q == q;
    } else {
      assert (p + q)[1..] == p[1..] + q && (p + q)[0] == p[0] && p + q != [];
      DuesSplit(p[1..], q, a);
    }
  }

  lemma {:induction false} NoDues(es: seq<Entry>, a: Alarm)
    ensures DuesOf(es, a) == [] <==> a !in Alarms(es)
  {
    if es != [] {
      AlarmsOfOne(es[0]);
      AlarmsOf([es[0]], es[1..]);
      assert es == [es[0]] + es[1..];
      NoDues(es[1..], a);
    }
  }

  lemma {:induction false} DuesWithout(es: seq<Entry>, b: Alarm, a: Alarm)
    requires a != b
    ensures DuesOf(Without(es, b), a) == DuesOf(es, a)
  {
    if es != [] {
      DuesWithout(es[1..], b, a);
      DuesSplit(if es[0].alarm == b then [] else [es[0]], Without(es[1..], b), a);
    }
  }

  lemma {:induction false} HitsSplit(p: seq<Alarm>, q: seq<Alarm>, a: Alarm, t: nat)
    ensures Hits(p + q, a, t) == Hits(p, a, t) + Hits(q, a, t)
  {
    if p == [] {
      assert p + q == q;
    } else {
      assert (p + q)[1..] == p[1..] + q && (p + q)[0] == p[0] && p + q != [];
      HitsSplit(p[1..], q, a, t);
    }
  }

  function HitOn(d: Due, t: nat): seq<nat> {
    if d.tick == t then [t] else []
  }

  function Renewed(d: Due, t: nat, period: U32): seq<Due> {
    if d.tick != t then [d] else if period == 0 then [] else [NextDue(d, period, t)]
  }

  lemma TickForEntry(e: Entry, t: nat, reply: Alarm -> Reply, a: Alarm)
    ensures Hits(Fires(e, t), a, t) == if e.alarm == a then HitOn(e.due, t) else []
    ensures DuesOf(Survivor(e, t, reply), a) == if e.alarm == a then Renewed(e.due, t, reply(a).period) else []
  {}

  lemma {:induction false} TickForOthers(es: seq<Entry>, t: nat, reply: Alarm -> Reply, a: Alarm)
    requires DuesOf(es, a) == []
    ensures Hits(Fired(es, t), a, t) == [] && DuesOf(Survivors(es, t, reply), a) == []
  {
    if es != [] {
      TickForOthers(es[1..], t, reply, a);
      TickForEntry(es[0], t, reply, a);
      HitsSplit(Fires(es[0], t), Fired(es[1..], t), a, t);
      DuesSplit(Survivor(es[0], t, reply), Survivors(es[1..], t, reply), a);
    }
  }

  /** On a tick, `a` fires if it is due, once, and keeps its place in the schedule unless it returns zero. */
  lemma {:induction false} TickForOne(es: seq<Entry>, t: nat, reply: Alarm -> Reply, a: Alarm, d: Due)
    requires DuesOf(es, a) == [d]
    ensures Hits(Fired(es, t), a, t) == HitOn(d, t)
    ensures DuesOf(Survivors(es, t, reply), a) == Renewed(d, t, reply(a).period)
  {
    TickForEntry(es[0], t, reply, a);
    HitsSplit(Fires(es[0], t), Fired(es[1..], t), a, t);
    DuesSplit(Survivor(es[0], t, reply), Survivors(es[1..], t, reply), a);
    hide HitOn, Renewed, Fires, Survivor, Hits;
    if es[0].alarm == a {
      assert DuesOf(es, a) == [es[0].due] + DuesOf(es[1..], a);
      assert es[0].due == DuesOf(es, a)[0] == d && DuesOf(es[1..], a) == [];
      assert HitOn(d, t) + [] == HitOn(d, t);
      assert Renewed(d, t, reply(a).period) + [] == Renewed(d, t, reply(a).period);
      TickForOthers(es[1..], t, reply, a);
    } else {
      TickForOne(es[1..], t, reply, a, d);
    }
  }

  lemma TickEvent(es: seq<Entry>, t: nat, reply: Alarm -> Reply, a: Alarm)
    requires forall q <- Requests(es, t, reply) :: q.alarm != a
    ensures DuesOf(AfterTick(es, t, reply), a) == DuesOf(Survivors(es, t, reply), a)
  {
    var started := Arrivals(Requests(es, t, reply), t);
    NotArrived(Requests(es, t, reply), a, t);
    NoDues(started, a);
    DuesSplit(started, Survivors(es, t, reply), a);
    hide DuesOf, Arrivals, Requests, Survivors;
    assert [] + DuesOf(Survivors(es, t, reply), a) == DuesOf(Survivors(es, t, reply), a);
  }

  /** One event leaves the due time of `a` alone unless it is the tick on which `a` fires. */
  lemma EventForOne(es: seq<Entry>, tick: nat, ev: Event, a: Alarm, ds: seq<Due>)
    requires DuesOf(es, a) == ds && |ds| <= 1 && LeftAlone(es, tick, [ev], a)
    ensures ev.Ticking? ==> Hits(Fired(es, tick + 1), a, tick + 1) == if ds == [] then [] else HitOn(ds[0], tick + 1)
    ensures DuesOf(After(es, tick, ev), a)
         == if ds == [] || !ev.Ticking? then ds else Renewed(ds[0], tick + 1, ev.reply(a).period)
  {
    match ev
    case Ticking(reply) =>
      TickEvent(es, tick + 1, reply, a);
      hide AfterTick, Arrivals, Requests, Survivors, Fired, HitOn, Renewed, DuesOf, Hits;
      if ds == [] {
        TickForOthers(es, tick + 1, reply, a);
      } else {
        TickForOne(es, tick + 1, reply, a, ds[0]);
      }
    case Starting(b, n) =>
      StartForOthers(es, b, StartedDue(n, tick), a);
    case Stopping(b) =>
      DuesWithout(es, b, a);
  }

  lemma StartForOthers(es: seq<Entry>, b: Alarm, due: Due, a: Alarm)
    ensures DuesOf([Entry(b, due)] + es, a) == if a == b then [due] + DuesOf(es, a) else DuesOf(es, a)
  {
    assert ([Entry(b, due)] + es)[1..] == es;
  }

  lemma CountdownStep(d: Due, tick: nat, p: U32, ps: seq<U32>)
    ensures d.tick != tick + 1 ==> Countdown(d, tick, [p] + ps) == Countdown(d, tick + 1, ps)
    ensures d.tick == tick + 1 && p == 0 ==> Countdown(d, tick, [p] + ps) == [d.tick]
    ensures d.tick == tick + 1 && p != 0 ==>
      Countdown(d, tick, [p] + ps) == [d.tick] + Countdown(NextDue(d, p, tick + 1), tick + 1, ps)
  {
    assert ([p] + ps)[1..] == ps;
  }

  lemma RunStep(es: seq<Entry>, tick: nat, run: seq<Event>, a: Alarm)
    requires run != []
    ensures (
      var es' := After(es, tick, run[0]);
      if run[0].Ticking? then
        && Firings(es, tick, run, a)
           == Hits(Fired(es, tick + 1), a, tick + 1) + Firings(es', tick + 1, run[1..], a)
        && Periods(run, a) == [run[0].reply(a).period] + Periods(run[1..], a)
      else
        && Firings(es, tick, run, a) == Firings(es', tick, run[1..], a)
        && Periods(run, a) == Periods(run[1..], a))
  {
    hide After, Hits, Fired;
  }

  lemma TickStep(es: seq<Entry>, tick: nat, run: seq<Event>, a: Alarm, d: Due)
    requires DuesOf(es, a) == [d] && LeftAlone(es, tick, run, a) && run != [] && run[0].Ticking?
    ensures (
      var es', p := After(es, tick, run[0]), run[0].reply(a).period;
      if d.tick != tick + 1 then
        && DuesOf(es', a) == [d]
        && Firings(es, tick, run, a) == Firings(es', tick + 1, run[1..], a)
      else
        && DuesOf(es', a) == (if p == 0 then [] else [NextDue(d, p, tick + 1)])
        && Firings(es, tick, run, a) == [d.tick] + Firings(es', tick + 1, run[1..], a))
  {
    var es' := After(es, tick, run[0]);
    LeftAloneStep(es, tick, run, a);
    RunStep(es, tick, run, a);
    EventForOne(es, tick, run[0], a, [d]);
    hide After, LeftAlone, DuesOf, Hits, Fired, Firings, Periods, Countdown;
    assert [] + Firings(es', tick + 1, run[1..], a) == Firings(es', tick + 1, run[1..], a);
  }

  /** In every run an alarm fires on exactly the ticks it would fire on if it were alone. */
  lemma {:induction false} FiringsAreCountdown(es: seq<Entry>, tick: nat, run: seq<Event>, a: Alarm, d: Due)
    requires DuesOf(es, a) == [d] && LeftAlone(es, tick, run, a)
    ensures Firings(es, tick, run, a) == Countdown(d, tick, Periods(run, a))
    decreases |run|
  {
    if run != [] {
      var ev, es', rest := run[0], After(es, tick, run[0]), run[1..];
      LeftAloneStep(es, tick, run, a);
      RunStep(es, tick, run, a);
      if !ev.Ticking? {
        EventForOne(es, tick, ev, a, [d]);
        hide *;
        FiringsAreCountdown(es', tick, rest, a, d);
      } else {
        hide *;
        var p := ev.reply(a).period;
        TickStep(es, tick, run, a, d);
        CountdownStep(d, tick, p, Periods(rest, a));
        if d.tick == tick + 1 && p == 0 {
          OffTheList(es', tick + 1, rest, a);
          assert [d.tick] + [] == [d.tick];
        } else {
          FiringsAreCountdown(es', tick + 1, rest, a, if d.tick == tick + 1 then NextDue(d, p, tick + 1) else d);
        }
      }
    }
  }

  lemma LeftAloneStep(es: seq<Entry>, tick: nat, run: seq<Event>, a: Alarm)
    requires run != [] && LeftAlone(es, tick, run, a)
    ensures LeftAlone(es, tick, [run[0]], a)
    ensures LeftAlone(After(es, tick, run[0]), if run[0].Ticking? then tick + 1 else tick, run[1..], a)
  {}

  lemma {:induction false} OffTheList(es: seq<Entry>, tick: nat, run: seq<Event>, a: Alarm)
    requires DuesOf(es, a) == [] && LeftAlone(es, tick, run, a)
    ensures Firings(es, tick, run, a) == []
    decreases |run|
  {
    if run != [] {
      LeftAloneStep(es, tick, run, a);
      EventForOne(es, tick, run[0], a, []);
      OffTheList(After(es, tick, run[0]), TickOf(tick, run[0]), run[1..], a);
    }
  }

  /** An alarm started with `n` ticks fires first when `StartedDue` says, which is tick `tick` + `n` + 1 but for the
      largest `n`, and from then on by its periods. */
  lemma StartedAlarm(es: seq<Entry>, tick: nat, a: Alarm, n: U32, run: seq<Event>)
    requires a !in Alarms(es) && LeftAlone([Entry(a, StartedDue(n, tick))] + es, tick, run, a)
    ensures Firings(es, tick, [Starting(a, n)] + run, a) == Countdown(StartedDue(n, tick), tick, Periods(run, a))
  {
    var first, es' := [Starting(a, n)], [Entry(a, StartedDue(n, tick))] + es;
    assert DuesOf(es', a) == [StartedDue(n, tick)] by {
      NoDues(es, a);
      StartForOthers(es, a, StartedDue(n, tick), a);
    }
    assert (first + run)[1..] == run;
    RunStep(es, tick, first + run, a);
    hide DuesOf, LeftAlone, Firings, Countdown, Periods;
    FiringsAreCountdown(es', tick, run, a, StartedDue(n, tick));
  }

  lemma DuesOfStarted(qs: seq<Request>, i: nat, t: nat)
    requires i < |qs| && Once(qs)
    ensures DuesOf(Arrivals(qs, t), qs[i].alarm) == [StartedDue(qs[i].nticks, t)]
  {
    var q, before, behind := qs[i], qs[..i], qs[i + 1..];
    assert Arrivals([q], t) == [Entry(q.alarm, StartedDue(q.nticks, t))] by { ArrivalsOf([q], t); }
    var mid, here := Arrivals(behind, t), Entry(q.alarm, StartedDue(q.nticks, t));
    assert DuesOf([here] + [], q.alarm) == [here.due] && [here] + [] == [here];
    assert qs == before + [q] + behind;
    hide StartedDue, Arrivals, DuesOf;
    ArrivalsSplit(before + [q], behind, t);
    ArrivalsSplit(before, [q], t);
    NotArrived(before, q.alarm, t);
    NotArrived(behind, q.alarm, t);
    NoDues(mid, q.alarm);
    NoDues(Arrivals(before, t), q.alarm);
    DuesSplit(mid, [here] + Arrivals(before, t), q.alarm);
    DuesSplit([here], Arrivals(before, t), q.alarm);
  }

  /** An alarm that a callback starts on a tick fires from that tick on as if it had been started between ticks. */
  lemma StartedByCallback(es: seq<Entry>, tick: nat, e: Entry, q: Request, reply: Alarm -> Reply, run: seq<Event>)
    requires e in es && e.due.tick == tick + 1 && q in reply(e.alarm).starts
    requires Once(Requests(es, tick + 1, reply)) && q.alarm !in Alarms(es)
    requires LeftAlone(AfterTick(es, tick + 1, reply), tick + 1, run, q.alarm)
    ensures Firings(es, tick, [Ticking(reply)] + run, q.alarm)
         == Countdown(StartedDue(q.nticks, tick + 1), tick + 1, Periods(run, q.alarm))
  {
    var t, a, due, qs := tick + 1, q.alarm, StartedDue(q.nticks, tick + 1), Requests(es, tick + 1, reply);
    var ev, es' := [Ticking(reply)], AfterTick(es, tick + 1, reply);
    assert (ev + run)[1..] == run && After(es, tick, Ticking(reply)) == es';
    RunStep(es, tick, ev + run, a);
    hide StartedDue, After, Countdown, LeftAlone, Periods, Firings, Hits, Fired;
    RequestsAre(es, t, reply, q);
    assert DuesOf(es', a) == [due] by {
      var i :| 0 <= i < |qs| && qs[i] == q;
      DuesOfStarted(qs, i, t);
      SurvivorsFrom(es, t, reply);
      NoDues(Survivors(es, t, reply), a);
      DuesSplit(Arrivals(qs, t), Survivors(es, t, reply), a);
    }
    NoDues(es, a);
    TickForOthers(es, t, reply, a);
    FiringsAreCountdown(es', t, run, a, due);
    assert [] + Firings(es', t, run, a) == Firings(es', t, run, a);
  }

  /** An alarm that has been stopped does not fire again until somebody starts it. */
  lemma StoppedAlarm(es: seq<Entry>, tick: nat, a: Alarm, run: seq<Event>)
    requires LeftAlone(Without(es, a), tick, run, a)
    ensures Firings(es, tick, [Stopping(a)] + run, a) == []
  {
    assert ([Stopping(a)] + run)[1..] == run && After(es, tick, Stopping(a)) == Without(es, a);
    RunStep(es, tick, [Stopping(a)] + run, a);
    hide Firings, LeftAlone;
    NoneLeft(es, a);
    NoDues(Without(es, a), a);
    OffTheList(Without(es, a), tick, run, a);
  }

  lemma {:induction false} NoneLeft(es: seq<Entry>, a: Alarm)
    ensures a !in Alarms(Without(es, a))
  {
    if es != [] {
      NoneLeft(es[1..], a);
    }
  }

  /** Never early, late or twice: `f` starts at `due`, each further firing comes exactly one returned period
      after the one before it, and no firing that is due by the end of the run is missed. */
  ghost predicate Exact(f: seq<nat>, due: nat, tick: nat, ps: seq<U32>) {
    var end := tick + |ps|;
    && (f == [] <==> due > end)
    && (f != [] ==> f[0] == due)
    && (forall i :: 0 <= i < |f| ==> tick < f[i] <= end)
    && (forall i :: 0 <= i < |f| - 1 ==> f[i] < f[i + 1] == f[i] + PeriodAt(ps, tick, f[i]))
    && (f != [] ==> Last(f[|f| - 1], PeriodAt(ps, tick, f[|f| - 1]), end))
  }

  /** What the callback returns on tick `t`, when the first of the periods belongs to tick `tick` + 1. */
  function PeriodAt(ps: seq<U32>, tick: nat, t: nat): U32
    requires tick < t <= tick + |ps|
  {
    ps[t - tick - 1]
  }

  predicate Last(t: nat, period: U32, end: nat) {
    period == 0 || t + period > end
  }

  lemma {:induction false} CountdownExact(due: nat, tick: nat, ps: seq<U32>)
    requires due > tick
    ensures Exact(Countdown(Due(due, false), tick, ps), due, tick, ps)
    decreases |ps|
  {
    if ps != [] {
      var p, rest := ps[0], ps[1..];
      assert [p] + rest == ps;
      CountdownStep(Due(due, false), tick, p, rest);
      hide Countdown, Exact;
      if due != tick + 1 {
        CountdownExact(due, tick + 1, rest);
        ExactLater(Countdown(Due(due, false), tick + 1, rest), due, tick, p, rest);
      } else if p == 0 {
        ExactOnce(tick, rest);
      } else {
        CountdownExact(due + p, tick + 1, rest);
        ExactNow(Countdown(Due(due + p, false), tick + 1, rest), tick, p, rest);
      }
    }
  }

  lemma PeriodLater(p: U32, ps: seq<U32>, tick: nat, t: nat)
    requires tick + 1 < t <= tick + 1 + |ps|
    ensures PeriodAt([p] + ps, tick, t) == PeriodAt(ps, tick + 1, t)
  {}

  lemma ExactLater(f: seq<nat>, due: nat, tick: nat, p: U32, ps: seq<U32>)
    requires due > tick + 1 && Exact(f, due, tick + 1, ps)
    ensures Exact(f, due, tick, [p] + ps)
  {
    hide Last, PeriodAt;
    forall i | 0 <= i < |f| ensures PeriodAt([p] + ps, tick, f[i]) == PeriodAt(ps, tick + 1, f[i]) {
      PeriodLater(p, ps, tick, f[i]);
    }
  }

  lemma ExactOnce(tick: nat, ps: seq<U32>)
    ensures Exact([tick + 1], tick + 1, tick, [0] + ps)
  {}

  lemma ExactNow(f: seq<nat>, tick: nat, p: U32, ps: seq<U32>)
    requires p > 0 && Exact(f, tick + 1 + p, tick + 1, ps)
    ensures Exact([tick + 1] + f, tick + 1, tick, [p] + ps)
  {
    ExactLater(f, tick + 1 + p, tick, p, ps);
    var g := [tick + 1] + f;
    assert PeriodAt([p] + ps, tick, tick + 1) == p;
    assert forall i :: 0 <= i < |f| ==> g[i + 1] == f[i];
    assert forall i :: 0 < i < |g| ==> g[i] == f[i - 1];
    ExactCons(g, f, tick, p, [p] + ps);
  }

  lemma ExactCons(g: seq<nat>, f: seq<nat>, tick: nat, p: U32, ps: seq<U32>)
    requires p > 0 && ps != [] && Exact(f, tick + 1 + p, tick, ps) && PeriodAt(ps, tick, tick + 1) == p
    requires |g| == |f| + 1 && g[0] == tick + 1
    requires forall i :: 0 < i < |g| ==> g[i] == f[i - 1]
    ensures Exact(g, tick + 1, tick, ps)
  {
    hide PeriodAt;
    forall i | 0 <= i < |g| - 1 ensures g[i] < g[i + 1] == g[i] + PeriodAt(ps, tick, g[i]) {
      if i > 0 {
        assert f[i - 1] < f[i - 1 + 1] == f[i - 1] + PeriodAt(ps, tick, f[i - 1]);
      }
    }
  }
}
