/**
 What alarm starts, stops and ticks do to the list of registered alarms, as functions on sequences, with due
 times that count ticks since reset without wrapping.
 */
module AlarmSchedule {
  import opened Hal
  import opened AlarmTimer
  import opened LinkedList

  /** A registered alarm and when it is to fire next. */
  datatype Entry = Entry(alarm: Alarm, due: Due)

  /** A call to alt_alarm_start made by a callback. */
  datatype Request = Request(alarm: Alarm, nticks: U32)

  /** What a callback does: the period it returns and the alarms it starts. */
  datatype Reply = Reply(period: U32, starts: seq<Request>)

  ghost function Alarms(es: seq<Entry>): set<Alarm> {
    set e | e in es :: e.alarm
  }

  ghost predicate AllDistinct(es: seq<Entry>) {
    forall i, j :: 0 <= i < j < |es| ==> es[i].alarm != es[j].alarm
  }

  function Fires(e: Entry, tick: nat): seq<Alarm> {
    if e.due.tick == tick then [e.alarm] else []
  }

  /** The alarms that fire on `tick`, in list order. */
  function Fired(es: seq<Entry>, tick: nat): seq<Alarm> {
    if es == [] then [] else Fires(es[0], tick) + Fired(es[1..], tick)
  }

  /** What is left of one entry after `tick`. */
  function Survivor(e: Entry, tick: nat, reply: Alarm -> Reply): seq<Entry> {
    if e.due.tick != tick then [e] else
    if reply(e.alarm).period == 0 then [] else [Entry(e.alarm, NextDue(e.due, reply(e.alarm).period, tick))]
  }

  function Survivors(es: seq<Entry>, tick: nat, reply: Alarm -> Reply): seq<Entry> {
    if es == [] then [] else Survivor(es[0], tick, reply) + Survivors(es[1..], tick, reply)
  }

  function Asked(e: Entry, tick: nat, reply: Alarm -> Reply): seq<Request> {
    if e.due.tick == tick then reply(e.alarm).starts else []
  }

  /** Everything the callbacks of `tick` start, in order. */
  function Requests(es: seq<Entry>, tick: nat, reply: Alarm -> Reply): seq<Request> {
    if es == [] then [] else Asked(es[0], tick, reply) + Requests(es[1..], tick, reply)
  }

  /** Started alarms as they end up in the list: the last one started comes first. */
  function Arrivals(qs: seq<Request>, tick: nat): seq<Entry> {
    if qs == [] then [] else Arrivals(qs[1..], tick) + [Entry(qs[0].alarm, StartedDue(qs[0].nticks, tick))]
  }

  function AfterTick(es: seq<Entry>, tick: nat, reply: Alarm -> Reply): seq<Entry> {
    Arrivals(Requests(es, tick, reply), tick) + Survivors(es, tick, reply)
  }

  /** The list without one alarm. */
  function Without(es: seq<Entry>, a: Alarm): seq<Entry> {
    if es == [] then [] else (if es[0].alarm == a then [] else [es[0]]) + Without(es[1..], a)
  }

  ghost predicate Once(qs: seq<Request>) {
    forall i, j :: 0 <= i < j < |qs| ==> qs[i].alarm != qs[j].alarm
  }

  /** What callbacks may start: alarms of the program that are not registered, each once. */
  ghost predicate Proper(qs: seq<Request>, es: seq<Entry>, pool: set<Alarm>) {
    && Once(qs)
    && (forall q <- qs :: q.alarm in pool && q.alarm !in Alarms(es))
  }

  // ----- Sequences ---------------------------------------------------------------------------

  lemma Assoc<T>(p: seq<T>, q: seq<T>, r: seq<T>)
    ensures p + (q + r) == p + q + r
  {}

  lemma AlarmsOf(p: seq<Entry>, q: seq<Entry>)
    ensures Alarms(p + q) == Alarms(p) + Alarms(q)
  {}

  lemma AlarmsOfOne(e: Entry)
    ensures Alarms([e]) == {e.alarm} && Alarms([]) == {}
  {}

  lemma Listed(es: seq<Entry>, e: Entry)
    requires e in es
    ensures e.alarm in Alarms(es)
  {}

  /** The entries around one entry of a list are other alarms. */
  lemma Around(p: seq<Entry>, e: Entry, q: seq<Entry>)
    requires AllDistinct(p + [e] + q)
    ensures e.alarm !in Alarms(p) && e.alarm !in Alarms(q)
  {
    var es := p + [e] + q;
    assert es[|p|] == e;
    forall i | 0 <= i < |p| ensures p[i].alarm != e.alarm { assert es[i] == p[i]; }
    forall i | 0 <= i < |q| ensures q[i].alarm != e.alarm { assert es[|p| + 1 + i] == q[i]; }
  }

  lemma {:induction false} WithoutAbsent(es: seq<Entry>, a: Alarm)
    requires a !in Alarms(es)
    ensures Without(es, a) == es
  {
    if es != [] {
      AlarmsOf([es[0]], es[1..]);
      AlarmsOfOne(es[0]);
      assert es == [es[0]] + es[1..];
      WithoutAbsent(es[1..], a);
    }
  }

  lemma {:induction false} WithoutSplit(p: seq<Entry>, q: seq<Entry>, a: Alarm)
    ensures Without(p + q, a) == Without(p, a) + Without(q, a)
  {
    if p == [] {
      assert p + q == q;
    } else {
      assert (p + q)[1..] == p[1..] + q;
      WithoutSplit(p[1..], q, a);
    }
  }

  lemma WithoutItself(e: Entry)
    ensures Without([e], e.alarm) == []
  {}

  lemma WithoutOne(p: seq<Entry>, e: Entry, q: seq<Entry>)
    requires AllDistinct(p + [e] + q)
    ensures Without(p + [e] + q, e.alarm) == p + q
  {
    hide *;
    assert p + [] == p;
    Around(p, e, q);
    calc {
      Without(p + [e] + q, e.alarm);
      { WithoutSplit(p + [e], q, e.alarm); WithoutAbsent(q, e.alarm); }
      Without(p + [e], e.alarm) + q;
      { WithoutSplit(p, [e], e.alarm); WithoutAbsent(p, e.alarm); WithoutItself(e); }
      p + q;
    }
  }

  lemma {:induction false} WithoutSubset(es: seq<Entry>, a: Alarm)
    ensures forall e <- Without(es, a) :: e in es
  {
    if es != [] {
      WithoutSubset(es[1..], a);
    }
  }

  // ----- One tick, piece by piece ---------------------------------------------------------------

  lemma {:induction false} TickSplit(p: seq<Entry>, q: seq<Entry>, tick: nat, reply: Alarm -> Reply)
    ensures Fired(p + q, tick) == Fired(p, tick) + Fired(q, tick)
    ensures Survivors(p + q, tick, reply) == Survivors(p, tick, reply) + Survivors(q, tick, reply)
    ensures Requests(p + q, tick, reply) == Requests(p, tick, reply) + Requests(q, tick, reply)
  {
    hide Fires, Survivor, Asked;
    if p == [] {
      assert p + q == q;
    } else {
      assert (p + q)[1..] == p[1..] + q && (p + q)[0] == p[0] && p + q != [];
      TickSplit(p[1..], q, tick, reply);
      Assoc(Fires(p[0], tick), Fired(p[1..], tick), Fired(q, tick));
      Assoc(Survivor(p[0], tick, reply), Survivors(p[1..], tick, reply), Survivors(q, tick, reply));
      Assoc(Asked(p[0], tick, reply), Requests(p[1..], tick, reply), Requests(q, tick, reply));
    }
  }

  lemma TickOne(e: Entry, tick: nat, reply: Alarm -> Reply)
    ensures Fired([e], tick) == Fires(e, tick)
    ensures Survivors([e], tick, reply) == Survivor(e, tick, reply)
    ensures Requests([e], tick, reply) == Asked(e, tick, reply)
  {
    hide Fires, Survivor, Asked;
    assert [e][1..] == [];
  }

  lemma {:induction false} ArrivalsSplit(p: seq<Request>, q: seq<Request>, tick: nat)
    ensures Arrivals(p + q, tick) == Arrivals(q, tick) + Arrivals(p, tick)
  {
    if p == [] {
      assert p + q == q;
    } else {
      assert (p + q)[1..] == p[1..] + q;
      ArrivalsSplit(p[1..], q, tick);
    }
  }

  lemma {:induction false} ArrivalsOf(qs: seq<Request>, tick: nat)
    ensures |Arrivals(qs, tick)| == |qs|
    ensures forall i :: 0 <= i < |qs| ==>
      Arrivals(qs, tick)[|qs| - 1 - i] == Entry(qs[i].alarm, StartedDue(qs[i].nticks, tick))
  {
    if qs != [] {
      ArrivalsOf(qs[1..], tick);
      assert forall i :: 0 < i < |qs| ==> qs[1..][i - 1] == qs[i];
    }
  }

  /** One more started alarm: it is not among those started before and goes in front of them. */
  lemma ArrivalsStep(qs: seq<Request>, i: nat, tick: nat)
    requires i < |qs| && Once(qs)
    ensures Arrivals(qs[..i + 1], tick)
         == [Entry(qs[i].alarm, StartedDue(qs[i].nticks, tick))] + Arrivals(qs[..i], tick)
    ensures qs[i].alarm !in Alarms(Arrivals(qs[..i], tick))
  {
    ArrivalsSplit(qs[..i], [qs[i]], tick);
    ArrivalsOf([qs[i]], tick);
    assert qs[..i + 1] == qs[..i] + [qs[i]];
    NotArrived(qs[..i], qs[i].alarm, tick);
  }

  /** The walk of a tick, one entry further. */
  lemma AfterTickStep(p: seq<Entry>, e: Entry, tick: nat, reply: Alarm -> Reply)
    ensures AfterTick(p + [e], tick, reply)
         == Arrivals(Asked(e, tick, reply), tick) + AfterTick(p, tick, reply) + Survivor(e, tick, reply)
    ensures Fired(p + [e], tick) == Fired(p, tick) + Fires(e, tick)
  {
    TickSplit(p, [e], tick, reply);
    TickOne(e, tick, reply);
    hide Requests, Survivors, Survivor, Fired, Fires, Asked, Arrivals;
    ArrivalsSplit(Requests(p, tick, reply), Asked(e, tick, reply), tick);
    Assoc(Arrivals(Asked(e, tick, reply), tick), Arrivals(Requests(p, tick, reply), tick), Survivors(p, tick, reply));
    Assoc(Arrivals(Asked(e, tick, reply), tick), AfterTick(p, tick, reply), Survivor(e, tick, reply));
    Assoc(Arrivals(Requests(p + [e], tick, reply), tick), Survivors(p, tick, reply), Survivor(e, tick, reply));
  }

  lemma {:induction false} SurvivorsFrom(es: seq<Entry>, tick: nat, reply: Alarm -> Reply)
    ensures Alarms(Survivors(es, tick, reply)) <= Alarms(es)
  {
    if es != [] {
      SurvivorsFrom(es[1..], tick, reply);
      var s := Survivor(es[0], tick, reply);
      assert Alarms(s) <= {es[0].alarm};
      hide Alarms, Survivor, Survivors;
      AlarmsOf(s, Survivors(es[1..], tick, reply));
      AlarmsOf([es[0]], es[1..]);
      AlarmsOfOne(es[0]);
      assert es == [es[0]] + es[1..];
      assert Survivors(es, tick, reply) == s + Survivors(es[1..], tick, reply) by { SurvivorsStep(es, tick, reply); }
    }
  }

  lemma SurvivorsStep(es: seq<Entry>, tick: nat, reply: Alarm -> Reply)
    requires es != []
    ensures Survivors(es, tick, reply) == Survivor(es[0], tick, reply) + Survivors(es[1..], tick, reply)
  {}

  lemma OnceParts(p: seq<Request>, q: seq<Request>, r: seq<Request>)
    requires Once(p + q + r)
    ensures Once(q)
    ensures forall x, y :: x in p && y in q ==> x.alarm != y.alarm
  {
    var all := p + q + r;
    assert forall i :: 0 <= i < |p| ==> all[i] == p[i];
    assert forall i :: 0 <= i < |q| ==> all[|p| + i] == q[i];
    hide *;
    forall i, j | 0 <= i < j < |q| ensures q[i].alarm != q[j].alarm { OnceAt(all, |p| + i, |p| + j); }
    forall i, j | 0 <= i < |p| && 0 <= j < |q| ensures p[i].alarm != q[j].alarm { OnceAt(all, i, |p| + j); }
    assert Once(q) by { OnceIntro(q); }
  }

  lemma OnceAt(qs: seq<Request>, i: nat, j: nat)
    requires Once(qs) && i < j < |qs|
    ensures qs[i].alarm != qs[j].alarm
  {}

  lemma OnceIntro(qs: seq<Request>)
    requires forall i, j :: 0 <= i < j < |qs| ==> qs[i].alarm != qs[j].alarm
    ensures Once(qs)
  {}

  /** An alarm started by a later callback is not among those started before. */
  lemma NotArrived(qs: seq<Request>, a: Alarm, tick: nat)
    requires forall q <- qs :: q.alarm != a
    ensures a !in Alarms(Arrivals(qs, tick))
  {
    ArrivalsOf(qs, tick);
    var es := Arrivals(qs, tick);
    forall i | 0 <= i < |es| ensures es[i].alarm != a {
      assert es[|qs| - 1 - (|qs| - 1 - i)].alarm == qs[|qs| - 1 - i].alarm;
    }
  }

  /** What the next alarm's callback starts is not on the list as the walk has left it so far. */
  lemma ProperStep(p: seq<Entry>, e: Entry, q: seq<Entry>, tick: nat, reply: Alarm -> Reply, pool: set<Alarm>)
    requires Proper(Requests(p + [e] + q, tick, reply), p + [e] + q, pool)
    ensures Proper(Asked(e, tick, reply), AfterTick(p, tick, reply) + [e] + q, pool)
  {
    var before, qs := Requests(p, tick, reply), Asked(e, tick, reply);
    TickSplit(p + [e], q, tick, reply);
    TickSplit(p, [e], tick, reply);
    TickOne(e, tick, reply);
    OnceParts(before, qs, Requests(q, tick, reply));
    hide Once, Requests, Asked, Survivors, Arrivals, Alarms;
    var done := AfterTick(p, tick, reply);
    AlarmsOf(p + [e], q); AlarmsOf(p, [e]);
    AlarmsOf(done + [e], q); AlarmsOf(done, [e]);
    AlarmsOf(Arrivals(before, tick), Survivors(p, tick, reply));
    SurvivorsFrom(p, tick, reply);
    forall x <- qs ensures x.alarm !in Alarms(Arrivals(before, tick)) {
      NotArrived(before, x.alarm, tick);
    }
  }

  // ----- What is on the list after a tick -----------------------------------------------------------

  /** A callback that fires on `tick` asks for this. */
  ghost predicate AskedFor(es: seq<Entry>, tick: nat, reply: Alarm -> Reply, q: Request) {
    exists e :: e in es && e.due.tick == tick && q in reply(e.alarm).starts
  }

  lemma {:induction false} RequestsAre(es: seq<Entry>, tick: nat, reply: Alarm -> Reply, q: Request)
    ensures q in Requests(es, tick, reply) <==> AskedFor(es, tick, reply, q)
  {
    if es != [] {
      RequestsAre(es[1..], tick, reply, q);
      assert es == [es[0]] + es[1..];
      if AskedFor(es, tick, reply, q) {
        var e :| e in es && e.due.tick == tick && q in reply(e.alarm).starts;
        assert e == es[0] || e in es[1..];
      }
    }
  }

  lemma ArrivalsAre(qs: seq<Request>, tick: nat, x: Entry)
    ensures x in Arrivals(qs, tick) <==> exists q :: q in qs && x == Entry(q.alarm, StartedDue(q.nticks, tick))
  {
    ArrivalsOf(qs, tick);
    hide Arrivals, StartedDue;
    if x in Arrivals(qs, tick) {
      var i :| 0 <= i < |qs| && Arrivals(qs, tick)[i] == x;
      assert Arrivals(qs, tick)[|qs| - 1 - (|qs| - 1 - i)] == x;
      assert qs[|qs| - 1 - i] in qs;
    }
    if q :| q in qs && x == Entry(q.alarm, StartedDue(q.nticks, tick)) {
      var i :| 0 <= i < |qs| && qs[i] == q;
      assert Arrivals(qs, tick)[|qs| - 1 - i] == x;
    }
  }

  /** An entry stays as it is, or fires and is due again as its period says. */
  ghost predicate Stays(es: seq<Entry>, tick: nat, reply: Alarm -> Reply, x: Entry) {
    || (x in es && x.due.tick != tick)
    || (exists e :: e in es && e.due.tick == tick && reply(e.alarm).period != 0
          && x == Entry(e.alarm, NextDue(e.due, reply(e.alarm).period, tick)))
  }

  lemma {:induction false} SurvivorsAre(es: seq<Entry>, tick: nat, reply: Alarm -> Reply, x: Entry)
    ensures x in Survivors(es, tick, reply) <==> Stays(es, tick, reply, x)
  {
    hide NextDue;
    if es != [] {
      SurvivorsAre(es[1..], tick, reply, x);
      assert es == [es[0]] + es[1..];
      assert forall e :: e in es <==> e == es[0] || e in es[1..];
    }
  }

  /** Exactly what is registered after a tick: every alarm that a callback of this tick asked for, due from this
      tick on; and every alarm that was registered, except those that fired and returned no period. */
  lemma AfterTickExact(es: seq<Entry>, tick: nat, reply: Alarm -> Reply, x: Entry)
    ensures x in AfterTick(es, tick, reply)
       <==> || (exists q :: AskedFor(es, tick, reply, q) && x == Entry(q.alarm, StartedDue(q.nticks, tick)))
            || Stays(es, tick, reply, x)
  {
    hide AskedFor, Stays, StartedDue;
    var qs := Requests(es, tick, reply);
    forall q ensures q in qs <==> AskedFor(es, tick, reply, q) { RequestsAre(es, tick, reply, q); }
    ArrivalsAre(qs, tick, x);
    SurvivorsAre(es, tick, reply, x);
    hide Requests, Arrivals, Survivors;
  }
}
