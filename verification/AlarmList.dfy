/**
 The alarm service: a list of registered alarms changed in place by alt_alarm_start and alt_alarm_stop, and
 walked by alt_tick while entries leave it and new ones join.
 */
module AlarmList {
  import opened Hal
  import opened AlarmTimer
  import opened LinkedList
  import opened AlarmSchedule

  ghost function Names(es: seq<Entry>): seq<Alarm> {
    seq(|es|, i requires 0 <= i < |es| => es[i].alarm)
  }

  ghost function Circle(head: Alarm, es: seq<Entry>): seq<Alarm> {
    [head] + Names(es) + [head]
  }

  /** The fields of every alarm in `es` stand for its due tick. */
  ghost predicate Standing(es: seq<Entry>, tick: nat)
    reads (set e <- es :: e.alarm)`time, (set e <- es :: e.alarm)`rollover
  {
    forall e <- es :: StandsFor(e.alarm.AsTimer(), e.due, tick)
  }

  // ----- The circle of links -------------------------------------------------------------------

  lemma CircleDistinct(head: Alarm, es: seq<Entry>)
    requires Ring(Circle(head, es))
    ensures AllDistinct(es) && head !in Alarms(es)
  {
    var r := Circle(head, es);
    forall i, j | 0 <= i < j < |es| ensures es[i].alarm != es[j].alarm {
      assert r[i + 1] != r[j + 1];
    }
    forall i | 0 <= i < |es| ensures es[i].alarm != head {
      assert r[0] != r[i + 1];
    }
  }

  lemma OnCircle(head: Alarm, es: seq<Entry>)
    ensures head in Circle(head, es)
    ensures forall a <- Circle(head, es) :: a == head || a in Alarms(es)
    ensures forall a <- Alarms(es) :: a in Circle(head, es)
  {
    var r := Circle(head, es);
    assert r[0] == head;
    forall i | 0 <= i < |es| ensures es[i].alarm in r { assert r[i + 1] == es[i].alarm; }
  }

  lemma FirstOnList(head: Alarm, es: seq<Entry>)
    requires Ring(Circle(head, es))
    ensures head.next == if es == [] then head else es[0].alarm
  {
    assert Circle(head, es)[0] == head;
  }

  lemma NextOnList(head: Alarm, p: seq<Entry>, e: Entry, q: seq<Entry>)
    requires Ring(Circle(head, p + [e] + q))
    ensures e.alarm.next == if q == [] then head else q[0].alarm
  {
    var r := Circle(head, p + [e] + q);
    assert r[|p| + 1] == e.alarm && r[|p| + 2] == if q == [] then head else q[0].alarm;
  }

  /** Dropping one entry from the list drops one node from the circle. */
  lemma CircleWithout(head: Alarm, p: seq<Entry>, e: Entry, q: seq<Entry>)
    ensures (
      var r := Circle(head, p + [e] + q);
      && |p| + 1 < |r| - 1 && r[|p| + 1] == e.alarm
      && Circle(head, p + q) == r[..|p| + 1] + r[|p| + 2..])
  {}

  /** A new due time leaves the circle alone. */
  lemma CircleRedated(head: Alarm, p: seq<Entry>, e: Entry, e': Entry, q: seq<Entry>)
    requires e.alarm == e'.alarm
    ensures Circle(head, p + [e'] + q) == Circle(head, p + [e] + q)
    ensures Alarms(p + [e'] + q) == Alarms(p + [e] + q)
  {
    AlarmsOf(p + [e], q); AlarmsOf(p, [e]); AlarmsOfOne(e);
    AlarmsOf(p + [e'], q); AlarmsOf(p, [e']); AlarmsOfOne(e');
  }

  lemma Locate(es: seq<Entry>, a: Alarm) returns (p: seq<Entry>, e: Entry, q: seq<Entry>)
    requires a in Alarms(es)
    ensures es == p + [e] + q && e.alarm == a
  {
    var k :| 0 <= k < |es| && es[k].alarm == a;
    p, e, q := es[..k], es[k], es[k + 1..];
  }

  /** What has to be known to take an alarm off the list, or to find that it is not on it. */
  lemma Unlinking(head: Alarm, es: seq<Entry>, pool: set<Alarm>, a: Alarm) returns (r: seq<Alarm>, k: nat)
    requires Ring(Circle(head, es)) && head !in pool && a in pool && Alarms(es) <= pool
    ensures forall b <- r :: b == head || b in pool
    ensures forall b <- pool :: b in Alarms(es) || b !in Circle(head, es)
    ensures a in Alarms(es) ==> (
        && r == Circle(head, es) && 0 < k < |r| - 1 && r[k] == a
        && Circle(head, Without(es, a)) == r[..k] + r[k + 1..])
    ensures a !in Alarms(es) ==> r == [] && Without(es, a) == es
    ensures Alarms(Without(es, a)) == Alarms(es) - {a}
  {
    CircleDistinct(head, es);
    OnCircle(head, es);
    hide *;
    r, k := [], 0;
    if a in Alarms(es) {
      var p, e, q := Locate(es, a);
      r, k := Circle(head, es), |p| + 1;
      CircleWithout(head, p, e, q);
      WithoutOne(p, e, q);
      Around(p, e, q);
      AlarmsOf(p + [e], q); AlarmsOf(p, [e]); AlarmsOfOne(e); AlarmsOf(p, q);
    } else {
      WithoutAbsent(es, a);
    }
  }

  /** One entry of the list and the entries around it. */
  lemma OnList(head: Alarm, p: seq<Entry>, e: Entry, q: seq<Entry>)
    requires Ring(Circle(head, p + [e] + q))
    ensures e.alarm in Alarms(p + [e] + q) && e.alarm.next != null
    ensures Without(p + [e] + q, e.alarm) == p + q
    ensures forall x <- p :: x.alarm != e.alarm
    ensures forall x <- q :: x.alarm != e.alarm
  {
    NextOnList(head, p, e, q);
    CircleDistinct(head, p + [e] + q);
    hide *;
    Around(p, e, q);
    WithoutOne(p, e, q);
    forall x <- p ensures x.alarm != e.alarm { Listed(p, x); }
    forall x <- q ensures x.alarm != e.alarm { Listed(q, x); }
    assert e in p + [e] + q;
    Listed(p + [e] + q, e);
  }

  lemma Moved(s: seq<Entry>, p: seq<Entry>, e: Entry, q: seq<Entry>)
    ensures s + (p + [e] + q) == s + p + [e] + q
  {}

  lemma Regroup(p: seq<Entry>, rest: seq<Entry>, tick: nat)
    requires rest != []
    ensures p + [rest[0]] + rest[1..] == p + rest
    ensures forall x <- rest[1..] :: x in rest
    ensures Standing(rest, tick) ==> StandsFor(rest[0].alarm.AsTimer(), rest[0].due, tick) && Standing(rest[1..], tick)
  {
    assert rest[0] in rest;
    hide StandsFor;
  }

  lemma NamesStep(p: seq<Entry>, e: Entry)
    ensures Names(p + [e]) == Names(p) + [e.alarm]
  {}

  lemma StandingThrough(s: seq<Entry>, p: seq<Entry>, l: seq<Entry>, tick: nat)
    requires Standing(s, tick) && Standing(p, tick) && Standing(l, tick)
    ensures Standing(s + p + l, tick)
  {}

  class AlarmService {
    const rate: U32                  // _alt_tick_rate
    var nticks: U32                  // _alt_nticks
    const head: Alarm                // alt_alarm_list
    ghost const pool: set<Alarm>     // the alarms of the program
    ghost var ticks: nat             // ticks since reset
    ghost var entries: seq<Entry>    // the registered alarms, in list order

    constructor (tickRate: U32, ghost alarms: set<Alarm>)
      requires forall a <- alarms :: a.Idle()
      ensures Valid() && entries == [] && ticks == 0
      ensures rate == tickRate && pool == alarms && fresh(head)
    {
      var list := new Alarm.Head();
      rate, nticks, head := tickRate, 0, list;
      pool, ticks, entries := alarms, 0, [];
    }

    /** The entries are threaded on the list in order, and every other alarm is idle. */
    ghost predicate Linked()
      reads this`entries, head`next, head`previous, pool`next, pool`previous
    {
      && head !in pool
      && Alarms(entries) <= pool
      && Ring(Circle(head, entries))
      && (forall a <- pool :: a !in Alarms(entries) ==> a.Idle())
    }

    ghost predicate Valid()
      reads this, head, pool
    {
      && Linked()
      && nticks == ticks % M
      && Standing(entries, ticks)
      && (entries != [] ==> rate != 0)
    }

    method Link(alarm: Alarm, ghost due: Due)
      requires Linked() && alarm in pool && alarm !in Alarms(entries)
      modifies this`entries, head`next, head`previous, pool`next, pool`previous
      ensures Linked() && entries == [Entry(alarm, due)] + old(entries)
    {
      ghost var es := [Entry(alarm, due)] + entries;
      assert Circle(head, es) == [head, alarm] + Circle(head, entries)[1..];
      AlarmsOf([Entry(alarm, due)], entries); AlarmsOfOne(Entry(alarm, due));
      OnCircle(head, entries);
      hide Circle, Ring, Alarms;
      Insert(head, alarm, Circle(head, entries));
      entries := es;
    }

    method Unlink(alarm: Alarm)
      requires Linked() && alarm in pool && alarm.next != null
      modifies this`entries, head`next, head`previous, pool`next, pool`previous
      ensures Linked() && entries == Without(old(entries), alarm)
      ensures alarm.next == alarm && alarm.previous == alarm
    {
      hide Circle, Without, Ring, Alarms;
      ghost var r, k := Unlinking(head, entries, pool, alarm);
      WithoutSubset(entries, alarm);
      Remove(alarm, r, k);
      entries := Without(entries, alarm);
    }

    /** alt_alarm_start on a real alarm, with interrupts disabled. */
    method Arm(alarm: Alarm, n: U32)
      requires Linked() && nticks == ticks % M
      requires alarm in pool && alarm !in Alarms(entries)
      modifies this`entries, head`next, head`previous, pool`next, pool`previous, alarm`time, alarm`rollover
      ensures Linked() && entries == [Entry(alarm, StartedDue(n, ticks))] + old(entries)
      ensures StandsFor(alarm.AsTimer(), StartedDue(n, ticks), ticks)
      ensures forall e <- old(entries) :: e.alarm.AsTimer() == old(e.alarm.AsTimer())
    {
      StartStandsFor(n, ticks);
      hide Linked, StandsFor;
      var now := nticks;
      alarm.time := (n + now + 1) % M;
      if alarm.time < now {
        alarm.rollover := true;
      } else {
        alarm.rollover := false;
      }
      Link(alarm, StartedDue(n, ticks));
    }

    /** alt_alarm_start */
    method Start(alarm: Alarm?, n: U32) returns (r: int)
      requires Valid()
      requires alarm != null ==> alarm in pool && alarm !in Alarms(entries)
      modifies this`entries, head`next, head`previous, pool
      ensures Valid()
      ensures rate == 0 ==> r == -ENOTSUP && entries == old(entries)
      ensures rate != 0 && alarm == null ==> r == -EINVAL && entries == old(entries)
      ensures rate != 0 && alarm != null ==> r == 0 && entries == [Entry(alarm, StartedDue(n, ticks))] + old(entries)
    {
      if rate != 0 {
        if alarm != null {
          hide Linked, StandsFor;
          Arm(alarm, n);
          return 0;
        } else {
          return -EINVAL;
        }
      } else {
        return -ENOTSUP;
      }
    }

    /** alt_alarm_stop; harmless when the alarm is not registered. */
    method Stop(alarm: Alarm)
      requires Valid() && alarm in pool && alarm.next != null
      modifies this`entries, head`next, head`previous, pool`next, pool`previous
      ensures Valid() && entries == Without(old(entries), alarm)
    {
      hide Linked, StandsFor;
      Unlink(alarm);
      WithoutSubset(old(entries), alarm);
    }

    /** The alarms started by one callback. */
    method RunCallback(qs: seq<Request>)
      requires Linked() && nticks == ticks % M && Proper(qs, entries, pool)
      modifies this`entries, head`next, head`previous, pool
      ensures Linked() && entries == Arrivals(qs, ticks) + old(entries)
      ensures Standing(Arrivals(qs, ticks), ticks)
      ensures forall e <- old(entries) :: e.alarm.AsTimer() == old(e.alarm.AsTimer())
    {
      hide Linked, StandsFor, Arrivals, Alarms;
      ArrivalsOf(qs[..0], ticks);
      for i := 0 to |qs|
        invariant Linked()
        invariant entries == Arrivals(qs[..i], ticks) + old(entries)
        invariant Standing(Arrivals(qs[..i], ticks), ticks)
        invariant forall e <- old(entries) :: e.alarm.AsTimer() == old(e.alarm.AsTimer())
      {
        ArrivalsStep(qs, i, ticks);
        AlarmsOf(Arrivals(qs[..i], ticks), old(entries));
        assert qs[i] in qs;
        Arm(qs[i].alarm, qs[i].nticks);
      }
      assert qs[..|qs|] == qs;
    }

    /** An alarm that has just fired, given another period. */
    method Rearm(alarm: Alarm, period: U32, ghost p: seq<Entry>, ghost e: Entry, ghost q: seq<Entry>)
      requires Linked() && nticks == ticks % M && period > 0
      requires entries == p + [e] + q && e.alarm == alarm
      requires FiresOn(alarm.AsTimer(), e.due, ticks)
      modifies this`entries, alarm`time, alarm`rollover
      ensures Linked() && entries == p + [Entry(alarm, NextDue(e.due, period, ticks))] + q
      ensures StandsFor(alarm.AsTimer(), NextDue(e.due, period, ticks), ticks)
    {
      hide Circle, Ring, Alarms;
      RearmStandsFor(alarm.AsTimer(), e.due, period, ticks);
      CircleRedated(head, p, e, Entry(alarm, NextDue(e.due, period, ticks)), q);
      hide StandsFor;
      alarm.time := (alarm.time + period) % M;
      if alarm.time < nticks {
        alarm.rollover := true;
      }
      assert alarm.AsTimer() == Rearmed(old(alarm.AsTimer()), period, nticks);
      entries := p + [Entry(alarm, NextDue(e.due, period, ticks))] + q;
    }

    /** alt_tick, after the callback: the alarm leaves the list or gets a new time. */
    method Requeue(alarm: Alarm, reply: Alarm -> Reply, ghost p: seq<Entry>, ghost e: Entry, ghost q: seq<Entry>)
      requires Linked() && nticks == ticks % M
      requires entries == p + [e] + q && e.alarm == alarm && e.due.tick == ticks
      requires FiresOn(alarm.AsTimer(), e.due, ticks)
      modifies this`entries, head`next, head`previous, pool`next, pool`previous, alarm`time, alarm`rollover
      ensures Linked()
      ensures entries == p + Survivor(e, ticks, reply) + q && Standing(Survivor(e, ticks, reply), ticks)
      ensures forall x <- p :: x.alarm.AsTimer() == old(x.alarm.AsTimer())
      ensures forall x <- q :: x.alarm.AsTimer() == old(x.alarm.AsTimer())
    {
      OnList(head, p, e, q);
      assert p + [] == p;
      hide Ring, Circle, Alarms, Without, StandsFor, FiresOn;
      var period := reply(alarm).period;
      if period == 0 {
        Unlink(alarm);
      } else {
        Rearm(alarm, period, p, e, q);
      }
    }

    /** alt_tick, for an alarm that has expired. */
    method Fire(alarm: Alarm, reply: Alarm -> Reply, ghost p: seq<Entry>, ghost e: Entry, ghost q: seq<Entry>)
      requires Linked() && nticks == ticks % M
      requires entries == p + [e] + q && e.alarm == alarm && e.due.tick == ticks
      requires FiresOn(alarm.AsTimer(), e.due, ticks)
      requires Proper(reply(alarm).starts, entries, pool)
      modifies this`entries, head`next, head`previous, pool
      ensures Linked()
      ensures entries == Arrivals(reply(alarm).starts, ticks) + p + Survivor(e, ticks, reply) + q
      ensures Standing(Arrivals(reply(alarm).starts, ticks), ticks) && Standing(Survivor(e, ticks, reply), ticks)
      ensures forall x <- p :: x.alarm.AsTimer() == old(x.alarm.AsTimer())
      ensures forall x <- q :: x.alarm.AsTimer() == old(x.alarm.AsTimer())
    {
      assert e in entries;
      hide Ring, Circle, Arrivals, StandsFor, FiresOn, Proper, Survivor;
      ghost var started := Arrivals(reply(alarm).starts, ticks);
      RunCallback(reply(alarm).starts);
      Moved(started, p, e, q);
      Requeue(alarm, reply, started + p, e, q);
    }

    /** alt_tick, one turn of the loop. */
    method Visit(alarm: Alarm, reply: Alarm -> Reply, ghost p: seq<Entry>, ghost e: Entry, ghost q: seq<Entry>)
      returns (fires: bool)
      requires Linked() && nticks == ticks % M && ticks > 0
      requires entries == p + [e] + q && e.alarm == alarm
      requires Standing(p, ticks) && StandsFor(alarm.AsTimer(), e.due, ticks - 1) && Standing(q, ticks - 1)
      requires Proper(Asked(e, ticks, reply), entries, pool)
      modifies this`entries, head`next, head`previous, pool
      ensures Linked() && fires == (e.due.tick == ticks)
      ensures entries == Arrivals(Asked(e, ticks, reply), ticks) + p + Survivor(e, ticks, reply) + q
      ensures Standing(Arrivals(Asked(e, ticks, reply), ticks), ticks) && Standing(p, ticks)
      ensures Standing(Survivor(e, ticks, reply), ticks) && Standing(q, ticks - 1)
    {
      hide Ring, Circle, Arrivals, StandsFor, FiresOn, Proper, Alarms, Without;
      OnList(head, p, e, q);
      assert alarm in pool;
      hide Linked;
      ExpiresWhenDue(alarm.AsTimer(), e.due, ticks - 1);
      ArrivalsOf([], ticks);
      assert [] + p == p;
      if alarm.rollover && nticks == 0 {
        alarm.rollover := false;
      }
      fires := alarm.time <= nticks && !alarm.rollover;
      if fires {
        Fire(alarm, reply, p, e, q);
      }
    }

    /** The walk of alt_tick has dealt with the entries `was` and still has `rest` before it. */
    ghost predicate Walking(was: seq<Entry>, rest: seq<Entry>, reply: Alarm -> Reply)
      reads this, head, pool
    {
      && Linked() && nticks == ticks % M && ticks > 0
      && entries == AfterTick(was, ticks, reply) + rest
      && head !in pool && (forall x <- rest :: x.alarm in pool)
      && Standing(AfterTick(was, ticks, reply), ticks) && Standing(rest, ticks - 1)
    }

    /** The node reached with `rest` still to visit. */
    ghost function FirstOf(rest: seq<Entry>): Alarm {
      if rest == [] then head else rest[0].alarm
    }

    lemma WalkStarts(es: seq<Entry>, reply: Alarm -> Reply)
      requires Linked() && nticks == ticks % M && ticks > 0 && entries == es && Standing(es, ticks - 1)
      ensures Walking([], es, reply) && head.next == FirstOf(es)
      ensures [] + es == es && Fired([], ticks) == [] && Names([]) == []
    {
      FirstOnList(head, es);
      assert AfterTick([], ticks, reply) == [] && [] + es == es;
      assert forall x <- es :: x.alarm in Alarms(es);
    }

    /** Before a turn of the loop: where the next alarm stands. */
    lemma WalkTurns(was: seq<Entry>, rest: seq<Entry>, reply: Alarm -> Reply)
      requires rest != [] && Walking(was, rest, reply)
      requires Proper(Requests(was + rest, ticks, reply), was + rest, pool)
      ensures (
        var done, e, q := AfterTick(was, ticks, reply), rest[0], rest[1..];
        && Linked() && nticks == ticks % M && ticks > 0
        && entries == done + [e] + q && e.alarm.next == FirstOf(q)
        && Standing(done, ticks) && StandsFor(e.alarm.AsTimer(), e.due, ticks - 1) && Standing(q, ticks - 1)
        && Proper(Asked(e, ticks, reply), entries, pool))
    {
      var done, e, q := AfterTick(was, ticks, reply), rest[0], rest[1..];
      hide Linked, Ring, Circle, Arrivals, StandsFor, Alarms, Asked, Proper, AfterTick, Requests;
      Regroup(was, rest, ticks - 1);
      Regroup(done, rest, ticks - 1);
      assert Ring(Circle(head, entries)) by { OnRing(); }
      NextOnList(head, done, e, q);
      ProperStep(was, e, q, ticks, reply, pool);
    }

    lemma OnRing()
      requires Linked()
      ensures Ring(Circle(head, entries))
    {}

    /** After a turn of the loop. */
    lemma WalkTurned(was: seq<Entry>, rest: seq<Entry>, reply: Alarm -> Reply)
      requires rest != [] && Linked() && nticks == ticks % M && ticks > 0
      requires head !in pool && forall x <- rest :: x.alarm in pool
      requires (
        var s, done := Arrivals(Asked(rest[0], ticks, reply), ticks), AfterTick(was, ticks, reply);
        var left := Survivor(rest[0], ticks, reply);
        && entries == s + done + left + rest[1..]
        && Standing(s, ticks) && Standing(done, ticks) && Standing(left, ticks) && Standing(rest[1..], ticks - 1))
      ensures Walking(was + [rest[0]], rest[1..], reply)
      ensures Fired(was + [rest[0]], ticks) == Fired(was, ticks) + Fires(rest[0], ticks)
      ensures Names(was + [rest[0]]) == Names(was) + [rest[0].alarm]
      ensures was + [rest[0]] + rest[1..] == was + rest
    {
      var e := rest[0];
      AfterTickStep(was, e, ticks, reply);
      NamesStep(was, e);
      Regroup(was, rest, ticks - 1);
      var s, done := Arrivals(Asked(e, ticks, reply), ticks), AfterTick(was, ticks, reply);
      StandingThrough(s, done, Survivor(e, ticks, reply), ticks);
    }

    lemma WalkEnds(was: seq<Entry>, rest: seq<Entry>, reply: Alarm -> Reply)
      requires Walking(was, rest, reply) && FirstOf(rest) == head
      ensures rest == [] && was + rest == was && Linked() && nticks == ticks % M
      ensures entries == AfterTick(was, ticks, reply) && Standing(entries, ticks)
    {
      assert AfterTick(was, ticks, reply) + [] == AfterTick(was, ticks, reply);
    }

    /** alt_tick, one turn of the loop, with the next alarm picked up before the callback. */
    method Advance(alarm: Alarm, reply: Alarm -> Reply, ghost was: seq<Entry>, ghost rest: seq<Entry>)
      returns (next: Alarm, fires: bool)
      requires rest != [] && alarm == rest[0].alarm && Walking(was, rest, reply)
      requires Proper(Requests(was + rest, ticks, reply), was + rest, pool)
      modifies this`entries, head`next, head`previous, pool
      ensures Walking(was + [rest[0]], rest[1..], reply) && next == FirstOf(rest[1..])
      ensures fires == (rest[0].due.tick == ticks)
      ensures Fired(was + [rest[0]], ticks) == Fired(was, ticks) + Fires(rest[0], ticks)
      ensures Names(was + [rest[0]]) == Names(was) + [rest[0].alarm]
      ensures was + [rest[0]] + rest[1..] == was + rest
    {
      WalkTurns(was, rest, reply);
      assert head !in pool && forall x <- rest :: x.alarm in pool;
      hide *;
      next := alarm.next;
      fires := Visit(alarm, reply, AfterTick(was, ticks, reply), rest[0], rest[1..]);
      WalkTurned(was, rest, reply);
    }

    /** alt_tick: one walk through the list, with `reply` telling what each callback does. */
    method Tick(reply: Alarm -> Reply) returns (fired: seq<Alarm>, ghost visited: seq<Alarm>)
      requires Valid() && Proper(Requests(entries, ticks + 1, reply), entries, pool)
      modifies this`nticks, this`ticks, this`entries, head`next, head`previous, pool
      ensures Valid() && ticks == old(ticks) + 1
      ensures visited == Names(old(entries))
      ensures fired == Fired(old(entries), ticks)
      ensures entries == AfterTick(old(entries), ticks, reply)
    {
      hide Linked, Ring, Circle, Arrivals, StandsFor, Alarms, Proper, Standing, Fired, Names, Walking, FirstOf, Requests;
      ghost var es, was, rest := entries, [], entries;
      var alarm := head.next;
      nticks := (nticks + 1) % M;
      ticks := ticks + 1;
      fired, visited := [], [];
      WalkStarts(es, reply);
      while alarm != head
        invariant es == was + rest && Walking(was, rest, reply) && ticks == old(ticks) + 1
        invariant alarm == FirstOf(rest)
        invariant fired == Fired(was, ticks) && visited == Names(was)
        decreases |rest|
      {
        assert rest != [] && alarm == rest[0].alarm by { FirstOfRest(rest); }
        var next, fires := Advance(alarm, reply, was, rest);
        if fires {
          fired := fired + [alarm];
        }
        visited := visited + [alarm];
        alarm, was, rest := next, was + [rest[0]], rest[1..];
      }
      WalkEnds(was, rest, reply);
    }

    lemma FirstOfRest(rest: seq<Entry>)
      requires FirstOf(rest) != head
      ensures rest != [] && FirstOf(rest) == rest[0].alarm
    {}
  }
}
