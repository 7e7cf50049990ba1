/**
 The alarm service driven through a whole run: its fields go where the run of AlarmRuns goes, and the callbacks it
 makes are the firings that the theorems there are about.
 */
module AlarmHistory {
  import opened Hal
  import opened LinkedList
  import opened AlarmTimer
  import opened AlarmSchedule
  import opened AlarmRuns
  import opened AlarmList

  /** What the service demands of its callers: start alarms that are not registered, and stop ones that are. */
  ghost predicate Allowed(es: seq<Entry>, tick: nat, ev: Event, pool: set<Alarm>) {
    match ev
    case Ticking(reply) => Proper(Requests(es, tick + 1, reply), es, pool)
    case Starting(b, _) => b in pool && b !in Alarms(es)
    case Stopping(b) => b in pool && b in Alarms(es)
  }

  ghost predicate AllowedRun(es: seq<Entry>, tick: nat, run: seq<Event>, pool: set<Alarm>)
    decreases |run|
  {
    run == [] ||
    (Allowed(es, tick, run[0], pool) && AllowedRun(After(es, tick, run[0]), TickOf(tick, run[0]), run[1..], pool))
  }

  function FiredBy(es: seq<Entry>, tick: nat, ev: Event): seq<seq<Alarm>> {
    if ev.Ticking? then [Fired(es, tick + 1)] else []
  }

  /** Which alarms fire, tick by tick. */
  function Log(es: seq<Entry>, tick: nat, run: seq<Event>): seq<seq<Alarm>>
    decreases |run|
  {
    if run == [] then [] else
      FiredBy(es, tick, run[0]) + Log(After(es, tick, run[0]), TickOf(tick, run[0]), run[1..])
  }

  function Final(es: seq<Entry>, tick: nat, run: seq<Event>): seq<Entry>
    decreases |run|
  {
    if run == [] then es else Final(After(es, tick, run[0]), TickOf(tick, run[0]), run[1..])
  }

  function FinalTick(tick: nat, run: seq<Event>): nat
    decreases |run|
  {
    if run == [] then tick else FinalTick(TickOf(tick, run[0]), run[1..])
  }

  /** The ticks on which `a` fires according to a log that begins after tick number `tick`. */
  function InLog(log: seq<seq<Alarm>>, tick: nat, a: Alarm): seq<nat> {
    if log == [] then [] else Hits(log[0], a, tick + 1) + InLog(log[1..], tick + 1, a)
  }

  lemma {:induction false} LogIsFirings(es: seq<Entry>, tick: nat, run: seq<Event>, a: Alarm)
    ensures InLog(Log(es, tick, run), tick, a) == Firings(es, tick, run, a)
    decreases |run|
  {
    hide Hits, Fired, After;
    if run != [] {
      var es', tick' := After(es, tick, run[0]), TickOf(tick, run[0]);
      LogIsFirings(es', tick', run[1..], a);
      var rest := Log(es', tick', run[1..]);
      if run[0].Ticking? {
        assert Log(es, tick, run) == [Fired(es, tick + 1)] + rest;
        assert ([Fired(es, tick + 1)] + rest)[1..] == rest;
      } else {
        assert Log(es, tick, run) == [] + rest == rest;
      }
    }
  }

  lemma RegisteredLinked(service: AlarmService, b: Alarm)
    requires service.Linked() && b in Alarms(service.entries)
    ensures b.next != null
  {
    var p, e, q := Locate(service.entries, b);
    NextOnList(service.head, p, e, q);
  }

  /** One event. */
  method Do(service: AlarmService, ev: Event) returns (fired: seq<seq<Alarm>>)
    requires service.Valid() && service.rate != 0
    requires Allowed(service.entries, service.ticks, ev, service.pool)
    modifies service`nticks, service`ticks, service`entries, service.head`next, service.head`previous, service.pool
    ensures service.Valid()
    ensures service.entries == After(old(service.entries), old(service.ticks), ev)
    ensures service.ticks == TickOf(old(service.ticks), ev)
    ensures fired == FiredBy(old(service.entries), old(service.ticks), ev)
  {
    fired := [];
    match ev
    case Ticking(reply) =>
      hide AlarmService.Valid, Proper, Requests, AfterTick, Fired;
      ghost var visited;
      var now;
      now, visited := service.Tick(reply);
      fired := [now];
    case Starting(b, n) =>
      var r := service.Start(b, n);
    case Stopping(b) =>
      RegisteredLinked(service, b);
      hide AlarmService.Linked, Without;
      service.Stop(b);
  }

  /** Any run: the service ends with the entries of the run, and has called back what the run fires. */
  method Drive(service: AlarmService, run: seq<Event>) returns (log: seq<seq<Alarm>>)
    requires service.Valid() && service.rate != 0
    requires AllowedRun(service.entries, service.ticks, run, service.pool)
    modifies service`nticks, service`ticks, service`entries, service.head`next, service.head`previous, service.pool
    ensures service.Valid()
    ensures service.entries == Final(old(service.entries), old(service.ticks), run)
    ensures service.ticks == FinalTick(old(service.ticks), run)
    ensures forall a: Alarm <- service.pool ::
              InLog(log, old(service.ticks), a) == Firings(old(service.entries), old(service.ticks), run, a)
  {
    hide AlarmService.Valid, Allowed, After, TickOf, FiredBy;
    ghost var es, tick := service.entries, service.ticks;
    log := [];
    for i := 0 to |run|
      invariant service.Valid() && AllowedRun(service.entries, service.ticks, run[i..], service.pool)
      invariant Final(es, tick, run) == Final(service.entries, service.ticks, run[i..])
      invariant FinalTick(tick, run) == FinalTick(service.ticks, run[i..])
      invariant Log(es, tick, run) == log + Log(service.entries, service.ticks, run[i..])
    {
      assert run[i..][0] == run[i] && run[i..][1..] == run[i + 1..];
      var fired := Do(service, run[i]);
      log := log + fired;
    }
    assert run[|run|..] == [];
    assert log + [] == log;
    forall a <- service.pool ensures InLog(log, tick, a) == Firings(es, tick, run, a) {
      LogIsFirings(es, tick, run, a);
    }
  }
}
