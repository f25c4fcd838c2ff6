/** The timed scheduler and the driver loop of the game, proved to perform possible logs. */
module Schedulers {
  import opened Options
  import opened Timers
  import opened SchedulerRuns
  import opened DueHeaps

  const MAX_GLOBAL_CATCH_UP: nat := 64

  /** A monotone clock; every reading may come any time later than the one before. */
  class Clock {
    var time: nat

    constructor ()
    {
      time := 0;
    }

    method Now() returns (now: nat)
      modifies this
      ensures now == time >= old(time)
    {
      var passed: int := *;
      if passed > 0 {
        time := time + passed;
      }
      now := time;
    }
  }

  class TimedSchedule {
    const name: string
    const period: nat
    var behavior: Behavior
    var phase: nat
    var maxCatchUp: nat
    var nextDue: nat
    var burstCount: nat

    constructor (name: string, period: nat, now: nat)
      ensures this.name == name && this.period == period
      ensures Value() == Timer(period, Burst, 0, 8, now, 0)
    {
      this.name, this.period := name, period;
      behavior, phase, maxCatchUp, nextDue, burstCount := Burst, 0, 8, now, 0;
    }

    function Value(): Timer
      reads this
    {
      Timer(period, behavior, phase, maxCatchUp, nextDue, burstCount)
    }

    method WithBehavior(b: Behavior)
      modifies this
      ensures Value() == old(Value()).(behavior := b)
    {
      behavior := b;
    }

    method WithPhase(p: nat)
      modifies this
      ensures Value() == old(Value()).(phase := p)
    {
      phase := p;
    }

    method WithMaxCatchUp(n: nat)
      modifies this
      ensures Value() == old(Value()).(maxCatchUp := if n == 0 then 1 else n)
    {
      maxCatchUp := if n == 0 then 1 else n;
    }

    method InitDeadlines(now: nat)
      modifies this
      ensures Value() == old(Value()).(nextDue := now + phase, burst := 0)
    {
      nextDue := now + phase;
      burstCount := 0;
    }

    /** Advances the deadline period by period until it lies after `now`. */
    method SkipPast(now: nat)
      requires period > 0
      modifies this`nextDue
      ensures nextDue == Slot(old(nextDue), period, Missed(old(nextDue), period, now))
    {
      ghost var k := 0;
      while nextDue <= now
        invariant nextDue == Slot(old(nextDue), period, k)
        invariant k <= Missed(old(nextDue), period, now)
        decreases if nextDue <= now then now + 1 - nextDue else 0
      {
        MissedIsLeast(old(nextDue), period, now, k);
        SlotOrder(old(nextDue), period, k, k + 1);
        nextDue := nextDue + period;
        k := k + 1;
      }
      MissedIsLeast(old(nextDue), period, now, k);
    }

    method RescheduleAfterRun(now: nat)
      requires Valid(Value())
      modifies this
      ensures Value() == Rescheduled(old(Value()), now)
    {
      match behavior
      case Delay =>
        nextDue := now + period;
        burstCount := 0;
      case Burst =>
        nextDue := nextDue + period;
        if nextDue <= now {
          if burstCount + 1 < maxCatchUp {
            burstCount := burstCount + 1;
          } else {
            SkipPast(now);
            burstCount := 0;
          }
        } else {
          burstCount := 0;
        }
      case Skip =>
        nextDue := nextDue + period;
        if nextDue <= now {
          SkipPast(now);
        }
        burstCount := 0;
    }
  }

  /** The heap holds exactly one entry, equal to its deadline, for every schedule not in `out`. */
  ghost predicate Queued(entries: multiset<Entry>, ts: seq<Timer>, out: set<nat>) {
    forall e :: entries[e] == if e.idx < |ts| && e.idx !in out && e.when == ts[e.idx].nextDue then 1 else 0
  }

  class Scheduler {
    var schedules: seq<TimedSchedule>
    const heap: DueHeap

    /** The deadlines and settings of all schedules, by registration index. */
    function Values(): (ts: seq<Timer>)
      reads this, schedules
      ensures |ts| == |schedules|
    {
      seq(|schedules|, i requires 0 <= i < |schedules| reads this, schedules => schedules[i].Value())
    }

    /** `out` are the schedules popped and not yet returned by `AfterRun`. */
    ghost predicate Consistent(out: set<nat>)
      reads this, heap, schedules
    {
      && (forall i, j :: 0 <= i < j < |schedules| ==> schedules[i] != schedules[j])
      && AllValid(Values())
      && heap.Ordered()
      && Queued(multiset(heap.entries), Values(), out)
    }

    constructor ()
      ensures Consistent({}) && schedules == [] && fresh(heap)
    {
      schedules := [];
      heap := new DueHeap();
    }

    method Register(schedule: TimedSchedule, now: nat)
      requires Consistent({}) && schedule !in schedules && schedule.period > 0 && schedule.maxCatchUp > 0
      modifies this`schedules, heap, schedule
      ensures Consistent({}) && schedules == old(schedules) + [schedule]
      ensures Values() == old(Values()) + [old(schedule.Value()).(nextDue := now + schedule.phase, burst := 0)]
    {
      ghost var before := Values();
      schedule.InitDeadlines(now);
      var idx := |schedules|;
      var next := schedule.nextDue;
      schedules := schedules + [schedule];
      assert Values() == before + [schedule.Value()];
      assert Valid(schedule.Value());
      assert AllValid(Values());
      heap.Push(Entry(next, idx));
      assert Values() == before + [schedule.Value()];
    }

    method PeekNextDue() returns (next: Option<Entry>)
      requires Consistent({})
      ensures schedules == [] ==> next == None
      ensures schedules != [] ==> next.Some? && IsNext(Values(), next.value)
    {
      next := heap.Peek();
      FirstIsNext(multiset(heap.entries), Values(), next);
    }

    method PopNextDue() returns (next: Option<Entry>)
      requires Consistent({})
      modifies heap
      ensures schedules == [] ==> next == None && Consistent({})
      ensures schedules != [] ==> next.Some? && IsNext(Values(), next.value) && Consistent({next.value.idx})
    {
      ghost var before := multiset(heap.entries);
      next := heap.Pop();
      FirstIsNext(before, Values(), next);
    }

    /** Reschedules schedule `idx`, whose run ended at `now`, and queues it again. */
    method AfterRun(idx: nat, now: nat)
      requires idx < |schedules| && Consistent({idx})
      modifies heap, schedules[idx]
      ensures Consistent({})
      ensures Values() == old(Values())[idx := Rescheduled(old(Values())[idx], now)]
    {
      ghost var before := Values();
      var sched := schedules[idx];
      assert before[idx] == sched.Value() && Valid(before[idx]);
      sched.RescheduleAfterRun(now);
      assert Values() == before[idx := Rescheduled(before[idx], now)];
      var when := sched.nextDue;
      heap.Push(Entry(when, idx));
    }

    /** The log leads from the deadlines `start` to the present ones. */
    ghost predicate Tracks(start: seq<Timer>, log: Log)
      reads this, schedules
    {
      AllValid(start) && Possible(start, log) && Values() == AfterLog(start, log)
    }

    /** One catch-up pass of the driver loop, continuing the log of the passes before it: run whatever is due,
        at most `MAX_GLOBAL_CATCH_UP` schedules.  Without a registered schedule the loop of the source never
        ends. */
    method RunDue(clock: Clock, ghost start: seq<Timer>, ghost history: Log) returns (ranCount: nat, ghost log: Log)
      requires Consistent({}) && schedules != [] && Tracks(start, history)
      modifies heap, schedules, clock
      ensures Consistent({}) && schedules == old(schedules) && Tracks(start, log)
      ensures ranCount <= 64 && Length(log) == Length(history) + ranCount
      ensures ranCount < 64 ==> forall t :: t in Values() ==> t.nextDue > clock.time
    {
      ranCount, log := 0, history;
      while true
        invariant Consistent({}) && schedules == old(schedules) && Tracks(start, log)
        invariant ranCount <= MAX_GLOBAL_CATCH_UP && Length(log) == Length(history) + ranCount
        decreases MAX_GLOBAL_CATCH_UP - ranCount
      {
        if ranCount >= MAX_GLOBAL_CATCH_UP {
          break;
        }
        var ran;
        ran, log := RunIfDue(clock, start, log);
        if !ran {
          break;
        }
        ranCount := ranCount + 1;
      }
    }

    method RunIfDue(clock: Clock, ghost start: seq<Timer>, ghost history: Log) returns (ran: bool, ghost log: Log)
      requires Consistent({}) && schedules != [] && Tracks(start, history)
      modifies heap, schedules, clock
      ensures Consistent({}) && schedules == old(schedules) && Tracks(start, log)
      ensures Length(log) == Length(history) + if ran then 1 else 0
      ensures !ran ==> forall t :: t in Values() ==> t.nextDue > clock.time
    {
      var now := clock.Now();
      var next := PeekNextDue();
      ran, log := next.value.when <= now, history;
      if ran {
        ghost var x := RunNext(clock, next.value, now);
        log := Ran(history, x);
      } else {
        NothingDue(Values(), next.value, now);
      }
    }

    /** Pops the peeked schedule, runs it for however long it takes, and reschedules it. */
    method RunNext(clock: Clock, next: Entry, now: nat) returns (ghost x: Execution)
      requires Consistent({}) && IsNext(Values(), next) && next.when <= now <= clock.time
      modifies heap, schedules, clock
      ensures Consistent({}) && x.idx == next.idx && CanRun(old(Values()), x)
      ensures Values() == SchedulerRuns.AfterRun(old(Values()), x)
    {
      var popped := PopNextDue();
      NextIsUnique(Values(), popped.value, next);
      var started := clock.Now();
      var finished := clock.Now();
      x := Execution(next.idx, next.when, started, finished);
      AfterRun(next.idx, finished);
    }
  }

  /** A schedule a plugin asked for. */
  datatype Pending = Pending(name: string, period: nat, behavior: Behavior, phase: nat, maxCatchUp: nat)

  /** The timer a registration at time `now` leaves in the scheduler. */
  function Registered(p: Pending, now: nat): Timer {
    Timer(p.period, p.behavior, p.phase, if p.maxCatchUp == 0 then 1 else p.maxCatchUp, now + p.phase, 0)
  }

  ghost predicate RegisteredWithin(t: Timer, p: Pending, from: nat, to: nat) {
    from + p.phase <= t.nextDue <= to + p.phase && t == Registered(p, t.nextDue - p.phase)
  }

  const SECOND: nat := 1_000_000_000

  /** The server's own schedules at `tps` ticks per second. */
  function ServerSchedules(tps: nat): seq<Pending>
    requires tps > 0
  {
    [Pending("tick", SECOND / tps, Burst, 0, 5),
     Pending("world_sync", 15 * SECOND, Skip, 0, 8),
     Pending("chunk_gc", 5 * SECOND, Skip, 0, 8),
     Pending("keepalive", SECOND, Skip, 250_000_000, 8)]
  }

  /** What the server registers for itself: ticks that fill a second without exceeding it and may be caught up five in a
      row; saving every 15 seconds, collecting every 5 and keep-alives every second, a quarter of a second off the
      others, all three skipping what they miss. */
  lemma ServerRates(tps: nat)
    requires tps > 0
    ensures var s := ServerSchedules(tps);
            && |s| == 4 && (forall p :: p in s ==> p.name in {"tick", "world_sync", "chunk_gc", "keepalive"})
            && (forall p :: p in s ==> (p.name == "tick" <==> p.behavior == Burst) && p.behavior != Delay)
            && (forall p :: p in s && p.name == "tick" ==>
                  tps * p.period <= 1_000_000_000 < tps * (p.period + 1) && p.maxCatchUp == 5)
            && (forall p :: p in s && p.name == "world_sync" ==> p.period == 15_000_000_000)
            && (forall p :: p in s && p.name == "chunk_gc" ==> p.period == 5_000_000_000)
            && (forall p :: p in s && p.name == "keepalive" ==> p.period == 1_000_000_000 && p.phase == 250_000_000)
            && (forall p :: p in s && p.name != "keepalive" ==> p.phase == 0)
            && (forall i, j :: 0 <= i < j < 4 ==> s[i].name != s[j].name)
  {
    var q := SECOND / tps;
    assert SECOND == q * tps + SECOND % tps;
  }

  method RegisterPending(timed: Scheduler, clock: Clock, p: Pending)
    requires timed.Consistent({}) && p.period > 0
    modifies timed, timed.heap, clock
    ensures timed.Consistent({}) && clock.time >= old(clock.time)
    ensures |timed.schedules| == |old(timed.schedules)| + 1
    ensures timed.schedules[..|old(timed.schedules)|] == old(timed.schedules)
    ensures fresh(timed.schedules[|old(timed.schedules)|])
    ensures timed.Values() == old(timed.Values()) + [Registered(p, clock.time)]
  {
    ghost var before := timed.Values();
    var now := clock.Now();
    var schedule := IntoTimed(p, now);
    assert timed.Values() == before;
    now := clock.Now();
    timed.Register(schedule, now);
  }

  method IntoTimed(p: Pending, now: nat) returns (schedule: TimedSchedule)
    ensures fresh(schedule) && schedule.Value() == Registered(p, now).(nextDue := now)
  {
    schedule := new TimedSchedule(p.name, p.period, now);
    schedule.WithBehavior(p.behavior);
    schedule.WithPhase(p.phase);
    schedule.WithMaxCatchUp(p.maxCatchUp);
  }

  /** Registers the server's schedules and then the plugins' in order, each starting on its own phase. */
  method BuildTimedScheduler(tps: nat, plugins: seq<Pending>, clock: Clock) returns (timed: Scheduler)
    requires 0 < tps <= SECOND && forall p :: p in plugins ==> p.period > 0
    modifies clock
    ensures timed.Consistent({}) && fresh(timed) && fresh(timed.heap) && fresh(timed.schedules)
    ensures |timed.schedules| == |ServerSchedules(tps) + plugins|
    ensures forall i :: 0 <= i < |timed.schedules| ==>
              RegisteredWithin(timed.Values()[i], (ServerSchedules(tps) + plugins)[i], old(clock.time), clock.time)
  {
    timed := new Scheduler();
    var wanted := ServerSchedules(tps) + plugins;
    for i := 0 to |wanted|
      invariant timed.Consistent({}) && fresh(timed.schedules) && |timed.schedules| == i
      invariant clock.time >= old(clock.time)
      invariant forall j :: 0 <= j < i ==>
                  RegisteredWithin(timed.Values()[j], wanted[j], old(clock.time), clock.time)
    {
      ghost var before := timed.Values();
      RegisterPending(timed, clock, wanted[i]);
      assert forall j :: 0 <= j < i ==> timed.Values()[j] == before[j];
    }
  }

  /** The main loop up to shutdown: passes and waits.  Its whole log is possible from the deadlines it started
      with, so schedules ran in global due order. */
  method MainLoop(timed: Scheduler, clock: Clock, iterations: nat) returns (ghost log: Log)
    requires timed.Consistent({}) && timed.schedules != []
    modifies timed.heap, timed.schedules, clock
    ensures timed.Consistent({}) && timed.schedules == old(timed.schedules)
    ensures Possible(old(timed.Values()), log) && timed.Values() == AfterLog(old(timed.Values()), log)
    ensures Length(log) <= 64 * iterations
    ensures forall k, l :: 0 <= k < l < |Entries(log)| ==>
              var first, second := Entries(log)[k], Entries(log)[l];
              first.when < second.when || (first.when == second.when && first.idx < second.idx)
    ensures forall x :: x in Executions(log) ==> x.due <= x.started <= x.finished
  {
    ghost var start := timed.Values();
    log := Empty;
    for i := 0 to iterations
      invariant timed.Consistent({}) && timed.schedules == old(timed.schedules)
      invariant timed.Tracks(start, log)
      invariant Length(log) <= MAX_GLOBAL_CATCH_UP * i
    {
      var ranCount;
      ranCount, log := timed.RunDue(clock, start, log);
    }
    RunsInDueOrder(start, log);
    NothingRunsEarly(start, log);
  }

  /** The server from start to shutdown.  Its own four schedules are always registered, so the loop has something to
      wait for; from the deadlines they and the plugins' get, everything runs in due order. */
  method StartGameLoop(tps: nat, plugins: seq<Pending>, clock: Clock, iterations: nat)
    returns (ghost built: nat, ghost start: seq<Timer>, ghost log: Log)
    requires 0 < tps <= SECOND && forall p :: p in plugins ==> p.period > 0
    modifies clock
    ensures |start| == 4 + |plugins| && AllValid(start) && Possible(start, log)
    ensures forall i :: 0 <= i < |start| ==>
              RegisteredWithin(start[i], (ServerSchedules(tps) + plugins)[i], old(clock.time), built)
    ensures forall i :: 0 <= i < |start| ==>
              var t, p := start[i], (ServerSchedules(tps) + plugins)[i];
              && t.period == p.period && t.behavior == p.behavior && t.burst == 0
              && t.maxCatchUp == (if p.maxCatchUp == 0 then 1 else p.maxCatchUp)
              && old(clock.time) + p.phase <= t.nextDue <= built + p.phase
    ensures Length(log) <= 64 * iterations
    ensures forall k, l :: 0 <= k < l < |Entries(log)| ==>
              var first, second := Entries(log)[k], Entries(log)[l];
              first.when < second.when || (first.when == second.when && first.idx < second.idx)
    ensures forall x :: x in Executions(log) ==> x.due <= x.started <= x.finished
  {
    var timed := BuildTimedScheduler(tps, plugins, clock);
    built, start := clock.time, timed.Values();
    log := MainLoop(timed, clock, iterations);
  }

  lemma FirstIsNext(entries: multiset<Entry>, ts: seq<Timer>, first: Option<Entry>)
    requires Queued(entries, ts, {})
    requires first.Some? <==> entries != multiset{}
    requires first.Some? ==> IsLeast(first.value, entries)
    ensures first.Some? <==> ts != []
    ensures first.Some? ==> IsNext(ts, first.value)
    ensures first.Some? ==> Queued(entries - multiset{first.value}, ts, {first.value.idx})
  {
    if ts != [] {
      assert entries[EntryOf(ts, 0)] == 1;
    }
    if first.Some? {
      var e := first.value;
      forall j | 0 <= j < |ts| && j != e.idx
        ensures Earlier(e, EntryOf(ts, j))
      {
        assert entries[EntryOf(ts, j)] == 1;
      }
    }
  }

  lemma NextIsUnique(ts: seq<Timer>, a: Entry, b: Entry)
    requires IsNext(ts, a) && IsNext(ts, b)
    ensures a == b
  {
    assert a.idx != b.idx ==> Earlier(a, b);
    assert a.idx != b.idx ==> Earlier(b, a);
  }

  lemma NothingDue(ts: seq<Timer>, e: Entry, now: nat)
    requires IsNext(ts, e) && e.when > now
    ensures forall t :: t in ts ==> t.nextDue > now
  {
    forall t | t in ts
      ensures t.nextDue > now
    {
      var j :| 0 <= j < |ts| && ts[j] == t;
      assert j != e.idx ==> Earlier(e, EntryOf(ts, j));
    }
  }
}
