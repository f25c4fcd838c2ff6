/** What the timed scheduler guarantees over whole runs of its driver loop. */
module SchedulerRuns {
  import opened Timers

  /** A queue entry: the heap yields the least by due time, ties by registration index. */
  datatype Entry = Entry(when: nat, idx: nat)

  predicate Earlier(a: Entry, b: Entry) {
    a.when < b.when || (a.when == b.when && a.idx < b.idx)
  }

  /** One execution of a schedule: which one, when it was due, when it started and when it ended. */
  datatype Execution = Execution(idx: nat, due: nat, started: nat, finished: nat)

  datatype Log = Empty | Ran(before: Log, last: Execution)

  predicate AllValid(ts: seq<Timer>) {
    forall t :: t in ts ==> Valid(t)
  }

  function EntryOf(ts: seq<Timer>, i: nat): Entry
    requires i < |ts|
  {
    Entry(ts[i].nextDue, i)
  }

  ghost predicate IsNext(ts: seq<Timer>, e: Entry) {
    e.idx < |ts| && e == EntryOf(ts, e.idx) &&
    forall j :: 0 <= j < |ts| && j != e.idx ==> Earlier(e, EntryOf(ts, j))
  }

  /** The loop may execute `x` now: it is the next schedule and it is due. */
  ghost predicate CanRun(ts: seq<Timer>, x: Execution) {
    IsNext(ts, Entry(x.due, x.idx)) && x.due <= x.started <= x.finished
  }

  ghost function AfterRun(ts: seq<Timer>, x: Execution): (r: seq<Timer>)
    requires AllValid(ts) && x.idx < |ts|
    ensures |r| == |ts| && AllValid(r)
  {
    assert Valid(ts[x.idx]);
    ts[x.idx := Rescheduled(ts[x.idx], x.finished)]
  }

  /** A log is possible from `ts` if every execution was the next due one when it ran. */
  ghost predicate Possible(ts: seq<Timer>, log: Log)
    requires AllValid(ts)
    decreases log, 0
  {
    log.Ran? ==> Possible(ts, log.before) && CanRun(AfterLog(ts, log.before), log.last)
  }

  ghost function AfterLog(ts: seq<Timer>, log: Log): (r: seq<Timer>)
    requires AllValid(ts) && Possible(ts, log)
    ensures |r| == |ts| && AllValid(r)
    decreases log, 1
  {
    match log
    case Empty => ts
    case Ran(before, x) => AfterRun(AfterLog(ts, before), x)
  }

  function Entries(log: Log): seq<Entry> {
    match log
    case Empty => []
    case Ran(before, x) => Entries(before) + [Entry(x.due, x.idx)]
  }

  /** How often schedule `j` ran. */
  function Count(log: Log, j: nat): nat {
    match log
    case Empty => 0
    case Ran(before, x) => Count(before, j) + if x.idx == j then 1 else 0
  }

  function Length(log: Log): nat {
    match log
    case Empty => 0
    case Ran(before, _) => Length(before) + 1
  }

  // ---------------------------------------------------------------------------------------------
  // Global due order
  // ---------------------------------------------------------------------------------------------

  lemma RunMovesBack(ts: seq<Timer>, x: Execution)
    requires AllValid(ts) && CanRun(ts, x)
    ensures ts[x.idx].nextDue + ts[x.idx].period <= Rescheduled(ts[x.idx], x.finished).nextDue
    ensures forall j :: 0 <= j < |ts| ==> Earlier(Entry(x.due, x.idx), EntryOf(AfterRun(ts, x), j))
  {
    assert Valid(ts[x.idx]);
    var r := AfterRun(ts, x);
    forall j | 0 <= j < |ts|
      ensures Earlier(Entry(x.due, x.idx), EntryOf(r, j))
    {
      if j != x.idx {
        assert EntryOf(r, j) == EntryOf(ts, j);
      }
    }
  }

  /** Everything still queued comes after everything that ran. */
  lemma {:induction false} QueueAfterLog(ts: seq<Timer>, log: Log)
    requires AllValid(ts) && Possible(ts, log)
    ensures forall k, j :: 0 <= k < |Entries(log)| && 0 <= j < |ts| ==>
              Earlier(Entries(log)[k], EntryOf(AfterLog(ts, log), j))
  {
    if log.Ran? {
      QueueAfterLog(ts, log.before);
      var m, x := AfterLog(ts, log.before), log.last;
      RunMovesBack(m, x);
      forall k, j | 0 <= k < |Entries(log)| && 0 <= j < |ts|
        ensures Earlier(Entries(log)[k], EntryOf(AfterLog(ts, log), j))
      {
        if k < |Entries(log.before)| {
          assert Earlier(Entries(log.before)[k], EntryOf(m, x.idx));
          assert Earlier(Entry(x.due, x.idx), EntryOf(AfterLog(ts, log), j));
        }
      }
    }
  }

  /** DUE ORDER.  Over a whole run, however late the runs are and whatever the behaviours, schedules execute in
      strictly increasing order of (due time, index). */
  lemma {:induction false} RunsInDueOrder(ts: seq<Timer>, log: Log)
    requires AllValid(ts) && Possible(ts, log)
    ensures forall k, l :: 0 <= k < l < |Entries(log)| ==>
              var first, second := Entries(log)[k], Entries(log)[l];
              first.when < second.when || (first.when == second.when && first.idx < second.idx)
  {
    if log.Ran? {
      RunsInDueOrder(ts, log.before);
      QueueAfterLog(ts, log.before);
      var m, x := AfterLog(ts, log.before), log.last;
      forall k | 0 <= k < |Entries(log.before)|
        ensures Earlier(Entries(log)[k], Entry(x.due, x.idx))
      {
        assert Earlier(Entries(log.before)[k], EntryOf(m, x.idx));
      }
    }
  }

  /** The executions of a log, oldest first. */
  function Executions(log: Log): seq<Execution> {
    match log
    case Empty => []
    case Ran(before, x) => Executions(before) + [x]
  }

  /** Nothing runs before it is due. */
  lemma {:induction false} NothingRunsEarly(ts: seq<Timer>, log: Log)
    requires AllValid(ts) && Possible(ts, log)
    ensures |Executions(log)| == |Entries(log)| == Length(log)
    ensures forall k :: 0 <= k < |Executions(log)| ==>
              && Entries(log)[k] == Entry(Executions(log)[k].due, Executions(log)[k].idx)
              && Executions(log)[k].due <= Executions(log)[k].started <= Executions(log)[k].finished
  {
    if log.Ran? {
      NothingRunsEarly(ts, log.before);
    }
  }

  /** A run is rescheduled from the time at which it ended, not from the time at which it began. */
  lemma DelayCountsFromTheEnd(ts: seq<Timer>, log: Log)
    requires AllValid(ts) && Possible(ts, log) && log.Ran?
    ensures var x, before := log.last, AfterLog(ts, log.before);
            && x.due == before[x.idx].nextDue
            && (before[x.idx].behavior == Delay ==>
                  AfterLog(ts, log)[x.idx].nextDue == x.finished + before[x.idx].period)
            && forall j :: 0 <= j < |ts| && j != x.idx ==> AfterLog(ts, log)[j] == before[j]
  {
    var x, before := log.last, AfterLog(ts, log.before);
    assert Valid(before[x.idx]);
    if before[x.idx].behavior == Delay {
      assert After(before[x.idx], [x.finished]) == After(Rescheduled(before[x.idx], x.finished), [x.finished][1..]);
      DelayFollowsRuns(before[x.idx], [x.finished]);
    }
  }

  // ---------------------------------------------------------------------------------------------
  // No starvation
  // ---------------------------------------------------------------------------------------------

  /** The most often a schedule with this timer can run while another one due at `d` waits. */
  function Share(t: Timer, d: nat): (n: nat)
    requires Valid(t)
    ensures n == 0 <==> t.nextDue > d
    ensures n > 0 ==> t.nextDue + (n - 1) * t.period <= d < t.nextDue + n * t.period
  {
    if t.nextDue > d then 0 else (d - t.nextDue) / t.period + 1
  }

  lemma {:induction false} WaitingUnchanged(ts: seq<Timer>, log: Log, i: nat)
    requires AllValid(ts) && Possible(ts, log) && i < |ts| && Count(log, i) == 0
    ensures AfterLog(ts, log)[i] == ts[i]
  {
    if log.Ran? {
      WaitingUnchanged(ts, log.before, i);
    }
  }

  lemma {:induction false} SharesUsed(ts: seq<Timer>, log: Log, i: nat, j: nat)
    requires AllValid(ts) && Possible(ts, log) && i < |ts| && j < |ts| && Count(log, i) == 0
    ensures AfterLog(ts, log)[j].period == ts[j].period
    ensures AfterLog(ts, log)[j].nextDue >= Slot(ts[j].nextDue, ts[j].period, Count(log, j))
    ensures Count(log, j) > 0 ==> Slot(ts[j].nextDue, ts[j].period, Count(log, j) - 1) <= ts[i].nextDue
  {
    if log.Ran? {
      SharesUsed(ts, log.before, i, j);
      var m, x := AfterLog(ts, log.before), log.last;
      RunMovesBack(m, x);
      if x.idx == j {
        WaitingUnchanged(ts, log.before, i);
        assert Earlier(Entry(x.due, x.idx), EntryOf(m, i));
        assert (Count(log.before, j) + 1) * ts[j].period == Count(log.before, j) * ts[j].period + ts[j].period;
      }
    }
  }

  /** NO STARVATION.  While schedule `i` waits with due time d, any other schedule `j` runs at most
      floor((d - due_j) / period_j) + 1 times, and not at all if it is due later. */
  lemma NoStarvation(ts: seq<Timer>, log: Log, i: nat, j: nat)
    requires AllValid(ts) && Possible(ts, log) && i < |ts| && j < |ts| && Count(log, i) == 0
    ensures Count(log, j) <= Share(ts[j], ts[i].nextDue)
    ensures ts[j].nextDue > ts[i].nextDue ==> Count(log, j) == 0
    ensures ts[j].nextDue <= ts[i].nextDue ==> Count(log, j) <= (ts[i].nextDue - ts[j].nextDue) / ts[j].period + 1
  {
    SharesUsed(ts, log, i, j);
    var t, n, d := ts[j], Count(log, j), ts[i].nextDue;
    assert Valid(t);
    if n > 0 {
      MissedIsLeast(t.nextDue, t.period, d, n - 1);
    }
  }

  function TotalShare(ts: seq<Timer>, d: nat, n: nat): nat
    requires AllValid(ts) && n <= |ts|
  {
    if n == 0 then 0 else TotalShare(ts, d, n - 1) + Share(ts[n - 1], d)
  }

  function TotalCount(log: Log, n: nat): nat {
    if n == 0 then 0 else TotalCount(log, n - 1) + Count(log, n - 1)
  }

  lemma {:induction false} CountsAddUp(before: Log, x: Execution, n: nat)
    ensures TotalCount(Ran(before, x), n) == TotalCount(before, n) + if x.idx < n then 1 else 0
  {
    if n > 0 {
      CountsAddUp(before, x, n - 1);
    }
  }

  lemma {:induction false} CountsAreLength(ts: seq<Timer>, log: Log)
    requires AllValid(ts) && Possible(ts, log)
    ensures TotalCount(log, |ts|) == Length(log)
  {
    if log.Ran? {
      CountsAreLength(ts, log.before);
      CountsAddUp(log.before, log.last, |ts|);
    } else {
      NothingCounted(|ts|);
    }
  }

  lemma {:induction false} NothingCounted(n: nat)
    ensures TotalCount(Empty, n) == 0
  {
    if n > 0 {
      NothingCounted(n - 1);
    }
  }

  lemma {:induction false} CountsWithinShares(ts: seq<Timer>, log: Log, i: nat, n: nat)
    requires AllValid(ts) && Possible(ts, log) && i < |ts| && n <= |ts| && Count(log, i) == 0
    ensures TotalCount(log, n) <= TotalShare(ts, ts[i].nextDue, n)
  {
    if n > 0 {
      CountsWithinShares(ts, log, i, n - 1);
      NoStarvation(ts, log, i, n - 1);
    }
  }

  /** So a queued schedule runs before the loop has made more executions than all shares together. */
  lemma EveryScheduleRuns(ts: seq<Timer>, log: Log, i: nat)
    requires AllValid(ts) && Possible(ts, log) && i < |ts|
    requires Length(log) > TotalShare(ts, ts[i].nextDue, |ts|)
    ensures Count(log, i) > 0
  {
    if Count(log, i) == 0 {
      CountsAreLength(ts, log);
      CountsWithinShares(ts, log, i, |ts|);
    }
  }
}
