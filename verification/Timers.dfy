/** Periodic timers: when a schedule is due next after it ran, for each missed-tick behaviour.
    Time is counted in nanoseconds. */
module Timers {

  datatype Behavior = Burst | Skip | Delay

  datatype Timer = Timer(period: nat, behavior: Behavior, phase: nat, maxCatchUp: nat, nextDue: nat, burst: nat)

  predicate Valid(t: Timer) {
    t.period > 0 && t.burst < t.maxCatchUp
  }

  /** The grid point `k` periods after `due`. */
  function Slot(due: nat, period: nat, k: nat): (r: nat)
    ensures r >= due
  {
    due + k * period
  }

  /** How many periods a deadline has to be advanced to lie after `now`. */
  function Missed(due: nat, period: nat, now: nat): nat
    requires period > 0
  {
    if now < due then 0 else (now - due) / period + 1
  }

  lemma SlotOrder(due: nat, period: nat, j: nat, k: nat)
    requires j <= k
    ensures Slot(due, period, k) == Slot(due, period, j) + (k - j) * period
    ensures Slot(due, period, j) <= Slot(due, period, k)
  {
    assert k * period == j * period + (k - j) * period;
  }

  /** `Missed` counts to the least grid point strictly after `now`: every earlier one has passed. */
  lemma {:induction false} MissedIsLeast(due: nat, period: nat, now: nat, k: nat)
    requires period > 0
    ensures now < Slot(due, period, k) <==> Missed(due, period, now) <= k
  {
    if due <= now {
      var q := (now - due) / period;
      assert q * period <= now - due < (q + 1) * period;
      if q + 1 <= k {
        SlotOrder(due, period, q + 1, k);
      } else {
        SlotOrder(due, period, k, q);
      }
    }
  }

  /** The deadline after a run that ended at `now`. */
  function Rescheduled(t: Timer, now: nat): (r: Timer)
    requires Valid(t)
    ensures Valid(r)
    ensures r == t.(nextDue := r.nextDue, burst := r.burst)
  {
    var d := t.nextDue + t.period;
    match t.behavior
    case Delay => t.(nextDue := now + t.period, burst := 0)
    case Skip => t.(nextDue := Slot(d, t.period, Missed(d, t.period, now)), burst := 0)
    case Burst =>
      if now < d then t.(nextDue := d, burst := 0)
      else if t.burst + 1 < t.maxCatchUp then t.(nextDue := d, burst := t.burst + 1)
      else t.(nextDue := Slot(d, t.period, Missed(d, t.period, now)), burst := 0)
  }

  /** The slots a reschedule passes over without running them. */
  function Skipped(t: Timer, now: nat): nat
    requires Valid(t)
  {
    var d := t.nextDue + t.period;
    if t.behavior == Skip || (t.behavior == Burst && t.burst + 1 >= t.maxCatchUp) then Missed(d, t.period, now) else 0
  }

  /** A timer after a whole history of runs. */
  function After(t: Timer, nows: seq<nat>): (r: Timer)
    requires Valid(t)
    ensures Valid(r) && r.period == t.period && r.behavior == t.behavior && r.maxCatchUp == t.maxCatchUp
    decreases |nows|
  {
    if nows == [] then t else After(Rescheduled(t, nows[0]), nows[1..])
  }

  function TotalSkipped(t: Timer, nows: seq<nat>): nat
    requires Valid(t)
    decreases |nows|
  {
    if nows == [] then 0 else Skipped(t, nows[0]) + TotalSkipped(Rescheduled(t, nows[0]), nows[1..])
  }

  /** GRID.  Burst and Skip schedules stay on the grid they started on: each run and each skipped slot moves the
      deadline by exactly one period, so lateness never accumulates. */
  lemma {:induction false} StaysOnGrid(t: Timer, nows: seq<nat>)
    requires Valid(t) && t.behavior != Delay
    ensures After(t, nows).nextDue == Slot(t.nextDue, t.period, |nows| + TotalSkipped(t, nows))
    decreases |nows|
  {
    if nows != [] {
      var u, k := Rescheduled(t, nows[0]), Skipped(t, nows[0]);
      StaysOnGrid(u, nows[1..]);
      RescheduledSlot(t, nows[0]);
      hide Rescheduled, Skipped;
      SlotOrder(t.nextDue, t.period, 1 + k, |nows| + TotalSkipped(t, nows));
    }
  }

  /** One reschedule moves the deadline by the slot that ran and the slots skipped. */
  lemma RescheduledSlot(t: Timer, now: nat)
    requires Valid(t) && t.behavior != Delay
    ensures Rescheduled(t, now).nextDue == Slot(t.nextDue, t.period, 1 + Skipped(t, now))
  {
    var k := Skipped(t, now);
    assert (1 + k) * t.period == t.period + k * t.period;
  }

  /** Only slots that have already passed are skipped, and nothing is skipped once the deadline lies ahead. */
  lemma {:induction false} SkipsOnlyMissedSlots(t: Timer, now: nat, k: nat)
    requires Valid(t) && k < Skipped(t, now)
    ensures Slot(t.nextDue + t.period, t.period, k) <= now < Rescheduled(t, now).nextDue
  {
    var d := t.nextDue + t.period;
    MissedIsLeast(d, t.period, now, k);
    MissedIsLeast(d, t.period, now, Missed(d, t.period, now));
  }

  /** SKIP.  The new deadline is the least slot of the grid that lies strictly after `now`, among those after the
      slot that just ran. */
  lemma {:induction false} SkipLandsOnNextSlot(t: Timer, now: nat, k: nat)
    requires Valid(t) && t.behavior == Skip
    ensures Rescheduled(t, now).nextDue > now
    ensures k >= 1 && Slot(t.nextDue, t.period, k) > now ==>
              Rescheduled(t, now).nextDue <= Slot(t.nextDue, t.period, k)
  {
    var d := t.nextDue + t.period;
    var m := Missed(d, t.period, now);
    MissedIsLeast(d, t.period, now, m);
    if k >= 1 && Slot(t.nextDue, t.period, k) > now {
      SlotOrder(t.nextDue, t.period, 1, k);
      assert Slot(d, t.period, k - 1) == Slot(t.nextDue, t.period, k);
      MissedIsLeast(d, t.period, now, k - 1);
      SlotOrder(d, t.period, m, k - 1);
    }
  }

  /** Still overdue after the reschedule that follows the run ending at `nows[i]`. */
  predicate OverdueAfter(t: Timer, nows: seq<nat>, i: nat)
    requires Valid(t) && i < |nows|
  {
    After(t, nows[..i + 1]).nextDue <= nows[i]
  }

  lemma {:induction false} OverdueTail(t: Timer, nows: seq<nat>, i: nat)
    requires Valid(t) && 0 < i < |nows|
    ensures OverdueAfter(t, nows, i) == OverdueAfter(Rescheduled(t, nows[0]), nows[1..], i - 1)
  {
    assert nows[..i + 1][1..] == nows[1..][..i];
  }

  /** BURST.  A schedule is never still overdue after `maxCatchUp` reschedules in a row; counting those already
      behind it, the catch-up budget is spent after `maxCatchUp - burst` of them. */
  lemma {:induction false} BurstCatchesUp(t: Timer, nows: seq<nat>) returns (i: nat)
    requires Valid(t) && t.behavior == Burst && |nows| >= t.maxCatchUp - t.burst
    ensures i < t.maxCatchUp - t.burst && !OverdueAfter(t, nows, i)
    decreases t.maxCatchUp - t.burst
  {
    var u := Rescheduled(t, nows[0]);
    assert nows[..1][1..] == [] && After(t, nows[..1]) == u;
    if u.nextDue > nows[0] {
      i := 0;
    } else {
      var d := t.nextDue + t.period;
      MissedIsLeast(d, t.period, nows[0], Missed(d, t.period, nows[0]));
      assert u.burst == t.burst + 1;
      var j := BurstCatchesUp(u, nows[1..]);
      i := j + 1;
      OverdueTail(t, nows, i);
    }
  }

  /** The bound is met: a schedule far enough behind stays overdue until the last reschedule allowed. */
  lemma {:induction false} BurstMayLag(t: Timer, nows: seq<nat>, i: nat)
    requires Valid(t) && t.behavior == Burst && i < |nows| && i + 1 < t.maxCatchUp - t.burst
    requires forall k :: 0 <= k <= i ==> nows[k] >= Slot(t.nextDue, t.period, t.maxCatchUp - t.burst - 1)
    ensures OverdueAfter(t, nows, i)
    decreases i
  {
    var u, m := Rescheduled(t, nows[0]), t.maxCatchUp - t.burst - 1;
    SlotOrder(t.nextDue, t.period, 1, m);
    assert Slot(u.nextDue, t.period, m - 1) == Slot(t.nextDue, t.period, m);
    assert nows[..1][1..] == [] && After(t, nows[..1]) == u;
    if i > 0 {
      BurstMayLag(u, nows[1..], i - 1);
      OverdueTail(t, nows, i);
    }
  }

  // ---------------------------------------------------------------------------------------------
  // When slots are lost, over histories
  // ---------------------------------------------------------------------------------------------

  /** When the run ending at `nows[i]` ended, the slot after the one that ran had passed as well. */
  predicate Behind(t: Timer, nows: seq<nat>, i: nat)
    requires Valid(t) && i < |nows|
  {
    After(t, nows[..i]).nextDue + t.period <= nows[i]
  }

  /** The reschedule after that run passed over a slot. */
  predicate Jumps(t: Timer, nows: seq<nat>, i: nat)
    requires Valid(t) && i < |nows|
  {
    After(t, nows[..i + 1]).nextDue > After(t, nows[..i]).nextDue + t.period
  }

  lemma {:induction false} AfterSnoc(t: Timer, nows: seq<nat>, i: nat)
    requires Valid(t) && i < |nows|
    ensures After(t, nows[..i + 1]) == Rescheduled(After(t, nows[..i]), nows[i])
    decreases i
  {
    assert nows[..i + 1][1..] == nows[1..][..i];
    if i > 0 {
      assert nows[..i][1..] == nows[1..][..i - 1];
      AfterSnoc(Rescheduled(t, nows[0]), nows[1..], i - 1);
    }
  }

  lemma {:induction false} BurstStep(t: Timer, nows: seq<nat>, i: nat)
    requires Valid(t) && t.behavior == Burst && i < |nows|
    ensures var b, u := After(t, nows[..i]).burst, After(t, nows[..i + 1]);
            && (Jumps(t, nows, i) <==> Behind(t, nows, i) && b + 1 == t.maxCatchUp)
            && u.burst == (if Behind(t, nows, i) && !Jumps(t, nows, i) then b + 1 else 0)
            && (Jumps(t, nows, i) ==> u.nextDue - t.period <= nows[i] < u.nextDue)
            && (!Jumps(t, nows, i) ==> u.nextDue == After(t, nows[..i]).nextDue + t.period)
  {
    AfterSnoc(t, nows, i);
    var u := After(t, nows[..i]);
    var d := u.nextDue + t.period;
    var m := Missed(d, t.period, nows[i]);
    MissedIsLeast(d, t.period, nows[i], m);
    if d <= nows[i] {
      MissedIsLeast(d, t.period, nows[i], m - 1);
      SlotOrder(d, t.period, m - 1, m);
      SlotOrder(d, t.period, 1, m);
    }
  }

  /** Between `from` and `to` every run was behind and no reschedule jumped. */
  ghost predicate Streak(t: Timer, nows: seq<nat>, from: int, to: nat)
    requires Valid(t) && to <= |nows|
  {
    forall k: nat :: from <= k < to ==> Behind(t, nows, k) && !Jumps(t, nows, k)
  }

  /** The counter is the length of the streak that leads up to now, which may have begun before the history. */
  lemma {:induction false} CounterIsStreak(t: Timer, nows: seq<nat>, i: nat)
    requires Valid(t) && t.behavior == Burst && i <= |nows|
    ensures var b := After(t, nows[..i]).burst;
            && Streak(t, nows, i - b, i)
            && (b < i ==> !Streak(t, nows, i - b - 1, i))
            && (b >= i ==> b == t.burst + i)
  {
    if i > 0 {
      CounterIsStreak(t, nows, i - 1);
      BurstStep(t, nows, i - 1);
      hide Behind, Jumps, After;
    }
  }

  /** BURST, exactly.  A reschedule passes over slots if and only if the last `maxCatchUp` runs in a row were behind
      (counting those already behind when the history began) and none of the reschedules between passed over any; it
      then goes to the first slot after now, and otherwise to the very next one. */
  lemma {:induction false} BurstJumpsExactly(t: Timer, nows: seq<nat>, i: nat)
    requires Valid(t) && t.behavior == Burst && i < |nows|
    ensures var first, due := i + 1 - t.maxCatchUp, After(t, nows[..i + 1]).nextDue;
            && (Jumps(t, nows, i) <==>
                && t.burst + i + 1 >= t.maxCatchUp
                && (forall k: nat :: first <= k <= i ==> Behind(t, nows, k))
                && (forall k: nat :: first <= k < i ==> !Jumps(t, nows, k)))
            && (Jumps(t, nows, i) ==> due - t.period <= nows[i] < due)
            && (!Jumps(t, nows, i) ==> due == After(t, nows[..i]).nextDue + t.period)
  {
    CounterIsStreak(t, nows, i);
    BurstStep(t, nows, i);
    var b := After(t, nows[..i]).burst;
    hide Behind, Jumps, After;
    if b < i && b + 1 < t.maxCatchUp {
      var k: nat :| i - b - 1 <= k < i && !(Behind(t, nows, k) && !Jumps(t, nows, k));
      assert i + 1 - t.maxCatchUp <= k;
    }
  }

  /** A run that was not behind gives the whole budget back: after it no slot is lost for `maxCatchUp - 1` reschedules,
      however late the runs are. */
  lemma OnTimeRestoresBudget(t: Timer, nows: seq<nat>, i: nat, j: nat)
    requires Valid(t) && t.behavior == Burst && i < j < |nows| && !Behind(t, nows, i) && j < i + t.maxCatchUp
    ensures After(t, nows[..j + 1]).nextDue == After(t, nows[..j]).nextDue + t.period
  {
    BurstJumpsExactly(t, nows, j);
  }

  /** DELAY.  The next deadline lies one period after the end of the last run, whatever came before. */
  lemma DelayFollowsRuns(t: Timer, nows: seq<nat>)
    requires Valid(t) && t.behavior == Delay && nows != []
    ensures After(t, nows).nextDue == nows[|nows| - 1] + t.period
  {
    assert nows[..|nows|] == nows;
    AfterSnoc(t, nows, |nows| - 1);
  }
}
