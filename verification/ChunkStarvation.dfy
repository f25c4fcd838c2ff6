/** Runs in which sender passes go by without getting anything done. */
module ChunkStarvation {
  import opened ChunkGrid
  import opened ChunkStream
  import opened ChunkConvergence
  import opened ChunkReturns

  /** The run so far, with the player at `view` all along, where it has led, and how many of its passes did what. */
  ghost predicate Stays(start: State, run: Run, s: State, view: View, passes: nat, waits: nat) {
    && Legal(start, run) && Exec(start, run) == s && StillRun(start, run, view)
    && Passes(run) == passes && Waits(start, run) == waits
  }

  lemma StayOn(start: State, run: Run, s: State, view: View, passes: nat, waits: nat, e: Event, t: State)
    requires Stays(start, run, s, view, passes, waits)
    requires Enabled(s, e) && Apply(s, e) == t && Still(s, e, view)
    ensures Stays(start, Then(run, e), t, view, passes + (if e.End? then 1 else 0),
                  waits + (if Waiting(s, e) then 1 else 0))
  {
  }

  /** Nothing to submit, nothing to drain, nothing to unload. */
  ghost predicate Stuck(s: State, view: View) {
    && s.dirty == [] && s.results == [] && s.unloading == []
    && (s.loading == [] || view.Budget(|s.loading|) == 0)
  }

  /** A pass over a stuck player only goes through its phases. */
  lemma IdlePass(start: State, run: Run, s: State, view: View, passes: nat, waits: nat) returns (longer: Run)
    requires Stays(start, run, s, view, passes, waits) && Stuck(s, view) && (s.phase.Idle? || s.phase.Calculated?)
    ensures Stays(start, longer, s.(phase := Idle), view, passes + 1,
                  waits + if s.loading == [] && s.pending != {} then 1 else 0)
  {
    hide Stays;
    var begin := Begin(view.center, view.radius, view.Budget(|s.loading|));
    var w := waits + if Waiting(s, begin) then 1 else 0;
    var begun := s.(phase := Submit(view.center, view.radius, view.Budget(|s.loading|)));
    var drain := s.(phase := Drain(view.center, view.radius, []));
    StayOn(start, run, s, view, passes, waits, begin, begun);
    longer := Then(run, begin);
    StayOn(start, longer, begun, view, passes, w, StopSubmit, drain);
    longer := Then(longer, StopSubmit);
    StayOn(start, longer, drain, view, passes, w, StopDrain, s.(phase := Sending([])));
    longer := Then(longer, StopDrain);
    StayOn(start, longer, s.(phase := Sending([])), view, passes, w, StopSend, s.(phase := Unloading));
    longer := Then(longer, StopSend);
    StayOn(start, longer, s.(phase := Unloading), view, passes, w, End, s.(phase := Idle));
    longer := Then(longer, End);
  }

  lemma {:induction false} IdlePasses(start: State, run: Run, s: State, view: View, passes: nat, n: nat)
    returns (longer: Run)
    requires Stays(start, run, s, view, passes, 0) && Stuck(s, view) && (s.phase.Idle? || s.phase.Calculated?)
    ensures Stays(start, longer, if n == 0 then s else s.(phase := Idle), view, passes + n,
                  if s.loading == [] && s.pending != {} then n else 0)
  {
    hide Stays;
    longer := run;
    if n > 0 {
      longer := IdlePasses(start, run, s, view, passes, n - 1);
      var last := if n == 1 then s else s.(phase := Idle);
      longer := IdlePass(start, longer, last, view, passes + n - 1,
                         if s.loading == [] && s.pending != {} then n - 1 else 0);
    }
  }

  /** A player that sees only chunk `at`, which the calculator has queued. */
  ghost function Queued(at: Coord): State {
    FRESH.(phase := Calculated(at, 0), loading := [at])
  }

  lemma QueuedIsCovered(at: Coord, view: View)
    requires view.center == at && view.radius == 0
    ensures Inv(Queued(at)) && Covers(Queued(at), view) && Leads(Then(Start, Calc(at, 0, [at], [])), Queued(at))
  {
    StartsFresh();
    CalcAt(FRESH, at, []);
    var e := Calc(at, 0, [at], []);
    assert [] + [at] == [at];
    ExtendRun(Start, FRESH, e, Queued(at));
    FreshHasInv();
    StepKeepsInv(FRESH, e);
    CalculatorCovers(FRESH, e, view);
  }

  /** The failing half of convergence, at every length: with the setting "a third of the queue, at least none" a fresh
      player's one chunk stays queued over any number of passes, none of which waits for the pool. */
  lemma StarvedForever(at: Coord, n: nat) returns (run: Run)
    ensures var s, view := Queued(at), View(at, 0, 0, 0);
            && Leads(Then(Start, Calc(at, 0, [at], [])), s) && !Supplied(s, view)
            && Legal(s, run) && StillRun(s, run, view) && Passes(run) == n && Waits(s, run) == 0
            && (n >= 2 ==> StandsStill(s, run, view))
            && Exec(s, run).loading == [at]
  {
    var s, view := Queued(at), View(at, 0, 0, 0);
    QueuedIsCovered(at, view);
    run := IdlePasses(s, Start, s, view, 0, n);
  }

  /** The pass that submits the one chunk and leaves its job running. */
  lemma SubmitPass(at: Coord, view: View) returns (run: Run)
    requires view == View(at, 0, 1, 0)
    ensures Stays(Queued(at), run, FRESH.(pending := {at}, flight := multiset{at}), view, 1, 0)
  {
    var s := Queued(at);
    assert Stays(s, Start, s, view, 0, 0);
    hide Stays;
    var t := FRESH.(pending := {at}, flight := multiset{at});
    assert [at][1..] == [] && {} + {at} == {at} && multiset{} + multiset{at} == multiset{at};
    StayOn(s, Start, s, view, 0, 0, Begin(at, 0, 1), s.(phase := Submit(at, 0, 1)));
    run := Then(Start, Begin(at, 0, 1));
    StayOn(s, run, s.(phase := Submit(at, 0, 1)), view, 0, 0, Pop, t.(phase := Submit(at, 0, 0)));
    run := Then(run, Pop);
    StayOn(s, run, t.(phase := Submit(at, 0, 0)), view, 0, 0, StopSubmit, t.(phase := Drain(at, 0, [])));
    run := Then(run, StopSubmit);
    StayOn(s, run, t.(phase := Drain(at, 0, [])), view, 0, 0, StopDrain, t.(phase := Sending([])));
    run := Then(run, StopDrain);
    StayOn(s, run, t.(phase := Sending([])), view, 0, 0, StopSend, t.(phase := Unloading));
    run := Then(run, StopSend);
    StayOn(s, run, t.(phase := Unloading), view, 0, 0, End, t);
    run := Then(run, End);
  }

  /** The bound of convergence is sharp, and the waiting passes have to be counted: with one pass less than work and
      waiting ask for, a chunk whose job is slow is still pending, however long it has been waited for. */
  lemma SlowJobKeepsWaiting(at: Coord, n: nat) returns (run: Run)
    ensures var s, view := Queued(at), View(at, 0, 1, 0);
            && Leads(Then(Start, Calc(at, 0, [at], [])), s) && Inv(s) && Covers(s, view) && Supplied(s, view)
            && Legal(s, run) && StillRun(s, run, view) && Exec(s, run).phase.Idle?
            && Waits(s, run) == n && Passes(run) == Work(s) + Waits(s, run) - 1
            && Exec(s, run).pending == {at}
  {
    var s, view := Queued(at), View(at, 0, 1, 0);
    QueuedIsCovered(at, view);
    run := SubmitPass(at, view);
    run := IdlePasses(s, run, FRESH.(pending := {at}, flight := multiset{at}), view, 1, n);
  }
}
