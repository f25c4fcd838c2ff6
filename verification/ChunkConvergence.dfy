/** What the chunk stream reaches when the player stands still. */
module ChunkConvergence {
  import opened ChunkGrid
  import opened ChunkStream

  const USIZE_MAX: nat := 0xFFFF_FFFF_FFFF_FFFF

  /** A signed 32-bit configuration value. */
  type Setting = n: int | -0x8000_0000 <= n < 0x8000_0000

  /** Where a player stands, how far it sees, and how fast chunks may be submitted to it. */
  datatype View = View(center: Coord, radius: nat, perTick: Setting, min: nat) {

    /** The submission limit of one pass: 0 means a third of the queue but at least `min`, -1 means no limit,
        any other negative setting is reinterpreted as a huge unsigned number. */
    function Budget(queued: nat): nat {
      if perTick == 0 then (if queued / 3 < min then min else queued / 3)
      else if perTick == -1 then USIZE_MAX
      else if perTick >= 0 then perTick
      else perTick + USIZE_MAX + 1
    }

    ghost function Visible(): set<Coord> {
      Square(center, radius)
    }
  }

  /** The view square is accounted for and nothing outside it is loaded. */
  ghost predicate Covers(s: State, view: View) {
    && view.Visible() <= s.loaded + Elems(s.loading) + s.pending + s.failed
    && s.loaded <= view.Visible()
    && s.failed !! s.loaded + Elems(s.loading) + s.pending
    && (s.phase.Calculated? || s.phase.Submit? || s.phase.Drain? ==>
          s.phase.center == view.center && s.phase.radius == view.radius)
  }

  lemma CalculatorCovers(s: State, e: Event, view: View)
    requires Inv(s) && e.Calc? && Enabled(s, e) && e.center == view.center && e.radius == view.radius
    ensures Covers(Apply(s, e), view)
  {
    var t := Apply(s, e);
    AppendElems(s.loading, e.queued);
    forall c | c in view.Visible()
      ensures c in t.loaded + Elems(t.loading) + t.pending
    {
      SquareIsDistance(e.center, e.radius, c);
    }
    forall c | c in t.loaded
      ensures c in view.Visible()
    {
      SquareIsDistance(e.center, e.radius, c);
    }
  }

  /** The player stands still: no calculator batch, every sender pass sees the same square and the
      configured budget. */
  ghost predicate Still(s: State, e: Event, view: View) {
    !e.Calc? && (e.Begin? ==> e == Begin(view.center, view.radius, view.Budget(|s.loading|)))
  }

  ghost predicate StillRun(s: State, run: Run, view: View)
    requires Legal(s, run)
  {
    run.Then? ==> StillRun(s, run.before, view) && Still(Exec(s, run.before), run.last, view)
  }

  /** Nothing queued for the square is lost on the way: a step moves a chunk along or its job failed. */
  lemma StepKeepsCover(s: State, e: Event, view: View)
    requires Inv(s) && Enabled(s, e) && Still(s, e, view) && Covers(s, view)
    ensures Covers(Apply(s, e), view)
  {
    var t := Apply(s, e);
    match e
    case Pop =>
      TailElems(s.loading);
      assert s.loading[0] in Elems(s.loading);
    case Take =>
      var c := s.results[0].coords;
      AccountedTake(s.flight, s.results, s.pending);
      SquareIsDistance(view.center, view.radius, c);
      assert view.Visible() <= t.loaded + Elems(t.loading) + t.pending + t.failed;
      assert Covers(t, view);
    case _ =>
  }

  /** What the sender's filter costs: when it drains a result, the chunks of a square that are accounted for all stay
      so unless the result is a chunk of that square beyond the radius of where the sender now sees the player. */
  lemma TakeLosesExactly(s: State, square: set<Coord>)
    requires Inv(s) && Enabled(s, Take) && square <= s.loaded + Elems(s.loading) + s.pending + s.failed
    requires s.failed !! s.pending
    ensures var t, r := Apply(s, Take), s.results[0];
            square <= t.loaded + Elems(t.loading) + t.pending + t.failed <==>
            !(r.ok && r.coords in square && Distance(r.coords, s.phase.center) > s.phase.radius)
  {
    AccountedTake(s.flight, s.results, s.pending);
  }

  /** Work left: a queued chunk still needs a submission and a drain, a pending one only a drain. */
  function Work(s: State): nat {
    2 * |s.loading| + |s.pending|
  }

  lemma TakeWork(s: State)
    requires Inv(s) && Enabled(s, Take)
    ensures Work(Apply(s, Take)) < Work(s)
  {
    var c := s.results[0].coords;
    AccountedTake(s.flight, s.results, s.pending);
    assert |s.pending - {c}| == |s.pending| - 1;
  }

  lemma StepWork(s: State, e: Event)
    requires Inv(s) && Enabled(s, e) && !e.Calc?
    ensures Work(Apply(s, e)) <= Work(s)
    ensures e.Pop? || e.Take? ==> Work(Apply(s, e)) < Work(s)
    ensures s.loading == [] ==> Apply(s, e).loading == []
  {
    if e.Take? {
      TakeWork(s);
    }
  }

  /** A pass that begins with an empty queue while every outstanding job is still running: it can only wait. */
  ghost predicate Waiting(s: State, e: Event) {
    e.Begin? && Work(s) > 0 && s.loading == [] && s.results == []
  }

  /** How many passes of a run began waiting for the pool. */
  ghost function Waits(s: State, run: Run): nat
    requires Legal(s, run)
  {
    match run
    case Start => 0
    case Then(before, e) => Waits(s, before) + if Waiting(Exec(s, before), e) then 1 else 0
  }

  /** How many sender passes a run completes. */
  function Passes(run: Run): nat {
    match run
    case Start => 0
    case Then(before, e) => Passes(before) + if e.End? then 1 else 0
  }

  /** The queue can drain: the budget never rounds down to nothing while chunks are queued. */
  predicate Supplied(s: State, view: View) {
    view.perTick != 0 || view.min > 0 || s.loading == []
  }

  /** Each completed pass has paid for itself by one unit of work or by waiting, or the pass in progress still has
      to. */
  ghost predicate Paid(s: State, passes: nat, total: nat) {
    || Work(s) == 0
    || Work(s) + passes < total
    || (Work(s) + passes <= total &&
        match s.phase
        case Idle => true
        case Calculated(_, _) => true
        case Submit(_, _, left) => (left > 0 && s.loading != []) || s.results != []
        case Drain(_, _, _) => s.results != []
        case Sending(_) => false
        case Unloading => false)
  }

  lemma {:induction false} StepPays(s: State, e: Event, view: View, passes: nat, total: nat)
    requires Inv(s) && Enabled(s, e) && Still(s, e, view)
    requires Supplied(s, view) && Paid(s, passes, total)
    ensures Paid(Apply(s, e), passes + (if e.End? then 1 else 0), total + (if Waiting(s, e) then 1 else 0))
    ensures Supplied(Apply(s, e), view)
  {
    StepWork(s, e);
  }

  lemma {:induction false} RunKeepsCover(s: State, run: Run, view: View)
    requires Inv(s) && Covers(s, view)
    requires Legal(s, run) && StillRun(s, run, view)
    ensures Inv(Exec(s, run)) && Covers(Exec(s, run), view)
  {
    if run.Then? {
      RunKeepsCover(s, run.before, view);
      StepKeepsInv(Exec(s, run.before), run.last);
      StepKeepsCover(Exec(s, run.before), run.last, view);
    }
  }

  lemma {:induction false} RunPays(s: State, run: Run, view: View)
    requires Inv(s) && (s.phase.Idle? || s.phase.Calculated?) && Covers(s, view) && Supplied(s, view)
    requires Legal(s, run) && StillRun(s, run, view)
    ensures Supplied(Exec(s, run), view) && Paid(Exec(s, run), Passes(run), Work(s) + Waits(s, run))
  {
    if run.Then? {
      RunPays(s, run.before, view);
      RunKeepsCover(s, run.before, view);
      StepPays(Exec(s, run.before), run.last, view, Passes(run.before), Work(s) + Waits(s, run.before));
    }
  }

  lemma StepStaysStarved(s: State, e: Event, view: View)
    requires Inv(s) && Enabled(s, e) && Still(s, e, view) && view.perTick == 0 && view.min == 0
    requires s.loading != [] && (s.phase.Submit? ==> s.phase.left < |s.loading|)
    ensures var t := Apply(s, e); t.loading != [] && (t.phase.Submit? ==> t.phase.left < |t.loading|)
  {
    assert s.loading[0] in Elems(s.loading);
  }

  /** While nothing is configured to be submitted below three queued chunks, the queue never empties. */
  lemma {:induction false} StarvedQueueStays(s: State, run: Run, view: View)
    requires Inv(s) && (s.phase.Idle? || s.phase.Calculated?) && !Supplied(s, view)
    requires Legal(s, run) && StillRun(s, run, view)
    ensures var t := Exec(s, run);
            Inv(t) && t.loading != [] && (t.phase.Submit? ==> t.phase.left < |t.loading|)
  {
    if run.Then? {
      StarvedQueueStays(s, run.before, view);
      StepKeepsInv(Exec(s, run.before), run.last);
      StepStaysStarved(Exec(s, run.before), run.last, view);
    }
  }

  ghost predicate NoJobFails(run: Run) {
    run.Then? ==> NoJobFails(run.before) && (run.last.Finish? ==> run.last.ok)
  }

  ghost predicate NoneFailed(s: State) {
    s.failed == {} && forall r :: r in s.results ==> r.ok
  }

  lemma StepWithoutFailure(s: State, e: Event)
    requires Enabled(s, e) && !e.Calc? && (e.Finish? ==> e.ok) && NoneFailed(s)
    ensures NoneFailed(Apply(s, e))
  {
    if e.Take? {
      assert s.results[0] in s.results;
      assert forall r :: r in s.results[1..] ==> r in s.results;
    }
  }

  lemma {:induction false} NoFailure(s: State, run: Run, view: View)
    requires Legal(s, run) && StillRun(s, run, view) && NoneFailed(s) && NoJobFails(run)
    ensures NoneFailed(Exec(s, run))
  {
    hide Enabled, Apply, NoneFailed;
    if run.Then? {
      NoFailure(s, run.before, view);
      StepWithoutFailure(Exec(s, run.before), run.last);
    }
  }

  lemma PaidInFull(s: State, passes: nat, total: nat, view: View)
    requires Covers(s, view) && s.phase.Idle? && Paid(s, passes, total) && passes >= total
    ensures s.loading == [] && s.pending == {} && s.loaded == view.Visible() - s.failed
  {
    assert Work(s) == 0;
  }

  /** A run of whole ticks from a covered state: besides the passes that could only wait for the pool, it has as many
      as there is work. */
  ghost predicate StandsStill(s: State, run: Run, view: View) {
    && Inv(s) && (s.phase.Idle? || s.phase.Calculated?) && Covers(s, view)
    && Legal(s, run) && StillRun(s, run, view)
    && Exec(s, run).phase.Idle? && Passes(run) >= Work(s) + Waits(s, run)
  }

  /** CONVERGENCE.  The player stands still after a calculator batch and the budget can reach every queued chunk.
      However slow the pool is: after as many sender passes as there was work, not counting those that began with
      nothing to do but wait for it, everything is worked off and the loaded chunks are the view square except the
      chunks whose job failed. */
  lemma {:induction false} SuppliedRunFinishes(s: State, run: Run, view: View)
    requires StandsStill(s, run, view) && Supplied(s, view)
    ensures var t := Exec(s, run);
            t.loading == [] && t.pending == {} && t.loaded == view.Visible() - t.failed
  {
    RunPays(s, run, view);
    RunKeepsCover(s, run, view);
    PaidInFull(Exec(s, run), Passes(run), Work(s) + Waits(s, run), view);
  }

  /** If moreover no job fails, the loaded chunks are exactly the view square. */
  lemma {:induction false} SuppliedRunLoadsSquare(s: State, run: Run, view: View)
    requires StandsStill(s, run, view) && Supplied(s, view) && NoneFailed(s) && NoJobFails(run)
    ensures Exec(s, run).loaded == view.Visible()
  {
    SuppliedRunFinishes(s, run, view);
    NoFailure(s, run, view);
  }

  /** The exact condition: with the setting "a third of the queue, at least none" the last one or two chunks
      are never submitted; every other setting works the queue off. */
  lemma {:induction false} FinishesExactlyWhenSupplied(s: State, run: Run, view: View)
    requires StandsStill(s, run, view)
    ensures Exec(s, run).loading == [] && Exec(s, run).pending == {} <==>
            view.perTick != 0 || view.min > 0 || s.loading == []
  {
    if Supplied(s, view) {
      SuppliedRunFinishes(s, run, view);
    } else {
      StarvedQueueStays(s, run, view);
    }
  }
}
