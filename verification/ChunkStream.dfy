/** The chunk streaming protocol of one player as an event machine.

    The calculator, the sender and the background jobs are cut into their single queue operations, so
    that a job can finish between any two of them.  `Enabled` says when an event can happen and `Apply`
    what it does; a run is a legal sequence of events.  */
module ChunkStream {
  import opened ChunkGrid

  /** What a background job leaves in the results queue: `ok` stands for "has encoded bytes". */
  datatype Finished = Finished(coords: Coord, ok: bool)

  /** The packets that change what the client holds. */
  datatype Packet = ChunkData(coords: Coord) | UnloadChunk(coords: Coord)

  /** Where the tick is: between ticks, after the calculator, or inside one phase of the sender. */
  datatype Phase =
    | Idle
    | Calculated(center: Coord, radius: nat)
    | Submit(center: Coord, radius: nat, left: nat)
    | Drain(center: Coord, radius: nat, ready: seq<Coord>)
    | Sending(ready: seq<Coord>)
    | Unloading

  datatype State = State(
    phase: Phase,
    dirty: seq<Coord>,
    loading: seq<Coord>,
    pending: set<Coord>,
    loaded: set<Coord>,
    unloading: seq<Coord>,
    flight: multiset<Coord>,    // jobs submitted to the pool that have not reported yet
    results: seq<Finished>,
    wire: seq<Packet>,
    failed: set<Coord>)         // chunks whose job failed since the last calculator batch

  datatype Event =
    | Calc(center: Coord, radius: nat, queued: seq<Coord>, gone: seq<Coord>)
    | Begin(center: Coord, radius: nat, budget: nat)
    | Pop
    | StopSubmit
    | Take
    | StopDrain
    | SendChunk
    | StopSend
    | SendUnload
    | End
    | Finish(coords: Coord, ok: bool)

  const FRESH := State(Idle, [], [], {}, {}, [], multiset{}, [], [], {})

  ghost function Missing(s: State, center: Coord, radius: nat): set<Coord> {
    Square(center, radius) - s.loaded - Elems(s.loading) - s.pending
  }

  ghost function OutOfView(s: State, center: Coord, radius: nat): set<Coord> {
    set c | c in s.loaded && Distance(center, c) > radius
  }

  /** One calculator batch: `queued` lists the missing chunks of the square nearest first, `gone` lists the
      loaded chunks outside it in whatever order the hash set yields them. */
  ghost predicate CalcChoices(s: State, center: Coord, radius: nat, queued: seq<Coord>, gone: seq<Coord>) {
    && Ordered(center, queued) && Elems(queued) == Missing(s, center, radius)
    && NoDup(gone) && Elems(gone) == OutOfView(s, center, radius)
  }

  ghost predicate Enabled(s: State, e: Event) {
    match e
    case Calc(center, radius, queued, gone) =>
      (s.phase.Idle? || s.phase.Calculated?) && CalcChoices(s, center, radius, queued, gone)
    case Begin(_, _, _) => s.phase.Idle? || s.phase.Calculated?
    case Pop => s.phase.Submit? && s.phase.left > 0 && (s.dirty != [] || s.loading != [])
    case StopSubmit => s.phase.Submit? && (s.phase.left == 0 || (s.dirty == [] && s.loading == []))
    case Take => s.phase.Drain? && s.results != []
    case StopDrain => s.phase.Drain? && s.results == []
    case SendChunk => s.phase.Sending? && s.phase.ready != []
    case StopSend => s.phase.Sending? && s.phase.ready == []
    case SendUnload => s.phase.Unloading? && s.unloading != []
    case End => s.phase.Unloading? && s.unloading == []
    case Finish(c, _) => c in s.flight
  }

  ghost function Apply(s: State, e: Event): State
    requires Enabled(s, e)
  {
    match e
    case Calc(center, radius, queued, gone) => AfterCalc(s, center, radius, queued, gone)
    case Begin(center, radius, budget) => s.(phase := Submit(center, radius, budget))
    case Pop => AfterPop(s)
    case StopSubmit => s.(phase := Drain(s.phase.center, s.phase.radius, []))
    case Take => AfterTake(s)
    case StopDrain => s.(phase := Sending(s.phase.ready))
    case SendChunk => AfterSend(s)
    case StopSend => s.(phase := Unloading)
    case SendUnload => AfterUnload(s)
    case End => s.(phase := Idle)
    case Finish(c, ok) => AfterFinish(s, c, ok)
  }

  ghost function AfterCalc(s: State, center: Coord, radius: nat, queued: seq<Coord>, gone: seq<Coord>): State {
    s.(phase := Calculated(center, radius), loading := s.loading + queued,
       loaded := s.loaded - Elems(gone), unloading := s.unloading + gone, failed := {})
  }

  /** Dirty chunks first; a chunk in flight or already sent is dropped, any other is handed to the pool. */
  ghost function AfterPop(s: State): State
    requires s.phase.Submit? && s.phase.left > 0 && (s.dirty != [] || s.loading != [])
  {
    var c := if s.dirty != [] then s.dirty[0] else s.loading[0];
    var popped := if s.dirty != [] then s.(dirty := s.dirty[1..]) else s.(loading := s.loading[1..]);
    if c in s.pending || c in s.loaded then popped
    else popped.(pending := s.pending + {c}, flight := s.flight + multiset{c},
                 phase := s.phase.(left := s.phase.left - 1))
  }

  /** A failed job only frees its chunk, so does one whose chunk has left the view; any other becomes ready. */
  ghost function AfterTake(s: State): State
    requires s.phase.Drain? && s.results != []
  {
    var r := s.results[0];
    var taken := s.(results := s.results[1..], pending := s.pending - {r.coords});
    if !r.ok then taken.(failed := s.failed + {r.coords})
    else if Distance(r.coords, s.phase.center) > s.phase.radius then taken
    else taken.(loaded := s.loaded + {r.coords}, phase := s.phase.(ready := s.phase.ready + [r.coords]))
  }

  ghost function AfterSend(s: State): State
    requires s.phase.Sending? && s.phase.ready != []
  {
    s.(wire := s.wire + [ChunkData(s.phase.ready[0])], phase := Sending(s.phase.ready[1..]))
  }

  ghost function AfterUnload(s: State): State
    requires s.unloading != []
  {
    s.(wire := s.wire + [UnloadChunk(s.unloading[0])], unloading := s.unloading[1..])
  }

  ghost function AfterFinish(s: State, c: Coord, ok: bool): State {
    s.(flight := s.flight - multiset{c}, results := s.results + [Finished(c, ok)])
  }

  /** A run: events in the order they happened. */
  datatype Run = Start | Then(before: Run, last: Event)

  ghost predicate Legal(s: State, run: Run)
    decreases run, 0
  {
    run.Then? ==> Legal(s, run.before) && Enabled(Exec(s, run.before), run.last)
  }

  ghost function Exec(s: State, run: Run): State
    requires Legal(s, run)
    decreases run, 1
  {
    match run
    case Start => s
    case Then(before, e) => Apply(Exec(s, before), e)
  }

  /** Several calculator messages of one tick all read the same player position: a second batch before the
      sender has run repeats the position of the first. */
  ghost predicate OnePosition(s: State, e: Event) {
    e.Calc? && s.phase.Calculated? ==> e.center == s.phase.center && e.radius == s.phase.radius
  }

  ghost predicate Alternates(s: State, run: Run)
    requires Legal(s, run)
  {
    run.Then? ==> Alternates(s, run.before) && OnePosition(Exec(s, run.before), run.last)
  }

  ghost function Deliver(held: set<Coord>, p: Packet): set<Coord> {
    match p
    case ChunkData(c) => held + {c}
    case UnloadChunk(c) => held - {c}
  }

  /** The chunks a client holds that starts with `held` and receives `wire`. */
  ghost function Client(held: set<Coord>, wire: seq<Packet>): set<Coord> {
    if wire == [] then held else Deliver(Client(held, wire[..|wire| - 1]), wire[|wire| - 1])
  }

  /** A chunk is sent only while the stream does not already hold it on the client, unloaded only while it does. */
  ghost predicate OnTime(held: set<Coord>, p: Packet) {
    p.ChunkData? <==> p.coords !in held
  }

  ghost predicate Paced(wire: seq<Packet>) {
    wire == [] || (Paced(wire[..|wire| - 1]) && OnTime(Client({}, wire[..|wire| - 1]), wire[|wire| - 1]))
  }

  lemma ClientAppend(held: set<Coord>, wire: seq<Packet>, p: Packet)
    ensures Client(held, wire + [p]) == Deliver(Client(held, wire), p)
    ensures Paced(wire + [p]) <==> Paced(wire) && OnTime(Client({}, wire), p)
  {
    assert (wire + [p])[..|wire|] == wire;
  }

  /** Chunks a client already held when the stream began stay until they are unloaded, nothing else differs. */
  lemma {:induction false} ClientWithHeld(held: set<Coord>, wire: seq<Packet>)
    ensures Client({}, wire) <= Client(held, wire) <= Client({}, wire) + held
  {
    if wire != [] {
      ClientWithHeld(held, wire[..|wire| - 1]);
    }
  }

  // ---------------------------------------------------------------------------------------------
  // The safety invariant
  // ---------------------------------------------------------------------------------------------

  function Ready(s: State): seq<Coord> {
    match s.phase
    case Drain(_, _, ready) => ready
    case Sending(ready) => ready
    case _ => []
  }

  ghost function Reported(results: seq<Finished>): multiset<Coord> {
    if results == [] then multiset{} else multiset{results[0].coords} + Reported(results[1..])
  }

  lemma {:induction false} ReportedAppend(results: seq<Finished>, r: Finished)
    ensures Reported(results + [r]) == Reported(results) + multiset{r.coords}
  {
    if results != [] {
      assert (results + [r])[1..] == results[1..] + [r];
      ReportedAppend(results[1..], r);
    }
  }

  ghost predicate Apart<T>(a: set<T>, b: set<T>, c: set<T>, d: set<T>) {
    a !! b && a !! c && a !! d && b !! c && b !! d && c !! d
  }

  /** Every pending chunk has one job in flight or one result waiting, nothing else has. */
  ghost predicate Accounted(flight: multiset<Coord>, results: seq<Finished>, pending: set<Coord>) {
    flight + Reported(results) == multiset(pending)
  }

  ghost predicate Inv(s: State) {
    && s.dirty == []
    && NoDup(s.loading) && NoDup(s.unloading) && NoDup(Ready(s))
    && Apart(Elems(s.loading), s.pending, s.loaded, Elems(s.unloading))
    && Accounted(s.flight, s.results, s.pending)
    && Elems(Ready(s)) <= s.loaded
    && Client({}, s.wire) == (s.loaded - Elems(Ready(s))) + Elems(s.unloading)
    && Paced(s.wire)
    && (s.phase.Idle? ==> s.unloading == [])
    && (s.phase.Calculated? ==>
          forall c :: c in Elems(s.unloading) ==> Distance(s.phase.center, c) > s.phase.radius)
  }

  /** A calculator batch whose square holds none of the chunks still to be unloaded. */
  ghost predicate Careful(s: State, e: Event) {
    e.Calc? ==> Square(e.center, e.radius) !! Elems(s.unloading)
  }

  ghost predicate CarefulRun(s: State, run: Run)
    requires Legal(s, run)
  {
    run.Then? ==> CarefulRun(s, run.before) && Careful(Exec(s, run.before), run.last)
  }

  ghost predicate InvThroughout(s: State, run: Run)
    requires Legal(s, run)
  {
    Inv(Exec(s, run)) && (run.Then? ==> InvThroughout(s, run.before))
  }

  /** SAFETY.  In every run of a fresh player that alternates calculator batches with sender passes, or is careful,
      with jobs finishing at any moment: the queue holds no duplicate, the four collections are disjoint, every
      pending chunk has exactly one job in flight or result waiting, the packets are paced, and between
      ticks a client that held `held` before the stream began holds the loaded chunks and otherwise only
      chunks of `held`. */
  lemma {:induction false} ClientAgreesWithLoaded(run: Run, held: set<Coord>)
    requires Legal(FRESH, run) && (Alternates(FRESH, run) || CarefulRun(FRESH, run))
    ensures var s := Exec(FRESH, run);
            && NoDup(s.loading) && Apart(Elems(s.loading), s.pending, s.loaded, Elems(s.unloading))
            && (forall c :: s.flight[c] + Reported(s.results)[c] == if c in s.pending then 1 else 0)
            && Paced(s.wire)
            && (s.phase.Idle? ==> Client({}, s.wire) == s.loaded)
            && (s.phase.Idle? ==> s.loaded <= Client(held, s.wire) <= s.loaded + held)
  {
    hide Inv, Apply, Enabled, NoDup, Apart, Reported, Paced, Client;
    FreshHasInv();
    if Alternates(FRESH, run) {
      RunKeepsInv(FRESH, run);
    } else {
      RunKeepsInvExactly(FRESH, run);
      ThroughoutEnds(FRESH, run);
    }
    InvMeans(Exec(FRESH, run), held);
  }

  /** A batch at the position of the one before, or at any position once the sender has run, is careful. */
  lemma OnePositionIsCareful(s: State, e: Event)
    requires Inv(s) && Enabled(s, e) && OnePosition(s, e)
    ensures Careful(s, e)
  {
    if e.Calc? {
      forall c | c in Square(e.center, e.radius)
        ensures c !in Elems(s.unloading)
      {
        SquareIsDistance(e.center, e.radius, c);
      }
    }
  }

  /** One event, exactly: it keeps the invariant unless it is a calculator batch whose square holds a chunk still to
      be unloaded. */
  lemma StepKeepsInv(s: State, e: Event)
    requires Inv(s) && Enabled(s, e)
    ensures Inv(Apply(s, e)) <==> Careful(s, e)
    ensures OnePosition(s, e) ==> Careful(s, e)
  {
    hide Inv, Apply, Enabled;
    if Careful(s, e) {
      CarefulStepKeepsInv(s, e);
    } else {
      CarelessCalcBreaksInv(s, e);
    }
    if OnePosition(s, e) {
      OnePositionIsCareful(s, e);
    }
  }

  /** A whole run, exactly: the invariant holds all along when every calculator batch is careful, and only then. */
  lemma {:induction false} RunKeepsInvExactly(s: State, run: Run)
    requires Inv(s) && Legal(s, run)
    ensures InvThroughout(s, run) <==> CarefulRun(s, run)
  {
    hide Inv, Apply, Enabled, Careful;
    if run.Then? {
      RunKeepsInvExactly(s, run.before);
      if InvThroughout(s, run.before) {
        ThroughoutEnds(s, run.before);
        StepKeepsInv(Exec(s, run.before), run.last);
      }
    }
  }

  lemma ThroughoutEnds(s: State, run: Run)
    requires Legal(s, run) && InvThroughout(s, run)
    ensures Inv(Exec(s, run))
  {
  }

  lemma {:induction false} RunKeepsInv(s: State, run: Run)
    requires Inv(s) && Legal(s, run) && Alternates(s, run)
    ensures Inv(Exec(s, run))
  {
    if run.Then? {
      RunKeepsInv(s, run.before);
      StepKeepsInv(Exec(s, run.before), run.last);
    }
  }

  lemma FreshHasInv()
    ensures Inv(FRESH)
  {
  }

  lemma InvMeans(s: State, held: set<Coord>)
    requires Inv(s)
    ensures NoDup(s.loading) && Apart(Elems(s.loading), s.pending, s.loaded, Elems(s.unloading))
    ensures forall c :: s.flight[c] + Reported(s.results)[c] == if c in s.pending then 1 else 0
    ensures Paced(s.wire)
    ensures s.phase.Idle? ==> Client({}, s.wire) == s.loaded
    ensures s.phase.Idle? ==> s.loaded <= Client(held, s.wire) <= s.loaded + held
  {
    ClientWithHeld(held, s.wire);
    assert forall c :: s.flight[c] + Reported(s.results)[c] == (s.flight + Reported(s.results))[c];
  }

  // ---------------------------------------------------------------------------------------------
  // Why each step keeps the invariant
  // ---------------------------------------------------------------------------------------------

  lemma CalcChanges(s: State, e: Event)
    requires Enabled(s, e) && e.Calc?
    ensures var t := Apply(s, e);
            && Elems(t.loading) == Elems(s.loading) + Missing(s, e.center, e.radius)
            && Elems(t.unloading) == Elems(s.unloading) + OutOfView(s, e.center, e.radius)
            && NoDup(e.queued) && NoDup(e.gone)
  {
    OrderedNoDup(e.center, e.queued);
    AppendElems(s.loading, e.queued);
    AppendElems(s.unloading, e.gone);
  }

  lemma CarefulCalcKeepsInv(s: State, e: Event)
    requires Inv(s) && Enabled(s, e) && e.Calc? && Careful(s, e)
    ensures Inv(Apply(s, e))
  {
    var t := Apply(s, e);
    CalcChanges(s, e);
    AppendElems(s.loading, e.queued);
    AppendElems(s.unloading, e.gone);
    forall c
      ensures c in Square(e.center, e.radius) <==> Distance(e.center, c) <= e.radius
    {
      SquareIsDistance(e.center, e.radius, c);
    }
    assert Apart(Elems(t.loading), t.pending, t.loaded, Elems(t.unloading));
    assert Inv(t);
  }

  /** What a careless batch queues is also about to be unloaded. */
  lemma CarelessCalcBreaksInv(s: State, e: Event)
    requires Inv(s) && Enabled(s, e) && e.Calc? && !Careful(s, e)
    ensures !Inv(Apply(s, e))
  {
    var t := Apply(s, e);
    CalcChanges(s, e);
    var c :| c in Square(e.center, e.radius) && c in Elems(s.unloading);
    assert c in Missing(s, e.center, e.radius);
    assert c in Elems(t.loading) && c in Elems(t.unloading);
  }

  lemma PopKeepsInv(s: State)
    requires Inv(s) && Enabled(s, Pop)
    ensures Inv(AfterPop(s))
  {
    var t, c := AfterPop(s), s.loading[0];
    TailElems(s.loading);
    assert c in Elems(s.loading);
    assert multiset(s.pending + {c}) == multiset(s.pending) + multiset{c};
    assert Accounted(t.flight, t.results, t.pending);
    assert Inv(t);
  }

  lemma AccountedTake(flight: multiset<Coord>, results: seq<Finished>, pending: set<Coord>)
    requires results != [] && Accounted(flight, results, pending)
    ensures results[0].coords in pending
    ensures Accounted(flight, results[1..], pending - {results[0].coords})
  {
    var c := results[0].coords;
    assert multiset(pending)[c] > 0;
    assert multiset(pending - {c}) == multiset(pending) - multiset{c};
  }

  lemma TakeKeepsInv(s: State)
    requires Inv(s) && Enabled(s, Take)
    ensures Inv(AfterTake(s))
  {
    hide Client, Paced, Reported, Accounted;
    var t, c := AfterTake(s), s.results[0].coords;
    AccountedTake(s.flight, s.results, s.pending);
    AppendElems(s.phase.ready, [c]);
    assert Elems([c]) == {c};
    assert Apart(Elems(t.loading), t.pending, t.loaded, Elems(t.unloading));
    assert Inv(t);
  }

  lemma SendKeepsInv(s: State)
    requires Inv(s) && Enabled(s, SendChunk)
    ensures Inv(AfterSend(s))
  {
    var c := s.phase.ready[0];
    TailElems(s.phase.ready);
    assert c in Elems(Ready(s));
    ClientAppend({}, s.wire, ChunkData(c));
    assert Inv(AfterSend(s));
  }

  lemma UnloadKeepsInv(s: State)
    requires Inv(s) && Enabled(s, SendUnload)
    ensures Inv(AfterUnload(s))
  {
    var c := s.unloading[0];
    TailElems(s.unloading);
    assert c in Elems(s.unloading);
    ClientAppend({}, s.wire, UnloadChunk(c));
    assert Inv(AfterUnload(s));
  }

  lemma FinishKeepsInv(s: State, c: Coord, ok: bool)
    requires Inv(s) && c in s.flight
    ensures Inv(AfterFinish(s, c, ok))
  {
    ReportedAppend(s.results, Finished(c, ok));
  }

  lemma PhaseKeepsInv(s: State, t: State)
    requires Inv(s) && t == s.(phase := t.phase) && Ready(t) == Ready(s) && !t.phase.Calculated?
    requires t.phase.Idle? ==> s.unloading == []
    ensures Inv(t)
  {
  }

  lemma CarefulStepKeepsInv(s: State, e: Event)
    requires Inv(s) && Enabled(s, e) && Careful(s, e)
    ensures Inv(Apply(s, e))
  {
    match e
    case Calc(_, _, _, _) => CarefulCalcKeepsInv(s, e);
    case Pop => PopKeepsInv(s);
    case Take => TakeKeepsInv(s);
    case SendChunk => SendKeepsInv(s);
    case SendUnload => UnloadKeepsInv(s);
    case Finish(c, ok) => FinishKeepsInv(s, c, ok);
    case Begin(_, _, _) => PhaseKeepsInv(s, Apply(s, e));
    case StopSubmit => PhaseKeepsInv(s, Apply(s, e));
    case StopDrain => PhaseKeepsInv(s, Apply(s, e));
    case StopSend => PhaseKeepsInv(s, Apply(s, e));
    case End => PhaseKeepsInv(s, Apply(s, e));
  }
}
