/** In which order, and how many at a time, chunks pass through the queues of a player. */
module ChunkOrder {
  import opened ChunkGrid
  import opened ChunkStream
  import opened ChunkConvergence

  // ---------------------------------------------------------------------------------------------
  // Nearest first
  // ---------------------------------------------------------------------------------------------

  /** A calculator batch queues behind what is queued already, nearest first, and at equal distance by x and then z.  A
      player whose own chunk is missing gets that one before the rest of the square. */
  lemma BatchQueuesNearestFirst(s: State, e: Event)
    requires e.Calc? && Enabled(s, e)
    ensures var t, n := Apply(s, e), |s.loading|;
            && n <= |t.loading| && t.loading[..n] == s.loading
            && (forall i, j :: n <= i < j < |t.loading| ==>
                  Distance(t.loading[i], e.center) <= Distance(t.loading[j], e.center))
            && (forall i, j :: n <= i < j < |t.loading| ==>
                  Distance(t.loading[i], e.center) == Distance(t.loading[j], e.center) ==>
                    t.loading[i].x < t.loading[j].x ||
                    (t.loading[i].x == t.loading[j].x && t.loading[i].z < t.loading[j].z))
            && (e.center !in s.loaded + Elems(s.loading) + s.pending ==> n < |t.loading| && t.loading[n] == e.center)
  {
    NearestFirst(e.center, e.queued);
    if e.center !in s.loaded + Elems(s.loading) + s.pending {
      SquareIsDistance(e.center, e.radius, e.center);
      assert e.center in Elems(e.queued);
      OwnChunkFirst(e.center, e.queued);
    }
    hide Distance, Ordered, Square, Missing, OutOfView, NoDup, Elems;
    var t, n := Apply(s, e), |s.loading|;
    assert t.loading == s.loading + e.queued;
  }

  lemma OwnChunkFirst(center: Coord, q: seq<Coord>)
    requires Ordered(center, q) && center in q
    ensures q[0] == center
  {
    var k :| 0 <= k < |q| && q[k] == center;
    assert k > 0 ==> Before(center, q[0], q[k]);
  }

  // ---------------------------------------------------------------------------------------------
  // First in, first out
  // ---------------------------------------------------------------------------------------------

  /** What a run has put into the four queues of a player, and how often it has taken something out. */
  ghost function Queued(run: Run): seq<Coord> {
    if run.Start? then [] else Queued(run.before) + Added(run.last)
  }

  ghost function Gone(run: Run): seq<Coord> {
    if run.Start? then [] else Gone(run.before) + Dropped(run.last)
  }

  ghost function Reports(run: Run): seq<Finished> {
    if run.Start? then [] else Reports(run.before) + Finishing(run.last)
  }

  ghost function Times(run: Run, e: Event): nat {
    if run.Start? then 0 else Times(run.before, e) + if run.last == e then 1 else 0
  }

  /** `left` is what is left of a queue that held `first`, got `added` and gave away `taken` from its front. */
  ghost predicate Fifo<T>(first: seq<T>, added: seq<T>, taken: nat, left: seq<T>) {
    taken <= |first + added| && left == (first + added)[taken..]
  }

  lemma FifoStep<T>(first: seq<T>, added: seq<T>, taken: nat, left: seq<T>, more: seq<T>, front: bool, after: seq<T>)
    requires Fifo(first, added, taken, left)
    requires if front then left != [] && more == [] && after == left[1..] else after == left + more
    ensures Fifo(first, added + more, taken + if front then 1 else 0, after)
  {
    assert first + (added + more) == first + added + more;
  }

  /** FIRST IN, FIRST OUT.  Over any run chunks are submitted, results drained and unloads sent in the order in which
      they were queued: what is left of each queue is what was put in, less what was taken from the front. */
  lemma {:induction false} QueuesAreFifo(s: State, run: Run)
    requires Legal(s, run) && s.dirty == []
    ensures var t := Exec(s, run);
            && t.dirty == []
            && Fifo(s.loading, Queued(run), Times(run, Pop), t.loading)
            && Fifo(s.unloading, Gone(run), Times(run, SendUnload), t.unloading)
            && Fifo(s.results, Reports(run), Times(run, Take), t.results)
  {
    if run.Then? {
      QueuesAreFifo(s, run.before);
      var m := Exec(s, run.before);
      hide Fifo, Enabled, Apply;
      FifoAfter(s, m, run.last, Queued(run.before), Gone(run.before), Reports(run.before),
                Times(run.before, Pop), Times(run.before, SendUnload), Times(run.before, Take));
    }
  }

  lemma FifoAfter(s: State, m: State, e: Event, queued: seq<Coord>, gone: seq<Coord>, reports: seq<Finished>,
                  pops: nat, unloads: nat, takes: nat)
    requires Enabled(m, e) && m.dirty == []
    requires Fifo(s.loading, queued, pops, m.loading) && Fifo(s.unloading, gone, unloads, m.unloading)
    requires Fifo(s.results, reports, takes, m.results)
    ensures var t := Apply(m, e);
            && t.dirty == []
            && Fifo(s.loading, queued + Added(e), pops + (if e == Pop then 1 else 0), t.loading)
            && Fifo(s.unloading, gone + Dropped(e), unloads + (if e == SendUnload then 1 else 0), t.unloading)
            && Fifo(s.results, reports + Finishing(e), takes + (if e == Take then 1 else 0), t.results)
  {
    StepIsFifo(m, e);
    hide Fifo, Enabled, Apply;
    var t := Apply(m, e);
    FifoStep(s.loading, queued, pops, m.loading, Added(e), e == Pop, t.loading);
    FifoStep(s.unloading, gone, unloads, m.unloading, Dropped(e), e == SendUnload, t.unloading);
    FifoStep(s.results, reports, takes, m.results, Finishing(e), e == Take, t.results);
  }

  ghost function Added(e: Event): seq<Coord> {
    if e.Calc? then e.queued else []
  }

  ghost function Dropped(e: Event): seq<Coord> {
    if e.Calc? then e.gone else []
  }

  ghost function Finishing(e: Event): seq<Finished> {
    if e.Finish? then [Finished(e.coords, e.ok)] else []
  }

  lemma StepIsFifo(m: State, e: Event)
    requires Enabled(m, e) && m.dirty == []
    ensures var t := Apply(m, e);
            && t.dirty == []
            && (e == Pop ==> m.loading != [])
            && (e == SendUnload ==> m.unloading != [])
            && (e == Take ==> m.results != [])
            && t.loading == (if e == Pop then m.loading[1..] else m.loading + Added(e))
            && t.unloading == (if e == SendUnload then m.unloading[1..] else m.unloading + Dropped(e))
            && t.results == (if e == Take then m.results[1..] else m.results + Finishing(e))
  {
    assert forall q: seq<Coord> :: q + [] == q;
    assert forall q: seq<Finished> :: q + [] == q;
    hide Distance, Ordered, Elems, Missing, OutOfView, NoDup;
  }

  /** A queued chunk that is popped is always submitted; a chunk in the dirty queue goes first, and is dropped without
      being resent if it is loaded. */
  lemma PopSubmits(s: State)
    requires Enabled(s, Pop)
    ensures var t := Apply(s, Pop);
            && (Inv(s) ==> t.pending == s.pending + {s.loading[0]} && t.phase.left == s.phase.left - 1)
            && (s.dirty != [] ==> t.loading == s.loading && t.dirty == s.dirty[1..])
            && (s.dirty != [] && s.dirty[0] in s.loaded ==> t == s.(dirty := s.dirty[1..]))
  {
    if Inv(s) {
      assert s.loading[0] in Elems(s.loading);
    }
  }

  // ---------------------------------------------------------------------------------------------
  // What a pass sends
  // ---------------------------------------------------------------------------------------------

  ghost function Data(q: seq<Coord>): (r: seq<Packet>)
    ensures |r| == |q| && forall i :: 0 <= i < |q| ==> r[i] == ChunkData(q[i])
  {
    seq(|q|, i requires 0 <= i < |q| => ChunkData(q[i]))
  }

  ghost function Unloads(q: seq<Coord>): (r: seq<Packet>)
    ensures |r| == |q| && forall i :: 0 <= i < |q| ==> r[i] == UnloadChunk(q[i])
  {
    seq(|q|, i requires 0 <= i < |q| => UnloadChunk(q[i]))
  }

  /** What the pass in progress still has to send once it has drained the results. */
  ghost function Outstanding(s: State): seq<Packet> {
    match s.phase
    case Sending(ready) => Data(ready) + Unloads(s.unloading)
    case Unloading => Unloads(s.unloading)
    case _ => []
  }

  ghost predicate StartsNothing(run: Run) {
    run.Then? ==> StartsNothing(run.before) && !run.last.Calc? && !run.last.Begin?
  }

  /** WHAT IS SENT.  From the moment the results are drained a pass sends the chunks it collected, in the order it
      collected them, then the unloads in the order they were queued, and nothing else. */
  lemma {:induction false} PassSendsInOrder(s: State, run: Run)
    requires Legal(s, run) && StartsNothing(run) && s.phase.Sending?
    ensures var t := Exec(s, run);
            && (t.phase.Sending? || t.phase.Unloading? || t.phase.Idle?)
            && (t.phase.Idle? ==> t.wire == s.wire + Data(s.phase.ready) + Unloads(s.unloading))
            && t.wire + Outstanding(t) == s.wire + Data(s.phase.ready) + Unloads(s.unloading)
  {
    if run.Then? {
      PassSendsInOrder(s, run.before);
      StepSends(Exec(s, run.before), run.last);
    } else {
      assert s.wire + Outstanding(s) == s.wire + Data(s.phase.ready) + Unloads(s.unloading);
    }
  }

  lemma StepSends(m: State, e: Event)
    requires Enabled(m, e) && !e.Calc? && !e.Begin?
    requires m.phase.Sending? || m.phase.Unloading? || m.phase.Idle?
    ensures var t := Apply(m, e);
            && (t.phase.Sending? || t.phase.Unloading? || t.phase.Idle?)
            && t.wire + Outstanding(t) == m.wire + Outstanding(m)
  {
    assert Data([]) + Unloads(m.unloading) == Unloads(m.unloading);
    match e
    case SendChunk => SendingNext(m);
    case SendUnload => UnloadingNext(m);
    case _ =>
  }

  lemma SendingNext(m: State)
    requires Enabled(m, SendChunk)
    ensures AfterSend(m).wire + Outstanding(AfterSend(m)) == m.wire + Outstanding(m)
  {
    hide Data, Unloads;
    DataCons(m.phase.ready);
    SendOne(m.wire, ChunkData(m.phase.ready[0]), Data(m.phase.ready[1..]), Unloads(m.unloading));
  }

  lemma DataCons(q: seq<Coord>)
    requires q != []
    ensures Data(q) == [ChunkData(q[0])] + Data(q[1..])
  {
  }

  lemma SendOne(wire: seq<Packet>, p: Packet, rest: seq<Packet>, more: seq<Packet>)
    ensures wire + [p] + (rest + more) == wire + ([p] + rest + more)
  {
  }

  lemma UnloadingNext(m: State)
    requires Enabled(m, SendUnload)
    ensures AfterUnload(m).wire + Outstanding(AfterUnload(m)) == m.wire + Outstanding(m)
  {
    assert Unloads(m.unloading) == [UnloadChunk(m.unloading[0])] + Unloads(m.unloading[1..]);
    hide Unloads;
  }

  // ---------------------------------------------------------------------------------------------
  // How much a pass submits
  // ---------------------------------------------------------------------------------------------

  function Min(a: nat, b: nat): nat {
    if a < b then a else b
  }

  /** After `k` submissions of a pass whose budget is `budget`. */
  ghost predicate Submitting(s: State, queue: seq<Coord>, budget: nat) {
    match s.phase
    case Calculated(_, _) => false
    case Submit(_, _, left) =>
      left <= budget && budget - left <= |queue| && s.loading == queue[budget - left..]
    case _ => s.loading == queue[Min(budget, |queue|)..]
  }

  lemma StepSubmits(s: State, e: Event, queue: seq<Coord>, budget: nat)
    requires Inv(s) && Enabled(s, e) && !e.Calc? && !e.Begin? && Submitting(s, queue, budget)
    ensures Submitting(Apply(s, e), queue, budget)
  {
    if e == Pop {
      assert s.loading[0] in Elems(s.loading);
      hide Inv, Elems;
      PopKeepsSubmitting(s, queue, budget);
    } else {
      assert e == StopSubmit ==> s.dirty == [];
      hide Inv, AfterPop;
    }
  }

  lemma PopKeepsSubmitting(s: State, queue: seq<Coord>, budget: nat)
    requires Enabled(s, Pop) && Submitting(s, queue, budget)
    requires s.dirty == [] && s.loading[0] !in s.pending && s.loading[0] !in s.loaded
    ensures Submitting(AfterPop(s), queue, budget)
  {
  }

  /** One whole pass submits as much of the queue, from its front, as its budget allows. */
  lemma {:induction false} PassSubmits(s: State, run: Run, center: Coord, radius: nat, budget: nat)
    requires Inv(s) && (s.phase.Idle? || s.phase.Calculated?) && StartsNothing(run)
    requires Enabled(s, Begin(center, radius, budget)) && Legal(Apply(s, Begin(center, radius, budget)), run)
    ensures var t := Exec(Apply(s, Begin(center, radius, budget)), run);
            Inv(t) && Submitting(t, s.loading, budget)
  {
    var begun := Apply(s, Begin(center, radius, budget));
    StepKeepsInv(s, Begin(center, radius, budget));
    if run.Then? {
      PassSubmits(s, run.before, center, radius, budget);
      var m := Exec(begun, run.before);
      StepSubmits(m, run.last, s.loading, budget);
      StepKeepsInv(m, run.last);
    }
  }

  /** THE SUBMISSION RATE.  A pass that has ended leaves behind of the queue it found: all but a third but at least all
      but the configured minimum under the setting 0, all but the setting if that is positive, and nothing under any
      negative setting, as long as the queue has fewer than 2^63 entries. */
  lemma PassLeaves(s: State, run: Run, view: View)
    requires Inv(s) && (s.phase.Idle? || s.phase.Calculated?) && StartsNothing(run)
    requires var begin := Begin(view.center, view.radius, view.Budget(|s.loading|));
             Enabled(s, begin) && Legal(Apply(s, begin), run) && Exec(Apply(s, begin), run).phase.Idle?
    ensures var left, n := Exec(Apply(s, Begin(view.center, view.radius, view.Budget(|s.loading|))), run).loading, |s.loading|;
            && |left| <= n && left == s.loading[n - |left|..]
            && (view.perTick == 0 && view.min >= n ==> left == [])
            && (view.perTick == 0 && n / 3 <= view.min <= n ==> |left| == n - view.min)
            && (view.perTick == 0 && view.min <= n / 3 ==> |left| == n - n / 3)
            && (view.perTick > 0 ==> |left| == if n <= view.perTick then 0 else n - view.perTick)
            && (view.perTick < 0 && n < 0x8000_0000_0000_0000 ==> left == [])
  {
    PassSubmits(s, run, view.center, view.radius, view.Budget(|s.loading|));
    hide Inv, Legal, Exec;
  }
}
