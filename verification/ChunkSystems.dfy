/** The calculator and the sender as they change a player's `ChunkReceiver`, proved to perform legal events of
    the chunk stream. */
module ChunkSystems {
  import opened ChunkGrid
  import opened ChunkStream
  import opened ChunkConvergence
  import opened Options
  import opened PlayerChunks
  import Movements

  /** Stable sort by distance, as insertion sort. */
  method SortByDistance(center: Coord, q: seq<Coord>) returns (r: seq<Coord>)
    requires ScanOrdered(q)
    ensures Ordered(center, r) && Elems(r) == Elems(q)
    ensures forall i, j :: 0 <= i < j < |r| ==>
              && Distance(r[i], center) <= Distance(r[j], center)
              && (Distance(r[i], center) == Distance(r[j], center) ==>
                    r[i].x < r[j].x || (r[i].x == r[j].x && r[i].z < r[j].z))
  {
    r := [];
    for i := 0 to |q|
      invariant Ordered(center, r) && Elems(r) == Elems(q[..i])
    {
      r := Insert(center, r, q[i], q[..i]);
      assert q[..i + 1] == q[..i] + [q[i]];
      AppendElems(q[..i], [q[i]]);
    }
    assert q[..|q|] == q;
    NearestFirst(center, r);
  }

  method Insert(center: Coord, r: seq<Coord>, c: Coord, ghost earlier: seq<Coord>) returns (s: seq<Coord>)
    requires Ordered(center, r) && Elems(r) == Elems(earlier)
    requires forall e :: e in earlier ==> ScanBefore(e, c)
    ensures Ordered(center, s) && Elems(s) == Elems(r) + {c}
  {
    var p := |r|;
    while p > 0 && Distance(r[p - 1], center) > Distance(c, center)
      invariant 0 <= p <= |r|
      invariant forall k :: p <= k < |r| ==> Before(center, c, r[k])
    {
      p := p - 1;
    }
    forall k | 0 <= k < p
      ensures Before(center, r[k], c)
    {
      assert r[k] in Elems(earlier);
      assert k < p - 1 ==> Before(center, r[k], r[p - 1]);
    }
    s := r[..p] + [c] + r[p..];
  }

  /** The player's connection: what was sent on it, in order. */
  class StreamWriter {
    var wire: seq<Packet>

    constructor ()
      ensures wire == []
    {
      wire := [];
    }

    method SendPacket(p: Packet)
      modifies this
      ensures wire == old(wire) + [p]
    {
      wire := wire + [p];
    }
  }

  lemma Extend(start: State, run: Run, now: State, e: Event, view: View)
    requires Legal(start, run) && Exec(start, run) == now && StillRun(start, run, view)
    requires Enabled(now, e) && Still(now, e, view)
    ensures Legal(start, Then(run, e)) && Exec(start, Then(run, e)) == Apply(now, e)
    ensures StillRun(start, Then(run, e), view)
    ensures Passes(Then(run, e)) == Passes(run) + if e.End? then 1 else 0
  {
  }

  class ChunkReceiver {
    var dirty: seq<Coord>
    var loading: seq<Coord>
    var loaded: set<Coord>
    var unloading: seq<Coord>
    var pending: set<Coord>
    var results: seq<Finished>
    /** Jobs that hold a clone of the results queue and have not reported yet. */
    var flight: multiset<Coord>
    ghost var phase: Phase
    ghost var failed: set<Coord>

    constructor ()
      ensures forall conn: StreamWriter :: conn.wire == [] ==> Snapshot(conn) == FRESH
    {
      dirty, loading, loaded, unloading, pending, results := [], [], {}, [], {}, [];
      flight, phase, failed := multiset{}, Idle, {};
    }

    /** The protocol state this receiver and its connection represent. */
    ghost function Snapshot(conn: StreamWriter): State
      reads this, conn
    {
      State(phase, dirty, loading, pending, loaded, unloading, flight, results, conn.wire, failed)
    }

    /** `run` leads from `start` to the present, all of it with the player at `view`. */
    ghost predicate Performed(conn: StreamWriter, start: State, run: Run, view: View)
      reads this, conn
    {
      Legal(start, run) && Exec(start, run) == Snapshot(conn) && StillRun(start, run, view)
    }

    /** One background job reports. */
    method FinishOne(conn: StreamWriter, c: Coord, ok: bool)
      requires c in flight
      modifies this`flight, this`results
      ensures Snapshot(conn) == AfterFinish(old(Snapshot(conn)), c, ok)
      ensures |flight| == |old(flight)| - 1 && |results| == |old(results)| + 1
    {
      flight := flight - multiset{c};
      results := results + [Finished(c, ok)];
    }

    /** Any number of background jobs finish, each pushing one result. */
    method JobsFinish(conn: StreamWriter, ghost start: State, ghost run: Run, ghost view: View)
      returns (ghost longer: Run)
      requires Performed(conn, start, run, view)
      modifies this`flight, this`results
      ensures Performed(conn, start, longer, view) && Passes(longer) == Passes(run)
      ensures |flight| + |results| == old(|flight| + |results|)
    {
      hide Legal, Exec, StillRun;
      longer := run;
      var more: bool := *;
      while more && flight != multiset{}
        invariant Performed(conn, start, longer, view) && Passes(longer) == Passes(run)
        invariant |flight| + |results| == old(|flight| + |results|)
        decreases |flight|
      {
        var c :| c in flight;
        var ok: bool := *;
        Extend(start, longer, Snapshot(conn), Finish(c, ok), view);
        FinishOne(conn, c, ok);
        longer := Then(longer, Finish(c, ok));
        more := *;
      }
    }

    /** One `ChunkCalc` for a player at `at`: queue the missing chunks of the view square nearest first, move the loaded
        chunks outside it to `unloading`.  Beyond the last chunk it panics before it changes anything. */
    method Calculate(conn: StreamWriter, at: Place, server: nat, client: int, checked: bool)
      returns (panicked: bool, ghost e: Event)
      requires phase.Idle? || phase.Calculated?
      modifies this
      ensures panicked == CalculatorChunk(at, checked).None?
      ensures panicked ==> Snapshot(conn) == old(Snapshot(conn))
      ensures !panicked ==>
                && e.Calc? && Some(e.center) == CalculatorChunk(at, checked)
                && e.radius == EffectiveViewRadius(server, client) && phase == Calculated(e.center, e.radius)
                && Enabled(old(Snapshot(conn)), e) && Snapshot(conn) == Apply(old(Snapshot(conn)), e)
    {
      var radius := EffectiveViewRadius(server, client);
      var chunk := CalculatorChunk(at, checked);
      if chunk.None? {
        e := End;
        return true, e;
      }
      panicked := false;
      var center := chunk.value;
      var queued := ScanMissing(conn, center, radius);
      queued := SortByDistance(center, queued);
      Enqueue(queued);
      var gone := UnloadOutside(conn, center, radius);
      e := Calc(center, radius, queued, gone);
      phase, failed := Calculated(center, radius), {};
    }

    /** The chunks of the square that are neither loaded nor queued nor pending, in scan order. */
    method ScanMissing(conn: StreamWriter, center: Coord, radius: nat) returns (queued: seq<Coord>)
      ensures ScanOrdered(queued) && Elems(queued) == Missing(Snapshot(conn), center, radius)
    {
      var alreadyQueued := set c | c in loading;
      ghost var want := Missing(Snapshot(conn), center, radius);
      queued := [];
      for i := center.x - radius to center.x + radius + 1
        invariant ScanOrdered(queued)
        invariant forall c :: c in queued <==> c in want && c.x < i
      {
        for j := center.z - radius to center.z + radius + 1
          invariant ScanOrdered(queued)
          invariant forall c :: c in queued <==> c in want && (c.x < i || (c.x == i && c.z < j))
        {
          var coords := Coord(i, j);
          if coords !in loaded && coords !in alreadyQueued && coords !in pending {
            queued := queued + [coords];
          }
        }
      }
      assert Elems(queued) == want;
    }

    method Enqueue(queued: seq<Coord>)
      modifies this`loading
      ensures loading == old(loading) + queued
    {
      for k := 0 to |queued|
        invariant loading == old(loading) + queued[..k]
      {
        loading := loading + [queued[k]];
      }
      assert queued[..|queued|] == queued;
    }

    /** Moves every loaded chunk outside the square to `unloading`, in the order the hash set yields them. */
    method UnloadOutside(conn: StreamWriter, center: Coord, radius: nat) returns (ghost gone: seq<Coord>)
      modifies this`loaded, this`unloading
      ensures NoDup(gone) && Elems(gone) == OutOfView(old(Snapshot(conn)), center, radius)
      ensures loaded == old(loaded) - Elems(gone) && unloading == old(unloading) + gone
    {
      gone := [];
      var todo := loaded;
      while todo != {}
        invariant todo <= old(loaded)
        invariant NoDup(gone) && Elems(gone) == OutOfView(old(Snapshot(conn)), center, radius) - todo
        invariant loaded == old(loaded) - Elems(gone) && unloading == old(unloading) + gone
        decreases todo
      {
        var c :| c in todo;
        if Distance(center, c) > radius {
          AppendElems(gone, [c]);
          assert Elems([c]) == {c};
          loaded := loaded - {c};
          unloading := unloading + [c];
          gone := gone + [c];
        }
        todo := todo - {c};
      }
    }

    /** One complete sender pass for a connected player, with jobs finishing before every queue operation. */
    method Send(conn: StreamWriter, at: Place, server: nat, client: int, perTick: Setting, min: nat)
      returns (ghost run: Run)
      requires phase.Idle? || phase.Calculated?
      modifies this, conn
      ensures Performed(conn, old(Snapshot(conn)), run,
                        View(SenderChunk(at), EffectiveViewRadius(server, client), perTick, min))
      ensures Passes(run) == 1 && phase.Idle? && unloading == []
    {
      ghost var start := Snapshot(conn);
      var view := View(SenderChunk(at), EffectiveViewRadius(server, client), perTick, min);
      var chunkPerTick := view.Budget(|loading|);
      run := Then(Start, Begin(view.center, view.radius, chunkPerTick));
      Extend(start, Start, start, Begin(view.center, view.radius, chunkPerTick), view);
      phase := Submit(view.center, view.radius, chunkPerTick);
      run := SubmitJobs(conn, chunkPerTick, start, run, view);
      var ready: seq<Coord>;
      run, ready := DrainResults(conn, view, start, run);
      run := SendReady(conn, ready, start, run, view);
      run := SendUnloads(conn, start, run, view);
    }

    /** Phase 1: submit queued chunks to the pool until the budget or the queue is used up. */
    method SubmitJobs(conn: StreamWriter, chunkPerTick: nat, ghost start: State, ghost run: Run, ghost view: View)
      returns (ghost longer: Run)
      requires phase == Submit(view.center, view.radius, chunkPerTick)
      requires Performed(conn, start, run, view)
      modifies this
      ensures Performed(conn, start, longer, view) && Passes(longer) == Passes(run)
      ensures phase == Drain(view.center, view.radius, [])
    {
      hide Legal, Exec, StillRun;
      longer := run;
      var submitted := 0;
      while submitted < chunkPerTick
        invariant submitted <= chunkPerTick && phase == Submit(view.center, view.radius, chunkPerTick - submitted)
        invariant Performed(conn, start, longer, view) && Passes(longer) == Passes(run)
        decreases |dirty| + |loading|
      {
        longer := JobsFinish(conn, start, longer, view);
        if dirty == [] && loading == [] {
          break;
        }
        var isNew;
        longer, isNew := SubmitStep(conn, start, longer, view);
        submitted := submitted + if isNew then 1 else 0;
      }
      Extend(start, longer, Snapshot(conn), StopSubmit, view);
      longer := Then(longer, StopSubmit);
      phase := Drain(view.center, view.radius, []);
    }

    method SubmitStep(conn: StreamWriter, ghost start: State, ghost run: Run, ghost view: View)
      returns (ghost longer: Run, isNew: bool)
      requires Performed(conn, start, run, view)
      requires phase.Submit? && phase.left > 0 && (dirty != [] || loading != [])
      modifies this
      ensures Performed(conn, start, longer, view) && Passes(longer) == Passes(run)
      ensures phase == old(phase).(left := old(phase).left - if isNew then 1 else 0)
      ensures |dirty| + |loading| == old(|dirty| + |loading|) - 1
    {
      Extend(start, run, Snapshot(conn), Pop, view);
      longer := Then(run, Pop);
      isNew := SubmitNext(conn);
    }

    method PopNext() returns (coords: Coord)
      requires dirty != [] || loading != []
      modifies this`dirty, this`loading
      ensures old(dirty) != [] ==> coords == old(dirty)[0] && dirty == old(dirty)[1..] && loading == old(loading)
      ensures old(dirty) == [] ==> coords == old(loading)[0] && loading == old(loading)[1..] && dirty == old(dirty)
    {
      if dirty != [] {
        coords := dirty[0];
        dirty := dirty[1..];
      } else {
        coords := loading[0];
        loading := loading[1..];
      }
    }

    /** Pops the next chunk, dirty ones first; submits a job unless it is in flight or already sent. */
    method SubmitNext(conn: StreamWriter) returns (isNew: bool)
      requires phase.Submit? && phase.left > 0 && (dirty != [] || loading != [])
      modifies this
      ensures Snapshot(conn) == AfterPop(old(Snapshot(conn)))
      ensures phase == old(phase).(left := old(phase).left - if isNew then 1 else 0)
      ensures |dirty| + |loading| == old(|dirty| + |loading|) - 1
    {
      var coords := PopNext();
      isNew := coords !in pending && coords !in loaded;
      if isNew {
        pending := pending + {coords};
        flight := flight + multiset{coords};
        phase := phase.(left := phase.left - 1);
      }
    }

    /** Phase 2, first half: collect whatever finished, dropping failures and chunks out of view. */
    method DrainResults(conn: StreamWriter, view: View, ghost start: State, ghost run: Run)
      returns (ghost longer: Run, ready: seq<Coord>)
      requires phase == Drain(view.center, view.radius, [])
      requires Performed(conn, start, run, view)
      modifies this
      ensures Performed(conn, start, longer, view) && Passes(longer) == Passes(run)
      ensures phase == Sending(ready)
    {
      hide Legal, Exec, StillRun;
      ready := [];
      longer := JobsFinish(conn, start, run, view);
      while results != []
        invariant phase == Drain(view.center, view.radius, ready)
        invariant Performed(conn, start, longer, view) && Passes(longer) == Passes(run)
        decreases |flight| + |results|
      {
        Extend(start, longer, Snapshot(conn), Take, view);
        longer := Then(longer, Take);
        ready := TakeResult(conn, view, ready);
        longer := JobsFinish(conn, start, longer, view);
      }
      Extend(start, longer, Snapshot(conn), StopDrain, view);
      longer := Then(longer, StopDrain);
      phase := Sending(ready);
    }

    method TakeResult(conn: StreamWriter, view: View, ready: seq<Coord>) returns (more: seq<Coord>)
      requires phase == Drain(view.center, view.radius, ready) && results != []
      modifies this
      ensures Snapshot(conn) == AfterTake(old(Snapshot(conn)))
      ensures phase == Drain(view.center, view.radius, more)
      ensures flight == old(flight) && |results| == |old(results)| - 1
    {
      more := ready;
      var result := results[0];
      results := results[1..];
      pending := pending - {result.coords};
      if !result.ok {
        failed := failed + {result.coords};
        return;
      }
      if Distance(result.coords, view.center) > view.radius {
        return;
      }
      loaded := loaded + {result.coords};
      more := ready + [result.coords];
      phase := Drain(view.center, view.radius, more);
    }

    /** Phase 2, second half: send the collected chunks. */
    method SendReady(conn: StreamWriter, ready: seq<Coord>, ghost start: State, ghost run: Run, ghost view: View)
      returns (ghost longer: Run)
      requires phase == Sending(ready)
      requires Performed(conn, start, run, view)
      modifies this, conn
      ensures Performed(conn, start, longer, view) && Passes(longer) == Passes(run)
      ensures phase == Unloading
    {
      hide Legal, Exec, StillRun;
      longer := run;
      for i := 0 to |ready|
        invariant phase == Sending(ready[i..])
        invariant Performed(conn, start, longer, view) && Passes(longer) == Passes(run)
      {
        longer := JobsFinish(conn, start, longer, view);
        Extend(start, longer, Snapshot(conn), SendChunk, view);
        assert ready[i..][1..] == ready[i + 1..];
        SendNext(conn, ready[i]);
        longer := Then(longer, SendChunk);
      }
      Extend(start, longer, Snapshot(conn), StopSend, view);
      longer := Then(longer, StopSend);
      phase := Unloading;
    }

    method SendNext(conn: StreamWriter, coords: Coord)
      requires phase.Sending? && phase.ready != [] && phase.ready[0] == coords
      modifies this`phase, conn
      ensures Snapshot(conn) == AfterSend(old(Snapshot(conn)))
    {
      conn.SendPacket(ChunkData(coords));
      phase := Sending(phase.ready[1..]);
    }

    /** Phase 3: tell the client to unload what is no longer needed. */
    method SendUnloads(conn: StreamWriter, ghost start: State, ghost run: Run, ghost view: View)
      returns (ghost longer: Run)
      requires phase == Unloading
      requires Performed(conn, start, run, view)
      modifies this, conn
      ensures Performed(conn, start, longer, view) && Passes(longer) == Passes(run) + 1
      ensures phase == Idle && unloading == []
    {
      hide Legal, Exec, StillRun;
      longer := run;
      while unloading != []
        invariant phase == Unloading
        invariant Performed(conn, start, longer, view) && Passes(longer) == Passes(run)
        decreases |unloading|
      {
        longer := JobsFinish(conn, start, longer, view);
        Extend(start, longer, Snapshot(conn), SendUnload, view);
        conn.SendPacket(UnloadChunk(unloading[0]));
        unloading := unloading[1..];
        longer := Then(longer, SendUnload);
      }
      Extend(start, longer, Snapshot(conn), End, view);
      longer := Then(longer, End);
      phase := Idle;
    }
  }

  /** A still run has no calculator batch, so it alternates whatever it starts from. */
  lemma {:induction false} StillAlternates(s: State, run: Run, view: View)
    requires Legal(s, run) && StillRun(s, run, view)
    ensures Alternates(s, run)
  {
    if run.Then? {
      StillAlternates(s, run.before, view);
    }
  }

  /** One tick of one player, in the order the two systems are chained: the calculator once for every `ChunkCalc` the
      player's movements wrote, then the sender.  Without a message the calculator does nothing, wherever the sender
      sees the player. */
  method Tick(player: Movements.Mover, chunks: ChunkReceiver, conn: StreamWriter, checked: bool,
              server: nat, client: int, perTick: Setting, min: nat) returns (panicked: bool)
    requires player.Valid() && chunks.phase.Idle? && Inv(chunks.Snapshot(conn))
    modifies player, chunks, conn
    ensures panicked <==> old(player.messages) > 0 && CalculatorChunk(old(player.at), checked).None?
    ensures panicked ==> chunks.Snapshot(conn) == old(chunks.Snapshot(conn))
    ensures player.Valid() && player.at == old(player.at)
    ensures !panicked ==> player.Snapshot() == Movements.After(old(player.Snapshot()), Movements.Calculate)
    ensures chunks.phase.Idle? && Inv(chunks.Snapshot(conn))
    ensures Client({}, conn.wire) == chunks.loaded && Paced(conn.wire)
    ensures old(player.messages) > 0 && Agrees(player.at.x.Floor, checked) && Agrees(player.at.z.Floor, checked) ==>
              Covers(chunks.Snapshot(conn),
                     View(SenderChunk(player.at), EffectiveViewRadius(server, client), perTick, min))
  {
    hide Legal, Exec, StillRun, Alternates, CalculatorChunk, SenderChunk, EffectiveViewRadius, Agrees, Panics;
    hide Movements.After, Movements.Exec;
    ghost var view := View(SenderChunk(player.at), EffectiveViewRadius(server, client), perTick, min);
    SystemsAgreeOnChunk(player.at, checked);
    panicked := CalculateAll(player, chunks, conn, checked, server, client, view);
    if panicked {
      return;
    }
    ghost var s := chunks.Snapshot(conn);
    ghost var run := chunks.Send(conn, player.at, server, client, perTick, min);
    StillAlternates(s, run, view);
    RunKeepsInv(s, run);
    if Covers(s, view) {
      RunKeepsCover(s, run, view);
    }
  }

  /** The calculator's pass over the messages of one player, all of them read at the same position. */
  method CalculateAll(player: Movements.Mover, chunks: ChunkReceiver, conn: StreamWriter, checked: bool,
                      server: nat, client: int, ghost view: View) returns (panicked: bool)
    requires player.Valid() && chunks.phase.Idle? && Inv(chunks.Snapshot(conn))
    requires view.radius == EffectiveViewRadius(server, client)
    modifies player, chunks
    ensures panicked <==> old(player.messages) > 0 && CalculatorChunk(old(player.at), checked).None?
    ensures panicked ==> chunks.Snapshot(conn) == old(chunks.Snapshot(conn))
    ensures player.Valid() && player.at == old(player.at)
    ensures !panicked ==> player.Snapshot() == Movements.After(old(player.Snapshot()), Movements.Calculate)
    ensures (chunks.phase.Idle? || chunks.phase.Calculated?) && Inv(chunks.Snapshot(conn))
    ensures old(player.messages) > 0 && CalculatorChunk(old(player.at), checked) == Some(view.center) ==>
              Covers(chunks.Snapshot(conn), view)
  {
    hide CalculatorChunk, EffectiveViewRadius, Inv, Apply, Enabled, Covers, Movements.After, Movements.Exec;
    for k := 0 to player.messages
      invariant player.Snapshot() == old(player.Snapshot()) && player.run == old(player.run)
      invariant k == 0 ==> chunks.Snapshot(conn) == old(chunks.Snapshot(conn))
      invariant k == 0 ==> chunks.phase.Idle?
      invariant k > 0 ==> chunks.phase.Calculated? && chunks.phase.radius == view.radius
      invariant k > 0 ==> CalculatorChunk(player.at, checked) == Some(chunks.phase.center)
      invariant Inv(chunks.Snapshot(conn))
      invariant k > 0 && CalculatorChunk(player.at, checked) == Some(view.center) ==>
                  Covers(chunks.Snapshot(conn), view)
    {
      ghost var before, e := chunks.Snapshot(conn), End;
      panicked, e := chunks.Calculate(conn, player.at, server, client, checked);
      if panicked {
        return;
      }
      StepKeepsInv(before, e);
      if e.center == view.center {
        CalculatorCovers(before, e, view);
      }
    }
    player.ReadAll();
    panicked := false;
  }
}
