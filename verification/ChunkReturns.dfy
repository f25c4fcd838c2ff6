/** Why the calculator must not run at two positions before the sender has: a run of a player that leaves its chunk and
    comes back between two sender passes. */
module ChunkReturns {
  import opened ChunkGrid
  import opened ChunkStream

  /** The run so far, and where it has led. */
  ghost predicate Leads(run: Run, s: State) {
    Legal(FRESH, run) && Exec(FRESH, run) == s
  }

  lemma ExtendRun(run: Run, s: State, e: Event, t: State)
    requires Leads(run, s) && Enabled(s, e) && Apply(s, e) == t
    ensures Leads(Then(run, e), t)
  {
  }

  lemma CalcAt(s: State, at: Coord, gone: seq<Coord>)
    requires s.phase.Idle? || s.phase.Calculated?
    requires at !in s.loaded && at !in s.loading && at !in s.pending
    requires NoDup(gone) && Elems(gone) == s.loaded
    ensures var e := Calc(at, 0, [at], gone);
            Enabled(s, e) && Apply(s, e) == s.(phase := Calculated(at, 0), loading := s.loading + [at], loaded := {},
                                               unloading := s.unloading + gone, failed := {})
  {
    forall c: Coord
      ensures c in Square(at, 0) <==> c == at
      ensures Distance(at, c) > 0 <==> c != at
    {
      SquareIsDistance(at, 0, c);
    }
    assert Elems([at]) == Missing(s, at, 0);
    assert Elems(gone) == OutOfView(s, at, 0);
    assert s.loaded - Elems(gone) == {};
  }

  /** A pass at `at` that submits the last queued chunk, which is `at`, with its job finishing at once. */
  lemma SubmitLast(run: Run, s: State, at: Coord) returns (longer: Run)
    requires Leads(run, s) && s.phase == Submit(at, 0, 1) && s.dirty == [] && s.loading == [at] && s.results == []
    requires at !in s.pending && at !in s.loaded && at !in s.flight
    ensures Leads(longer, s.(phase := Drain(at, 0, []), loading := [], pending := s.pending + {at},
                             results := [Finished(at, true)]))
  {
    hide Legal, Exec;
    assert [at][1..] == [] && s.results + [Finished(at, true)] == [Finished(at, true)];
    assert s.flight + multiset{at} - multiset{at} == s.flight;
    var popped := s.(phase := Submit(at, 0, 0), loading := [], pending := s.pending + {at},
                     flight := s.flight + multiset{at});
    var finished := popped.(flight := s.flight, results := [Finished(at, true)]);
    ExtendRun(run, s, Pop, popped);
    ExtendRun(Then(run, Pop), popped, Finish(at, true), finished);
    longer := Then(Then(Then(run, Pop), Finish(at, true)), StopSubmit);
    ExtendRun(Then(Then(run, Pop), Finish(at, true)), finished, StopSubmit, finished.(phase := Drain(at, 0, [])));
  }

  /** The rest of that pass: drain the one result and send the chunk. */
  lemma DrainOne(run: Run, s: State, at: Coord) returns (longer: Run)
    requires Leads(run, s) && s.phase == Drain(at, 0, []) && s.results == [Finished(at, true)]
    requires s.loaded == {}
    ensures Leads(longer, s.(phase := Unloading, results := [], pending := s.pending - {at}, loaded := {at},
                             wire := s.wire + [ChunkData(at)]))
  {
    hide Legal, Exec;
    assert [] + [at] == [at] && [at][1..] == [] && s.results[1..] == [] && {} + {at} == {at};
    var taken := s.(phase := Drain(at, 0, [at]), results := [], pending := s.pending - {at}, loaded := {at});
    var sent := taken.(phase := Sending([]), wire := s.wire + [ChunkData(at)]);
    ExtendRun(run, s, Take, taken);
    ExtendRun(Then(run, Take), taken, StopDrain, taken.(phase := Sending([at])));
    ExtendRun(Then(Then(run, Take), StopDrain), taken.(phase := Sending([at])), SendChunk, sent);
    longer := Then(Then(Then(Then(run, Take), StopDrain), SendChunk), StopSend);
    ExtendRun(Then(Then(Then(run, Take), StopDrain), SendChunk), sent, StopSend, sent.(phase := Unloading));
  }

  /** The state of a player that stands in chunk `home`, sees only it, and has been sent it. */
  ghost function AtHome(home: Coord): State {
    FRESH.(loaded := {home}, wire := [ChunkData(home)])
  }

  lemma ComeHome(home: Coord) returns (run: Run)
    ensures Leads(run, AtHome(home))
  {
    hide Legal, Exec;
    StartsFresh();
    CalcAt(FRESH, home, []);
    assert [] + [home] == [home] && [] + [ChunkData(home)] == [ChunkData(home)] && {} + {home} - {home} == {};
    var e := Calc(home, 0, [home], []);
    var queued := FRESH.(phase := Calculated(home, 0), loading := [home]);
    ExtendRun(Start, FRESH, e, queued);
    ExtendRun(Then(Start, e), queued, Begin(home, 0, 1), queued.(phase := Submit(home, 0, 1)));
    run := SubmitLast(Then(Then(Start, e), Begin(home, 0, 1)), queued.(phase := Submit(home, 0, 1)), home);
    var drain := FRESH.(phase := Drain(home, 0, []), pending := {home}, results := [Finished(home, true)]);
    assert {} + {home} == {home};
    run := DrainOne(run, drain, home);
    ExtendRun(run, AtHome(home).(phase := Unloading), End, AtHome(home));
    run := Then(run, End);
  }

  lemma StartsFresh()
    ensures Leads(Start, FRESH)
  {
  }

  /** It leaves for `away` and is back before the sender has run: both batches are queued up. */
  ghost function BackAgain(home: Coord, away: Coord): State {
    AtHome(home).(phase := Calculated(home, 0), loading := [away, home], loaded := {}, unloading := [home])
  }

  lemma ThereAndBack(run: Run, home: Coord, away: Coord) returns (longer: Run)
    requires home != away && Leads(run, AtHome(home))
    ensures Leads(longer, BackAgain(home, away))
  {
    hide Legal, Exec;
    var s := AtHome(home);
    CalcAt(s, away, [home]);
    assert [] + [away] == [away] && [] + [home] == [home] && [away] + [home] == [away, home] && [home] + [] == [home];
    var left := s.(phase := Calculated(away, 0), loading := [away], loaded := {}, unloading := [home]);
    ExtendRun(run, s, Calc(away, 0, [away], [home]), left);
    CalcAt(left, home, []);
    longer := Then(Then(run, Calc(away, 0, [away], [home])), Calc(home, 0, [home], []));
    ExtendRun(Then(run, Calc(away, 0, [away], [home])), left, Calc(home, 0, [home], []), BackAgain(home, away));
  }

  /** The chunk it came back to is sent again, and then unloaded as the first batch had asked. */
  ghost function Disagreement(home: Coord, away: Coord): State {
    FRESH.(pending := {away}, flight := multiset{away}, loaded := {home},
           wire := [ChunkData(home), ChunkData(home), UnloadChunk(home)])
  }

  lemma PassAfterReturn(run: Run, home: Coord, away: Coord) returns (longer: Run)
    requires home != away && Leads(run, BackAgain(home, away))
    ensures Leads(longer, Disagreement(home, away))
  {
    hide Legal, Exec;
    var s := BackAgain(home, away);
    assert [away, home][1..] == [home] && {} + {away} == {away} && multiset{} + multiset{away} == multiset{away};
    var begun := s.(phase := Submit(home, 0, 2));
    var popped := s.(phase := Submit(home, 0, 1), loading := [home], pending := {away}, flight := multiset{away});
    ExtendRun(run, s, Begin(home, 0, 2), begun);
    ExtendRun(Then(run, Begin(home, 0, 2)), begun, Pop, popped);
    longer := SubmitLast(Then(Then(run, Begin(home, 0, 2)), Pop), popped, home);
    var drain := popped.(phase := Drain(home, 0, []), loading := [], pending := {away, home},
                         results := [Finished(home, true)]);
    assert {away} + {home} == {away, home} && {away, home} - {home} == {away};
    assert [ChunkData(home)] + [ChunkData(home)] == [ChunkData(home), ChunkData(home)];
    longer := DrainOne(longer, drain, home);
    var last := Disagreement(home, away).(phase := Unloading);
    var before := last.(unloading := [home], wire := [ChunkData(home), ChunkData(home)]);
    assert [home][1..] == [] && before.wire + [UnloadChunk(home)] == last.wire;
    ExtendRun(longer, before, SendUnload, last);
    ExtendRun(Then(longer, SendUnload), last, End, Disagreement(home, away));
    longer := Then(Then(longer, SendUnload), End);
  }

  /** So there is a run of a fresh player, legal in everything but that two batches at different positions come
      between two passes, after which the client lacks a chunk the server believes it has sent. */
  lemma TwoPositionsBreakAgreement(home: Coord, away: Coord)
    requires home != away
    ensures exists run :: Legal(FRESH, run) && !Alternates(FRESH, run) &&
              var t := Exec(FRESH, run);
              t.phase == Idle && home in t.loaded && home !in Client({}, t.wire)
  {
    var run := ComeHome(home);
    run := ThereAndBack(run, home, away);
    run := PassAfterReturn(run, home, away);
    var t, w := Disagreement(home, away), [ChunkData(home), ChunkData(home)];
    ClientAppend({}, w, UnloadChunk(home));
    assert w + [UnloadChunk(home)] == t.wire;
    assert home in t.loaded && home !in Client({}, t.wire);
    if Alternates(FRESH, run) {
      ClientAgreesWithLoaded(run, {});
      assert false;
    }
  }
}
