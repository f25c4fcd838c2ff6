/** Joining and leaving as an event machine: connection threads remove a player from the list and then queue it, in
    two separate atomic actions; the killer drains the queue. */
module Disconnects {
  type Entity = nat

  datatype State = State(
    joined: set<Entity>,
    list: set<Entity>,
    held: multiset<Entity>,   // removed from the list by a caller that has not queued it yet
    queue: seq<Entity>,
    flushed: set<Entity>,     // entities whose components have been applied
    departed: set<Entity>,
    left: seq<Entity>,        // the `PlayerLeft` events written
    silent: set<Entity>)      // departed before their components were applied

  datatype Event =
    | Join(e: Entity)
    | Flush(e: Entity)
    | Remove(e: Entity)
    | Push(e: Entity)
    | Kill

  const EMPTY := State({}, {}, multiset{}, [], {}, {}, [], {})

  predicate Enabled(s: State, ev: Event) {
    match ev
    case Join(e) => e !in s.joined
    case Flush(e) => e in s.joined && e !in s.departed
    case Remove(_) => true
    case Push(e) => e in s.held
    case Kill => s.queue != []
  }

  function Apply(s: State, ev: Event): State
    requires Enabled(s, ev)
  {
    match ev
    case Join(e) => s.(joined := s.joined + {e}, list := s.list + {e})
    case Flush(e) => s.(flushed := s.flushed + {e})
    case Remove(e) => AfterRemove(s, e)
    case Push(e) => s.(held := s.held - multiset{e}, queue := s.queue + [e])
    case Kill => AfterKill(s)
  }

  /** Only the caller that finds the player in the list gets to queue it. */
  function AfterRemove(s: State, e: Entity): State {
    if e in s.list then s.(list := s.list - {e}, held := s.held + multiset{e}) else s
  }

  /** The entity departs; its leaving is announced if it has an identity. */
  function AfterKill(s: State): State
    requires s.queue != []
  {
    var e := s.queue[0];
    var t := s.(queue := s.queue[1..], departed := s.departed + {e});
    if e in s.flushed then t.(left := s.left + [e]) else t.(silent := s.silent + {e})
  }

  datatype Run = Start | Then(before: Run, last: Event)

  predicate Legal(s: State, run: Run)
    decreases run, 0
  {
    run.Then? ==> Legal(s, run.before) && Enabled(Exec(s, run.before), run.last)
  }

  function Exec(s: State, run: Run): State
    requires Legal(s, run)
    decreases run, 1
  {
    match run
    case Start => s
    case Then(before, ev) => Apply(Exec(s, before), ev)
  }

  function Once(b: bool): nat {
    if b then 1 else 0
  }

  /** In how many of the four places an entity is. */
  function Places(s: State, e: Entity): nat {
    Once(e in s.list) + s.held[e] + multiset(s.queue)[e] + Once(e in s.departed)
  }

  ghost predicate Inv(s: State) {
    && (forall e: Entity :: Places(s, e) == Once(e in s.joined))
    && (forall e: Entity :: multiset(s.left)[e] + Once(e in s.silent) == Once(e in s.departed))
  }

  lemma KillKeepsInv(s: State)
    requires Inv(s) && s.queue != []
    ensures Inv(AfterKill(s))
  {
    var t, k := AfterKill(s), s.queue[0];
    assert s.queue == [k] + s.queue[1..];
    assert multiset(s.queue) == multiset{k} + multiset(s.queue[1..]);
    forall e: Entity
      ensures Places(t, e) == Once(e in t.joined)
      ensures multiset(t.left)[e] + Once(e in t.silent) == Once(e in t.departed)
    {
      assert Places(s, e) == Once(e in s.joined);
      assert Places(s, k) == Once(k in s.joined);
      assert multiset(s.left)[e] + Once(e in s.silent) == Once(e in s.departed);
    }
  }

  lemma StepKeepsInv(s: State, ev: Event)
    requires Inv(s) && Enabled(s, ev)
    ensures Inv(Apply(s, ev))
  {
    if ev.Kill? {
      KillKeepsInv(s);
    }
  }

  lemma {:induction false} RunKeepsInv(s: State, run: Run)
    requires Inv(s) && Legal(s, run)
    ensures Inv(Exec(s, run))
  {
    if run.Then? {
      RunKeepsInv(s, run.before);
      StepKeepsInv(Exec(s, run.before), run.last);
    }
  }

  /** EXACTLY ONE PLACE.  In every interleaving of joins, concurrent disconnects and killer passes, an entity that
      has joined is in exactly one place: the list, in the hands of one caller, once in the queue, or gone; and at
      most one `PlayerLeft` is written for it, exactly one if its components were applied before it was killed. */
  lemma {:induction false} ExactlyOnePlace(run: Run, e: Entity)
    requires Legal(EMPTY, run)
    ensures var s := Exec(EMPTY, run);
            && Places(s, e) == Once(e in s.joined)
            && multiset(s.left)[e] <= 1
            && (multiset(s.left)[e] == 1 <==> e in s.departed && e !in s.silent)
  {
    RunKeepsInv(EMPTY, run);
    var s := Exec(EMPTY, run);
    assert multiset(s.left)[e] + Once(e in s.silent) == Once(e in s.departed);
  }

  /** When no caller is between its two actions and the queue is empty, everyone who has joined is either still
      listed or gone. */
  lemma {:induction false} DrainedMeansSettled(run: Run)
    requires Legal(EMPTY, run)
    requires Exec(EMPTY, run).held == multiset{} && Exec(EMPTY, run).queue == []
    ensures var s := Exec(EMPTY, run); s.joined == s.list + s.departed && s.list !! s.departed
  {
    RunKeepsInv(EMPTY, run);
    var s := Exec(EMPTY, run);
    forall e: Entity
      ensures e in s.joined <==> e in s.list || e in s.departed
      ensures !(e in s.list && e in s.departed)
    {
      assert Places(s, e) == Once(e in s.joined);
    }
  }

  /** A disconnect is final: no later event lists the entity again. */
  lemma {:induction false} DisconnectIsFinal(s: State, run: Run, e: Entity)
    requires Legal(s, run) && e in s.joined && e !in s.list
    ensures e in Exec(s, run).joined && e !in Exec(s, run).list
  {
    if run.Then? {
      DisconnectIsFinal(s, run.before, e);
    }
  }

  /** Every kill happens after the components of the entity have been applied. */
  ghost predicate KilledWhole(s: State, run: Run)
    requires Legal(s, run)
  {
    run.Then? ==>
      && KilledWhole(s, run.before)
      && (run.last.Kill? ==> Exec(s, run.before).queue[0] in Exec(s, run.before).flushed)
  }

  /** Then every departure is announced, once. */
  lemma {:induction false} DeparturesAreAnnounced(run: Run, e: Entity)
    requires Legal(EMPTY, run) && KilledWhole(EMPTY, run)
    ensures var s := Exec(EMPTY, run); multiset(s.left)[e] == Once(e in s.departed)
  {
    NobodySilent(run);
    ExactlyOnePlace(run, e);
  }

  lemma {:induction false} NobodySilent(run: Run)
    requires Legal(EMPTY, run) && KilledWhole(EMPTY, run)
    ensures Exec(EMPTY, run).silent == {}
  {
    if run.Then? {
      NobodySilent(run.before);
    }
  }

  // ---------------------------------------------------------------------------------------------
  // In which order players leave
  // ---------------------------------------------------------------------------------------------

  /** The entities queued over a run, in order, and how many have been taken from the queue. */
  function Pushes(run: Run): seq<Entity> {
    if run.Start? then [] else Pushes(run.before) + if run.last.Push? then [run.last.e] else []
  }

  function Kills(run: Run): nat {
    if run.Start? then 0 else Kills(run.before) + if run.last.Kill? then 1 else 0
  }

  /** Players leave in the order in which they were queued, and if every one of them was whole, they are announced in
      that order. */
  lemma {:induction false} LeaveInOrder(run: Run)
    requires Legal(EMPTY, run)
    ensures Kills(run) <= |Pushes(run)|
    ensures Exec(EMPTY, run).queue == Pushes(run)[Kills(run)..]
    ensures KilledWhole(EMPTY, run) ==> Exec(EMPTY, run).left == Pushes(run)[..Kills(run)]
  {
    if run.Then? {
      LeaveInOrder(run.before);
      var s, all, k := Exec(EMPTY, run.before), Pushes(run.before), Kills(run.before);
      hide Legal, KilledWhole;
      match run.last
      case Push(e) => Enqueue(all, k, e);
      case Kill => Dequeue(all, k);
      case _ =>
        assert Pushes(run) == all;
    }
  }

  lemma Enqueue(all: seq<Entity>, k: nat, e: Entity)
    requires k <= |all|
    ensures (all + [e])[k..] == all[k..] + [e] && (all + [e])[..k] == all[..k]
  {
  }

  lemma Dequeue(all: seq<Entity>, k: nat)
    requires k < |all|
    ensures all + [] == all && all[k..][0] == all[k] && all[k..][1..] == all[k + 1..]
    ensures all[..k] + [all[k]] == all[..k + 1]
  {
  }

  /** Whether the components of the entity were applied at some point of the run. */
  predicate Flushed(run: Run, e: Entity) {
    run.Then? && (Flushed(run.before, e) || run.last == Flush(e))
  }

  /** Among the departed exactly those are announced whose components had been applied in time. */
  lemma {:induction false} AnnouncedExactly(run: Run, e: Entity)
    requires Legal(EMPTY, run)
    ensures var s := Exec(EMPTY, run); e in s.departed ==> (e in s.left <==> Flushed(run, e))
  {
    FlushedAndLeft(run, e);
    ExactlyOnePlace(run, e);
  }

  lemma {:induction false} FlushedAndLeft(run: Run, e: Entity)
    requires Legal(EMPTY, run)
    ensures var s := Exec(EMPTY, run);
            && (e in s.flushed <==> Flushed(run, e))
            && (e in s.left ==> Flushed(run, e))
            && (e in s.silent ==> e in s.departed && !Flushed(run, e))
  {
    if run.Then? {
      FlushedAndLeft(run.before, e);
      FlushedStep(Exec(EMPTY, run.before), run.last, e);
      hide Apply, Enabled;
    }
  }

  lemma FlushedStep(s: State, ev: Event, e: Entity)
    requires Enabled(s, ev)
    ensures var t := Apply(s, ev);
            && (e in t.flushed <==> e in s.flushed || ev == Flush(e))
            && (e in t.left ==> e in s.left || e in s.flushed)
            && (e in t.silent ==> e in s.silent || e !in s.flushed)
            && (e in t.silent ==> e in s.silent || e in t.departed)
            && (ev == Flush(e) ==> e !in s.departed)
            && s.departed <= t.departed
  {
  }
}
