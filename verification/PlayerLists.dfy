/** The player list, new connections and the connection killer as they change the server's state, proved to perform
    legal events of the disconnect machine. */
module PlayerLists {
  import opened Options
  import opened Disconnects

  datatype Profile = Profile(uuid: nat, username: string)

  /** A queued disconnect and its reason. */
  datatype Leaving = Leaving(entity: Entity, reason: Option<string>)

  function EntitiesOf(queue: seq<Leaving>): (r: seq<Entity>)
    ensures |r| == |queue|
  {
    if queue == [] then [] else [queue[0].entity] + EntitiesOf(queue[1..])
  }

  lemma {:induction false} EntitiesSnoc(queue: seq<Leaving>, l: Leaving)
    ensures EntitiesOf(queue + [l]) == EntitiesOf(queue) + [l.entity]
  {
    if queue == [] {
      assert queue + [l] == [l];
    } else {
      assert (queue + [l])[1..] == queue[1..] + [l];
      EntitiesSnoc(queue[1..], l);
    }
  }

  lemma Extend(start: State, run: Run, now: State, ev: Event)
    requires Legal(start, run) && Exec(start, run) == now && Enabled(now, ev)
    ensures Legal(start, Then(run, ev)) && Exec(start, Then(run, ev)) == Apply(now, ev)
  {
  }

  /** Whoever is queued has joined and not departed. */
  lemma QueuedIsPresent(s: State)
    requires Inv(s) && s.queue != []
    ensures s.queue[0] in s.joined && s.queue[0] !in s.departed
  {
    assert s.queue[0] in multiset(s.queue);
    assert Places(s, s.queue[0]) == Once(s.queue[0] in s.joined);
  }

  class Server {
    var playerList: map<Entity, Profile>
    var disconnectionQueue: seq<Leaving>
    /** The next entity id the world hands out. */
    var nextEntity: nat
    /** Entities spawned through deferred commands, and those whose components have been applied. */
    var spawned: set<Entity>
    var flushed: set<Entity>
    var leaveEvents: seq<Entity>
    /** Entities in the hands of callers that have removed but not queued them. */
    var held: multiset<Entity>
    ghost var departed: set<Entity>
    ghost var silent: set<Entity>
    ghost var joined: set<Entity>

    ghost function Snapshot(): State
      reads this
    {
      State(joined, playerList.Keys, held, EntitiesOf(disconnectionQueue), flushed, departed, leaveEvents, silent)
    }

    ghost predicate Valid()
      reads this
    {
      && (forall e :: e in joined || e in playerList || e in held || e in departed ==> e < nextEntity)
      && (forall i :: 0 <= i < |disconnectionQueue| ==> disconnectionQueue[i].entity < nextEntity)
      && (forall e :: e in spawned ==> e in joined && e !in departed)
      && (forall e :: e in joined ==> e in spawned || e in flushed || e in departed)
    }

    /** `run` leads from `start` to the present. */
    ghost predicate Performed(start: State, run: Run)
      reads this
    {
      Legal(start, run) && Exec(start, run) == Snapshot() && Valid()
    }

    constructor ()
      ensures Valid() && Snapshot() == EMPTY
    {
      playerList, disconnectionQueue, nextEntity, spawned, flushed, leaveEvents := map[], [], 0, {}, {}, [];
      held, departed, silent, joined := multiset{}, {}, {}, {};
    }

    predicate IsConnected(entity: Entity)
      reads this
    {
      entity in playerList
    }

    /** The first atomic action of a disconnect: remove the player, and learn whether it was there. */
    method RemovePlayer(entity: Entity) returns (removed: bool)
      requires Valid()
      modifies this`playerList, this`held
      ensures Valid() && removed == (entity in old(playerList)) && !IsConnected(entity)
      ensures Snapshot() == AfterRemove(old(Snapshot()), entity)
    {
      removed := entity in playerList;
      playerList := playerList - {entity};
      if removed {
        held := held + multiset{entity};
      }
      assert playerList.Keys == old(playerList).Keys - {entity};
    }

    /** The second: queue it. */
    method PushLeaving(entity: Entity, reason: Option<string>)
      requires Valid() && entity in held
      modifies this`disconnectionQueue, this`held
      ensures Valid() && Snapshot() == Apply(old(Snapshot()), Push(entity))
      ensures disconnectionQueue == old(disconnectionQueue) + [Leaving(entity, reason)]
    {
      EntitiesSnoc(disconnectionQueue, Leaving(entity, reason));
      disconnectionQueue := disconnectionQueue + [Leaving(entity, reason)];
      held := held - multiset{entity};
    }

    /** What other connection threads do meanwhile: any number of their own atomic actions, except that they leave
        to the caller what the caller has removed. */
    method Interfere(ghost start: State, ghost run: Run, mine: Option<Entity>) returns (ghost longer: Run)
      requires Performed(start, run) && (mine.Some? ==> mine.value in held)
      modifies this`playerList, this`disconnectionQueue, this`held
      ensures Performed(start, longer) && (mine.Some? ==> mine.value in held)
      ensures playerList.Keys <= old(playerList.Keys)
      ensures |playerList| + |held| + |disconnectionQueue| == old(|playerList| + |held| + |disconnectionQueue|)
    {
      longer := run;
      var actions: nat := *;
      while actions > 0
        invariant Performed(start, longer) && (mine.Some? ==> mine.value in held)
        invariant playerList.Keys <= old(playerList.Keys)
        invariant |playerList| + |held| + |disconnectionQueue| ==
                  old(|playerList| + |held| + |disconnectionQueue|)
      {
        actions := actions - 1;
        var entity: int, removes: bool := *, *;
        if removes && entity >= 0 {
          longer := OtherRemoves(start, longer, entity);
        } else {
          longer := OtherPushes(start, longer, mine);
        }
      }
    }

    method OtherRemoves(ghost start: State, ghost run: Run, entity: Entity) returns (ghost longer: Run)
      requires Performed(start, run)
      modifies this`playerList, this`held
      ensures Performed(start, longer) && old(held) <= held && playerList.Keys <= old(playerList.Keys)
      ensures |playerList| + |held| == old(|playerList| + |held|)
    {
      Extend(start, run, Snapshot(), Remove(entity));
      longer := Then(run, Remove(entity));
      ghost var keys := playerList.Keys;
      var removed := RemovePlayer(entity);
      assert |playerList.Keys| == |keys| - if removed then 1 else 0;
    }

    method OtherPushes(ghost start: State, ghost run: Run, mine: Option<Entity>) returns (ghost longer: Run)
      requires Performed(start, run) && (mine.Some? ==> mine.value in held)
      modifies this`disconnectionQueue, this`held
      ensures Performed(start, longer) && (mine.Some? ==> mine.value in held)
      ensures |held| + |disconnectionQueue| == old(|held| + |disconnectionQueue|)
    {
      longer := run;
      var theirs := if mine.Some? then held - multiset{mine.value} else held;
      if theirs != multiset{} {
        var entity :| entity in theirs;
        var reason: Option<string> := *;
        Extend(start, run, Snapshot(), Push(entity));
        longer := Then(run, Push(entity));
        PushLeaving(entity, reason);
      }
    }

    /** `disconnect`, with other threads at work between its two actions and after them. */
    method Disconnect(entity: Entity, reason: Option<string>, ghost start: State, ghost run: Run)
      returns (ghost longer: Run)
      requires Performed(start, run)
      modifies this`playerList, this`disconnectionQueue, this`held
      ensures Performed(start, longer) && !IsConnected(entity)
    {
      Extend(start, run, Snapshot(), Remove(entity));
      longer := Then(run, Remove(entity));
      var removed := RemovePlayer(entity);
      longer := Interfere(start, longer, if removed then Some(entity) else None);
      if removed {
        Extend(start, longer, Snapshot(), Push(entity));
        longer := Then(longer, Push(entity));
        PushLeaving(entity, reason);
      }
    }

    /** Handles the first queued disconnect: announces it if the entity has an identity, then despawns it. */
    method KillOne()
      requires Valid() && disconnectionQueue != []
      modifies this`disconnectionQueue, this`leaveEvents, this`spawned, this`departed, this`silent
      ensures Valid() && Snapshot() == AfterKill(old(Snapshot()))
      ensures |disconnectionQueue| == old(|disconnectionQueue|) - 1
      ensures spawned == old(spawned) - {old(disconnectionQueue)[0].entity}
    {
      var leaving := disconnectionQueue[0];
      disconnectionQueue := disconnectionQueue[1..];
      departed := departed + {leaving.entity};
      if leaving.entity in flushed {
        leaveEvents := leaveEvents + [leaving.entity];
      } else {
        silent := silent + {leaving.entity};
      }
      spawned := spawned - {leaving.entity};
    }

    /** `connection_killer`: drains the queue while connection threads go on disconnecting players.  If no entity is
        waiting for its components, nobody departs without being announced. */
    method ConnectionKiller(ghost start: State, ghost run: Run) returns (ghost longer: Run)
      requires Performed(start, run) && Inv(start)
      modifies this`playerList, this`disconnectionQueue, this`held, this`leaveEvents, this`spawned, this`departed,
        this`silent
      ensures Performed(start, longer) && disconnectionQueue == []
      ensures old(spawned) == {} ==> spawned == {} && silent == old(silent)
    {
      hide Inv, Legal, Exec;
      longer := run;
      while disconnectionQueue != []
        invariant Performed(start, longer)
        invariant old(spawned) == {} ==> spawned == {} && silent == old(silent)
        decreases |playerList| + |held| + |disconnectionQueue|
      {
        RunKeepsInv(start, longer);
        QueuedIsPresent(Snapshot());
        Extend(start, longer, Snapshot(), Kill);
        longer := Then(longer, Kill);
        KillOne();
        longer := Interfere(start, longer, None);
      }
    }

    /** `accept_new_connections`: spawns an entity for each connection, its components still to be applied, and lists
        it right away. */
    method AcceptNewConnections(connections: seq<Profile>, ghost start: State, ghost run: Run)
      returns (ghost longer: Run, entities: seq<Entity>)
      requires Performed(start, run)
      modifies this`playerList, this`nextEntity, this`spawned, this`joined
      ensures Performed(start, longer) && |entities| == |connections|
      ensures forall i :: 0 <= i < |entities| ==>
                entities[i] !in old(joined) && entities[i] in playerList && playerList[entities[i]] == connections[i]
    {
      hide Legal, Exec;
      longer, entities := run, [];
      for i := 0 to |connections|
        invariant Performed(start, longer) && |entities| == i && old(joined) <= joined
        invariant forall k :: 0 <= k < i ==>
          && entities[k] !in old(joined) && entities[k] in joined
          && entities[k] in playerList && playerList[entities[k]] == connections[k]
      {
        var entity := nextEntity;
        Extend(start, longer, Snapshot(), Join(entity));
        longer := Then(longer, Join(entity));
        AddPlayer(connections[i]);
        entities := entities + [entity];
      }
    }

    method AddPlayer(profile: Profile)
      requires Valid()
      modifies this`playerList, this`nextEntity, this`spawned, this`joined
      ensures Valid() && nextEntity == old(nextEntity) + 1
      ensures old(nextEntity) !in old(joined) && playerList == old(playerList)[old(nextEntity) := profile]
      ensures joined == old(joined) + {old(nextEntity)}
      ensures Snapshot() == Apply(old(Snapshot()), Join(old(nextEntity)))
    {
      var entity := nextEntity;
      nextEntity := nextEntity + 1;
      playerList := playerList[entity := profile];
      spawned := spawned + {entity};
      joined := joined + {entity};
    }

    /** `apply_deferred`: the components of spawned entities come into being. */
    method ApplyDeferred(ghost start: State, ghost run: Run) returns (ghost longer: Run)
      requires Performed(start, run)
      modifies this`flushed, this`spawned
      ensures Performed(start, longer) && spawned == {} && flushed == old(flushed) + old(spawned)
    {
      longer := run;
      while spawned != {}
        invariant Performed(start, longer) && spawned <= old(spawned)
        invariant flushed == old(flushed) + (old(spawned) - spawned)
        decreases spawned
      {
        var entity :| entity in spawned;
        Extend(start, longer, Snapshot(), Flush(entity));
        longer := Then(longer, Flush(entity));
        spawned, flushed := spawned - {entity}, flushed + {entity};
      }
    }
  }

  lemma EmptyHasInv()
    ensures Inv(EMPTY)
  {
  }

  /** One tick of the server's side: accept, apply, kill, with connection threads disconnecting players all along.
      Everyone ever joined is then in exactly one place, and every departure has been announced, once. */
  method Tick(server: Server, connections: seq<Profile>, ghost run: Run) returns (ghost longer: Run)
    requires server.Performed(EMPTY, run) && server.silent == {}
    modifies server
    ensures server.Performed(EMPTY, longer) && server.disconnectionQueue == [] && server.silent == {}
    ensures forall e: Entity ::
              && Once(e in server.playerList) + server.held[e] + Once(e in server.departed) == Once(e in server.joined)
              && multiset(server.leaveEvents)[e] == Once(e in server.departed)
  {
    hide Inv, Legal, Exec;
    EmptyHasInv();
    longer := server.Interfere(EMPTY, run, None);
    var entities: seq<Entity>;
    longer, entities := server.AcceptNewConnections(connections, EMPTY, longer);
    longer := server.Interfere(EMPTY, longer, None);
    longer := server.ApplyDeferred(EMPTY, longer);
    longer := server.Interfere(EMPTY, longer, None);
    longer := server.ConnectionKiller(EMPTY, longer);
    forall e: Entity
      ensures Places(server.Snapshot(), e) == Once(e in server.joined)
      ensures multiset(server.leaveEvents)[e] == Once(e in server.departed)
    {
      ExactlyOnePlace(longer, e);
    }
  }
}
