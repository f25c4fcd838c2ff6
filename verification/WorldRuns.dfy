/** The world's cache and store over whole runs: one plain map, and what syncing and evicting leave behind. */
module WorldRuns {
  import opened Options
  import opened Positions
  import opened Storage
  import opened WorldState

  datatype Run = Start | Then(before: Run, last: Op)

  ghost predicate Legal(codec: Codec, space: iset<Id>, s: State, run: Run)
    decreases run, 0
  {
    run.Then? ==>
      && Legal(codec, space, s, run.before)
      && Possible(Exec(codec, space, s, run.before), run.last, space)
      && Listed(Exec(codec, space, s, run.before), run.last)
  }

  predicate Listed(s: State, op: Op) {
    op.Sync? || op.ClearAll? || op.Evict? ==> Cached(s.cache, op.order)
  }

  ghost function Exec(codec: Codec, space: iset<Id>, s: State, run: Run): State
    requires Legal(codec, space, s, run)
    decreases run, 1
  {
    match run
    case Start => s
    case Then(before, op) => After(codec, Exec(codec, space, s, before), op)
  }

  /** The register a plain map keeps for one position. */
  function Register(run: Run, id: Id, v: Option<Content>): Option<Content> {
    if run.Start? then v else Plain(run.last, id, Register(run.before, id, v))
  }

  /** ONE PLAIN MAP.  Over any run, cache and store together hold at every position what a plain map would hold
      that knows nothing of caching, syncing or unloading, and a clean cached chunk always equals its stored copy. */
  lemma {:induction false} CacheIsPlainMap(codec: Codec, space: iset<Id>, s: State, run: Run)
    requires Sound(codec, space) && Inv(codec, s, space) && Legal(codec, space, s, run)
    ensures Inv(codec, Exec(codec, space, s, run), space)
    ensures forall id :: id in space ==>
              View(codec, Exec(codec, space, s, run), id) == Register(run, id, View(codec, s, id))
  {
    hide Sound, Inv, Possible, After, View, Plain;
    if run.Then? {
      CacheIsPlainMap(codec, space, s, run.before);
      var m := Exec(codec, space, s, run.before);
      StepRefines(codec, space, m, run.last);
    }
  }

  /** The operations that only move chunks between cache and store. */
  predicate Moves(op: Op) {
    op.Load? || op.LoadBatch? || op.Sync? || op.ClearAll? || op.Evict?
  }

  /** Loading, syncing and unloading leave every position as it was. */
  lemma MovingChangesNothing(codec: Codec, space: iset<Id>, s: State, op: Op, id: Id)
    requires Sound(codec, space) && Inv(codec, s, space) && Possible(s, op, space) && Moves(op) && id in space
    ensures Listed(s, op) && View(codec, After(codec, s, op), id) == View(codec, s, id)
  {
    StepRefines(codec, space, s, op);
  }

  /** What is left when the process stops: the store. */
  function Restarted(s: State): State {
    s.(cache := map[])
  }

  /** After a sync every cached chunk is clean, and a restart loses nothing. */
  lemma SyncSavesEverything(codec: Codec, space: iset<Id>, s: State, order: seq<Id>)
    requires Sound(codec, space) && Inv(codec, s, space) && ListsDirty(s.cache, s.cache.Keys, order)
    ensures Cached(s.cache, order)
    ensures var t := AfterSync(codec, s, order);
            && (forall id :: id in t.cache ==> !Dirty(t.cache[id]))
            && t.cache.Keys == s.cache.Keys
            && Inv(codec, Restarted(t), space)
            && (forall id :: id in space ==> View(codec, Restarted(t), id) == View(codec, s, id))
  {
    SyncRefines(codec, space, s, Sync(order));
    SyncCleans(codec, s, order);
    var t := AfterSync(codec, s, order);
    hide AfterSync, View, Dirty, Decodable, CleanIsStored, ListsDirty;
    RestartKeepsInv(codec, space, t);
    forall id | id in space
      ensures View(codec, Restarted(t), id) == View(codec, s, id)
    {
    }
  }

  lemma SyncCleans(codec: Codec, s: State, order: seq<Id>)
    requires ListsDirty(s.cache, s.cache.Keys, order) && Cached(s.cache, order)
    ensures var t := AfterSync(codec, s, order);
            t.cache.Keys == s.cache.Keys && forall id :: id in t.cache ==> !Dirty(t.cache[id])
  {
    hide Dirty, Written;
  }

  lemma RestartKeepsInv(codec: Codec, space: iset<Id>, s: State)
    requires Inv(codec, s, space)
    ensures Inv(codec, Restarted(s), space)
  {
  }

  /** A stored copy that carries marks. */
  ghost predicate StoredDirty(codec: Codec, tables: Tables, id: Id) {
    var r := LoadInternal(codec, tables, id);
    r.Ok? && Dirty(r.value)
  }

  /** What the store holds for a cached chunk after a sync: the chunk with its marks if it was dirty, else the copy it
      held before. */
  lemma StoredBySync(codec: Codec, space: iset<Id>, s: State, order: seq<Id>, id: Id)
    requires Sound(codec, space) && Inv(codec, s, space) && ListsDirty(s.cache, s.cache.Keys, order) && id in s.cache
    ensures Cached(s.cache, order)
    ensures var after := LoadInternal(codec, AfterSync(codec, s, order).tables, id);
            if Dirty(s.cache[id]) then after == Ok(s.cache[id])
            else after.Ok? && after == LoadInternal(codec, s.tables, id)
  {
    ListedIsCached(s.cache, s.cache.Keys, order);
    assert id in order <==> Dirty(s.cache[id]);
    hide ListsDirty, Dirty, KeyOf;
    WrittenAt(codec, s.cache, order, false, s.tables, space, id);
  }

  /** RELOADING, exactly.  A chunk that is synced, evicted and loaded again is dirty exactly when it was dirty before
      the sync, which stores it with its marks, or its stored copy already carried marks; either way it holds what it
      held. */
  lemma SyncedChunkReloadsDirty(codec: Codec, space: iset<Id>, s: State, order: seq<Id>, visible: set<ChunkPos>, id: Id)
    requires Sound(codec, space) && Inv(codec, s, space) && ListsDirty(s.cache, s.cache.Keys, order)
    requires id in s.cache && id in Invisible(s.cache, visible)
    ensures Cached(s.cache, order)
    ensures var synced := AfterSync(codec, s, order);
            var evicted := AfterUnload(codec, synced, Invisible(synced.cache, visible), []);
            var loaded := AfterLoad(codec, evicted, id);
            && ListsDirty(synced.cache, Invisible(synced.cache, visible), [])
            && id !in evicted.cache && id in loaded.cache
            && Blocks(loaded.cache[id]) == Blocks(s.cache[id])
            && (Dirty(loaded.cache[id]) <==> Dirty(s.cache[id]) || StoredDirty(codec, s.tables, id))
  {
    StoredBySync(codec, space, s, order, id);
    hide AfterSync, AfterUnload, Dirty, Invisible, ListsDirty, LoadInternal, Blocks;
  }

  /** The unloader on the other hand writes back without marks: a chunk it evicts is dirty when loaded again exactly
      when it was clean and its stored copy carried marks; either way it holds what it held. */
  lemma EvictedReloadsClean(codec: Codec, space: iset<Id>, s: State, order: seq<Id>, visible: set<ChunkPos>, id: Id)
    requires Sound(codec, space) && Inv(codec, s, space) && ListsDirty(s.cache, Invisible(s.cache, visible), order)
    requires id in s.cache && id in Invisible(s.cache, visible)
    ensures Cached(s.cache, order)
    ensures var evicted := AfterUnload(codec, s, Invisible(s.cache, visible), order);
            var loaded := AfterLoad(codec, evicted, id);
            && id !in evicted.cache && id in loaded.cache
            && Blocks(loaded.cache[id]) == Blocks(s.cache[id])
            && (Dirty(loaded.cache[id]) <==> !Dirty(s.cache[id]) && StoredDirty(codec, s.tables, id))
  {
    ListedIsCached(s.cache, Invisible(s.cache, visible), order);
    assert id in order <==> Dirty(s.cache[id]);
    hide ListsDirty, Dirty, KeyOf, Invisible;
    WrittenAt(codec, s.cache, order, true, s.tables, space, id);
  }

  /** What is inserted is stored without marks, in the table of chunks, and loads as it was stored; a chunk carries
      marks exactly when clearing them changes it. */
  lemma InsertedLoadsClean(codec: Codec, s: State, id: Id, c: Chunk)
    requires RoundTrips(codec)
    ensures var t := AfterInsert(codec, s, id, c);
            && "chunks" in t.tables && t.cache == s.cache
            && LoadInternal(codec, t.tables, id) == Ok(Cleaned(c))
            && Blocks(Cleaned(c)) == Blocks(c) && !Dirty(Cleaned(c)) && (Dirty(c) <==> c != Cleaned(c))
  {
    UpsertsOne(Contents(s.tables, CHUNKS), (KeyOf(codec, id), codec.encode(Cleaned(c))));
    MarkShows(c);
  }

  lemma UpsertsOne(t: Table, e: Entry)
    ensures Upserts(t, [e]) == t[e.0 := e.1]
  {
    assert [e][..0] == [];
  }

  lemma MarkShows(c: Chunk)
    ensures Dirty(c) <==> c != Cleaned(c)
  {
    if !Dirty(c) {
      assert forall i :: 0 <= i < |c.sections| ==> Cleaned(c).sections[i] == c.sections[i];
      assert Cleaned(c).sections == c.sections;
    }
  }

  /** The two halves of a sync: writing the dirty chunks, then marking them clean. */
  function AfterWrite(codec: Codec, s: State, order: seq<Id>): State
    requires Cached(s.cache, order)
  {
    s.(tables := Written(s.tables, Entries(codec, s.cache, order, false)))
  }

  function AfterMark(s: State, order: seq<Id>): State {
    s.(cache := map id | id in s.cache :: if id in order then Cleaned(s.cache[id]) else s.cache[id])
  }

  lemma SyncIsWriteThenMark(codec: Codec, s: State, order: seq<Id>)
    requires Cached(s.cache, order)
    ensures AfterMark(AfterWrite(codec, s, order), order) == AfterSync(codec, s, order)
  {
  }

  /** Why the sync has to be alone.  It is its two halves; a change another thread makes between them to a chunk the
      sync has listed is marked clean without having been stored.  So the invariant survives a change to a cached chunk exactly
      when the sync had not listed it or the change changed nothing; the change is seen either way, and a restart
      loses it either way. */
  lemma RacingChangeIsLost(codec: Codec, space: iset<Id>, s: State, order: seq<Id>, id: Id, c: Chunk)
    requires Sound(codec, space) && Inv(codec, s, space) && ListsDirty(s.cache, s.cache.Keys, order)
    requires id in s.cache && Dirty(c)
    ensures Cached(s.cache, order)
    ensures AfterMark(AfterWrite(codec, s, order), order) == AfterSync(codec, s, order)
    ensures var t := AfterMark(AfterMutate(codec, AfterWrite(codec, s, order), id, c), order);
            && View(codec, t, id) == Some(Blocks(c))
            && View(codec, Restarted(t), id) == Some(Blocks(s.cache[id]))
            && (Inv(codec, t, space) <==> id !in order || Blocks(c) == Blocks(s.cache[id]))
  {
    ListedIsCached(s.cache, s.cache.Keys, order);
    SyncIsWriteThenMark(codec, s, order);
    WriteKeepsDecodable(codec, s.cache, order, false, s.tables);
    var t := AfterMark(AfterMutate(codec, AfterWrite(codec, s, order), id, c), order);
    MarkedAt(s, order, id, c, t);
    forall k | k in s.cache
      ensures Stored(codec, t.tables, k) == Some(Blocks(s.cache[k]))
    {
      WrittenIsStored(codec, space, s, order, k);
    }
    hide AfterMark, AfterMutate, AfterWrite, Dirty, Blocks, LoadInternal, Stored, ListsDirty;
    RaceVerdict(codec, space, s, order, id, c, t);
  }

  /** Right after the write every cached chunk equals its stored copy. */
  lemma WrittenIsStored(codec: Codec, space: iset<Id>, s: State, order: seq<Id>, k: Id)
    requires Sound(codec, space) && Inv(codec, s, space) && ListsDirty(s.cache, s.cache.Keys, order)
    requires k in s.cache && Cached(s.cache, order)
    ensures Stored(codec, AfterWrite(codec, s, order).tables, k) == Some(Blocks(s.cache[k]))
  {
    StoredAfterWrite(codec, s.cache, order, false, s.tables, space, k);
  }

  lemma RaceVerdict(codec: Codec, space: iset<Id>, s: State, order: seq<Id>, id: Id, c: Chunk, t: State)
    requires id in t.cache && Decodable(codec, t.tables)
    requires forall k :: k in t.cache ==> k in s.cache && k in space
    requires forall k :: k in t.cache ==> (Dirty(t.cache[k]) <==> k == id && id !in order)
    requires forall k :: k in t.cache ==> Blocks(t.cache[k]) == Blocks(if k == id then c else s.cache[k])
    requires forall k :: k in s.cache ==> Stored(codec, t.tables, k) == Some(Blocks(s.cache[k]))
    ensures View(codec, t, id) == Some(Blocks(c))
    ensures View(codec, Restarted(t), id) == Some(Blocks(s.cache[id]))
    ensures Inv(codec, t, space) <==> id !in order || Blocks(c) == Blocks(s.cache[id])
  {
    hide Dirty, Blocks, LoadInternal, Stored, Decodable;
  }

  lemma MarkedAt(s: State, order: seq<Id>, id: Id, c: Chunk, t: State)
    requires ListsDirty(s.cache, s.cache.Keys, order) && id in s.cache && Dirty(c)
    requires t.cache == AfterMark(s.(cache := s.cache[id := c]), order).cache
    ensures forall k :: k in t.cache ==> k in s.cache && (Dirty(t.cache[k]) <==> k == id && id !in order)
    ensures forall k :: k in t.cache ==> Blocks(t.cache[k]) == Blocks(if k == id then c else s.cache[k])
    ensures id in t.cache
  {
    hide Dirty, Blocks;
  }

  /** With players online the unloader takes out exactly the overworld chunks at positions nobody has loaded;
      a chunk of another dimension stays whatever is visible. */
  lemma EvictionExactly(codec: Codec, s: State, visible: set<ChunkPos>, order: seq<Id>, id: Id)
    requires ListsDirty(s.cache, Invisible(s.cache, visible), order) && id in s.cache
    ensures Cached(s.cache, order)
    ensures var t := AfterUnload(codec, s, Invisible(s.cache, visible), order);
            && (id in t.cache <==> id.dimension != OVERWORLD || id.pos in visible)
            && (id in t.cache ==> t.cache[id] == s.cache[id])
  {
    ListedIsCached(s.cache, Invisible(s.cache, visible), order);
  }

  /** The operations that take a chunk out of the cache. */
  predicate Expels(op: Op, id: Id) {
    || op.ClearAll?
    || (op.Delete? && op.id == id)
    || (op.Evict? && id.dimension == OVERWORLD && id.pos !in op.visible)
  }

  predicate NeverExpelled(run: Run, id: Id) {
    run.Then? ==> NeverExpelled(run.before, id) && !Expels(run.last, id)
  }

  ghost predicate CachedThroughout(codec: Codec, space: iset<Id>, s: State, run: Run, id: Id)
    requires Legal(codec, space, s, run)
  {
    id in Exec(codec, space, s, run).cache && (run.Then? ==> CachedThroughout(codec, space, s, run.before, id))
  }

  /** EVICTION over whole runs, exactly.  A cached chunk stays cached all along exactly when the cache is never cleared,
      the chunk never deleted, and, in the overworld, never invisible to everybody when the unloader comes by. */
  lemma {:induction false} StaysExactly(codec: Codec, space: iset<Id>, s: State, run: Run, id: Id)
    requires Legal(codec, space, s, run) && id in s.cache
    ensures CachedThroughout(codec, space, s, run, id) <==> NeverExpelled(run, id)
  {
    hide After, Possible, Sound, Expels;
    if run.Then? {
      StaysExactly(codec, space, s, run.before, id);
      if CachedThroughout(codec, space, s, run.before, id) {
        StepStaysExactly(codec, space, Exec(codec, space, s, run.before), run.last, id);
      }
    }
  }

  lemma StepStaysExactly(codec: Codec, space: iset<Id>, s: State, op: Op, id: Id)
    requires Possible(s, op, space) && Listed(s, op) && id in s.cache
    ensures id in After(codec, s, op).cache <==> !Expels(op, id)
  {
    hide LoadInternal, KeyOf, Written, Entries;
    if op.LoadBatch? {
      LoadsKeep(codec, s, op.ids, id);
    } else if op.Evict? {
      EvictionExactly(codec, s, op.visible, op.order, id);
    }
  }

  /** The operations that can take a chunk out of the cache whatever its dimension. */
  predicate Spares(op: Op, id: Id) {
    !op.ClearAll? && (op.Delete? ==> op.id != id)
  }

  predicate SparesAll(run: Run, id: Id) {
    run.Then? ==> SparesAll(run.before, id) && Spares(run.last, id)
  }

  /** While players are online, a cached chunk of another dimension than the overworld stays cached over any run that
      does not delete it, whatever anybody sees. */
  lemma {:induction false} OtherDimensionsStay(codec: Codec, space: iset<Id>, s: State, run: Run, id: Id)
    requires Legal(codec, space, s, run) && SparesAll(run, id)
    requires id in s.cache && id.dimension != OVERWORLD
    ensures CachedThroughout(codec, space, s, run, id)
  {
    SparedIsNeverExpelled(run, id);
    StaysExactly(codec, space, s, run, id);
  }

  lemma {:induction false} SparedIsNeverExpelled(run: Run, id: Id)
    requires SparesAll(run, id) && id.dimension != OVERWORLD
    ensures NeverExpelled(run, id)
  {
    if run.Then? {
      SparedIsNeverExpelled(run.before, id);
    }
  }

  lemma {:induction false} LoadsKeep(codec: Codec, s: State, ids: seq<Id>, id: Id)
    requires id in s.cache
    ensures id in AfterLoads(codec, s, ids).cache
  {
    hide LoadInternal;
    if ids != [] {
      LoadsKeep(codec, s, ids[..|ids| - 1], id);
    }
  }

  // ---------------------------------------------------------------------------------------------
  // Where keys are unique
  // ---------------------------------------------------------------------------------------------

  ghost function InRange(dimensions: set<string>): iset<Id> {
    iset id: Id | InKeyRange(id.pos) && id.dimension in dimensions
  }

  ghost predicate HashesApart(codec: Codec, dimensions: set<string>) {
    forall a, b ::
      a in dimensions && b in dimensions && codec.hash(a) % TWO_32 == codec.hash(b) % TWO_32 ==> a == b
  }

  /** Within 2^21 chunks of the origin keys tell chunks apart exactly when the names of the dimensions differ in
      the low 32 bits of their hashes. */
  lemma KeysTellApart(codec: Codec, dimensions: set<string>)
    ensures Injective(codec, InRange(dimensions)) <==> HashesApart(codec, dimensions)
  {
    if HashesApart(codec, dimensions) {
      forall a, b | a in InRange(dimensions) && b in InRange(dimensions) && KeyOf(codec, a) == KeyOf(codec, b)
        ensures a == b
      {
        KeyInjective(codec.hash(a.dimension), a.pos, codec.hash(b.dimension), b.pos);
      }
    }
    if Injective(codec, InRange(dimensions)) {
      forall a, b | a in dimensions && b in dimensions && codec.hash(a) % TWO_32 == codec.hash(b) % TWO_32
        ensures a == b
      {
        var o := ChunkPos(0, 0);
        assert Id(o, a) in InRange(dimensions) && Id(o, b) in InRange(dimensions);
        KeyEqual(codec.hash(a), o, codec.hash(b), o);
        assert KeyOf(codec, Id(o, a)) == KeyOf(codec, Id(o, b));
      }
    }
  }
}
