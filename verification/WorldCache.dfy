/** The world and the chunk unloader as they change the cache and the store, proved to do what the operations on
    values say. */
module WorldCache {
  import opened Options
  import opened Positions
  import opened Storage
  import opened WorldState

  lemma EntriesSnoc(codec: Codec, cache: map<Id, Chunk>, order: seq<Id>, id: Id, clean: bool)
    requires Cached(cache, order) && id in cache
    ensures Cached(cache, order + [id])
    ensures Entries(codec, cache, order + [id], clean) ==
            Entries(codec, cache, order, clean) + [EntryOf(codec, cache, id, clean)]
  {
    assert (order + [id])[..|order|] == order;
  }

  /** `order` lists the dirty chunks among `ids` that are no longer to do. */
  ghost predicate ListedSoFar(cache: map<Id, Chunk>, ids: set<Id>, todo: set<Id>, order: seq<Id>) {
    todo <= ids && ListsDirty(cache, ids - todo, order)
  }

  lemma ListOne(cache: map<Id, Chunk>, ids: set<Id>, todo: set<Id>, order: seq<Id>, id: Id)
    requires ListedSoFar(cache, ids, todo, order) && id in todo
    ensures id in cache && Dirty(cache[id]) ==> ListedSoFar(cache, ids, todo - {id}, order + [id])
    ensures id !in cache || !Dirty(cache[id]) ==> ListedSoFar(cache, ids, todo - {id}, order)
  {
    hide Dirty;
    assert id !in order;
    forall k
      ensures k in ids - (todo - {id}) <==> k in ids - todo || k == id
    {
    }
  }

  lemma ListedAll(cache: map<Id, Chunk>, ids: set<Id>, order: seq<Id>)
    requires ListedSoFar(cache, ids, {}, order)
    ensures ListsDirty(cache, ids, order)
  {
    assert ids - {} == ids;
  }

  lemma LoadsPrefix(codec: Codec, s: State, ids: seq<Id>, i: nat)
    requires i < |ids|
    ensures AfterLoads(codec, s, ids[..i + 1]) == AfterLoad(codec, AfterLoads(codec, s, ids[..i]), ids[i])
  {
    assert ids[..i + 1][..i] == ids[..i];
  }

  /** Loading reads the store only, and once a chunk is cached, loading it again changes nothing: loading the
      missing chunks of a list in order is loading the list. */
  lemma {:induction false} LoadsAre(codec: Codec, s: State, ids: seq<Id>, id: Id)
    ensures var t := AfterLoads(codec, s, ids);
            && t.tables == s.tables
            && (id in s.cache ==> id in t.cache && t.cache[id] == s.cache[id])
            && (id !in s.cache ==>
                  (id in t.cache <==> id in ids && LoadInternal(codec, s.tables, id).Ok?) &&
                  (id in t.cache ==> t.cache[id] == LoadInternal(codec, s.tables, id).value))
  {
    hide LoadInternal;
    if ids != [] {
      var pre, last := ids[..|ids| - 1], ids[|ids| - 1];
      LoadsAre(codec, s, pre, id);
      assert ids == pre + [last];
      assert id in ids <==> id in pre || id == last;
    }
  }

  /** Lists with the same members that are not cached yet load the same chunks. */
  lemma SameLoads(codec: Codec, s: State, a: seq<Id>, b: seq<Id>)
    requires forall id :: id !in s.cache ==> (id in a <==> id in b)
    ensures AfterLoads(codec, s, a) == AfterLoads(codec, s, b)
  {
    hide LoadInternal;
    forall id
      ensures id in AfterLoads(codec, s, a).cache <==> id in AfterLoads(codec, s, b).cache
      ensures id in AfterLoads(codec, s, a).cache ==>
                AfterLoads(codec, s, a).cache[id] == AfterLoads(codec, s, b).cache[id]
    {
      LoadsAre(codec, s, a, id);
      LoadsAre(codec, s, b, id);
    }
    LoadsAre(codec, s, a, Id(ChunkPos(0, 0), ""));
    LoadsAre(codec, s, b, Id(ChunkPos(0, 0), ""));
    assert AfterLoads(codec, s, a).cache == AfterLoads(codec, s, b).cache;
  }

  class World {
    const storage: LmdbBackend
    const codec: Codec
    var cache: map<Id, Chunk>

    ghost predicate Valid()
      reads this, storage
    {
      storage.Valid()
    }

    ghost function Now(): State
      reads this, storage
    {
      State(cache, storage.tables)
    }

    constructor (storage: LmdbBackend, codec: Codec)
      requires storage.Valid()
      ensures Valid() && this.storage == storage && this.codec == codec
      ensures Now() == State(map[], storage.tables)
    {
      this.storage, this.codec, cache := storage, codec, map[];
    }

    /** Saves a chunk with its marks cleared; the cache is left alone. */
    method InsertChunk(id: Id, chunk: Chunk) returns (r: Result<(), WorldError>)
      requires Valid()
      modifies storage
      ensures Valid() && r == Ok(()) && Now() == AfterInsert(codec, old(Now()), id, chunk)
    {
      r := SaveChunkInternal(id, Cleaned(chunk));
    }

    method SaveChunkInternal(id: Id, chunk: Chunk) returns (r: Result<(), WorldError>)
      requires Valid()
      modifies storage
      ensures Valid() && r == Ok(()) && cache == old(cache)
      ensures storage.tables == Written(old(storage.tables), [(KeyOf(codec, id), codec.encode(chunk))])
    {
      UpsertsSnoc(Contents(storage.tables, CHUNKS), [], (KeyOf(codec, id), codec.encode(chunk)));
      assert [] + [(KeyOf(codec, id), codec.encode(chunk))] == [(KeyOf(codec, id), codec.encode(chunk))];
      var present := storage.TableExists(CHUNKS);
      if !present {
        storage.CreateTable(CHUNKS);
      }
      var stored := storage.Upsert(CHUNKS, KeyOf(codec, id), codec.encode(chunk));
      r := Ok(());
    }

    method LoadChunkInternal(id: Id) returns (r: Result<Chunk, WorldError>)
      requires Valid()
      modifies storage
      ensures Valid() && Now() == old(Now()) && r == LoadInternal(codec, storage.tables, id)
    {
      var digest := KeyOf(codec, id);
      var found := storage.Get(CHUNKS, digest);
      if found.Err? {
        return Err(Database(found.error));
      }
      if found.value.None? {
        return Err(ChunkNotFound);
      }
      var chunk := codec.decode(found.value.value);
      r := if chunk.Some? then Ok(chunk.value) else Err(Corrupted);
    }

    /** The cached chunk, else the stored one, which then is cached. */
    method LoadChunk(id: Id) returns (r: Result<Chunk, WorldError>)
      requires Valid()
      modifies this, storage
      ensures Valid() && Now() == AfterLoad(codec, old(Now()), id)
      ensures r == if id in old(cache) then Ok(old(cache)[id]) else LoadInternal(codec, old(storage.tables), id)
      ensures storage.tables == old(storage.tables)
      ensures cache == if r.Ok? then old(cache)[id := r.value] else old(cache)
      ensures id !in old(cache) && "chunks" !in old(storage.tables) ==> r == Err(Database(TableNotFound))
      ensures id !in old(cache) && "chunks" in old(storage.tables) ==>
                var stored, key := old(storage.tables)["chunks"], KeyOf(codec, id);
                && (key !in stored ==> r == Err(ChunkNotFound))
                && (key in stored && codec.decode(stored[key]).None? ==> r == Err(Corrupted))
                && (key in stored && codec.decode(stored[key]).Some? ==> r == Ok(codec.decode(stored[key]).value))
    {
      if id in cache {
        return Ok(cache[id]);
      }
      r := LoadChunkInternal(id);
      if r.Ok? {
        cache := cache[id := r.value];
      }
    }

    /** `load_chunk_mut`, and what the holder of the guard then makes of the chunk. */
    method LoadAndWrite(id: Id, written: Chunk) returns (r: Result<Chunk, WorldError>)
      requires Valid()
      modifies this, storage
      ensures Valid() && Now() == AfterMutate(codec, old(Now()), id, written)
      ensures r == if id in old(cache) then Ok(old(cache)[id]) else LoadInternal(codec, old(storage.tables), id)
    {
      r := LoadChunk(id);
      if r.Ok? {
        cache := cache[id := written];
      }
    }

    method ChunkExists(id: Id) returns (r: bool)
      requires Valid()
      modifies storage
      ensures Valid() && Now() == old(Now()) && r == Exists(codec, Now(), id)
    {
      if id in cache {
        return true;
      }
      var present := storage.TableExists(CHUNKS);
      if !present {
        return false;
      }
      var stored := storage.Exists(CHUNKS, KeyOf(codec, id));
      r := stored.Ok? && stored.value;
    }

    /** The chunk leaves the cache even when the store then reports that it never had it. */
    method DeleteChunk(id: Id) returns (r: Result<(), WorldError>)
      requires Valid()
      modifies this, storage
      ensures Valid() && Now() == AfterDelete(codec, old(Now()), id)
      ensures r == if CHUNKS !in old(storage.tables) then Err(Database(TableNotFound))
                   else if KeyOf(codec, id) in old(storage.tables)[CHUNKS] then Ok(())
                   else Err(Database(KeyNotFound(KeyOf(codec, id) % TWO_64)))
    {
      cache := cache - {id};
      var deleted := storage.Delete(CHUNKS, KeyOf(codec, id));
      r := if deleted.Ok? then Ok(()) else Err(Database(deleted.error));
    }

    method PreCache(id: Id) returns (r: Result<(), WorldError>)
      requires Valid()
      modifies this, storage
      ensures Valid() && Now() == AfterLoad(codec, old(Now()), id) && (r.Ok? <==> id in cache)
      ensures r.Err? ==> LoadInternal(codec, old(storage.tables), id) == Err(r.error)
    {
      if id !in cache {
        var chunk := LoadChunkInternal(id);
        if chunk.Err? {
          return Err(chunk.error);
        }
        cache := cache[id := chunk.value];
      }
      r := Ok(());
    }

    /** Writes every dirty chunk in one transaction, then marks what was written clean. */
    method Sync() returns (ghost order: seq<Id>)
      requires Valid()
      modifies this, storage
      ensures Valid() && ListsDirty(old(cache), old(cache).Keys, order) && Cached(old(cache), order)
      ensures Now() == AfterSync(codec, old(Now()), order)
    {
      hide Dirty, Cleaned, Upserts;
      ghost var before := Now();
      var batch: seq<Entry> := [];
      var written: seq<Id> := [];
      var todo := cache.Keys;
      while todo != {}
        invariant Valid() && Now() == before
        invariant ListedSoFar(cache, cache.Keys, todo, written) && Cached(cache, written)
        invariant batch == Entries(codec, cache, written, false)
        decreases todo
      {
        var id :| id in todo;
        ListOne(cache, cache.Keys, todo, written, id);
        if Dirty(cache[id]) {
          EntriesSnoc(codec, cache, written, id, false);
          batch := batch + [(KeyOf(codec, id), codec.encode(cache[id]))];
          written := written + [id];
        }
        todo := todo - {id};
      }
      ListedAll(cache, cache.Keys, written);
      order := written;
      if batch != [] {
        var stored := storage.BatchUpsert(CHUNKS, batch);
        MarkClean(written);
      }
      assert cache == AfterSync(codec, before, order).cache;
    }

    method MarkClean(written: seq<Id>)
      requires Cached(cache, written)
      modifies this
      ensures cache == map id | id in old(cache) :: if id in written then Cleaned(old(cache)[id]) else old(cache)[id]
    {
      for i := 0 to |written|
        invariant cache.Keys == old(cache).Keys
        invariant forall id :: id in cache ==>
          cache[id] == if id in written[..i] then Cleaned(old(cache)[id]) else old(cache)[id]
      {
        var id := written[i];
        CleanedTwice(old(cache)[id]);
        assert written[..i + 1] == written[..i] + [id];
        cache := cache[id := Cleaned(cache[id])];
      }
      assert written[..|written|] == written;
    }

    /** Chunks already cached are taken from there, the others are fetched together, all of them or none; the
        cached ones come first in the result. */
    method LoadChunkBatch(coords: seq<Id>) returns (r: Result<seq<Chunk>, WorldError>)
      requires Valid()
      modifies this, storage
      ensures Valid() && Now() == AfterBatch(codec, old(Now()), coords)
      ensures r.Ok? <==> AllLoadable(codec, old(Now()), coords)
      ensures storage.tables == old(storage.tables) && (r.Err? ==> cache == old(cache))
      ensures r.Ok? <==>
              && "chunks" in old(storage.tables)
              && forall i :: 0 <= i < |coords| && coords[i] !in old(cache) ==>
                   && KeyOf(codec, coords[i]) in old(storage.tables)["chunks"]
                   && codec.decode(old(storage.tables)["chunks"][KeyOf(codec, coords[i])]).Some?
      ensures r.Ok? ==> Lists(cache, Picked(old(cache), coords, true) + Picked(old(cache), coords, false), r.value)
    {
      ghost var s := Now();
      var found, missing := SplitBatch(coords);
      PickedAre(s.cache, coords, false);
      SameLoads(codec, s, coords, missing);
      var fetched := LoadChunkBatchInternal(missing);
      AllMissingLoadable(codec, s, coords, missing);
      if fetched.Err? {
        return Err(fetched.error);
      }
      found := CacheFetched(missing, fetched.value, Picked(s.cache, coords, true), found, s);
      r := Ok(found);
    }

    method SplitBatch(coords: seq<Id>) returns (found: seq<Chunk>, missing: seq<Id>)
      ensures Lists(cache, Picked(cache, coords, true), found) && missing == Picked(cache, coords, false)
    {
      found, missing := [], [];
      for i := 0 to |coords|
        invariant Lists(cache, Picked(cache, coords[..i], true), found) && missing == Picked(cache, coords[..i], false)
      {
        assert coords[..i + 1][..i] == coords[..i];
        if coords[i] in cache {
          found := found + [cache[coords[i]]];
        } else {
          missing := missing + [coords[i]];
        }
      }
      assert coords[..|coords|] == coords;
    }

    method CacheFetched(missing: seq<Id>, fetched: seq<Chunk>, ghost hits: seq<Id>, found: seq<Chunk>, ghost s: State)
      returns (all: seq<Chunk>)
      requires Now() == s && Lists(cache, hits, found) && |fetched| == |missing|
      requires forall i :: 0 <= i < |missing| ==> LoadInternal(codec, s.tables, missing[i]) == Ok(fetched[i])
      requires forall i :: 0 <= i < |missing| ==> missing[i] !in cache
      modifies this
      ensures Now() == AfterLoads(codec, s, missing) && Lists(cache, hits + missing, all)
    {
      all := found;
      assert hits + missing[..0] == hits;
      for i := 0 to |missing|
        invariant Now() == AfterLoads(codec, s, missing[..i]) && Lists(cache, hits + missing[..i], all)
      {
        LoadFetched(codec, s, missing, i, fetched[i]);
        assert hits + missing[..i + 1] == hits + missing[..i] + [missing[i]];
        cache := cache[missing[i] := fetched[i]];
        all := all + [cache[missing[i]]];
      }
      assert missing[..|missing|] == missing;
    }

    method LoadChunkBatchInternal(coords: seq<Id>) returns (r: Result<seq<Chunk>, WorldError>)
      requires Valid()
      modifies storage
      ensures Valid() && Now() == old(Now())
      ensures r.Ok? <==> CHUNKS in storage.tables &&
                         forall i :: 0 <= i < |coords| ==> LoadInternal(codec, storage.tables, coords[i]).Ok?
      ensures r.Ok? ==> |r.value| == |coords| && forall i :: 0 <= i < |coords| ==>
                LoadInternal(codec, storage.tables, coords[i]) == Ok(r.value[i])
    {
      var digests: seq<Key> := [];
      for i := 0 to |coords|
        invariant |digests| == i && forall j :: 0 <= j < i ==> digests[j] == KeyOf(codec, coords[j])
      {
        digests := digests + [KeyOf(codec, coords[i])];
      }
      var values := storage.BatchGet(CHUNKS, digests);
      if values.Err? {
        return Err(Database(values.error));
      }
      var chunks: seq<Chunk> := [];
      for i := 0 to |coords|
        invariant |chunks| == i
        invariant forall j :: 0 <= j < i ==> LoadInternal(codec, storage.tables, coords[j]) == Ok(chunks[j])
        invariant Now() == old(Now())
      {
        if values.value[i].None? {
          assert LoadInternal(codec, storage.tables, coords[i]).Err?;
          return Err(ChunkNotFound);
        }
        var chunk := codec.decode(values.value[i].value);
        if chunk.None? {
          assert LoadInternal(codec, storage.tables, coords[i]).Err?;
          return Err(Corrupted);
        }
        chunks := chunks + [chunk.value];
      }
      r := Ok(chunks);
    }

    /** The stored or cached chunk, or a freshly generated one that is stored first. */
    method LoadOrGenerate(id: Id, generated: Chunk) returns (r: Result<Chunk, WorldError>)
      requires Valid()
      modifies this, storage
      ensures Valid() && Now() == AfterGenerate(codec, old(Now()), id, generated)
      ensures (r.Ok? <==> id in cache) && (r.Ok? ==> r.value == cache[id])
    {
      var present := ChunkExists(id);
      if !present {
        var saved := InsertChunk(id, generated);
      }
      r := LoadChunk(id);
    }
  }

  /** `chunks` are the cached chunks of the list. */
  ghost predicate Lists(cache: map<Id, Chunk>, ids: seq<Id>, chunks: seq<Chunk>) {
    |chunks| == |ids| && forall i :: 0 <= i < |ids| ==> ids[i] in cache && cache[ids[i]] == chunks[i]
  }

  /** The coordinates that are cached, or those that are not, in order. */
  ghost function Picked(cache: map<Id, Chunk>, coords: seq<Id>, cached: bool): seq<Id> {
    if coords == [] then []
    else
      var last := coords[|coords| - 1];
      Picked(cache, coords[..|coords| - 1], cached) + if (last in cache) == cached then [last] else []
  }

  lemma {:induction false} PickedAre(cache: map<Id, Chunk>, coords: seq<Id>, cached: bool)
    ensures forall id :: id in Picked(cache, coords, cached) <==> id in coords && (id in cache) == cached
    ensures forall i :: 0 <= i < |Picked(cache, coords, cached)| ==>
              (Picked(cache, coords, cached)[i] in cache) == cached
  {
    if coords != [] {
      PickedAre(cache, coords[..|coords| - 1], cached);
      assert coords == coords[..|coords| - 1] + [coords[|coords| - 1]];
    }
  }

  lemma LoadFetched(codec: Codec, s: State, ids: seq<Id>, i: nat, c: Chunk)
    requires i < |ids| && LoadInternal(codec, s.tables, ids[i]) == Ok(c) && ids[i] !in s.cache
    ensures var t := AfterLoads(codec, s, ids[..i]);
            && (ids[i] in t.cache ==> t.cache[ids[i]] == c)
            && AfterLoads(codec, s, ids[..i + 1]) == t.(cache := t.cache[ids[i] := c])
  {
    hide LoadInternal;
    var t := AfterLoads(codec, s, ids[..i]);
    LoadsPrefix(codec, s, ids, i);
    LoadsAre(codec, s, ids[..i], ids[i]);
    if ids[i] in t.cache {
      assert t.cache[ids[i] := c] == t.cache;
    }
  }

  lemma CleanedTwice(c: Chunk)
    ensures Cleaned(Cleaned(c)) == Cleaned(c)
  {
    var once := Cleaned(c);
    assert Cleaned(once).sections == once.sections;
  }

  lemma AllMissingLoadable(codec: Codec, s: State, coords: seq<Id>, missing: seq<Id>)
    requires forall id :: id in missing <==> id in coords && id !in s.cache
    ensures AllLoadable(codec, s, coords) <==>
            CHUNKS in s.tables && forall i :: 0 <= i < |missing| ==> LoadInternal(codec, s.tables, missing[i]).Ok?
  {
    hide LoadInternal;
    if AllLoadable(codec, s, coords) {
      forall i | 0 <= i < |missing|
        ensures LoadInternal(codec, s.tables, missing[i]).Ok?
      {
        assert missing[i] in missing;
      }
    } else if CHUNKS in s.tables {
      var i :| 0 <= i < |coords| && coords[i] !in s.cache && !LoadInternal(codec, s.tables, coords[i]).Ok?;
      assert coords[i] in coords && coords[i] in missing;
    }
  }

  // ---------------------------------------------------------------------------------------------
  // The unloader
  // ---------------------------------------------------------------------------------------------

  /** The positions some player has loaded, among those in the cache. */
  ghost function VisiblePositions(cache: map<Id, Chunk>, receivers: seq<set<(int, int)>>): set<ChunkPos> {
    set id | id in cache && Seen(receivers, id.pos) :: id.pos
  }

  predicate Seen(receivers: seq<set<(int, int)>>, pos: ChunkPos) {
    exists i :: 0 <= i < |receivers| && (pos.X(), pos.Z()) in receivers[i]
  }

  /** `ChunkUnloader`: without players everything leaves the cache, else what no player has loaded; dirty chunks
      are written back. */
  method Unload(world: World, receivers: seq<set<(int, int)>>) returns (ghost order: seq<Id>)
    requires world.Valid()
    modifies world, world.storage
    ensures world.Valid()
    ensures var s := old(world.Now());
            var gone := if receivers == [] then s.cache.Keys
                        else Invisible(s.cache, VisiblePositions(s.cache, receivers));
            && ListsDirty(s.cache, gone, order) && Cached(s.cache, order)
            && world.Now() == AfterUnload(world.codec, s, gone, order)
    ensures forall id :: id in old(world.cache) ==>
              && (id in world.cache ==> world.cache[id] == old(world.cache)[id])
              && (id in world.cache <==>
                    receivers != [] &&
                    (id.dimension == "overworld" ==>
                       exists i :: 0 <= i < |receivers| && (id.pos.X(), id.pos.Z()) in receivers[i]))
  {
    if receivers == [] {
      order := ClearCache(world);
    } else {
      order := EvictUnseen(world, receivers);
    }
  }

  method ClearCache(world: World) returns (ghost order: seq<Id>)
    requires world.Valid()
    modifies world, world.storage
    ensures world.Valid()
    ensures var s := old(world.Now());
            && ListsDirty(s.cache, s.cache.Keys, order) && Cached(s.cache, order)
            && world.Now() == AfterUnload(world.codec, s, s.cache.Keys, order)
  {
    ghost var s := world.Now();
    order := [];
    var todo := world.cache.Keys;
    while todo != {}
      invariant world.Valid() && ListedSoFar(s.cache, s.cache.Keys, todo, order) && Cached(s.cache, order)
      invariant world.Now() == s.(tables := Written(s.tables, Entries(world.codec, s.cache, order, true)))
      decreases todo
    {
      var id :| id in todo;
      ListOne(s.cache, s.cache.Keys, todo, order, id);
      if Dirty(world.cache[id]) {
        EntriesSnoc(world.codec, s.cache, order, id, true);
        WrittenSnoc(s.tables, Entries(world.codec, s.cache, order, true), EntryOf(world.codec, s.cache, id, true));
        var saved := world.InsertChunk(id, world.cache[id]);
        order := order + [id];
      }
      todo := todo - {id};
    }
    ListedAll(s.cache, s.cache.Keys, order);
    world.cache := map[];
    assert s.cache - s.cache.Keys == map[];
  }

  method EvictUnseen(world: World, receivers: seq<set<(int, int)>>) returns (ghost order: seq<Id>)
    requires world.Valid()
    modifies world, world.storage
    ensures world.Valid()
    ensures var s := old(world.Now());
            var gone := Invisible(s.cache, VisiblePositions(s.cache, receivers));
            && ListsDirty(s.cache, gone, order) && Cached(s.cache, order)
            && world.Now() == AfterUnload(world.codec, s, gone, order)
  {
    hide Dirty, Seen, Upserts;
    ghost var s := world.Now();
    var allChunks := set id | id in world.cache :: id.pos;
    var visibleChunks := set id | id in world.cache && Seen(receivers, id.pos) :: id.pos;
    var todo := allChunks - visibleChunks;
    ghost var gone := Invisible(s.cache, visibleChunks);
    ghost var left := gone;
    order := [];
    assert s.cache - (gone - left) == s.cache && ListedSoFar(s.cache, gone, gone, order);
    hide ListedSoFar, ListsDirty, Invisible, VisiblePositions, Written, Entries, ToDo;
    while todo != {}
      invariant world.Valid() && ListedSoFar(s.cache, gone, left, order) && Cached(s.cache, order)
      invariant left == ToDo(gone, todo) && todo !! visibleChunks && left <= gone
      invariant world.cache == s.cache - (gone - left)
      invariant world.storage.tables == Written(s.tables, Entries(world.codec, s.cache, order, true))
      decreases todo
    {
      var pos :| pos in todo;
      var id := Id(pos, OVERWORLD);
      todo := todo - {pos};
      if id in world.cache {
        order := EvictOne(world, s, id, order, gone, left);
        left := left - {id};
      }
    }
    NoneToDo(gone, todo);
    ListedAll(s.cache, gone, order);
    assert gone - {} == gone;
  }

  /** The chunks still to leave while the positions `todo` are left. */
  ghost function ToDo(gone: set<Id>, todo: set<ChunkPos>): set<Id> {
    set id | id in gone && id.pos in todo
  }

  lemma NoneToDo(gone: set<Id>, todo: set<ChunkPos>)
    requires todo == {}
    ensures ToDo(gone, todo) == {}
  {
  }

  method EvictOne(world: World, ghost s: State, id: Id, ghost order: seq<Id>, ghost gone: set<Id>, ghost left: set<Id>)
    returns (ghost longer: seq<Id>)
    requires world.Valid() && id in world.cache && id in left && left <= gone
    requires ListedSoFar(s.cache, gone, left, order) && Cached(s.cache, order)
    requires world.cache == s.cache - (gone - left)
    requires world.storage.tables == Written(s.tables, Entries(world.codec, s.cache, order, true))
    modifies world, world.storage
    ensures world.Valid() && ListedSoFar(s.cache, gone, left - {id}, longer) && Cached(s.cache, longer)
    ensures world.cache == s.cache - (gone - (left - {id}))
    ensures world.storage.tables == Written(s.tables, Entries(world.codec, s.cache, longer, true))
  {
    hide Dirty, ListsDirty, ListedSoFar, Cleaned, Upserts;
    var chunk := world.cache[id];
    world.cache := world.cache - {id};
    ListOne(s.cache, gone, left, order, id);
    longer := order;
    if Dirty(chunk) {
      EntriesSnoc(world.codec, s.cache, order, id, true);
      WrittenSnoc(s.tables, Entries(world.codec, s.cache, order, true), EntryOf(world.codec, s.cache, id, true));
      var saved := world.InsertChunk(id, chunk);
      longer := order + [id];
    }
    assert world.cache == s.cache - (gone - (left - {id}));
  }
}
