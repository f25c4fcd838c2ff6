/** The world's chunk cache over the key/value store, as values: what each operation does, and the plain map it
    all amounts to. */
module WorldState {
  import opened Options
  import opened Positions
  import opened Storage

  type Content = seq<seq<nat>>

  /** A sixteenth of a chunk's blocks and its mark for unsaved changes. */
  datatype Section = Section(blocks: seq<nat>, dirty: bool)

  datatype Chunk = Chunk(sections: seq<Section>)

  predicate Dirty(c: Chunk) {
    exists i :: 0 <= i < |c.sections| && c.sections[i].dirty
  }

  function BlocksOf(sections: seq<Section>): Content {
    if sections == [] then [] else [sections[0].blocks] + BlocksOf(sections[1..])
  }

  /** What a chunk holds, marks aside. */
  function Blocks(c: Chunk): Content {
    BlocksOf(c.sections)
  }

  function CleanedSections(sections: seq<Section>): (r: seq<Section>)
    ensures |r| == |sections| && BlocksOf(r) == BlocksOf(sections)
    ensures forall i :: 0 <= i < |r| ==> r[i] == sections[i].(dirty := false)
  {
    if sections == [] then [] else [sections[0].(dirty := false)] + CleanedSections(sections[1..])
  }

  function Cleaned(c: Chunk): (r: Chunk)
    ensures !Dirty(r) && Blocks(r) == Blocks(c)
  {
    Chunk(CleanedSections(c.sections))
  }

  datatype Id = Id(pos: ChunkPos, dimension: string)

  /** What the cache relies on and does not look into: serialising and compressing, and hashing a name. */
  datatype Codec = Codec(encode: Chunk -> Bytes, decode: Bytes -> Option<Chunk>, hash: string -> nat)

  ghost predicate RoundTrips(codec: Codec) {
    forall c :: codec.decode(codec.encode(c)) == Some(c)
  }

  function KeyOf(codec: Codec, id: Id): Key {
    CreateKey(codec.hash(id.dimension), id.pos) as Key
  }

  datatype State = State(cache: map<Id, Chunk>, tables: Tables)

  const CHUNKS := "chunks"

  datatype WorldError = Database(e: StorageError) | ChunkNotFound | Corrupted

  function LoadInternal(codec: Codec, tables: Tables, id: Id): Result<Chunk, WorldError> {
    if CHUNKS !in tables then Err(Database(TableNotFound))
    else if KeyOf(codec, id) !in tables[CHUNKS] then Err(ChunkNotFound)
    else
      var c := codec.decode(tables[CHUNKS][KeyOf(codec, id)]);
      if c.Some? then Ok(c.value) else Err(Corrupted)
  }

  predicate Exists(codec: Codec, s: State, id: Id) {
    id in s.cache || KeyOf(codec, id) in Contents(s.tables, CHUNKS)
  }

  function Stored(codec: Codec, tables: Tables, id: Id): Option<Content> {
    var r := LoadInternal(codec, tables, id);
    if r.Ok? then Some(Blocks(r.value)) else None
  }

  /** What the world holds at a position: the cached blocks if there are any, else the stored ones. */
  function View(codec: Codec, s: State, id: Id): Option<Content> {
    if id in s.cache then Some(Blocks(s.cache[id])) else Stored(codec, s.tables, id)
  }

  // ---------------------------------------------------------------------------------------------
  // Operations
  // ---------------------------------------------------------------------------------------------

  function AfterLoad(codec: Codec, s: State, id: Id): State {
    var r := LoadInternal(codec, s.tables, id);
    if id !in s.cache && r.Ok? then s.(cache := s.cache[id := r.value]) else s
  }

  function AfterLoads(codec: Codec, s: State, ids: seq<Id>): State {
    if ids == [] then s else AfterLoad(codec, AfterLoads(codec, s, ids[..|ids| - 1]), ids[|ids| - 1])
  }

  predicate AllLoadable(codec: Codec, s: State, ids: seq<Id>) {
    CHUNKS in s.tables && forall i :: 0 <= i < |ids| ==> ids[i] in s.cache || LoadInternal(codec, s.tables, ids[i]).Ok?
  }

  /** All of the chunks or none of them. */
  function AfterBatch(codec: Codec, s: State, ids: seq<Id>): State {
    if AllLoadable(codec, s, ids) then AfterLoads(codec, s, ids) else s
  }

  /** The chunk is loaded if it can be and then overwritten through the guard. */
  function AfterMutate(codec: Codec, s: State, id: Id, c: Chunk): State {
    var t := AfterLoad(codec, s, id);
    if id in t.cache then t.(cache := t.cache[id := c]) else t
  }

  function EntryOf(codec: Codec, cache: map<Id, Chunk>, id: Id, clean: bool): Entry
    requires id in cache
  {
    (KeyOf(codec, id), codec.encode(if clean then Cleaned(cache[id]) else cache[id]))
  }

  predicate Cached(cache: map<Id, Chunk>, order: seq<Id>) {
    forall i :: 0 <= i < |order| ==> order[i] in cache
  }

  function Entries(codec: Codec, cache: map<Id, Chunk>, order: seq<Id>, clean: bool): (r: seq<Entry>)
    requires Cached(cache, order)
    ensures |r| == |order|
  {
    if order == [] then []
    else Entries(codec, cache, order[..|order| - 1], clean) + [EntryOf(codec, cache, order[|order| - 1], clean)]
  }

  /** The store after writing the entries; the table is only created when there is something to write. */
  function Written(tables: Tables, entries: seq<Entry>): Tables {
    if entries == [] then tables else tables[CHUNKS := Upserts(Contents(tables, CHUNKS), entries)]
  }

  function AfterInsert(codec: Codec, s: State, id: Id, c: Chunk): State {
    s.(tables := Written(s.tables, [(KeyOf(codec, id), codec.encode(Cleaned(c)))]))
  }

  /** `order` lists each dirty chunk among `ids` once. */
  ghost predicate ListsDirty(cache: map<Id, Chunk>, ids: set<Id>, order: seq<Id>) {
    && (forall id :: id in order <==> id in ids && id in cache && Dirty(cache[id]))
    && forall i, j :: 0 <= i < j < |order| ==> order[i] != order[j]
  }

  /** Every dirty chunk is written as it is, marks included, and then marked clean in the cache. */
  function AfterSync(codec: Codec, s: State, order: seq<Id>): State
    requires Cached(s.cache, order)
  {
    State(map id | id in s.cache :: if id in order then Cleaned(s.cache[id]) else s.cache[id],
          Written(s.tables, Entries(codec, s.cache, order, false)))
  }

  /** Dirty chunks are written back, marks cleared, and the chunks `gone` leave the cache. */
  function AfterUnload(codec: Codec, s: State, gone: set<Id>, order: seq<Id>): State
    requires Cached(s.cache, order)
  {
    State(s.cache - gone, Written(s.tables, Entries(codec, s.cache, order, true)))
  }

  const OVERWORLD := "overworld"

  /** The chunks the unloader takes out of the cache while players are online: those at a position no player has
      loaded, in the overworld only. */
  function Invisible(cache: map<Id, Chunk>, visible: set<ChunkPos>): set<Id> {
    set id | id in cache && id.dimension == OVERWORLD && id.pos !in visible
  }

  function AfterDelete(codec: Codec, s: State, id: Id): State {
    State(s.cache - {id},
          if KeyOf(codec, id) in Contents(s.tables, CHUNKS)
          then s.tables[CHUNKS := Contents(s.tables, CHUNKS) - {KeyOf(codec, id)}] else s.tables)
  }

  function AfterGenerate(codec: Codec, s: State, id: Id, c: Chunk): State {
    AfterLoad(codec, if Exists(codec, s, id) then s else AfterInsert(codec, s, id, c), id)
  }

  datatype Op =
    | Load(id: Id)
    | LoadBatch(ids: seq<Id>)
    | Mutate(id: Id, chunk: Chunk)
    | Sync(order: seq<Id>)
    | ClearAll(order: seq<Id>)
    | Evict(visible: set<ChunkPos>, order: seq<Id>)
    | Delete(id: Id)
    | Generate(id: Id, chunk: Chunk)
    | Insert(id: Id, chunk: Chunk)

  function After(codec: Codec, s: State, op: Op): State
    requires op.Sync? || op.ClearAll? || op.Evict? ==> Cached(s.cache, op.order)
  {
    match op
    case Load(id) => AfterLoad(codec, s, id)
    case LoadBatch(ids) => AfterBatch(codec, s, ids)
    case Mutate(id, c) => AfterMutate(codec, s, id, c)
    case Sync(order) => AfterSync(codec, s, order)
    case ClearAll(order) => AfterUnload(codec, s, s.cache.Keys, order)
    case Evict(visible, order) => AfterUnload(codec, s, Invisible(s.cache, visible), order)
    case Delete(id) => AfterDelete(codec, s, id)
    case Generate(id, c) => AfterGenerate(codec, s, id, c)
    case Insert(id, c) => AfterInsert(codec, s, id, c)
  }

  /** What an operation may be, all chunks being taken from `space`: a mutation marks what it changes; a chunk is
      only inserted where the cache holds nothing else; the orders are those in which the hash map yields the
      dirty chunks. */
  ghost predicate Possible(s: State, op: Op, space: iset<Id>) {
    match op
    case Load(id) => id in space
    case LoadBatch(ids) => forall i :: 0 <= i < |ids| ==> ids[i] in space
    case Mutate(id, c) => id in space && Dirty(c)
    case Sync(order) => ListsDirty(s.cache, s.cache.Keys, order)
    case ClearAll(order) => ListsDirty(s.cache, s.cache.Keys, order)
    case Evict(visible, order) => ListsDirty(s.cache, Invisible(s.cache, visible), order)
    case Delete(id) => id in space
    case Generate(id, _) => id in space
    case Insert(id, c) => id in space && AgreesWithCache(s, id, c)
  }

  predicate AgreesWithCache(s: State, id: Id, c: Chunk) {
    id in s.cache ==> Blocks(s.cache[id]) == Blocks(c)
  }

  /** The plain map: what the operation does to the content recorded for one position. */
  function Plain(op: Op, id: Id, v: Option<Content>): Option<Content> {
    match op
    case Mutate(at, c) => if at == id && v.Some? then Some(Blocks(c)) else v
    case Delete(at) => if at == id then None else v
    case Generate(at, c) => if at == id && v.None? then Some(Blocks(c)) else v
    case Insert(at, c) => if at == id then Some(Blocks(c)) else v
    case _ => v
  }

  // ---------------------------------------------------------------------------------------------
  // The invariant
  // ---------------------------------------------------------------------------------------------

  /** Different chunks of `space` have different keys. */
  ghost predicate Injective(codec: Codec, space: iset<Id>) {
    forall a, b :: a in space && b in space && KeyOf(codec, a) == KeyOf(codec, b) ==> a == b
  }

  ghost predicate Decodable(codec: Codec, tables: Tables) {
    forall k :: k in Contents(tables, CHUNKS) ==> codec.decode(Contents(tables, CHUNKS)[k]).Some?
  }

  /** A clean cached chunk equals its stored copy. */
  ghost predicate CleanIsStored(codec: Codec, s: State) {
    forall id :: id in s.cache && !Dirty(s.cache[id]) ==> Stored(codec, s.tables, id) == Some(Blocks(s.cache[id]))
  }

  ghost predicate Inv(codec: Codec, s: State, space: iset<Id>) {
    (forall id :: id in s.cache ==> id in space) && Decodable(codec, s.tables) && CleanIsStored(codec, s)
  }

  /** What the cache and the codec rely on. */
  ghost predicate Sound(codec: Codec, space: iset<Id>) {
    RoundTrips(codec) && Injective(codec, space)
  }

  /** Writing to the store changes what is stored for the chunks written, and for no other. */
  lemma {:induction false} WrittenAt(codec: Codec, cache: map<Id, Chunk>, order: seq<Id>, clean: bool,
                                     tables: Tables, space: iset<Id>, id: Id)
    requires Sound(codec, space) && id in space && Cached(cache, order)
    requires forall i :: 0 <= i < |order| ==> order[i] in space
    ensures var t := Contents(Written(tables, Entries(codec, cache, order, clean)), CHUNKS);
            if id in order then KeyOf(codec, id) in t && t[KeyOf(codec, id)] == EntryOf(codec, cache, id, clean).1
            else (KeyOf(codec, id) in t <==> KeyOf(codec, id) in Contents(tables, CHUNKS)) &&
                 (KeyOf(codec, id) in t ==> t[KeyOf(codec, id)] == Contents(tables, CHUNKS)[KeyOf(codec, id)])
  {
    hide CreateKey;
    if order != [] {
      var pre, last := order[..|order| - 1], order[|order| - 1];
      WrittenAt(codec, cache, pre, clean, tables, space, id);
      WrittenSnoc(tables, Entries(codec, cache, pre, clean), EntryOf(codec, cache, last, clean));
      assert order == pre + [last];
    }
  }

  lemma WrittenSnoc(tables: Tables, es: seq<Entry>, e: Entry)
    ensures Contents(Written(tables, es + [e]), CHUNKS) == Contents(Written(tables, es), CHUNKS)[e.0 := e.1]
    ensures Written(tables, es + [e]) == Written(Written(tables, es), [e])
  {
    UpsertsSnoc(Contents(tables, CHUNKS), es, e);
    assert [] + [e] == [e];
    UpsertsSnoc(Contents(Written(tables, es), CHUNKS), [], e);
  }

  lemma StoredAfterWrite(codec: Codec, cache: map<Id, Chunk>, order: seq<Id>, clean: bool,
                         tables: Tables, space: iset<Id>, id: Id)
    requires Sound(codec, space) && id in space && Cached(cache, order)
    requires forall i :: 0 <= i < |order| ==> order[i] in space
    ensures Stored(codec, Written(tables, Entries(codec, cache, order, clean)), id) ==
            if id in order then Some(Blocks(cache[id])) else Stored(codec, tables, id)
  {
    WrittenAt(codec, cache, order, clean, tables, space, id);
  }

  lemma {:induction false} WriteKeepsDecodable(codec: Codec, cache: map<Id, Chunk>, order: seq<Id>, clean: bool,
                                               tables: Tables)
    requires RoundTrips(codec) && Cached(cache, order) && Decodable(codec, tables)
    ensures Decodable(codec, Written(tables, Entries(codec, cache, order, clean)))
  {
    if order != [] {
      var pre, last := order[..|order| - 1], order[|order| - 1];
      WriteKeepsDecodable(codec, cache, pre, clean, tables);
      WrittenSnoc(tables, Entries(codec, cache, pre, clean), EntryOf(codec, cache, last, clean));
    }
  }

  // ---------------------------------------------------------------------------------------------
  // One step
  // ---------------------------------------------------------------------------------------------

  /** The step keeps the invariant and does to every position what the plain map does. */
  ghost predicate Refines(codec: Codec, space: iset<Id>, s: State, t: State, op: Op) {
    && Inv(codec, t, space)
    && forall id :: id in space ==> View(codec, t, id) == Plain(op, id, View(codec, s, id))
  }

  lemma LoadRefines(codec: Codec, space: iset<Id>, s: State, id: Id)
    requires Inv(codec, s, space) && id in space
    ensures Inv(codec, AfterLoad(codec, s, id), space)
    ensures forall k :: View(codec, AfterLoad(codec, s, id), k) == View(codec, s, k)
    ensures AfterLoad(codec, s, id).tables == s.tables
    ensures id in AfterLoad(codec, s, id).cache <==> View(codec, s, id).Some?
  {
    hide KeyOf, Blocks;
  }

  lemma {:induction false} LoadsRefine(codec: Codec, space: iset<Id>, s: State, ids: seq<Id>)
    requires Inv(codec, s, space) && forall i :: 0 <= i < |ids| ==> ids[i] in space
    ensures Inv(codec, AfterLoads(codec, s, ids), space)
    ensures forall k :: View(codec, AfterLoads(codec, s, ids), k) == View(codec, s, k)
  {
    if ids != [] {
      LoadsRefine(codec, space, s, ids[..|ids| - 1]);
      LoadRefines(codec, space, AfterLoads(codec, s, ids[..|ids| - 1]), ids[|ids| - 1]);
    }
  }

  lemma MutateRefines(codec: Codec, space: iset<Id>, s: State, op: Op)
    requires Inv(codec, s, space) && op.Mutate? && Possible(s, op, space)
    ensures Refines(codec, space, s, After(codec, s, op), op)
  {
    var l := AfterLoad(codec, s, op.id);
    LoadRefines(codec, space, s, op.id);
    if op.id in l.cache {
      assert After(codec, s, op) == l.(cache := l.cache[op.id := op.chunk]);
    } else {
      assert After(codec, s, op) == l;
    }
    hide AfterLoad, AfterMutate, Inv, View, Blocks, Dirty;
  }

  lemma ListedIsCached(cache: map<Id, Chunk>, ids: set<Id>, order: seq<Id>)
    requires ListsDirty(cache, ids, order)
    ensures Cached(cache, order)
  {
    forall i | 0 <= i < |order|
      ensures order[i] in cache
    {
      assert order[i] in order;
    }
  }

  lemma SyncRefines(codec: Codec, space: iset<Id>, s: State, op: Op)
    requires Sound(codec, space) && Inv(codec, s, space) && op.Sync? && Possible(s, op, space)
    ensures Cached(s.cache, op.order) && Refines(codec, space, s, After(codec, s, op), op)
  {
    var order, t := op.order, AfterSync(codec, s, op.order);
    ListedIsCached(s.cache, s.cache.Keys, order);
    WriteKeepsDecodable(codec, s.cache, order, false, s.tables);
    forall id | id in space
      ensures View(codec, t, id) == View(codec, s, id)
      ensures id in s.cache ==> Stored(codec, t.tables, id) == Some(Blocks(s.cache[id]))
    {
      StoredAfterWrite(codec, s.cache, order, false, s.tables, space, id);
    }
  }

  lemma UnloadRefines(codec: Codec, space: iset<Id>, s: State, gone: set<Id>, order: seq<Id>)
    requires Sound(codec, space) && Inv(codec, s, space) && ListsDirty(s.cache, gone, order)
    ensures Cached(s.cache, order) && Inv(codec, AfterUnload(codec, s, gone, order), space)
    ensures forall id :: id in space ==> View(codec, AfterUnload(codec, s, gone, order), id) == View(codec, s, id)
  {
    ListedIsCached(s.cache, gone, order);
    var t := AfterUnload(codec, s, gone, order);
    WriteKeepsDecodable(codec, s.cache, order, true, s.tables);
    forall id | id in space
      ensures View(codec, t, id) == View(codec, s, id)
      ensures id in t.cache ==> Stored(codec, t.tables, id) == Stored(codec, s.tables, id)
    {
      StoredAfterWrite(codec, s.cache, order, true, s.tables, space, id);
    }
  }

  lemma DeleteRefines(codec: Codec, space: iset<Id>, s: State, op: Op)
    requires Sound(codec, space) && Inv(codec, s, space) && op.Delete? && Possible(s, op, space)
    ensures Refines(codec, space, s, After(codec, s, op), op)
  {
    var t := After(codec, s, op);
    hide Blocks, Dirty, CreateKey;
    forall id | id in space
      ensures Stored(codec, t.tables, id) == if id == op.id then None else Stored(codec, s.tables, id)
    {
    }
  }

  lemma InsertStores(codec: Codec, space: iset<Id>, s: State, at: Id, c: Chunk, id: Id)
    requires Sound(codec, space) && at in space && id in space
    ensures Stored(codec, AfterInsert(codec, s, at, c).tables, id) ==
            if id == at then Some(Blocks(c)) else Stored(codec, s.tables, id)
  {
    hide CreateKey, Cleaned;
    UpsertsSnoc(Contents(s.tables, CHUNKS), [], (KeyOf(codec, at), codec.encode(Cleaned(c))));
    assert [] + [(KeyOf(codec, at), codec.encode(Cleaned(c)))] == [(KeyOf(codec, at), codec.encode(Cleaned(c)))];
  }

  lemma InsertDecodable(codec: Codec, s: State, at: Id, c: Chunk)
    requires RoundTrips(codec) && Decodable(codec, s.tables)
    ensures Decodable(codec, AfterInsert(codec, s, at, c).tables)
  {
    var e := (KeyOf(codec, at), codec.encode(Cleaned(c)));
    WrittenSnoc(s.tables, [], e);
    assert [] + [e] == [e];
  }

  /** `insert_chunk` writes the store only: the view becomes the new chunk exactly when the cache holds nothing
      else there, and the invariant survives exactly when that or the cached chunk is dirty. */
  lemma InsertExactly(codec: Codec, space: iset<Id>, s: State, at: Id, c: Chunk)
    requires Sound(codec, space) && Inv(codec, s, space) && at in space
    ensures View(codec, AfterInsert(codec, s, at, c), at) == Some(Blocks(c)) <==> AgreesWithCache(s, at, c)
    ensures Inv(codec, AfterInsert(codec, s, at, c), space) <==>
            AgreesWithCache(s, at, c) || Dirty(s.cache[at])
    ensures forall id :: id in space && id != at ==>
              View(codec, AfterInsert(codec, s, at, c), id) == View(codec, s, id)
  {
    var t := AfterInsert(codec, s, at, c);
    forall id | id in space
      ensures Stored(codec, t.tables, id) == if id == at then Some(Blocks(c)) else Stored(codec, s.tables, id)
    {
      InsertStores(codec, space, s, at, c, id);
    }
    InsertDecodable(codec, s, at, c);
  }

  lemma GenerateRefines(codec: Codec, space: iset<Id>, s: State, op: Op)
    requires Sound(codec, space) && Inv(codec, s, space) && op.Generate? && Possible(s, op, space)
    ensures Refines(codec, space, s, After(codec, s, op), op)
  {
    assert Exists(codec, s, op.id) <==> View(codec, s, op.id).Some? by {
      hide CreateKey, Blocks;
    }
    if Exists(codec, s, op.id) {
      LoadRefines(codec, space, s, op.id);
    } else {
      InsertExactly(codec, space, s, op.id, op.chunk);
      LoadRefines(codec, space, AfterInsert(codec, s, op.id, op.chunk), op.id);
    }
  }

  lemma StepRefines(codec: Codec, space: iset<Id>, s: State, op: Op)
    requires Sound(codec, space) && Inv(codec, s, space) && Possible(s, op, space)
    ensures op.Sync? || op.ClearAll? || op.Evict? ==> Cached(s.cache, op.order)
    ensures Refines(codec, space, s, After(codec, s, op), op)
  {
    match op
    case Load(id) => LoadRefines(codec, space, s, id);
    case LoadBatch(ids) => LoadsRefine(codec, space, s, ids);
    case Mutate(_, _) => MutateRefines(codec, space, s, op);
    case Sync(_) => SyncRefines(codec, space, s, op);
    case ClearAll(order) => UnloadRefines(codec, space, s, s.cache.Keys, order);
    case Evict(visible, order) => UnloadRefines(codec, space, s, Invisible(s.cache, visible), order);
    case Delete(_) => DeleteRefines(codec, space, s, op);
    case Generate(_, _) => GenerateRefines(codec, space, s, op);
    case Insert(id, c) => InsertExactly(codec, space, s, id, c);
  }
}
