/** Applying a reduced batch of fluid changes to the loaded chunks. */
module FluidApply {
  import opened Options
  import opened Positions
  import opened FluidBatch

  /** The loaded chunks; a place a chunk does not mention holds air. */
  type Loaded = map<ChunkPos, map<ChunkBlockPos, nat>>

  datatype Cell = Cell(chunk: ChunkPos, block: ChunkBlockPos)

  function CellOf(p: BlockPos): Cell
    requires HasChunk(p)
  {
    Cell(ChunkOf(p), InChunk(p))
  }

  /** The block at a cell, unless its chunk is not loaded. */
  function BlockIn(blocks: Blocks, w: Loaded, cell: Cell): Option<nat> {
    if cell.chunk !in w then None
    else if cell.block in w[cell.chunk] then Some(w[cell.chunk][cell.block])
    else Some(blocks.air)
  }

  function Put(w: Loaded, cell: Cell, b: nat): Loaded
    requires cell.chunk in w
  {
    var chunk: map<ChunkBlockPos, nat> := w[cell.chunk][cell.block := b];
    w[cell.chunk := chunk]
  }

  /** A change is made in a loaded chunk, if it changes something and does not put fluid over a solid block. */
  predicate Applies(blocks: Blocks, w: Loaded, c: FluidChange)
    requires HasChunk(c.pos)
  {
    var current := BlockIn(blocks, w, CellOf(c.pos));
    && current.Some? && current.value != c.newBlock
    && !(blocks.IsFluid(c.newBlock) && blocks.IsSolid(current.value))
  }

  function AfterChange(blocks: Blocks, w: Loaded, c: FluidChange): Loaded
    requires HasChunk(c.pos)
  {
    if Applies(blocks, w, c) then Put(w, CellOf(c.pos), c.newBlock) else w
  }

  predicate Reachable(cs: seq<FluidChange>) {
    forall i :: 0 <= i < |cs| ==> HasChunk(cs[i].pos)
  }

  function AfterChanges(blocks: Blocks, w: Loaded, cs: seq<FluidChange>): Loaded
    requires Reachable(cs)
  {
    if cs == [] then w else AfterChange(blocks, AfterChanges(blocks, w, cs[..|cs| - 1]), cs[|cs| - 1])
  }

  /** The changes that were made, in order. */
  function Made(blocks: Blocks, w: Loaded, cs: seq<FluidChange>): seq<FluidChange>
    requires Reachable(cs)
  {
    if cs == [] then []
    else
      var pre, c := cs[..|cs| - 1], cs[|cs| - 1];
      Made(blocks, w, pre) + if Applies(blocks, AfterChanges(blocks, w, pre), c) then [c] else []
  }

  class ChunkCache {
    const blocks: Blocks
    var chunks: Loaded

    constructor (blocks: Blocks, chunks: Loaded)
      ensures this.blocks == blocks && this.chunks == chunks
    {
      this.blocks, this.chunks := blocks, chunks;
    }

    method ApplyChange(change: FluidChange) returns (changed: bool)
      requires HasChunk(change.pos)
      modifies this
      ensures changed == Applies(blocks, old(chunks), change) && chunks == AfterChange(blocks, old(chunks), change)
    {
      var chunkPos, blockPos := ChunkOf(change.pos), InChunk(change.pos);
      if chunkPos !in chunks {
        return false;
      }
      var chunk: map<ChunkBlockPos, nat> := chunks[chunkPos];
      var current := if blockPos in chunk then chunk[blockPos] else blocks.air;
      if current == change.newBlock {
        return false;
      }
      if blocks.IsFluid(change.newBlock) && blocks.IsSolid(current) {
        return false;
      }
      chunk := chunk[blockPos := change.newBlock];
      chunks := chunks[chunkPos := chunk];
      changed := true;
    }

    /** Applies the changes in order; `broadcast` is what the players nearby are told. */
    method ApplyChanges(changes: seq<FluidChange>) returns (broadcast: seq<FluidChange>)
      requires Reachable(changes)
      modifies this
      ensures chunks == AfterChanges(blocks, old(chunks), changes)
      ensures broadcast == Made(blocks, old(chunks), changes)
    {
      broadcast := [];
      for i := 0 to |changes|
        invariant chunks == AfterChanges(blocks, old(chunks), changes[..i])
        invariant broadcast == Made(blocks, old(chunks), changes[..i])
      {
        assert changes[..i + 1][..i] == changes[..i];
        var changed := ApplyChange(changes[i]);
        if changed {
          broadcast := broadcast + [changes[i]];
        }
      }
      assert changes[..|changes|] == changes;
    }
  }

  // ---------------------------------------------------------------------------------------------
  // The whole list at one cell
  // ---------------------------------------------------------------------------------------------

  ghost predicate DistinctCells(cs: seq<FluidChange>)
    requires Reachable(cs)
  {
    forall i, j :: 0 <= i < j < |cs| ==> CellOf(cs[i].pos) != CellOf(cs[j].pos)
  }

  predicate Hits(cs: seq<FluidChange>, i: nat, cell: Cell)
    requires Reachable(cs)
  {
    i < |cs| && CellOf(cs[i].pos) == cell
  }

  /** What one change leaves of one block: fluid never replaces a solid block, nothing happens where nothing is
      loaded. */
  function Outcome(blocks: Blocks, current: Option<nat>, c: FluidChange): Option<nat> {
    if current.None? || (blocks.IsFluid(c.newBlock) && blocks.IsSolid(current.value)) then current
    else Some(c.newBlock)
  }

  lemma ChangeAt(blocks: Blocks, w: Loaded, c: FluidChange, cell: Cell)
    requires HasChunk(c.pos)
    ensures BlockIn(blocks, AfterChange(blocks, w, c), cell) ==
            if CellOf(c.pos) == cell then Outcome(blocks, BlockIn(blocks, w, cell), c) else BlockIn(blocks, w, cell)
  {
  }

  /** With at most one change per cell the list acts on every cell on its own. */
  lemma {:induction false} ChangesAt(blocks: Blocks, w: Loaded, cs: seq<FluidChange>, cell: Cell)
    requires Reachable(cs) && DistinctCells(cs)
    ensures forall i: nat :: Hits(cs, i, cell) ==>
              BlockIn(blocks, AfterChanges(blocks, w, cs), cell) == Outcome(blocks, BlockIn(blocks, w, cell), cs[i])
    ensures (forall i: nat :: !Hits(cs, i, cell)) ==>
              BlockIn(blocks, AfterChanges(blocks, w, cs), cell) == BlockIn(blocks, w, cell)
  {
    if cs != [] {
      var pre, c := cs[..|cs| - 1], cs[|cs| - 1];
      ChangesAt(blocks, w, pre, cell);
      ChangeAt(blocks, AfterChanges(blocks, w, pre), c, cell);
      hide HasChunk, CellOf, BlockIn, Outcome, AfterChange;
      assert forall i: nat :: i < |pre| ==> pre[i] == cs[i];
      assert forall i: nat :: Hits(cs, i, cell) <==> Hits(pre, i, cell) || (i == |pre| && CellOf(c.pos) == cell);
      if CellOf(c.pos) == cell {
        assert forall i: nat :: !Hits(pre, i, cell);
        assert Hits(cs, |pre|, cell);
      }
    }
  }

  /** THE CELL, exactly, in terms of the blocks themselves: in a loaded chunk it becomes what the change says, except
      where a fluid meets a block that is neither fluid nor one of the two kinds of air; an unloaded chunk stays
      unloaded. */
  lemma CellExactly(blocks: Blocks, w: Loaded, cs: seq<FluidChange>, i: nat)
    requires Reachable(cs) && DistinctCells(cs) && i < |cs|
    ensures var c, t := cs[i], AfterChanges(blocks, w, cs);
            var chunk, b := ChunkOf(c.pos), InChunk(c.pos);
            && (chunk !in w ==> chunk !in t)
            && (chunk in w ==>
                  && chunk in t
                  && var before := if b in w[chunk] then w[chunk][b] else blocks.air;
                  var after := if b in t[chunk] then t[chunk][b] else blocks.air;
                  after == if c.newBlock in blocks.levels && before !in blocks.levels && before != blocks.air
                              && before != blocks.voidAir
                           then before else c.newBlock)
  {
    var cell := CellOf(cs[i].pos);
    assert Hits(cs, i, cell);
    ChangesAt(blocks, w, cs, cell);
    hide ChunkOf, InChunk, AfterChanges, HasChunk;
  }

  /** Both lists make the same world of it, cell by cell. */
  ghost predicate SameWorld(blocks: Blocks, v: Loaded, w: Loaded) {
    forall cell :: BlockIn(blocks, v, cell) == BlockIn(blocks, w, cell)
  }

  /** ORDER.  Applying changes with distinct cells gives the same world in any order. */
  lemma OrderDoesNotMatter(blocks: Blocks, w: Loaded, a: seq<FluidChange>, b: seq<FluidChange>)
    requires Reachable(a) && Reachable(b) && DistinctCells(a) && DistinctCells(b)
    requires forall c :: c in a <==> c in b
    ensures SameWorld(blocks, AfterChanges(blocks, w, a), AfterChanges(blocks, w, b))
  {
    hide CellOf, BlockIn, Outcome, AfterChanges, HasChunk;
    forall cell
      ensures BlockIn(blocks, AfterChanges(blocks, w, a), cell) == BlockIn(blocks, AfterChanges(blocks, w, b), cell)
    {
      ChangesAt(blocks, w, a, cell);
      ChangesAt(blocks, w, b, cell);
      if i: nat :| Hits(a, i, cell) {
        assert a[i] in b;
        var j: nat :| j < |b| && b[j] == a[i];
        assert Hits(b, j, cell);
      } else if j: nat :| Hits(b, j, cell) {
        assert b[j] in a;
        var i: nat :| i < |a| && a[i] == b[j];
        assert !Hits(a, i, cell);
      }
    }
  }

  /** Over the whole batch no solid block turns into fluid. */
  lemma SolidStaysDry(blocks: Blocks, w: Loaded, cs: seq<FluidChange>, cell: Cell)
    requires Reachable(cs) && DistinctCells(cs)
    requires BlockIn(blocks, w, cell).Some? && blocks.IsSolid(BlockIn(blocks, w, cell).value)
    ensures var after := BlockIn(blocks, AfterChanges(blocks, w, cs), cell);
            after.Some? && !blocks.IsFluid(after.value)
  {
    ChangesAt(blocks, w, cs, cell);
    hide CellOf, BlockIn, AfterChanges, HasChunk;
    if i: nat :| Hits(cs, i, cell) {
    }
  }

  /** No change list, reduced or not, loads or unloads a chunk. */
  lemma {:induction false} NothingIsLoaded(blocks: Blocks, w: Loaded, cs: seq<FluidChange>)
    requires Reachable(cs)
    ensures AfterChanges(blocks, w, cs).Keys == w.Keys
  {
    if cs != [] {
      NothingIsLoaded(blocks, w, cs[..|cs| - 1]);
    }
  }

  /** A settled batch is silent: applying the same changes again makes none of them. */
  lemma {:induction false} ReapplyingIsSilent(blocks: Blocks, w: Loaded, cs: seq<FluidChange>, k: nat)
    requires Reachable(cs) && DistinctCells(cs) && k <= |cs|
    ensures Made(blocks, AfterChanges(blocks, w, cs), cs[..k]) == []
    ensures AfterChanges(blocks, AfterChanges(blocks, w, cs), cs[..k]) == AfterChanges(blocks, w, cs)
  {
    if k > 0 {
      ReapplyingIsSilent(blocks, w, cs, k - 1);
      assert cs[..k][..k - 1] == cs[..k - 1];
      var cell := CellOf(cs[k - 1].pos);
      ChangesAt(blocks, w, cs, cell);
      assert Hits(cs, k - 1, cell);
    }
  }

  // ---------------------------------------------------------------------------------------------
  // What the players are told
  // ---------------------------------------------------------------------------------------------

  /** A client that is told of block changes sets the blocks without asking. */
  function Received(w: Loaded, cs: seq<FluidChange>): Loaded
    requires Reachable(cs)
  {
    if cs == [] then w
    else
      var v, c := Received(w, cs[..|cs| - 1]), cs[|cs| - 1];
      if CellOf(c.pos).chunk in v then Put(v, CellOf(c.pos), c.newBlock) else v
  }

  /** The broadcast is exactly what a client that held the same blocks needs: it then holds the world after. */
  lemma {:induction false} BroadcastIsEnough(blocks: Blocks, w: Loaded, cs: seq<FluidChange>)
    requires Reachable(cs)
    ensures Reachable(Made(blocks, w, cs))
    ensures Received(w, Made(blocks, w, cs)) == AfterChanges(blocks, w, cs)
  {
    if cs != [] {
      var pre, c := cs[..|cs| - 1], cs[|cs| - 1];
      BroadcastIsEnough(blocks, w, pre);
      var made := Made(blocks, w, pre);
      if Applies(blocks, AfterChanges(blocks, w, pre), c) {
        assert (made + [c])[..|made|] == made;
      } else {
        assert made + [] == made;
      }
    }
  }

  // ---------------------------------------------------------------------------------------------
  // Reduced batches
  // ---------------------------------------------------------------------------------------------

  predicate HeightsFit(cs: seq<FluidChange>) {
    forall i :: 0 <= i < |cs| ==> -0x8000 <= cs[i].pos.y < 0x8000
  }

  /** A reduced batch whose heights fit `i16` changes no cell twice. */
  lemma ReducedCellsDistinct(m: ByPosition, cs: seq<FluidChange>)
    requires ListsMap(m, cs) && Reachable(cs) && HeightsFit(cs)
    ensures DistinctCells(cs)
  {
    forall i, j | 0 <= i < j < |cs|
      ensures CellOf(cs[i].pos) != CellOf(cs[j].pos)
    {
      BlockRoundTrip(cs[i].pos);
      BlockRoundTrip(cs[j].pos);
    }
  }

  /** DETERMINISM.  Whatever the number of workers, the order of completion and the order in which the reduced
      changes come out of the hash map, the world after the batch is the same. */
  lemma BatchIsDeterministic(blocks: Blocks, evaluate: Evaluator, due: seq<BlockPos>, again: seq<BlockPos>,
                             w: Loaded, a: seq<FluidChange>, b: seq<FluidChange>)
    requires forall p :: p in due <==> p in again
    requires ListsMap(Reduce(blocks, Proposals(evaluate, due)), a)
    requires ListsMap(Reduce(blocks, Proposals(evaluate, again)), b)
    requires Reachable(a) && Reachable(b) && HeightsFit(a) && HeightsFit(b)
    ensures SameWorld(blocks, AfterChanges(blocks, w, a), AfterChanges(blocks, w, b))
  {
    BatchIgnoresOrder(blocks, evaluate, due, again);
    ReducedCellsDistinct(Reduce(blocks, Proposals(evaluate, due)), a);
    ReducedCellsDistinct(Reduce(blocks, Proposals(evaluate, again)), b);
    OrderDoesNotMatter(blocks, w, a, b);
  }

  /** Without reduction a solid block can turn into fluid: emptied by one change, filled by the next. */
  lemma UnreducedListEatsSolid(blocks: Blocks, p: BlockPos, stone: nat, water: nat)
    requires HasChunk(p) && blocks.IsSolid(stone) && blocks.IsFluid(water) && !blocks.IsFluid(blocks.air)
    ensures var w := map[ChunkOf(p) := map[InChunk(p) := stone]];
            var cs := [FluidChange(p, blocks.air, false, false), FluidChange(p, water, false, false)];
            Reachable(cs) && BlockIn(blocks, AfterChanges(blocks, w, cs), CellOf(p)) == Some(water)
  {
    hide ChunkOf, InChunk;
    var w := map[ChunkOf(p) := map[InChunk(p) := stone]];
    var c, d := FluidChange(p, blocks.air, false, false), FluidChange(p, water, false, false);
    assert [c, d][..1] == [c] && [c][..0] == [];
    assert AfterChanges(blocks, w, [c]) == AfterChange(blocks, w, c);
    ChangeAt(blocks, w, c, CellOf(p));
    ChangeAt(blocks, AfterChange(blocks, w, c), d, CellOf(p));
  }

  /** Outside `i16` two positions of a reduced batch can share a cell, and then the order shows. */
  lemma SharedCellShowsOrder(blocks: Blocks, p: BlockPos, stone: nat, rock: nat)
    requires HasChunk(p) && HasChunk(p.(y := p.y + TWO_16)) && blocks.IsSolid(stone) && blocks.IsSolid(rock)
    requires stone != rock
    ensures var w: Loaded := map[ChunkOf(p) := map[]];
            var c, d := FluidChange(p, stone, false, true), FluidChange(p.(y := p.y + TWO_16), rock, false, true);
            && Reachable([c, d]) && Reachable([d, c])
            && BlockIn(blocks, AfterChanges(blocks, w, [c, d]), CellOf(p)) !=
               BlockIn(blocks, AfterChanges(blocks, w, [d, c]), CellOf(p))
  {
    var q := p.(y := p.y + TWO_16);
    SharedPlaces(p, q);
    assert CellOf(p) == CellOf(q);
    hide ChunkOf, InChunk, CellOf;
    var w: Loaded := map[CellOf(p).chunk := map[]];
    var c, d := FluidChange(p, stone, false, true), FluidChange(q, rock, false, true);
    TwoChanges(blocks, w, c, d);
    TwoChanges(blocks, w, d, c);
  }

  lemma TwoChanges(blocks: Blocks, w: Loaded, c: FluidChange, d: FluidChange)
    requires HasChunk(c.pos) && HasChunk(d.pos) && CellOf(c.pos) == CellOf(d.pos) && CellOf(c.pos).chunk in w
    requires blocks.IsSolid(c.newBlock) && blocks.IsSolid(d.newBlock)
    ensures BlockIn(blocks, AfterChanges(blocks, w, [c, d]), CellOf(c.pos)) == Some(d.newBlock)
  {
    assert [c, d][..1] == [c] && [c][..0] == [];
    assert AfterChanges(blocks, w, [c]) == AfterChange(blocks, w, c);
    ChangeAt(blocks, w, c, CellOf(c.pos));
    ChangeAt(blocks, AfterChange(blocks, w, c), d, CellOf(c.pos));
  }
}
