/** Evaluating a batch of fluid ticks: every tick proposes block changes, the proposals are reduced to one change
    per position, and spreading the work over a thread pool makes no difference. */
module FluidBatch {
  import opened Positions

  datatype FluidChange = FluidChange(pos: BlockPos, newBlock: nat, reschedule: bool, fizz: bool)

  /** The fluid table, from raw block state id to fluid level, and the two kinds of air. */
  datatype Blocks = Blocks(levels: map<nat, nat>, air: nat, voidAir: nat) {
    predicate IsFluid(b: nat) {
      b in levels
    }

    predicate IsSolid(b: nat) {
      b != air && b != voidAir && !IsFluid(b)
    }
  }

  datatype Priority = Priority(tier: nat, level: int, raw: nat)

  predicate Above(a: Priority, b: Priority) {
    a.tier > b.tier || (a.tier == b.tier && (a.level > b.level || (a.level == b.level && a.raw > b.raw)))
  }

  function ChangePriority(blocks: Blocks, c: FluidChange): Priority {
    if c.fizz then Priority(3, 0, c.newBlock)
    else if blocks.IsFluid(c.newBlock) then Priority(2, -(blocks.levels[c.newBlock] as int), c.newBlock)
    else Priority(1, 0, c.newBlock)
  }

  predicate Outranks(blocks: Blocks, a: FluidChange, b: FluidChange) {
    Above(ChangePriority(blocks, a), ChangePriority(blocks, b))
  }

  /** What is left of two changes to one position. */
  function Merge(blocks: Blocks, existing: FluidChange, c: FluidChange): FluidChange {
    (if Outranks(blocks, c, existing) then c else existing).(reschedule := existing.reschedule || c.reschedule)
  }

  type ByPosition = map<BlockPos, FluidChange>

  function Reduce(blocks: Blocks, cs: seq<FluidChange>): ByPosition {
    if cs == [] then map[]
    else
      var pre, c := Reduce(blocks, cs[..|cs| - 1]), cs[|cs| - 1];
      pre[c.pos := if c.pos in pre then Merge(blocks, pre[c.pos], c) else c]
  }

  predicate At(cs: seq<FluidChange>, i: nat, p: BlockPos) {
    i < |cs| && cs[i].pos == p
  }

  /** `w` is the change the batch makes at `p`, stated without an order: the block and the effect of a proposal
      that no other outranks, and a follow-up tick if any proposal asks for one. */
  ghost predicate IsWinner(blocks: Blocks, cs: seq<FluidChange>, p: BlockPos, w: FluidChange) {
    && (exists i: nat :: At(cs, i, p) && w == cs[i].(reschedule := w.reschedule))
    && (forall i: nat :: At(cs, i, p) ==> !Outranks(blocks, cs[i], w))
    && (w.reschedule <==> exists i: nat :: At(cs, i, p) && cs[i].reschedule)
  }

  ghost predicate Touches(cs: seq<FluidChange>, p: BlockPos) {
    exists i: nat :: At(cs, i, p)
  }

  /** Equal priority forces the same block and the same effect, so nothing depends on which of two equals came
      first. */
  lemma TiesAgree(blocks: Blocks, a: FluidChange, b: FluidChange)
    requires !Outranks(blocks, a, b) && !Outranks(blocks, b, a)
    ensures a.newBlock == b.newBlock && a.fizz == b.fizz
  {
  }

  lemma WinnerIsUnique(blocks: Blocks, cs: seq<FluidChange>, p: BlockPos, v: FluidChange, w: FluidChange)
    requires IsWinner(blocks, cs, p, v) && IsWinner(blocks, cs, p, w)
    ensures v == w
  {
    var i: nat :| At(cs, i, p) && v == cs[i].(reschedule := v.reschedule);
    var j: nat :| At(cs, j, p) && w == cs[j].(reschedule := w.reschedule);
    TiesAgree(blocks, v, w);
  }

  lemma MergeWins(blocks: Blocks, cs: seq<FluidChange>, w: FluidChange, c: FluidChange)
    requires IsWinner(blocks, cs, c.pos, w)
    ensures IsWinner(blocks, cs + [c], c.pos, Merge(blocks, w, c))
  {
    var all, m, p := cs + [c], Merge(blocks, w, c), c.pos;
    hide ChangePriority;
    var k: nat :| At(cs, k, p) && w == cs[k].(reschedule := w.reschedule);
    assert At(all, |cs|, p) && At(all, k, p);
    assert forall i: nat :: At(all, i, p) <==> At(cs, i, p) || i == |cs|;
    assert forall i: nat :: At(cs, i, p) ==> all[i] == cs[i];
    SamePriority(blocks, m, if Outranks(blocks, c, w) then c else w);
    if w.reschedule {
      var j: nat :| At(cs, j, p) && cs[j].reschedule;
      assert At(all, j, p) && all[j].reschedule;
    }
  }

  lemma SamePriority(blocks: Blocks, a: FluidChange, b: FluidChange)
    requires a.newBlock == b.newBlock && a.fizz == b.fizz
    ensures ChangePriority(blocks, a) == ChangePriority(blocks, b)
  {
  }

  lemma FirstWins(blocks: Blocks, cs: seq<FluidChange>, c: FluidChange)
    requires !Touches(cs, c.pos)
    ensures IsWinner(blocks, cs + [c], c.pos, c)
  {
    var all := cs + [c];
    assert At(all, |cs|, c.pos);
    assert forall i: nat :: At(all, i, c.pos) ==> At(cs, i, c.pos) || i == |cs|;
  }

  lemma OtherPosition(blocks: Blocks, cs: seq<FluidChange>, c: FluidChange, p: BlockPos, w: FluidChange)
    requires c.pos != p
    ensures Touches(cs + [c], p) <==> Touches(cs, p)
    ensures IsWinner(blocks, cs, p, w) ==> IsWinner(blocks, cs + [c], p, w)
  {
    hide Outranks;
    var all := cs + [c];
    assert forall i: nat :: At(all, i, p) <==> At(cs, i, p);
    assert forall i: nat :: At(cs, i, p) ==> all[i] == cs[i];
  }

  /** REDUCTION.  The reduced batch has one change for every position proposed, and it is the winner. */
  lemma {:induction false} ReduceWins(blocks: Blocks, cs: seq<FluidChange>, p: BlockPos)
    ensures p in Reduce(blocks, cs) <==> Touches(cs, p)
    ensures p in Reduce(blocks, cs) ==> Reduce(blocks, cs)[p].pos == p && IsWinner(blocks, cs, p, Reduce(blocks, cs)[p])
  {
    if cs != [] {
      var pre, c := cs[..|cs| - 1], cs[|cs| - 1];
      assert cs == pre + [c];
      ReduceWins(blocks, pre, p);
      hide IsWinner, Merge;
      if c.pos != p {
        OtherPosition(blocks, pre, c, p, if p in Reduce(blocks, pre) then Reduce(blocks, pre)[p] else c);
      } else {
        assert At(cs, |pre|, p);
        if p in Reduce(blocks, pre) {
          MergeWins(blocks, pre, Reduce(blocks, pre)[p], c);
        } else {
          FirstWins(blocks, pre, c);
        }
      }
    }
  }

  /** What wins, in terms of blocks.  Where anything is proposed the change made is one of the proposals, with a follow-up
      tick if any of them asks for one.  A solidification wins over everything else, a fluid over what is none, the
      lower level over the higher, and between equals the greater block id. */
  lemma ReductionMeans(blocks: Blocks, cs: seq<FluidChange>, k: nat)
    requires k < |cs|
    ensures var p := cs[k].pos;
            && p in Reduce(blocks, cs)
            && var w, c := Reduce(blocks, cs)[p], cs[k];
            && w.pos == p
            && (exists i :: 0 <= i < |cs| && cs[i].(reschedule := w.reschedule) == w)
            && (w.reschedule <==> exists i :: 0 <= i < |cs| && cs[i].pos == p && cs[i].reschedule)
            && (c.fizz ==> w.fizz && w.newBlock >= c.newBlock)
            && (!w.fizz && c.newBlock in blocks.levels ==>
                  && w.newBlock in blocks.levels
                  && blocks.levels[w.newBlock] <= blocks.levels[c.newBlock]
                  && (blocks.levels[w.newBlock] == blocks.levels[c.newBlock] ==> w.newBlock >= c.newBlock))
            && (!w.fizz && w.newBlock !in blocks.levels ==> w.newBlock >= c.newBlock)
  {
    var p := cs[k].pos;
    assert At(cs, k, p);
    ReduceWins(blocks, cs, p);
    var w := Reduce(blocks, cs)[p];
    assert !Outranks(blocks, cs[k], w);
    hide Reduce, Outranks;
    var i: nat :| At(cs, i, p) && w == cs[i].(reschedule := w.reschedule);
    if j :| 0 <= j < |cs| && cs[j].pos == p && cs[j].reschedule {
      assert At(cs, j, p);
    }
    OutranksNot(blocks, cs[k], w);
  }

  lemma OutranksNot(blocks: Blocks, c: FluidChange, w: FluidChange)
    requires !Outranks(blocks, c, w)
    ensures c.fizz ==> w.fizz && w.newBlock >= c.newBlock
    ensures !w.fizz && c.newBlock in blocks.levels ==>
              && w.newBlock in blocks.levels
              && blocks.levels[w.newBlock] <= blocks.levels[c.newBlock]
              && (blocks.levels[w.newBlock] == blocks.levels[c.newBlock] ==> w.newBlock >= c.newBlock)
    ensures !w.fizz && w.newBlock !in blocks.levels ==> w.newBlock >= c.newBlock
  {
  }

  lemma SameTouches(a: seq<FluidChange>, b: seq<FluidChange>, p: BlockPos)
    requires forall c :: c in a ==> c in b
    ensures Touches(a, p) ==> Touches(b, p)
  {
    if Touches(a, p) {
      var i: nat :| At(a, i, p);
      assert a[i] in a;
      var j: nat :| j < |b| && b[j] == a[i];
      assert At(b, j, p);
    }
  }

  lemma SameWinner(blocks: Blocks, a: seq<FluidChange>, b: seq<FluidChange>, p: BlockPos, w: FluidChange)
    requires forall c :: c in a <==> c in b
    requires IsWinner(blocks, a, p, w)
    ensures IsWinner(blocks, b, p, w)
  {
    hide Outranks;
    var i: nat :| At(a, i, p) && w == a[i].(reschedule := w.reschedule);
    assert a[i] in a && a[i] in b;
    var j: nat :| j < |b| && b[j] == a[i];
    assert At(b, j, p);
    forall k: nat | At(b, k, p)
      ensures !Outranks(blocks, b[k], w)
      ensures b[k].reschedule ==> w.reschedule
    {
      assert b[k] in b && b[k] in a;
      var l: nat :| l < |a| && a[l] == b[k];
      assert At(a, l, p);
    }
    if w.reschedule {
      var k: nat :| At(a, k, p) && a[k].reschedule;
      assert a[k] in a && a[k] in b;
      var l: nat :| l < |b| && b[l] == a[k];
      assert At(b, l, p) && b[l].reschedule;
    }
  }

  /** Only which changes are proposed matters: not their order, nor how often each is proposed. */
  lemma ReduceIgnoresOrder(blocks: Blocks, a: seq<FluidChange>, b: seq<FluidChange>)
    requires forall c :: c in a <==> c in b
    ensures Reduce(blocks, a) == Reduce(blocks, b)
  {
    hide IsWinner, Reduce;
    forall p: BlockPos
      ensures p in Reduce(blocks, a) <==> p in Reduce(blocks, b)
      ensures p in Reduce(blocks, a) ==> Reduce(blocks, a)[p] == Reduce(blocks, b)[p]
    {
      ReduceWins(blocks, a, p);
      ReduceWins(blocks, b, p);
      SameTouches(a, b, p);
      SameTouches(b, a, p);
      if p in Reduce(blocks, a) {
        SameWinner(blocks, a, b, p, Reduce(blocks, a)[p]);
        WinnerIsUnique(blocks, b, p, Reduce(blocks, a)[p], Reduce(blocks, b)[p]);
      }
    }
  }

  // ---------------------------------------------------------------------------------------------
  // The reduced list
  // ---------------------------------------------------------------------------------------------

  /** `out` lists the entries of the map, each once, in some order. */
  ghost predicate ListsMap(m: ByPosition, out: seq<FluidChange>) {
    && (forall i, j :: 0 <= i < j < |out| ==> out[i].pos != out[j].pos)
    && (forall c :: c in out <==> c.pos in m && m[c.pos] == c)
  }

  lemma ReduceStep(blocks: Blocks, cs: seq<FluidChange>, i: nat)
    requires i < |cs|
    ensures var pre, c := Reduce(blocks, cs[..i]), cs[i];
            Reduce(blocks, cs[..i + 1]) == pre[c.pos := if c.pos in pre then Merge(blocks, pre[c.pos], c) else c]
  {
    assert cs[..i + 1][..i] == cs[..i];
  }

  method ReduceChanges(blocks: Blocks, changes: seq<FluidChange>) returns (out: seq<FluidChange>)
    ensures ListsMap(Reduce(blocks, changes), out)
  {
    var byPos: ByPosition := map[];
    for i := 0 to |changes|
      invariant byPos == Reduce(blocks, changes[..i])
    {
      ReduceStep(blocks, changes, i);
      var change := changes[i];
      if change.pos in byPos {
        var existing := byPos[change.pos];
        if Outranks(blocks, change, existing) {
          var keepReschedule := existing.reschedule || change.reschedule;
          byPos := byPos[change.pos := change.(reschedule := keepReschedule)];
        } else {
          byPos := byPos[change.pos := existing.(reschedule := existing.reschedule || change.reschedule)];
        }
      } else {
        byPos := byPos[change.pos := change];
      }
    }
    assert changes[..|changes|] == changes;
    forall p | p in byPos
      ensures byPos[p].pos == p
    {
      ReduceWins(blocks, changes, p);
    }
    out := Values(byPos);
  }

  /** The values of the map in the order the hash map yields them. */
  method Values(m: ByPosition) returns (out: seq<FluidChange>)
    requires forall p :: p in m ==> m[p].pos == p
    ensures ListsMap(m, out)
  {
    out := [];
    var todo := m.Keys;
    while todo != {}
      invariant todo <= m.Keys
      invariant forall i, j :: 0 <= i < j < |out| ==> out[i].pos != out[j].pos
      invariant forall c :: c in out <==> c.pos in m.Keys - todo && m[c.pos] == c
      decreases todo
    {
      var p :| p in todo;
      assert m[p] !in out;
      assert forall i :: 0 <= i < |out| ==> out[i] in out && out[i].pos != p;
      out, todo := out + [m[p]], todo - {p};
    }
  }

  // ---------------------------------------------------------------------------------------------
  // Evaluation
  // ---------------------------------------------------------------------------------------------

  /** What evaluating one position against the world proposes; the world is only read, so it is a function. */
  type Evaluator = BlockPos -> seq<FluidChange>

  function Proposals(evaluate: Evaluator, positions: seq<BlockPos>): seq<FluidChange> {
    if positions == [] then []
    else Proposals(evaluate, positions[..|positions| - 1]) + evaluate(positions[|positions| - 1])
  }

  lemma {:induction false} ProposalsAppend(evaluate: Evaluator, a: seq<BlockPos>, b: seq<BlockPos>)
    ensures Proposals(evaluate, a + b) == Proposals(evaluate, a) + Proposals(evaluate, b)
  {
    if b == [] {
      assert a + b == a;
    } else {
      var pre := b[..|b| - 1];
      assert (a + b)[..|a + b| - 1] == a + pre;
      ProposalsAppend(evaluate, a, pre);
    }
  }

  lemma {:induction false} ProposalsAre(evaluate: Evaluator, positions: seq<BlockPos>, c: FluidChange)
    ensures c in Proposals(evaluate, positions) <==> exists i :: 0 <= i < |positions| && c in evaluate(positions[i])
  {
    if positions != [] {
      var pre, last := positions[..|positions| - 1], positions[|positions| - 1];
      ProposalsAre(evaluate, pre, c);
      if c in Proposals(evaluate, pre) {
        var i :| 0 <= i < |pre| && c in evaluate(pre[i]);
        assert positions[i] == pre[i];
      }
      if i :| 0 <= i < |positions| && c in evaluate(positions[i]) {
        assert i < |pre| ==> pre[i] == positions[i];
        assert i == |pre| ==> positions[i] == last;
      }
    }
  }

  /** A batch gives the same result in whatever order its ticks are due, and however often one is repeated. */
  lemma BatchIgnoresOrder(blocks: Blocks, evaluate: Evaluator, a: seq<BlockPos>, b: seq<BlockPos>)
    requires forall p :: p in a <==> p in b
    ensures Reduce(blocks, Proposals(evaluate, a)) == Reduce(blocks, Proposals(evaluate, b))
  {
    forall c
      ensures c in Proposals(evaluate, a) <==> c in Proposals(evaluate, b)
    {
      ProposalsAre(evaluate, a, c);
      ProposalsAre(evaluate, b, c);
      if i :| 0 <= i < |a| && c in evaluate(a[i]) {
        assert a[i] in a && a[i] in b;
      }
      if i :| 0 <= i < |b| && c in evaluate(b[i]) {
        assert b[i] in b && b[i] in a;
      }
    }
    ReduceIgnoresOrder(blocks, Proposals(evaluate, a), Proposals(evaluate, b));
  }

  function Concat<T>(parts: seq<seq<T>>): seq<T> {
    if parts == [] then [] else Concat(parts[..|parts| - 1]) + parts[|parts| - 1]
  }

  /** The list cut into slices of `size`, the last one possibly shorter. */
  function Slices(positions: seq<BlockPos>, size: nat): (r: seq<seq<BlockPos>>)
    requires size > 0
    decreases |positions|
  {
    if positions == [] then []
    else if |positions| <= size then [positions]
    else [positions[..size]] + Slices(positions[size..], size)
  }

  lemma {:induction false} ConcatCons<T>(first: seq<T>, rest: seq<seq<T>>)
    ensures Concat([first] + rest) == first + Concat(rest)
  {
    if rest == [] {
      assert [first] + rest == [first] && [first][..0] == [];
    } else {
      var pre := rest[..|rest| - 1];
      assert ([first] + rest)[..|rest|] == [first] + pre;
      ConcatCons(first, pre);
    }
  }

  /** The slices concatenate back to the list. */
  lemma {:induction false} SlicesConcat(positions: seq<BlockPos>, size: nat)
    requires size > 0
    ensures Concat(Slices(positions, size)) == positions
    decreases |positions|
  {
    if 0 < |positions| <= size {
      assert [positions][..0] == [];
    } else if positions != [] {
      SlicesConcat(positions[size..], size);
      ConcatCons(positions[..size], Slices(positions[size..], size));
    }
  }

  /** The slice size for a number of workers: rounded up, at least one. */
  function TaskSize(n: nat, workers: nat): nat
    requires workers > 0
  {
    var size := (n + workers - 1) / workers;
    if size < 1 then 1 else size
  }

  lemma {:induction false} SlicesFit(positions: seq<BlockPos>, size: nat, workers: nat)
    requires size > 0 && |positions| <= size * workers
    ensures |Slices(positions, size)| <= workers
    decreases |positions|
  {
    if |positions| > size {
      assert size * (workers - 1) == size * workers - size;
      SlicesFit(positions[size..], size, workers - 1);
    }
  }

  /** No worker gets more than one slice. */
  lemma OneSlicePerWorker(positions: seq<BlockPos>, workers: nat)
    requires workers > 0
    ensures |Slices(positions, TaskSize(|positions|, workers))| <= workers
  {
    var n, size := |positions|, TaskSize(|positions|, workers);
    var q := (n + workers - 1) / workers;
    assert n + workers - 1 == q * workers + (n + workers - 1) % workers;
    assert n <= q * workers;
    if size != q {
      assert q * workers <= size * workers by {
        assert q <= 0;
      }
    }
    SlicesFit(positions, size, workers);
  }

  /** The proposals of each slice. */
  function Partials(evaluate: Evaluator, slices: seq<seq<BlockPos>>): (r: seq<seq<FluidChange>>)
    ensures |r| == |slices| && forall i :: 0 <= i < |r| ==> r[i] == Proposals(evaluate, slices[i])
  {
    if slices == [] then []
    else Partials(evaluate, slices[..|slices| - 1]) + [Proposals(evaluate, slices[|slices| - 1])]
  }

  lemma {:induction false} PartialsConcat(evaluate: Evaluator, slices: seq<seq<BlockPos>>)
    ensures Concat(Partials(evaluate, slices)) == Proposals(evaluate, Concat(slices))
  {
    if slices != [] {
      var pre, last := slices[..|slices| - 1], slices[|slices| - 1];
      PartialsConcat(evaluate, pre);
      ProposalsAppend(evaluate, Concat(pre), last);
      assert Partials(evaluate, slices)[..|pre|] == Partials(evaluate, pre);
    }
  }

  /** Even if the pool handed the partial results back in another order, the reduced batch would be the same. */
  lemma AnyMergeOrder(blocks: Blocks, a: seq<seq<FluidChange>>, b: seq<seq<FluidChange>>)
    requires forall part :: part in a <==> part in b
    ensures Reduce(blocks, Concat(a)) == Reduce(blocks, Concat(b))
  {
    forall c
      ensures c in Concat(a) <==> c in Concat(b)
    {
      InConcat(a, c);
      InConcat(b, c);
    }
    ReduceIgnoresOrder(blocks, Concat(a), Concat(b));
  }

  lemma {:induction false} InConcat(parts: seq<seq<FluidChange>>, c: FluidChange)
    ensures c in Concat(parts) <==> exists part :: part in parts && c in part
  {
    if parts != [] {
      var pre, last := parts[..|parts| - 1], parts[|parts| - 1];
      assert parts == pre + [last];
      InConcat(pre, c);
      if part :| part in parts && c in part {
        assert part in pre || part == last;
      }
      if c in last {
        assert last in parts;
      } else if c in Concat(pre) {
        var part :| part in pre && c in part;
        assert part in parts;
      }
    }
  }

  const PARALLEL_THRESHOLD: nat := 64

  method EvaluateAll(evaluate: Evaluator, positions: seq<BlockPos>) returns (changes: seq<FluidChange>)
    ensures changes == Proposals(evaluate, positions)
  {
    changes := [];
    for i := 0 to |positions|
      invariant changes == Proposals(evaluate, positions[..i])
    {
      assert positions[..i + 1][..i] == positions[..i];
      changes := changes + evaluate(positions[i]);
    }
    assert positions[..|positions|] == positions;
  }

  method EvaluateSerial(blocks: Blocks, evaluate: Evaluator, positions: seq<BlockPos>)
    returns (changes: seq<FluidChange>)
    ensures ListsMap(Reduce(blocks, Proposals(evaluate, positions)), changes)
  {
    var all := EvaluateAll(evaluate, positions);
    changes := ReduceChanges(blocks, all);
  }

  method Slice(positions: seq<BlockPos>, size: nat) returns (slices: seq<seq<BlockPos>>)
    requires size > 0
    ensures slices == Slices(positions, size)
  {
    slices := [];
    var rest := positions;
    assert slices + Slices(rest, size) == Slices(positions, size);
    while rest != []
      invariant slices + Slices(rest, size) == Slices(positions, size)
      decreases |rest|
    {
      var k := if |rest| <= size then |rest| else size;
      assert rest[..|rest|] == rest;
      assert Slices(rest, size) == [rest[..k]] + Slices(rest[k..], size);
      slices, rest := slices + [rest[..k]], rest[k..];
    }
  }

  function Tasks(n: nat): (r: set<nat>)
    ensures forall i: nat :: i in r <==> i < n
  {
    if n == 0 then {} else Tasks(n - 1) + {n - 1}
  }

  /** A batch of tasks on the thread pool: the tasks complete in any order, the results come back in the order the
      tasks were handed in. */
  method RunBatch(evaluate: Evaluator, slices: seq<seq<BlockPos>>) returns (partials: seq<seq<FluidChange>>)
    ensures partials == Partials(evaluate, slices)
  {
    var results: map<nat, seq<FluidChange>> := map[];
    var waiting := Tasks(|slices|);
    ghost var tasks := waiting;
    while waiting != {}
      invariant forall i: nat :: i < |slices| && i !in waiting ==>
        i in results && results[i] == Proposals(evaluate, slices[i])
      invariant waiting <= tasks
      decreases waiting
    {
      var i :| i in waiting;
      var changes := EvaluateAll(evaluate, slices[i]);
      results, waiting := results[i := changes], waiting - {i};
    }
    partials := [];
    for i := 0 to |slices|
      invariant |partials| == i && forall j :: 0 <= j < i ==> partials[j] == Proposals(evaluate, slices[j])
    {
      partials := partials + [results[i]];
    }
  }

  method EvaluateParallel(blocks: Blocks, evaluate: Evaluator, positions: seq<BlockPos>, workerCount: nat)
    returns (changes: seq<FluidChange>)
    requires workerCount > 0
    ensures ListsMap(Reduce(blocks, Proposals(evaluate, positions)), changes)
  {
    var taskSize := TaskSize(|positions|, workerCount);
    var slices := Slice(positions, taskSize);
    var partials := RunBatch(evaluate, slices);
    var all: seq<FluidChange> := [];
    for i := 0 to |partials|
      invariant all == Concat(partials[..i])
    {
      assert partials[..i + 1][..i] == partials[..i];
      all := all + partials[i];
    }
    assert partials[..|partials|] == partials;
    PartialsConcat(evaluate, slices);
    SlicesConcat(positions, taskSize);
    changes := ReduceChanges(blocks, all);
  }

  /** PARALLEL IS SERIAL.  Small batches are evaluated on the calling thread, large ones on the pool; whichever it
      is and however many workers there are, the changes are those of the serial evaluation. */
  method EvaluateBatch(blocks: Blocks, evaluate: Evaluator, positions: seq<BlockPos>, workerCount: nat)
    returns (changes: seq<FluidChange>)
    requires workerCount > 0
    ensures ListsMap(Reduce(blocks, Proposals(evaluate, positions)), changes)
  {
    if |positions| < PARALLEL_THRESHOLD {
      changes := EvaluateSerial(blocks, evaluate, positions);
    } else {
      changes := EvaluateParallel(blocks, evaluate, positions, workerCount);
    }
  }
}
