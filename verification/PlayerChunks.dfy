/** The three ways the server computes the chunk a player is in, axis by axis, and where they agree. */
module PlayerChunks {
  import opened Options
  import opened Positions
  import opened ChunkGrid

  /** Where a player stands, seen from above. */
  datatype Place = Place(x: real, z: real)

  /** A number as a signed 32-bit one: a cast from a floating-point number saturates. */
  function SaturateI32(n: int): (r: int)
    ensures IsI32(r) && (IsI32(n) ==> r == n)
  {
    if n < -0x8000_0000 then -0x8000_0000 else if n > 0x7FFF_FFFF then 0x7FFF_FFFF else n
  }

  /** The low 32 bits, as arithmetic leaves them when overflow is not checked. */
  function WrapI32(n: int): (r: int)
    ensures IsI32(r) && (IsI32(n) ==> r == n)
  {
    (n + 0x8000_0000) % TWO_32 - 0x8000_0000
  }

  /** `ChunkPos::new` on one axis: the chunk's first block, or a panic.  Chunks from 2^22 on are refused in every build;
      a corner beyond 32 bits panics in builds that check overflow and wraps in the others. */
  function ChunkCorner(n: int, checked: bool): Option<int> {
    if n >= TWO_22 || (checked && !IsI32(n * 16)) then None else Some(WrapI32(n * 16))
  }

  /** The blocks that have a chunk are those whose chunk `ChunkPos::new` accepts, and they have that chunk. */
  lemma ChunkOfBlock(b: BlockPos, checked: bool)
    requires IsI32(b.x) && IsI32(b.y) && IsI32(b.z)
    ensures HasChunk(b) <==> ChunkCorner(b.x / 16, checked).Some? && ChunkCorner(b.z / 16, checked).Some?
    ensures HasChunk(b) ==> ChunkCorner(b.x / 16, checked).value == ChunkOf(b).blockX
    ensures HasChunk(b) ==> ChunkCorner(b.z / 16, checked).value == ChunkOf(b).blockZ
  {
  }

  /** The calculator: Euclidean division of the coordinate by 16, the cast, then `ChunkPos::new`. */
  function CalculatorAxis(x: real, checked: bool): Option<int> {
    match ChunkCorner(SaturateI32((x / 16.0).Floor), checked)
    case None => None
    case Some(corner) => Some(corner / 16)
  }

  function CalculatorChunk(p: Place, checked: bool): Option<Coord> {
    match (CalculatorAxis(p.x, checked), CalculatorAxis(p.z, checked))
    case (Some(x), Some(z)) => Some(Coord(x, z))
    case _ => None
  }

  /** The sender: floor, then the cast, then an arithmetic shift right by 4. */
  function SenderAxis(x: real): int {
    SaturateI32(x.Floor) / 16
  }

  function SenderChunk(p: Place): Coord {
    Coord(SenderAxis(p.x), SenderAxis(p.z))
  }

  /** A cast to an integer truncates toward zero. */
  function Truncated(x: real): int {
    if x < 0.0 then -(-x).Floor else x.Floor
  }

  /** The packet handlers that decide whether the calculator has to run: the cast alone, then the shift. */
  function TriggerAxis(x: real): int {
    SaturateI32(Truncated(x)) / 16
  }

  function TriggerChunk(p: Place): Coord {
    Coord(TriggerAxis(p.x), TriggerAxis(p.z))
  }

  lemma FloorOfSixteenth(x: real)
    ensures (x / 16.0).Floor == x.Floor / 16
  {
    var q := x.Floor / 16;
    assert 16 * q <= x.Floor < 16 * q + 16;
    assert 16.0 * (q as real) <= x < 16.0 * ((q + 1) as real);
    assert q as real <= x / 16.0 < (q + 1) as real;
  }

  /** The calculator panics from chunk 2^22 on, and below the 32-bit blocks if overflow is checked. */
  predicate Panics(block: int, checked: bool) {
    block >= TWO_22 * 16 || (checked && block < -0x8000_0000)
  }

  /** Far below the 32-bit blocks, where overflow is not checked: the places whose corner wraps around to the lowest
      chunk there is, which is where the sender's saturating cast puts every such player. */
  predicate Aliased(block: int) {
    -0x8000_0000 <= block / 16 && block < -0x8000_0000 && block / 16 % 0x1000_0000 == 0x800_0000
  }

  predicate Agrees(block: int, checked: bool) {
    -0x8000_0000 <= block < TWO_22 * 16 || (!checked && Aliased(block))
  }

  lemma AxisAgrees(x: real, checked: bool)
    ensures CalculatorAxis(x, checked).None? <==> Panics(x.Floor, checked)
    ensures CalculatorAxis(x, checked) == Some(SenderAxis(x)) <==> Agrees(x.Floor, checked)
  {
    FloorOfSixteenth(x);
  }

  /** WHICH CHUNK, exactly.  Calculator and sender place the player in the same chunk exactly where the calculator does
      not panic and neither cast changes the coordinate, and at the places far outside where the errors of both happen
      to coincide. */
  lemma SystemsAgreeOnChunk(p: Place, checked: bool)
    ensures CalculatorChunk(p, checked).None? <==> Panics(p.x.Floor, checked) || Panics(p.z.Floor, checked)
    ensures CalculatorChunk(p, checked) == Some(SenderChunk(p)) <==>
            Agrees(p.x.Floor, checked) && Agrees(p.z.Floor, checked)
  {
    AxisAgrees(p.x, checked);
    AxisAgrees(p.z, checked);
    hide CalculatorAxis, SenderAxis, Agrees, Panics;
  }

  /** Thirty-two bits are not enough: at block 2^26 the sender has a chunk and the calculator panics.  One block before
      it, and at the lowest block of 32 bits, both have the same chunk. */
  lemma FarPlacePanics(checked: bool)
    ensures CalculatorChunk(Place(67108864.0, 0.0), checked) == None
    ensures SenderChunk(Place(67108864.0, 0.0)) == Coord(4194304, 0)
    ensures var p := Place(67108863.5, -2147483648.0);
            CalculatorChunk(p, checked) == Some(SenderChunk(p)) && SenderChunk(p) == Coord(4194303, -134217728)
  {
    AxisAgrees(67108864.0, checked);
    AxisAgrees(67108863.5, checked);
    AxisAgrees(-2147483648.0, checked);
    AxisAgrees(0.0, checked);
  }

  /** The last blocks before a chunk boundary, on the negative side of zero: truncation already counts them to the
      chunk after it. */
  predicate InStrip(x: real) {
    x < 0.0 && x != x.Floor as real && x.Floor % 16 == 15 && -0x8000_0000 <= x.Floor
  }

  /** THE TRIGGER, exactly, for every coordinate: it is one chunk ahead of the sender in the strip, the same
      elsewhere. */
  lemma TriggerExactly(x: real)
    ensures TriggerAxis(x) == SenderAxis(x) + if InStrip(x) then 1 else 0
  {
    if x < 0.0 {
      Negated(x);
    }
  }

  lemma Negated(x: real)
    ensures -(-x).Floor == if x == x.Floor as real then x.Floor else x.Floor + 1
  {
    var n := if x == x.Floor as real then -x.Floor else -x.Floor - 1;
    assert n as real <= -x < (n + 1) as real;
  }
}
