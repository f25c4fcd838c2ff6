/** Block, chunk and section positions, and the key a chunk is stored under. */
module Positions {
  import opened Options

  const TWO_8: int := 0x100
  const TWO_16: int := 0x1_0000
  const TWO_22: int := 0x40_0000
  const TWO_32: int := 0x1_0000_0000
  const TWO_96: int := TWO_32 * TWO_32 * TWO_32

  lemma AtLeastOnce(d: int, m: int)
    requires d >= 1 && m > 0
    ensures d * m >= m
  {
    assert d * m == (d - 1) * m + m;
  }

  /** Quotient and remainder are unique. */
  lemma DivMod(q: int, r: int, p: int, t: int, m: int)
    requires 0 <= r < m && 0 <= t < m && q * m + r == p * m + t
    ensures q == p && r == t
  {
    assert (q - p) * m == q * m - p * m;
    if q > p {
      AtLeastOnce(q - p, m);
    } else if q < p {
      assert (p - q) * m == p * m - q * m;
      AtLeastOnce(p - q, m);
    }
  }

  lemma Divide(n: int, q: int, r: int, m: int)
    requires 0 <= r < m && n == q * m + r
    ensures n / m == q && n % m == r
  {
    DivMod(q, r, n / m, n % m, m);
  }

  /** The casts of the source: the low bits, read as a signed number. */
  function AsI16(n: int): (r: int)
    ensures -0x8000 <= r < 0x8000 && (r - n) % TWO_16 == 0
    ensures -0x8000 <= n < 0x8000 ==> r == n
  {
    (n + 0x8000) % TWO_16 - 0x8000
  }

  function AsI8(n: int): (r: int)
    ensures -0x80 <= r < 0x80 && (r - n) % TWO_8 == 0
    ensures -0x80 <= n < 0x80 ==> r == n
  {
    (n + 0x80) % TWO_8 - 0x80
  }

  datatype BlockPos = BlockPos(x: int, y: int, z: int)

  /** A chunk position holds the coordinates of the chunk's first column. */
  datatype ChunkPos = ChunkPos(blockX: int, blockZ: int) {
    function X(): int {
      blockX / 16
    }

    function Z(): int {
      blockZ / 16
    }
  }

  /** `ChunkPos::new` panics on coordinates of 2^22 and above; below -2^27 the corner would not fit `i32`, which
      no block reaches. */
  function NewChunkPos(x: int, z: int): (c: ChunkPos)
    requires -0x800_0000 <= x < TWO_22 && -0x800_0000 <= z < TWO_22
    ensures c.X() == x && c.Z() == z
  {
    ChunkPos(x * 16, z * 16)
  }

  datatype ChunkBlockPos = ChunkBlockPos(x: int, y: int, z: int)
  datatype SectionPos = SectionPos(x: int, y: int, z: int)
  datatype SectionBlockPos = SectionBlockPos(x: int, y: int, z: int)

  predicate IsSectionBlock(s: SectionBlockPos) {
    0 <= s.x < 16 && 0 <= s.y < 16 && 0 <= s.z < 16
  }

  predicate IsI32(n: int) {
    -0x8000_0000 <= n < 0x8000_0000
  }

  /** A block whose chunk `ChunkPos::new` accepts. */
  predicate HasChunk(p: BlockPos) {
    IsI32(p.x) && IsI32(p.y) && IsI32(p.z) && p.x / 16 < TWO_22 && p.z / 16 < TWO_22
  }

  function ChunkOf(p: BlockPos): ChunkPos
    requires HasChunk(p)
  {
    NewChunkPos(p.x / 16, p.z / 16)
  }

  function InChunk(p: BlockPos): ChunkBlockPos {
    ChunkBlockPos(p.x % 16, AsI16(p.y), p.z % 16)
  }

  function SectionOf(p: BlockPos): SectionPos {
    SectionPos(p.x / 16 * 16, p.y / 16 * 16, p.z / 16 * 16)
  }

  function ChunkOfSection(s: SectionPos): ChunkPos {
    ChunkPos(s.x, s.z)
  }

  /** From a block: truncate each coordinate to eight bits, then keep the low four. */
  function InSection(p: BlockPos): SectionBlockPos {
    SectionBlockPos(p.x % TWO_8 % 16, p.y % TWO_8 % 16, p.z % TWO_8 % 16)
  }

  /** From a block of a chunk: the Euclidean remainders. */
  function InSectionOfChunk(p: ChunkBlockPos): SectionBlockPos {
    SectionBlockPos(p.x % 16, p.y % 16, p.z % 16)
  }

  /** The section's number, an `i8`. */
  function SectionNumber(p: ChunkBlockPos): int {
    AsI8(p.y / 16)
  }

  function BlockAt(c: ChunkPos, p: ChunkBlockPos): BlockPos {
    BlockPos(c.blockX + p.x, p.y, c.blockZ + p.z)
  }

  function Pack(s: SectionBlockPos): int {
    s.y * 0x100 + s.z * 0x10 + s.x
  }

  /** Four bits each, taken out of the packed 0x0yzx. */
  function Unpack(data: int): Option<SectionBlockPos> {
    if data >= 4096 then None else Some(SectionBlockPos(data % 0x10, data / 0x100 % 0x10, data / 0x10 % 0x10))
  }

  /** Packing and unpacking are inverse, and exactly the numbers below 4096 unpack. */
  lemma PackRoundTrip(s: SectionBlockPos, data: nat)
    ensures IsSectionBlock(s) ==> 0 <= Pack(s) < 4096 && Unpack(Pack(s)) == Some(s)
    ensures data < 4096 ==> Unpack(data).Some? && IsSectionBlock(Unpack(data).value) && Pack(Unpack(data).value) == data
    ensures Unpack(data).None? <==> data >= 4096
    ensures IsSectionBlock(s) ==> Pack(s) % 16 == s.x && Pack(s) / 16 % 16 == s.z && Pack(s) / 256 == s.y
  {
    if IsSectionBlock(s) {
      UnpackIs(Pack(s), s.y, s.z, s.x);
    }
    if data < 4096 {
      var rest := data / 0x10;
      UnpackIs(data, rest / 0x10, rest % 0x10, data % 0x10);
    }
  }

  lemma UnpackIs(data: int, y: int, z: int, x: int)
    requires 0 <= x < 16 && 0 <= z < 16 && 0 <= y < 16 && data == (y * 0x10 + z) * 0x10 + x
    ensures Unpack(data) == Some(SectionBlockPos(x, y, z)) && data == Pack(SectionBlockPos(x, y, z))
  {
    Divide(data, y * 0x10 + z, x, 0x10);
    Divide(data, y, z * 0x10 + x, 0x100);
    Divide(y * 0x10 + z, y, z, 0x10);
    Divide(y, 0, y, 0x10);
  }

  lemma LowBits(n: int)
    ensures n % TWO_8 % 16 == n % 16
    ensures AsI16(n) % 16 == n % 16
  {
    var q, r := n / 16, n % 16;
    assert n == q * 16 + r;
    var k := (AsI16(n) - n) / TWO_16;
    assert AsI16(n) == n + k * TWO_16;
    hide AsI16;
    Divide(AsI16(n), q + k * 0x1000, r, 16);
    Divide(n % TWO_8, q - n / TWO_8 * 16, r, 16);
  }

  /** A block lies in its chunk, its height kept if it fits 16 bits: axis by axis, the chunk's corner is the multiple of
      16 at or below it and the place in the chunk is the rest. */
  lemma BlockLiesInChunk(p: BlockPos)
    requires HasChunk(p)
    ensures var c, b := ChunkOf(p), InChunk(p);
            && c.X() * 16 <= p.x < c.X() * 16 + 16 && b.x == p.x - c.X() * 16 && c.blockX == c.X() * 16
            && c.Z() * 16 <= p.z < c.Z() * 16 + 16 && b.z == p.z - c.Z() * 16 && c.blockZ == c.Z() * 16
            && (-0x8000 <= p.y < 0x8000 ==> b.y == p.y && (b.y - p.y) % TWO_16 == 0)
  {
  }

  /** A block is its section's corner and the place in the section, on every axis and on either side of zero. */
  lemma BlockLiesInSection(p: BlockPos)
    ensures var s, b := SectionOf(p), InSection(p);
            && s.x % 16 == 0 && s.y % 16 == 0 && s.z % 16 == 0
            && s.x + b.x == p.x && s.y + b.y == p.y && s.z + b.z == p.z
  {
    SectionAxis(p.x);
    SectionAxis(p.y);
    SectionAxis(p.z);
  }

  lemma SectionAxis(n: int)
    ensures n / 16 * 16 + n % TWO_8 % 16 == n && n / 16 * 16 % 16 == 0
  {
    LowBits(n);
    Divide(n / 16 * 16, n / 16, 0, 16);
  }

  /** Both ways to the position inside a section agree, on negative coordinates too, and it is in range. */
  lemma SectionBlocksAgree(p: BlockPos)
    ensures InSection(p) == InSectionOfChunk(InChunk(p)) && IsSectionBlock(InSection(p))
  {
    LowBits(p.x);
    LowBits(p.y);
    LowBits(p.z);
  }

  /** Both ways to the chunk agree. */
  lemma ChunksAgree(p: BlockPos)
    requires HasChunk(p)
    ensures ChunkOfSection(SectionOf(p)) == ChunkOf(p)
  {
  }

  /** A block is rebuilt from its chunk and its place there exactly when its height fits `i16`. */
  lemma BlockRoundTrip(p: BlockPos)
    requires HasChunk(p)
    ensures BlockAt(ChunkOf(p), InChunk(p)) == p <==> -0x8000 <= p.y < 0x8000
    ensures BlockAt(ChunkOf(p), InChunk(p)) == p.(y := AsI16(p.y))
  {
  }

  /** Two blocks of the same column share a place exactly when their heights differ by a multiple of 2^16. */
  lemma SharedPlaces(p: BlockPos, q: BlockPos)
    requires HasChunk(p) && HasChunk(q)
    ensures ChunkOf(p) == ChunkOf(q) && InChunk(p) == InChunk(q) <==>
            p.x == q.x && p.z == q.z && (p.y - q.y) % TWO_16 == 0
  {
    assert p.x == p.x / 16 * 16 + p.x % 16 && q.x == q.x / 16 * 16 + q.x % 16;
    assert p.z == p.z / 16 * 16 + p.z % 16 && q.z == q.z / 16 * 16 + q.z % 16;
    SameI16(p.y, q.y);
  }

  lemma SameI16(m: int, n: int)
    ensures AsI16(m) == AsI16(n) <==> (m - n) % TWO_16 == 0
  {
    if AsI16(m) == AsI16(n) {
      assert m + 0x8000 == (m + 0x8000) / TWO_16 * TWO_16 + (m + 0x8000) % TWO_16;
      assert n + 0x8000 == (n + 0x8000) / TWO_16 * TWO_16 + (n + 0x8000) % TWO_16;
      Divide(m - n, (m + 0x8000) / TWO_16 - (n + 0x8000) / TWO_16, 0, TWO_16);
    }
    if (m - n) % TWO_16 == 0 {
      assert m == n + (m - n) / TWO_16 * TWO_16;
    }
  }

  /** A block as the chunk it lies in, the number of its section and its packed place there. */
  datatype Split = Split(chunk: ChunkPos, section: int, packed: int)

  function SplitBlock(p: BlockPos): Split
    requires HasChunk(p)
  {
    Split(ChunkOf(p), SectionNumber(InChunk(p)), Pack(InSectionOfChunk(InChunk(p))))
  }

  function Rebuild(s: Split): Option<BlockPos> {
    match Unpack(s.packed)
    case None => None
    case Some(b) => Some(BlockPos(s.chunk.blockX + b.x, s.section * 16 + b.y, s.chunk.blockZ + b.z))
  }

  /** SPLITTING.  The packed form always unpacks, columns always come back, and the height comes back exactly
      when its section number fits `i8`. */
  lemma SplitRoundTrip(p: BlockPos)
    requires HasChunk(p)
    ensures Rebuild(SplitBlock(p)).Some? && Rebuild(SplitBlock(p)).value == p.(y := Rebuild(SplitBlock(p)).value.y)
    ensures Rebuild(SplitBlock(p)) == Some(p) <==> -2048 <= p.y < 2048
  {
    Rebuilt(p);
    HeightRoundTrip(p.y);
  }

  lemma Rebuilt(p: BlockPos)
    requires HasChunk(p)
    ensures Rebuild(SplitBlock(p)) ==
            Some(BlockPos(p.x, AsI8(AsI16(p.y) / 16) * 16 + AsI16(p.y) % 16, p.z))
  {
    hide Rebuild, Unpack, Pack, AsI8, AsI16;
    Mod16(p.x);
    Mod16(AsI16(p.y));
    Mod16(p.z);
    var b := SectionBlockPos(p.x % 16, AsI16(p.y) % 16, p.z % 16);
    assert InSectionOfChunk(InChunk(p)) == b;
    PackRoundTrip(b, 0);
    RebuildIs(SplitBlock(p), b);
  }

  lemma Mod16(n: int)
    ensures 0 <= n % 16 < 16 && n % 16 % 16 == n % 16 && n / 16 * 16 + n % 16 == n
  {
  }

  lemma RebuildIs(s: Split, b: SectionBlockPos)
    requires Unpack(s.packed) == Some(b)
    ensures Rebuild(s) == Some(BlockPos(s.chunk.blockX + b.x, s.section * 16 + b.y, s.chunk.blockZ + b.z))
  {
  }

  lemma HeightRoundTrip(y: int)
    ensures AsI8(AsI16(y) / 16) * 16 + AsI16(y) % 16 == y <==> -2048 <= y < 2048
  {
    var h := AsI16(y);
    var n := AsI8(h / 16);
    assert h == h / 16 * 16 + h % 16;
    if n * 16 + h % 16 == y {
      assert -0x80 * 16 <= n * 16 <= 0x7F * 16;
    }
    if -2048 <= y < 2048 {
      assert h == y && -0x80 <= h / 16 < 0x80;
    }
  }

  // ---------------------------------------------------------------------------------------------
  // Storage keys
  // ---------------------------------------------------------------------------------------------

  /** 22 bits of each chunk coordinate. */
  function PackChunk(c: ChunkPos): int {
    c.Z() % TWO_22 * TWO_22 + c.X() % TWO_22
  }

  /** The key of a chunk in a dimension whose name hashes to `hash`, a 64-bit number shifted into the top of
      128 bits. */
  function CreateKey(hash: nat, c: ChunkPos): (key: nat)
    ensures key < TWO_32 * TWO_96
  {
    PackChunkEqual(c, c);
    hash % TWO_32 * TWO_96 + PackChunk(c)
  }

  /** The key from its lowest bits up: 22 bits of x, 22 bits of z, and from bit 96 the low 32 bits of the hash. */
  lemma KeyLayout(hash: nat, c: ChunkPos)
    ensures var key := CreateKey(hash, c);
            && key % 0x40_0000 == c.X() % 0x40_0000
            && key / 0x40_0000 % 0x40_0000 == c.Z() % 0x40_0000
            && key / TWO_96 == hash % 0x1_0000_0000
            && key % TWO_96 < 0x40_0000 * 0x40_0000
  {
    var x, z, h := c.X() % TWO_22, c.Z() % TWO_22, hash % TWO_32;
    var key, high := CreateKey(hash, c), h * (TWO_96 / TWO_22);
    assert key == (high + z) * TWO_22 + x;
    Divide(key, high + z, x, TWO_22);
    assert high + z == h * (TWO_96 / TWO_22 / TWO_22) * TWO_22 + z;
    Divide(high + z, h * (TWO_96 / TWO_22 / TWO_22), z, TWO_22);
    assert 0 <= z * TWO_22 + x < TWO_22 * TWO_22;
    Divide(key, h, z * TWO_22 + x, TWO_96);
  }

  predicate Congruent(a: ChunkPos, b: ChunkPos) {
    (a.X() - b.X()) % TWO_22 == 0 && (a.Z() - b.Z()) % TWO_22 == 0
  }

  lemma SameRemainder(a: int, b: int, m: int)
    requires m > 0
    ensures a % m == b % m <==> (a - b) % m == 0
  {
    assert a == a / m * m + a % m && b == b / m * m + b % m;
    if a % m == b % m {
      assert a - b == (a / m - b / m) * m;
      Divide(a - b, a / m - b / m, 0, m);
    }
    if (a - b) % m == 0 {
      var k := (a - b) / m;
      assert a - b == k * m;
      assert a == (b / m + k) * m + b % m;
      DivMod(a / m, a % m, b / m + k, b % m, m);
    }
  }

  lemma PackChunkEqual(a: ChunkPos, b: ChunkPos)
    ensures 0 <= PackChunk(a) < TWO_22 * TWO_22
    ensures PackChunk(a) == PackChunk(b) <==> Congruent(a, b)
  {
    SameRemainder(a.X(), b.X(), TWO_22);
    SameRemainder(a.Z(), b.Z(), TWO_22);
    if PackChunk(a) == PackChunk(b) {
      DivMod(a.Z() % TWO_22, a.X() % TWO_22, b.Z() % TWO_22, b.X() % TWO_22, TWO_22);
    }
  }

  /** KEYS, exactly.  Two chunks share a key when their dimensions' hashes agree in the low 32 bits and their
      coordinates are congruent modulo 2^22, and only then. */
  lemma KeyEqual(h: nat, a: ChunkPos, k: nat, b: ChunkPos)
    ensures CreateKey(h, a) == CreateKey(k, b) <==> h % TWO_32 == k % TWO_32 && Congruent(a, b)
  {
    PackChunkEqual(a, b);
    PackChunkEqual(b, a);
    if CreateKey(h, a) == CreateKey(k, b) {
      DivMod(h % TWO_32, PackChunk(a), k % TWO_32, PackChunk(b), TWO_96);
    }
  }

  /** A chunk the source can build: its corner is a multiple of 16. */
  predicate IsChunk(c: ChunkPos) {
    c.blockX % 16 == 0 && c.blockZ % 16 == 0
  }

  predicate InKeyRange(c: ChunkPos) {
    IsChunk(c) && -TWO_22 / 2 <= c.X() < TWO_22 / 2 && -TWO_22 / 2 <= c.Z() < TWO_22 / 2
  }

  /** So within [-2^21, 2^21) a key determines the chunk. */
  lemma KeyInjective(h: nat, a: ChunkPos, k: nat, b: ChunkPos)
    requires InKeyRange(a) && InKeyRange(b) && CreateKey(h, a) == CreateKey(k, b)
    ensures a == b && h % TWO_32 == k % TWO_32
  {
    KeyEqual(h, a, k, b);
    SmallMultiple(a.X() - b.X());
    SmallMultiple(a.Z() - b.Z());
  }

  lemma SmallMultiple(d: int)
    requires -TWO_22 < d < TWO_22 && d % TWO_22 == 0
    ensures d == 0
  {
  }

  /** Outside that range two chunks the source accepts can share a key. */
  lemma KeysCollide(h: nat)
    ensures CreateKey(h, NewChunkPos(0, 0)) == CreateKey(h, NewChunkPos(-TWO_22, 0))
    ensures NewChunkPos(0, 0) != NewChunkPos(-TWO_22, 0)
  {
    KeyEqual(h, NewChunkPos(0, 0), h, NewChunkPos(-TWO_22, 0));
  }
}
