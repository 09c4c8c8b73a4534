/**
 * One chunk of the server world: a dense 16 x 256 x 16 array of block ids,
 * laid out as `x + z*16 + y*256`, and a dirty flag that tells the client
 * its mesh is stale. Reads outside the chunk see air; writes outside it
 * fail and change nothing.
 */
module Chunks {
  import opened Bits
  import opened Dimensions
  import opened Coords
  import opened WorldGen

  /** The cells a `LocalBlockPos` may address. */
  predicate InBounds(p: LocalBlockPos)
  {
    p.x < WIDTH && p.y < HEIGHT && p.z < LENGTH
  }

  /** The array slot of an in-bounds cell. */
  function Index(p: LocalBlockPos): (i: nat)
    requires InBounds(p)
    ensures i < VOLUME
  {
    p.x + p.z * WIDTH + p.y * WIDTH * LENGTH
  }

  /** The cell stored at slot `i`: the inverse of `Index`. */
  function PosOf(i: nat): LocalBlockPos
    requires i < VOLUME
  {
    LocalBlockPos(i % WIDTH, i / (WIDTH * LENGTH), i / WIDTH % LENGTH)
  }

  /** The index digits of a cell are its coordinates. */
  lemma IndexDigits(p: LocalBlockPos)
    requires InBounds(p)
    ensures Index(p) % WIDTH == p.x
    ensures Index(p) / WIDTH % LENGTH == p.z
    ensures Index(p) / (WIDTH * LENGTH) == p.y
  {
    var i := Index(p);
    assert i == p.x + 16 * (p.z + 16 * p.y);
    assert i / 16 == p.z + 16 * p.y;
    assert i == (p.x + 16 * p.z) + 256 * p.y;
  }

  /** Distinct cells use distinct slots, so a write touches no other cell. */
  lemma {:induction false} IndexInjective(p: LocalBlockPos, q: LocalBlockPos)
    requires InBounds(p) && InBounds(q)
    ensures Index(p) == Index(q) <==> p == q
  {
    if Index(p) == Index(q) {
      IndexDigits(p);
      IndexDigits(q);
    }
  }

  /** Every slot belongs to exactly one cell: `Index` and `PosOf` are inverse bijections. */
  lemma {:induction false} IndexBijective(i: nat, p: LocalBlockPos)
    requires i < VOLUME && InBounds(p)
    ensures InBounds(PosOf(i)) && Index(PosOf(i)) == i
    ensures PosOf(Index(p)) == p
  {
    IndexDigits(p);
    var q := PosOf(i);
    assert i == q.x + 16 * (i / 16);
    assert i / 16 == q.z + 16 * q.y;
  }

  /** `get_block` over the array contents: the stored id in bounds, air outside. */
  function CellAt(cells: seq<byte>, p: LocalBlockPos): (r: byte)
    requires |cells| == VOLUME
    ensures !InBounds(p) ==> r == AIR
  {
    if p.x >= WIDTH || p.y >= HEIGHT || p.z >= LENGTH then 0
    else cells[Index(p)]
  }

  /** Writing slot `Index(p)` changes the cell at `p` and no other cell. */
  lemma CellAfterWrite(cells: seq<byte>, p: LocalBlockPos, b: byte, q: LocalBlockPos)
    requires |cells| == VOLUME && InBounds(p)
    ensures CellAt(cells[Index(p) := b], q) == if q == p then b else CellAt(cells, q)
  {
    if InBounds(q) {
      IndexInjective(p, q);
    }
  }

  class Chunk {
    const blocks: array<byte>
    var isDirty: bool

    ghost predicate Valid()
    {
      blocks.Length == VOLUME
    }

    /** The chunk literal `create` starts from: every cell air, and dirty. */
    constructor Blank()
      ensures Valid() && fresh(blocks)
      ensures isDirty
      ensures forall q :: GetBlock(q) == AIR
    {
      blocks := new byte[VOLUME](_ => 0);
      isDirty := true;
    }

    /** `get_block`: air outside the chunk, otherwise the cell's slot. */
    function GetBlock(p: LocalBlockPos): (b: byte)
      requires Valid()
      reads blocks
      ensures !InBounds(p) ==> b == AIR
      ensures InBounds(p) ==> b == blocks[Index(p)]
    {
      CellAt(blocks[..], p)
    }

    /** `set_block`: fails outside the chunk, otherwise stores `b` and marks the chunk dirty. */
    method SetBlock(p: LocalBlockPos, b: byte) returns (ok: bool)
      requires Valid()
      modifies this, blocks
      ensures ok == InBounds(p)
      ensures ok ==> blocks[..] == old(blocks[..])[Index(p) := b] && isDirty
      ensures !ok ==> blocks[..] == old(blocks[..]) && isDirty == old(isDirty)
      ensures forall q :: GetBlock(q) == if ok && q == p then b else old(GetBlock(q))
    {
      if p.x >= WIDTH || p.y >= HEIGHT || p.z >= LENGTH {
        return false;
      }
      ghost var before := blocks[..];
      blocks[Index(p)] := b;
      MarkDirty();
      forall q ensures GetBlock(q) == if q == p then b else CellAt(before, q) {
        CellAfterWrite(before, p, b, q);
      }
      ok := true;
    }

    method MarkDirty()
      modifies this
      ensures isDirty
    {
      isDirty := true;
    }

    method MarkClean()
      modifies this
      ensures !isDirty
    {
      isDirty := false;
    }

    function IsDirty(): (d: bool)
      reads this
      ensures d == isDirty
    {
      isDirty
    }
  }

  /** The world column of a chunk cell: the chunk origin plus the local offset. */
  function WorldColumn(position: ChunkPos, x: nat, z: nat): (w: (int, int))
    requires ValidChunkPos(position) && x < WIDTH && z < LENGTH
    ensures InI64(w.0 + SECOND_DX) && InI64(w.1 + SECOND_DZ)
    ensures InI64(w.0) && InI64(w.1)
  {
    var o := ToBlockXZ(position);
    (x + o.0, z + o.1)
  }

  /** The block `create` chooses at height `y` of a column of height `height`,
      given the column's two hashes: the if-chain of the filler loop. */
  function GenBlock(gen: Generator, h0: bv64, h1: bv64, height: nat, y: nat): (b: byte)
    requires y < height
    ensures b in {BEDROCK, STONE, DIRT, GRASS_BLOCK}
    ensures b == BEDROCK <==> y == 0
    ensures b == GRASS_BLOCK ==> y == height - 1
  {
    if y == 0 then BEDROCK
    else if gen.deepStone(h0, y) then STONE
    else if height - y <= 1 then (if gen.topDirt(h1, y) then DIRT else GRASS_BLOCK)
    else if height - y <= 4 && gen.subsoilDirt(h0, height - y) then DIRT
    else STONE
  }

  /** What a generated chunk holds at cell `q`: the chosen block below the
      column height, air above it and outside the chunk. */
  function GeneratedCell(gen: Generator, position: ChunkPos, q: LocalBlockPos): byte
    requires ValidChunkPos(position)
  {
    if !InBounds(q) then AIR
    else
      var w := WorldColumn(position, q.x, q.z);
      var height := gen.height(w.0, w.1);
      if q.y < height then
        GenBlock(gen, gen.columnHash(w.0, w.1),
                 gen.columnHash(w.0 + SECOND_DX, w.1 + SECOND_DZ), height, q.y)
      else AIR
  }

  /** Cells at or above the column height stay air. */
  lemma GeneratedAboveHeight(gen: Generator, position: ChunkPos, q: LocalBlockPos)
    requires ValidChunkPos(position) && InBounds(q)
    requires q.y >= gen.height(WorldColumn(position, q.x, q.z).0, WorldColumn(position, q.x, q.z).1)
    ensures GeneratedCell(gen, position, q) == AIR
  {
  }

  /** The bottom cell of a non-empty column is bedrock. */
  lemma GeneratedBedrock(gen: Generator, position: ChunkPos, q: LocalBlockPos)
    requires ValidChunkPos(position) && InBounds(q) && q.y == 0
    requires gen.height(WorldColumn(position, q.x, q.z).0, WorldColumn(position, q.x, q.z).1) > 0
    ensures GeneratedCell(gen, position, q) == BEDROCK
  {
  }

  /** Generation places only air, bedrock, stone, dirt and grass. */
  lemma GeneratedKinds(gen: Generator, position: ChunkPos, q: LocalBlockPos)
    requires ValidChunkPos(position)
    ensures GeneratedCell(gen, position, q) in {AIR, BEDROCK, STONE, DIRT, GRASS_BLOCK}
  {
  }

  /** Generation is deterministic and sees the column only through its world
      coordinates: two chunks whose columns agree hold equal cells. */
  lemma GeneratedDependsOnColumn(gen: Generator, p1: ChunkPos, p2: ChunkPos, q: LocalBlockPos)
    requires ValidChunkPos(p1) && ValidChunkPos(p2) && InBounds(q)
    requires WorldColumn(p1, q.x, q.z) == WorldColumn(p2, q.x, q.z)
    ensures GeneratedCell(gen, p1, q) == GeneratedCell(gen, p2, q)
  {
    var w := WorldColumn(p1, q.x, q.z);
    var h0 := gen.columnHash(w.0, w.1);
    var h1 := gen.columnHash(w.0 + SECOND_DX, w.1 + SECOND_DZ);
    var height := gen.height(w.0, w.1);
    if q.y < height {
      assert GeneratedCell(gen, p1, q) == GenBlock(gen, h0, h1, height, q.y);
      assert GeneratedCell(gen, p2, q) == GenBlock(gen, h0, h1, height, q.y);
    }
  }

  /** Cells done by the filler loops before column (x, z) at height y, in
      x-major, then z, then y order. */
  predicate Before(q: LocalBlockPos, x: nat, z: nat, y: nat)
  {
    q.x < x || (q.x == x && (q.z < z || (q.z == z && q.y < y)))
  }

  /** `Chunk::create`: fill a blank chunk column by column with the generated blocks. */
  method Create(gen: Generator, position: ChunkPos) returns (c: Chunk)
    requires ValidChunkPos(position)
    ensures fresh(c) && fresh(c.blocks) && c.Valid()
    ensures c.isDirty
    ensures forall q :: c.GetBlock(q) == GeneratedCell(gen, position, q)
  {
    c := new Chunk.Blank();
    for x := 0 to WIDTH
      invariant c.Valid() && c.isDirty && fresh(c.blocks)
      invariant forall q :: c.GetBlock(q) == if Before(q, x, 0, 0) then GeneratedCell(gen, position, q) else AIR
    {
      for z := 0 to LENGTH
        invariant c.Valid() && c.isDirty && fresh(c.blocks)
        invariant forall q :: c.GetBlock(q) == if Before(q, x, z, 0) then GeneratedCell(gen, position, q) else AIR
      {
        var o := ToBlockXZ(position);
        var worldX := x + o.0;
        var worldZ := z + o.1;
        assert (worldX, worldZ) == WorldColumn(position, x, z);
        var height := gen.height(worldX, worldZ);
        var h0 := gen.columnHash(worldX, worldZ);
        var h1 := gen.columnHash(worldX + SECOND_DX, worldZ + SECOND_DZ);
        for y := 0 to height
          invariant c.Valid() && c.isDirty && fresh(c.blocks)
          invariant forall q :: c.GetBlock(q) == if Before(q, x, z, y) then GeneratedCell(gen, position, q) else AIR
        {
          var block := STONE;
          if y == 0 {
            block := BEDROCK;
          } else if gen.deepStone(h0, y) {
          } else if height - y <= 1 {
            block := if gen.topDirt(h1, y) then DIRT else GRASS_BLOCK;
          } else if height - y <= 4 && gen.subsoilDirt(h0, height - y) {
            block := DIRT;
          }
          assert block == GenBlock(gen, h0, h1, height, y);
          assert y < HEIGHT ==> block == GeneratedCell(gen, position, LocalBlockPos(x, y, z));
          var written := c.SetBlock(LocalBlockPos(x, y, z), block);
        }
      }
    }
  }
}
