/**
 * The server's world store: the loaded chunks keyed by chunk position, the
 * region loader that keeps exactly a disc of chunks loaded around a centre,
 * and block access by world position. Whenever a chunk appears or
 * disappears, or an edge block changes, the chunks whose meshes show that
 * boundary are marked dirty.
 */
module Server {
  import opened Bits
  import opened Dimensions
  import opened Wrappers
  import opened Coords
  import opened WorldGen
  import opened Chunks

  /** A chunk position whose four edge-neighbours are representable as `i32`. */
  predicate Interior(p: ChunkPos)
  {
    I32_MIN < p.x < I32_MAX && I32_MIN < p.z < I32_MAX
  }

  /** `k` is one of the four edge-neighbours `(x±1, z)`, `(x, z±1)` of `p`. */
  predicate Adjacent(k: ChunkPos, p: ChunkPos)
  {
    || k == ChunkPos(p.x - 1, p.z) || k == ChunkPos(p.x + 1, p.z)
    || k == ChunkPos(p.x, p.z - 1) || k == ChunkPos(p.x, p.z + 1)
  }

  /** Some edge-neighbour of `k` lies in `s`. */
  predicate NeighbourIn(k: ChunkPos, s: set<ChunkPos>)
  {
    || ChunkPos(k.x - 1, k.z) in s || ChunkPos(k.x + 1, k.z) in s
    || ChunkPos(k.x, k.z - 1) in s || ChunkPos(k.x, k.z + 1) in s
  }

  /** Adjacency is symmetric: `k` has a neighbour in `{p}` exactly when it is a neighbour of `p`. */
  lemma NeighbourOfSingleton(k: ChunkPos, p: ChunkPos)
    ensures NeighbourIn(k, {p}) <==> Adjacent(k, p)
  {
  }

  /** The squared distance between two chunk positions. */
  function DistSq(c: ChunkPos, p: ChunkPos): int
  {
    (p.x - c.x) * (p.x - c.x) + (p.z - c.z) * (p.z - c.z)
  }

  /** The region of `load_region(c, r)`: chunks at distance at most `r`,
      the boundary circle included. */
  predicate InDisc(c: ChunkPos, r: nat, p: ChunkPos)
  {
    DistSq(c, p) <= r * r
  }

  lemma SquareNonNegative(a: int)
    ensures a * a >= 0
  {
  }

  /** A coordinate of magnitude above `r` has a square above `r * r`. */
  lemma SquareExceeds(a: int, r: nat)
    requires a > r || a + r < 0
    ensures a * a > r * r
  {
    var m: int := if a < 0 then -a else a;
    assert m * m == a * a;
    assert m >= r + 1;
    assert m * m >= m * (r + 1);
    assert m * (r + 1) >= (r + 1) * (r + 1);
  }

  /** The disc lies inside the square `[-r, r]` around its centre. */
  lemma DiscInBox(c: ChunkPos, r: nat, p: ChunkPos)
    requires InDisc(c, r, p)
    ensures p.x - c.x <= r && 0 <= p.x - c.x + r
    ensures p.z - c.z <= r && 0 <= p.z - c.z + r
  {
    var dx, dz := p.x - c.x, p.z - c.z;
    assert DistSq(c, p) == dx * dx + dz * dz;
    SquareNonNegative(dx);
    SquareNonNegative(dz);
    if dx > r || dx + r < 0 {
      SquareExceeds(dx, r);
    }
    if dz > r || dz + r < 0 {
      SquareExceeds(dz, r);
    }
  }

  /** The radii and centres for which `load_region` is modelled exactly: the
      `i32` arithmetic cannot overflow (the radius is exact as `i32`, `x*x + z*z`
      fits for every scanned offset, every inserted chunk keeps its neighbours
      representable), and the radius is below 4096, so that r*r and every
      squared distance up to it are exact in `f32` and the square-root tests
      agree with the integer test `dx*dx + dz*dz > r*r`. */
  predicate RegionFits(c: ChunkPos, r: nat)
  {
    && ValidChunkPos(c)
    && r < 0x1000
    && 2 * r * r <= I32_MAX
    && I32_MIN < c.x - r && c.x + r < I32_MAX
    && I32_MIN < c.z - r && c.z + r < I32_MAX
  }

  /** `chunk - position` and its squared length fit `i32` for a loaded chunk. */
  predicate DistFits(c: ChunkPos, k: ChunkPos)
  {
    InI32(k.x - c.x) && InI32(k.z - c.z) && InI32(DistSq(c, k))
  }

  /** Positions `load_region` inserts: inside the disc, not loaded before. */
  predicate Inserted(keys: set<ChunkPos>, c: ChunkPos, r: nat, p: ChunkPos)
  {
    InDisc(c, r, p) && p !in keys
  }

  /** Positions `load_region` removes: loaded before, outside the disc. */
  predicate Removed(keys: set<ChunkPos>, c: ChunkPos, r: nat, p: ChunkPos)
  {
    p in keys && !InDisc(c, r, p)
  }

  /** A position whose presence `load_region` changes. */
  predicate Changed(keys: set<ChunkPos>, c: ChunkPos, r: nat, p: ChunkPos)
  {
    Inserted(keys, c, r, p) || Removed(keys, c, r, p)
  }

  /** Some edge-neighbour of `k` is inserted or removed by `load_region`. */
  predicate NeighbourChanged(keys: set<ChunkPos>, c: ChunkPos, r: nat, k: ChunkPos)
  {
    || Changed(keys, c, r, ChunkPos(k.x - 1, k.z)) || Changed(keys, c, r, ChunkPos(k.x + 1, k.z))
    || Changed(keys, c, r, ChunkPos(k.x, k.z - 1)) || Changed(keys, c, r, ChunkPos(k.x, k.z + 1))
  }

  /** Some edge-neighbour of `k` is inserted by `load_region`. */
  predicate NeighbourInserted(keys: set<ChunkPos>, c: ChunkPos, r: nat, k: ChunkPos)
  {
    || Inserted(keys, c, r, ChunkPos(k.x - 1, k.z)) || Inserted(keys, c, r, ChunkPos(k.x + 1, k.z))
    || Inserted(keys, c, r, ChunkPos(k.x, k.z - 1)) || Inserted(keys, c, r, ChunkPos(k.x, k.z + 1))
  }

  /** The cells of row `x` (offset from the centre) before offset `z` that
      the row scan inserts: in the disc and not loaded in `keys`. */
  predicate RowScanned(keys: set<ChunkPos>, c: ChunkPos, r: nat, x: int, z: int, k: ChunkPos)
  {
    InDisc(c, r, k) && k.x - c.x == x && k.z - c.z < z && k !in keys
  }

  /** One step of the row scan: the cells before `z + 1` are those before
      `z` and, when it is in the disc and not loaded, the cell at offset `(x, z)`. */
  lemma RowStep(keys: set<ChunkPos>, c: ChunkPos, r: nat, x: int, z: int, k: ChunkPos)
    ensures RowScanned(keys, c, r, x, z + 1, k) <==>
            RowScanned(keys, c, r, x, z, k) ||
            (k == ChunkPos(c.x + x, c.z + z) && x * x + z * z <= r * r && k !in keys)
  {
    if k.x - c.x == x && k.z - c.z == z {
      assert k == ChunkPos(c.x + x, c.z + z);
      assert DistSq(c, k) == x * x + z * z;
    }
  }

  /** Once the loaded set is the disc, loading the same region again inserts
      nothing, removes nothing and dirties no chunk. */
  lemma {:induction false} LoadRegionQuiescent(keys: set<ChunkPos>, c: ChunkPos, r: nat)
    requires forall p :: p in keys <==> InDisc(c, r, p)
    ensures forall p :: !Changed(keys, c, r, p) && !NeighbourChanged(keys, c, r, p)
  {
    forall p ensures !Changed(keys, c, r, p) && !NeighbourChanged(keys, c, r, p) {
      assert ChunkPos(p.x - 1, p.z) in keys <==> InDisc(c, r, ChunkPos(p.x - 1, p.z));
      assert ChunkPos(p.x + 1, p.z) in keys <==> InDisc(c, r, ChunkPos(p.x + 1, p.z));
      assert ChunkPos(p.x, p.z - 1) in keys <==> InDisc(c, r, ChunkPos(p.x, p.z - 1));
      assert ChunkPos(p.x, p.z + 1) in keys <==> InDisc(c, r, ChunkPos(p.x, p.z + 1));
    }
  }

  /** After a load the second call's arithmetic fits again: every chunk of
      the disc is close enough to the centre. */
  lemma DiscDistFits(c: ChunkPos, r: nat, p: ChunkPos)
    requires RegionFits(c, r) && InDisc(c, r, p)
    ensures DistFits(c, p) && Interior(p)
  {
    DiscInBox(c, r, p);
    SquareNonNegative(p.x - c.x);
    SquareNonNegative(p.z - c.z);
    SquareNonNegative(r);
  }

  /** `a as usize` for an `i64` a, on a 64-bit target: negative values wrap
      to the top of the range. */
  function AsUsize(a: int): (u: nat)
    requires InI64(a)
    ensures 0 <= a ==> u == a
    ensures a < 0 ==> u >= HEIGHT
  {
    if a < 0 then a + TWO_64 else a
  }

  /** The local cell of a block position inside its owning chunk: the offsets
      from the chunk's origin corner and `y`, each cast to `usize`. When the
      chunk index wraps, an offset lands outside the chunk. */
  function LocalOf(p: BlockPos): (l: LocalBlockPos)
    requires ValidBlockPos(p)
    ensures InChunkRange(p) ==> l.x < WIDTH && l.z < LENGTH
    ensures InBounds(l) <==> InChunkRange(p) && 0 <= p.y < HEIGHT
  {
    var c := ToChunkPos(p);
    LocalOffsets(p);
    LocalBlockPos(WrappingOffset(p.x, c.x * WIDTH), AsUsize(p.y), WrappingOffset(p.z, c.z * LENGTH))
  }

  /** The world position of cell `l` of chunk `c`. */
  function BlockOf(c: ChunkPos, l: LocalBlockPos): BlockPos
    requires ValidChunkPos(c)
  {
    var o := ToBlockXZ(c);
    BlockPos(o.0 + l.x, l.y, o.1 + l.z)
  }

  /** Routing is a bijection between the world positions of a chunk and its cells. */
  lemma RoutingRoundTrip(c: ChunkPos, l: LocalBlockPos)
    requires ValidChunkPos(c) && InBounds(l)
    ensures ValidBlockPos(BlockOf(c, l)) && InChunkRange(BlockOf(c, l))
    ensures ToChunkPos(BlockOf(c, l)) == c && LocalOf(BlockOf(c, l)) == l
  {
    BlockChunkRoundTrip(c, l.x, l.y, l.z);
  }

  /** The neighbour `set_block` also dirties for an edit of cell `l` of chunk
      `c`: the one across the x edge at local x == 0 or x >= 15, and likewise
      across the z edge. */
  predicate EdgeNeighbour(c: ChunkPos, l: LocalBlockPos, k: ChunkPos)
  {
    || (l.x == 0 && k == ChunkPos(c.x - 1, c.z))
    || (l.x != 0 && l.x >= WIDTH - 1 && k == ChunkPos(c.x + 1, c.z))
    || (l.z == 0 && k == ChunkPos(c.x, c.z - 1))
    || (l.z != 0 && l.z >= LENGTH - 1 && k == ChunkPos(c.x, c.z + 1))
  }

  /** A chunk freshly filled by the generator for position `pos`. */
  ghost predicate HoldsGenerated(chunk: Chunk, gen: Generator, pos: ChunkPos)
    requires chunk.Valid() && ValidChunkPos(pos)
    reads chunk.blocks
  {
    forall q :: chunk.GetBlock(q) == GeneratedCell(gen, pos, q)
  }

  class ServerWorld {
    var chunks: map<ChunkPos, Chunk>
    const gen: Generator

    /** Keys keep their neighbours representable; distinct keys hold
        distinct chunks with distinct block arrays. */
    ghost predicate Valid()
      reads this
    {
      && (forall k | k in chunks :: Interior(k) && chunks[k].Valid())
      && (forall k1, k2 | k1 in chunks && k2 in chunks && k1 != k2 ::
            chunks[k1] != chunks[k2] && chunks[k1].blocks != chunks[k2].blocks)
    }

    /** The block arrays of the loaded chunks. */
    ghost function Arrays(): set<array<byte>>
      reads this
    {
      set k | k in chunks :: chunks[k].blocks
    }

    /** `ServerWorld::create(seed)`: no chunk loaded. */
    constructor (seed: bv32, height: (int, int) -> nat, deepStone: (bv64, nat) -> bool,
                 topDirt: (bv64, nat) -> bool, subsoilDirt: (bv64, nat) -> bool)
      ensures Valid() && chunks == map[]
      ensures gen == NewGenerator(seed, height, deepStone, topDirt, subsoilDirt)
    {
      chunks := map[];
      gen := NewGenerator(seed, height, deepStone, topDirt, subsoilDirt);
    }

    /** `get_chunk`. */
    function GetChunk(p: ChunkPos): (r: Option<Chunk>)
      reads this
      ensures r.Some? <==> p in chunks
      ensures r.Some? ==> r.value == chunks[p]
    {
      if p in chunks then Some(chunks[p]) else None
    }

    /** `get_block`: air when the owning chunk is not loaded, otherwise the
        chunk's cell (air when `y` is outside `[0, 256)` or the chunk index
        wrapped). */
    function GetBlock(p: BlockPos): (r: byte)
      requires Valid() && ValidBlockPos(p)
      reads this, Arrays()
      ensures ToChunkPos(p) !in chunks ==> r == AIR
      ensures !(InChunkRange(p) && 0 <= p.y < HEIGHT) ==> r == AIR
      ensures ToChunkPos(p) in chunks ==> r == chunks[ToChunkPos(p)].GetBlock(LocalOf(p))
    {
      var c := ToChunkPos(p);
      if c in chunks then chunks[c].GetBlock(LocalOf(p)) else AIR
    }

    /** Mark the chunk at `p` dirty, if one is loaded there. */
    method MarkDirtyAt(p: ChunkPos)
      requires Valid()
      modifies set k | k in chunks :: chunks[k]
      ensures forall k | k in chunks :: chunks[k].isDirty == (old(chunks[k].isDirty) || k == p)
    {
      if p in chunks {
        chunks[p].MarkDirty();
      }
    }

    /** Mark the loaded edge-neighbours of `p` dirty. */
    method MarkNeighbours(p: ChunkPos)
      requires Valid()
      modifies set k | k in chunks :: chunks[k]
      ensures forall k | k in chunks :: chunks[k].isDirty == (old(chunks[k].isDirty) || Adjacent(k, p))
    {
      MarkDirtyAt(ChunkPos(p.x - 1, p.z));
      MarkDirtyAt(ChunkPos(p.x + 1, p.z));
      MarkDirtyAt(ChunkPos(p.x, p.z - 1));
      MarkDirtyAt(ChunkPos(p.x, p.z + 1));
    }

    /** `set_block`: route to the owning chunk; fail if it is not loaded or
        the cell is outside it; on success also dirty the neighbour across
        an edge the cell lies on. */
    method SetBlock(p: BlockPos, b: byte) returns (ok: bool)
      requires Valid() && ValidBlockPos(p)
      modifies set k | k in chunks :: chunks[k]
      modifies Arrays()
      ensures ok <==> ToChunkPos(p) in chunks && InChunkRange(p) && 0 <= p.y < HEIGHT
      ensures ok ==> GetBlock(p) == b
      ensures forall k, l | k in chunks ::
                chunks[k].GetBlock(l) == if ok && k == ToChunkPos(p) && l == LocalOf(p) then b
                                         else old(chunks[k].GetBlock(l))
      ensures forall k | k in chunks ::
                chunks[k].isDirty == (old(chunks[k].isDirty) ||
                                      (ok && (k == ToChunkPos(p) || EdgeNeighbour(ToChunkPos(p), LocalOf(p), k))))
    {
      var c := ToChunkPos(p);
      if c !in chunks {
        return false;
      }
      var chunk := chunks[c];
      var local := LocalOf(p);
      ok := chunk.SetBlock(local, b);
      if !ok {
        return;
      }
      if local.x == 0 {
        MarkDirtyAt(ChunkPos(c.x - 1, c.z));
      } else if local.x >= WIDTH - 1 {
        MarkDirtyAt(ChunkPos(c.x + 1, c.z));
      }
      if local.z == 0 {
        MarkDirtyAt(ChunkPos(c.x, c.z - 1));
      } else if local.z >= LENGTH - 1 {
        MarkDirtyAt(ChunkPos(c.x, c.z + 1));
      }
    }

    /** The first phase of `load_region`: the loaded positions outside the disc. */
    method CollectFar(center: ChunkPos, radius: nat) returns (far: seq<ChunkPos>)
      requires Valid() && ValidChunkPos(center)
      requires forall k | k in chunks :: DistFits(center, k)
      ensures forall k :: k in far <==> Removed(chunks.Keys, center, radius, k)
    {
      far := [];
      var pending := chunks.Keys;
      while pending != {}
        invariant pending <= chunks.Keys
        invariant forall k :: k in far <==> k in chunks && k !in pending && !InDisc(center, radius, k)
        decreases |pending|
      {
        var k :| k in pending;
        var d := Sub(k, center);
        assert d.x * d.x + d.z * d.z == DistSq(center, k);
        // `sqrt(d.x * d.x + d.z * d.z) > radius` on non-negative integers
        if d.x * d.x + d.z * d.z > radius * radius {
          far := far + [k];
        }
        pending := pending - {k};
      }
    }

    /** The second phase: dirty the neighbours of each far chunk, then drop it. */
    method RemoveChunks(far: seq<ChunkPos>)
      requires Valid()
      modifies this, set k | k in chunks :: chunks[k]
      ensures Valid()
      ensures forall k :: k in chunks <==> k in old(chunks) && k !in far
      ensures forall k | k in chunks :: chunks[k] == old(chunks[k])
      ensures forall k | k in chunks ::
                chunks[k].isDirty == (old(chunks[k].isDirty) || NeighbourIn(k, set p | p in far))
    {
      ghost var removed: set<ChunkPos> := {};
      for i := 0 to |far|
        invariant Valid()
        invariant forall p :: p in removed <==> p in far[..i]
        invariant forall k :: k in chunks <==> k in old(chunks) && k !in removed
        invariant forall k | k in chunks :: chunks[k] == old(chunks[k])
        invariant forall k | k in chunks :: chunks[k].isDirty == (old(chunks[k].isDirty) || NeighbourIn(k, removed))
      {
        assert far[..i + 1] == far[..i] + [far[i]];
        MarkNeighbours(far[i]);
        forall k | k in chunks ensures NeighbourIn(k, removed + {far[i]}) <==> NeighbourIn(k, removed) || Adjacent(k, far[i]) {
          NeighbourOfSingleton(k, far[i]);
        }
        chunks := chunks - {far[i]};
        removed := removed + {far[i]};
      }
      assert far[..|far|] == far;
      assert removed == set p | p in far;
    }
    /** Dirty the loaded neighbours of the missing position `p`, then load
        a freshly generated chunk there. */
    method InsertChunk(p: ChunkPos)
      requires Valid() && Interior(p) && p !in chunks
      modifies this, set k | k in chunks :: chunks[k]
      ensures Valid()
      ensures chunks.Keys == old(chunks.Keys) + {p}
      ensures forall k | k in old(chunks) :: chunks[k] == old(chunks[k])
      ensures fresh(chunks[p]) && chunks[p].isDirty && HoldsGenerated(chunks[p], gen, p)
      ensures forall k | k in old(chunks) :: chunks[k].isDirty == (old(chunks[k].isDirty) || Adjacent(k, p))
    {
      MarkNeighbours(p);
      var chunk := Create(gen, p);
      chunks := chunks[p := chunk];
    }

    /** One row of the third phase: for offset `x`, create every missing
        chunk of the disc in that row, dirtying its loaded neighbours first. */
    method InsertRow(center: ChunkPos, radius: nat, x: int) returns (ghost added: set<ChunkPos>)
      requires Valid() && RegionFits(center, radius) && 0 <= x + radius && x <= radius
      modifies this, set k | k in chunks :: chunks[k]
      ensures Valid()
      ensures forall k :: k in added <==> InDisc(center, radius, k) && k.x - center.x == x && k !in old(chunks)
      ensures forall k :: k in chunks <==> k in old(chunks) || k in added
      ensures forall k | k in old(chunks) :: chunks[k] == old(chunks[k])
      ensures forall k | k in added :: fresh(chunks[k]) && chunks[k].isDirty && HoldsGenerated(chunks[k], gen, k)
      ensures forall k | k in old(chunks) :: chunks[k].isDirty == (old(chunks[k].isDirty) || NeighbourIn(k, added))
    {
      ghost var keys := chunks.Keys;
      added := {};
      var iradius: int := radius;
      forall k | InDisc(center, radius, k) ensures -iradius <= k.z - center.z <= iradius {
        DiscInBox(center, radius, k);
      }
      for z := -iradius to iradius + 1
        invariant Valid()
        invariant forall k :: k in added <==> RowScanned(keys, center, radius, x, z, k)
        invariant forall k :: k in chunks <==> k in keys || k in added
        invariant forall k | k in keys :: chunks[k] == old(chunks[k])
        invariant forall k | k in added :: fresh(chunks[k]) && chunks[k].isDirty && HoldsGenerated(chunks[k], gen, k)
        invariant forall k | k in keys :: chunks[k].isDirty == (old(chunks[k].isDirty) || NeighbourIn(k, added))
      {
        forall k ensures RowScanned(keys, center, radius, x, z + 1, k) <==>
                         RowScanned(keys, center, radius, x, z, k) ||
                         (k == ChunkPos(center.x + x, center.z + z) && x * x + z * z <= radius * radius && k !in keys) {
          RowStep(keys, center, radius, x, z, k);
        }
        // `sqrt(x * x + z * z) > radius` on non-negative integers
        if x * x + z * z > radius * radius {
          continue;
        }
        var p := Add(center, ChunkPos(x, z));
        if p in chunks {
          assert p in keys;
          continue;
        }
        assert forall k :: k in added + {p} <==> RowScanned(keys, center, radius, x, z + 1, k);
        InsertChunk(p);
        forall k | k in keys ensures NeighbourIn(k, added + {p}) <==> NeighbourIn(k, added) || Adjacent(k, p) {
          NeighbourOfSingleton(k, p);
        }
        added := added + {p};
      }
    }

    /** The third phase: scan the square around the centre row by row. */
    method InsertDisc(center: ChunkPos, radius: nat)
      requires Valid() && RegionFits(center, radius)
      modifies this, set k | k in chunks :: chunks[k]
      ensures Valid()
      ensures forall k :: k in chunks <==> k in old(chunks) || InDisc(center, radius, k)
      ensures forall k | k in old(chunks) :: chunks[k] == old(chunks[k])
      ensures forall k | k in chunks && k !in old(chunks) ::
                fresh(chunks[k]) && chunks[k].isDirty && HoldsGenerated(chunks[k], gen, k)
      ensures forall k | k in old(chunks) ::
                chunks[k].isDirty == (old(chunks[k].isDirty) || NeighbourInserted(old(chunks.Keys), center, radius, k))
    {
      ghost var keys := chunks.Keys;
      ghost var inserted: set<ChunkPos> := {};
      var iradius: int := radius;
      forall k | InDisc(center, radius, k) ensures -iradius <= k.x - center.x <= iradius {
        DiscInBox(center, radius, k);
      }
      for x := -iradius to iradius + 1
        invariant Valid()
        invariant forall k :: k in inserted <==> Inserted(keys, center, radius, k) && k.x - center.x < x
        invariant forall k :: k in chunks <==> k in keys || k in inserted
        invariant forall k | k in keys :: chunks[k] == old(chunks[k])
        invariant forall k | k in inserted ::
                    fresh(chunks[k]) && chunks[k].isDirty && HoldsGenerated(chunks[k], gen, k)
        invariant forall k | k in keys :: chunks[k].isDirty == (old(chunks[k].isDirty) || NeighbourIn(k, inserted))
      {
        var added := InsertRow(center, radius, x);
        inserted := inserted + added;
      }
    }

    /** `load_region(center, radius)`: afterwards exactly the disc is loaded;
        chunks that stay are the same objects with the same blocks, dirtied
        when an edge-neighbour appeared or disappeared; new chunks are
        generated and dirty. */
    method LoadRegion(center: ChunkPos, radius: nat)
      requires Valid() && RegionFits(center, radius)
      requires forall k | k in chunks :: DistFits(center, k)
      modifies this, set k | k in chunks :: chunks[k]
      ensures Valid()
      ensures forall k :: k in chunks <==> InDisc(center, radius, k)
      ensures forall k | k in chunks && k in old(chunks) ::
                && chunks[k] == old(chunks[k])
                && chunks[k].blocks[..] == old(chunks[k].blocks[..])
                && chunks[k].isDirty == (old(chunks[k].isDirty) || NeighbourChanged(old(chunks.Keys), center, radius, k))
      ensures forall k | k in chunks && k !in old(chunks) ::
                fresh(chunks[k]) && chunks[k].isDirty && HoldsGenerated(chunks[k], gen, k)
    {
      var far := CollectFar(center, radius);
      RemoveChunks(far);
      InsertDisc(center, radius);
    }
  }
}
