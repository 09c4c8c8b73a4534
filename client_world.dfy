/**
 * The client's mesh cache: one `ChunkMesh` per chunk position. Each update
 * drops the meshes that are out of view and whose chunk is gone or dirty,
 * then rebuilds the mesh of at most one loaded, dirty chunk in view and
 * marks that chunk clean. Whether a chunk position is in view is a
 * parameter: the floating-point distance test is not modelled.
 */
module Client {
  import opened Bits
  import opened Wrappers
  import opened Coords
  import opened Chunks
  import opened Resources
  import opened Meshing
  import opened Server

  /** The dirty flag of every loaded chunk. */
  ghost function Flags(world: ServerWorld): map<ChunkPos, bool>
    reads world, world.chunks.Values
  {
    map k | k in world.chunks :: world.chunks[k].isDirty
  }

  /** The mesh at `k` is dropped: its chunk is not loaded and clean, and
      `k` is out of view. */
  predicate Evictable(flags: map<ChunkPos, bool>, inRange: ChunkPos -> bool, k: ChunkPos)
  {
    (k !in flags || flags[k]) && !inRange(k)
  }

  /** The chunk at `p` may be rebuilt: it is loaded, dirty and in view. */
  predicate Candidate(flags: map<ChunkPos, bool>, inRange: ChunkPos -> bool, p: ChunkPos)
  {
    p in flags && flags[p] && inRange(p)
  }

  /** The four edge-neighbours of `p`, as `update` looks them up. */
  function Neighbours(world: ServerWorld, p: ChunkPos): NextChunks
    reads world
  {
    NextChunks(world.GetChunk(ChunkPos(p.x - 1, p.z)), world.GetChunk(ChunkPos(p.x + 1, p.z)),
               world.GetChunk(ChunkPos(p.x, p.z - 1)), world.GetChunk(ChunkPos(p.x, p.z + 1)))
  }

  /** The vertex words a build produces from the given chunk cells,
      neighbour cells and registry table. */
  ghost function Built(cells: seq<byte>, next: NextCells, table: seq<Block>): seq<u32>
    requires WellFormed(cells, next) && |table| > 0
  {
    Map(PackCorner, Mesh(cells, next, table))
  }

  /** The loaded edge-neighbours of a loaded chunk are valid chunks. */
  lemma NeighboursValid(world: ServerWorld, p: ChunkPos)
    requires world.Valid()
    ensures ValidNext(Neighbours(world, p))
  {
  }

  /** The `chunks_to_update` scan: the loaded chunks that are dirty and in view. */
  method DirtyInRange(inRange: ChunkPos -> bool, world: ServerWorld) returns (update: seq<ChunkPos>)
    ensures forall p :: p in update <==> Candidate(Flags(world), inRange, p)
  {
    update := [];
    var pending := world.chunks.Keys;
    while pending != {}
      invariant pending <= world.chunks.Keys
      invariant forall p :: p in update <==> p in world.chunks && p !in pending && Candidate(Flags(world), inRange, p)
      decreases pending
    {
      var p :| p in pending;
      if inRange(p) && world.chunks[p].IsDirty() {
        update := update + [p];
      }
      pending := pending - {p};
    }
  }

  /** The `ChunkData` `update` builds for the loaded `chunk` at `position`,
      with the neighbours it looks up in `world`. */
  method BuildData(registry: BlockRegistry, world: ServerWorld, position: ChunkPos, chunk: Chunk)
    returns (data: ChunkData)
    requires registry.Valid() && world.Valid() && position in world.chunks && chunk == world.chunks[position]
    ensures fresh(data)
    ensures ValidNext(Neighbours(world, position))
    ensures data.vertices ==
            Built(old(chunk.blocks[..]), old(NextCellsOf(Neighbours(world, position))), old(registry.blocks))
  {
    var next := NextChunks(world.GetChunk(ChunkPos(position.x - 1, position.z)),
                           world.GetChunk(ChunkPos(position.x + 1, position.z)),
                           world.GetChunk(ChunkPos(position.x, position.z - 1)),
                           world.GetChunk(ChunkPos(position.x, position.z + 1)));
    assert next == Neighbours(world, position);
    ghost var cells, nc, table := chunk.blocks[..], NextCellsOf(next), registry.blocks;
    data := new ChunkData();
    assert chunk.blocks[..] == cells && NextCellsOf(next) == nc && registry.blocks == table;
    data.Build(registry, chunk, next);
  }

  class ClientWorld {
    var meshes: map<ChunkPos, ChunkMesh>

    /** Distinct positions own distinct meshes. */
    ghost predicate Valid()
      reads this
    {
      forall k1, k2 | k1 in meshes && k2 in meshes && k1 != k2 :: meshes[k1] != meshes[k2]
    }

    /** `ClientWorld::create`: no meshes. */
    constructor ()
      ensures Valid() && meshes == map[]
    {
      meshes := map[];
    }

    /** The first loop of `update`: the cached positions to drop. */
    method CollectEvictable(inRange: ChunkPos -> bool, world: ServerWorld) returns (far: seq<ChunkPos>)
      ensures forall k :: k in far <==> k in meshes && Evictable(Flags(world), inRange, k)
    {
      far := [];
      var pending := meshes.Keys;
      while pending != {}
        invariant pending <= meshes.Keys
        invariant forall k :: k in far <==> k in meshes && k !in pending && Evictable(Flags(world), inRange, k)
        decreases pending
      {
        var k :| k in pending;
        var chunk := world.GetChunk(k);
        if chunk.Some? && !chunk.value.IsDirty() {
        } else if !inRange(k) {
          far := far + [k];
        }
        pending := pending - {k};
      }
    }

    /** The second loop of `update`: remove every collected position. */
    method RemoveAll(far: seq<ChunkPos>)
      requires Valid()
      modifies this
      ensures Valid()
      ensures meshes == old(meshes) - (set k | k in far)
    {
      for i := 0 to |far|
        invariant Valid()
        invariant meshes == old(meshes) - (set j | 0 <= j < i :: far[j])
      {
        assert (set j | 0 <= j < i + 1 :: far[j]) == (set j | 0 <= j < i :: far[j]) + {far[i]};
        meshes := meshes - {far[i]};
      }
      assert (set j | 0 <= j < |far| :: far[j]) == (set k | k in far);
    }

    /** The eviction half of `update`: drop every cached mesh whose
        position is evictable. */
    method Evict(inRange: ChunkPos -> bool, world: ServerWorld)
      requires Valid() && world.Valid()
      modifies this
      ensures Valid()
      ensures forall k :: k in meshes <==> k in old(meshes) && !Evictable(Flags(world), inRange, k)
      ensures forall k | k in meshes :: meshes[k] == old(meshes[k])
      ensures meshes.Values <= old(meshes.Values)
      ensures world.Valid() && Flags(world) == old(Flags(world))
      ensures forall p | p in world.chunks ::
                && ValidNext(Neighbours(world, p))
                && world.chunks[p].blocks[..] == old(world.chunks[p].blocks[..])
                && NextCellsOf(Neighbours(world, p)) == old(NextCellsOf(Neighbours(world, p)))
    {
      var far := CollectEvictable(inRange, world);
      RemoveAll(far);
      forall p | p in world.chunks
        ensures ValidNext(Neighbours(world, p))
        ensures world.chunks[p].blocks[..] == old(world.chunks[p].blocks[..])
        ensures NextCellsOf(Neighbours(world, p)) == old(NextCellsOf(Neighbours(world, p)))
      {
        NeighboursValid(world, p);
      }
      assert (set k | k in far) == (set k | k in old(meshes) && Evictable(Flags(world), inRange, k));
    }

    /** Give `position` a mesh of the built `data`: rebuild the cached mesh
        in place, or cache a new one. */
    method Install(position: ChunkPos, data: ChunkData)
      requires Valid()
      modifies this, meshes.Values
      ensures Valid()
      ensures meshes.Keys == old(meshes.Keys) + {position}
      ensures forall k | k in old(meshes) && k != position ::
                meshes[k] == old(meshes[k]) && meshes[k].numVertices == old(meshes[k].numVertices)
      ensures position in old(meshes) ==> meshes[position] == old(meshes[position])
      ensures meshes[position].numVertices == |data.vertices|
    {
      if position in meshes {
        var mesh := meshes[position];
        mesh.Build(data);
      } else {
        var mesh := new ChunkMesh();
        mesh.Build(data);
        meshes := meshes[ChunkPos(position.x, position.z) := mesh];
      }
    }

    /** Build the vertex data of the loaded chunk at `position` from the
        chunk and its four neighbours, and give it to the cache. */
    method Remesh(registry: BlockRegistry, world: ServerWorld, position: ChunkPos,
                  ghost cells: seq<byte>, ghost nc: NextCells, ghost table: seq<Block>)
      requires Valid() && registry.Valid() && world.Valid() && position in world.chunks
      requires ValidNext(Neighbours(world, position))
      requires cells == world.chunks[position].blocks[..] && nc == NextCellsOf(Neighbours(world, position))
      requires table == registry.blocks
      modifies this, meshes.Values
      ensures Valid()
      ensures meshes.Keys == old(meshes.Keys) + {position}
      ensures forall k | k in old(meshes) && k != position ::
                meshes[k] == old(meshes[k]) && meshes[k].numVertices == old(meshes[k].numVertices)
      ensures position in old(meshes) ==> meshes[position] == old(meshes[position])
      ensures WellFormed(cells, nc) && |table| > 0
      ensures meshes[position].numVertices == |Built(cells, nc, table)|
    {
      var data := BuildData(registry, world, position, world.chunks[position]);
      Install(position, data);
    }

    /** The rebuild half of `update` for the chosen `position`: rebuild its
        mesh, then mark the chunk clean. */
    method Rebuild(registry: BlockRegistry, world: ServerWorld, position: ChunkPos)
      requires Valid() && registry.Valid() && world.Valid() && position in world.chunks
      modifies this, meshes.Values, world.chunks[position]
      ensures Valid()
      ensures meshes.Keys == old(meshes.Keys) + {position}
      ensures forall k | k in old(meshes) && k != position ::
                meshes[k] == old(meshes[k]) && meshes[k].numVertices == old(meshes[k].numVertices)
      ensures position in old(meshes) ==> meshes[position] == old(meshes[position])
      ensures ValidNext(Neighbours(world, position))
      ensures meshes[position].numVertices ==
              |Built(old(world.chunks[position].blocks[..]), old(NextCellsOf(Neighbours(world, position))), old(registry.blocks))|
      ensures !world.chunks[position].isDirty
    {
      NeighboursValid(world, position);
      ghost var cells, nc, table := world.chunks[position].blocks[..], NextCellsOf(Neighbours(world, position)), registry.blocks;
      var chunk := world.GetChunk(position);
      if chunk.Some? {
        Remesh(registry, world, position, cells, nc, table);
      }
      var target := world.GetChunk(position);
      if target.Some? {
        target.value.MarkClean();
      }
    }

    /** The second half of `update`: rebuild the first candidate (any
        loaded, dirty chunk in view, in the map's iteration order) and mark it
        clean. `rebuilt` names the position rebuilt, if any. */
    method Refresh(registry: BlockRegistry, inRange: ChunkPos -> bool, world: ServerWorld,
                   ghost flags: map<ChunkPos, bool>)
      returns (ghost rebuilt: Option<ChunkPos>)
      requires Valid() && registry.Valid() && world.Valid() && flags == Flags(world)
      modifies this, meshes.Values, world.chunks.Values
      ensures Valid()
      ensures rebuilt.None? <==> forall p :: !Candidate(flags, inRange, p)
      ensures rebuilt.Some? ==> Candidate(flags, inRange, rebuilt.value)
      ensures rebuilt.None? ==> meshes == old(meshes)
      ensures rebuilt.Some? ==>
                var p := rebuilt.value;
                && (forall k :: k in meshes <==> k in old(meshes) || k == p)
                && (p in old(meshes) ==> meshes[p] == old(meshes[p]))
                && ValidNext(Neighbours(world, p))
                && meshes[p].numVertices ==
                   |Built(old(world.chunks[p].blocks[..]), old(NextCellsOf(Neighbours(world, p))), old(registry.blocks))|
      ensures forall k | k in old(meshes) && rebuilt != Some(k) ::
                meshes[k] == old(meshes[k]) && meshes[k].numVertices == old(meshes[k].numVertices)
      ensures forall k | k in world.chunks :: world.chunks[k].isDirty == (old(world.chunks[k].isDirty) && rebuilt != Some(k))
    {
      var update := DirtyInRange(inRange, world);
      rebuilt := None;
      if |update| > 0 {
        var position := update[0];
        assert position in update;
        assert Candidate(flags, inRange, position);
        rebuilt := Some(position);
        Rebuild(registry, world, position);
      } else {
        forall p ensures !Candidate(flags, inRange, p) {
          assert p !in update;
        }
      }
    }

    /** `update`: evict, then rebuild at most one candidate and mark it clean.
        `flags` are the dirty flags on entry; `rebuilt` names the position
        rebuilt, if any. */
    method Update(registry: BlockRegistry, inRange: ChunkPos -> bool, world: ServerWorld)
      returns (ghost flags: map<ChunkPos, bool>, ghost rebuilt: Option<ChunkPos>)
      requires Valid() && registry.Valid() && world.Valid()
      modifies this, meshes.Values, world.chunks.Values
      ensures flags == old(Flags(world))
      ensures Valid()
      ensures forall k :: k in meshes <==>
                (k in old(meshes) && !Evictable(flags, inRange, k)) || rebuilt == Some(k)
      ensures forall k | k in old(meshes) && k in flags && !flags[k] ::
                k in meshes && meshes[k] == old(meshes[k]) && meshes[k].numVertices == old(meshes[k].numVertices)
      ensures forall k | k in meshes && k in old(meshes) && rebuilt != Some(k) ::
                meshes[k] == old(meshes[k]) && meshes[k].numVertices == old(meshes[k].numVertices)
      ensures rebuilt.None? <==> forall p :: !Candidate(flags, inRange, p)
      ensures rebuilt.Some? ==> Candidate(flags, inRange, rebuilt.value)
      ensures rebuilt.Some? ==>
                var p := rebuilt.value;
                && p in meshes && p in world.chunks
                && (p in old(meshes) ==> meshes[p] == old(meshes[p]))
                && ValidNext(Neighbours(world, p))
                && meshes[p].numVertices ==
                   |Built(old(world.chunks[p].blocks[..]), old(NextCellsOf(Neighbours(world, p))), old(registry.blocks))|
      ensures forall k | k in world.chunks :: world.chunks[k].isDirty == (old(world.chunks[k].isDirty) && rebuilt != Some(k))
    {
      flags := Flags(world);
      Evict(inRange, world);
      rebuilt := Refresh(registry, inRange, world, flags);
      forall k | k in old(meshes) && k in flags && !flags[k]
        ensures k in meshes && meshes[k] == old(meshes[k]) && meshes[k].numVertices == old(meshes[k].numVertices)
      {
        assert !Evictable(flags, inRange, k) && !Candidate(flags, inRange, k);
      }
    }
  }
}
