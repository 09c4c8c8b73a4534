# mynewcraft-rs: the integer core of a voxel engine, in Dafny

This project models the integer and bit-level core of the mynewcraft-rs
voxel engine and proves properties of that model:

- **Coordinates.** Chunk positions (`i32` pairs) support add, sub and
  equality. A chunk's origin corner is a pair of `i64` block coordinates.
  `to_chunk_pos` is Euclidean floor division by 16. The bytes that `Hash`
  feeds to the chunk-map hasher are modelled as well.
- **The chunk-map hasher.** Each input word is multiplied by the 64-bit
  golden-ratio constant, xored into the state, and the state is rotated
  left by 5. All of this is on `bv64`.
- **`hash_coords`.** It mixes the seed with x and z, then applies the
  MurmurHash3 `fmix64` finalizer.
- **A chunk.** A `16 x 256 x 16` byte array with layout
  `x + z*16 + y*256`, plus a dirty flag. Reads outside the chunk give air;
  writes outside it fail and change nothing. Generation fills the array
  column by column from a generator. In the generator, the noise height and
  the float comparisons of the random draws are oracles, and the draws
  themselves are `hash_coords` values.
- **The server world.** A map from chunk position to chunk.
  - `load_region` keeps exactly the disc `dx² + dz² <= r²` loaded. It
    dirties the edge-neighbours of every chunk it removes or inserts.
  - `set_block` and `get_block` route a world position to its chunk and
    cell. An edit on a chunk edge also dirties the neighbour across that
    edge.
- **The block registry and terrain atlas.** `get_uv` is div/mod 16. The
  registry is an append-only table whose lookups fall back to entry 0.
- **The mesher.**
  - `ChunkData::build` emits six vertices for every face of a solid cell
    that touches air. At the chunk's x and z edges the neighbour chunks
    decide; an absent neighbour counts as air.
  - `Vertex::create` packs the corner, the atlas cell and the masked face
    tag into one `u32`.
- **The client mesh cache.** `ClientWorld::update` drops out-of-view meshes
  whose chunk is absent or dirty. It rebuilds at most one dirty chunk in
  view and marks that chunk clean.

Stateful entities are classes and the rest are datatypes:

- **Classes:** `Chunk`, `ServerWorld`, `ChunkPosHasher`, `BlockRegistry`,
  `ChunkData`, `ChunkMesh` and `ClientWorld`. Their methods carry
  `modifies` frames.
- **Pure operations:** functions, with the source's properties stated as
  lemmas.
- **Loops:** every loop of the source is a `while` or `for` loop with its
  invariants. That covers the byte loop of `write`, the three-level fill of
  chunk creation, the scans and the row-by-row insertion of `load_region`,
  the x/y/z loops of `build`, and in `update` the eviction scan
  (`CollectEvictable`), the removal loop (`RemoveAll`) and the
  `filter`/`collect` chain over the loaded chunks (`DirtyInRange`).
- **The mesh specification.** The mesher is proved against a
  specification function: `Mesh`, the corners of every cell in x, y, z
  order. Face counts, corner bounds and the packing round trip are proved
  about that function.

The arithmetic of the model:

- Integers are unbounded. The `i32`/`i64`/`usize` widths are modelled
  where they matter:
  - `i64 as i32` in `to_chunk_pos` keeps the low 32 bits;
  - `i64 as usize` of a negative `y` wraps to a huge value, which falls
    outside the chunk;
  - when a block's chunk index wraps in `to_chunk_pos`, the local offsets
    `x - cx*16` and `z - cz*16` (wrapping `i64` subtraction, then
    `as usize`) land outside the chunk, so `get_block` reads air and
    `set_block` fails;
  - the `u32` seed is zero-extended;
  - hash arithmetic is on `bv64`.
- The `i32` chunk arithmetic of `ChunkPos` add/sub and of `load_region`
  does not wrap. It is guarded by preconditions that keep every value in
  range.

Three behaviours of the code are worth stating on their own:

- **Eviction.** A cached mesh is kept whenever its chunk is loaded and
  clean; a far mesh is evicted when its chunk is absent or dirty
  (`src/game/client/world.rs:24-30`).
- **Faces share tags.** The face tag written into a vertex is `face & 0x5`,
  so Bottom shares Left's tag (0) and Top shares Right's tag (1).
- **The z axis uses `WIDTH`.** `to_chunk_pos` divides z by `WIDTH`, not
  `LENGTH`. This is correct only because both are 16.

## Model

| member | source | states |
|---|---|---|
| Coords.Add | src/game/common/coords.rs:31-37 | the sum of two positions is a valid `i32` position when neither component overflows |
| Coords.Sub | src/game/common/coords.rs:38-44 | the difference of two positions is a valid `i32` position when neither component overflows |
| Coords.SubAddCancel | src/game/common/coords.rs:31-44 | `(a + b) - b == a` componentwise, with exact `i32` arithmetic |
| Coords.Eq | src/game/common/coords.rs:45-49 | componentwise equality holds exactly when the positions are equal values |
| Coords.ToBlockXZ | src/game/common/coords.rs:24-29 | the origin corner is `(16*x, 16*z)`: both fit `i64`, both are multiples of 16, and dividing by 16 gives the chunk index back |
| Coords.WrapI32 | src/game/common/coords.rs:70-71 | `as i32` gives an `i32` congruent to its input modulo 2^32, and leaves values already in range unchanged |
| Coords.ToChunkPos | src/game/common/coords.rs:68-73 | the chunk index of a block is always a valid `i32` position |
| Coords.ToChunkPosFloor | src/game/common/coords.rs:68-73 | inside the `i32` chunk range, `cx*16 <= x < cx*16 + 16`, negative x included, and the same for z |
| Coords.LocalOffsetInRange | src/game/server/mod.rs:79-80 | the local offsets `x - cx*16` and `z - cz*16` lie in `[0, 16)` |
| Coords.WrappingOffset | src/game/server/mod.rs:79-80 | `(a - b) as usize` is the difference modulo 2^64, and the difference itself when it is in `[0, 2^64)` |
| Coords.OffsetOutsideRange | src/game/common/coords.rs:68-73 | when the chunk index of `x` wraps, the offset `x - cx*16` read as `usize` is at least 16 |
| Coords.LocalOffsets | src/game/server/mod.rs:79-80 | both local offsets are below 16 exactly when the block lies in the non-wrapping chunk range |
| Coords.BlockChunkRoundTrip | src/game/common/coords.rs:68-73 | a block at local offset `l` in `[0, 16)` from a chunk's origin corner maps back to that chunk |
| Coords.U32Bytes | src/game/common/coords.rs:53-54 | a 32-bit value becomes four bytes |
| Coords.U32RoundTrip | src/game/common/coords.rs:53-54 | reading the four little-endian bytes back gives the value |
| Coords.I32Bytes | src/game/common/coords.rs:53-54 | the native-endian bytes of an `i32` number four |
| Coords.I32BytesRoundTrip | src/game/common/coords.rs:53-54 | `from_ne_bytes(to_ne_bytes(v)) == v` for every `i32` |
| Coords.HashData | src/game/common/coords.rs:51-56 | `ChunkPos::hash` feeds eight bytes, x's four and then z's |
| Coords.HashDataInjective | src/game/common/coords.rs:51-56 | two positions feed the same bytes exactly when they are equal |
| Coords.Hash | src/game/common/coords.rs:51-56 | hashing a position into a hasher leaves the state that writing its eight bytes in order computes |
| Coords.KeyHash | src/game/common/coords.rs:51-56 | the map hash of a key: a fresh hasher fed the key's eight bytes (definition; EqImpliesEqualHash and HashWithFreshHasher state its properties) |
| Coords.EqImpliesEqualHash | src/game/common/coords.rs:45-56 | positions equal under `eq` get equal map hashes |
| Coords.HashWithFreshHasher | src/game/common/world/mapping.rs:32-33 | a freshly built hasher fed one position and finished returns that position's key hash |
| Mapping.Mix | src/game/common/world/mapping.rs:16-19 | one mixing step can be undone: rotating the new state right by 5 and xoring the scaled word out gives the old state |
| Mapping.WriteBytes | src/game/common/world/mapping.rs:9-14 | the state after writing a byte slice, one mixing step per byte in order (definition; WriteEmpty, WriteConcat and WriteOneByte state its laws) |
| Mapping.WriteEmpty | src/game/common/world/mapping.rs:9-14 | writing the empty slice leaves the state unchanged |
| Mapping.WriteConcat | src/game/common/world/mapping.rs:10-13 | writing `a ++ b` equals writing `a` and then `b` |
| Mapping.WriteOneByte | src/game/common/world/mapping.rs:9-19 | a one-byte `write` mixes like `write_u64` of the zero-extended byte |
| Mapping.ChunkPosHasher.constructor | src/game/common/world/mapping.rs:3-6 | a new hasher starts with `hash == 0` |
| Mapping.ChunkPosHasher.Write | src/game/common/world/mapping.rs:9-14 | the byte loop leaves the state after one wrapping mixing step per byte, in order |
| Mapping.ChunkPosHasher.WriteU64 | src/game/common/world/mapping.rs:16-19 | `hash := rotl5(hash xor (i * 0x9e3779b97f4a7c15 mod 2^64))` |
| Mapping.ChunkPosHasher.Finish | src/game/common/world/mapping.rs:21-23 | returns the current hash and changes nothing |
| Mapping.ChunkPosHasherBuilder.BuildHasher | src/game/common/world/mapping.rs:32-33 | every built hasher is fresh and starts at 0 |
| WorldGen.XorShift33Involutive | src/game/server/world/worldgen.rs:54-58 | each `h ^= h >> 33` step is its own inverse, for every `h` |
| WorldGen.Fmix64 | src/game/server/world/worldgen.rs:54-58 | its final xorshift can be undone: applying the step again gives the state after the second multiplication |
| WorldGen.MixWords | src/game/server/world/worldgen.rs:50-53 | the seed zero-extended, xored with each coordinate word times its constant modulo 2^64 (definition) |
| WorldGen.MixCoords | src/game/server/world/worldgen.rs:50-53 | `MixWords` of x and z reinterpreted as `u64` (definition) |
| WorldGen.MixCoordsSeed | src/game/server/world/worldgen.rs:50-53 | on any column, the states of two seeds differ by exactly the xor of the seeds, so distinct seeds give distinct states |
| WorldGen.HashCoords | src/game/server/world/worldgen.rs:49-61 | `hash_coords`: `Fmix64` of the mixed state (definition) |
| WorldGen.XorShift33KeepsTop | src/game/server/world/worldgen.rs:54-58 | each `h ^= h >> 33` step keeps the top 33 bits of `h` |
| WorldGen.HashCoordsAtOrigin | src/game/server/world/worldgen.rs:49-61 | the initial state is the `u32` seed zero-extended; at the origin only the seed is finalized |
| WorldGen.NewGenerator | src/game/server/world/worldgen.rs:14-16 | the generator's column draw is `hash_coords` with the given seed on every `i64` column |
| Chunks.Index | src/game/server/world/chunk.rs:62 | the slot `x + z*16 + y*256` of an in-bounds cell is below `VOLUME` |
| Chunks.IndexDigits | src/game/server/world/chunk.rs:62 | the cell's coordinates are the base-16/256 digits of its slot |
| Chunks.IndexInjective | src/game/server/world/chunk.rs:62 | two in-bounds cells share a slot exactly when they are the same cell |
| Chunks.IndexBijective | src/game/server/world/chunk.rs:15 | every slot below `VOLUME` belongs to exactly one in-bounds cell |
| Chunks.CellAt | src/game/server/world/chunk.rs:68-74 | a read outside the chunk gives air |
| Chunks.CellAfterWrite | src/game/server/world/chunk.rs:57-66 | storing at a cell's slot changes that cell and no other |
| Chunks.Chunk.Blank | src/game/server/world/chunk.rs:18-21 | a new chunk has a fresh array of `VOLUME` air cells and is dirty |
| Chunks.Chunk.GetBlock | src/game/server/world/chunk.rs:68-74 | air outside the chunk, otherwise the array element at the cell's slot |
| Chunks.Chunk.SetBlock | src/game/server/world/chunk.rs:57-66 | out of bounds it fails and changes neither cells nor flag; otherwise it stores the block at its slot, other cells keep theirs, `get_block` then reads it back, and the chunk is dirty |
| Chunks.Chunk.MarkDirty | src/game/server/world/chunk.rs:76-78 | the flag becomes true and the cells are not touched |
| Chunks.Chunk.MarkClean | src/game/server/world/chunk.rs:79-81 | the flag becomes false and the cells are not touched |
| Chunks.Chunk.IsDirty | src/game/server/world/chunk.rs:83-85 | returns the dirty flag |
| Chunks.WorldColumn | src/game/server/world/chunk.rs:25-27 | the world column of a chunk cell, and its second-draw offset, fit `i64` |
| Chunks.GenBlock | src/game/server/world/chunk.rs:36-47 | below the height a cell is bedrock, stone, dirt or grass, bedrock exactly at `y == 0`, grass only in the top cell |
| Chunks.GeneratedCell | src/game/server/world/chunk.rs:23-52 | the generated cell: `GenBlock` of the column's two draws below the height, air above it and outside the chunk (definition) |
| Chunks.GeneratedAboveHeight | src/game/server/world/chunk.rs:35 | cells at or above the column height stay air |
| Chunks.GeneratedBedrock | src/game/server/world/chunk.rs:39-40 | the bottom cell of a non-empty column is bedrock |
| Chunks.GeneratedKinds | src/game/server/world/chunk.rs:36-47 | generation places only air, bedrock, stone, dirt and grass |
| Chunks.GeneratedDependsOnColumn | src/game/server/world/chunk.rs:25-33 | a generated cell depends only on the world column and the height |
| Chunks.Create | src/game/server/world/chunk.rs:17-55 | the filled chunk is fresh and dirty and holds the generated block at every cell; cells above the height and outside the chunk are air |
| Resources.GetUv | src/game/client/resources.rs:28-33 | `get_uv(id) = (u, v)` with `u < 16` and `16*v + u == id` |
| Resources.GetUvUnique | src/game/client/resources.rs:28-33 | that is the only column/row pair addressing `id` |
| Resources.All | src/game/client/resources.rs:50-59 | all six face textures equal the argument |
| Resources.Side | src/game/client/resources.rs:60-69 | left, right, back and front get the side texture; top and bottom get theirs |
| Resources.Lookup | src/game/client/resources.rs:114-120 | an id below the length finds its entry; any other id finds entry 0 |
| Resources.LookupAfterRegister | src/game/client/resources.rs:111-120 | after an append old ids find what they found before, and the new id finds the new block |
| Resources.BlockRegistry.constructor | src/game/client/resources.rs:107-109 | a new registry holds exactly `Block::all(0)` |
| Resources.BlockRegistry.Get | src/game/client/resources.rs:114-120 | an id below the length finds its entry; any other id finds entry 0 |
| Resources.BlockRegistry.Register | src/game/client/resources.rs:111-113 | the block is appended at index `old(len)`; earlier entries are unchanged |
| Server.NeighbourOfSingleton | src/game/server/mod.rs:34-37 | adjacency is symmetric: `k` has an edge-neighbour at `p` exactly when it is one of `p`'s four |
| Server.DiscInBox | src/game/server/mod.rs:42-43 | the disc lies in the scanned square `[-r, r]` around the centre |
| Server.LoadRegionQuiescent | src/game/server/mod.rs:22-61 | once the loaded set is the disc, a second identical load inserts nothing, removes nothing and dirties nothing |
| Server.DiscDistFits | src/game/server/mod.rs:27-28 | after a load, every chunk's distance arithmetic for the same centre fits `i32` again |
| Server.AsUsize | src/game/server/mod.rs:82 | `y as usize` keeps a non-negative `y`; a negative `y` lands at or above 256 |
| Server.LocalOf | src/game/server/mod.rs:79-82 | inside the chunk range the local x and z are below 16; the cell is in bounds exactly when the chunk index does not wrap and `0 <= y < 256` |
| Server.RoutingRoundTrip | src/game/server/mod.rs:103-116 | routing sends the world position of a chunk cell back to that same chunk and cell |
| Server.ServerWorld.constructor | src/game/server/mod.rs:14-19 | no chunk is loaded; the generator is built from the seed |
| Server.ServerWorld.GetChunk | src/game/server/mod.rs:63-65 | `Some` exactly for a loaded position, holding that chunk |
| Server.ServerWorld.GetBlock | src/game/server/mod.rs:103-116 | air when the chunk is not loaded, `y` is outside `[0, 256)` or the chunk index wraps; otherwise the chunk's cell |
| Server.ServerWorld.MarkDirtyAt | src/game/server/mod.rs:34 | only the chunk at `p`, if loaded, becomes dirty |
| Server.ServerWorld.MarkNeighbours | src/game/server/mod.rs:33-39 | exactly the loaded edge-neighbours of `p` become dirty |
| Server.ServerWorld.SetBlock | src/game/server/mod.rs:74-102 | succeeds exactly when the chunk is loaded, its index does not wrap and `0 <= y < 256`; on success `get_block` reads the block back, no other cell changes, the owner is dirty, and so is the neighbour across the x or z edge the cell lies on; on failure nothing changes |
| Server.ServerWorld.CollectFar | src/game/server/mod.rs:25-31 | the collected positions are exactly the loaded ones outside the disc |
| Server.ServerWorld.RemoveChunks | src/game/server/mod.rs:33-40 | the collected positions are removed; the other chunks stay the same objects and become dirty exactly when a removed position is an edge-neighbour |
| Server.ServerWorld.InsertChunk | src/game/server/mod.rs:53-58 | the loaded neighbours of `p` are dirtied and a fresh, dirty, generated chunk is inserted at `p`; nothing else changes |
| Server.ServerWorld.InsertRow | src/game/server/mod.rs:43-59 | one row of the scan inserts exactly that row's disc cells that were missing, and dirties exactly their loaded neighbours |
| Server.ServerWorld.InsertDisc | src/game/server/mod.rs:42-60 | afterwards the disc is loaded; old chunks are kept, new ones are generated and dirty, and old chunks are dirtied exactly when an inserted chunk is an edge-neighbour |
| Server.ServerWorld.LoadRegion | src/game/server/mod.rs:22-61 | afterwards exactly the disc is loaded, the boundary circle included. Chunks that stay are the same objects with the same cells, dirtied exactly when an edge-neighbour was inserted or removed. New chunks are generated and dirty |
| Meshing.FaceTag | src/game/client/chunk_mesh.rs:47 | the face field fits three bits |
| Meshing.FaceTagCollisions | src/game/client/chunk_mesh.rs:31-36 | `& 0x5` folds Bottom onto Left (0) and Top onto Right (1); Back and Front keep 4 and 5 |
| Meshing.DecodeWord | src/game/client/chunk_mesh.rs:41-47 | fields within their widths do not overlap: decoding the packed word returns them |
| Meshing.Decode | src/game/client/chunk_mesh.rs:41-47 | reading the six fields back out of any word gives fields within their 5/9/5/5/5/3-bit widths |
| Meshing.Masked | src/game/client/chunk_mesh.rs:42-47 | the masked fields fit 5/9/5/5/5/3 bits |
| Meshing.Pack | src/game/client/chunk_mesh.rs:39-50 | decoding `Vertex::create` gives the masked position, atlas cell and face tag in bits 0-4, 5-13, 14-18, 19-23, 24-28 and 29-31 |
| Meshing.FaceCorners | src/game/client/chunk_mesh.rs:86-95 | every emitted face is six vertices carrying that face |
| Meshing.FaceCornersFit | src/game/client/chunk_mesh.rs:89-95 | for a texture below 496, a face's corners have x, z <= 16, y <= 256, atlas column <= 16 and atlas row < 32 |
| Meshing.StartupTable | src/main.rs:138-145 | the registry built at startup has eight entries and every texture in it is below 496 |
| Meshing.FaceTexture | src/game/client/chunk_mesh.rs:89-172 | the atlas item each face block reads from the block's textures (definition) |
| Meshing.Exposed | src/game/client/chunk_mesh.rs:81-162 | the exposure test of each face on the snapshot: edge cells consult the neighbour's opposite edge, an absent neighbour is air, top and bottom of the chunk are open (definition; Open and VerticalFacesIgnoreNeighbours state its properties) |
| Meshing.BlockCorners | src/game/client/chunk_mesh.rs:74-173 | a cell's corners: none for air, otherwise the exposed faces' corners in the order of the six face blocks (definition) |
| Meshing.Mesh | src/game/client/chunk_mesh.rs:71-176 | the corners of every cell in the order of the x, y, z loops (definition; MeshSixes, MeshFits and ChunkData.Build state its properties) |
| Meshing.BlockCornersCount | src/game/client/chunk_mesh.rs:74-173 | air emits nothing; a solid cell emits six vertices per exposed face |
| Meshing.IsolatedBlock | src/game/client/chunk_mesh.rs:81-173 | an interior solid cell surrounded by air yields 36 vertices |
| Meshing.OneSolidNeighbour | src/game/client/chunk_mesh.rs:81-173 | with exactly one solid orthogonal neighbour it yields 30 |
| Meshing.VerticalFacesIgnoreNeighbours | src/game/client/chunk_mesh.rs:115-128 | the bottom and top tests never consult the neighbour chunks |
| Meshing.BlockCornersSixes | src/game/client/chunk_mesh.rs:74-173 | every cell contributes a multiple of six vertices |
| Meshing.MeshSixes | src/game/client/chunk_mesh.rs:71-176 | a whole build emits a multiple of six vertices |
| Meshing.BlockCornersFit | src/game/client/chunk_mesh.rs:42-46 | when every texture of the table is below 496, every corner of a cell has x, z <= 16, y <= 256, atlas column <= 16 and atlas row < 32, so all five fields fit their 5/9-bit masks |
| Meshing.MeshFits | src/game/client/chunk_mesh.rs:71-176 | when every texture of the table is below 496, every corner of the mesh has x, z <= 16, y <= 256, atlas column <= 16 and atlas row < 32, so all five fields fit their masks |
| Meshing.SolidCellCorners | src/game/client/chunk_mesh.rs:81-173 | a solid cell's corners are those of its exposed faces, in the order left, right, bottom, top, back, front |
| Meshing.MeshWordsPack | src/game/client/chunk_mesh.rs:68-177 | the words of a whole build, in x, y, z order, are the packed corners of the mesh |
| Meshing.Open | src/game/client/chunk_mesh.rs:81-162 | each exposure test is the face's exposure: at the x and z edges the neighbour's opposite edge cell decides, an absent neighbour counts as air, and top/bottom are open at the chunk's top and bottom |
| Meshing.CellCorners | src/game/client/chunk_mesh.rs:74-173 | what the loop body emits for a cell is that cell's part of the mesh |
| Meshing.ChunkData.constructor | src/game/client/chunk_mesh.rs:57-61 | a new buffer is empty |
| Meshing.ChunkData.PutBlock | src/game/client/chunk_mesh.rs:74-173 | one cell appends exactly its packed words |
| Meshing.ChunkData.PutRow | src/game/client/chunk_mesh.rs:73-174 | the z loop appends the row's words in z order |
| Meshing.ChunkData.PutSlice | src/game/client/chunk_mesh.rs:72-175 | the y loop appends the slice's rows in y order |
| Meshing.ChunkData.Build | src/game/client/chunk_mesh.rs:68-177 | the buffer is cleared first, so the result is the packed mesh of the chunk, neighbours and registry alone |
| Meshing.ChunkMesh.constructor | src/game/client/chunk_mesh.rs:187-206 | a new mesh has no vertices |
| Meshing.ChunkMesh.Build | src/game/client/chunk_mesh.rs:228-229 | the vertex count becomes the built vertex list's length |
| Client.Evictable | src/game/client/world.rs:24-30 | a mesh is dropped when its chunk is absent or dirty and it is out of view (definition) |
| Client.Candidate | src/game/client/world.rs:40-42 | a chunk may be rebuilt when it is loaded, dirty and in view (definition) |
| Client.Neighbours | src/game/client/world.rs:50-55 | the four edge-neighbours looked up in the world, left, right, back, front (definition) |
| Client.DirtyInRange | src/game/client/world.rs:37-45 | the scan collects exactly the loaded chunks that are dirty and in view |
| Client.BuildData | src/game/client/world.rs:48-55 | the built data is the packed mesh of the chunk, its four looked-up neighbours and the registry |
| Client.ClientWorld.constructor | src/game/client/world.rs:12-14 | the cache starts empty |
| Client.ClientWorld.CollectEvictable | src/game/client/world.rs:22-32 | the collected positions are exactly the cached ones out of view whose chunk is absent or dirty |
| Client.ClientWorld.RemoveAll | src/game/client/world.rs:33-35 | exactly the collected positions leave the cache |
| Client.ClientWorld.Evict | src/game/client/world.rs:22-35 | a mesh stays exactly when it is not evictable; the kept meshes are unchanged and the world is untouched |
| Client.ClientWorld.Install | src/game/client/world.rs:57-65 | an existing entry is rebuilt in place and a missing one is inserted; either way its count is the data's length, and other entries are unchanged |
| Client.ClientWorld.Remesh | src/game/client/world.rs:48-65 | the position gets a mesh whose count is the length of the build of its chunk as it was |
| Client.ClientWorld.Rebuild | src/game/client/world.rs:47-70 | as Remesh, and then the chunk is clean |
| Client.ClientWorld.Refresh | src/game/client/world.rs:37-70 | with no candidate nothing is built and nothing changes; otherwise one loaded, dirty, in-view chunk is rebuilt and only its flag is cleared |
| Client.ClientWorld.Update | src/game/client/world.rs:16-71 | A mesh whose chunk is loaded and clean is never evicted, and a mesh stays exactly when it is not evictable or is the one rebuilt. At most one chunk is rebuilt, and it was loaded, dirty and in view on entry. Its mesh count is its build's length. Only its dirty flag is cleared |

## Left out

- `Coord` and its `AddAssign`: floating-point positions, not part of
  this model.
- Raycasting, the camera, the window, the timer and the frame loop: floats
  and I/O.
- Noise heights: `smoothstep`, the plains and mountains fields and
  `get_height` are float computations. They become the generator's
  `height` oracle.
- `get_random`'s float division and the `powf` thresholds of chunk
  creation: these become the oracles `deepStone`, `topDirt` and
  `subsoilDirt`. Each is fed a `hash_coords` value; `deepStone` and
  `topDirt` also get `y`, and `subsoilDirt` gets the depth `height - y`.
  - Consequence: the fixed `y <= 60` behaviour is not captured. There
    `height_influence` is 0, so both `powf` tests are false: the stone test
    never fires and the top cell of a column is always grass.
- The view distance test of `ClientWorld::update`: floating-point
  Euclidean distance and `round()`. It is the parameter `inRange`, a
  predicate on chunk positions.
- The `sqrt` comparisons of `load_region`: modelled as the integer test
  `dx² + dz² > r²`. The `f64` removal test agrees with it for every radius
  the model admits; the `f32` insertion test agrees only while `r*r` and
  the squared distances near it are exact in `f32`.
- Server.ServerWorld.LoadRegion: modelled only for radii below 4096
  (`RegionFits`). From 4096 on, `(dx*dx + dz*dz) as f32` rounds, so the
  insertion test loads chunks just outside the disc (at r = 4096, the
  offset (4096, 1)) that the next call's `f64` test removes; the model does
  not capture that.
- `radius as i32`: the radius is assumed to fit (`RegionFits`).
- Server.ServerWorld.GetBlock / SetBlock / LocalOf: the subtraction
  `position.x - cx*16` is modelled as wrapping, as a release build does.
  Near `±2^63` with a wrapped chunk index a debug build panics on the
  overflow instead; the model does not capture the panic.
- The iteration order of the hash maps: `first()` of the dirty candidates
  is modelled as the first element of a scan in unspecified order, so any
  candidate may be chosen. The chunk maps are Dafny maps, not hash tables
  driven by `ChunkPosHasher`. The hasher's hash values are modelled
  separately.
- `i32` overflow of `ChunkPos` add/sub and of `dx*dx + dz*dz` is excluded
  by preconditions, not modelled as wrap-around.
- `Hasher::write_i32` assumes a little-endian target for `to_ne_bytes`.
- WorldGen.Fmix64: it is a bijection of `bv64`, which is not stated. Each
  xorshift step is proved to be its own inverse; that multiplying by an odd
  constant is undone by its inverse modulo 2^64 is not proved.
- The OpenGL side of `ChunkMesh`: the buffers, `render`, the upload in
  `build` and `drop`. A mesh is its vertex count. `ChunkMesh.constructor`
  and `ChunkMesh.Build` set only the count.
- Shader, texture and atlas loading, and `debug.rs`: I/O.
- Meshing.ChunkData.PutBlock: `put_vertex` pushes one vertex at a time.
  The model appends a cell's words in one step, after evaluating all six
  exposure tests. This is equivalent because the pushes change only the
  vertex buffer, which the tests do not read.
- Meshing.Word: the `|` of the shifted masked fields is modelled as their
  integer sum with shifts written as powers of two. That is equal because
  the masks keep the fields disjoint.
- Meshing.Masked: the atlas row `v` is masked to five bits as written.
  Texture ids of 496 and above wrap the atlas row, because `v0 + 1` then
  reaches 32; the model keeps the masking but states no property about such
  ids (`BlockCornersFit` and `MeshFits` require every texture of the table
  to be below 496).
- The block-type enumeration is not part of this model. Air is 0, as the
  code relies on; the other ids are constants in declaration order.
