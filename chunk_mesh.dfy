/**
 * The client's chunk mesher. For every solid cell it emits the faces that
 * touch air, six vertices (two triangles) per face; the cells across the
 * chunk's x and z edges are looked up in up to four neighbour chunks. Each
 * vertex is one 32-bit word packing its corner position, atlas cell and face.
 */
module Meshing {
  import opened Bits
  import opened Dimensions
  import opened Wrappers
  import opened Coords
  import opened Chunks
  import opened Resources

  /** `Face`, a `repr(u8)` enumeration in this order. */
  datatype Face = Left | Right | Bottom | Top | Back | Front

  /** `face as u32`: the declaration index. */
  function FaceId(f: Face): bv8
  {
    match f
    case Left => 0
    case Right => 1
    case Bottom => 2
    case Top => 3
    case Back => 4
    case Front => 5
  }

  /** The face field `Vertex::create` writes: `face as u32 & 0x5`. */
  function FaceTag(f: Face): (t: nat)
    ensures t < 8
  {
    (FaceId(f) & 0x5) as nat
  }

  /** The mask `0x5` folds the six faces onto four tags: Bottom shares Left's
      tag 0 and Top shares Right's tag 1, while the four side faces keep
      distinct tags. */
  lemma FaceTagCollisions()
    ensures FaceTag(Bottom) == FaceTag(Left) == 0
    ensures FaceTag(Top) == FaceTag(Right) == 1
    ensures FaceTag(Back) == 4 && FaceTag(Front) == 5
  {
  }

  /** The six fields of a vertex word, in bit order from 0. */
  datatype Fields = Fields(x: nat, y: nat, z: nat, u: nat, v: nat, tag: nat)

  /** Each field within its width: 5 bits for x, z, u and v, 9 for y, 3 for the face. */
  predicate FieldsFit(f: Fields)
  {
    f.x < 32 && f.y < 512 && f.z < 32 && f.u < 32 && f.v < 32 && f.tag < 8
  }

  /** The layout: x in bits 0-4, y in 5-13, z in 14-18, u in 19-23, v in 24-28,
      face in 29-31. The fields do not overlap, so the `|` of the shifted
      fields is their sum with the shifts written as powers of two. */
  function Word(f: Fields): u32
    requires FieldsFit(f)
  {
    (f.x + f.y * 0x20 + f.z * 0x4000 + f.u * 0x8_0000 + f.v * 0x100_0000 + f.tag * 0x2000_0000) as u32
  }

  /** Reads the six fields back out of a vertex word. */
  function Decode(w: u32): (f: Fields)
    ensures FieldsFit(f)
  {
    var n := w as int;
    Fields(n % 0x20, n / 0x20 % 0x200, n / 0x4000 % 0x20, n / 0x8_0000 % 0x20, n / 0x100_0000 % 0x20, n / 0x2000_0000)
  }

  lemma MulAtLeast(k: int, m: int)
    requires k > 0 && m >= 1
    ensures k * m >= k
  {
    assert k * m == k * (m - 1) + k;
    if m > 1 {
      MulAtLeast(k, m - 1);
    }
  }

  /** A low part below `k` and a high part split apart by division by `k`. */
  lemma DivSplit(a: int, b: int, k: int)
    requires k > 0 && 0 <= a < k && b >= 0
    ensures (a + k * b) / k == b && (a + k * b) % k == a
  {
    var n := a + k * b;
    var q, r := n / k, n % k;
    assert n == k * q + r;
    if q < b {
      assert k * (b - q) == k * b - k * q;
      MulAtLeast(k, b - q);
    } else if q > b {
      assert k * (q - b) == k * q - k * b;
      MulAtLeast(k, q - b);
    }
  }

  /** Fields within their widths do not overlap: decoding returns them. */
  lemma DecodeWord(f: Fields)
    requires FieldsFit(f)
    ensures Decode(Word(f)) == f
  {
    var n := Word(f) as int;
    var t := f.tag;
    var r5 := f.v + 0x20 * t;
    var r4 := f.u + 0x20 * r5;
    var r3 := f.z + 0x20 * r4;
    var r2 := f.y + 0x200 * r3;
    assert n == f.x + 0x20 * r2;
    DivSplit(f.x, r2, 0x20);
    DivSplit(f.y, r3, 0x200);
    DivSplit(f.z, r4, 0x20);
    DivSplit(f.u, r5, 0x20);
    DivSplit(f.v, t, 0x20);
    assert n == (f.x + 0x20 * f.y) + 0x4000 * r3;
    DivSplit(f.x + 0x20 * f.y, r3, 0x4000);
    assert n == (f.x + 0x20 * f.y + 0x4000 * f.z) + 0x8_0000 * r4;
    DivSplit(f.x + 0x20 * f.y + 0x4000 * f.z, r4, 0x8_0000);
    assert n == (f.x + 0x20 * f.y + 0x4000 * f.z + 0x8_0000 * f.u) + 0x100_0000 * r5;
    DivSplit(f.x + 0x20 * f.y + 0x4000 * f.z + 0x8_0000 * f.u, r5, 0x100_0000);
    assert n == (f.x + 0x20 * f.y + 0x4000 * f.z + 0x8_0000 * f.u + 0x100_0000 * f.v) + 0x2000_0000 * t;
    DivSplit(f.x + 0x20 * f.y + 0x4000 * f.z + 0x8_0000 * f.u + 0x100_0000 * f.v, t, 0x2000_0000);
    assert n % 0x20 == f.x && n / 0x20 % 0x200 == f.y && n / 0x4000 % 0x20 == f.z;
    assert n / 0x8_0000 % 0x20 == f.u && n / 0x100_0000 % 0x20 == f.v && n / 0x2000_0000 == t;
  }

  /** The masked fields `Vertex::create` packs: `n & (2^k - 1)` on a `usize` is
      `n % 2^k`; the `as u32` casts come after the masks and cut nothing. */
  function Masked(p: LocalBlockPos, uv: (nat, nat), face: Face): (f: Fields)
    ensures FieldsFit(f)
  {
    Fields(p.x % 0x20, p.y % 0x200, p.z % 0x20, uv.0 % 0x20, uv.1 % 0x20, FaceTag(face))
  }

  /** `Vertex::create`: decoding the packed vertex returns the masked inputs. */
  function Pack(p: LocalBlockPos, uv: (nat, nat), face: Face): (w: u32)
    ensures Decode(w) == Masked(p, uv, face)
  {
    DecodeWord(Masked(p, uv, face));
    Word(Masked(p, uv, face))
  }

  /** One emitted vertex before packing. */
  datatype Corner = Corner(pos: LocalBlockPos, uv: (nat, nat), face: Face)

  /** `Vertex::create` of one corner. */
  function PackCorner(c: Corner): u32
  {
    Pack(c.pos, c.uv, c.face)
  }

  /** `f` applied to each element, in order. */
  function Map<A, B>(f: A -> B, s: seq<A>): (r: seq<B>)
    ensures |r| == |s|
  {
    if s == [] then [] else Map(f, s[..|s| - 1]) + [f(s[|s| - 1])]
  }

  lemma {:induction false} MapAppend<A, B>(f: A -> B, a: seq<A>, b: seq<A>)
    ensures Map(f, a + b) == Map(f, a) + Map(f, b)
    decreases |b|
  {
    if b == [] {
      assert a + b == a;
    } else {
      var b' := b[..|b| - 1];
      assert (a + b)[..|a + b| - 1] == a + b';
      assert (a + b)[|a + b| - 1] == b[|b| - 1];
      MapAppend(f, a, b');
    }
  }

  lemma AppendAssoc<T>(a: seq<T>, b: seq<T>, c: seq<T>)
    ensures (a + b) + c == a + (b + c)
  {
  }

  /** The atlas item a block shows on a face. */
  function FaceTexture(b: Block, f: Face): nat
  {
    match f
    case Left => b.left
    case Right => b.right
    case Bottom => b.bottom
    case Top => b.top
    case Back => b.back
    case Front => b.front
  }

  /** The six corners, in emission order, of `face` of the cell at (x, y, z)
      textured with atlas item `texture`. */
  function FaceCorners(face: Face, x: nat, y: nat, z: nat, texture: nat): (cs: seq<Corner>)
    ensures |cs| == 6
    ensures forall i | 0 <= i < 6 :: cs[i].face == face
  {
    var uv0 := GetUv(texture);
    var u0, v0 := uv0.0, uv0.1;
    var u1, v1 := u0 + 1, v0 + 1;
    match face
    case Left =>
      [Corner(LocalBlockPos(x, y, z), (u0, v0), Left), Corner(LocalBlockPos(x, y, z + 1), (u1, v0), Left),
       Corner(LocalBlockPos(x, y + 1, z), (u0, v1), Left), Corner(LocalBlockPos(x, y + 1, z + 1), (u1, v1), Left),
       Corner(LocalBlockPos(x, y + 1, z), (u0, v1), Left), Corner(LocalBlockPos(x, y, z + 1), (u1, v0), Left)]
    case Right =>
      [Corner(LocalBlockPos(x + 1, y, z + 1), (u0, v0), Right), Corner(LocalBlockPos(x + 1, y, z), (u1, v0), Right),
       Corner(LocalBlockPos(x + 1, y + 1, z + 1), (u0, v1), Right), Corner(LocalBlockPos(x + 1, y + 1, z), (u1, v1), Right),
       Corner(LocalBlockPos(x + 1, y + 1, z + 1), (u0, v1), Right), Corner(LocalBlockPos(x + 1, y, z), (u1, v0), Right)]
    case Bottom =>
      [Corner(LocalBlockPos(x, y, z), (u0, v0), Bottom), Corner(LocalBlockPos(x + 1, y, z), (u1, v0), Bottom),
       Corner(LocalBlockPos(x, y, z + 1), (u0, v1), Bottom), Corner(LocalBlockPos(x + 1, y, z + 1), (u1, v1), Bottom),
       Corner(LocalBlockPos(x, y, z + 1), (u0, v1), Bottom), Corner(LocalBlockPos(x + 1, y, z), (u1, v0), Bottom)]
    case Top =>
      [Corner(LocalBlockPos(x, y + 1, z + 1), (u0, v0), Top), Corner(LocalBlockPos(x + 1, y + 1, z + 1), (u1, v0), Top),
       Corner(LocalBlockPos(x, y + 1, z), (u0, v1), Top), Corner(LocalBlockPos(x + 1, y + 1, z), (u1, v1), Top),
       Corner(LocalBlockPos(x, y + 1, z), (u0, v1), Top), Corner(LocalBlockPos(x + 1, y + 1, z + 1), (u1, v0), Top)]
    case Back =>
      [Corner(LocalBlockPos(x + 1, y, z), (u1, v0), Back), Corner(LocalBlockPos(x, y, z), (u0, v0), Back),
       Corner(LocalBlockPos(x + 1, y + 1, z), (u1, v1), Back), Corner(LocalBlockPos(x, y + 1, z), (u0, v1), Back),
       Corner(LocalBlockPos(x + 1, y + 1, z), (u1, v1), Back), Corner(LocalBlockPos(x, y, z), (u0, v0), Back)]
    case Front =>
      [Corner(LocalBlockPos(x, y, z + 1), (u0, v0), Front), Corner(LocalBlockPos(x + 1, y, z + 1), (u1, v0), Front),
       Corner(LocalBlockPos(x, y + 1, z + 1), (u0, v1), Front), Corner(LocalBlockPos(x + 1, y + 1, z + 1), (u1, v1), Front),
       Corner(LocalBlockPos(x, y + 1, z + 1), (u0, v1), Front), Corner(LocalBlockPos(x + 1, y, z + 1), (u1, v0), Front)]
  }

  /** Texture ids below this keep the atlas row `v0 + 1` of every corner
      under 32, the width of its 5-bit mask. */
  const TEXTURE_LIMIT: nat := NUM_ITEMS_X * 0x1F

  /** Every face of the block reads a texture below `TEXTURE_LIMIT`. */
  predicate TexturesFit(b: Block)
  {
    b.left < TEXTURE_LIMIT && b.right < TEXTURE_LIMIT && b.bottom < TEXTURE_LIMIT &&
    b.top < TEXTURE_LIMIT && b.back < TEXTURE_LIMIT && b.front < TEXTURE_LIMIT
  }

  predicate TableFits(table: seq<Block>)
  {
    forall i | 0 <= i < |table| :: TexturesFit(table[i])
  }

  /** The registry the game builds at startup: air, then dirt, grass, stone,
      cobblestone, bedrock, gravel and sand. */
  function StartupTable(): (t: seq<Block>)
    ensures |t| == 8 && TableFits(t)
  {
    [All(0), All(1), Side(3, 2, 1), All(4), All(5), All(6), All(7), All(8)]
  }

  /** A corner of a cell of the chunk stays within one cell of it: x and z
      at most 16, y at most 256, the atlas column at most 16 and the atlas
      row below 32, so none of the fields is cut by its mask. */
  predicate CornerFits(c: Corner)
  {
    c.pos.x <= WIDTH && c.pos.y <= HEIGHT && c.pos.z <= LENGTH && c.uv.0 <= NUM_ITEMS_X && c.uv.1 < 0x20
  }

  lemma FaceCornersFit(face: Face, x: nat, y: nat, z: nat, texture: nat)
    requires x < WIDTH && y < HEIGHT && z < LENGTH && texture < TEXTURE_LIMIT
    ensures forall i | 0 <= i < 6 :: CornerFits(FaceCorners(face, x, y, z, texture)[i])
  {
  }

  /** The block ids of the four neighbour chunks at the time of the build. */
  datatype NextCells = NextCells(left: Option<seq<byte>>, right: Option<seq<byte>>,
                                 back: Option<seq<byte>>, front: Option<seq<byte>>)

  predicate FullChunk(s: Option<seq<byte>>)
  {
    s.Some? ==> |s.value| == VOLUME
  }

  predicate WellFormed(cells: seq<byte>, next: NextCells)
  {
    |cells| == VOLUME && FullChunk(next.left) && FullChunk(next.right) && FullChunk(next.back) && FullChunk(next.front)
  }

  /** A neighbour cell is open when the neighbour chunk is absent or holds air there. */
  predicate OpenIn(s: Option<seq<byte>>, p: LocalBlockPos)
    requires FullChunk(s)
  {
    s.None? || CellAt(s.value, p) == AIR
  }

  /** Whether `face` of the cell at (x, y, z) touches air. Across the x and z
      edges the opposite edge cell of the neighbour chunk decides; the top and
      bottom of the chunk are always open. */
  predicate Exposed(cells: seq<byte>, next: NextCells, x: nat, y: nat, z: nat, face: Face)
    requires WellFormed(cells, next)
  {
    match face
    case Left =>
      if x == 0 then OpenIn(next.left, LocalBlockPos(WIDTH - 1, y, z))
      else CellAt(cells, LocalBlockPos(x - 1, y, z)) == AIR
    case Right =>
      if x >= WIDTH - 1 then OpenIn(next.right, LocalBlockPos(0, y, z))
      else CellAt(cells, LocalBlockPos(x + 1, y, z)) == AIR
    case Bottom =>
      y == 0 || CellAt(cells, LocalBlockPos(x, y - 1, z)) == AIR
    case Top =>
      y >= HEIGHT - 1 || CellAt(cells, LocalBlockPos(x, y + 1, z)) == AIR
    case Back =>
      if z == 0 then OpenIn(next.back, LocalBlockPos(x, y, LENGTH - 1))
      else CellAt(cells, LocalBlockPos(x, y, z - 1)) == AIR
    case Front =>
      if z >= LENGTH - 1 then OpenIn(next.front, LocalBlockPos(x, y, 0))
      else CellAt(cells, LocalBlockPos(x, y, z + 1)) == AIR
  }

  /** The corners of one face if it is exposed. */
  function FaceIfExposed(cells: seq<byte>, next: NextCells, block: Block, x: nat, y: nat, z: nat, face: Face): seq<Corner>
    requires WellFormed(cells, next)
  {
    if Exposed(cells, next, x, y, z, face) then FaceCorners(face, x, y, z, FaceTexture(block, face)) else []
  }

  /** The corners one cell contributes: nothing for air, otherwise its exposed
      faces in the order Left, Right, Bottom, Top, Back, Front. */
  function BlockCorners(cells: seq<byte>, next: NextCells, table: seq<Block>, x: nat, y: nat, z: nat): seq<Corner>
    requires WellFormed(cells, next) && |table| > 0
  {
    var id := CellAt(cells, LocalBlockPos(x, y, z));
    if id == AIR then []
    else
      var block := Lookup(table, id as nat);
      FaceIfExposed(cells, next, block, x, y, z, Left)
      + FaceIfExposed(cells, next, block, x, y, z, Right)
      + FaceIfExposed(cells, next, block, x, y, z, Bottom)
      + FaceIfExposed(cells, next, block, x, y, z, Top)
      + FaceIfExposed(cells, next, block, x, y, z, Back)
      + FaceIfExposed(cells, next, block, x, y, z, Front)
  }

  /** What a build emits for each cell, given the cell's coordinates: corners or packed words. */
  type Emit<T> = (nat, nat, nat) -> seq<T>

  /** The emitted corners of cells (x, y, 0) .. (x, y, n - 1), in order. */
  function RowOf<T>(emit: Emit<T>, x: nat, y: nat, n: nat): seq<T>
  {
    if n == 0 then [] else RowOf(emit, x, y, n - 1) + emit(x, y, n - 1)
  }

  /** The emitted corners of rows y = 0 .. n - 1 of the slice at x. */
  function SliceOf<T>(emit: Emit<T>, x: nat, n: nat): seq<T>
  {
    if n == 0 then [] else SliceOf(emit, x, n - 1) + RowOf(emit, x, n - 1, LENGTH)
  }

  /** The emitted corners of slices x = 0 .. n - 1. */
  function ChunkOf<T>(emit: Emit<T>, n: nat): seq<T>
  {
    if n == 0 then [] else ChunkOf(emit, n - 1) + SliceOf(emit, n - 1, HEIGHT)
  }

  /** The mesher's emission for one snapshot. */
  function Emitter(cells: seq<byte>, next: NextCells, table: seq<Block>): Emit<Corner>
    requires WellFormed(cells, next) && |table| > 0
  {
    (x: nat, y: nat, z: nat) => BlockCorners(cells, next, table, x, y, z)
  }

  /** `emit` yields the corners of every cell. The trigger keeps a cell's
      corners out of sight until they are asked for by name. */
  ghost predicate EmitsCorners(emit: Emit<Corner>, cells: seq<byte>, next: NextCells, table: seq<Block>)
  {
    WellFormed(cells, next) && |table| > 0 &&
    forall x: nat, y: nat, z: nat {:trigger BlockCorners(cells, next, table, x, y, z)} ::
      emit(x, y, z) == BlockCorners(cells, next, table, x, y, z)
  }

  /** An emitter of the corners of every cell, chosen without showing its
      body, so that a mesh does not unfold into the faces of each cell. */
  ghost function CornerEmitter(cells: seq<byte>, next: NextCells, table: seq<Block>): (emit: Emit<Corner>)
    requires WellFormed(cells, next) && |table| > 0
    ensures EmitsCorners(emit, cells, next, table)
  {
    assert EmitsCorners(Emitter(cells, next, table), cells, next, table);
    var emit :| EmitsCorners(emit, cells, next, table);
    emit
  }

  /** Everything `build` emits, in the order of its x, y, z loops. */
  ghost function Mesh(cells: seq<byte>, next: NextCells, table: seq<Block>): seq<Corner>
    requires WellFormed(cells, next) && |table| > 0
  {
    ChunkOf(CornerEmitter(cells, next, table), WIDTH)
  }

  // ---- Counting ----

  /** 1 if the face is exposed, else 0. */
  function Shown(cells: seq<byte>, next: NextCells, x: nat, y: nat, z: nat, face: Face): nat
    requires WellFormed(cells, next)
  {
    if Exposed(cells, next, x, y, z, face) then 1 else 0
  }

  /** The number of exposed faces of a solid cell. */
  function ExposedFaces(cells: seq<byte>, next: NextCells, x: nat, y: nat, z: nat): nat
    requires WellFormed(cells, next)
  {
    Shown(cells, next, x, y, z, Left) + Shown(cells, next, x, y, z, Right)
    + Shown(cells, next, x, y, z, Bottom) + Shown(cells, next, x, y, z, Top)
    + Shown(cells, next, x, y, z, Back) + Shown(cells, next, x, y, z, Front)
  }

  /** Air emits nothing; a solid cell emits six corners per exposed face. */
  lemma BlockCornersCount(cells: seq<byte>, next: NextCells, table: seq<Block>, x: nat, y: nat, z: nat)
    requires WellFormed(cells, next) && |table| > 0
    ensures CellAt(cells, LocalBlockPos(x, y, z)) == AIR ==> BlockCorners(cells, next, table, x, y, z) == []
    ensures CellAt(cells, LocalBlockPos(x, y, z)) != AIR ==>
              |BlockCorners(cells, next, table, x, y, z)| == 6 * ExposedFaces(cells, next, x, y, z)
  {
  }

  /** The cell next to (x, y, z) across `face`, for a cell away from the chunk's borders. */
  function Beside(x: nat, y: nat, z: nat, face: Face): LocalBlockPos
    requires 0 < x && 0 < y && 0 < z
  {
    match face
    case Left => LocalBlockPos(x - 1, y, z)
    case Right => LocalBlockPos(x + 1, y, z)
    case Bottom => LocalBlockPos(x, y - 1, z)
    case Top => LocalBlockPos(x, y + 1, z)
    case Back => LocalBlockPos(x, y, z - 1)
    case Front => LocalBlockPos(x, y, z + 1)
  }

  predicate AwayFromBorders(x: nat, y: nat, z: nat)
  {
    0 < x < WIDTH - 1 && 0 < y < HEIGHT - 1 && 0 < z < LENGTH - 1
  }

  /** A solid cell surrounded by air yields 36 vertices. */
  lemma {:induction false} IsolatedBlock(cells: seq<byte>, next: NextCells, table: seq<Block>, x: nat, y: nat, z: nat)
    requires WellFormed(cells, next) && |table| > 0 && AwayFromBorders(x, y, z)
    requires CellAt(cells, LocalBlockPos(x, y, z)) != AIR
    requires forall f: Face :: CellAt(cells, Beside(x, y, z, f)) == AIR
    ensures |BlockCorners(cells, next, table, x, y, z)| == 36
  {
    BlockCornersCount(cells, next, table, x, y, z);
    assert CellAt(cells, Beside(x, y, z, Left)) == AIR;
    assert CellAt(cells, Beside(x, y, z, Right)) == AIR;
    assert CellAt(cells, Beside(x, y, z, Bottom)) == AIR;
    assert CellAt(cells, Beside(x, y, z, Top)) == AIR;
    assert CellAt(cells, Beside(x, y, z, Back)) == AIR;
    assert CellAt(cells, Beside(x, y, z, Front)) == AIR;
  }

  /** With exactly one solid orthogonal neighbour it yields 30. */
  lemma {:induction false} OneSolidNeighbour(cells: seq<byte>, next: NextCells, table: seq<Block>,
                                            x: nat, y: nat, z: nat, solid: Face)
    requires WellFormed(cells, next) && |table| > 0 && AwayFromBorders(x, y, z)
    requires CellAt(cells, LocalBlockPos(x, y, z)) != AIR
    requires CellAt(cells, Beside(x, y, z, solid)) != AIR
    requires forall f: Face | f != solid :: CellAt(cells, Beside(x, y, z, f)) == AIR
    ensures |BlockCorners(cells, next, table, x, y, z)| == 30
  {
    BlockCornersCount(cells, next, table, x, y, z);
    assert Left != solid ==> CellAt(cells, Beside(x, y, z, Left)) == AIR;
    assert Right != solid ==> CellAt(cells, Beside(x, y, z, Right)) == AIR;
    assert Bottom != solid ==> CellAt(cells, Beside(x, y, z, Bottom)) == AIR;
    assert Top != solid ==> CellAt(cells, Beside(x, y, z, Top)) == AIR;
    assert Back != solid ==> CellAt(cells, Beside(x, y, z, Back)) == AIR;
    assert Front != solid ==> CellAt(cells, Beside(x, y, z, Front)) == AIR;
  }

  /** Bottom and top faces never consult the neighbour chunks. */
  lemma VerticalFacesIgnoreNeighbours(cells: seq<byte>, n1: NextCells, n2: NextCells, x: nat, y: nat, z: nat)
    requires WellFormed(cells, n1) && WellFormed(cells, n2)
    ensures Exposed(cells, n1, x, y, z, Bottom) == Exposed(cells, n2, x, y, z, Bottom)
    ensures Exposed(cells, n1, x, y, z, Top) == Exposed(cells, n2, x, y, z, Top)
  {
  }

  lemma SixesAdd(a: nat, b: nat)
    requires a % 6 == 0 && b % 6 == 0
    ensures (a + b) % 6 == 0
  {
  }

  /** Every cell contributes a multiple of six corners. */
  lemma BlockCornersSixes(cells: seq<byte>, next: NextCells, table: seq<Block>, x: nat, y: nat, z: nat)
    requires WellFormed(cells, next) && |table| > 0
    ensures |BlockCorners(cells, next, table, x, y, z)| % 6 == 0
  {
    BlockCornersCount(cells, next, table, x, y, z);
  }

  ghost predicate EmitsSixes(emit: Emit<Corner>)
  {
    forall x: nat, y: nat, z: nat :: |emit(x, y, z)| % 6 == 0
  }

  lemma {:induction false} RowSixes(emit: Emit<Corner>, x: nat, y: nat, n: nat)
    requires EmitsSixes(emit)
    ensures |RowOf(emit, x, y, n)| % 6 == 0
  {
    if n > 0 {
      RowSixes(emit, x, y, n - 1);
      SixesAdd(|RowOf(emit, x, y, n - 1)|, |emit(x, y, n - 1)|);
    }
  }

  lemma {:induction false} SliceSixes(emit: Emit<Corner>, x: nat, n: nat)
    requires EmitsSixes(emit)
    ensures |SliceOf(emit, x, n)| % 6 == 0
  {
    if n > 0 {
      SliceSixes(emit, x, n - 1);
      RowSixes(emit, x, n - 1, LENGTH);
      SixesAdd(|SliceOf(emit, x, n - 1)|, |RowOf(emit, x, n - 1, LENGTH)|);
    }
  }

  lemma {:induction false} ChunkSixes(emit: Emit<Corner>, n: nat)
    requires EmitsSixes(emit)
    ensures |ChunkOf(emit, n)| % 6 == 0
  {
    if n > 0 {
      ChunkSixes(emit, n - 1);
      SliceSixes(emit, n - 1, HEIGHT);
      SixesAdd(|ChunkOf(emit, n - 1)|, |SliceOf(emit, n - 1, HEIGHT)|);
    }
  }

  /** Every emitted face adds exactly six vertices, so the mesh has a multiple of six. */
  lemma MeshSixes(cells: seq<byte>, next: NextCells, table: seq<Block>)
    requires WellFormed(cells, next) && |table| > 0
    ensures |Mesh(cells, next, table)| % 6 == 0
  {
    var emit := CornerEmitter(cells, next, table);
    forall x: nat, y: nat, z: nat ensures |emit(x, y, z)| % 6 == 0 {
      BlockCornersSixes(cells, next, table, x, y, z);
      assert emit(x, y, z) == BlockCorners(cells, next, table, x, y, z);
    }
    ChunkSixes(emit, WIDTH);
  }

  // ---- Corner bounds ----

  predicate AllFit(cs: seq<Corner>)
  {
    forall i | 0 <= i < |cs| :: CornerFits(cs[i])
  }

  lemma AllFitAppend(a: seq<Corner>, b: seq<Corner>)
    requires AllFit(a) && AllFit(b)
    ensures AllFit(a + b)
  {
    forall i | 0 <= i < |a + b| ensures CornerFits((a + b)[i]) {
      if i >= |a| {
        assert (a + b)[i] == b[i - |a|];
      }
    }
  }

  lemma BlockCornersFit(cells: seq<byte>, next: NextCells, table: seq<Block>, x: nat, y: nat, z: nat)
    requires WellFormed(cells, next) && |table| > 0 && TableFits(table) && x < WIDTH && y < HEIGHT && z < LENGTH
    ensures AllFit(BlockCorners(cells, next, table, x, y, z))
  {
    if CellAt(cells, LocalBlockPos(x, y, z)) != AIR {
      var block := Lookup(table, CellAt(cells, LocalBlockPos(x, y, z)) as nat);
      forall f: Face ensures AllFit(FaceIfExposed(cells, next, block, x, y, z, f)) {
        FaceCornersFit(f, x, y, z, FaceTexture(block, f));
      }
      AllFitAppend(FaceIfExposed(cells, next, block, x, y, z, Left), FaceIfExposed(cells, next, block, x, y, z, Right));
      var s2 := FaceIfExposed(cells, next, block, x, y, z, Left) + FaceIfExposed(cells, next, block, x, y, z, Right);
      AllFitAppend(s2, FaceIfExposed(cells, next, block, x, y, z, Bottom));
      var s3 := s2 + FaceIfExposed(cells, next, block, x, y, z, Bottom);
      AllFitAppend(s3, FaceIfExposed(cells, next, block, x, y, z, Top));
      var s4 := s3 + FaceIfExposed(cells, next, block, x, y, z, Top);
      AllFitAppend(s4, FaceIfExposed(cells, next, block, x, y, z, Back));
      var s5 := s4 + FaceIfExposed(cells, next, block, x, y, z, Back);
      AllFitAppend(s5, FaceIfExposed(cells, next, block, x, y, z, Front));
    }
  }

  predicate EmitsFitting(emit: Emit<Corner>)
  {
    forall x: nat, y: nat, z: nat | x < WIDTH && y < HEIGHT && z < LENGTH :: AllFit(emit(x, y, z))
  }

  lemma {:induction false} RowFits(emit: Emit<Corner>, x: nat, y: nat, n: nat)
    requires EmitsFitting(emit) && x < WIDTH && y < HEIGHT && n <= LENGTH
    ensures AllFit(RowOf(emit, x, y, n))
  {
    if n > 0 {
      RowFits(emit, x, y, n - 1);
      AllFitAppend(RowOf(emit, x, y, n - 1), emit(x, y, n - 1));
    }
  }

  lemma {:induction false} SliceFits(emit: Emit<Corner>, x: nat, n: nat)
    requires EmitsFitting(emit) && x < WIDTH && n <= HEIGHT
    ensures AllFit(SliceOf(emit, x, n))
  {
    if n > 0 {
      SliceFits(emit, x, n - 1);
      RowFits(emit, x, n - 1, LENGTH);
      AllFitAppend(SliceOf(emit, x, n - 1), RowOf(emit, x, n - 1, LENGTH));
    }
  }

  lemma {:induction false} ChunkFits(emit: Emit<Corner>, n: nat)
    requires EmitsFitting(emit) && n <= WIDTH
    ensures AllFit(ChunkOf(emit, n))
  {
    if n > 0 {
      ChunkFits(emit, n - 1);
      SliceFits(emit, n - 1, HEIGHT);
      AllFitAppend(ChunkOf(emit, n - 1), SliceOf(emit, n - 1, HEIGHT));
    }
  }

  /** Every corner of the mesh has x, z <= 16, y <= 256, atlas column <= 16
      and atlas row < 32, when every texture of the table is below
      `TEXTURE_LIMIT` (the startup table's are). */
  lemma MeshFits(cells: seq<byte>, next: NextCells, table: seq<Block>)
    requires WellFormed(cells, next) && |table| > 0 && TableFits(table)
    ensures AllFit(Mesh(cells, next, table))
  {
    var emit := CornerEmitter(cells, next, table);
    forall x: nat, y: nat, z: nat | x < WIDTH && y < HEIGHT && z < LENGTH ensures AllFit(emit(x, y, z)) {
      BlockCornersFit(cells, next, table, x, y, z);
      assert emit(x, y, z) == BlockCorners(cells, next, table, x, y, z);
    }
    ChunkFits(emit, WIDTH);
  }

  // ---- Packed words ----

  /** The packed vertex words of the cell at (x, y, z). */
  function CellWords(cells: seq<byte>, next: NextCells, table: seq<Block>, x: nat, y: nat, z: nat): seq<u32>
    requires WellFormed(cells, next) && |table| > 0
  {
    Map(PackCorner, BlockCorners(cells, next, table, x, y, z))
  }

  /** `emit` produces the packed vertex words of every cell. The trigger keeps
      the fact out of sight until a cell's words are asked for by name. */
  ghost predicate EmitsWords(emit: Emit<u32>, cells: seq<byte>, next: NextCells, table: seq<Block>)
  {
    WellFormed(cells, next) && |table| > 0 &&
    forall x: nat, y: nat, z: nat {:trigger CellWords(cells, next, table, x, y, z)} ::
      emit(x, y, z) == CellWords(cells, next, table, x, y, z)
  }

  /** `we` emits for each cell the image under `f` of what `ce` emits. */
  ghost predicate MapsTo<A, B>(f: A -> B, ce: Emit<A>, we: Emit<B>)
  {
    forall x: nat, y: nat, z: nat :: Map(f, ce(x, y, z)) == we(x, y, z)
  }

  lemma {:induction false} RowMaps<A, B>(f: A -> B, ce: Emit<A>, we: Emit<B>, x: nat, y: nat, n: nat)
    requires MapsTo(f, ce, we)
    ensures Map(f, RowOf(ce, x, y, n)) == RowOf(we, x, y, n)
  {
    if n > 0 {
      var s, c := RowOf(ce, x, y, n - 1), ce(x, y, n - 1);
      RowMaps(f, ce, we, x, y, n - 1);
      MapAppend(f, s, c);
      assert RowOf(ce, x, y, n) == s + c;
    }
  }

  lemma {:induction false} SliceMaps<A, B>(f: A -> B, ce: Emit<A>, we: Emit<B>, x: nat, n: nat)
    requires MapsTo(f, ce, we)
    ensures Map(f, SliceOf(ce, x, n)) == SliceOf(we, x, n)
  {
    if n > 0 {
      var s, r := SliceOf(ce, x, n - 1), RowOf(ce, x, n - 1, LENGTH);
      SliceMaps(f, ce, we, x, n - 1);
      RowMaps(f, ce, we, x, n - 1, LENGTH);
      MapAppend(f, s, r);
      assert SliceOf(ce, x, n) == s + r;
    }
  }

  lemma {:induction false} ChunkMaps<A, B>(f: A -> B, ce: Emit<A>, we: Emit<B>, n: nat)
    requires MapsTo(f, ce, we)
    ensures Map(f, ChunkOf(ce, n)) == ChunkOf(we, n)
  {
    if n > 0 {
      var c, s := ChunkOf(ce, n - 1), SliceOf(ce, n - 1, HEIGHT);
      ChunkMaps(f, ce, we, n - 1);
      SliceMaps(f, ce, we, n - 1, HEIGHT);
      MapAppend(f, c, s);
      assert ChunkOf(ce, n) == c + s;
    }
  }

  /** Some emitter produces the packed words of every cell. */
  lemma WordsEmitter(cells: seq<byte>, next: NextCells, table: seq<Block>) returns (emit: Emit<u32>)
    requires WellFormed(cells, next) && |table| > 0
    ensures EmitsWords(emit, cells, next, table)
  {
    emit := (x: nat, y: nat, z: nat) => CellWords(cells, next, table, x, y, z);
  }

  /** The words of a whole build are the packed corners of the mesh. */
  lemma MeshWordsPack(emit: Emit<u32>, cells: seq<byte>, next: NextCells, table: seq<Block>)
    requires EmitsWords(emit, cells, next, table)
    ensures ChunkOf(emit, WIDTH) == Map(PackCorner, Mesh(cells, next, table))
  {
    var ce := CornerEmitter(cells, next, table);
    forall x: nat, y: nat, z: nat ensures Map(PackCorner, ce(x, y, z)) == emit(x, y, z) {
      assert ce(x, y, z) == BlockCorners(cells, next, table, x, y, z);
      assert emit(x, y, z) == CellWords(cells, next, table, x, y, z);
    }
    ChunkMaps(PackCorner, ce, emit, WIDTH);
  }

  // ---- The mesher ----

  /** `NextChunks`: the four neighbour chunks a build may consult. */
  datatype NextChunks = NextChunks(left: Option<Chunk>, right: Option<Chunk>, back: Option<Chunk>, front: Option<Chunk>)

  ghost predicate ValidOpt(c: Option<Chunk>)
  {
    c.Some? ==> c.value.Valid()
  }

  ghost predicate ValidNext(n: NextChunks)
  {
    ValidOpt(n.left) && ValidOpt(n.right) && ValidOpt(n.back) && ValidOpt(n.front)
  }

  function ArraysOf(c: Option<Chunk>): set<array<byte>>
  {
    if c.Some? then {c.value.blocks} else {}
  }

  function NextArrays(n: NextChunks): set<array<byte>>
  {
    ArraysOf(n.left) + ArraysOf(n.right) + ArraysOf(n.back) + ArraysOf(n.front)
  }

  function CellsOf(c: Option<Chunk>): (s: Option<seq<byte>>)
    requires ValidOpt(c)
    reads ArraysOf(c)
    ensures FullChunk(s)
  {
    if c.Some? then Some(c.value.blocks[..]) else None
  }

  /** The cells of the neighbour chunks. */
  function NextCellsOf(n: NextChunks): NextCells
    requires ValidNext(n)
    reads NextArrays(n)
  {
    NextCells(CellsOf(n.left), CellsOf(n.right), CellsOf(n.back), CellsOf(n.front))
  }

  /** The corners a solid cell contributes, given the outcome of each face's
      exposure test: the exposed faces' corners in face order. */
  lemma SolidCellCorners(cells: seq<byte>, nc: NextCells, table: seq<Block>, x: nat, y: nat, z: nat,
                         oLeft: bool, oRight: bool, oBottom: bool, oTop: bool, oBack: bool, oFront: bool)
    requires WellFormed(cells, nc) && |table| > 0
    requires CellAt(cells, LocalBlockPos(x, y, z)) != AIR
    requires oLeft == Exposed(cells, nc, x, y, z, Left) && oRight == Exposed(cells, nc, x, y, z, Right)
    requires oBottom == Exposed(cells, nc, x, y, z, Bottom) && oTop == Exposed(cells, nc, x, y, z, Top)
    requires oBack == Exposed(cells, nc, x, y, z, Back) && oFront == Exposed(cells, nc, x, y, z, Front)
    ensures var b := Lookup(table, CellAt(cells, LocalBlockPos(x, y, z)) as nat);
            BlockCorners(cells, nc, table, x, y, z) ==
            (if oLeft then FaceCorners(Left, x, y, z, b.left) else [])
            + (if oRight then FaceCorners(Right, x, y, z, b.right) else [])
            + (if oBottom then FaceCorners(Bottom, x, y, z, b.bottom) else [])
            + (if oTop then FaceCorners(Top, x, y, z, b.top) else [])
            + (if oBack then FaceCorners(Back, x, y, z, b.back) else [])
            + (if oFront then FaceCorners(Front, x, y, z, b.front) else [])
  {
  }

  /** The exposure test `build` writes before each face: the cell beyond the
      face is air, reading the neighbour chunk at the chunk edge (an absent
      neighbour counts as air) and the chunk itself elsewhere. */
  function Open(chunk: Chunk, next: NextChunks, x: nat, y: nat, z: nat, face: Face): (open: bool)
    requires chunk.Valid() && ValidNext(next)
    reads chunk.blocks, NextArrays(next)
    ensures open == Exposed(chunk.blocks[..], NextCellsOf(next), x, y, z, face)
  {
    match face
    case Left =>
      if x == 0 then next.left.None? || next.left.value.GetBlock(LocalBlockPos(WIDTH - 1, y, z)) == AIR
      else chunk.GetBlock(LocalBlockPos(x - 1, y, z)) == AIR
    case Right =>
      if x >= WIDTH - 1 then next.right.None? || next.right.value.GetBlock(LocalBlockPos(0, y, z)) == AIR
      else chunk.GetBlock(LocalBlockPos(x + 1, y, z)) == AIR
    case Bottom =>
      y == 0 || chunk.GetBlock(LocalBlockPos(x, y - 1, z)) == AIR
    case Top =>
      y >= HEIGHT - 1 || chunk.GetBlock(LocalBlockPos(x, y + 1, z)) == AIR
    case Back =>
      if z == 0 then next.back.None? || next.back.value.GetBlock(LocalBlockPos(x, y, LENGTH - 1)) == AIR
      else chunk.GetBlock(LocalBlockPos(x, y, z - 1)) == AIR
    case Front =>
      if z >= LENGTH - 1 then next.front.None? || next.front.value.GetBlock(LocalBlockPos(x, y, 0)) == AIR
      else chunk.GetBlock(LocalBlockPos(x, y, z + 1)) == AIR
  }

  /** What the loop body of `build` reads for the cell at (x, y, z): nothing
      for air (the `continue`), otherwise the corners of each face whose
      exposure test passes, in the order Left, Right, Bottom, Top, Back, Front,
      textured from the registry entry of the cell's id. */
  function CellCorners(registry: BlockRegistry, chunk: Chunk, next: NextChunks, x: nat, y: nat, z: nat): (cs: seq<Corner>)
    requires registry.Valid() && chunk.Valid() && ValidNext(next)
    reads registry, chunk.blocks, NextArrays(next)
    ensures cs == BlockCorners(chunk.blocks[..], NextCellsOf(next), registry.blocks, x, y, z)
  {
    var id := chunk.GetBlock(LocalBlockPos(x, y, z));
    if id == AIR then []
    else
      var block := registry.Get(id as nat);
      var openLeft, openRight := Open(chunk, next, x, y, z, Left), Open(chunk, next, x, y, z, Right);
      var openBottom, openTop := Open(chunk, next, x, y, z, Bottom), Open(chunk, next, x, y, z, Top);
      var openBack, openFront := Open(chunk, next, x, y, z, Back), Open(chunk, next, x, y, z, Front);
      SolidCellCorners(chunk.blocks[..], NextCellsOf(next), registry.blocks, x, y, z,
                       openLeft, openRight, openBottom, openTop, openBack, openFront);
      (if openLeft then FaceCorners(Left, x, y, z, block.left) else [])
      + (if openRight then FaceCorners(Right, x, y, z, block.right) else [])
      + (if openBottom then FaceCorners(Bottom, x, y, z, block.bottom) else [])
      + (if openTop then FaceCorners(Top, x, y, z, block.top) else [])
      + (if openBack then FaceCorners(Back, x, y, z, block.back) else [])
      + (if openFront then FaceCorners(Front, x, y, z, block.front) else [])
  }

  /** The inputs of `build` are usable, and `cells`, `nc` and `table` name
      what the chunk, its neighbours and the registry hold. */
  ghost predicate Inputs(registry: BlockRegistry, chunk: Chunk, next: NextChunks,
                         cells: seq<byte>, nc: NextCells, table: seq<Block>)
    reads registry, chunk.blocks, NextArrays(next)
  {
    registry.Valid() && chunk.Valid() && ValidNext(next) &&
    cells == chunk.blocks[..] && nc == NextCellsOf(next) && table == registry.blocks
  }

  class ChunkData {
    var vertices: seq<u32>

    /** `ChunkData::create`: no vertices. */
    constructor ()
      ensures vertices == []
    {
      vertices := [];
    }

    /** The body of the innermost loop of `build`, for the cell at (x, y, z):
        push the vertex words of what `CellCorners` finds there. */
    method PutBlock(registry: BlockRegistry, chunk: Chunk, next: NextChunks, x: nat, y: nat, z: nat,
                    ghost cells: seq<byte>, ghost nc: NextCells, ghost table: seq<Block>)
      requires Inputs(registry, chunk, next, cells, nc, table)
      modifies this
      ensures vertices == old(vertices) + CellWords(cells, nc, table, x, y, z)
      ensures Inputs(registry, chunk, next, cells, nc, table)
    {
      var corners := CellCorners(registry, chunk, next, x, y, z);
      vertices := vertices + Map(PackCorner, corners);
    }

    /** The innermost loop of `build`: the cells (x, y, 0) .. (x, y, 15). */
    method PutRow(registry: BlockRegistry, chunk: Chunk, next: NextChunks, x: nat, y: nat,
                  ghost cells: seq<byte>, ghost nc: NextCells, ghost table: seq<Block>,
                  ghost emit: Emit<u32>)
      requires Inputs(registry, chunk, next, cells, nc, table) && EmitsWords(emit, cells, nc, table)
      modifies this
      ensures vertices == old(vertices) + RowOf(emit, x, y, LENGTH)
      ensures Inputs(registry, chunk, next, cells, nc, table)
    {
      ghost var v0 := vertices;
      for z := 0 to LENGTH
        invariant Inputs(registry, chunk, next, cells, nc, table)
        invariant vertices == v0 + RowOf(emit, x, y, z)
      {
        PutBlock(registry, chunk, next, x, y, z, cells, nc, table);
        assert emit(x, y, z) == CellWords(cells, nc, table, x, y, z);
        AppendAssoc(v0, RowOf(emit, x, y, z), emit(x, y, z));
      }
    }

    /** The middle loop of `build`: the rows y = 0 .. 255 of the slice at x. */
    method PutSlice(registry: BlockRegistry, chunk: Chunk, next: NextChunks, x: nat,
                    ghost cells: seq<byte>, ghost nc: NextCells, ghost table: seq<Block>,
                    ghost emit: Emit<u32>)
      requires Inputs(registry, chunk, next, cells, nc, table) && EmitsWords(emit, cells, nc, table)
      modifies this
      ensures vertices == old(vertices) + SliceOf(emit, x, HEIGHT)
      ensures Inputs(registry, chunk, next, cells, nc, table)
    {
      ghost var v0 := vertices;
      for y := 0 to HEIGHT
        invariant Inputs(registry, chunk, next, cells, nc, table)
        invariant vertices == v0 + SliceOf(emit, x, y)
      {
        PutRow(registry, chunk, next, x, y, cells, nc, table, emit);
        AppendAssoc(v0, SliceOf(emit, x, y), RowOf(emit, x, y, LENGTH));
      }
    }

    /** `build`: clear the buffer, then emit the exposed faces of every cell
        in x, y, z order. The result depends only on the chunk, its
        neighbours and the registry. */
    method Build(registry: BlockRegistry, chunk: Chunk, next: NextChunks)
      requires registry.Valid() && chunk.Valid() && ValidNext(next)
      modifies this
      ensures vertices == Map(PackCorner, Mesh(old(chunk.blocks[..]), old(NextCellsOf(next)), old(registry.blocks)))
    {
      ghost var cells, nc, table := chunk.blocks[..], NextCellsOf(next), registry.blocks;
      ghost var emit := WordsEmitter(cells, nc, table);
      vertices := [];
      for x := 0 to WIDTH
        invariant Inputs(registry, chunk, next, cells, nc, table)
        invariant vertices == ChunkOf(emit, x)
      {
        PutSlice(registry, chunk, next, x, cells, nc, table, emit);
      }
      MeshWordsPack(emit, cells, nc, table);
    }
  }

  /** `ChunkMesh`, reduced to its vertex count (the GPU buffers are not modelled). */
  class ChunkMesh {
    var numVertices: nat

    constructor ()
      ensures numVertices == 0
    {
      numVertices := 0;
    }

    /** `ChunkMesh::build`: take the vertex count of the built data. */
    method Build(data: ChunkData)
      modifies this
      ensures numVertices == |data.vertices|
    {
      numVertices := |data.vertices|;
    }
  }
}
