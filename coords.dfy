/**
 * Integer block and chunk coordinates: chunk indices are `i32`, block
 * coordinates are `i64`, local (in-chunk) coordinates are `usize`.
 * Overflow of the `i32` chunk arithmetic is excluded by preconditions; the
 * narrowing cast `i64 as i32` in `to_chunk_pos` is modelled as written.
 */
module Coords {
  import opened Dimensions
  import opened Bits
  import opened Mapping

  const I32_MIN: int := -0x8000_0000
  const I32_MAX: int := 0x7fff_ffff
  const I64_MIN: int := -0x8000_0000_0000_0000
  const I64_MAX: int := 0x7fff_ffff_ffff_ffff

  predicate InI32(v: int) { I32_MIN <= v <= I32_MAX }
  predicate InI64(v: int) { I64_MIN <= v <= I64_MAX }

  /** `ChunkPos`: the index of a chunk in the x/z grid. */
  datatype ChunkPos = ChunkPos(x: int, z: int)

  predicate ValidChunkPos(c: ChunkPos) { InI32(c.x) && InI32(c.z) }

  /** `&a + b`; the sums must not overflow `i32`. */
  function Add(a: ChunkPos, b: ChunkPos): (r: ChunkPos)
    requires ValidChunkPos(a) && ValidChunkPos(b)
    requires InI32(a.x + b.x) && InI32(a.z + b.z)
    ensures ValidChunkPos(r)
  {
    ChunkPos(a.x + b.x, a.z + b.z)
  }

  /** `&a - &b`; the differences must not overflow `i32`. */
  function Sub(a: ChunkPos, b: ChunkPos): (r: ChunkPos)
    requires ValidChunkPos(a) && ValidChunkPos(b)
    requires InI32(a.x - b.x) && InI32(a.z - b.z)
    ensures ValidChunkPos(r)
  {
    ChunkPos(a.x - b.x, a.z - b.z)
  }

  /** Subtracting what was added gives back the original position. */
  lemma SubAddCancel(a: ChunkPos, b: ChunkPos)
    requires ValidChunkPos(a) && ValidChunkPos(b)
    requires InI32(a.x + b.x) && InI32(a.z + b.z)
    ensures Sub(Add(a, b), b) == a
  {
  }

  /** `PartialEq::eq`: componentwise comparison, which is value equality. */
  function Eq(a: ChunkPos, b: ChunkPos): (r: bool)
    ensures r <==> a == b
  {
    a.x == b.x && a.z == b.z
  }

  /** `to_block_xz_pos`: the block coordinates of the chunk's origin corner, as `i64`. */
  function ToBlockXZ(c: ChunkPos): (r: (int, int))
    requires ValidChunkPos(c)
    ensures InI64(r.0) && InI64(r.1)
    ensures r.0 % WIDTH == 0 && r.0 / WIDTH == c.x
    ensures r.1 % LENGTH == 0 && r.1 / LENGTH == c.z
  {
    (c.x * WIDTH, c.z * LENGTH)
  }

  /** `BlockPos`: a block in the world, as three `i64`. */
  datatype BlockPos = BlockPos(x: int, y: int, z: int)

  predicate ValidBlockPos(b: BlockPos) { InI64(b.x) && InI64(b.y) && InI64(b.z) }

  /** The block positions whose chunk index fits `i32`, so that the cast in
      `to_chunk_pos` does not wrap. */
  predicate InChunkRange(b: BlockPos)
  {
    -0x8_0000_0000 <= b.x < 0x8_0000_0000 && -0x8_0000_0000 <= b.z < 0x8_0000_0000
  }

  /** `v as i32` for an `i64` v: keep the low 32 bits, read as two's complement. */
  function WrapI32(v: int): (r: int)
    ensures InI32(r)
    ensures (v - r) % 0x1_0000_0000 == 0
    ensures InI32(v) ==> r == v
  {
    var m := v % 0x1_0000_0000;
    if m <= I32_MAX then m else m - 0x1_0000_0000
  }

  /** `to_chunk_pos`: Euclidean division of x and z by `WIDTH` (for z as well),
      then the narrowing cast to `i32`. */
  function ToChunkPos(b: BlockPos): (c: ChunkPos)
    ensures ValidChunkPos(c)
  {
    ChunkPos(WrapI32(b.x / WIDTH), WrapI32(b.z / WIDTH))
  }

  /** Inside the chunk range, `to_chunk_pos` is the floor division on both
      axes, including negative coordinates. The z axis is divided by `WIDTH`
      in the code; it is the floor by `LENGTH` only because the two are equal. */
  lemma ToChunkPosFloor(b: BlockPos)
    requires InChunkRange(b)
    ensures var c := ToChunkPos(b);
            && c.x * WIDTH <= b.x < c.x * WIDTH + WIDTH
            && c.z * LENGTH <= b.z < c.z * LENGTH + LENGTH
  {
    var qx, qz := b.x / WIDTH, b.z / WIDTH;
    assert WIDTH * qx <= b.x < WIDTH * qx + WIDTH;
    assert WIDTH * qz <= b.z < WIDTH * qz + WIDTH;
    assert InI32(qx) && InI32(qz);
  }

  /** Inside the chunk range, the local offsets `x - cx*16` and `z - cz*16`
      the world store computes lie in `[0, 16)`. */
  lemma LocalOffsetInRange(b: BlockPos)
    requires InChunkRange(b)
    ensures 0 <= b.x - ToChunkPos(b).x * WIDTH < WIDTH
    ensures 0 <= b.z - ToChunkPos(b).z * LENGTH < LENGTH
  {
    ToChunkPosFloor(b);
  }

  /** `(a - b) as usize` for `i64` operands on a 64-bit target, with the
      subtraction wrapping as in a release build: the difference modulo 2^64. */
  function WrappingOffset(a: int, b: int): (u: nat)
    ensures u < TWO_64 && (a - b - u) % TWO_64 == 0
    ensures 0 <= a - b < TWO_64 ==> u == a - b
  {
    (a - b) % TWO_64
  }

  /** Outside the chunk range the cast wraps the chunk index by a non-zero
      multiple of 2^32, so `x - cx*16` is the floor offset plus a non-zero
      multiple of 2^36, and read modulo 2^64 it is never below 16. */
  lemma OffsetOutsideRange(x: int)
    requires InI64(x) && !(-0x8_0000_0000 <= x < 0x8_0000_0000)
    ensures WrappingOffset(x, WrapI32(x / WIDTH) * WIDTH) >= WIDTH
  {
    var q := x / WIDTH;
    var c := WrapI32(q);
    assert !InI32(q);
    var k := (q - c) / 0x1_0000_0000;
    assert q - c == k * 0x1_0000_0000;
    assert k != 0;
    assert -0x800_0000 <= k <= 0x800_0000;
    var off := x - c * WIDTH;
    assert off == x % WIDTH + k * 0x10_0000_0000;
    if k > 0 {
      assert 0x10_0000_0000 <= off < TWO_64;
    } else {
      assert -TWO_64 < off < 0;
      assert off % TWO_64 == off + TWO_64;
    }
  }

  /** Routing a block position finds a cell inside its chunk's x/z range
      exactly when the chunk index does not wrap. */
  lemma LocalOffsets(b: BlockPos)
    requires ValidBlockPos(b)
    ensures var c := ToChunkPos(b);
            InChunkRange(b) <==>
            WrappingOffset(b.x, c.x * WIDTH) < WIDTH && WrappingOffset(b.z, c.z * LENGTH) < LENGTH
  {
    if InChunkRange(b) {
      LocalOffsetInRange(b);
    } else if !(-0x8_0000_0000 <= b.x < 0x8_0000_0000) {
      OffsetOutsideRange(b.x);
    } else {
      OffsetOutsideRange(b.z);
    }
  }

  /** A block at local offset (lx, lz) from a chunk's origin maps back to that chunk. */
  lemma BlockChunkRoundTrip(c: ChunkPos, lx: int, y: int, lz: int)
    requires ValidChunkPos(c)
    requires 0 <= lx < WIDTH && 0 <= lz < LENGTH
    ensures var o := ToBlockXZ(c);
            ToChunkPos(BlockPos(o.0 + lx, y, o.1 + lz)) == c
  {
    var o := ToBlockXZ(c);
    var b := BlockPos(o.0 + lx, y, o.1 + lz);
    assert b.x / WIDTH == c.x by {
      assert b.x == WIDTH * c.x + lx;
    }
    assert b.z / WIDTH == c.z by {
      assert b.z == WIDTH * c.z + lz;
    }
  }

  /** `LocalBlockPos`: a cell inside one chunk, as three `usize`. */
  datatype LocalBlockPos = LocalBlockPos(x: nat, y: nat, z: nat)

  // ---- Hashing a ChunkPos ----
  // `Hash for ChunkPos` hashes x then z; the standard `Hasher::write_i32`
  // passes the four native-endian (here little-endian) bytes of each to `write`.

  lemma Digits(u: int)
    requires 0 <= u < 0x1_0000_0000
    ensures u % 256 + 0x100 * (u / 0x100 % 256) + 0x1_0000 * (u / 0x1_0000 % 256)
            + 0x100_0000 * (u / 0x100_0000) == u
  {
  }

  function U32Bytes(u: int): (b: seq<byte>)
    requires 0 <= u < 0x1_0000_0000
    ensures |b| == 4
  {
    [(u % 256) as byte, (u / 0x100 % 256) as byte, (u / 0x1_0000 % 256) as byte, (u / 0x100_0000) as byte]
  }

  function U32Value(b: seq<byte>): int
    requires |b| == 4
  {
    b[0] as int + 0x100 * b[1] as int + 0x1_0000 * b[2] as int + 0x100_0000 * b[3] as int
  }

  lemma U32RoundTrip(u: int)
    requires 0 <= u < 0x1_0000_0000
    ensures U32Value(U32Bytes(u)) == u
  {
    Digits(u);
  }

  /** `i.to_ne_bytes()` of an `i32`, little-endian. */
  function I32Bytes(v: int): (b: seq<byte>)
    requires InI32(v)
    ensures |b| == 4
  {
    U32Bytes(if v < 0 then v + 0x1_0000_0000 else v)
  }

  /** `i32::from_ne_bytes`, the inverse. */
  function I32FromBytes(b: seq<byte>): int
    requires |b| == 4
  {
    var u := U32Value(b);
    if u <= I32_MAX then u else u - 0x1_0000_0000
  }

  lemma {:induction false} I32BytesRoundTrip(v: int)
    requires InI32(v)
    ensures I32FromBytes(I32Bytes(v)) == v
  {
    U32RoundTrip(if v < 0 then v + 0x1_0000_0000 else v);
  }

  /** The bytes `ChunkPos::hash` feeds to the hasher: x, then z. */
  function HashData(c: ChunkPos): (d: seq<byte>)
    requires ValidChunkPos(c)
    ensures |d| == 8
  {
    I32Bytes(c.x) + I32Bytes(c.z)
  }

  /** Distinct positions feed distinct data: the hash input is lossless. */
  lemma {:induction false} HashDataInjective(a: ChunkPos, b: ChunkPos)
    requires ValidChunkPos(a) && ValidChunkPos(b)
    ensures HashData(a) == HashData(b) <==> a == b
  {
    if HashData(a) == HashData(b) {
      assert I32Bytes(a.x) == HashData(a)[..4] == HashData(b)[..4] == I32Bytes(b.x);
      assert I32Bytes(a.z) == HashData(a)[4..] == HashData(b)[4..] == I32Bytes(b.z);
      I32BytesRoundTrip(a.x); I32BytesRoundTrip(b.x);
      I32BytesRoundTrip(a.z); I32BytesRoundTrip(b.z);
    }
  }

  /** `ChunkPos::hash` into a `ChunkPosHasher`: one `write` of x's bytes, then one of z's. */
  method Hash(c: ChunkPos, state: ChunkPosHasher)
    requires ValidChunkPos(c)
    modifies state
    ensures state.hash == WriteBytes(old(state.hash), HashData(c))
  {
    state.Write(I32Bytes(c.x));
    state.Write(I32Bytes(c.z));
    WriteConcat(old(state.hash), I32Bytes(c.x), I32Bytes(c.z));
  }

  /** The hash a chunk map computes for a key: a fresh hasher, `hash`, `finish`. */
  function KeyHash(c: ChunkPos): (h: bv64)
    requires ValidChunkPos(c)
  {
    WriteBytes(0, HashData(c))
  }

  /** Positions equal under `eq` hash equally, as `Eq` and `Hash` must agree. */
  lemma EqImpliesEqualHash(a: ChunkPos, b: ChunkPos)
    requires ValidChunkPos(a) && ValidChunkPos(b)
    ensures Eq(a, b) ==> KeyHash(a) == KeyHash(b)
  {
  }

  /** The key hash is what the `Hash` method leaves in a fresh hasher. */
  method HashWithFreshHasher(c: ChunkPos) returns (h: bv64)
    requires ValidChunkPos(c)
    ensures h == KeyHash(c)
  {
    var builder := new ChunkPosHasherBuilder();
    var state := builder.BuildHasher();
    Hash(c, state);
    h := state.Finish();
  }
}
