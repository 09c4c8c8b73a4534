/**
 * The integer part of the world generator: `hash_coords`, which mixes the
 * seed with a block column's x and z and finishes with the MurmurHash3
 * `fmix64` finalizer. The noise-based height and the float conversion in
 * `get_random` are abstracted: chunk generation receives oracles that see a
 * column only through its height and through `hash_coords` values.
 */
module WorldGen {
  import opened Bits
  import opened Coords

  const X_MUL: bv64 := 0x517cc1b727220a95
  const Z_MUL: bv64 := 0x6d8a9b5e8377e61d
  const FMIX_C1: bv64 := 0xff51afd7ed558ccd
  const FMIX_C2: bv64 := 0xc4ceb9fe1a85ec53

  /** `h ^= h >> 33`. */
  function XorShift33(h: bv64): bv64
  {
    h ^ (h >> 33)
  }

  lemma XorShift33Unfold(h: bv64)
    ensures XorShift33(h) == h ^ (h >> 33)
  {
  }

  lemma XorShiftTop(h: bv64)
    ensures (h ^ (h >> 33)) >> 31 == h >> 31
  {
  }

  /** Each `h ^= h >> 33` step leaves the top 33 bits of `h` unchanged. */
  lemma XorShift33KeepsTop(h: bv64)
    ensures XorShift33(h) >> 31 == h >> 31
  {
    XorShift33Unfold(h);
    XorShiftTop(h);
  }

  /** The xorshift step undoes itself: the top 33 bits it xors in survive it. */
  lemma XorShift33Involutive(h: bv64)
    ensures XorShift33(XorShift33(h)) == h
  {
    XorShift33Unfold(h);
    assert (h ^ (h >> 33)) >> 33 == h >> 33;
    XorCancel(h, h >> 33);
  }

  lemma XorCancel(a: bv64, b: bv64)
    ensures a ^ b ^ b == a
  {
  }

  /** The MurmurHash3 64-bit finalizer, the last five statements of
      `hash_coords`. Its final xorshift can be undone: applying the step
      again gives back the state after the second multiplication. */
  function Fmix64(h: bv64): (r: bv64)
    ensures XorShift33(r) == WrappingMul(XorShift33(WrappingMul(XorShift33(h), FMIX_C1)), FMIX_C2)
  {
    var d := WrappingMul(XorShift33(WrappingMul(XorShift33(h), FMIX_C1)), FMIX_C2);
    XorShift33Involutive(d);
    XorShift33(d)
  }

  /** The seed and the coordinate words mixed in before finalizing: the
      `u32` seed zero-extended, then the two words multiplied by their
      constants modulo 2^64 and xored in, in that order. */
  function MixWords(seed: bv32, ux: bv64, uz: bv64): bv64
  {
    seed as bv64 ^ WrappingMul(ux, X_MUL) ^ WrappingMul(uz, Z_MUL)
  }

  /** The first three statements of `hash_coords`: x and z reinterpreted as `u64`. */
  function MixCoords(seed: bv32, x: int, z: int): bv64
    requires InI64(x) && InI64(z)
  {
    MixWords(seed, AsU64(x), AsU64(z))
  }

  /** `WorldGen::hash_coords`: a function of the seed and the coordinates only. */
  function HashCoords(seed: bv32, x: int, z: int): bv64
    requires InI64(x) && InI64(z)
  {
    Fmix64(MixCoords(seed, x, z))
  }

  lemma XorPairs(s1: bv32, s2: bv32, c: bv64, d: bv64)
    ensures (s1 as bv64 ^ c ^ d) ^ (s2 as bv64 ^ c ^ d) == (s1 as bv64) ^ (s2 as bv64)
    ensures s1 as bv64 ^ c ^ d == s2 as bv64 ^ c ^ d <==> s1 == s2
  {
  }

  lemma MixWordsSeed(s1: bv32, s2: bv32, ux: bv64, uz: bv64)
    ensures MixWords(s1, ux, uz) ^ MixWords(s2, ux, uz) == (s1 as bv64) ^ (s2 as bv64)
    ensures MixWords(s1, ux, uz) == MixWords(s2, ux, uz) <==> s1 == s2
  {
    XorPairs(s1, s2, WrappingMul(ux, X_MUL), WrappingMul(uz, Z_MUL));
  }

  /** On any one column the seed enters the mixed state linearly: two seeds'
      states differ by exactly the xor of the seeds, so distinct seeds give
      distinct states. */
  lemma MixCoordsSeed(s1: bv32, s2: bv32, x: int, z: int)
    requires InI64(x) && InI64(z)
    ensures MixCoords(s1, x, z) ^ MixCoords(s2, x, z) == (s1 as bv64) ^ (s2 as bv64)
    ensures MixCoords(s1, x, z) == MixCoords(s2, x, z) <==> s1 == s2
  {
    MixWordsSeed(s1, s2, AsU64(x), AsU64(z));
  }

  /** The hash state starts as the seed zero-extended to 64 bits: at the
      origin the coordinate terms vanish and only the seed is finalized. */
  lemma HashCoordsAtOrigin(seed: bv32)
    ensures MixCoords(seed, 0, 0) == seed as bv64
    ensures HashCoords(seed, 0, 0) == Fmix64(seed as bv64)
  {
  }

  /** Offsets of the second random draw of a column (`get_random(x + 3824, z - 9324)`). */
  const SECOND_DX: int := 3824
  const SECOND_DZ: int := -9324

  /**
   * The world generator as the chunk filler sees it. `seed` is the noise
   * seed; `columnHash` is `hash_coords` bound to that seed (see
   * `NewGenerator`), the only way `get_random` sees a column; `height`
   * stands for `get_height(x, z).max(0.0) as usize`; the three tests stand
   * for the float comparisons of a column's random draws against a
   * threshold depending on `y` or on the depth `height - y`:
   *   deepStone(h, y)     `random^3 < height_influence(y)` on the first draw,
   *   topDirt(h, y)       `random^4 < height_influence(y)` on the second draw,
   *   subsoilDirt(h, d)   `random >= d / 4` on the first draw.
   */
  datatype Generator = Generator(
    seed: bv32,
    columnHash: (int, int) -> bv64,
    height: (int, int) -> nat,
    deepStone: (bv64, nat) -> bool,
    topDirt: (bv64, nat) -> bool,
    subsoilDirt: (bv64, nat) -> bool)

  /** `WorldGen::create(seed)`, with the noise-derived parts given. Every
      column's random draw comes from `hash_coords` with this seed. */
  function NewGenerator(seed: bv32, height: (int, int) -> nat, deepStone: (bv64, nat) -> bool,
                        topDirt: (bv64, nat) -> bool, subsoilDirt: (bv64, nat) -> bool): (g: Generator)
    ensures g.seed == seed && g.height == height
    ensures g.deepStone == deepStone && g.topDirt == topDirt && g.subsoilDirt == subsoilDirt
    ensures forall x, z | InI64(x) && InI64(z) :: g.columnHash(x, z) == HashCoords(seed, x, z)
  {
    Generator(seed, (x, z) => if InI64(x) && InI64(z) then HashCoords(seed, x, z) else 0,
              height, deepStone, topDirt, subsoilDirt)
  }
}
