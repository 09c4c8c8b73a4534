/**
 * The custom hasher of the chunk maps: every input word is multiplied by the
 * 64-bit golden-ratio constant (wrapping), xored into the state, and the state
 * is rotated left by 5. All arithmetic is on `bv64`, so it wraps modulo 2^64.
 */
module Mapping {
  import opened Bits

  const GOLDEN: bv64 := 0x9e3779b97f4a7c15

  /** One mixing step: `hash ^= word.wrapping_mul(GOLDEN); hash = hash.rotate_left(5)`.
      It loses nothing: the previous state is recovered from the new one and the word. */
  function Mix(hash: bv64, word: bv64): (r: bv64)
    ensures r.RotateRight(5) ^ WrappingMul(word, GOLDEN) == hash
  {
    (hash ^ WrappingMul(word, GOLDEN)).RotateLeft(5)
  }

  /** The state after `write(bytes)` starting from `hash`: one `Mix` per byte, in order. */
  function WriteBytes(hash: bv64, bytes: seq<byte>): (r: bv64)
    decreases |bytes|
  {
    if bytes == [] then hash
    else Mix(WriteBytes(hash, bytes[..|bytes| - 1]), Widen(bytes[|bytes| - 1]))
  }

  /** Writing the empty slice changes nothing. */
  lemma WriteEmpty(hash: bv64)
    ensures WriteBytes(hash, []) == hash
  {
  }

  /** Writing a concatenation is writing its parts one after the other. */
  lemma {:induction false} WriteConcat(hash: bv64, a: seq<byte>, b: seq<byte>)
    ensures WriteBytes(hash, a + b) == WriteBytes(WriteBytes(hash, a), b)
    decreases |b|
  {
    if b == [] {
      assert a + b == a;
    } else {
      var b' := b[..|b| - 1];
      assert (a + b)[..|a + b| - 1] == a + b';
      assert (a + b)[|a + b| - 1] == b[|b| - 1];
      WriteConcat(hash, a, b');
    }
  }

  /** A single byte written through `write` mixes exactly like that byte
      zero-extended and written through `write_u64`. */
  lemma WriteOneByte(hash: bv64, b: byte)
    ensures WriteBytes(hash, [b]) == Mix(hash, Widen(b))
  {
    assert [b][..0] == [];
  }

  class ChunkPosHasher {
    var hash: bv64

    /** `ChunkPosHasher::default()`. */
    constructor ()
      ensures hash == 0
    {
      hash := 0;
    }

    method Write(bytes: seq<byte>)
      modifies this
      ensures hash == WriteBytes(old(hash), bytes)
    {
      var i := 0;
      while i < |bytes|
        invariant 0 <= i <= |bytes|
        invariant hash == WriteBytes(old(hash), bytes[..i])
      {
        assert bytes[..i + 1][..i] == bytes[..i];
        hash := Mix(hash, Widen(bytes[i]));
        i := i + 1;
      }
      assert bytes[..i] == bytes;
    }

    method WriteU64(i: bv64)
      modifies this
      ensures hash == Mix(old(hash), i)
    {
      hash := hash ^ WrappingMul(i, GOLDEN);
      hash := hash.RotateLeft(5);
    }

    method Finish() returns (r: bv64)
      ensures r == hash
    {
      r := hash;
    }
  }

  class ChunkPosHasherBuilder {
    constructor ()
    {
    }

    method BuildHasher() returns (h: ChunkPosHasher)
      ensures fresh(h) && h.hash == 0
    {
      h := new ChunkPosHasher();
    }
  }
}
