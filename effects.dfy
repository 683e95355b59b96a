/**
 * The integer and option-handling parts of the blurred-path and watercolour
 * effects: the lattice hash behind the watercolour noise, the option
 * parsers with their accepted ranges, the filtering of effect keys out of
 * the style list, and how `canvas_blur_path` decides what to draw.
 *
 * Hash words are 32-bit bit-vectors, so `+`, `*` and shifts wrap exactly as
 * `uint32_t` does. Option values that the host hands over as doubles are
 * reals.
 */
module Effects {
  import opened Common
  import opened Terms
  import opened Styles

  // ---------------------------------------------------------------------
  // The lattice hash
  // ---------------------------------------------------------------------

  type Word = bv32

  const GOLDEN: Word := 0x9e37_79b9

  /** `x ^ (x >> k)`, one xorshift stage. */
  function XorShr(x: Word, k: bv32): Word
    requires 0 < k < 32
  {
    x ^ (x >> k)
  }

  function Mul1(x: Word): Word { x * 0x7feb_352d }

  function Mul2(x: Word): Word { x * 0x846c_a68b }

  /** `hash_u32`: xorshift 16, multiply, xorshift 15, multiply, xorshift 16. */
  function HashU32(x: Word): Word
  {
    XorShr(Mul2(XorShr(Mul1(XorShr(x, 16)), 15)), 16)
  }

  /** `y ^ (y >> 16)` undoes itself on 32 bits. */
  function UnXorShr16(y: Word): Word { y ^ (y >> 16) }

  function UnXorShr15(y: Word): Word { y ^ (y >> 15) ^ (y >> 30) }

  // The multipliers' inverses modulo 2^32.

  function UnMul1(y: Word): Word { y * 0x1d69_e2a5 }

  function UnMul2(y: Word): Word { y * 0x4302_1123 }

  /** `hash_u32` run backwards. */
  function UnhashU32(y: Word): Word
  {
    UnXorShr16(UnMul1(UnXorShr15(UnMul2(UnXorShr16(y)))))
  }

  lemma UnXorShr16Bits(w: Word) ensures UnXorShr16(w ^ (w >> 16)) == w { }

  lemma UnXorShr15Bits(w: Word) ensures UnXorShr15(w ^ (w >> 15)) == w { }

  lemma UnMul1Bits(w: Word) ensures UnMul1(w * 0x7feb_352d) == w { }

  lemma UnMul2Bits(w: Word) ensures UnMul2(w * 0x846c_a68b) == w { }

  lemma XorShrInverse16(w: Word)
    ensures UnXorShr16(XorShr(w, 16)) == w
  {
    UnXorShr16Bits(w);
  }

  lemma XorShrInverse15(w: Word)
    ensures UnXorShr15(XorShr(w, 15)) == w
  {
    UnXorShr15Bits(w);
  }

  lemma MulInverse1(w: Word)
    ensures UnMul1(Mul1(w)) == w
  {
    UnMul1Bits(w);
  }

  lemma MulInverse2(w: Word)
    ensures UnMul2(Mul2(w)) == w
  {
    UnMul2Bits(w);
  }

  /** `hash_u32` is a bijection on 32-bit words: `UnhashU32` undoes it. */
  lemma HashU32Inverse(x: Word)
    ensures UnhashU32(HashU32(x)) == x
  {
    var a := XorShr(x, 16);
    var b := Mul1(a);
    var c := XorShr(b, 15);
    var d := Mul2(c);
    XorShrInverse16(d);
    MulInverse2(c);
    XorShrInverse15(b);
    MulInverse1(a);
    XorShrInverse16(x);
  }

  /** Distinct words hash to distinct words. */
  lemma HashU32Injective(x1: Word, x2: Word)
    requires HashU32(x1) == HashU32(x2)
    ensures x1 == x2
  {
    HashU32Inverse(x1);
    HashU32Inverse(x2);
  }

  /** `static_cast<uint32_t>` of a C `int`. */
  function U32Of(v: int): Word
  {
    (v % 0x1_0000_0000) as bv32
  }

  /** What `hash_2i` hashes when it mixes the coordinate `u` into the state `h`. */
  function MixSum(h: Word, u: Word): Word
  {
    u + GOLDEN + (h << 6) + (h >> 2)
  }

  /** One `h ^= hash_u32(u + 0x9e3779b9 + (h << 6) + (h >> 2))` step of `hash_2i`. */
  function MixIn(h: Word, u: Word): Word
  {
    h ^ HashU32(MixSum(h, u))
  }

  /** `hash_2i(x, y, seed)`. */
  function Hash2i(x: int, y: int, seed: Word): Word
  {
    HashU32(MixIn(MixIn(seed, U32Of(x)), U32Of(y)))
  }

  /**
   * The 24 bits `(h >> 8) & 0xFFFFFF` that `rand01_2i` scales: on a 32-bit
   * word the shift leaves 24 bits and the mask keeps them all, which is the
   * word's value divided by 256.
   */
  function Top24(h: Word): (n: nat)
    ensures n < 0x100_0000
  {
    (h as int) / 0x100
  }

  /**
   * `rand01_2i(x, y, seed)`. The 24-bit integer converts to `float` exactly
   * and the scale is a power of two, so the real below is the float's
   * value; it lies in `[0, 1)` on the grid of multiples of 2^-24.
   */
  function Rand01(x: int, y: int, seed: Word): (r: real)
    ensures 0.0 <= r < 1.0
    ensures r * 16777216.0 == Top24(Hash2i(x, y, seed)) as real
  {
    var n := Top24(Hash2i(x, y, seed));
    assert n as real / 16777216.0 < 1.0;
    n as real / 16777216.0
  }
}
