/**
 * The pseudo-random generator behind `rand_new` and `rand_normal_batch`:
 * splitmix64 seeding, the xoshiro256** step and output scrambler, the 63-bit
 * mask and the batch wrapper's argument handling. Words are 64-bit
 * bit-vectors, so every `+`, `*` and shift wraps exactly as `uint64_t` does.
 *
 * Bit-level facts (that a mixing stage can be undone) are proved on the
 * written-out expression and then carried to the named functions; the named
 * functions keep one operation per call so that the in-place update and its
 * specification match term by term.
 */
module Rand {
  import opened Common
  import opened Terms

  type Word = bv64

  const GOLDEN_GAMMA: Word := 0x9E37_79B9_7F4A_7C15
  const MAX_INT63: Word := 0x7FFF_FFFF_FFFF_FFFF
  const POW2_63: Word := 0x8000_0000_0000_0000
  /** `SIZE_MAX` of a 64-bit `size_t`. */
  const SIZE_MAX: int := 0xFFFF_FFFF_FFFF_FFFF
  /** `sizeof(float)`. */
  const FLOAT_SIZE: int := 4

  // ---------------------------------------------------------------------
  // Word operations
  // ---------------------------------------------------------------------

  /** `rotl(x, k)`: rotate left by `k` places, for the shift counts the generator uses. */
  function Rotl(x: Word, k: bv64): Word
    requires 0 < k < 64
  {
    (x << k) | (x >> (64 - k))
  }

  function Xor(a: Word, b: Word): Word { a ^ b }

  function Shl(x: Word, k: bv64): Word
    requires k < 64
  {
    x << k
  }

  /** `z ^ (z >> k)`, one xorshift stage of splitmix64. */
  function XorShr(z: Word, k: bv64): Word
    requires 0 < k < 64
  {
    z ^ (z >> k)
  }

  lemma XorBits(a: Word, b: Word)
    ensures Xor(a, b) == a ^ b
  {
  }

  lemma ShlBits(x: Word, k: bv64)
    requires k < 64
    ensures Shl(x, k) == x << k
  {
  }

  lemma RotlBits(x: Word, k: bv64)
    requires 0 < k < 64
    ensures Rotl(x, k) == (x << k) | (x >> (64 - k))
  {
  }

  /** Rotating by 57 undoes a rotation by 7. */
  lemma Rotl57Bits(w: Word)
    ensures Rotl((w << 7) | (w >> 57), 57) == w
  {
  }

  /** Rotating by 19 undoes a rotation by 45. */
  lemma Rotl19Bits(w: Word)
    ensures Rotl((w << 45) | (w >> 19), 19) == w
  {
  }

  lemma RotlInverse7(w: Word)
    ensures Rotl(Rotl(w, 7), 57) == w
  {
    RotlBits(w, 7);
    Rotl57Bits(w);
  }

  lemma RotlInverse45(w: Word)
    ensures Rotl(Rotl(w, 45), 19) == w
  {
    RotlBits(w, 45);
    Rotl19Bits(w);
  }

  // ---------------------------------------------------------------------
  // splitmix64
  // ---------------------------------------------------------------------

  function MulMix1(z: Word): Word { z * 0xBF58_476D_1CE4_E5B9 }

  function MulMix2(z: Word): Word { z * 0x94D0_49BB_1331_11EB }

  /** The output of splitmix64 for the already advanced seed `z`. */
  function SplitMixFinal(z: Word): Word
  {
    XorShr(MulMix2(XorShr(MulMix1(XorShr(z, 30)), 27)), 31)
  }

  /** `splitmix64(seed)`: advances the seed by the golden gamma and mixes the new value. */
  method SplitMix64(seed: Word) returns (next: Word, out: Word)
    ensures next == seed + GOLDEN_GAMMA
    ensures out == SplitMixFinal(next)
  {
    next := seed + GOLDEN_GAMMA;
    var z := next;
    z := MulMix1(XorShr(z, 30));
    z := MulMix2(XorShr(z, 27));
    out := XorShr(z, 31);
  }

  // The inverses of the mixing stages; the multipliers' inverses modulo 2^64.

  function UnMulMix1(y: Word): Word { y * 0x96DE_1B17_3F11_9089 }

  function UnMulMix2(y: Word): Word { y * 0x3196_42B2_D24D_8EC3 }

  function UnXorShr30(y: Word): Word { y ^ (y >> 30) ^ (y >> 60) }

  function UnXorShr27(y: Word): Word { y ^ (y >> 27) ^ (y >> 54) }

  function UnXorShr31(y: Word): Word { y ^ (y >> 31) ^ (y >> 62) }

  /** The mixing function run backwards. */
  function SplitMixUnfinal(y: Word): Word
  {
    UnXorShr30(UnMulMix1(UnXorShr27(UnMulMix2(UnXorShr31(y)))))
  }

  lemma UnXorShr30Bits(w: Word) ensures UnXorShr30(w ^ (w >> 30)) == w { }

  lemma UnXorShr27Bits(w: Word) ensures UnXorShr27(w ^ (w >> 27)) == w { }

  lemma UnXorShr31Bits(w: Word) ensures UnXorShr31(w ^ (w >> 31)) == w { }

  lemma UnMulMix1Bits(w: Word) ensures UnMulMix1(w * 0xBF58_476D_1CE4_E5B9) == w { }

  lemma UnMulMix2Bits(w: Word) ensures UnMulMix2(w * 0x94D0_49BB_1331_11EB) == w { }

  lemma XorShrBits(z: Word, k: bv64)
    requires 0 < k < 64
    ensures XorShr(z, k) == z ^ (z >> k)
  {
  }

  lemma XorShrInverse30(w: Word)
    ensures UnXorShr30(XorShr(w, 30)) == w
  {
    XorShrBits(w, 30);
    UnXorShr30Bits(w);
  }

  lemma XorShrInverse27(w: Word)
    ensures UnXorShr27(XorShr(w, 27)) == w
  {
    XorShrBits(w, 27);
    UnXorShr27Bits(w);
  }

  lemma XorShrInverse31(w: Word)
    ensures UnXorShr31(XorShr(w, 31)) == w
  {
    XorShrBits(w, 31);
    UnXorShr31Bits(w);
  }

  lemma MulMixInverse1(w: Word)
    ensures UnMulMix1(MulMix1(w)) == w
  {
    UnMulMix1Bits(w);
  }

  lemma MulMixInverse2(w: Word)
    ensures UnMulMix2(MulMix2(w)) == w
  {
    UnMulMix2Bits(w);
  }

  /** The splitmix64 output function is a bijection on 64-bit words. */
  lemma SplitMixFinalInverse(z: Word)
    ensures SplitMixUnfinal(SplitMixFinal(z)) == z
  {
    var a := XorShr(z, 30);
    var b := MulMix1(a);
    var c := XorShr(b, 27);
    var d := MulMix2(c);
    XorShrInverse31(d);
    MulMixInverse2(c);
    XorShrInverse27(b);
    MulMixInverse1(a);
    XorShrInverse30(z);
  }

  lemma SplitMixFinalInjective(a: Word, b: Word)
    ensures SplitMixFinal(a) == SplitMixFinal(b) ==> a == b
  {
    SplitMixFinalInverse(a);
    SplitMixFinalInverse(b);
  }

  lemma SplitMixFinalOfZero()
    ensures SplitMixFinal(0) == 0
  {
    XorShrBits(0, 30);
    XorShrBits(0, 27);
    XorShrBits(0, 31);
  }

  /** Only the zero word mixes to zero. */
  lemma SplitMixFinalZero(z: Word)
    ensures SplitMixFinal(z) == 0 <==> z == 0
  {
    SplitMixFinalOfZero();
    SplitMixFinalInjective(z, 0);
  }

  // ---------------------------------------------------------------------
  // The four-word state and seeding
  // ---------------------------------------------------------------------

  /** The value of `RandState::s[0..3]`. */
  datatype State = State(s0: Word, s1: Word, s2: Word, s3: Word)

  const ZERO: State := State(0, 0, 0, 0)

  /** The splitmix64 seed after `n` calls starting from `seed`. */
  function Advance(seed: Word, n: nat): Word
  {
    if n == 0 then seed else Advance(seed, n - 1) + GOLDEN_GAMMA
  }

  /** What `rand_seed(state, seed)` stores: four successive splitmix64 outputs. */
  function SeedState(seed: Word): State
  {
    State(SplitMixFinal(Advance(seed, 1)), SplitMixFinal(Advance(seed, 2)),
          SplitMixFinal(Advance(seed, 3)), SplitMixFinal(Advance(seed, 4)))
  }

  /**
   * Seeding never produces the all-zero state, the one state xoshiro256**
   * cannot leave: two consecutive splitmix64 seeds differ by the non-zero
   * golden gamma, so at most one of them mixes to zero.
   */
  lemma SeedStateNonZero(seed: Word)
    ensures SeedState(seed) != ZERO
  {
    var a := Advance(seed, 1);
    assert Advance(seed, 2) == a + GOLDEN_GAMMA;
    SplitMixFinalZero(a);
    SplitMixFinalZero(a + GOLDEN_GAMMA);
  }

  // ---------------------------------------------------------------------
  // The xoshiro256** step
  // ---------------------------------------------------------------------

  /**
   * The state after `rand_u64`'s updates `s2 ^= s0; s3 ^= s1; s1 ^= s2;
   * s0 ^= s3; s2 ^= t; s3 = rotl(s3, 45)` with `t = s1 << 17` taken first.
   */
  function Step(s: State): State
  {
    State(Xor(s.s0, Xor(s.s3, s.s1)),
          Xor(s.s1, Xor(s.s2, s.s0)),
          Xor(Xor(s.s2, s.s0), Shl(s.s1, 17)),
          Rotl(Xor(s.s3, s.s1), 45))
  }

  /** `rotl(s1 * 5, 7) * 9`, the output read from the state before the update. */
  function Scramble(s1: Word): Word
  {
    Rotl(s1 * 5, 7) * 9
  }

  // The step run backwards: s3 ^ s1 comes back by rotating, s1 by undoing
  // the xorshift `s1 ^ (s1 << 17)` that `n1 ^ n2` leaves, the rest by xor.

  function Unstep0(n0: Word, n1: Word, n2: Word, n3: Word): Word
  {
    n0 ^ ((n3 << 19) | (n3 >> 45))
  }

  function Unstep1(n0: Word, n1: Word, n2: Word, n3: Word): Word
  {
    var y := n1 ^ n2;
    y ^ (y << 17) ^ (y << 34) ^ (y << 51)
  }

  function Unstep2(n0: Word, n1: Word, n2: Word, n3: Word): Word
  {
    var y := n1 ^ n2;
    (n1 ^ (y ^ (y << 17) ^ (y << 34) ^ (y << 51))) ^ (n0 ^ ((n3 << 19) | (n3 >> 45)))
  }

  function Unstep3(n0: Word, n1: Word, n2: Word, n3: Word): Word
  {
    var y := n1 ^ n2;
    ((n3 << 19) | (n3 >> 45)) ^ (y ^ (y << 17) ^ (y << 34) ^ (y << 51))
  }

  function Unstep(n: State): State
  {
    State(Unstep0(n.s0, n.s1, n.s2, n.s3), Unstep1(n.s0, n.s1, n.s2, n.s3),
          Unstep2(n.s0, n.s1, n.s2, n.s3), Unstep3(n.s0, n.s1, n.s2, n.s3))
  }

  lemma Unstep0Bits(a0: Word, a1: Word, a2: Word, a3: Word)
    ensures Unstep0(a0 ^ (a3 ^ a1), a1 ^ (a2 ^ a0), (a2 ^ a0) ^ (a1 << 17), ((a3 ^ a1) << 45) | ((a3 ^ a1) >> 19)) == a0
  {
  }

  lemma Unstep1Bits(a0: Word, a1: Word, a2: Word, a3: Word)
    ensures Unstep1(a0 ^ (a3 ^ a1), a1 ^ (a2 ^ a0), (a2 ^ a0) ^ (a1 << 17), ((a3 ^ a1) << 45) | ((a3 ^ a1) >> 19)) == a1
  {
  }

  lemma Unstep2Bits(a0: Word, a1: Word, a2: Word, a3: Word)
    ensures Unstep2(a0 ^ (a3 ^ a1), a1 ^ (a2 ^ a0), (a2 ^ a0) ^ (a1 << 17), ((a3 ^ a1) << 45) | ((a3 ^ a1) >> 19)) == a2
  {
  }

  lemma Unstep3Bits(a0: Word, a1: Word, a2: Word, a3: Word)
    ensures Unstep3(a0 ^ (a3 ^ a1), a1 ^ (a2 ^ a0), (a2 ^ a0) ^ (a1 << 17), ((a3 ^ a1) << 45) | ((a3 ^ a1) >> 19)) == a3
  {
  }

  lemma StepBits0(a0: Word, a1: Word, a3: Word)
    ensures Xor(a0, Xor(a3, a1)) == a0 ^ (a3 ^ a1)
  {
    XorBits(a3, a1);
    XorBits(a0, a3 ^ a1);
  }

  lemma StepBits1(a0: Word, a1: Word, a2: Word)
    ensures Xor(a1, Xor(a2, a0)) == a1 ^ (a2 ^ a0)
  {
    XorBits(a2, a0);
    XorBits(a1, a2 ^ a0);
  }

  lemma StepBits2(a0: Word, a1: Word, a2: Word)
    ensures Xor(Xor(a2, a0), Shl(a1, 17)) == (a2 ^ a0) ^ (a1 << 17)
  {
    XorBits(a2, a0);
    ShlBits(a1, 17);
    XorBits(a2 ^ a0, Shl(a1, 17));
  }

  lemma StepBits3(a1: Word, a3: Word)
    ensures Rotl(Xor(a3, a1), 45) == ((a3 ^ a1) << 45) | ((a3 ^ a1) >> 19)
  {
    XorBits(a3, a1);
    RotlBits(a3 ^ a1, 45);
  }

  /** The xoshiro256** step is a bijection on states. */
  lemma StepInverse(s: State)
    ensures Unstep(Step(s)) == s
  {
    var a0, a1, a2, a3 := s.s0, s.s1, s.s2, s.s3;
    StepBits0(a0, a1, a3);
    StepBits1(a0, a1, a2);
    StepBits2(a0, a1, a2);
    StepBits3(a1, a3);
    assert Step(s) == State(a0 ^ (a3 ^ a1), a1 ^ (a2 ^ a0), (a2 ^ a0) ^ (a1 << 17), ((a3 ^ a1) << 45) | ((a3 ^ a1) >> 19));
    Unstep0Bits(a0, a1, a2, a3);
    Unstep1Bits(a0, a1, a2, a3);
    Unstep2Bits(a0, a1, a2, a3);
    Unstep3Bits(a0, a1, a2, a3);
  }

  lemma StepInjective(a: State, b: State)
    ensures Step(a) == Step(b) ==> a == b
  {
    StepInverse(a);
    StepInverse(b);
  }

  /** A non-zero state never steps to the all-zero state. */
  lemma StepKeepsNonZero(s: State)
    ensures s != ZERO ==> Step(s) != ZERO
  {
    StepInverse(s);
    assert Unstep(ZERO) == ZERO;
  }

  // The scrambler run backwards.

  function UnMul9(y: Word): Word { y * 0x8E38_E38E_38E3_8E39 }

  function UnMul5(y: Word): Word { y * 0xCCCC_CCCC_CCCC_CCCD }

  function Unscramble(r: Word): Word
  {
    UnMul5(Rotl(UnMul9(r), 57))
  }

  lemma UnMul9Bits(w: Word) ensures UnMul9(w * 9) == w { }

  lemma UnMul5Bits(w: Word) ensures UnMul5(w * 5) == w { }

  /** Each output word determines the `s1` it was scrambled from. */
  lemma ScrambleInverse(x: Word)
    ensures Unscramble(Scramble(x)) == x
  {
    UnMul9Bits(Rotl(x * 5, 7));
    RotlInverse7(x * 5);
    UnMul5Bits(x);
  }

  lemma ScrambleInjective(a: Word, b: Word)
    ensures Scramble(a) == Scramble(b) ==> a == b
  {
    ScrambleInverse(a);
    ScrambleInverse(b);
  }

  // ---------------------------------------------------------------------
  // Derived values
  // ---------------------------------------------------------------------

  /** `x & kMaxInt63`: clears the top bit. */
  function Mask63(x: Word): (r: Word)
    ensures r < POW2_63
  {
    x & MAX_INT63
  }

  /** A word below 2^63 passes the mask unchanged. */
  lemma Mask63Keeps(x: Word)
    requires x < POW2_63
    ensures Mask63(x) == x
  {
  }

  /** A word with its top bit set loses exactly 2^63. */
  lemma Mask63DropsTop(x: Word)
    requires x >= POW2_63
    ensures Mask63(x) == x - POW2_63
  {
  }

  /**
   * `sum_u1_udiff(u1, udiff)`: `udiff` is the bit pattern of an `int64_t`
   * (negative exactly when its top bit is set); a negative one is subtracted
   * through its two's-complement negation.
   */
  function SumU1UDiff(u1: Word, udiff: Word): (r: Word)
    ensures r == u1 + udiff
  {
    if udiff < POW2_63 then u1 + udiff else u1 - (0 - udiff)
  }

  // ---------------------------------------------------------------------
  // The generator object
  // ---------------------------------------------------------------------

  /** `RandState`: four words updated in place. */
  class RandState {
    const s: array<Word>

    ghost predicate Valid()
      reads this
    {
      s.Length == 4
    }

    function Words(): State
      requires Valid()
      reads this, s
    {
      State(s[0], s[1], s[2], s[3])
    }

    /** A freshly allocated resource: `uint64_t s[4] = {0, 0, 0, 0}`. */
    constructor ()
      ensures Valid() && fresh(s)
      ensures Words() == ZERO
    {
      s := new Word[4](_ => 0);
    }

    /** `rand_seed(state, seed)`. */
    method Seed(seed: Word)
      requires Valid()
      modifies s
      ensures Words() == SeedState(seed)
    {
      var x := seed;
      var i := 0;
      while i < 4
        invariant 0 <= i <= 4
        invariant x == Advance(seed, i)
        invariant forall j :: 0 <= j < i ==> s[j] == SplitMixFinal(Advance(seed, j + 1))
      {
        var out;
        x, out := SplitMix64(x);
        s[i] := out;
        i := i + 1;
      }
    }

    /** `rand_u64(state)`: the scrambled old `s1`, then the in-place step. */
    method NextU64() returns (r: Word)
      requires Valid()
      modifies s
      ensures Words() == Step(old(Words()))
      ensures r == Scramble(old(Words()).s1)
    {
      r := Rotl(s[1] * 5, 7) * 9;
      var t := Shl(s[1], 17);
      s[2] := Xor(s[2], s[0]);
      s[3] := Xor(s[3], s[1]);
      s[1] := Xor(s[1], s[2]);
      s[0] := Xor(s[0], s[3]);
      s[2] := Xor(s[2], t);
      s[3] := Rotl(s[3], 45);
    }

    /** `rand_u63(state)`. */
    method NextU63() returns (r: Word)
      requires Valid()
      modifies s
      ensures Words() == Step(old(Words()))
      ensures r == Mask63(Scramble(old(Words()).s1)) && r < POW2_63
    {
      r := NextU64();
      r := Mask63(r);
    }

    /** Overwrites the four words; used where a sampler hands back its final state. */
    method SetWords(st: State)
      requires Valid()
      modifies s
      ensures Words() == st
    {
      s[0] := st.s0;
      s[1] := st.s1;
      s[2] := st.s2;
      s[3] := st.s3;
    }
  }

  // ---------------------------------------------------------------------
  // rand_new
  // ---------------------------------------------------------------------

  /**
   * The seed `rand_new` reads: an unsigned 64-bit integer as it is, else a
   * signed 64-bit integer reinterpreted as unsigned; anything else fails.
   */
  function SeedOf(t: Term): (r: Option<Word>)
    ensures r.Some? <==> t.Int? && -0x8000_0000_0000_0000 <= t.i < TWO_64
  {
    match GetUint64(t)
    case Some(u) => Some(u as Word)
    case None =>
      match GetInt64(t)
      case Some(v) => Some((v + TWO_64) as Word)
      case None => None
  }

  /** Every word is accepted as the seed it denotes. */
  lemma SeedOfWord(w: Word)
    ensures SeedOf(Int(w as int)) == Some(w)
  {
  }

  /**
   * A word with its top bit set is also reached from the negative integer
   * with the same two's-complement pattern.
   */
  lemma SeedOfSigned(w: Word)
    requires w as int >= 0x8000_0000_0000_0000
    ensures SeedOf(Int(w as int - TWO_64)) == Some(w)
  {
    var v := w as int - TWO_64;
    assert GetUint64(Int(v)).None?;
    assert v + TWO_64 == w as int;
  }

  datatype NewReply = NewOk(rng: RandState) | NewError(reason: string) | NewBadArg

  /**
   * `rand_new(Seed)`: `argc` arguments, `seedTerm` the first one, `allocOk`
   * whether the resource could be allocated.
   */
  method RandNew(argc: int, seedTerm: Term, allocOk: bool) returns (r: NewReply)
    ensures argc != 1 ==> r == NewBadArg
    ensures argc == 1 && SeedOf(seedTerm).None? ==> r == NewError("rand_new_invalid_seed")
    ensures argc == 1 && SeedOf(seedTerm).Some? && !allocOk ==> r == NewError("rand_new_alloc_failed")
    ensures argc == 1 && SeedOf(seedTerm).Some? && allocOk ==>
              r.NewOk? && fresh(r.rng) && fresh(r.rng.s) && r.rng.Valid() &&
              r.rng.Words() == SeedState(SeedOf(seedTerm).value)
  {
    if argc != 1 {
      return NewBadArg;
    }
    var seed := SeedOf(seedTerm);
    if seed.None? {
      return NewError("rand_new_invalid_seed");
    }
    if !allocOk {
      return NewError("rand_new_alloc_failed");
    }
    var rng := new RandState();
    rng.Seed(seed.value);
    return NewOk(rng);
  }

  // ---------------------------------------------------------------------
  // rand_normal_batch
  // ---------------------------------------------------------------------

  /**
   * One call of the normal sampler, already narrowed to `float`: the sample
   * and the state it leaves.
   */
  type Sampler = State -> (real, State)

  /** `n` successive samples starting from `st`, and the state after them. */
  function Draws(sample: Sampler, st: State, n: nat): (d: (seq<real>, State))
    ensures |d.0| == n
  {
    if n == 0 then ([], st)
    else
      var prev := Draws(sample, st, n - 1);
      var next := sample(prev.1);
      (prev.0 + [next.0], next.1)
  }

  /**
   * Sample `i` of a batch is the sampler applied to the state that the `i`
   * earlier samples left: the batch is written in index order.
   */
  lemma {:induction false} DrawsInOrder(sample: Sampler, st: State, n: nat, i: nat)
    requires i < n
    ensures Draws(sample, st, n).0[i] == sample(Draws(sample, st, i).1).0
  {
    if i < n - 1 {
      DrawsInOrder(sample, st, n - 1, i);
    }
  }

  /** Fewer samples are a prefix of more samples. */
  lemma {:induction false} DrawsPrefix(sample: Sampler, st: State, m: nat, n: nat)
    requires m <= n
    ensures Draws(sample, st, m).0 == Draws(sample, st, n).0[..m]
  {
    if m < n {
      DrawsPrefix(sample, st, m, n - 1);
    }
  }

  datatype BatchReply = BatchOk(samples: seq<real>) | BatchError(reason: string) | BatchBadArg

  /** A 32-bit count never exceeds `SIZE_MAX / sizeof(float)`. */
  lemma CountFits(count: U32)
    ensures count <= SIZE_MAX / FLOAT_SIZE
  {
  }

  /**
   * `rand_normal_batch(Rng, Count)`: `rng` is the state the first argument
   * resolves to (`null` when it is not one), `countTerm` the second
   * argument, `allocOk` whether the output binary could be allocated.
   */
  method RandNormalBatch(argc: int, rng: RandState?, countTerm: Term, sample: Sampler, allocOk: bool)
    returns (r: BatchReply)
    requires rng != null ==> rng.Valid()
    modifies if rng != null then {rng.s} else {}
    ensures argc != 2 ==> r == BatchBadArg
    ensures argc == 2 && rng == null ==> r == BatchError("rand_invalid_state")
    ensures argc == 2 && rng != null && GetUint(countTerm).None? ==> r == BatchError("rand_invalid_count")
    ensures argc == 2 && rng != null && GetUint(countTerm) == Some(0) ==> r == BatchOk([])
    ensures argc == 2 && rng != null && GetUint(countTerm).Some? && GetUint(countTerm).value > 0 && !allocOk ==>
              r == BatchError("rand_alloc_failed")
    ensures argc == 2 && rng != null && GetUint(countTerm).Some? && GetUint(countTerm).value > 0 && allocOk ==>
              var d := Draws(sample, old(rng.Words()), GetUint(countTerm).value);
              r == BatchOk(d.0) && rng.Words() == d.1
    ensures !r.BatchOk? || r.samples == [] ==> rng == null || unchanged(rng.s)
  {
    if argc != 2 {
      return BatchBadArg;
    }
    if rng == null {
      return BatchError("rand_invalid_state");
    }
    var c := GetUint(countTerm);
    if c.None? {
      return BatchError("rand_invalid_count");
    }
    var count := c.value;
    if count == 0 {
      return BatchOk([]);
    }
    CountFits(count);
    if !allocOk {
      return BatchError("rand_alloc_failed");
    }
    var out := new real[count];
    ghost var st0 := rng.Words();
    var i := 0;
    while i < count
      invariant 0 <= i <= count
      invariant rng.Valid()
      invariant out[..i] == Draws(sample, st0, i).0
      invariant rng.Words() == Draws(sample, st0, i).1
      modifies out, rng.s
    {
      var next := sample(rng.Words());
      rng.SetWords(next.1);
      out[i] := next.0;
      assert out[..i + 1] == out[..i] + [next.0];
      i := i + 1;
    }
    assert out[..] == out[..count];
    return BatchOk(out[..]);
  }
}
