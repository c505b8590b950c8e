/** The FNV-1a style mixing function used for seed derivation: the
    accumulator starts at the FNV offset basis XOR the seed, and each byte
    of the context is XORed into the low bits and the accumulator is then
    multiplied by the FNV prime, wrapping at 64 bits. */
module Fnv {

  /** The 64-bit FNV offset basis, 0xcbf29ce484222325. */
  const OffsetBasis: bv64 := 14695981039346656037

  /** Wrapping multiplication by the 64-bit FNV prime 1099511628211
      (2^40 + 2^8 + 0xb3); the literal is written out so that the
      solver can fold constant products. */
  function MulPrime(x: bv64): bv64 {
    x * 1099511628211
  }

  /** Wrapping multiplication by 0xce965057aff6957b, the inverse of the
      FNV prime modulo 2^64 (it exists because the prime is odd). */
  function MulPrimeInverse(x: bv64): bv64 {
    x * 0xce96_5057_aff6_957b
  }

  // MulPrimeUnfold and MulByBothPrimes expose the literal product to the
  // solver in a small context of their own, which keeps the cost of
  // MulPrimeInvertible and HashAppend down.

  lemma MulPrimeUnfold(x: bv64)
    ensures MulPrime(x) == x * 1099511628211
  {
  }

  lemma MulByBothPrimes(x: bv64)
    ensures MulPrimeInverse(x * 1099511628211) == x
  {
  }

  /** Multiplication by the prime is undone by its inverse. */
  lemma MulPrimeInvertible(x: bv64)
    ensures MulPrimeInverse(MulPrime(x)) == x
  {
    MulPrimeUnfold(x);
    MulByBothPrimes(x);
  }

  lemma MulPrimeInjective(x: bv64, y: bv64)
    requires MulPrime(x) == MulPrime(y)
    ensures x == y
  {
    MulPrimeInvertible(x);
    MulPrimeInvertible(y);
  }

  /** One step of the fold: XOR the byte (zero-extended) into the
      accumulator, then multiply by the prime. */
  function Step(h: bv64, c: bv8): bv64 {
    MulPrime(h ^ (c as bv64))
  }

  /** Folds the bytes of `s`, first to last, into the accumulator `h`. */
  function Fold(h: bv64, s: seq<bv8>): bv64
    decreases s
  {
    if s == [] then h else Fold(Step(h, s[0]), s[1..])
  }

  /** The hash of a context under a seed. */
  function Hash(s: seq<bv8>, seed: bv64): bv64 {
    Fold(OffsetBasis ^ seed, s)
  }

  /** Folding a byte appended at the end is one more step after folding
      the prefix. */
  lemma {:induction false} FoldAppend(h: bv64, s: seq<bv8>, c: bv8)
    ensures Fold(h, s + [c]) == Step(Fold(h, s), c)
    decreases s
  {
    if s == [] {
      assert s + [c] == [c];
      assert [c][1..] == [];
    } else {
      assert (s + [c])[0] == s[0];
      assert (s + [c])[1..] == s[1..] + [c];
      FoldAppend(Step(h, s[0]), s[1..], c);
    }
  }

  /** The hash of the empty context is the offset basis XOR the seed. */
  lemma HashEmpty(seed: bv64)
    ensures Hash([], seed) == 14695981039346656037 ^ seed
  {
  }

  /** Appending a byte `c` maps the hash `h` to `(h ^ c) * 1099511628211`
      modulo 2^64. */
  lemma HashAppend(s: seq<bv8>, seed: bv64, c: bv8)
    ensures Hash(s + [c], seed) == (Hash(s, seed) ^ (c as bv64)) * 1099511628211
  {
    var h := Hash(s, seed);
    assert Hash(s + [c], seed) == Step(h, c) by {
      FoldAppend(OffsetBasis ^ seed, s, c);
    }
    MulPrimeUnfold(h ^ (c as bv64));
  }

  /** Each step is injective on 64-bit values (and so, bv64 being finite,
      a bijection): XOR with a byte is its own inverse and multiplication
      by the odd prime has a left inverse. */
  lemma StepInjective(h1: bv64, h2: bv64, c: bv8)
    requires Step(h1, c) == Step(h2, c)
    ensures h1 == h2
  {
    MulPrimeInjective(h1 ^ (c as bv64), h2 ^ (c as bv64));
  }

  /** Folding a fixed context is injective in the starting accumulator. */
  lemma {:induction false} FoldInjective(h1: bv64, h2: bv64, s: seq<bv8>)
    requires Fold(h1, s) == Fold(h2, s)
    ensures h1 == h2
    decreases s
  {
    if s != [] {
      FoldInjective(Step(h1, s[0]), Step(h2, s[0]), s[1..]);
      StepInjective(h1, h2, s[0]);
    }
  }

  /** For a fixed context, two seeds give the same hash exactly when they
      are equal: the hash never collides across seeds. */
  lemma HashInjectiveInSeed(s: seq<bv8>, seed1: bv64, seed2: bv64)
    ensures Hash(s, seed1) == Hash(s, seed2) <==> seed1 == seed2
  {
    if Hash(s, seed1) == Hash(s, seed2) {
      FoldInjective(OffsetBasis ^ seed1, OffsetBasis ^ seed2, s);
    }
  }

  /** The loop of the original: an accumulator updated once per byte. */
  method Fnv1aHash(s: seq<bv8>, seed: bv64) returns (h: bv64)
    ensures h == Hash(s, seed)
  {
    h := OffsetBasis ^ seed;
    for i := 0 to |s|
      invariant Fold(h, s[i..]) == Hash(s, seed)
    {
      assert s[i..][0] == s[i] && s[i..][1..] == s[i + 1..];
      h := Step(h, s[i]);
    }
    assert s[|s|..] == [];
  }
}
