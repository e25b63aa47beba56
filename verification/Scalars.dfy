/** Scalars of the secp256k1 group as numbers below the group order. */
module Scalars {
  import opened Arith

  const N: int := 0xFFFFFFFF_FFFFFFFF_FFFFFFFF_FFFFFFFE_BAAEDCE6_AF48A03B_BFD25E8C_D0364141

  type Scalar = s: int | 0 <= s < N witness 0

  const SCALAR_BITS: nat := 256

  predicate IsEven(s: Scalar) { s % 2 == 0 }

  predicate IsHigh(s: Scalar) { s > N / 2 }

  function Negate(s: Scalar): (r: Scalar)
    ensures (r + s) % N == 0
  {
    if s == 0 then 0 else N - s
  }

  /** Reduction of a sum, and what it is congruent to. */
  function AddScalars(a: Scalar, b: Scalar): (r: Scalar)
    ensures Congruent(r, a + b, N)
  {
    CongruentMod(a + b, N);
    (a + b) % N
  }

  /** The low n bits of s, and s without them. */
  function LowPart(s: nat, n: nat): nat { s % Pow2(n) }

  function ShiftedPart(s: nat, n: nat): nat { DivNonNeg(s, Pow2(n)); s / Pow2(n) }

  lemma OrderSize()
    ensures N < Pow2(256) && Pow2(255) < N && 2 * (N - Pow2(255)) < Pow2(256) && Pow2(256) == 2 * Pow2(255)
    ensures N < 0x1_00000000_00000000_00000000_00000000_00000000_00000000_00000000_00000000
  {
    Pow2Large(16);
  }
}
