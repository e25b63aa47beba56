/** What Poly1305 computes (section 2.5 of RFC 8439), on numbers and byte strings. */
module PolySpec {
  import opened Arith
  import opened Octets

  /** 2^130 - 5. */
  const P: int := 0x3_ffffffff_ffffffff_ffffffff_fffffffb

  /** A block read as a number, with a one byte above it. */
  function BlockNumber(b: seq<Octet>): nat {
    LittleEndian(b) + Pow2(8 * |b|)
  }

  function Absorb(acc: int, b: seq<Octet>, r: int): int {
    ((acc + BlockNumber(b)) * r) % P
  }

  /** Where the last block of a nonempty message starts. */
  function LastBlock(m: seq<Octet>): (k: nat)
    requires |m| > 0
    ensures k % 16 == 0 && k < |m| <= k + 16
  {
    (|m| - 1) / 16 * 16
  }

  function Eval(m: seq<Octet>, r: int): int {
    if |m| == 0 then 0 else Absorb(Eval(m[..LastBlock(m)], r), m[LastBlock(m)..], r)
  }

  lemma EvalAppend(m: seq<Octet>, b: seq<Octet>, r: int)
    requires |m| % 16 == 0 && 0 < |b| <= 16
    ensures Eval(m + b, r) == Absorb(Eval(m, r), b, r)
  {
    assert LastBlock(m + b) == |m|;
    assert (m + b)[..|m|] == m && (m + b)[|m|..] == b;
  }

  lemma {:induction false} EvalReduced(m: seq<Octet>, r: int)
    ensures Eval(m, r) % P == Eval(m, r)
  {
    hide BlockNumber;
    if |m| > 0 {
      ModTwice((Eval(m[..LastBlock(m)], r) + BlockNumber(m[LastBlock(m)..])) * r);
    }
  }

  lemma ModTwice(a: int)
    ensures a % P % P == a % P
  {
  }

  /** r with the bits cleared that the one-time key may not use. */
  function Clamp(k: nat): (r: nat)
    ensures r < 0x10000000_00000000_00000000_00000000
  {
    k % 0x10000000 + ((k / 0x4_00000000) % 0x4000000) * 0x4_00000000 + ((k / 0x4_00000000_00000000) % 0x4000000) * 0x4_00000000_00000000
    + ((k / 0x4_00000000_00000000_00000000) % 0x4000000) * 0x4_00000000_00000000_00000000
  }

  function ToBytes(v: nat, n: nat): (b: seq<Octet>)
    ensures |b| == n
  {
    if n == 0 then [] else [v % 0x100] + ToBytes(v / 0x100, n - 1)
  }

  /** The sixteen-byte tag of a message under a 32-byte one-time key. */
  function Tag(m: seq<Octet>, key: seq<Octet>): seq<Octet>
    requires |key| == 32
  {
    TagOf(Eval(m, Clamp(LittleEndian(key[..16]))), key)
  }

  function TagOf(acc: int, key: seq<Octet>): seq<Octet>
    requires |key| == 32
  {
    ToBytes((acc % P + LittleEndian(key[16..])) % 0x1_00000000_00000000_00000000_00000000, 16)
  }

  // ----- the polynomial

  function Power(r: int, e: nat): int {
    if e == 0 then 1 else r * Power(r, e - 1)
  }

  function Blocks(m: seq<Octet>): nat { (|m| + 15) / 16 }

  /** c1 r^q + c2 r^(q-1) + ... + cq r, for the numbers ci of the blocks in order. */
  function Polynomial(m: seq<Octet>, r: int): int {
    if |m| == 0 then 0
    else if |m| <= 16 then BlockNumber(m) * r
    else BlockNumber(m[..16]) * Power(r, Blocks(m)) + Polynomial(m[16..], r)
  }

  lemma {:induction false} PolynomialAppend(m: seq<Octet>, b: seq<Octet>, r: int)
    requires |m| % 16 == 0 && 0 < |b| <= 16
    ensures Polynomial(m + b, r) == (Polynomial(m, r) + BlockNumber(b)) * r
  {
    hide BlockNumber;
    if |m| == 0 {
      assert m + b == b;
    } else {
      var x := m + b;
      assert x[..16] == m[..16] && x[16..] == m[16..] + b;
      PolynomialAppend(m[16..], b, r);
      PolynomialFirst(x, r);
      PolynomialFirst(m, r);
      hide Polynomial, Power;
      PowerStep(r, Blocks(m));
      HornerStep(BlockNumber(m[..16]), Power(r, Blocks(m)), Polynomial(m[16..], r), BlockNumber(b), r);
    }
  }

  lemma PowerStep(r: int, e: nat)
    ensures Power(r, e + 1) == r * Power(r, e)
  {
  }

  /** A message of whole blocks, or one longer than a block, starts with the term of its first block. */
  lemma PolynomialFirst(m: seq<Octet>, r: int)
    requires |m| >= 16
    ensures Polynomial(m, r) == BlockNumber(m[..16]) * Power(r, Blocks(m)) + Polynomial(m[16..], r)
  {
    hide BlockNumber;
    if |m| == 16 {
      assert m[..16] == m && m[16..] == [];
      assert Power(r, 1) == r * Power(r, 0) == r;
    }
  }

  lemma HornerStep(c: int, p: int, rest: int, d: int, r: int)
    ensures c * (r * p) + (rest + d) * r == (c * p + rest + d) * r
  {
    MulAssoc(c, p, r);
  }

  /** The block-by-block evaluation is the value of the polynomial modulo P. */
  lemma {:induction false} EvalIsPolynomial(m: seq<Octet>, r: int)
    ensures Eval(m, r) == Polynomial(m, r) % P
  {
    hide BlockNumber;
    if |m| == 0 {
    } else {
      var k := LastBlock(m);
      EvalIsPolynomial(m[..k], r);
      assert m == m[..k] + m[k..];
      PolynomialAppend(m[..k], m[k..], r);
      ReduceInside(Polynomial(m[..k], r), BlockNumber(m[k..]), r);
    }
  }

  lemma ReduceInside(a: int, c: int, r: int)
    ensures ((a % P + c) * r) % P == ((a + c) * r) % P
  {
    CongruentMod(a, P);
    assert Congruent(a % P + c, a + c, P);
    CongruentScale(a % P + c, a + c, r, P);
    CongruentModEqual(r * (a % P + c), r * (a + c), P);
  }
}

/** The clamped half of the key, octet by octet. */
module PolyKey {
  import opened Arith
  import opened Octets
  import opened PolySpec

  /** The four top bits of octets 3, 7, 11 and 15 and the two low bits of octets 4, 8 and 12 are cleared. */
  function ClampedOctets(k: seq<Octet>): (c: seq<Octet>)
    requires |k| == 16
    ensures |c| == 16
  {
    [k[0], k[1], k[2], k[3] % 0x10, k[4] / 4 * 4, k[5], k[6], k[7] % 0x10,
     k[8] / 4 * 4, k[9], k[10], k[11] % 0x10, k[12] / 4 * 4, k[13], k[14], k[15] % 0x10]
  }

  function Word(b0: Octet, b1: Octet, b2: Octet, b3: Octet): (w: nat)
    ensures w < 0x1_0000_0000
  {
    b0 + 0x100 * b1 + 0x1_0000 * b2 + 0x100_0000 * b3
  }

  function Wide(w0: nat, w1: nat, w2: nat, w3: nat): nat {
    w0 + 0x1_0000_0000 * (w1 + 0x1_0000_0000 * (w2 + 0x1_0000_0000 * w3))
  }

  lemma FourOctets(b: seq<Octet>)
    requires |b| >= 4
    ensures LittleEndian(b) == Word(b[0], b[1], b[2], b[3]) + 0x1_0000_0000 * LittleEndian(b[4..])
  {
    assert b[1..][1..] == b[2..] && b[2..][1..] == b[3..] && b[3..][1..] == b[4..];
    assert LittleEndian(b[1..]) == b[1] + 0x100 * LittleEndian(b[2..]);
    assert LittleEndian(b[2..]) == b[2] + 0x100 * LittleEndian(b[3..]);
    assert LittleEndian(b[3..]) == b[3] + 0x100 * LittleEndian(b[4..]);
  }

  lemma SixteenOctets(b: seq<Octet>)
    requires |b| == 16
    ensures LittleEndian(b) == Wide(Word(b[0], b[1], b[2], b[3]), Word(b[4], b[5], b[6], b[7]),
                                    Word(b[8], b[9], b[10], b[11]), Word(b[12], b[13], b[14], b[15]))
  {
    hide Word, LittleEndian;
    assert b[4..][4..] == b[8..] && b[8..][4..] == b[12..] && b[12..][4..] == [];
    FourOctets(b);
    FourOctets(b[4..]);
    FourOctets(b[8..]);
    FourOctets(b[12..]);
    Nothing();
  }

  lemma Nothing()
    ensures LittleEndian([]) == 0
  {
  }

  lemma BottomWord(b0: Octet, b1: Octet, b2: Octet, b3: Octet)
    ensures Word(b0, b1, b2, b3) % 0x1000_0000 == Word(b0, b1, b2, b3 % 0x10)
  {
    DivModUnique(Word(b0, b1, b2, b3), 0x1000_0000, b3 / 0x10, Word(b0, b1, b2, b3 % 0x10));
  }

  lemma UpperWord(b0: Octet, b1: Octet, b2: Octet, b3: Octet)
    ensures Word(b0, b1, b2, b3) / 4 % 0x400_0000 * 4 == Word(b0 / 4 * 4, b1, b2, b3 % 0x10)
  {
    var q := b0 / 4 + 0x40 * b1 + 0x4000 * b2 + 0x40_0000 * (b3 % 0x10);
    DivModUnique(Word(b0, b1, b2, b3), 4, q + 0x400_0000 * (b3 / 0x10), b0 % 4);
    DivModUnique(q + 0x400_0000 * (b3 / 0x10), 0x400_0000, b3 / 0x10, q);
  }

  lemma ClampWords(w0: nat, w1: nat, w2: nat, w3: nat)
    requires w0 < 0x1_0000_0000 && w1 < 0x1_0000_0000 && w2 < 0x1_0000_0000 && w3 < 0x1_0000_0000
    ensures Clamp(Wide(w0, w1, w2, w3))
         == Wide(w0 % 0x1000_0000, w1 / 4 % 0x400_0000 * 4, w2 / 4 % 0x400_0000 * 4, w3 / 4 % 0x400_0000 * 4)
  {
    var k, r2, r1 := Wide(w0, w1, w2, w3), w2 + 0x1_0000_0000 * w3, w1 + 0x1_0000_0000 * (w2 + 0x1_0000_0000 * w3);
    Slice(k, w0, r1);
    Slice(r1, w1, r2);
    Slice(r2, w2, w3);
    Quotients(k, r1, r2, w3);
  }

  lemma Quotients(k: nat, r1: nat, r2: nat, r3: nat)
    requires k / 0x1_0000_0000 == r1 && r1 / 0x1_0000_0000 == r2 && r2 / 0x1_0000_0000 == r3
    ensures k / 0x4_00000000 == r1 / 4 && k / 0x4_00000000_00000000 == r2 / 4
    ensures k / 0x4_00000000_00000000_00000000 == r3 / 4
  {
  }

  lemma Slice(k: nat, w: nat, rest: nat)
    requires k == w + 0x1_0000_0000 * rest && w < 0x1_0000_0000
    ensures k / 0x1_0000_0000 == rest && k % 0x1000_0000 == w % 0x1000_0000
    ensures k / 4 % 0x400_0000 == w / 4 % 0x400_0000
  {
    DivModUnique(k, 0x1_0000_0000, rest, w);
    LowBits(k, w, rest);
    MiddleBits(w / 4, k / 4, rest);
  }

  lemma LowBits(k: nat, w: nat, rest: nat)
    requires k == w + 0x1_0000_0000 * rest
    ensures k % 0x1000_0000 == w % 0x1000_0000
  {
    DivModUnique(k, 0x1000_0000, w / 0x1000_0000 + 0x10 * rest, w % 0x1000_0000);
  }

  lemma MiddleBits(a: nat, b: nat, rest: nat)
    requires b == a + 0x4000_0000 * rest
    ensures b % 0x400_0000 == a % 0x400_0000
  {
    DivModUnique(b, 0x400_0000, a / 0x400_0000 + 0x10 * rest, a % 0x400_0000);
  }

  /** Clamping clears these bits of the octets and no others. */
  lemma ClampIsOctets(k: seq<Octet>)
    requires |k| == 16
    ensures Clamp(LittleEndian(k)) == LittleEndian(ClampedOctets(k))
  {
    hide Clamp, Word, Wide, LittleEndian;
    SixteenOctets(k);
    SixteenOctets(ClampedOctets(k));
    ClampWords(Word(k[0], k[1], k[2], k[3]), Word(k[4], k[5], k[6], k[7]),
               Word(k[8], k[9], k[10], k[11]), Word(k[12], k[13], k[14], k[15]));
    BottomWord(k[0], k[1], k[2], k[3]);
    UpperWord(k[4], k[5], k[6], k[7]);
    UpperWord(k[8], k[9], k[10], k[11]);
    UpperWord(k[12], k[13], k[14], k[15]);
  }
}

/** Poly1305 on three limbs of 44, 44 and 42 bits. */
module Poly1305x64 {
  import opened Arith
  import opened Messages
  import opened Octets
  import opened PolySpec
  import PolyKey

  type Word64 = x: int | 0 <= x < 0x1_00000000_00000000 witness 0
  type Word128 = x: int | 0 <= x < 0x1_00000000_00000000_00000000_00000000 witness 0

  lemma ProdBound(a: nat, b: nat, m: nat, n: nat)
    requires a <= m && b <= n
    ensures 0 <= Prod(a, b) <= m * n
  {
    MulMono(a, m, b);
    MulMono(b, n, m);
    MulMono(0, a, b);
    assert n * m == m * n && b * m == m * b;
  }

  /** The number three limbs stand for. */
  function Val3(x: seq<int>): int
    requires |x| == 3
  {
    x[0] + x[1] * 0x1000_00000000 + x[2] * 0x1000000_00000000_00000000
  }

  predicate KeyLimbs(r: seq<int>) {
    |r| == 3 && 0 <= r[0] < 0x1000_00000000 && 0 <= r[1] < 0x1000_00000000 && 0 <= r[2] < 0x100_00000000
  }

  /** What every block leaves in the accumulator. */
  predicate AccLimbs(a: seq<int>) {
    |a| == 3 && 0 <= a[0] < 0x1000_00000000 && 0 <= a[1] < 0x1000_00000000 + 0x4000 && 0 <= a[2] < 0x400_00000000
  }

  /** The accumulator with a block added to it. */
  predicate SumLimbs(a: seq<int>) {
    |a| == 3 && 0 <= a[0] < 0x2000_00000000 && 0 <= a[1] < 0x2000_00000000 + 0x4000 && 0 <= a[2] < 0x800_00000000
  }

  // ----- multiplication

  method SumScalarMultiplication(output: array<Word128>, input: seq<Word64>, s: Word64)
    requires output.Length == 3 && |input| == 3
    requires forall i :: 0 <= i < 3 ==> 0 <= Prod(input[i], s) < 0x1_00000000_00000000_00000000 && output[i] < 0x1_00000000_00000000_00000000
    modifies output
    ensures forall i :: 0 <= i < 3 ==> output[i] == old(output[i]) + Prod(input[i], s)
  {
    hide Prod;
    for i := 0 to 3
      invariant forall k :: 0 <= k < i ==> output[k] == old(output[k]) + Prod(input[k], s)
      invariant forall k :: i <= k < 3 ==> output[k] == old(output[k])
    {
      output[i] := output[i] + Prod(input[i], s);
    }
  }

  /** Multiplies by 2^44: the top limb wraps to the bottom, times 20. */
  method ShiftReduce(output: array<Word64>)
    requires output.Length == 3 && output[2] < 0x8000000_00000000
    modifies output
    ensures output[0] == 20 * old(output[2]) && output[1] == old(output[0]) && output[2] == old(output[1])
  {
    var tmp := output[2];
    for i := 0 to 2
      invariant i == 0 ==> output[0] == old(output[0]) && output[1] == old(output[1])
      invariant i == 1 ==> output[0] == old(output[0]) && output[1] == old(output[1]) && output[2] == old(output[1])
      invariant i == 2 ==> output[1] == old(output[0]) && output[2] == old(output[1])
    {
      var ctr := 3 - i - 1;
      output[ctr] := output[ctr - 1];
    }
    output[0] := tmp;
    output[0] := output[0] * 0x10 + output[0] * 4;
  }

  /** The three columns of a product, the wrapped ones times 20. */
  function Columns(a: seq<int>, r: seq<int>): (t: seq<int>)
    requires |a| == 3 && |r| == 3
    ensures |t| == 3
  {
    [Prod(a[0], r[0]) + Prod(20 * a[2], r[1]) + Prod(20 * a[1], r[2]),
     Prod(a[1], r[0]) + Prod(a[0], r[1]) + Prod(20 * a[2], r[2]),
     Prod(a[2], r[0]) + Prod(a[1], r[1]) + Prod(a[0], r[2])]
  }

  lemma ProductBounds(a: seq<int>, r: seq<int>)
    requires SumLimbs(a) && KeyLimbs(r)
    ensures forall i, j :: 0 <= i < 3 && 0 <= j < 3 ==> 0 <= Prod(a[i], r[j]) < 0x4000000_00000000_00000000
    ensures forall i, j :: 0 <= i < 3 && 0 <= j < 3 ==> 0 <= Prod(20 * a[i], r[j]) < 0x40000000_00000000_00000000
  {
    forall i, j | 0 <= i < 3 && 0 <= j < 3
      ensures 0 <= Prod(a[i], r[j]) < 0x4000000_00000000_00000000 && 0 <= Prod(20 * a[i], r[j]) < 0x40000000_00000000_00000000
    {
      ProdBound(a[i], r[j], 0x2000_00000000 + 0x4000, 0x1000_00000000);
      ProdBound(20 * a[i], r[j], 20 * (0x2000_00000000 + 0x4000), 0x1000_00000000);
    }
  }

  /** The operand after i shifts, each of which brings the top limb round to the bottom as 20 times itself. */
  function Rotated(a: seq<int>, i: nat): (b: seq<int>)
    requires |a| == 3 && i <= 2
    ensures |b| == 3
  {
    match i case 0 => a case 1 => [20 * a[2], a[0], a[1]] case 2 => [20 * a[1], 20 * a[2], a[0]]
  }

  /** The columns after i rows. */
  function ColumnsSoFar(a: seq<int>, r: seq<int>, i: nat): seq<int>
    requires |a| == 3 && |r| == 3 && i <= 2
  {
    match i
    case 0 => [0, 0, 0]
    case 1 => [Prod(a[0], r[0]), Prod(a[1], r[0]), Prod(a[2], r[0])]
    case 2 => [Prod(a[0], r[0]) + Prod(20 * a[2], r[1]), Prod(a[1], r[0]) + Prod(a[0], r[1]), Prod(a[2], r[0]) + Prod(a[1], r[1])]
  }

  lemma RotatedBounds(a: seq<int>, r: seq<int>, i: nat)
    requires SumLimbs(a) && KeyLimbs(r) && i <= 2
    ensures Rotated(a, i)[2] < 0x8000000_00000000
    ensures forall k :: 0 <= k < 3 ==> 0 <= Prod(Rotated(a, i)[k], r[i]) < 0x1_00000000_00000000_00000000
    ensures |ColumnsSoFar(a, r, i)| == 3
    ensures forall k :: 0 <= k < 3 ==> 0 <= ColumnsSoFar(a, r, i)[k] < 0x1_00000000_00000000_00000000
  {
    ProductBounds(a, r);
    hide Prod;
  }

  method MulShiftReduce(output: array<Word128>, input: array<Word64>, r: seq<Word64>)
    requires output.Length == 3 && input.Length == 3 && SumLimbs(input[..]) && KeyLimbs(r)
    requires output[0] == 0 && output[1] == 0 && output[2] == 0
    modifies output, input
    ensures output[..] == Columns(old(input[..]), r)
  {
    hide Prod;
    ghost var a := input[..];
    for i := 0 to 2
      invariant input[..] == Rotated(a, i) && output[..] == ColumnsSoFar(a, r, i)
    {
      RotatedBounds(a, r, i);
      SumScalarMultiplication(output, input[..], r[i]);
      ShiftReduce(input);
    }
    RotatedBounds(a, r, 2);
    SumScalarMultiplication(output, input[..], r[2]);
  }

  function Low44(t: nat): (l: nat)
    ensures l < 0x1000_00000000
  {
    t % 0x1000_00000000
  }

  function High44(t: nat): (h: nat)
    ensures t == Low44(t) + 0x1000_00000000 * h
  {
    t / 0x1000_00000000
  }

  method CarryWide(tmp: array<Word128>)
    requires tmp.Length == 3 && tmp[0] < 0x1_00000000_00000000_00000000 && tmp[1] < 0x1_00000000_00000000_00000000 && tmp[2] < 0x1_00000000_00000000_00000000
    modifies tmp
    ensures tmp[0] < 0x1000_00000000 && tmp[1] < 0x1000_00000000 && tmp[2] < 0x2_00000000_00000000_00000000
    ensures Val3(tmp[..]) == Val3(old(tmp[..]))
  {
    hide Low44, High44;
    for i := 0 to 2
      invariant i == 0 ==> tmp[..] == old(tmp[..])
      invariant i == 1 ==> tmp[0] < 0x1000_00000000 && tmp[1] < 0x2_00000000_00000000_00000000 && tmp[2] < 0x1_00000000_00000000_00000000
      invariant i == 2 ==> tmp[0] < 0x1000_00000000 && tmp[1] < 0x1000_00000000 && tmp[2] < 0x2_00000000_00000000_00000000
      invariant Val3(tmp[..]) == Val3(old(tmp[..]))
    {
      var t := tmp[i];
      tmp[i], tmp[i + 1] := Low44(t), tmp[i + 1] + High44(t);
    }
  }

  method CarryLimb(tmp: array<Word64>)
    requires tmp.Length == 3 && AccLimbs(tmp[..])
    modifies tmp
    ensures tmp[0] < 0x1000_00000000 && tmp[1] < 0x1000_00000000 && tmp[2] <= 0x400_00000000
    ensures Val3(tmp[..]) == Val3(old(tmp[..]))
  {
    hide Low44, High44;
    for i := 0 to 2
      invariant i == 0 ==> tmp[..] == old(tmp[..])
      invariant i == 1 ==> tmp[0] < 0x1000_00000000 && tmp[1] < 0x1000_00000000 + 0x4000 && tmp[2] < 0x400_00000000
      invariant i == 2 ==> tmp[0] < 0x1000_00000000 && tmp[1] < 0x1000_00000000 && tmp[2] <= 0x400_00000000
      invariant Val3(tmp[..]) == Val3(old(tmp[..]))
    {
      var t := tmp[i];
      tmp[i], tmp[i + 1] := Low44(t), tmp[i + 1] + High44(t);
    }
  }

  /** Folds what the top limb has above bit 130 back into the bottom limb, times 5. */
  method CarryTop(b: array<Word64>) returns (ghost k: int)
    requires b.Length == 3 && b[0] < 0x10000000_00000000 && b[2] < 0x10000000_00000000
    modifies b
    ensures b[2] == old(b[2]) % 0x400_00000000 && b[1] == old(b[1]) && b[0] == old(b[0]) + 5 * k
    ensures k == old(b[2]) / 0x400_00000000 && Val3(b[..]) == Val3(old(b[..])) - k * P
  {
    k := b[2] / 0x400_00000000;
    var b2, b0 := b[2], b[0];
    var b2_42: int := b2 / 0x400_00000000;
    b[2] := b2 % 0x400_00000000;
    b[0] := b2_42 * 4 + b2_42 + b0;
  }

  method CarryTopWide(b: array<Word128>) returns (ghost k: int)
    requires b.Length == 3 && b[0] < 0x1000_00000000 && b[2] < 0x2_00000000_00000000_00000000
    modifies b
    ensures b[2] == old(b[2]) % 0x400_00000000 && b[1] == old(b[1]) && b[0] < 0x4000000_00000000
    ensures Val3(b[..]) == Val3(old(b[..])) - k * P
  {
    k := b[2] / 0x400_00000000;
    var b2, b0 := b[2], b[0];
    var b2_42: Word64 := b2 / 0x400_00000000;
    b[2] := b2 % 0x400_00000000;
    b[0] := b0 + (b2_42 * 4) as int + b2_42;
  }

  method CopyFromWide(output: array<Word64>, input: seq<Word128>)
    requires output.Length == 3 && |input| == 3 && input[0] < 0x1_00000000_00000000 && input[1] < 0x1_00000000_00000000 && input[2] < 0x1_00000000_00000000
    modifies output
    ensures output[..] == input
  {
    for i := 0 to 3
      invariant forall k :: 0 <= k < i ==> output[k] == input[k]
    {
      output[i] := input[i];
    }
  }

  /** How often the prime is dropped when the columns above the third wrap round. */
  function WrapCount(a: seq<int>, r: seq<int>): int
    requires |a| == 3 && |r| == 3
  {
    4 * (Prod(a[2], r[1]) + Prod(a[1], r[2]) + 0x1000_00000000 * Prod(a[2], r[2]))
  }

  /** The wrapped columns stand for the product modulo P, because 2^132 is congruent to 20. */
  lemma ColumnsValue(a: seq<int>, r: seq<int>)
    requires |a| == 3 && |r| == 3
    ensures Prod(Val3(a), Val3(r)) == Val3(Columns(a, r)) + WrapCount(a, r) * P
  {
    Scale20(a[2], r[1]);
    Scale20(a[1], r[2]);
    Scale20(a[2], r[2]);
    Expand(a, r);
  }

  lemma Scale20(a: int, b: int)
    ensures Prod(20 * a, b) == 20 * Prod(a, b)
  {
  }

  lemma Distribute3(x: int, y: seq<int>)
    requires |y| == 3
    ensures Prod(x, Val3(y)) == Prod(x, y[0]) + Prod(x, y[1]) * 0x1000_00000000 + Prod(x, y[2]) * 0x1000000_00000000_00000000
    ensures Prod(Val3(y), x) == Prod(x, Val3(y)) && forall i :: 0 <= i < 3 ==> Prod(y[i], x) == Prod(x, y[i])
  {
  }

  lemma Expand(a: seq<int>, r: seq<int>)
    requires |a| == 3 && |r| == 3
    ensures Prod(Val3(a), Val3(r))
         == Prod(a[0], r[0]) + (Prod(a[1], r[0]) + Prod(a[0], r[1])) * 0x1000_00000000
            + (Prod(a[2], r[0]) + Prod(a[1], r[1]) + Prod(a[0], r[2])) * 0x1000000_00000000_00000000
            + (Prod(a[2], r[1]) + Prod(a[1], r[2])) * 0x10_00000000_00000000_00000000_00000000 + Prod(a[2], r[2]) * 0x10000_00000000_00000000_00000000_00000000_00000000
  {
    hide Prod, Val3;
    Distribute3(Val3(a), r);
    Distribute3(r[0], a);
    Distribute3(r[1], a);
    Distribute3(r[2], a);
  }

  lemma ColumnBounds(a: seq<int>, r: seq<int>)
    requires SumLimbs(a) && KeyLimbs(r)
    ensures forall i :: 0 <= i < 3 ==> 0 <= Columns(a, r)[i] < 0x1_00000000_00000000_00000000
  {
    ProductBounds(a, r);
    hide Prod;
  }

  /** The carried columns of the product. */
  method WideProduct(input: seq<Word64>, r: seq<Word64>) returns (t: array<Word128>, ghost k: int)
    requires SumLimbs(input) && KeyLimbs(r)
    ensures fresh(t) && t.Length == 3 && t[0] < 0x4000000_00000000 && t[1] < 0x1000_00000000 && t[2] < 0x400_00000000
    ensures Prod(Val3(input), Val3(r)) == Val3(t[..]) + k * P
  {
    hide Prod, Columns, Val3, WrapCount;
    var tmp := new Word64[3](i requires 0 <= i < 3 => input[i]);
    assert tmp[..] == input;
    t := new Word128[3](_ => 0);
    MulShiftReduce(t, tmp, r);
    ColumnBounds(input, r);
    CarryWide(t);
    ghost var k1 := CarryTopWide(t);
    ColumnsValue(input, r);
    k := k1 + WrapCount(input, r);
  }

  /** output = input * r modulo P, with the bounds an accumulator keeps; output may be input itself. */
  method Fmul(output: array<Word64>, input: array<Word64>, r: seq<Word64>)
    requires output.Length == 3 && input.Length == 3 && SumLimbs(input[..]) && KeyLimbs(r)
    modifies output
    ensures AccLimbs(output[..]) && Congruent(Val3(output[..]), Val3(old(input[..])) * Val3(r), P)
  {
    hide Prod, Congruent, Low44, High44, Val3;
    ghost var a := input[..];
    var t, k := WideProduct(input[..], r);
    CopyFromWide(output, t[..]);
    ghost var v := output[..];
    var i0, i1 := output[0], output[1];
    output[0] := Low44(i0);
    output[1] := i1 + High44(i0);
    LastCarry(v, output[..], High44(i0));
    Reduced(Val3(output[..]), Val3(a), Val3(r), k);
  }

  lemma LastCarry(v: seq<int>, w: seq<int>, c: nat)
    requires |v| == 3 && |w| == 3 && v[0] == w[0] + 0x1000_00000000 * c && w[1] == v[1] + c && w[2] == v[2]
    ensures Val3(w) == Val3(v)
  {
  }

  lemma Reduced(v: int, x: int, y: int, k: int)
    requires Prod(x, y) == v + k * P
    ensures Congruent(v, x * y, P)
  {
    MultipleCongruent(v, x * y, P, -k);
  }

  method AddAndMultiply(acc: array<Word64>, block: seq<Word64>, r: seq<Word64>)
    requires acc.Length == 3 && AccLimbs(acc[..]) && KeyLimbs(r)
    requires |block| == 3 && block[0] < 0x1000_00000000 && block[1] < 0x1000_00000000 && block[2] < 0x400_00000000
    modifies acc
    ensures AccLimbs(acc[..])
    ensures Congruent(Val3(acc[..]), (Val3(old(acc[..])) + Val3(block)) * Val3(r), P)
  {
    hide Congruent;
    ghost var a := acc[..];
    for i := 0 to 3
      invariant forall k :: 0 <= k < i ==> acc[k] == a[k] as int + block[k]
      invariant forall k :: i <= k < 3 ==> acc[k] == a[k]
    {
      acc[i] := acc[i] + block[i];
    }
    assert Val3(acc[..]) == Val3(a) + Val3(block);
    Fmul(acc, acc, r);
  }

  // ----- blocks

  lemma {:induction false} LittleEndianBound(b: seq<Octet>)
    ensures LittleEndian(b) < Pow2(8 * |b|)
  {
    if |b| > 0 {
      LittleEndianBound(b[1..]);
      Pow2Add(8, 8 * (|b| - 1));
      assert 8 * |b| == 8 + 8 * (|b| - 1);
      Pow2Small();
    }
  }

  lemma {:induction false} LittleEndianAppend(a: seq<Octet>, b: seq<Octet>)
    ensures LittleEndian(a + b) == LittleEndian(a) + Pow2(8 * |a|) * LittleEndian(b)
  {
    if |a| == 0 {
      assert a + b == b;
    } else {
      assert (a + b)[1..] == a[1..] + b;
      LittleEndianAppend(a[1..], b);
      Pow2Add(8, 8 * (|a| - 1));
      assert 8 * |a| == 8 + 8 * (|a| - 1);
      Pow2Small();
      hide Pow2, LittleEndian;
      MulAssoc(0x100, Pow2(8 * (|a| - 1)), LittleEndian(b));
    }
  }

  lemma {:induction false} LittleEndianZeros(b: seq<Octet>)
    requires forall i :: 0 <= i < |b| ==> b[i] == 0
    ensures LittleEndian(b) == 0
  {
    if |b| > 0 {
      LittleEndianZeros(b[1..]);
    }
  }

  /** Sixteen bytes as three limbs. */
  method LoadLimbs(m: seq<Octet>) returns (l: seq<Word64>)
    requires |m| == 16
    ensures |l| == 3 && l[0] < 0x1000_00000000 && l[1] < 0x1000_00000000 && l[2] < 0x100_00000000 && Val3(l) == LittleEndian(m)
  {
    LittleEndianBound(m);
    Pow2Large(16);
    hide LittleEndian, Pow2;
    var m0: int := LittleEndian(m);
    l := [m0 % 0x1000_00000000, (m0 / 0x1000_00000000) % 0x1000_00000000, m0 / 0x1000000_00000000_00000000];
  }

  // ----- the state

  class State {
    const r: array<Word64>
    const h: array<Word64>
    ghost var key: seq<Octet>
    ghost var absorbed: seq<Octet>

    ghost predicate Valid()
      reads this, r, h
    {
      r != h && r.Length == 3 && h.Length == 3 && |key| == 16
      && KeyLimbs(r[..]) && AccLimbs(h[..]) && Val3(r[..]) == Clamp(LittleEndian(key))
      && Val3(h[..]) % P == Eval(absorbed, Val3(r[..]))
    }

    constructor Make(r0: array<Word64>, h0: array<Word64>)
      requires r0 != h0 && r0.Length == 3 && h0.Length == 3
      ensures r == r0 && h == h0
    {
      r, h := r0, h0;
    }

    /** Clamps the first half of the key into r and clears the accumulator. */
    method Init(k: seq<Octet>)
      requires r != h && r.Length == 3 && h.Length == 3 && |k| == 16
      modifies this, r, h
      ensures Valid() && key == k && absorbed == []
      ensures Val3(r[..]) == LittleEndian(PolyKey.ClampedOctets(k))
    {
      hide LittleEndian, Clamp;
      var c: int := Clamp(LittleEndian(k));
      PolyKey.ClampIsOctets(k);
      r[0] := c % 0x1000_00000000;
      r[1] := (c / 0x1000_00000000) % 0x1000_00000000;
      r[2] := c / 0x1000000_00000000_00000000;
      h[0], h[1], h[2] := 0, 0, 0;
      key, absorbed := k, [];
      assert Val3(h[..]) == 0;
    }

    /** One full block. */
    method UpdateBlock(m: seq<Octet>)
      requires Valid() && |m| == 16 && |absorbed| % 16 == 0
      modifies this, h
      ensures Valid() && key == old(key) && r[..] == old(r[..]) && absorbed == old(absorbed) + m
    {
      hide LittleEndian, Eval, Congruent, BlockNumber;
      var b := LoadLimbs(m);
      FullBlock(m, b);
      var b2 := b[2] + 0x100_00000000;
      ghost var a := h[..];
      AddAndMultiply(h, [b[0], b[1], b2], r[..]);
      Absorbed(Val3(a), Val3([b[0], b[1], b2]), Val3(r[..]), Val3(h[..]), absorbed, m);
      absorbed := absorbed + m;
    }

    /** A block of one to fifteen bytes, closed by a one byte and filled with zeros. */
    method ProcessLastBlock(m: seq<Octet>)
      requires Valid() && 0 < |m| < 16 && |absorbed| % 16 == 0
      modifies this, h
      ensures Valid() && key == old(key) && r[..] == old(r[..]) && absorbed == old(absorbed) + m
    {
      hide LittleEndian, Eval, Congruent, BlockNumber;
      var block := m + [1] + seq(15 - |m|, _ => 0);
      ClosedBlock(m, block);
      var b := LoadLimbs(block);
      ghost var a := h[..];
      AddAndMultiply(h, b, r[..]);
      Absorbed(Val3(a), Val3(b), Val3(r[..]), Val3(h[..]), absorbed, m);
      absorbed := absorbed + m;
    }

    /** Several full blocks, one after the other. */
    method Update(m: seq<Octet>, blocks: nat)
      requires Valid() && |m| >= 16 * blocks && |absorbed| % 16 == 0
      modifies this, h
      ensures Valid() && key == old(key) && r[..] == old(r[..]) && absorbed == old(absorbed) + m[..16 * blocks]
      decreases blocks
    {
      hide Eval, Congruent;
      if blocks == 0 {
        assert m[..0] == [];
      } else {
        ghost var before := absorbed;
        UpdateBlock(m[..16]);
        Update(m[16..], blocks - 1);
        assert m[..16 * blocks] == m[..16] + m[16..][..16 * (blocks - 1)];
        assert absorbed == before + (m[..16] + m[16..][..16 * (blocks - 1)]);
      }
    }


    /** The rest of the message, shorter than a block, and the canonical residue. */
    method UpdateLast(m: seq<Octet>)
      requires Valid() && |m| < 16 && |absorbed| % 16 == 0
      modifies this, h
      ensures r.Length == 3 && h.Length == 3 && key == old(key) && absorbed == old(absorbed) + m
      ensures Canonical(h[..]) && Val3(h[..]) == Eval(absorbed, Clamp(LittleEndian(key))) % P
    {
      hide Eval, Congruent;
      if |m| != 0 {
        ProcessLastBlock(m);
      }
      assert absorbed == old(absorbed) + m;
      ghost var v := Val3(h[..]);
      LastPass(h);
      EvalReduced(absorbed, Val3(r[..]));
    }

    /** Adds the second half of the key modulo 2^128. */
    method Finish(k: seq<Octet>) returns (mac: seq<Octet>)
      requires h.Length == 3 && Canonical(h[..]) && |k| == 16
      ensures mac == ToBytes((Val3(h[..]) + LittleEndian(k)) % 0x1_00000000_00000000_00000000_00000000, 16)
    {
      hide LittleEndian, ToBytes, Val3;
      var acc := Pack(h[..]);
      var mac128 := (acc + LittleEndian(k)) % 0x1_00000000_00000000_00000000_00000000;
      DropTop(Val3(h[..]), acc, LittleEndian(k), h[2] / 0x100_00000000);
      mac := ToBytes(mac128, 16);
    }
  }

  /** Bitwise or of a value below p with a multiple of p. */
  function Or(low: nat, high: nat, p: nat): (x: nat)
    requires p > 0 && low < p && high % p == 0
    ensures x == low + high
  {
    low + high
  }

  /** The words the limbs are packed into, and the two bits that fall off. */
  /** The low 128 bits of the accumulator. */
  method Pack(h: seq<int>) returns (acc: nat)
    requires Canonical(h)
    ensures Val3(h) == acc + (h[2] / 0x100_00000000) * 0x1_00000000_00000000_00000000_00000000
  {
    hide Val3, Or;
    var h0, h1, h2 := h[0], h[1], h[2];
    var q1, r1, r2 := h1 / 0x100000, h1 % 0x100000, h2 % 0x100_00000000;
    var high := Or(q1, r2 * 0x1000000, 0x1000000);
    var low := Or(h0, r1 * 0x1000_00000000, 0x1000_00000000);
    acc := Or(low, high * 0x1_00000000_00000000, 0x1_00000000_00000000);
    Packed(h, q1, r1, h2 / 0x100_00000000, r2, high, low, acc);
  }

  lemma Packed(h: seq<int>, q1: int, r1: int, q2: int, r2: int, high: int, low: int, acc: int)
    requires |h| == 3 && h[1] == q1 * 0x100000 + r1 && h[2] == q2 * 0x100_00000000 + r2
    requires high == q1 + r2 * 0x1000000 && low == h[0] + r1 * 0x1000_00000000 && acc == low + high * 0x1_00000000_00000000
    ensures Val3(h) == acc + q2 * 0x1_00000000_00000000_00000000_00000000
  {
  }

  lemma DropTop(v: int, acc: int, k: int, top: int)
    requires v == acc + top * 0x1_00000000_00000000_00000000_00000000
    ensures (v + k) % 0x1_00000000_00000000_00000000_00000000 == (acc + k) % 0x1_00000000_00000000_00000000_00000000
  {
  }

  predicate Canonical(a: seq<int>) {
    |a| == 3 && 0 <= a[0] < 0x1000_00000000 && 0 <= a[1] < 0x1000_00000000 && 0 <= a[2] < 0x400_00000000 && Val3(a) < P
  }

  lemma FullBlock(m: seq<Octet>, b: seq<int>)
    requires |m| == 16 && |b| == 3 && Val3(b) == LittleEndian(m)
    ensures Val3([b[0], b[1], b[2] + 0x100_00000000]) == BlockNumber(m)
  {
    Pow2Large(16);
    hide LittleEndian, Pow2;
  }

  lemma ClosedBlock(m: seq<Octet>, block: seq<Octet>)
    requires |m| < 16 && block == m + [1] + seq(15 - |m|, _ => 0)
    ensures LittleEndian(block) == BlockNumber(m)
  {
    var zeros: seq<Octet> := seq(15 - |m|, _ => 0);
    var rest: seq<Octet> := [1] + zeros;
    assert block == m + rest;
    LittleEndianAppend(m, rest);
    LittleEndianZeros(zeros);
    assert rest[1..] == zeros;
    assert LittleEndian(rest) == 1;
  }

  /** The limbs absorb a block exactly as the specification does. */
  lemma Absorbed(a: int, b: int, r: int, h: int, m: seq<Octet>, block: seq<Octet>)
    requires a % P == Eval(m, r) && b == BlockNumber(block) && Congruent(h, (a + b) * r, P)
    requires |m| % 16 == 0 && 0 < |block| <= 16
    ensures h % P == Eval(m + block, r)
  {
    hide Eval, BlockNumber, Congruent;
    EvalAppend(m, block, r);
    ReduceInside(a, b, r);
    CongruentModEqual(h, (a + b) * r, P);
  }

  // ----- the last pass

  /** Carries everything, then subtracts P if that is still possible: the canonical residue. */
  method LastPass(acc: array<Word64>)
    requires acc.Length == 3 && AccLimbs(acc[..])
    modifies acc
    ensures Canonical(acc[..]) && Val3(acc[..]) == Val3(old(acc[..])) % P
  {
    hide Val3, Low44, High44, Canonical;
    ghost var v := Val3(acc[..]);
    CarryLimb(acc);
    ghost var k1 := CarryTop(acc);
    ghost var v1 := acc[..];
    var a0, a1, a2 := acc[0], acc[1], acc[2];
    acc[0] := Low44(a0);
    var s: int := a1 + High44(a0);
    acc[1] := Low44(s);
    acc[2] := a2 + High44(s);
    CarriedBoth(v1, acc[..], High44(a0), High44(s));
    ghost var v2 := acc[..];
    ghost var k2 := CarryTop(acc);
    ghost var v3 := acc[..];
    var i0, i1 := acc[0], acc[1];
    acc[0] := Low44(i0);
    acc[1] := i1 + High44(i0);
    LastCarry(v3, acc[..], High44(i0));
    SmallCarry(v2, v3, High44(i0), i1 + High44(i0));
    ghost var v4 := acc[..];
    assert Val3(v4) == v - (k1 + k2) * P;
    FinalSubtraction(acc, v, k1 + k2);
  }

  lemma CarriedBoth(v: seq<int>, w: seq<int>, c0: nat, c1: nat)
    requires |v| == 3 && |w| == 3
    requires v[0] == w[0] + 0x1000_00000000 * c0 && v[1] + c0 == w[1] + 0x1000_00000000 * c1 && w[2] == v[2] + c1
    requires 0 <= v[0] < 0x1000_00000000 + 0x10 && 0 <= v[1] < 0x1000_00000000 && 0 <= v[2] < 0x400_00000000
    requires 0 <= w[0] < 0x1000_00000000 && 0 <= w[1] < 0x1000_00000000
    ensures Val3(w) == Val3(v)
    ensures w[2] <= 0x400_00000000 && (w[2] == 0x400_00000000 ==> w[1] == 0 && w[0] < 0x10)
  {
  }

  /** If the second fold happens, the limbs below are almost empty, so the last carry cannot ripple. */
  lemma SmallCarry(v: seq<int>, w: seq<int>, c: nat, a1: int)
    requires |v| == 3 && |w| == 3 && w[0] == v[0] + 5 * (v[2] / 0x400_00000000) && w[1] == v[1]
    requires 0 <= v[0] < 0x1000_00000000 && 0 <= v[1] < 0x1000_00000000 && 0 <= v[2] <= 0x400_00000000
    requires v[2] == 0x400_00000000 ==> v[1] == 0 && v[0] < 0x10
    requires c * 0x1000_00000000 <= w[0] && a1 == w[1] + c
    ensures 0 <= a1 < 0x1000_00000000
  {
  }

  method FinalSubtraction(acc: array<Word64>, ghost v: int, ghost k: int)
    requires acc.Length == 3 && acc[0] < 0x1000_00000000 && acc[1] < 0x1000_00000000 && acc[2] < 0x400_00000000
    requires Val3(acc[..]) == v - k * P
    modifies acc
    ensures Canonical(acc[..]) && Val3(acc[..]) == v % P
  {
    ghost var a := acc[..];
    var a0, a1, a2 := acc[0], acc[1], acc[2];
    var mask := GteMask(a0, 0xffffffffffb) && a1 == 0xfffffffffff && a2 == 0x3ffffffffff;
    acc[0] := a0 - (if mask then 0xffffffffffb else 0);
    acc[1] := a1 - (if mask then 0xfffffffffff else 0);
    acc[2] := a2 - (if mask then 0x3ffffffffff else 0);
    Subtracted(a, acc[..], mask);
    hide Val3;
    ghost var m := if mask then 1 else 0;
    DivModUnique(v, P, k + m, Val3(acc[..]));
  }

  lemma Subtracted(a: seq<int>, b: seq<int>, mask: bool)
    requires |a| == 3 && |b| == 3
    requires 0 <= a[0] < 0x1000_00000000 && 0 <= a[1] < 0x1000_00000000 && 0 <= a[2] < 0x400_00000000
    requires mask <==> a[0] >= 0xffffffffffb && a[1] == 0xfffffffffff && a[2] == 0x3ffffffffff
    requires b[0] == a[0] - (if mask then 0xffffffffffb else 0)
    requires b[1] == a[1] - (if mask then 0xfffffffffff else 0)
    requires b[2] == a[2] - (if mask then 0x3ffffffffff else 0)
    ensures Canonical(b) && Val3(b) == Val3(a) - if mask then P else 0
  {
  }

  /** The all-ones mask for x >= y, from two signed subtractions; its answer is right below 2^63. */
  function GteMask(x: Word64, y: Word64): (ge: bool)
    ensures x < 0x80000000_00000000 && y < 0x80000000_00000000 ==> (ge <==> x >= y)
  {
    var low63: int := (x % 0x80000000_00000000) - (y % 0x80000000_00000000) as int;
    var high: int := SignedTop(x) - SignedTop(y);
    low63 >= 0 && high >= 0
  }

  /** The top bit alone, as a signed 64-bit number. */
  function SignedTop(x: Word64): int {
    if x >= 0x80000000_00000000 then -0x80000000_00000000 else 0
  }

  // ----- the two entry points

  /** The message the one-shot function authenticates: the offset of its last block is cut to 32 bits. */
  function Authenticated(input: seq<Octet>): (m: seq<Octet>) {
    var whole := |input| / 16 * 16;
    var at := whole % 0x1_00000000;
    input[..whole] + input[at..at + |input| % 16]
  }

  /** That is the message itself exactly when it is short enough for the offset, ends on a block boundary,
      or the bytes at the cut offset happen to be those of the last block. */
  lemma AuthenticatedIsInput(input: seq<Octet>)
    ensures (Authenticated(input) == input) <==>
            (|input| < 0x1_00000000 || |input| % 16 == 0
             || (var whole := |input| / 16 * 16; input[whole % 0x1_00000000..whole % 0x1_00000000 + |input| % 16] == input[whole..]))
  {
    var whole := |input| / 16 * 16;
    var tail := input[whole..];
    var taken := input[whole % 0x1_00000000..whole % 0x1_00000000 + |input| % 16];
    assert input == input[..whole] + tail;
    if Authenticated(input) == input {
      assert Authenticated(input)[whole..] == taken;
      assert input[whole..] == tail;
    }
    if |input| % 16 == 0 {
      assert taken == [] && tail == [];
    }
  }

  /** What a caller can check beforehand: for which lengths every message is authenticated as it stands. */
  predicate WholeLength(n: nat) {
    n < 0x1_00000000 || n % 16 == 0
  }

  /** n - 1 zero bytes and a one byte. */
  function OneAtEnd(n: nat): (m: seq<Octet>)
    requires n > 0
    ensures |m| == n
  {
    seq(n - 1, _ => 0) + [1]
  }

  lemma CutAtEnd(n: nat)
    requires n > 0 && !WholeLength(n)
    ensures Authenticated(OneAtEnd(n)) != OneAtEnd(n)
  {
    var m := OneAtEnd(n);
    var whole, rem := n / 16 * 16, n % 16;
    var at := whole % 0x1_00000000;
    assert at < whole;
    assert Authenticated(m)[n - 1] == m[at..at + rem][rem - 1] == m[at + rem - 1] == 0;
  }

  /** Of a given length, all messages are authenticated as they stand exactly when the length allows it. */
  lemma LengthDecides(n: nat)
    ensures (forall input: seq<Octet> :: |input| == n ==> Authenticated(input) == input) <==> WholeLength(n)
  {
    if WholeLength(n) {
      forall input: seq<Octet> | |input| == n
        ensures Authenticated(input) == input
      {
        AuthenticatedIsInput(input);
      }
    } else {
      CutAtEnd(n);
    }
  }

  /** With the key 1, 0, ..., 0 the tag of 2^32 zero bytes and a one byte is then wrong. */
  lemma WrongTag(key: seq<Octet>)
    requires |key| == 32 && key == [1] + seq(31, _ => 0)
    ensures Tag(Authenticated(OneAtEnd(0x1_0000_0001)), key) != Tag(OneAtEnd(0x1_0000_0001), key)
  {
    hide Eval, BlockNumber, Clamp, LittleEndian, ToBytes, Authenticated, OneAtEnd;
    var zeros: seq<Octet> := seq(0x1_0000_0000, _ => 0);
    FirstIsOne(key);
    CutMessage(zeros);
    EvalAppend(zeros, [1], 1);
    EvalAppend(zeros, [0], 1);
    LastNumbers();
    var acc := Eval(zeros, 1);
    var t0, t1 := ((acc + 0x100) * 1) % P, ((acc + 0x101) * 1) % P;
    NextResidue(acc + 0x100);
    FirstByte(t0 % 0x1_00000000_00000000_00000000_00000000);
    FirstByte(t1 % 0x1_00000000_00000000_00000000_00000000);
    TagWithZero(t0, key);
    TagWithZero(t1, key);
    EvalReduced(zeros + [0], 1);
    EvalReduced(zeros + [1], 1);
  }

  lemma FirstIsOne(key: seq<Octet>)
    requires key == [1] + seq(31, _ => 0)
    ensures Clamp(LittleEndian(key[..16])) == 1 && LittleEndian(key[16..]) == 0
  {
    LittleEndianZeros(key[16..]);
    LittleEndianZeros(key[..16][1..]);
  }

  lemma CutMessage(zeros: seq<Octet>)
    requires zeros == seq(0x1_0000_0000, _ => 0)
    ensures OneAtEnd(0x1_0000_0001) == zeros + [1] && Authenticated(zeros + [1]) == zeros + [0]
  {
    var m := zeros + [1];
    assert m[..0x1_0000_0000] == zeros && m[0..1] == [0];
  }

  lemma LastNumbers()
    ensures BlockNumber([0]) == 0x100 && BlockNumber([1]) == 0x101
  {
    assert Pow2(8) == 0x100;
    assert [0][1..] == [] && [1][1..] == [];
  }

  /** Consecutive residues never have the same lowest byte, not even where they wrap around. */
  lemma NextResidue(x: int)
    ensures ((x + 1) % P) % 0x1_00000000_00000000_00000000_00000000 % 0x100 != (x % P) % 0x1_00000000_00000000_00000000_00000000 % 0x100
  {
    var r := x % P;
    DivModParts(x, P);
    if r + 1 < P {
      DivModUnique(x + 1, P, x / P, r + 1);
    } else {
      DivModUnique(x + 1, P, x / P + 1, 0);
    }
  }

  lemma FirstByte(v: nat)
    ensures ToBytes(v, 16)[0] == v % 0x100
  {
  }

  lemma TagWithZero(acc: int, key: seq<Octet>)
    requires |key| == 32 && LittleEndian(key[16..]) == 0
    ensures TagOf(acc, key) == ToBytes(acc % P % 0x1_00000000_00000000_00000000_00000000, 16)
  {
  }

  method OneTimeAuth(input: seq<Octet>, key: seq<Octet>) returns (output: seq<Octet>)
    requires |key| == 32 && |input| < 0x1_00000000_00000000
    ensures output == Tag(Authenticated(input), key)
  {
    hide Eval, Congruent, LittleEndian, ToBytes, Canonical, Clamp;
    var r := new Word64[3](_ => 0);
    var h := new Word64[3](_ => 0);
    var st := new State.Make(r, h);
    var len16, rem16 := |input| / 16, |input| % 16;
    var at := (16 * len16) % 0x1_00000000;
    st.Init(key[..16]);
    st.Update(input, len16);
    st.UpdateLast(input[at..at + rem16]);
    assert st.absorbed == Authenticated(input);
    output := st.Finish(key[16..]);
  }

  /** Any way of cutting a message into runs of whole blocks and a rest gives the same tag. */
  method Streaming(parts: seq<seq<Octet>>, last: seq<Octet>, key: seq<Octet>) returns (output: seq<Octet>)
    requires |key| == 32 && |last| < 16 && forall i :: 0 <= i < |parts| ==> |parts[i]| % 16 == 0
    ensures output == Tag(Concat(parts) + last, key)
  {
    hide Eval, Congruent, LittleEndian, ToBytes, Canonical, Clamp;
    var r := new Word64[3](_ => 0);
    var h := new Word64[3](_ => 0);
    var st := new State.Make(r, h);
    st.Init(key[..16]);
    for i := 0 to |parts|
      invariant st.Valid() && st.key == key[..16] && st.r == r && st.h == h
      invariant st.absorbed == Concat(parts[..i]) && |st.absorbed| % 16 == 0
    {
      st.Update(parts[i], |parts[i]| / 16);
      assert parts[i][..16 * (|parts[i]| / 16)] == parts[i];
      assert parts[..i + 1][..i] == parts[..i];
    }
    assert parts[..|parts|] == parts;
    st.UpdateLast(last);
    output := st.Finish(key[16..]);
  }

}
