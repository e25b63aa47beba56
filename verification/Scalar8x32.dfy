/** Arithmetic modulo the group order on scalars held in eight 32-bit limbs. */
module Scalar8x32 {
  import opened Arith
  import opened Scalars
  import opened Limbs32
  import opened ScalarProduct
  import opened ScalarFold

  /** Limbs of the group order. */
  const N_0: Word := 0xD0364141
  const N_1: Word := 0xBFD25E8C
  const N_2: Word := 0xAF48A03B
  const N_3: Word := 0xBAAEDCE6
  const N_4: Word := 0xFFFFFFFE
  const N_5: Word := 0xFFFFFFFF
  const N_6: Word := 0xFFFFFFFF
  const N_7: Word := 0xFFFFFFFF

  /** Limbs of half the group order. */
  const N_H_0: Word := 0x681B20A0
  const N_H_1: Word := 0xDFE92F46
  const N_H_2: Word := 0x57A4501D
  const N_H_3: Word := 0x5D576E73
  const N_H_4: Word := 0xFFFFFFFF
  const N_H_5: Word := 0xFFFFFFFF
  const N_H_6: Word := 0xFFFFFFFF
  const N_H_7: Word := 0x7FFFFFFF

  // ----- comparisons that never branch on a limb

  /** The most significant limb that differs from the order's decides. */
  method CheckOverflow(a: seq<Word>) returns (yes: bool)
    requires |a| == 8
    ensures yes <==> Val8(a) >= N
  {
    yes := false;
    var no := false;
    no := no || a[7] < N_7;
    no := no || a[6] < N_6;
    no := no || a[5] < N_5;
    no := no || a[4] < N_4;
    yes := yes || (a[4] > N_4 && !no);
    ghost var top := Join(a[4], Join(a[5], Join(a[6], a[7])));
    assert (no <==> top < 0xFFFFFFFF_FFFFFFFF_FFFFFFFF_FFFFFFFE) && (yes <==> top > 0xFFFFFFFF_FFFFFFFF_FFFFFFFF_FFFFFFFE);
    no := no || (a[3] < N_3 && !yes);
    yes := yes || (a[3] > N_3 && !no);
    no := no || (a[2] < N_2 && !yes);
    yes := yes || (a[2] > N_2 && !no);
    no := no || (a[1] < N_1 && !yes);
    yes := yes || (a[1] > N_1 && !no);
    yes := yes || (a[0] >= N_0 && !no);
  }

  method IsHighLimbs(a: seq<Word>) returns (yes: bool)
    requires |a| == 8
    ensures yes <==> Val8(a) > N / 2
  {
    yes := false;
    var no := false;
    no := no || a[7] < N_H_7;
    yes := yes || (a[7] > N_H_7 && !no);
    no := no || (a[6] < N_H_6 && !yes);
    no := no || (a[5] < N_H_5 && !yes);
    no := no || (a[4] < N_H_4 && !yes);
    ghost var top := Join(a[4], Join(a[5], Join(a[6], a[7])));
    assert (no <==> top < 0x7FFFFFFF_FFFFFFFF_FFFFFFFF_FFFFFFFF) && (yes <==> top > 0x7FFFFFFF_FFFFFFFF_FFFFFFFF_FFFFFFFF);
    no := no || (a[3] < N_H_3 && !yes);
    yes := yes || (a[3] > N_H_3 && !no);
    no := no || (a[2] < N_H_2 && !yes);
    yes := yes || (a[2] > N_H_2 && !no);
    no := no || (a[1] < N_H_1 && !yes);
    yes := yes || (a[1] > N_H_1 && !no);
    yes := yes || (a[0] > N_H_0 && !no);
  }

  method IsZero(a: seq<Word>) returns (zero: bool)
    requires |a| == 8
    ensures zero <==> Val8(a) == 0
  {
    zero := a[0] == 0 && a[1] == 0 && a[2] == 0 && a[3] == 0 && a[4] == 0 && a[5] == 0 && a[6] == 0 && a[7] == 0;
  }

  // ----- addition and reduction

  /** The sums of corresponding limbs, not yet carried. */
  function Sums(a: seq<int>, b: seq<int>): (x: seq<nat>)
    requires |a| == 8 && |b| == 8 && forall i :: 0 <= i < 8 ==> a[i] >= 0 && b[i] >= 0
    ensures |x| == 8 && Val8(x) == Val8(a) + Val8(b)
  {
    [a[0] + b[0], a[1] + b[1], a[2] + b[2], a[3] + b[3], a[4] + b[4], a[5] + b[5], a[6] + b[6], a[7] + b[7]]
  }

  lemma SumLimbs(a: seq<int>, b: seq<int>)
    requires |a| == 8 && |b| == 8 && forall i :: 0 <= i < 8 ==> a[i] >= 0 && b[i] >= 0
    ensures forall i :: 0 <= i < 8 ==> Sums(a, b)[i] == a[i] + b[i]
  {
  }

  lemma ChainResult(d: seq<Word>, t: nat, v: int)
    requires |d| == 8 && v == Val8(d) + t * TWO_256
    ensures Val8(d) == v % TWO_256 && t == v / TWO_256
  {
    Val8Bound(d);
    hide Val8, Sums;
    DivModUnique(v, TWO_256, t, Val8(d));
  }

  /** Adds overflow times N_C and drops the carry: subtracts the order once if overflow is 1. */
  method Reduce(r: array<Word>, overflow: nat)
    requires r.Length == 8 && overflow <= 1
    modifies r
    ensures Val8(r[..]) == (Val8(old(r[..])) + overflow * N_C) % TWO_256
  {
    hide Val8, Sums;
    var one := if overflow == 1 then [N_C_0, N_C_1, N_C_2, N_C_3, 1, 0, 0, 0] else [0, 0, 0, 0, 0, 0, 0, 0];
    var x := Sums(r[..], one);
    OrderComplementLimbs();
    ZeroLimbs();
    SumLimbs(r[..], one);
    var d, t := CarryChain(x);
    ChainResult(d, t, Val8(x));
    WriteLimbs(r, d);
  }


  lemma OrderComplementLimbs()
    ensures Val8([N_C_0, N_C_1, N_C_2, N_C_3, 1, 0, 0, 0]) == N_C
  {
  }

  lemma ZeroLimbs()
    ensures Val8([0, 0, 0, 0, 0, 0, 0, 0]) == 0
  {
  }

  lemma OrderPlusOneLimbs()
    ensures Val8([N_0 + 1, N_1, N_2, N_3, N_4, N_5, N_6, N_7]) == N + 1
  {
  }

  /** A number below 2 N, split at 2^256, is reduced by adding N_C once for the carry or for being at least N. */
  lemma OneReduction(v: nat, carry: nat, over: bool)
    requires v < TWO_256 && v + carry * TWO_256 < 2 * N && (over <==> v >= N)
    ensures carry + (if over then 1 else 0) <= 1
    ensures (v + (carry + if over then 1 else 0) * N_C) % TWO_256 == (v + carry * TWO_256) % N
  {
    var total := v + carry * TWO_256;
    if carry == 0 && !over {
      DivModUnique(v, TWO_256, 0, v);
      DivModUnique(total, N, 0, v);
    } else {
      DivModUnique(v + N_C, TWO_256, 1 - carry, total - N);
      DivModUnique(total, N, 1, total - N);
    }
  }

  method AddLimbs(r: array<Word>, a: seq<Word>, b: seq<Word>) returns (overflow: nat)
    requires r.Length == 8 && |a| == 8 && |b| == 8
    requires Val8(a) < N && Val8(b) < N
    modifies r
    ensures Val8(r[..]) == (Val8(a) + Val8(b)) % N
    ensures overflow == if Val8(a) + Val8(b) >= N then 1 else 0
  {
    hide Val8, Sums;
    SumLimbs(a, b);
    var d, t := CarryChain(Sums(a, b));
    Val8Bound(d);
    WriteLimbs(r, d);
    var over := CheckOverflow(d);
    OneReduction(Val8(d), t, over);
    overflow := t + if over then 1 else 0;
    Reduce(r, overflow);
  }

  // ----- negation

  /** N - a in limbs: the complement of a plus the limbs of N + 1, or zero for zero. */
  method NegateLimbs(r: array<Word>, a: seq<Word>)
    requires r.Length == 8 && |a| == 8 && Val8(a) < N
    modifies r
    ensures Val8(r[..]) == Negate(Val8(a))
  {
    hide Val8, Sums;
    var zero := IsZero(a);
    var m := 0xFFFF_FFFF;
    var c := [m - a[0], m - a[1], m - a[2], m - a[3], m - a[4], m - a[5], m - a[6], m - a[7]];
    var n := [N_0 + 1, N_1, N_2, N_3, N_4, N_5, N_6, N_7];
    Complement(a, c);
    OrderPlusOneLimbs();
    ZeroLimbs();
    SumLimbs(c, n);
    var d, t := CarryChain(Sums(c, n));
    Val8Bound(d);
    if zero {
      d := [0, 0, 0, 0, 0, 0, 0, 0];
    }
    WriteLimbs(r, d);
  }

  lemma Complement(a: seq<Word>, c: seq<int>)
    requires |a| == 8 && |c| == 8 && forall i :: 0 <= i < 8 ==> c[i] == 0xFFFF_FFFF - a[i]
    ensures Val8(c) == TWO_256 - 1 - Val8(a)
    ensures 0 <= Val8(a) < TWO_256
  {
  }

  /** Negates when flag is set; the answer is the sign applied. */
  method CondNegate(r: array<Word>, flag: bool) returns (sign: int)
    requires r.Length == 8 && Val8(r[..]) < N
    modifies r
    ensures Val8(r[..]) == if flag then Negate(Val8(old(r[..]))) else Val8(old(r[..]))
    ensures sign == if flag then -1 else 1
  {
    hide Val8, Sums;
    if flag {
      NegateLimbs(r, r[..]);
    } else {
      KeepLimbs(r);
    }
    sign := if flag then -1 else 1;
  }

  /** The same chain with a zero mask: every limb is written back as it was. */
  method KeepLimbs(r: array<Word>)
    requires r.Length == 8
    modifies r
    ensures r[..] == old(r[..])
  {
    var d := r[..];
    WriteLimbs(r, [d[0], d[1], d[2], d[3], d[4], d[5], d[6], d[7]]);
  }

  // ----- multiplication

  method LastFold(r: array<Word>, p: seq<Word>, p8: Word) returns (c: nat)
    requires r.Length == 8 && |p| == 8 && p8 <= 2
    modifies r
    ensures Val8(r[..]) + c * TWO_256 == Val8(p) + p8 * N_C
  {
    hide Val8, Sums;
    var f := [N_C_0 * p8, N_C_1 * p8, N_C_2 * p8, N_C_3 * p8, p8, 0, 0, 0];
    FoldLimbs(p8, f);
    var d;
    SumLimbs(p, f);
    d, c := CarryChain(Sums(p, f));
    WriteLimbs(r, d);
  }

  lemma FoldLimbs(p8: Word, f: seq<int>)
    requires p8 <= 2 && f == [N_C_0 * p8, N_C_1 * p8, N_C_2 * p8, N_C_3 * p8, p8, 0, 0, 0]
    ensures Val8(f) == p8 * N_C
  {
  }

  lemma Halves(l: seq<Word>)
    requires |l| == 16
    ensures Val16(l) == Val8(l[..8]) + High(l[8..]) * TWO_256
  {
  }

  /** Three folds and one subtraction take off multiples of N only. */
  lemma FoldsReduce(v: int, high: int, m: int, mLow: int, mHigh: int, pLow: int, p8: int, last: int)
    requires v == (m - high * N_C) + high * TWO_256
    requires m == mLow + mHigh * TWO_256
    requires pLow + p8 * TWO_256 == mLow + mHigh * N_C
    requires last == pLow + p8 * N_C
    ensures v == last + (high + mHigh + p8) * N
    ensures last % N == v % N
  {
    assert N + N_C == TWO_256;
    MultipleCongruent(last, v, N, -(high + mHigh + p8));
    CongruentModEqual(last, v, N);
  }

  lemma LastBound(pLow: int, p8: int)
    requires 0 <= pLow < TWO_256 && p8 <= 2
    ensures pLow + p8 * N_C < 2 * N
  {
  }

  method Reduce512(r: array<Word>, l: seq<Word>)
    requires r.Length == 8 && |l| == 16
    modifies r
    ensures Val8(r[..]) == Val16(l) % N
  {
    hide Val8, Val16, High, Val13;
    Halves(l);
    FoldBound(l[..8], l[8..]);
    var m := FirstFold(l[..8], l[8..]);
    HighAtMost(m);
    var p, p8 := SecondFold(m[..8], m[8..]);
    Val8Bound(p);
    LastBound(Val8(p), p8);
    var c := LastFold(r, p, p8);
    Val8Bound(r[..]);
    FoldsReduce(Val16(l), High(l[8..]), Val13(m), Val8(m[..8]), High(m[8..]), Val8(p), p8, Val8(p) + p8 * N_C);
    var over := CheckOverflow(r[..]);
    OneReduction(Val8(r[..]), c, over);
    Reduce(r, c + if over then 1 else 0);
  }

  /** The product modulo the group order, for any two numbers in eight limbs. */
  method MulLimbs(r: array<Word>, a: seq<Word>, b: seq<Word>)
    requires r.Length == 8 && |a| == 8 && |b| == 8
    modifies r
    ensures Val8(r[..]) == (Val8(a) * Val8(b)) % N
  {
    hide Val8, Val16;
    var l := new Word[16];
    Mul512(l, a, b);
    Reduce512(r, l[..]);
  }

  /** The square, through the doubling accumulator, is the same number. */
  method SqrLimbs(r: array<Word>, a: seq<Word>)
    requires r.Length == 8 && |a| == 8
    modifies r
    ensures Val8(r[..]) == (Val8(a) * Val8(a)) % N
  {
    hide Val8, Val16;
    var l := new Word[16];
    Sqr512(l, a);
    Reduce512(r, l[..]);
  }
}
