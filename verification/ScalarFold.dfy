/** Reduction of a 512-bit number modulo the group order: two passes fold the part above 2^256 back in
    through the accumulator, a third one folds the last two bits, and one conditional subtraction is left. */
module ScalarFold {
  import opened Arith
  import opened Scalars
  import opened Limbs32

  /** 2^256 minus the group order, and its limbs. The fifth limb is 1. */
  const N_C: int := 0x1_45512319_50B75FC4_402DA173_2FC9BEBF
  const N_C_0: Word := 0x2FC9BEBF
  const N_C_1: Word := 0x402DA173
  const N_C_2: Word := 0x50B75FC4
  const N_C_3: Word := 0x45512319

  function At(s: seq<Word>, k: int): Word {
    if 0 <= k < |s| then s[k] else 0
  }

  /** What lo + hi * N_C has at weight 2^(32 k). */
  ghost function FoldColumn(lo: seq<Word>, hi: seq<Word>, k: nat): int {
    At(lo, k) + Prod(At(hi, k), N_C_0) + Prod(At(hi, k - 1), N_C_1) + Prod(At(hi, k - 2), N_C_2)
    + Prod(At(hi, k - 3), N_C_3) + At(hi, k - 4)
  }

  lemma ZeroProducts()
    ensures Prod(0, N_C_0) == 0 && Prod(0, N_C_1) == 0 && Prod(0, N_C_2) == 0 && Prod(0, N_C_3) == 0
  {
  }

  method FirstFold0To4(lo: seq<Word>, hi: seq<Word>) returns (m0: Word, m1: Word, m2: Word, m3: Word, m4: Word, c: Acc)
    requires |lo| == 8 && |hi| == 8
    ensures Join(m0, Join(m1, Join(m2, Join(m3, Join(m4, AccVal(c))))))
         == Join(FoldColumn(lo, hi, 0), Join(FoldColumn(lo, hi, 1), Join(FoldColumn(lo, hi, 2), Join(FoldColumn(lo, hi, 3), FoldColumn(lo, hi, 4)))))
    ensures c.c2 == 0 && AccVal(c) < 0x10_0000_0000
  {
    ZeroProducts();
    hide Prod, AccVal;
    AccOfWord(lo[0]);
    ProdBound(hi[0], N_C_0);
    c := Acc(lo[0], 0, 0);
    c := MulAddFast(c, hi[0], N_C_0);
    m0, c := ExtractFast(c);
    AccLow(c);
    c := SumAddFast(c, lo[1]);
    c := MulAdd(c, hi[1], N_C_0);
    c := MulAdd(c, hi[0], N_C_1);
    m1, c := Extract(c);
    AccSmall(c);
    c := SumAdd(c, lo[2]);
    c := MulAdd(c, hi[2], N_C_0);
    c := MulAdd(c, hi[1], N_C_1);
    c := MulAdd(c, hi[0], N_C_2);
    m2, c := Extract(c);
    AccSmall(c);
    c := SumAdd(c, lo[3]);
    c := MulAdd(c, hi[3], N_C_0);
    c := MulAdd(c, hi[2], N_C_1);
    c := MulAdd(c, hi[1], N_C_2);
    c := MulAdd(c, hi[0], N_C_3);
    m3, c := Extract(c);
    AccSmall(c);
    c := SumAdd(c, lo[4]);
    c := MulAdd(c, hi[4], N_C_0);
    c := MulAdd(c, hi[3], N_C_1);
    c := MulAdd(c, hi[2], N_C_2);
    c := MulAdd(c, hi[1], N_C_3);
    c := SumAdd(c, hi[0]);
    m4, c := Extract(c);
    AccSmall(c);
  }

  method FirstFold5To8(lo: seq<Word>, hi: seq<Word>, c0: Acc) returns (m5: Word, m6: Word, m7: Word, m8: Word, c: Acc)
    requires |lo| == 8 && |hi| == 8 && c0.c2 == 0 && AccVal(c0) < 0x10_0000_0000
    ensures Join(m5, Join(m6, Join(m7, Join(m8, AccVal(c)))))
         == AccVal(c0) + Join(FoldColumn(lo, hi, 5), Join(FoldColumn(lo, hi, 6), Join(FoldColumn(lo, hi, 7), FoldColumn(lo, hi, 8))))
    ensures c.c2 == 0 && AccVal(c) < 0x10_0000_0000
  {
    ZeroProducts();
    hide Prod, AccVal;
    c := c0;
    c := SumAdd(c, lo[5]);
    c := MulAdd(c, hi[5], N_C_0);
    c := MulAdd(c, hi[4], N_C_1);
    c := MulAdd(c, hi[3], N_C_2);
    c := MulAdd(c, hi[2], N_C_3);
    c := SumAdd(c, hi[1]);
    m5, c := Extract(c);
    AccSmall(c);
    c := SumAdd(c, lo[6]);
    c := MulAdd(c, hi[6], N_C_0);
    c := MulAdd(c, hi[5], N_C_1);
    c := MulAdd(c, hi[4], N_C_2);
    c := MulAdd(c, hi[3], N_C_3);
    c := SumAdd(c, hi[2]);
    m6, c := Extract(c);
    AccSmall(c);
    c := SumAdd(c, lo[7]);
    c := MulAdd(c, hi[7], N_C_0);
    c := MulAdd(c, hi[6], N_C_1);
    c := MulAdd(c, hi[5], N_C_2);
    c := MulAdd(c, hi[4], N_C_3);
    c := SumAdd(c, hi[3]);
    m7, c := Extract(c);
    AccSmall(c);
    c := MulAdd(c, hi[7], N_C_1);
    c := MulAdd(c, hi[6], N_C_2);
    c := MulAdd(c, hi[5], N_C_3);
    c := SumAdd(c, hi[4]);
    m8, c := Extract(c);
    AccSmall(c);
  }

  method FirstFold9To11(lo: seq<Word>, hi: seq<Word>, c0: Acc) returns (m9: Word, m10: Word, m11: Word, c: Acc)
    requires |lo| == 8 && |hi| == 8 && c0.c2 == 0 && AccVal(c0) < 0x10_0000_0000
    ensures Join(m9, Join(m10, Join(m11, AccVal(c))))
         == AccVal(c0) + Join(FoldColumn(lo, hi, 9), Join(FoldColumn(lo, hi, 10), FoldColumn(lo, hi, 11)))
    ensures c.c2 == 0 && AccVal(c) < 0x10_0000_0000
    ensures c.c1 == 0
  {
    ZeroProducts();
    hide Prod, AccVal;
    c := c0;
    c := MulAdd(c, hi[7], N_C_2);
    c := MulAdd(c, hi[6], N_C_3);
    c := SumAdd(c, hi[5]);
    m9, c := Extract(c);
    AccSmall(c);
    c := MulAdd(c, hi[7], N_C_3);
    c := SumAdd(c, hi[6]);
    m10, c := Extract(c);
    AccSmall(c);
    c := SumAddFast(c, hi[7]);
    m11, c := ExtractFast(c);
    AccLow(c);
  }

  lemma ProdBit(a: Word, b: Word)
    ensures a <= 1 ==> 0 <= Prod(a, b) <= b
  {
  }

  method SecondFold0To4(lo: seq<Word>, hi: seq<Word>) returns (p0: Word, p1: Word, p2: Word, p3: Word, p4: Word, c: Acc)
    requires |lo| == 8 && |hi| == 5
    ensures Join(p0, Join(p1, Join(p2, Join(p3, Join(p4, AccVal(c))))))
         == Join(FoldColumn(lo, hi, 0), Join(FoldColumn(lo, hi, 1), Join(FoldColumn(lo, hi, 2), Join(FoldColumn(lo, hi, 3), FoldColumn(lo, hi, 4)))))
    ensures c.c2 == 0 && AccVal(c) < 0x10_0000_0000
  {
    ZeroProducts();
    hide Prod, AccVal;
    AccOfWord(lo[0]);
    ProdBound(hi[0], N_C_0);
    c := Acc(lo[0], 0, 0);
    c := MulAddFast(c, hi[0], N_C_0);
    p0, c := ExtractFast(c);
    AccLow(c);
    c := SumAddFast(c, lo[1]);
    c := MulAdd(c, hi[1], N_C_0);
    c := MulAdd(c, hi[0], N_C_1);
    p1, c := Extract(c);
    AccSmall(c);
    c := SumAdd(c, lo[2]);
    c := MulAdd(c, hi[2], N_C_0);
    c := MulAdd(c, hi[1], N_C_1);
    c := MulAdd(c, hi[0], N_C_2);
    p2, c := Extract(c);
    AccSmall(c);
    c := SumAdd(c, lo[3]);
    c := MulAdd(c, hi[3], N_C_0);
    c := MulAdd(c, hi[2], N_C_1);
    c := MulAdd(c, hi[1], N_C_2);
    c := MulAdd(c, hi[0], N_C_3);
    p3, c := Extract(c);
    AccSmall(c);
    c := SumAdd(c, lo[4]);
    c := MulAdd(c, hi[4], N_C_0);
    c := MulAdd(c, hi[3], N_C_1);
    c := MulAdd(c, hi[2], N_C_2);
    c := MulAdd(c, hi[1], N_C_3);
    c := SumAdd(c, hi[0]);
    p4, c := Extract(c);
    AccSmall(c);
  }

  method SecondFold5To7(lo: seq<Word>, hi: seq<Word>, c0: Acc) returns (p5: Word, p6: Word, p7: Word, c: Acc)
    requires |lo| == 8 && |hi| == 5 && c0.c2 == 0 && AccVal(c0) < 0x10_0000_0000
    requires hi[4] <= 1
    ensures Join(p5, Join(p6, Join(p7, AccVal(c))))
         == AccVal(c0) + Join(FoldColumn(lo, hi, 5), Join(FoldColumn(lo, hi, 6), FoldColumn(lo, hi, 7)))
    ensures c.c2 == 0 && AccVal(c) < 0x10_0000_0000
    ensures c.c1 == 0
  {
    ZeroProducts();
    hide Prod, AccVal;
    c := c0;
    c := SumAdd(c, lo[5]);
    c := MulAdd(c, hi[4], N_C_1);
    c := MulAdd(c, hi[3], N_C_2);
    c := MulAdd(c, hi[2], N_C_3);
    c := SumAdd(c, hi[1]);
    p5, c := Extract(c);
    AccSmall(c);
    c := SumAdd(c, lo[6]);
    c := MulAdd(c, hi[4], N_C_2);
    c := MulAdd(c, hi[3], N_C_3);
    c := SumAdd(c, hi[2]);
    p6, c := Extract(c);
    AccSmall(c);
    c := SumAddFast(c, lo[7]);
    ProdBit(hi[4], N_C_3);
    c := MulAddFast(c, hi[4], N_C_3);
    c := SumAddFast(c, hi[3]);
    p7, c := ExtractFast(c);
    AccLow(c);
  }

  /** The number above the low eight limbs, for up to eight further limbs. */
  function High(hi: seq<Word>): int {
    Join(At(hi, 0), Join(At(hi, 1), Join(At(hi, 2), Join(At(hi, 3), Join(At(hi, 4), Join(At(hi, 5), Join(At(hi, 6), At(hi, 7))))))))
  }

  lemma ConstantProducts(x: int)
    ensures Prod(x, N_C_0) == x * 0x2FC9BEBF && Prod(x, N_C_1) == x * 0x402DA173
    ensures Prod(x, N_C_2) == x * 0x50B75FC4 && Prod(x, N_C_3) == x * 0x45512319
  {
  }

  /** The columns of a fold add up to the low part plus the high part times N_C. */
  lemma FoldValue(lo: seq<Word>, hi: seq<Word>)
    requires |lo| == 8 && |hi| <= 8
    ensures Join(FoldColumn(lo, hi, 0), Join(FoldColumn(lo, hi, 1), Join(FoldColumn(lo, hi, 2), Join(FoldColumn(lo, hi, 3), Join(FoldColumn(lo, hi, 4), Join(FoldColumn(lo, hi, 5), Join(FoldColumn(lo, hi, 6), Join(FoldColumn(lo, hi, 7), Join(FoldColumn(lo, hi, 8), Join(FoldColumn(lo, hi, 9), Join(FoldColumn(lo, hi, 10), FoldColumn(lo, hi, 11))))))))))))
         == Val8(lo) + High(hi) * N_C
  {
    hide Prod, FoldColumn, Val8, Join;
    FoldColumnIs(lo, hi, 0);
    FoldColumnIs(lo, hi, 1);
    FoldColumnIs(lo, hi, 2);
    FoldColumnIs(lo, hi, 3);
    FoldColumnIs(lo, hi, 4);
    FoldColumnIs(lo, hi, 5);
    FoldColumnIs(lo, hi, 6);
    FoldColumnIs(lo, hi, 7);
    FoldColumnIs(lo, hi, 8);
    FoldColumnIs(lo, hi, 9);
    FoldColumnIs(lo, hi, 10);
    FoldColumnIs(lo, hi, 11);
    var h := [At(hi, 0), At(hi, 1), At(hi, 2), At(hi, 3), At(hi, 4), At(hi, 5), At(hi, 6), At(hi, 7)];
    FoldIdentity(lo, h);
    HighIs(hi, h);
  }

  lemma HighIs(hi: seq<Word>, h: seq<Word>)
    requires |h| == 8 && forall i :: 0 <= i < 8 ==> h[i] == At(hi, i)
    ensures High(hi) == Val8(h)
  {
  }

  /** The schoolbook product with the limbs of N_C. */
  lemma FoldIdentity(l: seq<int>, h: seq<int>)
    requires |l| == 8 && |h| == 8
    ensures Join(l[0] + h[0] * 0x2FC9BEBF, Join(l[1] + h[1] * 0x2FC9BEBF + h[0] * 0x402DA173, Join(l[2] + h[2] * 0x2FC9BEBF + h[1] * 0x402DA173 + h[0] * 0x50B75FC4, Join(l[3] + h[3] * 0x2FC9BEBF + h[2] * 0x402DA173 + h[1] * 0x50B75FC4 + h[0] * 0x45512319, Join(l[4] + h[4] * 0x2FC9BEBF + h[3] * 0x402DA173 + h[2] * 0x50B75FC4 + h[1] * 0x45512319 + h[0], Join(l[5] + h[5] * 0x2FC9BEBF + h[4] * 0x402DA173 + h[3] * 0x50B75FC4 + h[2] * 0x45512319 + h[1], Join(l[6] + h[6] * 0x2FC9BEBF + h[5] * 0x402DA173 + h[4] * 0x50B75FC4 + h[3] * 0x45512319 + h[2], Join(l[7] + h[7] * 0x2FC9BEBF + h[6] * 0x402DA173 + h[5] * 0x50B75FC4 + h[4] * 0x45512319 + h[3], Join(h[7] * 0x402DA173 + h[6] * 0x50B75FC4 + h[5] * 0x45512319 + h[4], Join(h[7] * 0x50B75FC4 + h[6] * 0x45512319 + h[5], Join(h[7] * 0x45512319 + h[6], h[7])))))))))))
         == Val8(l) + Val8(h) * N_C
  {
  }

  lemma FoldColumnIs(lo: seq<Word>, hi: seq<Word>, k: nat)
    ensures FoldColumn(lo, hi, k) == At(lo, k) + At(hi, k) * 0x2FC9BEBF + At(hi, k - 1) * 0x402DA173
                                     + At(hi, k - 2) * 0x50B75FC4 + At(hi, k - 3) * 0x45512319 + At(hi, k - 4)
  {
    hide Prod;
    ConstantProducts(At(hi, k));
    ConstantProducts(At(hi, k - 1));
    ConstantProducts(At(hi, k - 2));
    ConstantProducts(At(hi, k - 3));
  }

  lemma FoldBound(lo: seq<Word>, hi: seq<Word>)
    requires |lo| == 8 && |hi| == 8
    ensures 0 <= Val8(lo) + High(hi) * N_C <= (TWO_256 - 1) * (N_C + 1)
  {
  }

  function Val13(m: seq<int>): int
    requires |m| == 13
  {
    Join(m[0], Join(m[1], Join(m[2], Join(m[3], Join(m[4], Join(m[5], Join(m[6], Join(m[7], Join(m[8], Join(m[9], Join(m[10], Join(m[11], m[12]))))))))))))
  }

  /** 512 bits into 385: what is left above 2^256 is at most N_C. */
  method FirstFold(lo: seq<Word>, hi: seq<Word>) returns (m: seq<Word>)
    requires |lo| == 8 && |hi| == 8
    ensures |m| == 13 && m[12] <= 1
    ensures Val13(m) == Val8(lo) + High(hi) * N_C
  {
    hide Prod, AccVal, FoldColumn, Val8, High, Join, Val13;
    var m0, m1, m2, m3, m4, c := FirstFold0To4(lo, hi);
    ghost var c1 := AccVal(c);
    var m5, m6, m7, m8;
    m5, m6, m7, m8, c := FirstFold5To8(lo, hi, c);
    ghost var c2 := AccVal(c);
    var m9, m10, m11;
    m9, m10, m11, c := FirstFold9To11(lo, hi, c);
    m := [m0, m1, m2, m3, m4, m5, m6, m7, m8, m9, m10, m11, c.c0];
    AccLow(c);
    FoldValue(lo, hi);
    GlueFirst(m, lo, hi, c1, c2);
    FoldBound(lo, hi);
    TopLimb(m);
  }

  lemma GlueFirst(m: seq<int>, lo: seq<Word>, hi: seq<Word>, c1: int, c2: int)
    requires |m| == 13 && |lo| == 8 && |hi| == 8
    requires Join(m[0], Join(m[1], Join(m[2], Join(m[3], Join(m[4], c1))))) == Join(FoldColumn(lo, hi, 0), Join(FoldColumn(lo, hi, 1), Join(FoldColumn(lo, hi, 2), Join(FoldColumn(lo, hi, 3), FoldColumn(lo, hi, 4)))))
    requires Join(m[5], Join(m[6], Join(m[7], Join(m[8], c2)))) == c1 + Join(FoldColumn(lo, hi, 5), Join(FoldColumn(lo, hi, 6), Join(FoldColumn(lo, hi, 7), FoldColumn(lo, hi, 8))))
    requires Join(m[9], Join(m[10], Join(m[11], m[12]))) == c2 + Join(FoldColumn(lo, hi, 9), Join(FoldColumn(lo, hi, 10), FoldColumn(lo, hi, 11)))
    ensures Val13(m) == Join(FoldColumn(lo, hi, 0), Join(FoldColumn(lo, hi, 1), Join(FoldColumn(lo, hi, 2), Join(FoldColumn(lo, hi, 3), Join(FoldColumn(lo, hi, 4), Join(FoldColumn(lo, hi, 5), Join(FoldColumn(lo, hi, 6), Join(FoldColumn(lo, hi, 7), Join(FoldColumn(lo, hi, 8), Join(FoldColumn(lo, hi, 9), Join(FoldColumn(lo, hi, 10), FoldColumn(lo, hi, 11))))))))))))
  {
    hide FoldColumn;
  }

  lemma TopLimb(m: seq<Word>)
    requires |m| == 13 && Val13(m) <= (TWO_256 - 1) * (N_C + 1)
    ensures m[12] <= 1
  {
  }

  /** The limbs of m above the eighth stand for at most N_C. */
  lemma HighAtMost(m: seq<Word>)
    requires |m| == 13 && Val13(m) <= (TWO_256 - 1) * (N_C + 1)
    ensures Val13(m) == Val8(m[..8]) + High(m[8..]) * TWO_256
    ensures 0 <= High(m[8..]) <= N_C
  {
  }

  /** 385 bits into 258. */
  method SecondFold(lo: seq<Word>, hi: seq<Word>) returns (p: seq<Word>, p8: Word)
    requires |lo| == 8 && |hi| == 5 && hi[4] <= 1 && High(hi) <= N_C
    ensures |p| == 8 && p8 <= 2
    ensures Val8(p) + p8 * TWO_256 == Val8(lo) + High(hi) * N_C
  {
    hide Prod, AccVal, FoldColumn, Val8, High, Join;
    var p0, p1, p2, p3, p4, c := SecondFold0To4(lo, hi);
    ghost var c1 := AccVal(c);
    var p5, p6, p7;
    p5, p6, p7, c := SecondFold5To7(lo, hi, c);
    p := [p0, p1, p2, p3, p4, p5, p6, p7];
    AccLow(c);
    var top: int := c.c0 + hi[4];
    FoldValue(lo, hi);
    LastColumns(lo, hi);
    GlueSecond(p, lo, hi, c1, c.c0);
    SecondBound(p, lo, hi, top);
    p8 := top;
  }

  lemma LastColumns(lo: seq<Word>, hi: seq<Word>)
    requires |lo| == 8 && |hi| == 5
    ensures FoldColumn(lo, hi, 8) == hi[4] && FoldColumn(lo, hi, 9) == 0 && FoldColumn(lo, hi, 10) == 0
    ensures FoldColumn(lo, hi, 11) == 0
  {
    ZeroProducts();
    hide Prod;
  }

  lemma GlueSecond(p: seq<int>, lo: seq<Word>, hi: seq<Word>, c1: int, c2: int)
    requires |p| == 8 && |lo| == 8 && |hi| == 5
    requires Join(p[0], Join(p[1], Join(p[2], Join(p[3], Join(p[4], c1))))) == Join(FoldColumn(lo, hi, 0), Join(FoldColumn(lo, hi, 1), Join(FoldColumn(lo, hi, 2), Join(FoldColumn(lo, hi, 3), FoldColumn(lo, hi, 4)))))
    requires Join(p[5], Join(p[6], Join(p[7], c2))) == c1 + Join(FoldColumn(lo, hi, 5), Join(FoldColumn(lo, hi, 6), FoldColumn(lo, hi, 7)))
    requires FoldColumn(lo, hi, 9) == 0 && FoldColumn(lo, hi, 10) == 0 && FoldColumn(lo, hi, 11) == 0
    ensures Val8(p) + (c2 + FoldColumn(lo, hi, 8)) * TWO_256 == Join(FoldColumn(lo, hi, 0), Join(FoldColumn(lo, hi, 1), Join(FoldColumn(lo, hi, 2), Join(FoldColumn(lo, hi, 3), Join(FoldColumn(lo, hi, 4), Join(FoldColumn(lo, hi, 5), Join(FoldColumn(lo, hi, 6), Join(FoldColumn(lo, hi, 7), Join(FoldColumn(lo, hi, 8), Join(FoldColumn(lo, hi, 9), Join(FoldColumn(lo, hi, 10), FoldColumn(lo, hi, 11))))))))))))
  {
    hide FoldColumn;
  }

  lemma SecondBound(p: seq<Word>, lo: seq<Word>, hi: seq<Word>, p8: int)
    requires |p| == 8 && |lo| == 8 && High(hi) <= N_C
    requires Val8(p) + p8 * TWO_256 == Val8(lo) + High(hi) * N_C
    ensures p8 <= 2
  {
    Val8Bound(lo);
    Val8Bound(p);
    hide Val8, High;
  }

  /** One addition with carry: the low word of t, and t shifted down. */
  function Low32(t: nat): (w: Word) { t % 0x1_0000_0000 }

  function High32(t: nat): (h: nat)
    ensures t == Join(Low32(t), h)
  {
    t / 0x1_0000_0000
  }

  type Word64 = x: int | 0 <= x < 0x1_0000_0000_0000_0000 witness 0

  /** Eight sums with the carry passed upwards in 64 bits, each limb cut to 32 bits. */
  method CarryChain(x: seq<nat>) returns (d: seq<Word>, carry: nat)
    requires |x| == 8 && forall i :: 0 <= i < 8 ==> x[i] < 0x8_0000_0000
    ensures |d| == 8 && Val8(x) == Val8(d) + carry * TWO_256 && carry < 0x10
  {
    hide Low32, High32;
    var t: Word64 := x[0];
    var d0 := Low32(t);
    t := NextSum(t, x[1]);
    var d1 := Low32(t);
    t := NextSum(t, x[2]);
    var d2 := Low32(t);
    t := NextSum(t, x[3]);
    var d3 := Low32(t);
    t := NextSum(t, x[4]);
    var d4 := Low32(t);
    t := NextSum(t, x[5]);
    var d5 := Low32(t);
    t := NextSum(t, x[6]);
    var d6 := Low32(t);
    t := NextSum(t, x[7]);
    var d7 := Low32(t);
    carry := High32(t);
    d := [d0, d1, d2, d3, d4, d5, d6, d7];
  }

  /** What stands above the limb that was cut off, and the next sum; it never comes near 64 bits. */
  function NextSum(t: Word64, x: nat): (s: Word64)
    requires t < 0x8_0000_0008 && x < 0x8_0000_0000
    ensures s == High32(t) + x && s < 0x8_0000_0008
  {
    High32(t) + x
  }
}
