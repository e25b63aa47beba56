/** Multiplication in the secp256k1 field on ten limbs of 26 bits, through two 64-bit accumulators that come within a
    factor of two of overflowing. */
module FieldProduct26 {
  import opened Arith
  import opened FP = FieldProduct

  type Word32 = x: int | 0 <= x < 0x1_00000000 witness 0

  function Join26(lo: int, hi: int): int { lo + OneLimbUp(hi) }

  function OneLimbUp(hi: int): int { hi * 0x4000000 }

  function Val10(x: seq<int>): int
    requires |x| == 10
  {
    Join26(x[0], Join26(x[1], Join26(x[2], Join26(x[3], Join26(x[4], Join26(x[5], Join26(x[6], Join26(x[7], Join26(x[8], x[9])))))))))
  }

  /** The bounds multiplication assumes: 30 bits, and 26 for the top limb. */
  predicate Wide26(a: seq<int>) {
    |a| == 10 && (forall i :: 0 <= i < 9 ==> 0 <= a[i] <= 0x3fffffff) && 0 <= a[9] <= 0x3ffffff
  }

  /** The column of weight 2^(26 k). */
  function Column26(x: seq<int>, y: seq<int>, k: nat): int
    requires |x| == 10 && |y| == 10 && k < 19
  {
    match k
    case 0 => Prod(x[0], y[0])
    case 1 => Prod(x[0], y[1]) + Prod(x[1], y[0])
    case 2 => Prod(x[0], y[2]) + Prod(x[1], y[1]) + Prod(x[2], y[0])
    case 3 => Prod(x[0], y[3]) + Prod(x[1], y[2]) + Prod(x[2], y[1]) + Prod(x[3], y[0])
    case 4 => Prod(x[0], y[4]) + Prod(x[1], y[3]) + Prod(x[2], y[2]) + Prod(x[3], y[1]) + Prod(x[4], y[0])
    case 5 => Prod(x[0], y[5]) + Prod(x[1], y[4]) + Prod(x[2], y[3]) + Prod(x[3], y[2]) + Prod(x[4], y[1]) + Prod(x[5], y[0])
    case 6 => Prod(x[0], y[6]) + Prod(x[1], y[5]) + Prod(x[2], y[4]) + Prod(x[3], y[3]) + Prod(x[4], y[2]) + Prod(x[5], y[1]) + Prod(x[6], y[0])
    case 7 => Prod(x[0], y[7]) + Prod(x[1], y[6]) + Prod(x[2], y[5]) + Prod(x[3], y[4]) + Prod(x[4], y[3]) + Prod(x[5], y[2]) + Prod(x[6], y[1]) + Prod(x[7], y[0])
    case 8 => Prod(x[0], y[8]) + Prod(x[1], y[7]) + Prod(x[2], y[6]) + Prod(x[3], y[5]) + Prod(x[4], y[4]) + Prod(x[5], y[3]) + Prod(x[6], y[2]) + Prod(x[7], y[1]) + Prod(x[8], y[0])
    case 9 => Prod(x[0], y[9]) + Prod(x[1], y[8]) + Prod(x[2], y[7]) + Prod(x[3], y[6]) + Prod(x[4], y[5]) + Prod(x[5], y[4]) + Prod(x[6], y[3]) + Prod(x[7], y[2]) + Prod(x[8], y[1]) + Prod(x[9], y[0])
    case 10 => Prod(x[1], y[9]) + Prod(x[2], y[8]) + Prod(x[3], y[7]) + Prod(x[4], y[6]) + Prod(x[5], y[5]) + Prod(x[6], y[4]) + Prod(x[7], y[3]) + Prod(x[8], y[2]) + Prod(x[9], y[1])
    case 11 => Prod(x[2], y[9]) + Prod(x[3], y[8]) + Prod(x[4], y[7]) + Prod(x[5], y[6]) + Prod(x[6], y[5]) + Prod(x[7], y[4]) + Prod(x[8], y[3]) + Prod(x[9], y[2])
    case 12 => Prod(x[3], y[9]) + Prod(x[4], y[8]) + Prod(x[5], y[7]) + Prod(x[6], y[6]) + Prod(x[7], y[5]) + Prod(x[8], y[4]) + Prod(x[9], y[3])
    case 13 => Prod(x[4], y[9]) + Prod(x[5], y[8]) + Prod(x[6], y[7]) + Prod(x[7], y[6]) + Prod(x[8], y[5]) + Prod(x[9], y[4])
    case 14 => Prod(x[5], y[9]) + Prod(x[6], y[8]) + Prod(x[7], y[7]) + Prod(x[8], y[6]) + Prod(x[9], y[5])
    case 15 => Prod(x[6], y[9]) + Prod(x[7], y[8]) + Prod(x[8], y[7]) + Prod(x[9], y[6])
    case 16 => Prod(x[7], y[9]) + Prod(x[8], y[8]) + Prod(x[9], y[7])
    case 17 => Prod(x[8], y[9]) + Prod(x[9], y[8])
    case 18 => Prod(x[9], y[9])
  }

  /** How large each column can get. */
  function ColumnMax26(k: nat): int
    requires k < 19
  {
    match k
    case 0 => 1 * 0xfffffff80000001
    case 1 => 2 * 0xfffffff80000001
    case 2 => 3 * 0xfffffff80000001
    case 3 => 4 * 0xfffffff80000001
    case 4 => 5 * 0xfffffff80000001
    case 5 => 6 * 0xfffffff80000001
    case 6 => 7 * 0xfffffff80000001
    case 7 => 8 * 0xfffffff80000001
    case 8 => 9 * 0xfffffff80000001
    case 9 => 8 * 0xfffffff80000001 + 2 * 0xffffffbc000001
    case 10 => 7 * 0xfffffff80000001 + 2 * 0xffffffbc000001
    case 11 => 6 * 0xfffffff80000001 + 2 * 0xffffffbc000001
    case 12 => 5 * 0xfffffff80000001 + 2 * 0xffffffbc000001
    case 13 => 4 * 0xfffffff80000001 + 2 * 0xffffffbc000001
    case 14 => 3 * 0xfffffff80000001 + 2 * 0xffffffbc000001
    case 15 => 2 * 0xfffffff80000001 + 2 * 0xffffffbc000001
    case 16 => 1 * 0xfffffff80000001 + 2 * 0xffffffbc000001
    case 17 => 2 * 0xffffffbc000001
    case 18 => 1 * 0xffffff8000001
  }

  lemma ColumnBound26(x: seq<int>, y: seq<int>, k: nat)
    requires Wide26(x) && Wide26(y) && k < 19
    ensures 0 <= Column26(x, y, k) <= ColumnMax26(k)
  {
    forall i, j | 0 <= i < 10 && 0 <= j < 10
      ensures 0 <= Prod(x[i], y[j]) <= if i < 9 && j < 9 then 0xfffffff80000001 else if i < 9 || j < 9 then 0xffffffbc000001 else 0xffffff8000001
    {
      ProdBound(x[i], y[j], if i < 9 then 0x3fffffff else 0x3ffffff, if j < 9 then 0x3fffffff else 0x3ffffff);
    }
    hide Prod;
  }

  // ----- the columns make up the product

  lemma Distribute10(x: int, y: seq<int>)
    requires |y| == 10
    ensures Prod(x, Val10(y)) == Join26(Prod(x, y[0]), Join26(Prod(x, y[1]), Join26(Prod(x, y[2]), Join26(Prod(x, y[3]), Join26(Prod(x, y[4]), Join26(Prod(x, y[5]), Join26(Prod(x, y[6]), Join26(Prod(x, y[7]), Join26(Prod(x, y[8]), Prod(x, y[9]))))))))))
  {
  }

  function Row26(x: int, y: seq<int>): int
    requires |y| == 10
  {
    Join26(Prod(x, y[0]), Join26(Prod(x, y[1]), Join26(Prod(x, y[2]), Join26(Prod(x, y[3]), Join26(Prod(x, y[4]), Join26(Prod(x, y[5]), Join26(Prod(x, y[6]), Join26(Prod(x, y[7]), Join26(Prod(x, y[8]), Prod(x, y[9]))))))))))
  }

  /** The products of five rows whose weight is 2^(26 k). */
  function HalfColumn26(x: seq<int>, y: seq<int>, k: nat): int
    requires |x| == 5 && |y| == 10 && k < 14
  {
    match k
    case 0 => Prod(x[0], y[0])
    case 1 => Prod(x[0], y[1]) + Prod(x[1], y[0])
    case 2 => Prod(x[0], y[2]) + Prod(x[1], y[1]) + Prod(x[2], y[0])
    case 3 => Prod(x[0], y[3]) + Prod(x[1], y[2]) + Prod(x[2], y[1]) + Prod(x[3], y[0])
    case 4 => Prod(x[0], y[4]) + Prod(x[1], y[3]) + Prod(x[2], y[2]) + Prod(x[3], y[1]) + Prod(x[4], y[0])
    case 5 => Prod(x[0], y[5]) + Prod(x[1], y[4]) + Prod(x[2], y[3]) + Prod(x[3], y[2]) + Prod(x[4], y[1])
    case 6 => Prod(x[0], y[6]) + Prod(x[1], y[5]) + Prod(x[2], y[4]) + Prod(x[3], y[3]) + Prod(x[4], y[2])
    case 7 => Prod(x[0], y[7]) + Prod(x[1], y[6]) + Prod(x[2], y[5]) + Prod(x[3], y[4]) + Prod(x[4], y[3])
    case 8 => Prod(x[0], y[8]) + Prod(x[1], y[7]) + Prod(x[2], y[6]) + Prod(x[3], y[5]) + Prod(x[4], y[4])
    case 9 => Prod(x[0], y[9]) + Prod(x[1], y[8]) + Prod(x[2], y[7]) + Prod(x[3], y[6]) + Prod(x[4], y[5])
    case 10 => Prod(x[1], y[9]) + Prod(x[2], y[8]) + Prod(x[3], y[7]) + Prod(x[4], y[6])
    case 11 => Prod(x[2], y[9]) + Prod(x[3], y[8]) + Prod(x[4], y[7])
    case 12 => Prod(x[3], y[9]) + Prod(x[4], y[8])
    case 13 => Prod(x[4], y[9])
  }

  lemma HalfRows26(x: seq<int>, y: seq<int>)
    requires |x| == 5 && |y| == 10
    ensures Join26(Row26(x[0], y), Join26(Row26(x[1], y), Join26(Row26(x[2], y), Join26(Row26(x[3], y), Row26(x[4], y)))))
         == Join26(HalfColumn26(x, y, 0), Join26(HalfColumn26(x, y, 1), Join26(HalfColumn26(x, y, 2), Join26(HalfColumn26(x, y, 3), Join26(HalfColumn26(x, y, 4), Join26(HalfColumn26(x, y, 5), Join26(HalfColumn26(x, y, 6), Join26(HalfColumn26(x, y, 7), Join26(HalfColumn26(x, y, 8), Join26(HalfColumn26(x, y, 9), Join26(HalfColumn26(x, y, 10), Join26(HalfColumn26(x, y, 11), Join26(HalfColumn26(x, y, 12), HalfColumn26(x, y, 13))))))))))))))
  {
    hide Prod, Join26;
    FiveRows([Prod(x[0], y[0]), Prod(x[0], y[1]), Prod(x[0], y[2]), Prod(x[0], y[3]), Prod(x[0], y[4]), Prod(x[0], y[5]), Prod(x[0], y[6]), Prod(x[0], y[7]), Prod(x[0], y[8]), Prod(x[0], y[9])],
             [Prod(x[1], y[0]), Prod(x[1], y[1]), Prod(x[1], y[2]), Prod(x[1], y[3]), Prod(x[1], y[4]), Prod(x[1], y[5]), Prod(x[1], y[6]), Prod(x[1], y[7]), Prod(x[1], y[8]), Prod(x[1], y[9])],
             [Prod(x[2], y[0]), Prod(x[2], y[1]), Prod(x[2], y[2]), Prod(x[2], y[3]), Prod(x[2], y[4]), Prod(x[2], y[5]), Prod(x[2], y[6]), Prod(x[2], y[7]), Prod(x[2], y[8]), Prod(x[2], y[9])],
             [Prod(x[3], y[0]), Prod(x[3], y[1]), Prod(x[3], y[2]), Prod(x[3], y[3]), Prod(x[3], y[4]), Prod(x[3], y[5]), Prod(x[3], y[6]), Prod(x[3], y[7]), Prod(x[3], y[8]), Prod(x[3], y[9])],
             [Prod(x[4], y[0]), Prod(x[4], y[1]), Prod(x[4], y[2]), Prod(x[4], y[3]), Prod(x[4], y[4]), Prod(x[4], y[5]), Prod(x[4], y[6]), Prod(x[4], y[7]), Prod(x[4], y[8]), Prod(x[4], y[9])]);
  }

  lemma FiveRows(q0: seq<int>, q1: seq<int>, q2: seq<int>, q3: seq<int>, q4: seq<int>)
    requires |q0| == 10 && |q1| == 10 && |q2| == 10 && |q3| == 10 && |q4| == 10
    ensures Join26(Join26(q0[0], Join26(q0[1], Join26(q0[2], Join26(q0[3], Join26(q0[4], Join26(q0[5], Join26(q0[6], Join26(q0[7], Join26(q0[8], q0[9]))))))))), Join26(Join26(q1[0], Join26(q1[1], Join26(q1[2], Join26(q1[3], Join26(q1[4], Join26(q1[5], Join26(q1[6], Join26(q1[7], Join26(q1[8], q1[9]))))))))), Join26(Join26(q2[0], Join26(q2[1], Join26(q2[2], Join26(q2[3], Join26(q2[4], Join26(q2[5], Join26(q2[6], Join26(q2[7], Join26(q2[8], q2[9]))))))))), Join26(Join26(q3[0], Join26(q3[1], Join26(q3[2], Join26(q3[3], Join26(q3[4], Join26(q3[5], Join26(q3[6], Join26(q3[7], Join26(q3[8], q3[9]))))))))), Join26(q4[0], Join26(q4[1], Join26(q4[2], Join26(q4[3], Join26(q4[4], Join26(q4[5], Join26(q4[6], Join26(q4[7], Join26(q4[8], q4[9])))))))))))))
         == Join26(q0[0], Join26(q0[1] + q1[0], Join26(q0[2] + q1[1] + q2[0], Join26(q0[3] + q1[2] + q2[1] + q3[0], Join26(q0[4] + q1[3] + q2[2] + q3[1] + q4[0], Join26(q0[5] + q1[4] + q2[3] + q3[2] + q4[1], Join26(q0[6] + q1[5] + q2[4] + q3[3] + q4[2], Join26(q0[7] + q1[6] + q2[5] + q3[4] + q4[3], Join26(q0[8] + q1[7] + q2[6] + q3[5] + q4[4], Join26(q0[9] + q1[8] + q2[7] + q3[6] + q4[5], Join26(q1[9] + q2[8] + q3[7] + q4[6], Join26(q2[9] + q3[8] + q4[7], Join26(q3[9] + q4[8], q4[9])))))))))))))
  {
  }

  lemma ColumnHalves26(x: seq<int>, y: seq<int>, k: nat)
    requires |x| == 10 && |y| == 10 && k < 19
    ensures Column26(x, y, k) == (if k < 14 then HalfColumn26(x[..5], y, k) else 0)
                                 + (if k >= 5 then HalfColumn26(x[5..], y, k - 5) else 0)
  {
    hide Prod;
  }

  /** All nineteen columns as one number. */
  function ColumnTotal(p: seq<int>): int
    requires |p| == 19
  {
    Join26(p[0], Join26(p[1], Join26(p[2], Join26(p[3], Join26(p[4], Join26(p[5], Join26(p[6], Join26(p[7], Join26(p[8], Join26(p[9], Join26(p[10], Join26(p[11], Join26(p[12], Join26(p[13], Join26(p[14], Join26(p[15], Join26(p[16], Join26(p[17], p[18]))))))))))))))))))
  }

  lemma RowsAndColumns26(x: seq<int>, y: seq<int>, p: seq<int>)
    requires |x| == 10 && |y| == 10 && |p| == 19 && forall k :: 0 <= k < 19 ==> p[k] == Column26(x, y, k)
    ensures ColumnTotal(p) == Join26(Row26(x[0], y), Join26(Row26(x[1], y), Join26(Row26(x[2], y), Join26(Row26(x[3], y), Join26(Row26(x[4], y), Join26(Row26(x[5], y), Join26(Row26(x[6], y), Join26(Row26(x[7], y), Join26(Row26(x[8], y), Row26(x[9], y))))))))))
  {
    hide Prod, Row26, HalfColumn26, Column26;
    HalfRows26(x[..5], y);
    HalfRows26(x[5..], y);

    ColumnHalves26(x, y, 0);
    ColumnHalves26(x, y, 1);
    ColumnHalves26(x, y, 2);
    ColumnHalves26(x, y, 3);
    ColumnHalves26(x, y, 4);
    ColumnHalves26(x, y, 5);
    ColumnHalves26(x, y, 6);
    ColumnHalves26(x, y, 7);
    ColumnHalves26(x, y, 8);
    ColumnHalves26(x, y, 9);
    ColumnHalves26(x, y, 10);
    ColumnHalves26(x, y, 11);
    ColumnHalves26(x, y, 12);
    ColumnHalves26(x, y, 13);
    ColumnHalves26(x, y, 14);
    ColumnHalves26(x, y, 15);
    ColumnHalves26(x, y, 16);
    ColumnHalves26(x, y, 17);
    ColumnHalves26(x, y, 18);
    TwoHalves(p, [HalfColumn26(x[..5], y, 0), HalfColumn26(x[..5], y, 1), HalfColumn26(x[..5], y, 2), HalfColumn26(x[..5], y, 3), HalfColumn26(x[..5], y, 4), HalfColumn26(x[..5], y, 5), HalfColumn26(x[..5], y, 6), HalfColumn26(x[..5], y, 7), HalfColumn26(x[..5], y, 8), HalfColumn26(x[..5], y, 9), HalfColumn26(x[..5], y, 10), HalfColumn26(x[..5], y, 11), HalfColumn26(x[..5], y, 12), HalfColumn26(x[..5], y, 13)],
              [HalfColumn26(x[5..], y, 0), HalfColumn26(x[5..], y, 1), HalfColumn26(x[5..], y, 2), HalfColumn26(x[5..], y, 3), HalfColumn26(x[5..], y, 4), HalfColumn26(x[5..], y, 5), HalfColumn26(x[5..], y, 6), HalfColumn26(x[5..], y, 7), HalfColumn26(x[5..], y, 8), HalfColumn26(x[5..], y, 9), HalfColumn26(x[5..], y, 10), HalfColumn26(x[5..], y, 11), HalfColumn26(x[5..], y, 12), HalfColumn26(x[5..], y, 13)]);
  }

  lemma TwoHalves(p: seq<int>, lo: seq<int>, hi: seq<int>)
    requires |p| == 19 && |lo| == 14 && |hi| == 14
    requires p[0] == lo[0]
    requires p[1] == lo[1]
    requires p[2] == lo[2]
    requires p[3] == lo[3]
    requires p[4] == lo[4]
    requires p[5] == lo[5] + hi[0]
    requires p[6] == lo[6] + hi[1]
    requires p[7] == lo[7] + hi[2]
    requires p[8] == lo[8] + hi[3]
    requires p[9] == lo[9] + hi[4]
    requires p[10] == lo[10] + hi[5]
    requires p[11] == lo[11] + hi[6]
    requires p[12] == lo[12] + hi[7]
    requires p[13] == lo[13] + hi[8]
    requires p[14] == hi[9]
    requires p[15] == hi[10]
    requires p[16] == hi[11]
    requires p[17] == hi[12]
    requires p[18] == hi[13]
    ensures ColumnTotal(p) == Join26(lo[0], Join26(lo[1], Join26(lo[2], Join26(lo[3], Join26(lo[4], Join26(lo[5], Join26(lo[6], Join26(lo[7], Join26(lo[8], Join26(lo[9], Join26(lo[10], Join26(lo[11], Join26(lo[12], lo[13]))))))))))))) + 0x4_00000000_00000000_00000000_00000000 * Join26(hi[0], Join26(hi[1], Join26(hi[2], Join26(hi[3], Join26(hi[4], Join26(hi[5], Join26(hi[6], Join26(hi[7], Join26(hi[8], Join26(hi[9], Join26(hi[10], Join26(hi[11], Join26(hi[12], hi[13])))))))))))))
  {
  }

  lemma ColumnsAreProduct26(x: seq<int>, y: seq<int>, p: seq<int>)
    requires |x| == 10 && |y| == 10 && |p| == 19 && forall k :: 0 <= k < 19 ==> p[k] == Column26(x, y, k)
    ensures ColumnTotal(p) == Prod(Val10(x), Val10(y))
  {
    hide Prod, Val10, Column26, Join26, ColumnTotal;
    var v := Val10(y);
    Distribute10(v, x);
    ProdCommutes(v, Val10(x));
    forall i | 0 <= i < 10
      ensures Row26(x[i], y) == Prod(v, x[i])
    {
      Distribute10(x[i], y);
      ProdCommutes(v, x[i]);
    }
    RowsAndColumns26(x, y, p);
  }

  // ----- folding

  const R_LOW: int := 0x3D10
  const R_HIGH: int := 0x400

  function Low26(t: nat): (l: nat)
    ensures l < 0x4000000
  {
    t % 0x4000000
  }

  function High26(t: nat): (h: nat)
    ensures t == Join26(Low26(t), h)
  {
    t / 0x4000000
  }

  /** One limb of the result: the upper column is folded into the lower one, 2^260 being congruent to R. */
  method FoldLimb(low: nat, high: nat, c0: nat, d0: nat) returns (t: nat, c: nat, d: nat, ghost u: nat)
    requires low + c0 + R_LOW * 0x3ffffff < 0x1_00000000_00000000 && high + d0 < 0x1_00000000_00000000
    ensures t < 0x4000000 && u < 0x4000000
    ensures Join26(0, d) <= high + d0 && Join26(0, c) <= low + c0 + R_LOW * 0x3ffffff + Join26(0, R_HIGH * 0x3ffffff)
    ensures low + c0 + (high + d0) * 0x10_00000000_00000000_00000000_00000000_00000000_00000000_00000000_00000000 == Join26(t, c) + d * 0x40000000_00000000_00000000_00000000_00000000_00000000_00000000_00000000_00000000 + u * (0x10_00000000_00000000_00000000_00000000_00000000_00000000_00000000_00000000 - R)
  {
    hide Low26, High26;
    c := c0 + low;
    d := d0 + high;
    u := Low26(d);
    var u0 := Low26(d);
    d := High26(d);
    c := c + u0 * R_LOW;
    t := Low26(c);
    c := High26(c);
    c := c + u0 * R_HIGH;
  }

  /** Three limbs in a row. */
  function Sum3(p: seq<int>, k: nat): int
    requires k + 3 <= |p|
  {
    Join26(p[k], Join26(p[k + 1], p[k + 2]))
  }

  method FoldFirst(p: seq<nat>, d0: nat) returns (t: seq<nat>, c: nat, d: nat, ghost u: nat)
    requires |p| == 19 && (forall i :: 0 <= i < 19 ==> p[i] <= ColumnMax26(i)) && d0 < 0x40_00000000
    ensures |t| == 3 && (forall i :: 0 <= i < 3 ==> t[i] < 0x4000000) && c < 0x40_00000000 && d < 0x20_00000000
    ensures Sum3(p, 0) + (Sum3(p, 10) + d0) * 0x10_00000000_00000000_00000000_00000000_00000000_00000000_00000000_00000000 == Sum3(t, 0) + c * 0x4000_00000000_00000000 + d * 0x40000_00000000_00000000_00000000_00000000_00000000_00000000_00000000_00000000_00000000_00000000 + u * (0x10_00000000_00000000_00000000_00000000_00000000_00000000_00000000_00000000 - R)
  {
    var t0, c1, d1, u0 := FoldLimb(p[0], p[10], 0, d0);
    assert c1 < 0x20_00000000 && d1 < 0x20_00000000;
    var t1, c2, d2, u1 := FoldLimb(p[1], p[11], c1, d1);
    assert c2 < 0x40_00000000 && d2 < 0x20_00000000;
    var t2, c3, d3, u2 := FoldLimb(p[2], p[12], c2, d2);
    t, c, d, u := [t0, t1, t2], c3, d3, Join26(u0, Join26(u1, u2));
  }

  method FoldSecond(p: seq<nat>, c0: nat, d0: nat) returns (t: seq<nat>, c: nat, d: nat, ghost u: nat)
    requires |p| == 19 && (forall i :: 0 <= i < 19 ==> p[i] <= ColumnMax26(i)) && c0 < 0x40_00000000 && d0 < 0x20_00000000
    ensures |t| == 3 && (forall i :: 0 <= i < 3 ==> t[i] < 0x4000000) && c < 0x80_00000000 && d < 0x10_00000000
    ensures Sum3(p, 3) + c0 + (Sum3(p, 13) + d0) * 0x10_00000000_00000000_00000000_00000000_00000000_00000000_00000000_00000000 == Sum3(t, 0) + c * 0x4000_00000000_00000000 + d * 0x40000_00000000_00000000_00000000_00000000_00000000_00000000_00000000_00000000_00000000_00000000 + u * (0x10_00000000_00000000_00000000_00000000_00000000_00000000_00000000_00000000 - R)
  {
    var t0, c1, d1, u0 := FoldLimb(p[3], p[13], c0, d0);
    assert c1 < 0x80_00000000 && d1 < 0x20_00000000;
    var t1, c2, d2, u1 := FoldLimb(p[4], p[14], c1, d1);
    assert c2 < 0x80_00000000 && d2 < 0x10_00000000;
    var t2, c3, d3, u2 := FoldLimb(p[5], p[15], c2, d2);
    t, c, d, u := [t0, t1, t2], c3, d3, Join26(u0, Join26(u1, u2));
  }

  method FoldThird(p: seq<nat>, c0: nat, d0: nat) returns (t: seq<nat>, c: nat, d: nat, ghost u: nat)
    requires |p| == 19 && (forall i :: 0 <= i < 19 ==> p[i] <= ColumnMax26(i)) && c0 < 0x80_00000000 && d0 < 0x10_00000000
    ensures |t| == 3 && (forall i :: 0 <= i < 3 ==> t[i] < 0x4000000) && c < 0x80_00000000 && d < 0x8000000
    ensures Sum3(p, 6) + c0 + (Sum3(p, 16) + d0) * 0x10_00000000_00000000_00000000_00000000_00000000_00000000_00000000_00000000 == Sum3(t, 0) + c * 0x4000_00000000_00000000 + d * 0x40000_00000000_00000000_00000000_00000000_00000000_00000000_00000000_00000000_00000000_00000000 + u * (0x10_00000000_00000000_00000000_00000000_00000000_00000000_00000000_00000000 - R)
  {
    var t0, c1, d1, u0 := FoldLimb(p[6], p[16], c0, d0);
    assert c1 < 0x80_00000000 && d1 < 0x8_00000000;
    assert p[7] + c1 <= 0x8000007C00000007;
    var t1, c2, d2, u1 := FoldLimb(p[7], p[17], c1, d1);
    assert c2 < 0x80_00000000 && d2 < 0x1_00000000;
    assert p[8] + c2 <= 0x9000007B80000008;
    assert p[8] + c2 + R_LOW * 0x3ffffff <= 0x9000016FBFFFC2F8;
    var t2, c3, d3, u2 := FoldLimb(p[8], p[18], c2, d2);
    t, c, d, u := [t0, t1, t2], c3, d3, Join26(u0, Join26(u1, u2));
  }

  /** What is left above bit 256 goes back to the two bottom limbs. */
  method Bottom(c0: nat, d0: nat, t9: nat, t0: nat, t1: nat, t2: nat)
    returns (r0: nat, r1: nat, r2: nat, r9: nat, ghost q: nat)
    requires c0 < 0x80_00000000 && d0 < 0x8000000 && t9 < 0x4000000 && t0 < 0x4000000 && t1 < 0x4000000 && t2 < 0x4000000
    ensures r0 < 0x4000000 && r1 < 0x4000000 && r2 <= 2 * 0x3ffffff && r9 < 0x400000
    ensures Join26(t0, Join26(t1, t2)) + (c0 + t9) * 0x400_00000000_00000000_00000000_00000000_00000000_00000000_00000000 + d0 * 0x4000_00000000_00000000_00000000_00000000_00000000_00000000_00000000_00000000_00000000_00000000_00000000_00000000_00000000_00000000_00000000
         == Join26(r0, Join26(r1, r2)) + r9 * 0x400_00000000_00000000_00000000_00000000_00000000_00000000_00000000 + q * P
  {
    hide Low26, High26;
    var c := c0 + d0 * R_LOW + t9;
    assert c < 0x2000_00000000;
    r9 := c % 0x400000;
    c := c / 0x400000;
    ghost var c1 := c;
    c := c + d0 * (R_HIGH * 0x10);
    assert c < 0x4000_00000000;
    var d := c * (R_LOW / 0x10) + t0;
    assert d < 0x1000000_00000000;
    r0 := Low26(d);
    ghost var d1 := d;
    d := High26(d);
    assert d < 0x40000000;
    d := d + c * (R_HIGH / 0x10) + t1;
    assert d <= 0x10000003FFFFBF;
    r1 := Low26(d);
    d := High26(d);
    assert d <= 0x4000000;
    d := d + t2;
    r2 := d;
    q := c + d0 * 0x10 * 0x400_00000000_00000000_00000000_00000000_00000000_00000000_00000000;
  }

  /** Folds the nineteen columns into ten limbs without changing the value modulo P. */
  method FoldColumns26(p: seq<nat>) returns (r: seq<Word32>, ghost k: int)
    requires |p| == 19 && forall i :: 0 <= i < 19 ==> p[i] <= ColumnMax26(i)
    ensures |r| == 10 && (forall i :: 0 <= i < 9 ==> r[i] <= 2 * 0x3ffffff) && r[9] < 0x400000
    ensures ColumnTotal(p) == Val10(r) + k * P
  {
    hide Low26, High26, Val10, ColumnTotal, Join26;
    var t9, d := Low26(p[9]), High26(p[9]);
    TopColumn(p[9], t9, d);
    ghost var d1 := d;
    var t, c, d2, u1 := FoldFirst(p, d);
    var s, c2, d3, u2 := FoldSecond(p, c, d2);
    var w, c3, d4, u3 := FoldThird(p, c2, d3);
    var r0, r1, r2, r9, q := Bottom(c3, d4, t9, t[0], t[1], t[2]);
    r := [r0, r1, r2, s[0], s[1], s[2], w[0], w[1], w[2], r9];
    k := FoldTotal(p, r, t, t9, [d1, d2, d3, d4], [c, c2, c3], [u1, u2, u3], q);
  }

  lemma TopColumn(p9: nat, t9: nat, d: nat)
    requires p9 <= ColumnMax26(9) && t9 == Low26(p9) && d == High26(p9)
    ensures d < 0x40_00000000 && p9 == Join26(t9, d)
  {
    hide Low26;
  }

  /** The steps put together; the answer is the multiple of P that was taken off. */
  lemma FoldTotal(p: seq<int>, r: seq<int>, t: seq<int>, t9: int, d: seq<int>, c: seq<int>, u: seq<int>, q: int) returns (k: int)
    requires |p| == 19 && |r| == 10 && |t| == 3 && |d| == 4 && |c| == 3 && |u| == 3
    requires p[9] == Join26(t9, d[0])
    requires Sum3(p, 0) + (Sum3(p, 10) + d[0]) * 0x10_00000000_00000000_00000000_00000000_00000000_00000000_00000000_00000000 == Sum3(t, 0) + c[0] * 0x4000_00000000_00000000 + d[1] * 0x40000_00000000_00000000_00000000_00000000_00000000_00000000_00000000_00000000_00000000_00000000 + u[0] * (0x10_00000000_00000000_00000000_00000000_00000000_00000000_00000000_00000000 - R)
    requires Sum3(p, 3) + c[0] + (Sum3(p, 13) + d[1]) * 0x10_00000000_00000000_00000000_00000000_00000000_00000000_00000000_00000000 == Sum3(r, 3) + c[1] * 0x4000_00000000_00000000 + d[2] * 0x40000_00000000_00000000_00000000_00000000_00000000_00000000_00000000_00000000_00000000_00000000 + u[1] * (0x10_00000000_00000000_00000000_00000000_00000000_00000000_00000000_00000000 - R)
    requires Sum3(p, 6) + c[1] + (Sum3(p, 16) + d[2]) * 0x10_00000000_00000000_00000000_00000000_00000000_00000000_00000000_00000000 == Sum3(r, 6) + c[2] * 0x4000_00000000_00000000 + d[3] * 0x40000_00000000_00000000_00000000_00000000_00000000_00000000_00000000_00000000_00000000_00000000 + u[2] * (0x10_00000000_00000000_00000000_00000000_00000000_00000000_00000000_00000000 - R)
    requires Sum3(t, 0) + (c[2] + t9) * 0x400_00000000_00000000_00000000_00000000_00000000_00000000_00000000 + d[3] * 0x4000_00000000_00000000_00000000_00000000_00000000_00000000_00000000_00000000_00000000_00000000_00000000_00000000_00000000_00000000_00000000 == Sum3(r, 0) + r[9] * 0x400_00000000_00000000_00000000_00000000_00000000_00000000_00000000 + q * P
    ensures ColumnTotal(p) == Val10(r) + k * P
  {
    k := q + 0x10 * (u[0] + u[1] * 0x4000_00000000_00000000 + u[2] * 0x10000000_00000000_00000000_00000000_00000000);
    TotalBySums(p);
    ValBySums(r);
    hide Sum3, ColumnTotal, Val10;
  }

  lemma TotalBySums(p: seq<int>)
    requires |p| == 19
    ensures ColumnTotal(p) == Sum3(p, 0) + Sum3(p, 3) * 0x4000_00000000_00000000 + Sum3(p, 6) * 0x10000000_00000000_00000000_00000000_00000000 + p[9] * 0x400_00000000_00000000_00000000_00000000_00000000_00000000_00000000
                              + Sum3(p, 10) * 0x10_00000000_00000000_00000000_00000000_00000000_00000000_00000000_00000000 + Sum3(p, 13) * 0x40000_00000000_00000000_00000000_00000000_00000000_00000000_00000000_00000000_00000000_00000000 + Sum3(p, 16) * 0x1_00000000_00000000_00000000_00000000_00000000_00000000_00000000_00000000_00000000_00000000_00000000_00000000_00000000
  {
  }

  lemma ValBySums(r: seq<int>)
    requires |r| == 10
    ensures Val10(r) == Sum3(r, 0) + Sum3(r, 3) * 0x4000_00000000_00000000 + Sum3(r, 6) * 0x10000000_00000000_00000000_00000000_00000000 + r[9] * 0x400_00000000_00000000_00000000_00000000_00000000_00000000_00000000
  {
  }

  // ----- products and squares

  method MulColumnsLow(a: seq<int>, b: seq<int>) returns (p: seq<nat>)
    requires Wide26(a) && Wide26(b)
    ensures |p| == 10 && forall i :: 0 <= i < 10 ==> p[i] == Column26(a, b, i) && p[i] <= ColumnMax26(i)
  {
    hide Prod, ColumnMax26;
    ColumnBound26(a, b, 0);
    ColumnBound26(a, b, 1);
    ColumnBound26(a, b, 2);
    ColumnBound26(a, b, 3);
    ColumnBound26(a, b, 4);
    ColumnBound26(a, b, 5);
    ColumnBound26(a, b, 6);
    ColumnBound26(a, b, 7);
    ColumnBound26(a, b, 8);
    ColumnBound26(a, b, 9);
    p := [Prod(a[0], b[0]),
          Prod(a[0], b[1]) + Prod(a[1], b[0]),
          Prod(a[0], b[2]) + Prod(a[1], b[1]) + Prod(a[2], b[0]),
          Prod(a[0], b[3]) + Prod(a[1], b[2]) + Prod(a[2], b[1]) + Prod(a[3], b[0]),
          Prod(a[0], b[4]) + Prod(a[1], b[3]) + Prod(a[2], b[2]) + Prod(a[3], b[1]) + Prod(a[4], b[0]),
          Prod(a[0], b[5]) + Prod(a[1], b[4]) + Prod(a[2], b[3]) + Prod(a[3], b[2]) + Prod(a[4], b[1]) + Prod(a[5], b[0]),
          Prod(a[0], b[6]) + Prod(a[1], b[5]) + Prod(a[2], b[4]) + Prod(a[3], b[3]) + Prod(a[4], b[2]) + Prod(a[5], b[1]) + Prod(a[6], b[0]),
          Prod(a[0], b[7]) + Prod(a[1], b[6]) + Prod(a[2], b[5]) + Prod(a[3], b[4]) + Prod(a[4], b[3]) + Prod(a[5], b[2]) + Prod(a[6], b[1]) + Prod(a[7], b[0]),
          Prod(a[0], b[8]) + Prod(a[1], b[7]) + Prod(a[2], b[6]) + Prod(a[3], b[5]) + Prod(a[4], b[4]) + Prod(a[5], b[3]) + Prod(a[6], b[2]) + Prod(a[7], b[1]) + Prod(a[8], b[0]),
          Prod(a[0], b[9]) + Prod(a[1], b[8]) + Prod(a[2], b[7]) + Prod(a[3], b[6]) + Prod(a[4], b[5]) + Prod(a[5], b[4]) + Prod(a[6], b[3]) + Prod(a[7], b[2]) + Prod(a[8], b[1]) + Prod(a[9], b[0])];
  }

  method MulColumnsHigh(a: seq<int>, b: seq<int>) returns (p: seq<nat>)
    requires Wide26(a) && Wide26(b)
    ensures |p| == 9 && forall i :: 0 <= i < 9 ==> p[i] == Column26(a, b, i + 10) && p[i] <= ColumnMax26(i + 10)
  {
    hide Prod, ColumnMax26;
    ColumnBound26(a, b, 10);
    ColumnBound26(a, b, 11);
    ColumnBound26(a, b, 12);
    ColumnBound26(a, b, 13);
    ColumnBound26(a, b, 14);
    ColumnBound26(a, b, 15);
    ColumnBound26(a, b, 16);
    ColumnBound26(a, b, 17);
    ColumnBound26(a, b, 18);
    p := [Prod(a[1], b[9]) + Prod(a[2], b[8]) + Prod(a[3], b[7]) + Prod(a[4], b[6]) + Prod(a[5], b[5]) + Prod(a[6], b[4]) + Prod(a[7], b[3]) + Prod(a[8], b[2]) + Prod(a[9], b[1]),
          Prod(a[2], b[9]) + Prod(a[3], b[8]) + Prod(a[4], b[7]) + Prod(a[5], b[6]) + Prod(a[6], b[5]) + Prod(a[7], b[4]) + Prod(a[8], b[3]) + Prod(a[9], b[2]),
          Prod(a[3], b[9]) + Prod(a[4], b[8]) + Prod(a[5], b[7]) + Prod(a[6], b[6]) + Prod(a[7], b[5]) + Prod(a[8], b[4]) + Prod(a[9], b[3]),
          Prod(a[4], b[9]) + Prod(a[5], b[8]) + Prod(a[6], b[7]) + Prod(a[7], b[6]) + Prod(a[8], b[5]) + Prod(a[9], b[4]),
          Prod(a[5], b[9]) + Prod(a[6], b[8]) + Prod(a[7], b[7]) + Prod(a[8], b[6]) + Prod(a[9], b[5]),
          Prod(a[6], b[9]) + Prod(a[7], b[8]) + Prod(a[8], b[7]) + Prod(a[9], b[6]),
          Prod(a[7], b[9]) + Prod(a[8], b[8]) + Prod(a[9], b[7]),
          Prod(a[8], b[9]) + Prod(a[9], b[8]),
          Prod(a[9], b[9])];
  }

  lemma Doubled(a: seq<int>)
    requires |a| == 10
    ensures forall i, j :: 0 <= i < 10 && 0 <= j < 10 ==> Prod(a[i] * 2, a[j]) == Prod(a[i], a[j]) + Prod(a[j], a[i])
  {
  }

  method SqrColumnsLow(a: seq<int>) returns (p: seq<nat>)
    requires Wide26(a)
    ensures |p| == 10 && forall i :: 0 <= i < 10 ==> p[i] == Column26(a, a, i) && p[i] <= ColumnMax26(i)
  {
    hide Prod, ColumnMax26;
    assert forall i :: 0 <= i < 10 ==> a[i] * 2 < 0x1_00000000;
    Doubled(a);
    ColumnBound26(a, a, 0);
    ColumnBound26(a, a, 1);
    ColumnBound26(a, a, 2);
    ColumnBound26(a, a, 3);
    ColumnBound26(a, a, 4);
    ColumnBound26(a, a, 5);
    ColumnBound26(a, a, 6);
    ColumnBound26(a, a, 7);
    ColumnBound26(a, a, 8);
    ColumnBound26(a, a, 9);
    p := [Prod(a[0], a[0]),
          Prod(a[0] * 2, a[1]),
          Prod(a[0] * 2, a[2]) + Prod(a[1], a[1]),
          Prod(a[0] * 2, a[3]) + Prod(a[1] * 2, a[2]),
          Prod(a[0] * 2, a[4]) + Prod(a[1] * 2, a[3]) + Prod(a[2], a[2]),
          Prod(a[0] * 2, a[5]) + Prod(a[1] * 2, a[4]) + Prod(a[2] * 2, a[3]),
          Prod(a[0] * 2, a[6]) + Prod(a[1] * 2, a[5]) + Prod(a[2] * 2, a[4]) + Prod(a[3], a[3]),
          Prod(a[0] * 2, a[7]) + Prod(a[1] * 2, a[6]) + Prod(a[2] * 2, a[5]) + Prod(a[3] * 2, a[4]),
          Prod(a[0] * 2, a[8]) + Prod(a[1] * 2, a[7]) + Prod(a[2] * 2, a[6]) + Prod(a[3] * 2, a[5]) + Prod(a[4], a[4]),
          Prod(a[0] * 2, a[9]) + Prod(a[1] * 2, a[8]) + Prod(a[2] * 2, a[7]) + Prod(a[3] * 2, a[6]) + Prod(a[4] * 2, a[5])];
  }

  method SqrColumnsHigh(a: seq<int>) returns (p: seq<nat>)
    requires Wide26(a)
    ensures |p| == 9 && forall i :: 0 <= i < 9 ==> p[i] == Column26(a, a, i + 10) && p[i] <= ColumnMax26(i + 10)
  {
    hide Prod, ColumnMax26;
    assert forall i :: 0 <= i < 10 ==> a[i] * 2 < 0x1_00000000;
    Doubled(a);
    ColumnBound26(a, a, 10);
    ColumnBound26(a, a, 11);
    ColumnBound26(a, a, 12);
    ColumnBound26(a, a, 13);
    ColumnBound26(a, a, 14);
    ColumnBound26(a, a, 15);
    ColumnBound26(a, a, 16);
    ColumnBound26(a, a, 17);
    ColumnBound26(a, a, 18);
    p := [Prod(a[1] * 2, a[9]) + Prod(a[2] * 2, a[8]) + Prod(a[3] * 2, a[7]) + Prod(a[4] * 2, a[6]) + Prod(a[5], a[5]),
          Prod(a[2] * 2, a[9]) + Prod(a[3] * 2, a[8]) + Prod(a[4] * 2, a[7]) + Prod(a[5] * 2, a[6]),
          Prod(a[3] * 2, a[9]) + Prod(a[4] * 2, a[8]) + Prod(a[5] * 2, a[7]) + Prod(a[6], a[6]),
          Prod(a[4] * 2, a[9]) + Prod(a[5] * 2, a[8]) + Prod(a[6] * 2, a[7]),
          Prod(a[5] * 2, a[9]) + Prod(a[6] * 2, a[8]) + Prod(a[7], a[7]),
          Prod(a[6] * 2, a[9]) + Prod(a[7] * 2, a[8]),
          Prod(a[7] * 2, a[9]) + Prod(a[8], a[8]),
          Prod(a[8] * 2, a[9]),
          Prod(a[9], a[9])];
  }

  method MulInner26(a: seq<Word32>, b: seq<Word32>) returns (r: seq<Word32>)
    requires Wide26(a) && Wide26(b)
    ensures |r| == 10 && (forall i :: 0 <= i < 9 ==> r[i] <= 2 * 0x3ffffff) && r[9] < 0x400000
    ensures Congruent(Val10(r), Val10(a) * Val10(b), P)
  {
    hide Prod, Column26, ColumnMax26, Val10, Congruent, ColumnTotal;
    var low := MulColumnsLow(a, b);
    var high := MulColumnsHigh(a, b);
    ghost var k;
    r, k := FoldColumns26(low + high);
    ColumnsAreProduct26(a, b, low + high);
    Folded(Val10(r), Val10(a), Val10(b), k);
  }

  method SqrInner26(a: seq<Word32>) returns (r: seq<Word32>)
    requires Wide26(a)
    ensures |r| == 10 && (forall i :: 0 <= i < 9 ==> r[i] <= 2 * 0x3ffffff) && r[9] < 0x400000
    ensures Congruent(Val10(r), Val10(a) * Val10(a), P)
  {
    hide Prod, Column26, ColumnMax26, Val10, Congruent, ColumnTotal;
    var low := SqrColumnsLow(a);
    var high := SqrColumnsHigh(a);
    ghost var k;
    r, k := FoldColumns26(low + high);
    ColumnsAreProduct26(a, a, low + high);
    Folded(Val10(r), Val10(a), Val10(a), k);
  }
}
