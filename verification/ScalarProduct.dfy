/** The 512-bit product of two scalars, column by column through the accumulator, and the square with every
    mixed product computed once and doubled. */
module ScalarProduct {
  import opened Arith
  import opened Limbs32

  /** The sum of the products whose weight is 2^(32 k). */
  ghost function Column(a: seq<Word>, b: seq<Word>, k: nat): int
    requires |a| == 8 && |b| == 8 && k < 15
  {
    match k
    case 0 => Prod(a[0], b[0])
    case 1 => Prod(a[0], b[1]) + Prod(a[1], b[0])
    case 2 => Prod(a[0], b[2]) + Prod(a[1], b[1]) + Prod(a[2], b[0])
    case 3 => Prod(a[0], b[3]) + Prod(a[1], b[2]) + Prod(a[2], b[1]) + Prod(a[3], b[0])
    case 4 => Prod(a[0], b[4]) + Prod(a[1], b[3]) + Prod(a[2], b[2]) + Prod(a[3], b[1]) + Prod(a[4], b[0])
    case 5 => Prod(a[0], b[5]) + Prod(a[1], b[4]) + Prod(a[2], b[3]) + Prod(a[3], b[2]) + Prod(a[4], b[1]) + Prod(a[5], b[0])
    case 6 => Prod(a[0], b[6]) + Prod(a[1], b[5]) + Prod(a[2], b[4]) + Prod(a[3], b[3]) + Prod(a[4], b[2]) + Prod(a[5], b[1]) + Prod(a[6], b[0])
    case 7 => Prod(a[0], b[7]) + Prod(a[1], b[6]) + Prod(a[2], b[5]) + Prod(a[3], b[4]) + Prod(a[4], b[3]) + Prod(a[5], b[2]) + Prod(a[6], b[1]) + Prod(a[7], b[0])
    case 8 => Prod(a[1], b[7]) + Prod(a[2], b[6]) + Prod(a[3], b[5]) + Prod(a[4], b[4]) + Prod(a[5], b[3]) + Prod(a[6], b[2]) + Prod(a[7], b[1])
    case 9 => Prod(a[2], b[7]) + Prod(a[3], b[6]) + Prod(a[4], b[5]) + Prod(a[5], b[4]) + Prod(a[6], b[3]) + Prod(a[7], b[2])
    case 10 => Prod(a[3], b[7]) + Prod(a[4], b[6]) + Prod(a[5], b[5]) + Prod(a[6], b[4]) + Prod(a[7], b[3])
    case 11 => Prod(a[4], b[7]) + Prod(a[5], b[6]) + Prod(a[6], b[5]) + Prod(a[7], b[4])
    case 12 => Prod(a[5], b[7]) + Prod(a[6], b[6]) + Prod(a[7], b[5])
    case 13 => Prod(a[6], b[7]) + Prod(a[7], b[6])
    case 14 => Prod(a[7], b[7])
  }

  method MulColumns1To6(a: seq<Word>, b: seq<Word>, c0: Acc) returns (l1: Word, l2: Word, l3: Word, l4: Word, l5: Word, l6: Word, c: Acc)
    requires |a| == 8 && |b| == 8 && AccVal(c0) < 0x10_0000_0000_0000_0000
    ensures Join(l1, Join(l2, Join(l3, Join(l4, Join(l5, Join(l6, AccVal(c)))))))
         == AccVal(c0) + Join(Column(a, b, 1), Join(Column(a, b, 2), Join(Column(a, b, 3), Join(Column(a, b, 4), Join(Column(a, b, 5), Column(a, b, 6))))))
    ensures AccVal(c) < 0x10_0000_0000_0000_0000
  {
    hide Prod, AccVal;
    c := c0;
    c := MulAdd(c, a[0], b[1]);
    c := MulAdd(c, a[1], b[0]);
    l1, c := Extract(c);
    c := MulAdd(c, a[0], b[2]);
    c := MulAdd(c, a[1], b[1]);
    c := MulAdd(c, a[2], b[0]);
    l2, c := Extract(c);
    c := MulAdd(c, a[0], b[3]);
    c := MulAdd(c, a[1], b[2]);
    c := MulAdd(c, a[2], b[1]);
    c := MulAdd(c, a[3], b[0]);
    l3, c := Extract(c);
    c := MulAdd(c, a[0], b[4]);
    c := MulAdd(c, a[1], b[3]);
    c := MulAdd(c, a[2], b[2]);
    c := MulAdd(c, a[3], b[1]);
    c := MulAdd(c, a[4], b[0]);
    l4, c := Extract(c);
    c := MulAdd(c, a[0], b[5]);
    c := MulAdd(c, a[1], b[4]);
    c := MulAdd(c, a[2], b[3]);
    c := MulAdd(c, a[3], b[2]);
    c := MulAdd(c, a[4], b[1]);
    c := MulAdd(c, a[5], b[0]);
    l5, c := Extract(c);
    c := MulAdd(c, a[0], b[6]);
    c := MulAdd(c, a[1], b[5]);
    c := MulAdd(c, a[2], b[4]);
    c := MulAdd(c, a[3], b[3]);
    c := MulAdd(c, a[4], b[2]);
    c := MulAdd(c, a[5], b[1]);
    c := MulAdd(c, a[6], b[0]);
    l6, c := Extract(c);
  }

  method MulColumns7To9(a: seq<Word>, b: seq<Word>, c0: Acc) returns (l7: Word, l8: Word, l9: Word, c: Acc)
    requires |a| == 8 && |b| == 8 && AccVal(c0) < 0x10_0000_0000_0000_0000
    ensures Join(l7, Join(l8, Join(l9, AccVal(c))))
         == AccVal(c0) + Join(Column(a, b, 7), Join(Column(a, b, 8), Column(a, b, 9)))
    ensures AccVal(c) < 0x10_0000_0000_0000_0000
  {
    hide Prod, AccVal;
    c := c0;
    c := MulAdd(c, a[0], b[7]);
    c := MulAdd(c, a[1], b[6]);
    c := MulAdd(c, a[2], b[5]);
    c := MulAdd(c, a[3], b[4]);
    c := MulAdd(c, a[4], b[3]);
    c := MulAdd(c, a[5], b[2]);
    c := MulAdd(c, a[6], b[1]);
    c := MulAdd(c, a[7], b[0]);
    l7, c := Extract(c);
    c := MulAdd(c, a[1], b[7]);
    c := MulAdd(c, a[2], b[6]);
    c := MulAdd(c, a[3], b[5]);
    c := MulAdd(c, a[4], b[4]);
    c := MulAdd(c, a[5], b[3]);
    c := MulAdd(c, a[6], b[2]);
    c := MulAdd(c, a[7], b[1]);
    l8, c := Extract(c);
    c := MulAdd(c, a[2], b[7]);
    c := MulAdd(c, a[3], b[6]);
    c := MulAdd(c, a[4], b[5]);
    c := MulAdd(c, a[5], b[4]);
    c := MulAdd(c, a[6], b[3]);
    c := MulAdd(c, a[7], b[2]);
    l9, c := Extract(c);
  }

  method MulColumns10To13(a: seq<Word>, b: seq<Word>, c0: Acc) returns (l10: Word, l11: Word, l12: Word, l13: Word, c: Acc)
    requires |a| == 8 && |b| == 8 && AccVal(c0) < 0x10_0000_0000_0000_0000
    ensures Join(l10, Join(l11, Join(l12, Join(l13, AccVal(c)))))
         == AccVal(c0) + Join(Column(a, b, 10), Join(Column(a, b, 11), Join(Column(a, b, 12), Column(a, b, 13))))
    ensures AccVal(c) < 0x10_0000_0000_0000_0000
  {
    hide Prod, AccVal;
    c := c0;
    c := MulAdd(c, a[3], b[7]);
    c := MulAdd(c, a[4], b[6]);
    c := MulAdd(c, a[5], b[5]);
    c := MulAdd(c, a[6], b[4]);
    c := MulAdd(c, a[7], b[3]);
    l10, c := Extract(c);
    c := MulAdd(c, a[4], b[7]);
    c := MulAdd(c, a[5], b[6]);
    c := MulAdd(c, a[6], b[5]);
    c := MulAdd(c, a[7], b[4]);
    l11, c := Extract(c);
    c := MulAdd(c, a[5], b[7]);
    c := MulAdd(c, a[6], b[6]);
    c := MulAdd(c, a[7], b[5]);
    l12, c := Extract(c);
    c := MulAdd(c, a[6], b[7]);
    c := MulAdd(c, a[7], b[6]);
    l13, c := Extract(c);
  }

  lemma ProdsCommute(a: seq<Word>)
    requires |a| == 8
    ensures forall i, j :: 0 <= i < 8 && 0 <= j < 8 ==> Prod(a[i], a[j]) == Prod(a[j], a[i])
  {
  }

  method SqrColumns1To6(a: seq<Word>, c0: Acc) returns (l1: Word, l2: Word, l3: Word, l4: Word, l5: Word, l6: Word, c: Acc)
    requires |a| == 8 && AccVal(c0) < 0x10_0000_0000_0000_0000
    ensures Join(l1, Join(l2, Join(l3, Join(l4, Join(l5, Join(l6, AccVal(c)))))))
         == AccVal(c0) + Join(Column(a, a, 1), Join(Column(a, a, 2), Join(Column(a, a, 3), Join(Column(a, a, 4), Join(Column(a, a, 5), Column(a, a, 6))))))
    ensures AccVal(c) < 0x10_0000_0000_0000_0000
  {
    ProdsCommute(a);
    hide Prod, AccVal;
    c := c0;
    c := MulAdd2(c, a[0], a[1]);
    l1, c := Extract(c);
    c := MulAdd2(c, a[0], a[2]);
    c := MulAdd(c, a[1], a[1]);
    l2, c := Extract(c);
    c := MulAdd2(c, a[0], a[3]);
    c := MulAdd2(c, a[1], a[2]);
    l3, c := Extract(c);
    c := MulAdd2(c, a[0], a[4]);
    c := MulAdd2(c, a[1], a[3]);
    c := MulAdd(c, a[2], a[2]);
    l4, c := Extract(c);
    c := MulAdd2(c, a[0], a[5]);
    c := MulAdd2(c, a[1], a[4]);
    c := MulAdd2(c, a[2], a[3]);
    l5, c := Extract(c);
    c := MulAdd2(c, a[0], a[6]);
    c := MulAdd2(c, a[1], a[5]);
    c := MulAdd2(c, a[2], a[4]);
    c := MulAdd(c, a[3], a[3]);
    l6, c := Extract(c);
  }

  method SqrColumns7To9(a: seq<Word>, c0: Acc) returns (l7: Word, l8: Word, l9: Word, c: Acc)
    requires |a| == 8 && AccVal(c0) < 0x10_0000_0000_0000_0000
    ensures Join(l7, Join(l8, Join(l9, AccVal(c))))
         == AccVal(c0) + Join(Column(a, a, 7), Join(Column(a, a, 8), Column(a, a, 9)))
    ensures AccVal(c) < 0x10_0000_0000_0000_0000
  {
    ProdsCommute(a);
    hide Prod, AccVal;
    c := c0;
    c := MulAdd2(c, a[0], a[7]);
    c := MulAdd2(c, a[1], a[6]);
    c := MulAdd2(c, a[2], a[5]);
    c := MulAdd2(c, a[3], a[4]);
    l7, c := Extract(c);
    c := MulAdd2(c, a[1], a[7]);
    c := MulAdd2(c, a[2], a[6]);
    c := MulAdd2(c, a[3], a[5]);
    c := MulAdd(c, a[4], a[4]);
    l8, c := Extract(c);
    c := MulAdd2(c, a[2], a[7]);
    c := MulAdd2(c, a[3], a[6]);
    c := MulAdd2(c, a[4], a[5]);
    l9, c := Extract(c);
  }

  method SqrColumns10To13(a: seq<Word>, c0: Acc) returns (l10: Word, l11: Word, l12: Word, l13: Word, c: Acc)
    requires |a| == 8 && AccVal(c0) < 0x10_0000_0000_0000_0000
    ensures Join(l10, Join(l11, Join(l12, Join(l13, AccVal(c)))))
         == AccVal(c0) + Join(Column(a, a, 10), Join(Column(a, a, 11), Join(Column(a, a, 12), Column(a, a, 13))))
    ensures AccVal(c) < 0x10_0000_0000_0000_0000
  {
    ProdsCommute(a);
    hide Prod, AccVal;
    c := c0;
    c := MulAdd2(c, a[3], a[7]);
    c := MulAdd2(c, a[4], a[6]);
    c := MulAdd(c, a[5], a[5]);
    l10, c := Extract(c);
    c := MulAdd2(c, a[4], a[7]);
    c := MulAdd2(c, a[5], a[6]);
    l11, c := Extract(c);
    c := MulAdd2(c, a[5], a[7]);
    c := MulAdd(c, a[6], a[6]);
    l12, c := Extract(c);
    c := MulAdd2(c, a[6], a[7]);
    l13, c := Extract(c);
  }

  ghost function ColumnSum(a: seq<Word>, b: seq<Word>): int
    requires |a| == 8 && |b| == 8
  {
    Join14(LowColumns(a, b), Column(a, b, 14))
  }

  ghost function LowColumns(a: seq<Word>, b: seq<Word>): seq<int>
    requires |a| == 8 && |b| == 8
  {
    [Column(a, b, 0), Column(a, b, 1), Column(a, b, 2), Column(a, b, 3), Column(a, b, 4), Column(a, b, 5), Column(a, b, 6), Column(a, b, 7), Column(a, b, 8), Column(a, b, 9), Column(a, b, 10), Column(a, b, 11), Column(a, b, 12), Column(a, b, 13)]
  }

  /** One row of the schoolbook product. */
  ghost function Row(x: int, b: seq<Word>): int
    requires |b| == 8
  {
    Join(Prod(x, b[0]), Join(Prod(x, b[1]), Join(Prod(x, b[2]), Join(Prod(x, b[3]), Join(Prod(x, b[4]), Join(Prod(x, b[5]), Join(Prod(x, b[6]), Prod(x, b[7]))))))))
  }

  lemma Distribute8(x: int, y: seq<int>)
    requires |y| == 8
    ensures Prod(x, Val8(y)) == Join(Prod(x, y[0]), Join(Prod(x, y[1]), Join(Prod(x, y[2]), Join(Prod(x, y[3]), Join(Prod(x, y[4]), Join(Prod(x, y[5]), Join(Prod(x, y[6]), Prod(x, y[7]))))))))
  {
  }

  lemma ProdCommutes(x: int, y: int)
    ensures Prod(x, y) == Prod(y, x)
  {
  }

  /** Summed by columns or by rows, the products of the limbs make up the product of the numbers. */
  lemma ColumnsAreProduct(a: seq<Word>, b: seq<Word>)
    requires |a| == 8 && |b| == 8
    ensures ColumnSum(a, b) == Prod(Val8(a), Val8(b))
  {
    hide Prod, Val8, Column, ColumnSum, Join;
    var y := Val8(b);
    Distribute8(y, a);
    ProdCommutes(y, Val8(a));
    forall i | 0 <= i < 8
      ensures Row(a[i], b) == Prod(y, a[i])
    {
      Distribute8(a[i], b);
      ProdCommutes(y, a[i]);
    }
    RowsAndColumns(a, b);
  }

  /** The products of four rows whose weight is 2^(32 k). */
  ghost function HalfColumn(a: seq<Word>, b: seq<Word>, k: nat): int
    requires |a| == 4 && |b| == 8 && k < 11
  {
    match k
    case 0 => Prod(a[0], b[0])
    case 1 => Prod(a[0], b[1]) + Prod(a[1], b[0])
    case 2 => Prod(a[0], b[2]) + Prod(a[1], b[1]) + Prod(a[2], b[0])
    case 3 => Prod(a[0], b[3]) + Prod(a[1], b[2]) + Prod(a[2], b[1]) + Prod(a[3], b[0])
    case 4 => Prod(a[0], b[4]) + Prod(a[1], b[3]) + Prod(a[2], b[2]) + Prod(a[3], b[1])
    case 5 => Prod(a[0], b[5]) + Prod(a[1], b[4]) + Prod(a[2], b[3]) + Prod(a[3], b[2])
    case 6 => Prod(a[0], b[6]) + Prod(a[1], b[5]) + Prod(a[2], b[4]) + Prod(a[3], b[3])
    case 7 => Prod(a[0], b[7]) + Prod(a[1], b[6]) + Prod(a[2], b[5]) + Prod(a[3], b[4])
    case 8 => Prod(a[1], b[7]) + Prod(a[2], b[6]) + Prod(a[3], b[5])
    case 9 => Prod(a[2], b[7]) + Prod(a[3], b[6])
    case 10 => Prod(a[3], b[7])
  }

  lemma HalfRows(a: seq<Word>, b: seq<Word>)
    requires |a| == 4 && |b| == 8
    ensures Join(Row(a[0], b), Join(Row(a[1], b), Join(Row(a[2], b), Row(a[3], b))))
         == Join(HalfColumn(a, b, 0), Join(HalfColumn(a, b, 1), Join(HalfColumn(a, b, 2), Join(HalfColumn(a, b, 3), Join(HalfColumn(a, b, 4), Join(HalfColumn(a, b, 5), Join(HalfColumn(a, b, 6), Join(HalfColumn(a, b, 7), Join(HalfColumn(a, b, 8), Join(HalfColumn(a, b, 9), HalfColumn(a, b, 10)))))))))))
  {
    hide Prod;
  }

  lemma ColumnHalves(a: seq<Word>, b: seq<Word>, k: nat)
    requires |a| == 8 && |b| == 8 && k < 15
    ensures Column(a, b, k) == (if k < 11 then HalfColumn(a[..4], b, k) else 0)
                               + (if k >= 4 then HalfColumn(a[4..], b, k - 4) else 0)
  {
    hide Prod;
  }

  lemma RowsAndColumns(a: seq<Word>, b: seq<Word>)
    requires |a| == 8 && |b| == 8
    ensures ColumnSum(a, b) == Join(Row(a[0], b), Join(Row(a[1], b), Join(Row(a[2], b), Join(Row(a[3], b), Join(Row(a[4], b), Join(Row(a[5], b), Join(Row(a[6], b), Row(a[7], b))))))))
  {
    hide Prod, Row, HalfColumn, Column;
    HalfRows(a[..4], b);
    HalfRows(a[4..], b);
    forall k: nat | k < 15
      ensures Column(a, b, k) == (if k < 11 then HalfColumn(a[..4], b, k) else 0)
                                 + (if k >= 4 then HalfColumn(a[4..], b, k - 4) else 0)
    {
      ColumnHalves(a, b, k);
    }
  }

  lemma ProductBound(a: seq<Word>, b: seq<Word>)
    requires |a| == 8 && |b| == 8
    ensures 0 <= Prod(Val8(a), Val8(b)) < TWO_512
  {
    Val8Bound(a);
    Val8Bound(b);
    var x, y, m := Val8(a), Val8(b), TWO_256 - 1;
    MulMono(0, x, y);
    MulMono(x, m, y);
    MulMono(y, m, m);
    assert y * m == m * y;
  }

  /** The first product fits in two words, and the whole product in sixteen. */
  lemma EndsFit(a: seq<Word>, b: seq<Word>)
    requires |a| == 8 && |b| == 8
    ensures 0 <= Prod(a[0], b[0]) < 0x1_0000_0000_0000_0000 && 0 <= Prod(a[7], b[7])
    ensures 0 <= ColumnSum(a, b) < TWO_512
  {
    ProdBound(a[0], b[0]);
    ProdBound(a[7], b[7]);
    ProductBound(a, b);
    ColumnsAreProduct(a, b);
  }

  /** All columns but the last. */
  method MulLowWords(a: seq<Word>, b: seq<Word>) returns (l: seq<Word>, c: Acc)
    requires |a| == 8 && |b| == 8
    ensures |l| == 14
    ensures Join14(l, AccVal(c)) == Join14(LowColumns(a, b), 0)
  {
    hide Prod, AccVal, Column, ColumnSum, Join, Join14, LowColumns;
    EndsFit(a, b);
    AccEmpty();
    c := MulAddFast(EMPTY, a[0], b[0]);
    assert AccVal(c) == Column(a, b, 0) by { First(a, b); }
    var l0;
    l0, c := ExtractFast(c);
    AccLow(c);
    ghost var c1 := AccVal(c);
    var l1, l2, l3, l4, l5, l6;
    l1, l2, l3, l4, l5, l6, c := MulColumns1To6(a, b, c);
    ghost var c2 := AccVal(c);
    var l7, l8, l9;
    l7, l8, l9, c := MulColumns7To9(a, b, c);
    ghost var c3 := AccVal(c);
    var l10, l11, l12, l13;
    l10, l11, l12, l13, c := MulColumns10To13(a, b, c);
    l := [l0, l1, l2, l3, l4, l5, l6, l7, l8, l9, l10, l11, l12, l13];
    Glue(l, a, b, c1, c2, c3, AccVal(c));
  }

  /** All columns but the last. */
  method SqrLowWords(a: seq<Word>) returns (l: seq<Word>, c: Acc)
    requires |a| == 8
    ensures |l| == 14
    ensures Join14(l, AccVal(c)) == Join14(LowColumns(a, a), 0)
  {
    hide Prod, AccVal, Column, ColumnSum, Join, Join14, LowColumns;
    EndsFit(a, a);
    AccEmpty();
    c := MulAddFast(EMPTY, a[0], a[0]);
    assert AccVal(c) == Column(a, a, 0) by { First(a, a); }
    var l0;
    l0, c := ExtractFast(c);
    AccLow(c);
    ghost var c1 := AccVal(c);
    var l1, l2, l3, l4, l5, l6;
    l1, l2, l3, l4, l5, l6, c := SqrColumns1To6(a, c);
    ghost var c2 := AccVal(c);
    var l7, l8, l9;
    l7, l8, l9, c := SqrColumns7To9(a, c);
    ghost var c3 := AccVal(c);
    var l10, l11, l12, l13;
    l10, l11, l12, l13, c := SqrColumns10To13(a, c);
    l := [l0, l1, l2, l3, l4, l5, l6, l7, l8, l9, l10, l11, l12, l13];
    Glue(l, a, a, c1, c2, c3, AccVal(c));
  }

  lemma Glue(l: seq<int>, a: seq<Word>, b: seq<Word>, c1: int, c2: int, c3: int, c4: int)
    requires |l| == 14 && |a| == 8 && |b| == 8
    requires Column(a, b, 0) == Join(l[0], c1)
    requires Join(l[1], Join(l[2], Join(l[3], Join(l[4], Join(l[5], Join(l[6], c2)))))) == c1 + Join(Column(a, b, 1), Join(Column(a, b, 2), Join(Column(a, b, 3), Join(Column(a, b, 4), Join(Column(a, b, 5), Column(a, b, 6))))))
    requires Join(l[7], Join(l[8], Join(l[9], c3))) == c2 + Join(Column(a, b, 7), Join(Column(a, b, 8), Column(a, b, 9)))
    requires Join(l[10], Join(l[11], Join(l[12], Join(l[13], c4)))) == c3 + Join(Column(a, b, 10), Join(Column(a, b, 11), Join(Column(a, b, 12), Column(a, b, 13))))
    ensures Join14(l, c4) == Join14(LowColumns(a, b), 0)
  {
    hide Column;
  }

  lemma First(a: seq<Word>, b: seq<Word>)
    requires |a| == 8 && |b| == 8
    ensures Column(a, b, 0) == Prod(a[0], b[0]) && Column(a, b, 14) == Prod(a[7], b[7])
  {
  }

  /** Fourteen limbs under a high part. */
  function Join14(l: seq<int>, hi: int): int
    requires |l| == 14
  {
    Join(l[0], Join(l[1], Join(l[2], Join(l[3], Join(l[4], Join(l[5], Join(l[6], Join(l[7], Join(l[8], Join(l[9], Join(l[10], Join(l[11], Join(l[12], Join(l[13], hi))))))))))))))
  }

  /** The last product fits above the fourteen words because the whole product fits in sixteen. */
  lemma TopFits(a: seq<Word>, b: seq<Word>, l: seq<Word>, hi: nat)
    requires |a| == 8 && |b| == 8 && |l| == 14
    requires Join14(l, hi) == Join14(LowColumns(a, b), 0)
    ensures 0 <= Prod(a[7], b[7]) && hi + Prod(a[7], b[7]) < 0x1_0000_0000_0000_0000
    ensures Join14(l, hi + Prod(a[7], b[7])) == Prod(Val8(a), Val8(b))
  {
    hide Prod, Column, Val8, LowColumns;
    EndsFit(a, b);
    ColumnsAreProduct(a, b);
    First(a, b);
  }

  lemma ProdIsProduct(x: int, y: int)
    ensures Prod(x, y) == x * y
  {
  }

  lemma Limbs16(l: seq<Word>, l14: Word, l15: Word)
    requires |l| == 14
    ensures Val16(l + [l14, l15]) == Join14(l, Join(l14, l15))
  {
  }

  /** The product of two scalars in sixteen limbs. */
  method Mul512(l: array<Word>, a: seq<Word>, b: seq<Word>)
    requires l.Length == 16 && |a| == 8 && |b| == 8
    modifies l
    ensures Val16(l[..]) == Val8(a) * Val8(b)
  {
    hide Prod, AccVal, Column, Val8, Val16, Join14;
    var low, c := MulLowWords(a, b);
    TopFits(a, b, low, AccVal(c));
    hide Join;
    AccSmall(c);
    c := MulAddFast(c, a[7], b[7]);
    var l14;
    l14, c := ExtractFast(c);
    var l15 := c.c0;
    AccLow(c);
    Limbs16(low, l14, l15);
    WriteLimbs(l, low + [l14, l15]);
    ProdIsProduct(Val8(a), Val8(b));
  }

  /** The square of a scalar in sixteen limbs. */
  method Sqr512(l: array<Word>, a: seq<Word>)
    requires l.Length == 16 && |a| == 8
    modifies l
    ensures Val16(l[..]) == Val8(a) * Val8(a)
  {
    hide Prod, AccVal, Column, Val8, Val16, Join14;
    var low, c := SqrLowWords(a);
    TopFits(a, a, low, AccVal(c));
    hide Join;
    AccSmall(c);
    c := MulAddFast(c, a[7], a[7]);
    var l14;
    l14, c := ExtractFast(c);
    var l15 := c.c0;
    AccLow(c);
    Limbs16(low, l14, l15);
    WriteLimbs(l, low + [l14, l15]);
    ProdIsProduct(Val8(a), Val8(a));
  }

}
