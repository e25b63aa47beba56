/** Multiplication in the secp256k1 field on five limbs of 52 bits: the columns of the schoolbook product are folded
    through two 128-bit accumulators, every intermediate value staying within the bit bound stated for it. */
module FieldProduct {
  import opened Arith

  /** The field characteristic, 2^256 minus R0; 2^260 is congruent to R. */
  const P: int := 0xFFFFFFFF_FFFFFFFF_FFFFFFFF_FFFFFFFF_FFFFFFFF_FFFFFFFF_FFFFFFFE_FFFFFC2F
  const R0: int := 0x1000003D1
  const R: int := 0x1000003D10

  type Word64 = x: int | 0 <= x < 0x1_00000000_00000000 witness 0

  function Join(lo: int, hi: int): int { lo + OneLimbUp(hi) }

  function OneLimbUp(hi: int): int { hi * 0x100000_00000000 }

  function Val5(x: seq<int>): int
    requires |x| == 5
  {
    Join(x[0], Join(x[1], Join(x[2], Join(x[3], x[4]))))
  }

  function Low52(t: nat): (l: nat)
    ensures l < 0x100000_00000000
  {
    t % 0x100000_00000000
  }

  function High52(t: nat): (h: nat)
    ensures t == Join(Low52(t), h)
  {
    t / 0x100000_00000000
  }

  /** The bounds multiplication assumes: 56 bits, and 52 for the top limb. */
  predicate Wide(a: seq<int>) {
    |a| == 5 && (forall i :: 0 <= i < 4 ==> 0 <= a[i] < 0x1000000_00000000) && 0 <= a[4] < 0x100000_00000000
  }

  lemma ProdBound(a: nat, b: nat, m: nat, n: nat)
    requires a <= m && b <= n
    ensures 0 <= Prod(a, b) <= m * n
  {
    MulMono(a, m, b);
    MulMono(b, n, m);
    MulMono(0, a, b);
    assert n * m == m * n && b * m == m * b;
  }

  lemma Distribute5(x: int, y: seq<int>)
    requires |y| == 5
    ensures Prod(x, Val5(y)) == Join(Prod(x, y[0]), Join(Prod(x, y[1]), Join(Prod(x, y[2]), Join(Prod(x, y[3]), Prod(x, y[4])))))
  {
  }

  lemma ProdCommutes(x: int, y: int)
    ensures Prod(x, y) == Prod(y, x)
  {
  }

  lemma ProdTwice(x: int, y: int)
    ensures Prod(x * 2, y) == 2 * Prod(x, y) && Prod(x, y * 2) == 2 * Prod(x, y)
  {
  }

  /** The column of weight 2^(52 k). */
  function Column(x: seq<int>, y: seq<int>, k: nat): int
    requires |x| == 5 && |y| == 5 && k < 9
  {
    match k
    case 0 => Prod(x[0], y[0])
    case 1 => Prod(x[0], y[1]) + Prod(x[1], y[0])
    case 2 => Prod(x[0], y[2]) + Prod(x[1], y[1]) + Prod(x[2], y[0])
    case 3 => Prod(x[0], y[3]) + Prod(x[1], y[2]) + Prod(x[2], y[1]) + Prod(x[3], y[0])
    case 4 => Prod(x[0], y[4]) + Prod(x[1], y[3]) + Prod(x[2], y[2]) + Prod(x[3], y[1]) + Prod(x[4], y[0])
    case 5 => Prod(x[1], y[4]) + Prod(x[2], y[3]) + Prod(x[3], y[2]) + Prod(x[4], y[1])
    case 6 => Prod(x[2], y[4]) + Prod(x[3], y[3]) + Prod(x[4], y[2])
    case 7 => Prod(x[3], y[4]) + Prod(x[4], y[3])
    case 8 => Prod(x[4], y[4])
  }

  /** How large each column can get. */
  function ColumnMax(k: nat): int
    requires k < 9
  {
    match k
    case 0 => 1 * 0x10000_00000000_00000000_00000000
    case 1 => 2 * 0x10000_00000000_00000000_00000000
    case 2 => 3 * 0x10000_00000000_00000000_00000000
    case 3 => 4 * 0x10000_00000000_00000000_00000000
    case 4 => 3 * 0x10000_00000000_00000000_00000000 + 2 * 0x1000_00000000_00000000_00000000
    case 5 => 2 * 0x10000_00000000_00000000_00000000 + 2 * 0x1000_00000000_00000000_00000000
    case 6 => 1 * 0x10000_00000000_00000000_00000000 + 2 * 0x1000_00000000_00000000_00000000
    case 7 => 2 * 0x1000_00000000_00000000_00000000
    case 8 => 1 * 0x100_00000000_00000000_00000000
  }

  lemma ColumnBound(x: seq<int>, y: seq<int>, k: nat)
    requires Wide(x) && Wide(y) && k < 9
    ensures 0 <= Column(x, y, k) <= ColumnMax(k)
  {
    forall i, j | 0 <= i < 5 && 0 <= j < 5
      ensures 0 <= Prod(x[i], y[j]) <= if i < 4 && j < 4 then 0x10000_00000000_00000000_00000000 else if i < 4 || j < 4 then 0x1000_00000000_00000000_00000000 else 0x100_00000000_00000000_00000000
    {
      ProdBound(x[i], y[j], if i < 4 then 0x1000000_00000000 else 0x100000_00000000, if j < 4 then 0x1000000_00000000 else 0x100000_00000000);
    }
    hide Prod;
  }

  lemma ColumnsAreProduct(x: seq<int>, y: seq<int>)
    requires |x| == 5 && |y| == 5
    ensures Join(Column(x, y, 0), Join(Column(x, y, 1), Join(Column(x, y, 2), Join(Column(x, y, 3), Join(Column(x, y, 4), Join(Column(x, y, 5), Join(Column(x, y, 6), Join(Column(x, y, 7), Column(x, y, 8)))))))))
         == Prod(Val5(x), Val5(y))
  {
    hide Prod, Val5, Column, Join;
    var v := Val5(y);
    Distribute5(v, x);
    ProdCommutes(v, Val5(x));
    forall i | 0 <= i < 5
      ensures Prod(v, x[i]) == Join(Prod(x[i], y[0]), Join(Prod(x[i], y[1]), Join(Prod(x[i], y[2]), Join(Prod(x[i], y[3]), Prod(x[i], y[4])))))
    {
      Distribute5(x[i], y);
      ProdCommutes(v, x[i]);
    }
    ColumnsAreRows(x, y, [Prod(v, x[0]), Prod(v, x[1]), Prod(v, x[2]), Prod(v, x[3]), Prod(v, x[4])]);
  }

  lemma ColumnsAreRows(x: seq<int>, y: seq<int>, rows: seq<int>)
    requires |x| == 5 && |y| == 5 && |rows| == 5
    requires rows[0] == Join(Prod(x[0], y[0]), Join(Prod(x[0], y[1]), Join(Prod(x[0], y[2]), Join(Prod(x[0], y[3]), Prod(x[0], y[4])))))
    requires rows[1] == Join(Prod(x[1], y[0]), Join(Prod(x[1], y[1]), Join(Prod(x[1], y[2]), Join(Prod(x[1], y[3]), Prod(x[1], y[4])))))
    requires rows[2] == Join(Prod(x[2], y[0]), Join(Prod(x[2], y[1]), Join(Prod(x[2], y[2]), Join(Prod(x[2], y[3]), Prod(x[2], y[4])))))
    requires rows[3] == Join(Prod(x[3], y[0]), Join(Prod(x[3], y[1]), Join(Prod(x[3], y[2]), Join(Prod(x[3], y[3]), Prod(x[3], y[4])))))
    requires rows[4] == Join(Prod(x[4], y[0]), Join(Prod(x[4], y[1]), Join(Prod(x[4], y[2]), Join(Prod(x[4], y[3]), Prod(x[4], y[4])))))
    ensures Join(Column(x, y, 0), Join(Column(x, y, 1), Join(Column(x, y, 2), Join(Column(x, y, 3), Join(Column(x, y, 4), Join(Column(x, y, 5), Join(Column(x, y, 6), Join(Column(x, y, 7), Column(x, y, 8))))))))) == Join(rows[0], Join(rows[1], Join(rows[2], Join(rows[3], rows[4]))))
  {
    hide Prod;
  }

  /** Bitwise or of a value below 2^n with one shifted left by n. */
  function Or(low: nat, high: nat, p: nat): nat
    requires p > 0 && low < p && high % p == 0
  {
    low + high
  }

  /** Columns 8, 3 and 4: the top column is folded in at once, and what column 4 has above bit 48 is split off. */
  method UpperColumns(p3: nat, p4: nat, p8: nat) returns (t3: nat, t4: nat, tx: nat, d: nat, ghost k: int)
    requires p3 <= ColumnMax(3) && p4 <= ColumnMax(4) && p8 <= ColumnMax(8)
    ensures t3 < 0x100000_00000000 && t4 < 0x10000_00000000 && tx < 0x10 && d < 0x1_00000000_00000000
    ensures Join(p3, Join(p4, Join(0, Join(0, Join(0, p8))))) == Join(t3, Join(t4 + tx * 0x10000_00000000, d)) + k * (0x10_00000000_00000000_00000000_00000000_00000000_00000000_00000000_00000000 - R)
  {
    hide Low52, High52;
    d := p3;
    assert d < 0x80000_00000000_00000000_00000000;
    var c := p8;
    assert c < 0x10000_00000000_00000000_00000000;
    var c0 := Low52(c);
    d := d + c0 * R;
    c := High52(c);
    assert d < 0x80000_00000000_00000000_00000000 && c < 0x10000000_00000000;
    t3 := Low52(d);
    ghost var d1 := d;
    d := High52(d);
    assert d < 0x80000000_00000000;
    d := d + p4;
    assert d < 0x80000_00000000_00000000_00000000;
    d := d + c * R;
    assert d < 0x100000_00000000_00000000_00000000;
    t4 := Low52(d);
    d := High52(d);
    assert d < 0x1_00000000_00000000;
    tx := t4 / 0x10000_00000000;
    t4 := t4 % 0x10000_00000000;
    k := c0 + c * 0x100000_00000000;
  }

  /** Columns 0 and 5: column 5 and the split-off bits come back at the bottom, 2^256 being congruent to R0. */
  method BottomColumn(p0: nat, p5: nat, tx: nat, d0: nat) returns (r0: nat, c: nat, d: nat, ghost k: int)
    requires p0 <= ColumnMax(0) && p5 <= ColumnMax(5) && tx < 0x10 && d0 < 0x1_00000000_00000000
    ensures r0 < 0x100000_00000000 && c < 0x20000000_00000000 && d < 0x80000000_00000000
    ensures p0 + tx * 0x1_00000000_00000000_00000000_00000000_00000000_00000000_00000000_00000000 + (p5 + d0) * 0x10_00000000_00000000_00000000_00000000_00000000_00000000_00000000_00000000 == Join(r0, c) + d * 0x1000000_00000000_00000000_00000000_00000000_00000000_00000000_00000000_00000000_00000000 + k * P
  {
    hide Low52, High52;
    c := p0;
    assert c < 0x20000_00000000_00000000_00000000;
    d := d0 + p5;
    assert d < 0x80000_00000000_00000000_00000000;
    var u0 := Low52(d);
    d := High52(d);
    assert u0 < 0x100000_00000000 && d < 0x80000000_00000000;
    u0 := Or(tx, u0 * 0x10, 0x10);
    assert u0 < 0x1000000_00000000;
    c := c + u0 * (R / 0x10);
    assert c < 0x80000_00000000_00000000_00000000;
    r0 := Low52(c);
    c := High52(c);
    k := u0;
  }

  /** Columns 1 and 6, or 2 and 7: one limb of the result, the upper column folded into it. */
  method MiddleColumn(low: nat, high: nat, c0: nat, d0: nat) returns (r: nat, c: nat, d: nat, ghost k: int)
    requires low < 0x40000_00000000_00000000_00000000 && high < 0x40000_00000000_00000000_00000000 - 0x1_00000000_00000000 && c0 < 0x80000000_00000000 && d0 < 0x80000000_00000000
    ensures r < 0x100000_00000000 && c < 0x80000000_00000000 && d < 0x40000000_00000000 && Join(0, d) <= high + d0
    ensures low + c0 + (high + d0) * 0x10_00000000_00000000_00000000_00000000_00000000_00000000_00000000_00000000 == Join(r, c) + d * 0x1000000_00000000_00000000_00000000_00000000_00000000_00000000_00000000_00000000_00000000 + k * (0x10_00000000_00000000_00000000_00000000_00000000_00000000_00000000_00000000 - R)
  {
    hide Low52, High52;
    c := c0 + low;
    assert c < 0x80000_00000000_00000000_00000000;
    d := d0 + high;
    assert d < 0x40000_00000000_00000000_00000000;
    k := Low52(d);
    c := c + Low52(d) * R;
    d := High52(d);
    assert c < 0x80000_00000000_00000000_00000000 && d < 0x40000000_00000000;
    r := Low52(c);
    c := High52(c);
  }

  /** The two top limbs. */
  method TopLimbs(c0: nat, d: nat, t3: nat, t4: nat) returns (r3: nat, r4: nat)
    requires c0 < 0x80000000_00000000 && d < 0x4000000_00000000 && t3 < 0x100000_00000000 && t4 < 0x10000_00000000
    ensures r3 < 0x100000_00000000 && r4 < 0x20000_00000000 - 1
    ensures Join(c0 + d * R + t3, t4) == Join(r3, r4)
  {
    hide Low52, High52;
    var c := c0 + d * R + t3;
    assert c < 0x10_00000000_00000000_00000000;
    r3 := Low52(c);
    c := High52(c);
    assert c < 0x10000_00000000;
    c := c + t4;
    assert c < 0x20000_00000000;
    r4 := c;
  }

  /** Folds the nine columns into five limbs without changing the value modulo P. */
  method FoldColumns(p: seq<nat>) returns (r: seq<Word64>, ghost k: int)
    requires |p| == 9 && forall i :: 0 <= i < 9 ==> p[i] <= ColumnMax(i)
    ensures |r| == 5 && (forall i :: 0 <= i < 4 ==> r[i] < 0x100000_00000000) && r[4] < 0x20000_00000000 - 1
    ensures Join(p[0], Join(p[1], Join(p[2], Join(p[3], Join(p[4], Join(p[5], Join(p[6], Join(p[7], p[8])))))))) == Val5(r) + k * P
  {
    hide Join;
    var t3, t4, tx, d, k1 := UpperColumns(p[3], p[4], p[8]);
    ghost var d1 := d;
    var r0, c;
    ghost var k2;
    r0, c, d, k2 := BottomColumn(p[0], p[5], tx, d);
    ghost var c2, d2 := c, d;
    var r1;
    ghost var k3;
    r1, c, d, k3 := MiddleColumn(p[1], p[6], c, d);
    ghost var c3, d3 := c, d;
    var r2;
    ghost var k4;
    r2, c, d, k4 := MiddleColumn(p[2], p[7], c, d);
    LastCarry(d, p[7], d3);
    var r3, r4 := TopLimbs(c, d, t3, t4);
    r := [r0, r1, r2, r3, r4];
    k := FoldSum(p, r, [t3, t4, tx], [d1, d2, d3, d], [c2, c3, c], [k1, k2, k3, k4]);
  }

  lemma LastCarry(d: nat, p7: nat, d3: nat)
    requires Join(0, d) <= p7 + d3 && p7 <= ColumnMax(7) && d3 < 0x40000000_00000000
    ensures d < 0x4000000_00000000
  {
  }

  /** Puts the five steps together; the answer is the multiple of P that was taken off. */
  lemma FoldSum(p: seq<int>, r: seq<int>, t: seq<int>, d: seq<int>, c: seq<int>, k: seq<int>) returns (q: int)
    requires |p| == 9 && |r| == 5 && |t| == 3 && |d| == 4 && |c| == 3 && |k| == 4
    requires Join(p[3], Join(p[4], Join(0, Join(0, Join(0, p[8]))))) == Join(t[0], Join(t[1] + t[2] * 0x10000_00000000, d[0])) + k[0] * (0x10_00000000_00000000_00000000_00000000_00000000_00000000_00000000_00000000 - R)
    requires p[0] + t[2] * 0x1_00000000_00000000_00000000_00000000_00000000_00000000_00000000_00000000 + (p[5] + d[0]) * 0x10_00000000_00000000_00000000_00000000_00000000_00000000_00000000_00000000 == Join(r[0], c[0]) + d[1] * 0x1000000_00000000_00000000_00000000_00000000_00000000_00000000_00000000_00000000_00000000 + k[1] * P
    requires p[1] + c[0] + (p[6] + d[1]) * 0x10_00000000_00000000_00000000_00000000_00000000_00000000_00000000_00000000 == Join(r[1], c[1]) + d[2] * 0x1000000_00000000_00000000_00000000_00000000_00000000_00000000_00000000_00000000_00000000 + k[2] * (0x10_00000000_00000000_00000000_00000000_00000000_00000000_00000000_00000000 - R)
    requires p[2] + c[1] + (p[7] + d[2]) * 0x10_00000000_00000000_00000000_00000000_00000000_00000000_00000000_00000000 == Join(r[2], c[2]) + d[3] * 0x1000000_00000000_00000000_00000000_00000000_00000000_00000000_00000000_00000000_00000000 + k[3] * (0x10_00000000_00000000_00000000_00000000_00000000_00000000_00000000_00000000 - R)
    requires Join(c[2] + d[3] * R + t[0], t[1]) == Join(r[3], r[4])
    ensures Join(p[0], Join(p[1], Join(p[2], Join(p[3], Join(p[4], Join(p[5], Join(p[6], Join(p[7], p[8])))))))) == Val5(r) + q * P
  {
    q := k[1] + 0x10 * (k[0] * 0x10000000_00000000_00000000_00000000_00000000 + k[2] * 0x100000_00000000 + k[3] * 0x100_00000000_00000000_00000000 + d[3] * 0x10000000_00000000_00000000_00000000_00000000);
  }

  /** The columns of a product, as 128-bit sums. */
  method MulColumns(a: seq<Word64>, b: seq<Word64>) returns (p: seq<nat>)
    requires Wide(a) && Wide(b)
    ensures |p| == 9 && forall i :: 0 <= i < 9 ==> p[i] == Column(a, b, i) && p[i] <= ColumnMax(i)
  {
    hide Prod, ColumnMax;
    ColumnBound(a, b, 0);
    ColumnBound(a, b, 1);
    ColumnBound(a, b, 2);
    ColumnBound(a, b, 3);
    ColumnBound(a, b, 4);
    ColumnBound(a, b, 5);
    ColumnBound(a, b, 6);
    ColumnBound(a, b, 7);
    ColumnBound(a, b, 8);

    var p0 := Prod(a[0], b[0]);
    var p1 := Prod(a[0], b[1]) + Prod(a[1], b[0]);
    var p2 := Prod(a[0], b[2]) + Prod(a[1], b[1]) + Prod(a[2], b[0]);
    var p3 := Prod(a[0], b[3]) + Prod(a[1], b[2]) + Prod(a[2], b[1]) + Prod(a[3], b[0]);
    var p4 := Prod(a[0], b[4]) + Prod(a[1], b[3]) + Prod(a[2], b[2]) + Prod(a[3], b[1]) + Prod(a[4], b[0]);
    var p5 := Prod(a[1], b[4]) + Prod(a[2], b[3]) + Prod(a[3], b[2]) + Prod(a[4], b[1]);
    var p6 := Prod(a[2], b[4]) + Prod(a[3], b[3]) + Prod(a[4], b[2]);
    var p7 := Prod(a[3], b[4]) + Prod(a[4], b[3]);
    var p8 := Prod(a[4], b[4]);
    p := [p0, p1, p2, p3, p4, p5, p6, p7, p8];
  }

  /** The columns of a square: mixed products appear once, with one factor doubled. */
  method SqrColumns(a: seq<Word64>) returns (p: seq<nat>)
    requires Wide(a)
    ensures |p| == 9 && forall i :: 0 <= i < 9 ==> p[i] == Column(a, a, i) && p[i] <= ColumnMax(i)
  {
    hide Prod, ColumnMax;
    assert forall i :: 0 <= i < 5 ==> a[i] * 2 < 0x1_00000000_00000000;
    ColumnBound(a, a, 0);
    ColumnBound(a, a, 1);
    ColumnBound(a, a, 2);
    ColumnBound(a, a, 3);
    ColumnBound(a, a, 4);
    ColumnBound(a, a, 5);
    ColumnBound(a, a, 6);
    ColumnBound(a, a, 7);
    ColumnBound(a, a, 8);
    ProdTwice(a[0], a[3]);
    ProdCommutes(a[0], a[3]);
    ProdTwice(a[1], a[2]);
    ProdCommutes(a[1], a[2]);
    ProdTwice(a[0], a[4]);
    ProdCommutes(a[0], a[4]);
    ProdTwice(a[1], a[3]);
    ProdCommutes(a[1], a[3]);
    ProdTwice(a[1], a[4]);
    ProdCommutes(a[1], a[4]);
    ProdTwice(a[2], a[3]);
    ProdCommutes(a[2], a[3]);
    ProdTwice(a[0], a[1]);
    ProdCommutes(a[0], a[1]);
    ProdTwice(a[2], a[4]);
    ProdCommutes(a[2], a[4]);
    ProdTwice(a[0], a[2]);
    ProdCommutes(a[0], a[2]);
    ProdTwice(a[3], a[4]);
    ProdCommutes(a[3], a[4]);
    var p3 := Prod(a[0] * 2, a[3]) + Prod(a[1] * 2, a[2]);
    var p8 := Prod(a[4], a[4]);
    var p4 := Prod(a[0], a[4] * 2) + Prod(a[1] * 2, a[3]) + Prod(a[2], a[2]);
    var p0 := Prod(a[0], a[0]);
    var p5 := Prod(a[1], a[4] * 2) + Prod(a[2] * 2, a[3]);
    var p1 := Prod(a[0] * 2, a[1]);
    var p6 := Prod(a[2], a[4] * 2) + Prod(a[3], a[3]);
    var p2 := Prod(a[0] * 2, a[2]) + Prod(a[1], a[1]);
    var p7 := Prod(a[3], a[4] * 2);
    p := [p0, p1, p2, p3, p4, p5, p6, p7, p8];
  }

  method MulInner(a: seq<Word64>, b: seq<Word64>) returns (r: seq<Word64>)
    requires Wide(a) && Wide(b)
    ensures |r| == 5 && (forall i :: 0 <= i < 4 ==> r[i] < 0x100000_00000000) && r[4] < 0x20000_00000000 - 1
    ensures Congruent(Val5(r), Val5(a) * Val5(b), P)
  {
    hide Prod, Column, ColumnMax, Val5, Congruent, Join;
    var p := MulColumns(a, b);
    ghost var k;
    r, k := FoldColumns(p);
    ColumnsAreProduct(a, b);
    Folded(Val5(r), Val5(a), Val5(b), k);
  }

  method SqrInner(a: seq<Word64>) returns (r: seq<Word64>)
    requires Wide(a)
    ensures |r| == 5 && (forall i :: 0 <= i < 4 ==> r[i] < 0x100000_00000000) && r[4] < 0x20000_00000000 - 1
    ensures Congruent(Val5(r), Val5(a) * Val5(a), P)
  {
    hide Prod, Column, ColumnMax, Val5, Congruent, Join;
    var p := SqrColumns(a);
    ghost var k;
    r, k := FoldColumns(p);
    ColumnsAreProduct(a, a);
    Folded(Val5(r), Val5(a), Val5(a), k);
  }

  lemma Folded(v: int, x: int, y: int, k: int)
    requires Prod(x, y) == v + k * P
    ensures Congruent(v, x * y, P)
  {
    MultipleCongruent(v, x * y, P, -k);
  }
}
