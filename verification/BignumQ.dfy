/** Arithmetic modulo the order of the Ed25519 base point (section 5.1 of RFC 8032) on five limbs of 56 bits:
    Barrett reduction of 512-bit numbers, and the multiplication and addition built on it. */
module BignumQ {
  import opened Arith

  const TWO_56: int := 0x1000000_00000000
  const TWO_64: int := 0x1_00000000_00000000
  const TWO_128: int := 0x1_00000000_00000000_00000000_00000000
  const TWO_248: int := 0x1000000_00000000_00000000_00000000_00000000_00000000_00000000_00000000
  const TWO_264: int := 0x100_00000000_00000000_00000000_00000000_00000000_00000000_00000000_00000000
  const TWO_512: int := 0x1_00000000_00000000_00000000_00000000_00000000_00000000_00000000_00000000_00000000_00000000_00000000_00000000_00000000_00000000_00000000_00000000

  /** The order of the base point, and 2^512 divided by it. */
  const Q: int := 0x1000000000000000000000000000000014def9dea2f79cd65812631a5cf5d3ed
  const MU: int := 0xfffffffffffffffffffffffffffffffeb2106215d086329a7ed9ce5a30a2c131b

  type Limb = x: int | 0 <= x < 0x1000000_00000000 witness 0
  type Word64 = x: int | 0 <= x < 0x1_00000000_00000000 witness 0
  type Word128 = x: int | 0 <= x < 0x1_00000000_00000000_00000000_00000000 witness 0

  const M_LIMBS: seq<Limb> := [0x12631a5cf5d3ed, 0xf9dea2f79cd658, 0x000000000014de, 0x00000000000000, 0x00000010000000]
  const MU_LIMBS: seq<Limb> := [0x9ce5a30a2c131b, 0x215d086329a7ed, 0xffffffffeb2106, 0xffffffffffffff, 0x00000fffffffff]

  function Join(lo: int, hi: int): int { lo + OneLimbUp(hi) }

  function OneLimbUp(hi: int): int { hi * 0x1000000_00000000 }

  function Val5(x: seq<int>): int
    requires |x| == 5
  {
    Join(x[0], Join(x[1], Join(x[2], Join(x[3], x[4]))))
  }

  function Val9(x: seq<int>): int
    requires |x| == 9
  {
    Join(x[0], Join(x[1], Join(x[2], Join(x[3], Join(x[4], Join(x[5], Join(x[6], Join(x[7], x[8]))))))))
  }

  function Val10(x: seq<int>): int
    requires |x| == 10
  {
    Join(x[0], Join(x[1], Join(x[2], Join(x[3], Join(x[4], Join(x[5], Join(x[6], Join(x[7], Join(x[8], x[9])))))))))
  }

  lemma Constants()
    ensures Val5(M_LIMBS) == Q && Val5(MU_LIMBS) == MU
    ensures MU == TWO_512 / Q
  {
  }

  lemma ProdBound(a: Limb, b: Limb)
    ensures 0 <= Prod(a, b) <= 0x10000_00000000_00000000_00000000
  {
    MulMono(a, TWO_56, b);
    MulMono(b, TWO_56, TWO_56);
    MulMono(0, a, b);
  }

  lemma Distribute5(x: int, y: seq<int>)
    requires |y| == 5
    ensures Prod(x, Val5(y)) == Join(Prod(x, y[0]), Join(Prod(x, y[1]), Join(Prod(x, y[2]), Join(Prod(x, y[3]), Prod(x, y[4])))))
  {
  }

  lemma ProdCommutes(x: int, y: int)
    ensures Prod(x, y) == Prod(y, x)
  {
  }

  /** The column of weight 2^(56 k) of a product. */
  function Column(x: seq<Limb>, y: seq<Limb>, k: nat): (c: int)
    requires |x| == 5 && |y| == 5 && k < 9
  {
    match k
    case 0 => Prod(x[0], y[0])
    case 1 => Prod(x[0], y[1]) + Prod(x[1], y[0])
    case 2 => Prod(x[0], y[2]) + Prod(x[1], y[1]) + Prod(x[2], y[0])
    case 3 => Prod(x[0], y[3]) + Prod(x[1], y[2]) + Prod(x[2], y[1]) + Prod(x[3], y[0])
    case 4 => Prod(x[0], y[4]) + Prod(x[1], y[3]) + Prod(x[2], y[2]) + Prod(x[3], y[1]) + Prod(x[4], y[0])
    case 5 => Prod(x[1], y[4]) + Prod(x[2], y[3]) + Prod(x[3], y[2]) + Prod(x[4], y[1])
    case 6 => Prod(x[2], y[4]) + Prod(x[3], y[3]) + Prod(x[4], y[2])
    case 7 => Prod(x[3], y[4]) + Prod(x[4], y[3])
    case 8 => Prod(x[4], y[4])
  }

  lemma ColumnBound(x: seq<Limb>, y: seq<Limb>, k: nat)
    requires |x| == 5 && |y| == 5 && k < 9
    ensures 0 <= Column(x, y, k) <= 5 * 0x10000_00000000_00000000_00000000
  {
    forall i, j | 0 <= i < 5 && 0 <= j < 5
      ensures 0 <= Prod(x[i], y[j]) <= 0x10000_00000000_00000000_00000000
    {
      ProdBound(x[i], y[j]);
    }
    hide Prod;
  }

  lemma ColumnsAreProduct(x: seq<Limb>, y: seq<Limb>)
    requires |x| == 5 && |y| == 5
    ensures Join(Column(x, y, 0), Join(Column(x, y, 1), Join(Column(x, y, 2), Join(Column(x, y, 3), Join(Column(x, y, 4), Join(Column(x, y, 5), Join(Column(x, y, 6), Join(Column(x, y, 7), Column(x, y, 8)))))))))
         == Prod(Val5(x), Val5(y))
  {
    hide Prod, Val5, Column, Join;
    var v := Val5(y);
    Distribute5(v, x);
    ProdCommutes(v, Val5(x));
    forall i | 0 <= i < 5
      ensures Prod(v, x[i]) == Join(Prod(x[i], y[0]), Join(Prod(x[i], y[1]), Join(Prod(x[i], y[2]), Join(Prod(x[i], y[3]), Prod(x[i], y[4])))))
    {
      Distribute5(x[i], y);
      ProdCommutes(v, x[i]);
    }
    ColumnsAreRows(x, y, [Prod(v, x[0]), Prod(v, x[1]), Prod(v, x[2]), Prod(v, x[3]), Prod(v, x[4])]);
  }

  lemma ColumnsAreRows(x: seq<Limb>, y: seq<Limb>, rows: seq<int>)
    requires |x| == 5 && |y| == 5 && |rows| == 5
    requires rows[0] == Join(Prod(x[0], y[0]), Join(Prod(x[0], y[1]), Join(Prod(x[0], y[2]), Join(Prod(x[0], y[3]), Prod(x[0], y[4])))))
    requires rows[1] == Join(Prod(x[1], y[0]), Join(Prod(x[1], y[1]), Join(Prod(x[1], y[2]), Join(Prod(x[1], y[3]), Prod(x[1], y[4])))))
    requires rows[2] == Join(Prod(x[2], y[0]), Join(Prod(x[2], y[1]), Join(Prod(x[2], y[2]), Join(Prod(x[2], y[3]), Prod(x[2], y[4])))))
    requires rows[3] == Join(Prod(x[3], y[0]), Join(Prod(x[3], y[1]), Join(Prod(x[3], y[2]), Join(Prod(x[3], y[3]), Prod(x[3], y[4])))))
    requires rows[4] == Join(Prod(x[4], y[0]), Join(Prod(x[4], y[1]), Join(Prod(x[4], y[2]), Join(Prod(x[4], y[3]), Prod(x[4], y[4])))))
    ensures Join(Column(x, y, 0), Join(Column(x, y, 1), Join(Column(x, y, 2), Join(Column(x, y, 3), Join(Column(x, y, 4), Join(Column(x, y, 5), Join(Column(x, y, 6), Join(Column(x, y, 7), Column(x, y, 8))))))))) == Join(rows[0], Join(rows[1], Join(rows[2], Join(rows[3], rows[4]))))
  {
    hide Prod;
  }

  /** Writes limbs into a buffer at an offset. */
  method Put(buf: array<nat>, at: nat, v: seq<nat>)
    requires at + |v| <= buf.Length
    modifies buf
    ensures buf[..] == old(buf[..at]) + v + old(buf[at + |v|..])
  {
    var i := 0;
    while i < |v|
      invariant 0 <= i <= |v|
      invariant forall k :: 0 <= k < buf.Length ==> buf[k] == if at <= k < at + i then v[k - at] else old(buf[k])
    {
      buf[at + i] := v[i];
      i := i + 1;
    }
  }

  // ----- products

  /** All nine columns of the product; each one fits in 128 bits. */
  method MulFive(x: seq<Limb>, y: seq<Limb>) returns (z: seq<Word128>)
    requires |x| == 5 && |y| == 5
    ensures |z| == 9 && Val9(z) == Prod(Val5(x), Val5(y))
    ensures forall k :: 0 <= k < 9 ==> z[k] <= 5 * 0x10000_00000000_00000000_00000000
  {
    forall k: nat | k < 9
      ensures 0 <= Column(x, y, k) <= 5 * 0x10000_00000000_00000000_00000000
    {
      ColumnBound(x, y, k);
    }
    ColumnsAreProduct(x, y);
    hide Prod, Val5, Join;
    var z0: int := Prod(x[0], y[0]);
    assert z0 == Column(x, y, 0);
    var z1: int := Prod(x[0], y[1]) + Prod(x[1], y[0]);
    assert z1 == Column(x, y, 1);
    var z2: int := Prod(x[0], y[2]) + Prod(x[1], y[1]) + Prod(x[2], y[0]);
    assert z2 == Column(x, y, 2);
    var z3: int := Prod(x[0], y[3]) + Prod(x[1], y[2]) + Prod(x[2], y[1]) + Prod(x[3], y[0]);
    assert z3 == Column(x, y, 3);
    var z4: int := Prod(x[0], y[4]) + Prod(x[1], y[3]) + Prod(x[2], y[2]) + Prod(x[3], y[1]) + Prod(x[4], y[0]);
    assert z4 == Column(x, y, 4);
    var z5: int := Prod(x[1], y[4]) + Prod(x[2], y[3]) + Prod(x[3], y[2]) + Prod(x[4], y[1]);
    assert z5 == Column(x, y, 5);
    var z6: int := Prod(x[2], y[4]) + Prod(x[3], y[3]) + Prod(x[4], y[2]);
    assert z6 == Column(x, y, 6);
    var z7: int := Prod(x[3], y[4]) + Prod(x[4], y[3]);
    assert z7 == Column(x, y, 7);
    var z8: int := Prod(x[4], y[4]);
    assert z8 == Column(x, y, 8);
    z := [z0, z1, z2, z3, z4, z5, z6, z7, z8];
  }

  function Low56(t: nat): (l: Limb) { t % TWO_56 }

  function High56(t: nat): (h: nat)
    ensures t == Join(Low56(t), h)
    ensures t < TWO_128 ==> h < 0x100_00000000_00000000
  {
    t / TWO_56
  }

  /** Carries nine wide columns into ten limbs. */
  method Carry(z: seq<Word128>) returns (l: seq<nat>)
    requires |z| == 9 && forall k :: 0 <= k < 9 ==> z[k] <= 5 * 0x10000_00000000_00000000_00000000
    ensures |l| == 10 && (forall k :: 0 <= k < 9 ==> l[k] < TWO_56) && l[9] < TWO_64
    ensures Val10(l) == Val9(z)
  {
    hide Low56, High56;
    var t: Word128 := z[0];
    var x0 := Low56(t);
    t := z[1] + High56(t);
    var x1 := Low56(t);
    t := z[2] + High56(t);
    var x2 := Low56(t);
    t := z[3] + High56(t);
    var x3 := Low56(t);
    t := z[4] + High56(t);
    var x4 := Low56(t);
    t := z[5] + High56(t);
    var x5 := Low56(t);
    t := z[6] + High56(t);
    var x6 := Low56(t);
    t := z[7] + High56(t);
    var x7 := Low56(t);
    t := z[8] + High56(t);
    var x8 := Low56(t);
    l := [x0, x1, x2, x3, x4, x5, x6, x7, x8, High56(t)];
  }

  /** The five columns below 2^280. */
  method LowProducts(x: seq<Limb>, y: seq<Limb>) returns (p0: Word128, p1: Word128, p2: Word128, p3: Word128, p4: Word128)
    requires |x| == 5 && |y| == 5
    ensures p0 == Column(x, y, 0) && p1 == Column(x, y, 1) && p2 == Column(x, y, 2) && p3 == Column(x, y, 3)
    ensures p4 == Column(x, y, 4)
    ensures p0 <= 5 * 0x10000_00000000_00000000_00000000 && p1 <= 5 * 0x10000_00000000_00000000_00000000 && p2 <= 5 * 0x10000_00000000_00000000_00000000 && p3 <= 5 * 0x10000_00000000_00000000_00000000 && p4 <= 5 * 0x10000_00000000_00000000_00000000
  {
    hide Prod;
    ColumnBound(x, y, 0);
    ColumnBound(x, y, 1);
    ColumnBound(x, y, 2);
    ColumnBound(x, y, 3);
    ColumnBound(x, y, 4);

    p0 := Prod(x[0], y[0]);
    p1 := Prod(x[0], y[1]) + Prod(x[1], y[0]);
    p2 := Prod(x[0], y[2]) + Prod(x[1], y[1]) + Prod(x[2], y[0]);
    p3 := Prod(x[0], y[3]) + Prod(x[1], y[2]) + Prod(x[2], y[1]) + Prod(x[3], y[0]);
    p4 := Prod(x[0], y[4]) + Prod(x[1], y[3]) + Prod(x[2], y[2]) + Prod(x[3], y[1]) + Prod(x[4], y[0]);
  }

  /** The product modulo 2^264: the upper columns are never formed. */
  method LowMulFive(x: seq<Limb>, y: seq<Limb>) returns (z: seq<Limb>)
    requires |x| == 5 && |y| == 5
    ensures |z| == 5 && z[4] < 0x100_00000000 && Val5(z) == Prod(Val5(x), Val5(y)) % TWO_264
  {
    hide Prod, Val5, Join, Low56, High56, Column;
    var p0, p1, p2, p3, p4 := LowProducts(x, y);
    var t := p0;
    var t0 := Low56(t);
    ghost var c1 := High56(t);
    t := p1 + High56(t);
    var t1 := Low56(t);
    ghost var c2 := High56(t);
    t := p2 + High56(t);
    var t2 := Low56(t);
    ghost var c3 := High56(t);
    t := p3 + High56(t);
    var t3 := Low56(t);
    ghost var c4 := High56(t);
    t := p4 + High56(t);
    ghost var s4 := t;
    z := [t0, t1, t2, t3, t % 0x100_00000000];
    LowColumns(x, y, [t0, t1, t2, t3, s4], c1, c2, c3, c4);
    LowValue(x, y, z, s4);
  }

  lemma LowColumns(x: seq<Limb>, y: seq<Limb>, l: seq<int>, c1: int, c2: int, c3: int, c4: int)
    requires |x| == 5 && |y| == 5 && |l| == 5
    requires Column(x, y, 0) == Join(l[0], c1)
    requires Column(x, y, 1) + c1 == Join(l[1], c2)
    requires Column(x, y, 2) + c2 == Join(l[2], c3)
    requires Column(x, y, 3) + c3 == Join(l[3], c4)
    requires Column(x, y, 4) + c4 == l[4]
    ensures Val5(l) == Join(Column(x, y, 0), Join(Column(x, y, 1), Join(Column(x, y, 2), Join(Column(x, y, 3), Column(x, y, 4)))))
  {
    hide Column;
  }

  lemma LowValue(x: seq<Limb>, y: seq<Limb>, z: seq<Limb>, top: nat)
    requires |x| == 5 && |y| == 5 && |z| == 5
    requires z[4] == top % 0x100_00000000
    requires Val5([z[0], z[1], z[2], z[3], top]) == Join(Column(x, y, 0), Join(Column(x, y, 1), Join(Column(x, y, 2), Join(Column(x, y, 3), Column(x, y, 4)))))
    ensures Val5(z) == Prod(Val5(x), Val5(y)) % TWO_264
  {
    hide Prod, Column;
    ColumnsAreProduct(x, y);
    var rest := Join(Column(x, y, 5), Join(Column(x, y, 6), Join(Column(x, y, 7), Column(x, y, 8))));
    var h := top / 0x100_00000000;
    LowSum(x, y, z, top, h, rest);
    LowBound(z);
    hide Val5;
    DivModUnique(Prod(Val5(x), Val5(y)), TWO_264, h + 0x10000 * rest, Val5(z));
  }

  lemma LowBound(z: seq<Limb>)
    requires |z| == 5
    ensures 0 <= Val5(z)
    ensures z[4] < 0x100_00000000 ==> Val5(z) < TWO_264
  {
  }

  lemma LowSum(x: seq<Limb>, y: seq<Limb>, z: seq<int>, top: int, h: int, rest: int)
    requires |x| == 5 && |y| == 5 && |z| == 5 && top == h * 0x100_00000000 + z[4]
    requires Val5([z[0], z[1], z[2], z[3], top]) == Join(Column(x, y, 0), Join(Column(x, y, 1), Join(Column(x, y, 2), Join(Column(x, y, 3), Column(x, y, 4)))))
    requires rest == Join(Column(x, y, 5), Join(Column(x, y, 6), Join(Column(x, y, 7), Column(x, y, 8))))
    ensures Join(Column(x, y, 0), Join(Column(x, y, 1), Join(Column(x, y, 2), Join(Column(x, y, 3), Join(Column(x, y, 4), Join(Column(x, y, 5), Join(Column(x, y, 6), Join(Column(x, y, 7), Column(x, y, 8))))))))) == (h + 0x10000 * rest) * TWO_264 + Val5(z)
  {
    hide Column;
  }

  // ----- shifts across limbs

  lemma LowRange(t0: nat, t1: nat, t2: nat, t3: nat, l: nat)
    requires t0 < TWO_56 && t1 < TWO_56 && t2 < TWO_56 && t3 < TWO_56
    ensures 0 <= Join(t0, Join(t1, Join(t2, Join(t3, l))))
    ensures l < 0x1000000 ==> Join(t0, Join(t1, Join(t2, Join(t3, l)))) < TWO_248
    ensures l < 0x100_00000000 ==> Join(t0, Join(t1, Join(t2, Join(t3, l)))) < TWO_264
  {
  }

  /** Bitwise or of a shifted low part with the bits moved in above it. */
  function Or(low: nat, high: nat, p: nat): nat
    requires p > 0 && low < p && high % p == 0
  {
    low + high
  }

  /** Ten limbs shifted right by 248 bits. */
  method Div248(t: seq<nat>) returns (q: seq<Limb>)
    requires |t| == 10 && (forall k :: 0 <= k < 10 ==> t[k] < TWO_56) && t[9] < 0x1000000
    ensures |q| == 5 && Val5(q) == Val10(t) / TWO_248
  {
    var z0 := Or(t[4] / 0x1000000, (t[5] % 0x1000000) * 0x1_00000000, 0x1_00000000);
    var z1 := Or(t[5] / 0x1000000, (t[6] % 0x1000000) * 0x1_00000000, 0x1_00000000);
    var z2 := Or(t[6] / 0x1000000, (t[7] % 0x1000000) * 0x1_00000000, 0x1_00000000);
    var z3 := Or(t[7] / 0x1000000, (t[8] % 0x1000000) * 0x1_00000000, 0x1_00000000);
    var z4 := Or(t[8] / 0x1000000, (t[9] % 0x1000000) * 0x1_00000000, 0x1_00000000);
    q := [z0, z1, z2, z3, z4];
    ShiftedBy24(t, q);
  }

  lemma ShiftedBy24(t: seq<nat>, q: seq<Limb>)
    requires |t| == 10 && (forall k :: 0 <= k < 10 ==> t[k] < TWO_56) && t[9] < 0x1000000 && |q| == 5
    requires forall i :: 0 <= i < 5 ==> q[i] == t[i + 4] / 0x1000000 + (t[i + 5] % 0x1000000) * 0x1_00000000
    ensures Val5(q) == Val10(t) / TWO_248
  {
    var h := [t[4] / 0x1000000, t[5] / 0x1000000, t[6] / 0x1000000, t[7] / 0x1000000, t[8] / 0x1000000];
    var l := [t[4] % 0x1000000, t[5] % 0x1000000, t[6] % 0x1000000, t[7] % 0x1000000, t[8] % 0x1000000, t[9]];
    var low := Join(t[0], Join(t[1], Join(t[2], Join(t[3], l[0]))));
    hide Val5, Val10, Join;
    ShiftSum24(t, q, h, l);
    LowRange(t[0], t[1], t[2], t[3], l[0]);
    DivModUnique(Val10(t), TWO_248, Val5(q), low);
  }

  lemma ShiftSum24(t: seq<int>, q: seq<int>, h: seq<int>, l: seq<int>)
    requires |t| == 10 && |q| == 5 && |h| == 5 && |l| == 6
    requires t[4] == l[0] + h[0] * 0x1000000 && q[0] == h[0] + l[1] * 0x1_00000000
    requires t[5] == l[1] + h[1] * 0x1000000 && q[1] == h[1] + l[2] * 0x1_00000000
    requires t[6] == l[2] + h[2] * 0x1000000 && q[2] == h[2] + l[3] * 0x1_00000000
    requires t[7] == l[3] + h[3] * 0x1000000 && q[3] == h[3] + l[4] * 0x1_00000000
    requires t[8] == l[4] + h[4] * 0x1000000 && q[4] == h[4] + l[5] * 0x1_00000000
    requires l[5] == t[9]
    ensures Val10(t) == Val5(q) * TWO_248 + Join(t[0], Join(t[1], Join(t[2], Join(t[3], l[0]))))
  {
  }

  /** Ten limbs shifted right by 264 bits. */
  method Div264(t: seq<nat>) returns (q: seq<Limb>)
    requires |t| == 10 && (forall k :: 0 <= k < 10 ==> t[k] < TWO_56) && t[9] < 0x100_00000000
    ensures |q| == 5 && Val5(q) == Val10(t) / TWO_264
  {
    var z0 := Or(t[4] / 0x100_00000000, (t[5] % 0x100_00000000) * 0x10000, 0x10000);
    var z1 := Or(t[5] / 0x100_00000000, (t[6] % 0x100_00000000) * 0x10000, 0x10000);
    var z2 := Or(t[6] / 0x100_00000000, (t[7] % 0x100_00000000) * 0x10000, 0x10000);
    var z3 := Or(t[7] / 0x100_00000000, (t[8] % 0x100_00000000) * 0x10000, 0x10000);
    var z4 := Or(t[8] / 0x100_00000000, (t[9] % 0x100_00000000) * 0x10000, 0x10000);
    q := [z0, z1, z2, z3, z4];
    ShiftedBy40(t, q);
  }

  lemma ShiftedBy40(t: seq<nat>, q: seq<Limb>)
    requires |t| == 10 && (forall k :: 0 <= k < 10 ==> t[k] < TWO_56) && t[9] < 0x100_00000000 && |q| == 5
    requires forall i :: 0 <= i < 5 ==> q[i] == t[i + 4] / 0x100_00000000 + (t[i + 5] % 0x100_00000000) * 0x10000
    ensures Val5(q) == Val10(t) / TWO_264
  {
    var h := [t[4] / 0x100_00000000, t[5] / 0x100_00000000, t[6] / 0x100_00000000, t[7] / 0x100_00000000, t[8] / 0x100_00000000];
    var l := [t[4] % 0x100_00000000, t[5] % 0x100_00000000, t[6] % 0x100_00000000, t[7] % 0x100_00000000, t[8] % 0x100_00000000, t[9]];
    var low := Join(t[0], Join(t[1], Join(t[2], Join(t[3], l[0]))));
    hide Val5, Val10, Join;
    ShiftSum40(t, q, h, l);
    LowRange(t[0], t[1], t[2], t[3], l[0]);
    DivModUnique(Val10(t), TWO_264, Val5(q), low);
  }

  lemma ShiftSum40(t: seq<int>, q: seq<int>, h: seq<int>, l: seq<int>)
    requires |t| == 10 && |q| == 5 && |h| == 5 && |l| == 6
    requires t[4] == l[0] + h[0] * 0x100_00000000 && q[0] == h[0] + l[1] * 0x10000
    requires t[5] == l[1] + h[1] * 0x100_00000000 && q[1] == h[1] + l[2] * 0x10000
    requires t[6] == l[2] + h[2] * 0x100_00000000 && q[2] == h[2] + l[3] * 0x10000
    requires t[7] == l[3] + h[3] * 0x100_00000000 && q[3] == h[3] + l[4] * 0x10000
    requires t[8] == l[4] + h[4] * 0x100_00000000 && q[4] == h[4] + l[5] * 0x10000
    requires l[5] == t[9]
    ensures Val10(t) == Val5(q) * TWO_264 + Join(t[0], Join(t[1], Join(t[2], Join(t[3], l[0]))))
  {
  }

  /** The low 264 bits of ten limbs. */
  method Mod264(t: seq<nat>) returns (r: seq<Limb>)
    requires |t| == 10 && (forall k :: 0 <= k < 10 ==> t[k] < TWO_56)
    ensures |r| == 5 && r[4] < 0x100_00000000 && Val5(r) == Val10(t) % TWO_264
  {
    r := [t[0], t[1], t[2], t[3], t[4] % 0x100_00000000];
    LowPart(t, r);
  }

  lemma LowPart(t: seq<nat>, r: seq<Limb>)
    requires |t| == 10 && |r| == 5
    requires r[0] == t[0] && r[1] == t[1] && r[2] == t[2] && r[3] == t[3] && r[4] == t[4] % 0x100_00000000
    ensures Val5(r) == Val10(t) % TWO_264
  {
    var high := t[4] / 0x100_00000000 + 0x10000 * Join(t[5], Join(t[6], Join(t[7], Join(t[8], t[9]))));
    assert Val10(t) == high * TWO_264 + Val5(r);
    LowBound(r);
    hide Val5, Val10;
    DivModUnique(Val10(t), TWO_264, high, Val5(r));
  }

  // ----- subtraction with borrow

  /** 64-bit subtraction, and the top bit that says whether it wrapped. */
  function Sub64(a: int, b: int): (d: Word64) { (a - b) % TWO_64 }

  function Lt(a: int, b: int): (c: int)
    ensures 0 <= a < 0x80000000_00000000 && 0 <= b < 0x80000000_00000000 ==> c == if a < b then 1 else 0
  {
    Sub64(a, b) / 0x80000000_00000000
  }

  /** One limb of a subtraction: borrows 2^56 if the limb is too small. */
  method SubLimb(x: Limb, y: Word64, width: nat) returns (t: int, b: int)
    requires y <= width && x < width && (width == TWO_56 || width == 0x100_00000000)
    ensures 0 <= t < width && 0 <= b <= 1 && t == x - y + b * width
  {
    b := Lt(x, y);
    t := Sub64(b * width + x, y);
  }

  /** The difference modulo 2^264. */
  method SubMod264(x: seq<Limb>, y: seq<Limb>) returns (z: seq<Limb>)
    requires |x| == 5 && |y| == 5 && x[4] < 0x100_00000000 && y[4] < 0x100_00000000
    ensures |z| == 5 && z[4] < 0x100_00000000 && Val5(z) == (Val5(x) - Val5(y)) % TWO_264
  {
    var t0, b := SubLimb(x[0], y[0], TWO_56);
    var t1, b1 := SubLimb(x[1], y[1] + b, TWO_56);
    var t2, b2 := SubLimb(x[2], y[2] + b1, TWO_56);
    var t3, b3 := SubLimb(x[3], y[3] + b2, TWO_56);
    var t4, b4 := SubLimb(x[4], y[4] + b3, 0x100_00000000);
    z := [t0, t1, t2, t3, t4];
    assert Val5(x) - Val5(y) == -b4 * TWO_264 + Val5(z);
    LowBound(z);
    hide Val5;
    DivModUnique(Val5(x) - Val5(y), TWO_264, -b4, Val5(z));
  }

  /** Selects x when b is 1 and y when b is 0, under a mask. */
  function Choose(x: seq<Limb>, y: seq<Limb>, b: int): (z: seq<Limb>)
    requires |x| == 5 && |y| == 5 && 0 <= b <= 1
    ensures |z| == 5
  {
    if b == 1 then x else y
  }

  /** Subtracts the order once unless that would go below zero. */
  method SubmConditional(x: seq<Limb>) returns (z: seq<Limb>)
    requires |x| == 5
    ensures |z| == 5 && Val5(z) == if Val5(x) < Q then Val5(x) else Val5(x) - Q
  {
    var y0: Word64, y1: Word64, y2: Word64, y3: Word64, y4: Word64 :=
      0x12631a5cf5d3ed, 0xf9dea2f79cd658, 0x000000000014de, 0x00000000000000, 0x00000010000000;
    var t0, b := SubLimb(x[0], y0, TWO_56);
    var t1, b1 := SubLimb(x[1], y1 + b, TWO_56);
    var t2, b2 := SubLimb(x[2], y2 + b1, TWO_56);
    var t3, b3 := SubLimb(x[3], y3 + b2, TWO_56);
    var t4, b4 := SubLimb(x[4], y4 + b3, TWO_56);
    z := [t0, t1, t2, t3, t4];
    assert Val5(z) == Val5(x) - Q + b4 * 0x1000000_00000000_00000000_00000000_00000000_00000000_00000000_00000000_00000000;
    SubmBound(z, x);
    z := Choose(x, z, b4);
  }

  lemma SubmBound(z: seq<Limb>, x: seq<Limb>)
    requires |z| == 5 && |x| == 5
    ensures 0 <= Val5(z) < 0x1000000_00000000_00000000_00000000_00000000_00000000_00000000_00000000_00000000 && 0 <= Val5(x) < 0x1000000_00000000_00000000_00000000_00000000_00000000_00000000_00000000_00000000
  {
  }

  // ----- Barrett reduction

  /** Truncating to 248 bits, multiplying by MU and truncating to 264 bits underestimates t / Q by at most one. */
  lemma QuotientClose(t: nat, q1: int, r1: int, q3: int, r2: int)
    requires t < TWO_512
    requires t == q1 * TWO_248 + r1 && 0 <= r1 < TWO_248
    requires q1 * MU == q3 * TWO_264 + r2 && 0 <= r2 < TWO_264
    ensures 0 <= t - q3 * Q < 2 * Q
    ensures q3 == t / Q || q3 == t / Q - 1
  {
    var r := t - q3 * Q;
    if r < Q {
      DivModUnique(t, Q, q3, r);
    } else {
      DivModUnique(t, Q, q3 + 1, r - Q);
    }
  }

  /** The remainder can be formed modulo 2^264 because it is below 2 Q. */
  lemma RemainderLow(t: nat, q3: int)
    requires 0 <= t - q3 * Q < 2 * Q
    ensures ((t % TWO_264) - (q3 * Q) % TWO_264) % TWO_264 == t - q3 * Q
    ensures t % Q == if t - q3 * Q < Q then t - q3 * Q else t - q3 * Q - Q
  {
    var p := q3 * Q;
    var k := t / TWO_264 - p / TWO_264;
    DivModUnique((t % TWO_264) - p % TWO_264, TWO_264, -k, t - p);
    if t - p < Q {
      DivModUnique(t, Q, q3, t - p);
    } else {
      DivModUnique(t, Q, q3 + 1, t - p - Q);
    }
  }

  lemma TopLimb(t: seq<nat>)
    requires |t| == 10 && Val10(t) < TWO_512
    ensures t[9] < 0x100
  {
  }

  /** The product of the truncated number with MU leaves the tenth limb small. */
  lemma ScaledTop(l: seq<nat>, q1: nat)
    requires |l| == 10 && q1 < TWO_264 && Val10(l) == q1 * MU
    ensures l[9] < 0x100_00000000
  {
  }

  /** First half: the estimate of the quotient lands at offset 30 of the shared buffer. */
  method BarrettQuotient(t: seq<nat>, tmp: array<nat>)
    requires |t| == 10 && (forall k :: 0 <= k < 10 ==> t[k] < TWO_56) && Val10(t) < TWO_512
    requires tmp.Length == 40 && tmp[5..10] == MU_LIMBS
    modifies tmp
    ensures tmp[..10] == old(tmp[..10])
    ensures forall k :: 30 <= k < 35 ==> tmp[k] < TWO_56
    ensures Val5(tmp[30..35]) == ((Val10(t) / TWO_248) * MU) / TWO_264
  {
    hide Val5, Val10, Prod;
    ghost var head := tmp[..10];
    TopLimb(t);
    var q1 := Div248(t);
    Put(tmp, 10, q1);
    Constants();
    assert tmp[..10] == head;
    assert tmp[5..10] == head[5..10] == MU_LIMBS;
    var z := MulFive(q1, MU_LIMBS);
    var l := Carry(z);
    Val10NonNeg(t);
    QuotientBound(Val10(t));
    ProdIsProduct(Val5(q1), MU);
    ScaledTop(l, Val5(q1));
    Put(tmp, 20, l);
    assert tmp[..10] == head;
    var q3 := Div264(l);
    Put(tmp, 30, q3);
    assert tmp[..10] == head;
    assert tmp[30..35] == q3;
    ProdIsProduct(Val5(q1), MU);
  }

  lemma Val10NonNeg(t: seq<nat>)
    requires |t| == 10
    ensures Val10(t) >= 0
  {
  }

  lemma ProdIsProduct(x: int, y: int)
    ensures Prod(x, y) == x * y
  {
  }

  lemma QuotientBound(t: int)
    requires 0 <= t < TWO_512
    ensures 0 <= t / TWO_248 < TWO_264
  {
  }

  /** Second half: the remainder, formed modulo 2^264, lands at offset 35. */
  method BarrettRemainder(t: seq<nat>, tmp: array<nat>)
    requires |t| == 10 && (forall k :: 0 <= k < 10 ==> t[k] < TWO_56)
    requires tmp.Length == 40 && tmp[..5] == M_LIMBS && forall k :: 30 <= k < 35 ==> tmp[k] < TWO_56
    modifies tmp
    ensures forall k :: 35 <= k < 40 ==> tmp[k] < TWO_56
    ensures Val5(tmp[35..40]) == ((Val10(t) % TWO_264) - (old(Val5(tmp[30..35])) * Q) % TWO_264) % TWO_264
  {
    hide Val5, Val10, Prod;
    ghost var m := tmp[..5];
    ghost var q3 := tmp[30..35];
    var r := Mod264(t);
    Put(tmp, 15, r);
    assert tmp[..5] == m && tmp[30..35] == q3;
    Constants();
    var qm := LowMulFive(tmp[30..35], M_LIMBS);
    ProdIsProduct(Val5(q3), Q);
    assert tmp[15..20] == r;
    ghost var tail := tmp[15..];
    Put(tmp, 10, qm);
    assert tmp[15..] == tail && tmp[15..20] == tail[..5] == r;
    var s := SubMod264(r, qm);
    Put(tmp, 35, s);
    assert tmp[35..40] == s;
  }

  /** Every number below 2^512 is reduced completely. */
  method BarrettReduction(z: array<nat>, t: seq<nat>)
    requires z.Length == 5
    requires |t| == 10 && (forall k :: 0 <= k < 10 ==> t[k] < TWO_56) && Val10(t) < TWO_512
    modifies z
    ensures (forall k :: 0 <= k < 5 ==> z[k] < TWO_56) && Val5(z[..]) == Val10(t) % Q
  {
    hide Val5, Val10;
    var tmp := new nat[40](_ => 0);
    Put(tmp, 0, M_LIMBS);
    Put(tmp, 5, MU_LIMBS);
    assert tmp[..5] == M_LIMBS && tmp[5..10] == MU_LIMBS;
    ghost var head := tmp[..10];
    BarrettQuotient(t, tmp);
    assert tmp[..5] == head[..5] == M_LIMBS;
    BarrettRemainder(t, tmp);
    Val10NonNeg(t);
    BarrettExact(Val10(t));
    var s := SubmConditional(tmp[35..40]);
    Put(z, 0, s);
    assert z[..] == s;
  }

  lemma BarrettExact(t: int)
    requires 0 <= t < TWO_512
    ensures var q3 := ((t / TWO_248) * MU) / TWO_264;
            var r := ((t % TWO_264) - (q3 * Q) % TWO_264) % TWO_264;
            t % Q == if r < Q then r else r - Q
  {
    var q1 := t / TWO_248;
    var q3 := (q1 * MU) / TWO_264;
    QuotientClose(t, q1, t % TWO_248, q3, (q1 * MU) % TWO_264);
    RemainderLow(t, q3);
  }

  /** x * y modulo the order, for any two numbers whose product stays below 2^512. */
  method MulModq(out: array<nat>, x: seq<Limb>, y: seq<Limb>)
    requires out.Length == 5 && |x| == 5 && |y| == 5 && Val5(x) * Val5(y) < TWO_512
    modifies out
    ensures (forall k :: 0 <= k < 5 ==> out[k] < TWO_56) && Val5(out[..]) == (Val5(x) * Val5(y)) % Q
  {
    hide Val5, Val9, Val10, Prod;
    var z := MulFive(x, y);
    var l := Carry(z);
    ProdIsProduct(Val5(x), Val5(y));
    TopLimb(l);
    BarrettReduction(out, l);
  }

  /** (x + y) modulo the order, for two numbers whose sum is below twice the order. */
  method AddModq(out: array<nat>, x: seq<Limb>, y: seq<Limb>)
    requires out.Length == 5 && |x| == 5 && |y| == 5 && Val5(x) + Val5(y) < 2 * Q
    modifies out
    ensures (forall k :: 0 <= k < 5 ==> out[k] < TWO_56) && Val5(out[..]) == (Val5(x) + Val5(y)) % Q
  {
    hide Val5, Low56, High56;
    var t: Word64 := x[0] + y[0] as int;
    var x0 := Low56(t);
    ghost var c1 := High56(t);
    t := x[1] as int + y[1] + High56(t);
    var x1 := Low56(t);
    ghost var c2 := High56(t);
    t := x[2] as int + y[2] + High56(t);
    var x2 := Low56(t);
    ghost var c3 := High56(t);
    t := x[3] as int + y[3] + High56(t);
    var x3 := Low56(t);
    ghost var c4 := High56(t);
    t := x[4] as int + y[4] + High56(t);
    AddedLimbs(x, y, [x0, x1, x2, x3, t], c1, c2, c3, c4);
    var s := SubmConditional([x0, x1, x2, x3, t]);
    SumReduced(Val5(x) + Val5(y));
    ValNonNeg(x);
    ValNonNeg(y);
    Put(out, 0, s);
    assert out[..] == s;
  }

  lemma AddedLimbs(x: seq<nat>, y: seq<nat>, s: seq<nat>, c1: int, c2: int, c3: int, c4: int)
    requires |x| == 5 && |y| == 5 && |s| == 5 && Val5(x) + Val5(y) < 2 * Q
    requires c1 >= 0 && c2 >= 0 && c3 >= 0 && c4 >= 0
    requires x[0] + y[0] == Join(s[0], c1)
    requires x[1] + y[1] + c1 == Join(s[1], c2)
    requires x[2] + y[2] + c2 == Join(s[2], c3)
    requires x[3] + y[3] + c3 == Join(s[3], c4)
    requires x[4] + y[4] + c4 == s[4]
    ensures Val5(s) == Val5(x) + Val5(y)
    ensures s[4] < TWO_56
  {
  }

  lemma ValNonNeg(x: seq<Limb>)
    requires |x| == 5
    ensures Val5(x) >= 0
  {
  }

  lemma SumReduced(v: int)
    ensures 0 <= v < 2 * Q ==> v % Q == if v < Q then v else v - Q
  {
  }

}
