/** Poly1305 on five limbs of 26 bits. */
module Poly1305x32 {
  import opened Arith
  import opened Messages
  import opened Octets
  import opened PolySpec
  import PolyKey
  import P64 = Poly1305x64

  type Word32 = x: int | 0 <= x < 0x1_00000000 witness 0
  type Word64 = x: int | 0 <= x < 0x1_00000000_00000000 witness 0

  function Join(lo: int, hi: int): int { lo + OneLimbUp(hi) }

  function OneLimbUp(hi: int): int { hi * 0x4000000 }

  function Val5(x: seq<int>): int
    requires |x| == 5
  {
    x[0] + x[1] * 0x4000000 + x[2] * 0x100000_00000000 + x[3] * 0x4000_00000000_00000000 + x[4] * 0x100_00000000_00000000_00000000
  }

  predicate KeyLimbs(r: seq<int>) {
    |r| == 5 && forall i :: 0 <= i < 5 ==> 0 <= r[i] < 0x4000000
  }

  /** What every block leaves in the accumulator. */
  predicate AccLimbs(a: seq<int>) {
    |a| == 5 && 0 <= a[0] < 0x4000000 && 0 <= a[1] < 0x4000000 + 0x40 && 0 <= a[2] < 0x4000000 && 0 <= a[3] < 0x4000000 && 0 <= a[4] < 0x4000000
  }

  predicate SumLimbs(a: seq<int>) {
    |a| == 5 && forall i :: 0 <= i < 5 ==> 0 <= a[i] < 0x8000000 + 0x40
  }

  // ----- multiplication

  /** The accumulator times 2^(26 n), as limb k: limbs that wrap around are multiplied by 5. */
  function RotAt(a: seq<int>, n: nat, k: nat): int
    requires |a| == 5 && n < 5 && k < 5
  {
    if k >= n then a[k - n] else 5 * a[k - n + 5]
  }

  /** Column k after n of the five scalar multiplications. */
  function ColumnAt(a: seq<int>, r: seq<int>, n: nat, k: nat): int
    requires |a| == 5 && |r| == 5 && n <= 5 && k < 5
  {
    (if n > 0 then Prod(RotAt(a, 0, k), r[0]) else 0) + (if n > 1 then Prod(RotAt(a, 1, k), r[1]) else 0) + (if n > 2 then Prod(RotAt(a, 2, k), r[2]) else 0)
    + (if n > 3 then Prod(RotAt(a, 3, k), r[3]) else 0) + (if n > 4 then Prod(RotAt(a, 4, k), r[4]) else 0)
  }

  function Columns(a: seq<int>, r: seq<int>): (t: seq<int>)
    requires |a| == 5 && |r| == 5
    ensures |t| == 5
  {
    [ColumnAt(a, r, 5, 0), ColumnAt(a, r, 5, 1), ColumnAt(a, r, 5, 2), ColumnAt(a, r, 5, 3), ColumnAt(a, r, 5, 4)]
  }

  lemma RotBound(a: seq<int>, r: seq<int>, n: nat, k: nat)
    requires SumLimbs(a) && KeyLimbs(r) && n < 5 && k < 5
    ensures 0 <= RotAt(a, n, k) < 0x40000000 && 0 <= Prod(RotAt(a, n, k), r[n]) < 0x1000000_00000000
    ensures k == 4 ==> RotAt(a, n, k) < 0x8000000 + 0x40 && Prod(RotAt(a, n, k), r[n]) <= (0x8000000 + 0x40) * 0x4000000
  {
    P64.ProdBound(RotAt(a, n, k), r[n], 0x40000000 - 1, 0x4000000 - 1);
    if k == 4 {
      P64.ProdBound(RotAt(a, n, k), r[n], 0x8000000 + 0x40, 0x4000000);
    }
  }

  lemma ColumnBound(a: seq<int>, r: seq<int>, n: nat, k: nat)
    requires SumLimbs(a) && KeyLimbs(r) && n <= 5 && k < 5
    ensures 0 <= ColumnAt(a, r, n, k) < 0x8000000_00000000
    ensures k == 4 ==> ColumnAt(a, r, n, k) <= 5 * (0x8000000 + 0x40) * 0x4000000
  {
    forall i | 0 <= i < 5
      ensures 0 <= Prod(RotAt(a, i, k), r[i]) < 0x1000000_00000000
      ensures k == 4 ==> Prod(RotAt(a, i, k), r[i]) <= (0x8000000 + 0x40) * 0x4000000
    {
      RotBound(a, r, i, k);
    }
    hide Prod, RotAt;
  }

  method SumScalarMultiplication(output: array<Word64>, input: seq<Word32>, s: Word32, ghost a: seq<int>, ghost r: seq<int>, ghost n: nat)
    requires output.Length == 5 && |input| == 5 && SumLimbs(a) && KeyLimbs(r) && n < 5 && s == r[n]
    requires forall k :: 0 <= k < 5 ==> input[k] == RotAt(a, n, k) && output[k] == ColumnAt(a, r, n, k)
    modifies output
    ensures forall k :: 0 <= k < 5 ==> output[k] == ColumnAt(a, r, n + 1, k)
  {
    hide Prod, RotAt;
    for i := 0 to 5
      invariant forall k :: 0 <= k < i ==> output[k] == ColumnAt(a, r, n + 1, k)
      invariant forall k :: i <= k < 5 ==> output[k] == ColumnAt(a, r, n, k)
    {
      ColumnBound(a, r, n + 1, i);
      NextColumn(a, r, n, i);
      output[i] := output[i] + Prod(input[i], s);
    }
  }

  lemma NextColumn(a: seq<int>, r: seq<int>, n: nat, k: nat)
    requires |a| == 5 && |r| == 5 && n < 5 && k < 5
    ensures ColumnAt(a, r, n + 1, k) == ColumnAt(a, r, n, k) + Prod(RotAt(a, n, k), r[n])
  {
    hide Prod, RotAt;
  }

  /** Multiplies by 2^26: the top limb wraps to the bottom, times 5. */
  method ShiftReduce(output: array<Word32>)
    requires output.Length == 5 && output[4] < 0x20000000
    modifies output
    ensures output[..] == [5 * old(output[4]), old(output[0]), old(output[1]), old(output[2]), old(output[3])]
  {
    var tmp := output[4];
    ghost var v := output[..];
    for i := 0 to 4
      invariant forall k :: 0 <= k < 5 - i ==> output[k] == v[k]
      invariant forall k :: 4 - i <= k < 4 ==> output[k + 1] == v[k]
    {
      var ctr := 5 - i - 1;
      output[ctr] := output[ctr - 1];
    }
    assert output[1] == v[0] && output[2] == v[1] && output[3] == v[2] && output[4] == v[3];
    output[0] := tmp;
    output[0] := output[0] * 4 + output[0];
  }

  method MulShiftReduce(output: array<Word64>, input: array<Word32>, r: seq<Word32>)
    requires output.Length == 5 && input.Length == 5 && SumLimbs(input[..]) && KeyLimbs(r)
    requires forall k :: 0 <= k < 5 ==> output[k] == 0
    modifies output, input
    ensures output[..] == Columns(old(input[..]), r)
  {
    hide Prod, ColumnAt;
    ghost var a := input[..];
    Nothing(a, r);
    for i := 0 to 4
      invariant forall k :: 0 <= k < 5 ==> input[k] == RotAt(a, i, k) && output[k] == ColumnAt(a, r, i, k)
    {
      SumScalarMultiplication(output, input[..], r[i], a, r, i);
      ShiftReduce(input);
    }
    SumScalarMultiplication(output, input[..], r[4], a, r, 4);
  }

  lemma Nothing(a: seq<int>, r: seq<int>)
    requires |a| == 5 && |r| == 5
    ensures forall k :: 0 <= k < 5 ==> RotAt(a, 0, k) == a[k] && ColumnAt(a, r, 0, k) == 0
  {
  }

  function Low26(t: nat): (l: nat)
    ensures l < 0x4000000
  {
    t % 0x4000000
  }

  function High26(t: nat): (h: nat)
    ensures t == Join(Low26(t), h)
  {
    t / 0x4000000
  }

  method CarryWide(tmp: array<Word64>)
    requires tmp.Length == 5 && (forall k :: 0 <= k < 4 ==> tmp[k] < 0x8000000_00000000) && tmp[4] <= 5 * (0x8000000 + 0x40) * 0x4000000
    modifies tmp
    ensures (forall k :: 0 <= k < 4 ==> tmp[k] < 0x4000000) && tmp[4] <= 5 * (0x8000000 + 0x40) * 0x4000000 + 0x4_00000000
    ensures Val5(tmp[..]) == Val5(old(tmp[..]))
  {
    hide Low26, High26, Val5, Join;
    ghost var t := tmp[..];
    for i := 0 to 4
      invariant forall k :: 0 <= k < i ==> tmp[k] < 0x4000000
      invariant forall k :: i < k < 5 ==> tmp[k] == t[k]
      invariant i < 4 ==> tmp[i] < 0x10000000_00000000
      invariant i == 4 ==> tmp[i] <= t[4] + 0x4_00000000
      invariant Val5(tmp[..]) == Val5(t)
    {
      ghost var before := tmp[..];
      var v := tmp[i];
      SplitLimb(v);
      tmp[i], tmp[i + 1] := Low26(v), tmp[i + 1] + High26(v);
      CarryKeeps(before, tmp[..], i, High26(v));
    }
  }

  lemma SplitLimb(v: nat)
    ensures v == Low26(v) + High26(v) * 0x4000000
  {
    hide Low26, High26;
  }

  lemma CarryKeeps(x: seq<int>, y: seq<int>, i: nat, c: int)
    requires |x| == 5 && |y| == 5 && i < 4 && x[i] == y[i] + c * 0x4000000 && y[i + 1] == x[i + 1] + c
    requires forall k :: 0 <= k < 5 && k != i && k != i + 1 ==> y[k] == x[k]
    ensures Val5(y) == Val5(x)
  {
  }

  method CarryTopWide(b: array<Word64>) returns (ghost k: int)
    requires b.Length == 5 && b[0] < 0x4000000 && b[4] <= 5 * (0x8000000 + 0x40) * 0x4000000 + 0x4_00000000
    modifies b
    ensures b[0] < 0x1_00000000 && b[1] == old(b[1]) && b[2] == old(b[2]) && b[3] == old(b[3]) && b[4] < 0x4000000
    ensures Val5(b[..]) == Val5(old(b[..])) - k * P
  {
    hide Val5;
    k := b[4] / 0x4000000;
    ghost var before := b[..];
    var b4, b0 := b[4], b[0];
    var b4_26: Word32 := b4 / 0x4000000;
    var five: Word32 := b4_26 * 4 + b4_26 as int;
    b[4] := b4 % 0x4000000;
    b[0] := b0 + five;
    TopFolded(before, b[..], k);
  }

  lemma TopFolded(x: seq<int>, y: seq<int>, k: int)
    requires |x| == 5 && |y| == 5 && y[4] == x[4] - k * 0x4000000 && y[0] == x[0] + 5 * k
    requires y[1] == x[1] && y[2] == x[2] && y[3] == x[3]
    ensures Val5(y) == Val5(x) - k * P
  {
  }

  method CarryTop(b: array<Word32>) returns (ghost k: int)
    requires b.Length == 5 && b[0] < 0x10000000 && b[4] < 0x10000000
    modifies b
    ensures b[..] == [old(b[0]) + 5 * (old(b[4]) / 0x4000000), old(b[1]), old(b[2]), old(b[3]), old(b[4]) % 0x4000000]
    ensures k == old(b[4]) / 0x4000000 && Val5(b[..]) == Val5(old(b[..])) - k * P
  {
    hide Val5;
    k := b[4] / 0x4000000;
    ghost var before := b[..];
    var b4, b0 := b[4], b[0];
    var b4_26: int := b4 / 0x4000000;
    b[4] := b4 % 0x4000000;
    b[0] := b4_26 * 4 + b4_26 + b0;
    TopFolded(before, b[..], k);
  }

  // ----- the columns stand for the product

  lemma Distribute5(x: int, y: seq<int>)
    requires |y| == 5
    ensures Prod(x, Val5(y)) == Join(Prod(x, y[0]), Join(Prod(x, y[1]), Join(Prod(x, y[2]), Join(Prod(x, y[3]), Prod(x, y[4])))))
  {
  }

  lemma ProdCommutes(x: int, y: int)
    ensures Prod(x, y) == Prod(y, x) && Prod(5 * x, y) == 5 * Prod(x, y)
  {
  }

  lemma RowValue(a: seq<int>, r: int, n: nat)
    requires |a| == 5 && n < 5
    ensures var row := Join(Prod(RotAt(a, n, 0), r), Join(Prod(RotAt(a, n, 1), r), Join(Prod(RotAt(a, n, 2), r), Join(Prod(RotAt(a, n, 3), r), Prod(RotAt(a, n, 4), r)))));
            Prod(Val5(a), r) * Weight(n) == row + WrapCount(a, r, n) * P
  {
    hide Prod;
    forall k | 0 <= k < 5
      ensures Prod(5 * a[k], r) == 5 * Prod(a[k], r)
    {
      ProdCommutes(a[k], r);
    }
    RowProduct(a, r);
  }

  lemma RowProduct(a: seq<int>, r: int)
    requires |a| == 5
    ensures Prod(Val5(a), r) == Join(Prod(a[0], r), Join(Prod(a[1], r), Join(Prod(a[2], r), Join(Prod(a[3], r), Prod(a[4], r)))))
  {
    hide Val5, Join, Prod;
    ProdCommutes(Val5(a), r);
    Distribute5(r, a);
    ProdCommutes(r, a[0]);
    ProdCommutes(r, a[1]);
    ProdCommutes(r, a[2]);
    ProdCommutes(r, a[3]);
    ProdCommutes(r, a[4]);
  }

  /** 2^(26 n). */
  function Weight(n: nat): int
    requires n < 5
  {
    match n case 0 => 0x1 case 1 => 0x4000000 case 2 => 0x100000_00000000 case 3 => 0x4000_00000000_00000000 case 4 => 0x100_00000000_00000000_00000000
  }

  /** How often 2^130 - 5 is taken off when the top n limbs wrap around. */
  function WrapCount(a: seq<int>, r: int, n: nat): int
    requires |a| == 5 && n < 5
  {
    match n
    case 0 => 0
    case 1 => Prod(a[4], r) * 0x1
    case 2 => Prod(a[3], r) * 0x1 + Prod(a[4], r) * 0x4000000
    case 3 => Prod(a[2], r) * 0x1 + Prod(a[3], r) * 0x4000000 + Prod(a[4], r) * 0x100000_00000000
    case 4 => Prod(a[1], r) * 0x1 + Prod(a[2], r) * 0x4000000 + Prod(a[3], r) * 0x100000_00000000 + Prod(a[4], r) * 0x4000_00000000_00000000
  }

  function WrapTotal(a: seq<int>, r: seq<int>): int
    requires |a| == 5 && |r| == 5
  {
    WrapCount(a, r[0], 0) + WrapCount(a, r[1], 1) + WrapCount(a, r[2], 2) + WrapCount(a, r[3], 3) + WrapCount(a, r[4], 4)
  }

  lemma ColumnsValue(a: seq<int>, r: seq<int>)
    requires |a| == 5 && |r| == 5
    ensures Prod(Val5(a), Val5(r)) == Val5(Columns(a, r)) + WrapTotal(a, r) * P
  {
    hide Prod, Val5, RotAt, WrapCount;
    Distribute5(Val5(a), r);

    RowValue(a, r[0], 0);
    RowValue(a, r[1], 1);
    RowValue(a, r[2], 2);
    RowValue(a, r[3], 3);
    RowValue(a, r[4], 4);
    ColumnsOfRows(a, r);
  }

  lemma ColumnsOfRows(a: seq<int>, r: seq<int>)
    requires |a| == 5 && |r| == 5
    ensures Val5(Columns(a, r)) == (Join(Prod(RotAt(a, 0, 0), r[0]), Join(Prod(RotAt(a, 0, 1), r[0]), Join(Prod(RotAt(a, 0, 2), r[0]), Join(Prod(RotAt(a, 0, 3), r[0]), Prod(RotAt(a, 0, 4), r[0])))))) + (Join(Prod(RotAt(a, 1, 0), r[1]), Join(Prod(RotAt(a, 1, 1), r[1]), Join(Prod(RotAt(a, 1, 2), r[1]), Join(Prod(RotAt(a, 1, 3), r[1]), Prod(RotAt(a, 1, 4), r[1])))))) + (Join(Prod(RotAt(a, 2, 0), r[2]), Join(Prod(RotAt(a, 2, 1), r[2]), Join(Prod(RotAt(a, 2, 2), r[2]), Join(Prod(RotAt(a, 2, 3), r[2]), Prod(RotAt(a, 2, 4), r[2])))))) + (Join(Prod(RotAt(a, 3, 0), r[3]), Join(Prod(RotAt(a, 3, 1), r[3]), Join(Prod(RotAt(a, 3, 2), r[3]), Join(Prod(RotAt(a, 3, 3), r[3]), Prod(RotAt(a, 3, 4), r[3])))))) + (Join(Prod(RotAt(a, 4, 0), r[4]), Join(Prod(RotAt(a, 4, 1), r[4]), Join(Prod(RotAt(a, 4, 2), r[4]), Join(Prod(RotAt(a, 4, 3), r[4]), Prod(RotAt(a, 4, 4), r[4]))))))
  {
    hide Prod, RotAt;
  }

  method Fmul(output: array<Word32>, input: array<Word32>, r: seq<Word32>)
    requires output.Length == 5 && input.Length == 5 && SumLimbs(input[..]) && KeyLimbs(r)
    modifies output
    ensures AccLimbs(output[..]) && Congruent(Val5(output[..]), Val5(old(input[..])) * Val5(r), P)
  {
    hide Prod, Congruent, Low26, High26, Val5;
    ghost var a := input[..];
    var t, k := WideProduct(input[..], r);
    CopyFromWide(output, t);
    var i0, i1 := output[0], output[1];
    SplitLimb(i0);
    output[0] := Low26(i0);
    output[1] := i1 + High26(i0);
    CarryKeeps(t, output[..], 0, High26(i0));
    Reduced(Val5(output[..]), Val5(a), Val5(r), k);
  }

  lemma Reduced(v: int, x: int, y: int, k: int)
    requires Prod(x, y) == v + k * P
    ensures Congruent(v, x * y, P)
  {
    MultipleCongruent(v, x * y, P, -k);
  }

  method CopyFromWide(output: array<Word32>, input: seq<Word64>)
    requires output.Length == 5 && |input| == 5 && forall k :: 0 <= k < 5 ==> input[k] < 0x1_00000000
    modifies output
    ensures output[..] == input
  {
    for i := 0 to 5
      invariant forall k :: 0 <= k < i ==> output[k] == input[k]
    {
      output[i] := input[i];
    }
  }

  method WideProduct(input: seq<Word32>, r: seq<Word32>) returns (v: seq<Word64>, ghost k: int)
    requires SumLimbs(input) && KeyLimbs(r)
    ensures |v| == 5 && v[0] < 0x1_00000000 && v[1] < 0x4000000 && v[2] < 0x4000000 && v[3] < 0x4000000 && v[4] < 0x4000000
    ensures Prod(Val5(input), Val5(r)) == Val5(v) + k * P
  {
    hide Prod, Val5, ColumnAt;
    var tmp := new Word32[5](i requires 0 <= i < 5 => input[i]);
    assert tmp[..] == input;
    var t := new Word64[5](_ => 0);
    MulShiftReduce(t, tmp, r);
    forall i | 0 <= i < 5
      ensures 0 <= ColumnAt(input, r, 5, i) < 0x8000000_00000000
      ensures i == 4 ==> ColumnAt(input, r, 5, i) <= 5 * (0x8000000 + 0x40) * 0x4000000
    {
      ColumnBound(input, r, 5, i);
    }
    CarryWide(t);
    ghost var k1 := CarryTopWide(t);
    ColumnsValue(input, r);
    k := k1 + WrapTotal(input, r);
    v := t[..];
  }

  method AddAndMultiply(acc: array<Word32>, block: seq<Word32>, r: seq<Word32>)
    requires acc.Length == 5 && AccLimbs(acc[..]) && KeyLimbs(r) && KeyLimbs(block)
    modifies acc
    ensures AccLimbs(acc[..])
    ensures Congruent(Val5(acc[..]), (Val5(old(acc[..])) + Val5(block)) * Val5(r), P)
  {
    hide Congruent;
    ghost var a := acc[..];
    for i := 0 to 5
      invariant forall k :: 0 <= k < i ==> acc[k] == a[k] as int + block[k]
      invariant forall k :: i <= k < 5 ==> acc[k] == a[k]
    {
      acc[i] := acc[i] + block[i];
    }
    assert Val5(acc[..]) == Val5(a) + Val5(block);
    hide Val5;
    Fmul(acc, acc, r);
  }

  // ----- blocks

  /** Sixteen bytes as their value. */
  function Spread(m: seq<Octet>): nat
    requires |m| == 16
  {
    Four(m, 0) + 0x1_00000000 * Four(m, 4) + 0x1_00000000_00000000 * Four(m, 8) + 0x1_00000000_00000000_00000000 * Four(m, 12)
  }

  /** A 32-bit little-endian load. */
  function Four(m: seq<Octet>, i: nat): (v: Word32)
    requires i + 4 <= |m|
  {
    Sum4(m[i], m[i + 1], m[i + 2], m[i + 3])
  }

  function Sum4(b0: int, b1: int, b2: int, b3: int): int {
    b0 + 0x100 * b1 + 0x1_0000 * b2 + 0x100_0000 * b3
  }

  lemma FourIs(m: seq<Octet>)
    requires |m| == 4
    ensures LittleEndian(m) == Four(m, 0)
  {
    assert LittleEndian(m) == m[0] + 0x100 * LittleEndian(m[1..]);
    assert LittleEndian(m[1..]) == m[1] + 0x100 * LittleEndian(m[1..][1..]);
    assert m[1..][1..] == m[2..] && m[2..][1..] == m[3..] && m[3..][1..] == [];
    assert LittleEndian(m[2..]) == m[2] + 0x100 * LittleEndian(m[3..]);
  }

  lemma SpreadIs(m: seq<Octet>)
    requires |m| == 16
    ensures LittleEndian(m) == Spread(m)
  {
    hide LittleEndian, Pow2;
    Pow2Large(16);
    Step4(m);
    Step4(m[4..]);
    Step4(m[8..]);
    FourIs(m[12..]);
    assert m[4..][4..] == m[8..] && m[8..][4..] == m[12..];
  }

  lemma Step4(m: seq<Octet>)
    requires |m| >= 4
    ensures LittleEndian(m) == Four(m, 0) + 0x1_00000000 * LittleEndian(m[4..])
  {
    hide LittleEndian, Pow2;
    Pow2Large(16);
    assert m == m[..4] + m[4..];
    P64.LittleEndianAppend(m[..4], m[4..]);
    FourIs(m[..4]);
  }

  /** Sixteen bytes as five limbs, from overlapping loads. */
  method LoadLimbs(m: seq<Octet>) returns (l: seq<Word32>)
    requires |m| == 16
    ensures KeyLimbs(l) && l[4] < 0x1000000 && Val5(l) == LittleEndian(m)
  {
    hide LittleEndian, Val5, Sum4;
    var r0 := Four(m, 0) % 0x4000000;
    var r1 := Four(m, 3) / 4 % 0x4000000;
    var r2 := Four(m, 6) / 0x10 % 0x4000000;
    var r3 := Four(m, 9) / 0x40 % 0x4000000;
    var r4 := Four(m, 12) / 0x100;
    l := [r0, r1, r2, r3, r4];
    SpreadIs(m);
    Loaded(m, l);
  }

  lemma Loaded(m: seq<int>, l: seq<int>)
    requires |m| == 16 && |l| == 5 && forall i :: 0 <= i < 16 ==> 0 <= m[i] < 0x100
    requires l[0] == Sum4(m[0], m[1], m[2], m[3]) % 0x4000000 && l[1] == Sum4(m[3], m[4], m[5], m[6]) / 4 % 0x4000000
    requires l[2] == Sum4(m[6], m[7], m[8], m[9]) / 0x10 % 0x4000000
    requires l[3] == Sum4(m[9], m[10], m[11], m[12]) / 0x40 % 0x4000000 && l[4] == Sum4(m[12], m[13], m[14], m[15]) / 0x100
    ensures Val5(l) == Sum4(m[0], m[1], m[2], m[3]) + 0x1_00000000 * Sum4(m[4], m[5], m[6], m[7])
                       + 0x1_00000000_00000000 * Sum4(m[8], m[9], m[10], m[11]) + 0x1_00000000_00000000_00000000 * Sum4(m[12], m[13], m[14], m[15])
    ensures l[4] < 0x1000000
  {
    hide Val5, Sum4;
    Load0(m[0], m[1], m[2], m[3]);
    Load1(m[3], m[4], m[5], m[6]);
    Load2(m[6], m[7], m[8], m[9]);
    Load3(m[9], m[10], m[11], m[12]);
    Load4(m[12], m[13], m[14], m[15]);
    LoadedValue(m, l, m[3] / 4, m[3] % 4, m[6] / 0x10, m[6] % 0x10, m[9] / 0x40, m[9] % 0x40);
  }

  lemma Load0(b0: int, b1: int, b2: int, b3: int)
    requires 0 <= b0 < 0x100 && 0 <= b1 < 0x100 && 0 <= b2 < 0x100 && 0 <= b3 < 0x100
    ensures Sum4(b0, b1, b2, b3) % 0x4000000 == b0 + 0x100 * b1 + 0x1_0000 * b2 + 0x100_0000 * (b3 % 4)
  {
    var q := b0 + 0x100 * b1 + 0x1_0000 * b2 + 0x100_0000 * b3;
    DivModUnique(q, 0x4000000, b3 / 4, b0 + 0x100 * b1 + 0x1_0000 * b2 + 0x100_0000 * (b3 % 4));
  }

  lemma Load1(b0: int, b1: int, b2: int, b3: int)
    requires 0 <= b0 < 0x100 && 0 <= b1 < 0x100 && 0 <= b2 < 0x100 && 0 <= b3 < 0x100
    ensures Sum4(b0, b1, b2, b3) / 4 % 0x4000000 == b0 / 4 + 0x40 * b1 + 0x4000 * b2 + 0x40_0000 * (b3 % 0x10)
  {
    var q := b0 / 4 + 0x40 * b1 + 0x4000 * b2 + 0x40_0000 * b3;
    DivModUnique(Sum4(b0, b1, b2, b3), 4, q, b0 % 4);
    DivModUnique(q, 0x4000000, b3 / 0x10, b0 / 4 + 0x40 * b1 + 0x4000 * b2 + 0x40_0000 * (b3 % 0x10));
  }

  lemma Load2(b0: int, b1: int, b2: int, b3: int)
    requires 0 <= b0 < 0x100 && 0 <= b1 < 0x100 && 0 <= b2 < 0x100 && 0 <= b3 < 0x100
    ensures Sum4(b0, b1, b2, b3) / 0x10 % 0x4000000 == b0 / 0x10 + 0x10 * b1 + 0x1000 * b2 + 0x10_0000 * (b3 % 0x40)
  {
    var q := b0 / 0x10 + 0x10 * b1 + 0x1000 * b2 + 0x10_0000 * b3;
    DivModUnique(Sum4(b0, b1, b2, b3), 0x10, q, b0 % 0x10);
    DivModUnique(q, 0x4000000, b3 / 0x40, b0 / 0x10 + 0x10 * b1 + 0x1000 * b2 + 0x10_0000 * (b3 % 0x40));
  }

  lemma Load3(b0: int, b1: int, b2: int, b3: int)
    requires 0 <= b0 < 0x100 && 0 <= b1 < 0x100 && 0 <= b2 < 0x100 && 0 <= b3 < 0x100
    ensures Sum4(b0, b1, b2, b3) / 0x40 % 0x4000000 == b0 / 0x40 + 4 * b1 + 0x400 * b2 + 0x4_0000 * b3
  {
    var q := b0 / 0x40 + 4 * b1 + 0x400 * b2 + 0x4_0000 * b3;
    DivModUnique(Sum4(b0, b1, b2, b3), 0x40, q, b0 % 0x40);
    DivModUnique(q, 0x4000000, 0, b0 / 0x40 + 4 * b1 + 0x400 * b2 + 0x4_0000 * b3);
  }

  lemma Load4(b0: int, b1: int, b2: int, b3: int)
    requires 0 <= b0 < 0x100 && 0 <= b1 < 0x100 && 0 <= b2 < 0x100 && 0 <= b3 < 0x100
    ensures Sum4(b0, b1, b2, b3) / 0x100 == b1 + 0x100 * b2 + 0x1_0000 * b3
  {
    DivModUnique(Sum4(b0, b1, b2, b3), 0x100, b1 + 0x100 * b2 + 0x1_0000 * b3, b0);
  }

  lemma LoadedValue(m: seq<int>, l: seq<int>, h3: int, l3: int, h6: int, l6: int, h9: int, l9: int)
    requires |m| == 16 && |l| == 5 && m[3] == 4 * h3 + l3 && m[6] == 0x10 * h6 + l6 && m[9] == 0x40 * h9 + l9
    requires l[0] == m[0] + 0x100 * m[1] + 0x1_0000 * m[2] + 0x100_0000 * l3
    requires l[1] == h3 + 0x40 * m[4] + 0x4000 * m[5] + 0x40_0000 * l6
    requires l[2] == h6 + 0x10 * m[7] + 0x1000 * m[8] + 0x10_0000 * l9
    requires l[3] == h9 + 4 * m[10] + 0x400 * m[11] + 0x4_0000 * m[12]
    requires l[4] == m[13] + 0x100 * m[14] + 0x1_0000 * m[15]
    ensures Val5(l) == Sum4(m[0], m[1], m[2], m[3]) + 0x1_00000000 * Sum4(m[4], m[5], m[6], m[7])
                       + 0x1_00000000_00000000 * Sum4(m[8], m[9], m[10], m[11]) + 0x1_00000000_00000000_00000000 * Sum4(m[12], m[13], m[14], m[15])
  {
  }

  // ----- the state

  class State {
    const r: array<Word32>
    const h: array<Word32>
    ghost var key: seq<Octet>
    ghost var absorbed: seq<Octet>

    ghost predicate Valid()
      reads this, r, h
    {
      r != h && r.Length == 5 && h.Length == 5 && |key| == 16
      && KeyLimbs(r[..]) && AccLimbs(h[..]) && Val5(r[..]) == Clamp(LittleEndian(key))
      && Val5(h[..]) % P == Eval(absorbed, Val5(r[..]))
    }

    constructor Init(k: seq<Octet>)
      requires |k| == 16
      ensures Valid() && key == k && absorbed == [] && fresh(r) && fresh(h)
      ensures Val5(r[..]) == LittleEndian(PolyKey.ClampedOctets(k))
    {
      var l := KeyOf(k);
      r := new Word32[5](i requires 0 <= i < 5 => l[i]);
      h := new Word32[5](_ => 0);
      key, absorbed := k, [];
      new;
      hide LittleEndian, Clamp, Val5;
      PolyKey.ClampIsOctets(k);
      assert r[..] == l && h[..] == [0, 0, 0, 0, 0];
      ZeroValue();
    }

    method UpdateBlock(m: seq<Octet>)
      requires Valid() && |m| == 16 && |absorbed| % 16 == 0
      modifies this, h
      ensures Valid() && key == old(key) && r[..] == old(r[..]) && absorbed == old(absorbed) + m
    {
      hide LittleEndian, Eval, Congruent, BlockNumber, Val5;
      var b := LoadLimbs(m);
      FullBlock(m, b);
      var b4 := b[4] + 0x1000000;
      ghost var a := h[..];
      var block := [b[0], b[1], b[2], b[3], b4];
      AddAndMultiply(h, block, r[..]);
      P64.Absorbed(Val5(a), Val5(block), Val5(r[..]), Val5(h[..]), absorbed, m);
      absorbed := absorbed + m;
    }

    method ProcessLastBlock(m: seq<Octet>)
      requires Valid() && 0 < |m| < 16 && |absorbed| % 16 == 0
      modifies this, h
      ensures Valid() && key == old(key) && r[..] == old(r[..]) && absorbed == old(absorbed) + m
    {
      hide LittleEndian, Eval, Congruent, BlockNumber, Val5;
      var block := m + [1] + seq(15 - |m|, _ => 0);
      P64.ClosedBlock(m, block);
      var b := LoadLimbs(block);
      ghost var a := h[..];
      AddAndMultiply(h, b, r[..]);
      P64.Absorbed(Val5(a), Val5(b), Val5(r[..]), Val5(h[..]), absorbed, m);
      absorbed := absorbed + m;
    }

    method Update(m: seq<Octet>, blocks: nat)
      requires Valid() && |m| >= 16 * blocks && |absorbed| % 16 == 0
      modifies this, h
      ensures Valid() && key == old(key) && r[..] == old(r[..]) && absorbed == old(absorbed) + m[..16 * blocks]
      decreases blocks
    {
      hide Eval, Congruent, Val5, Clamp, LittleEndian;
      if blocks == 0 {
        assert m[..0] == [];
      } else {
        ghost var before := absorbed;
        UpdateBlock(m[..16]);
        Update(m[16..], blocks - 1);
        assert m[..16 * blocks] == m[..16] + m[16..][..16 * (blocks - 1)];
        assert absorbed == before + (m[..16] + m[16..][..16 * (blocks - 1)]);
      }
    }

    method UpdateLast(m: seq<Octet>)
      requires Valid() && |m| < 16 && |absorbed| % 16 == 0
      modifies this, h
      ensures h.Length == 5 && key == old(key) && absorbed == old(absorbed) + m
      ensures Canonical(h[..]) && Val5(h[..]) == Eval(absorbed, Clamp(LittleEndian(key))) % P
    {
      hide Eval, Congruent, Val5;
      if |m| != 0 {
        ProcessLastBlock(m);
      }
      assert absorbed == old(absorbed) + m;
      ghost var v := Val5(h[..]);
      LastPass(h);
      EvalReduced(absorbed, Val5(r[..]));
    }

    method Finish(k: seq<Octet>) returns (mac: seq<Octet>)
      requires h.Length == 5 && Canonical(h[..]) && |k| == 16
      ensures mac == ToBytes((Val5(h[..]) + LittleEndian(k)) % 0x1_00000000_00000000_00000000_00000000, 16)
    {
      hide LittleEndian, ToBytes, Val5;
      var acc := Assemble(h[..]);
      P64.DropTop(Val5(h[..]), acc, LittleEndian(k), h[4] / 0x1000000);
      mac := ToBytes((acc + LittleEndian(k)) % 0x1_00000000_00000000_00000000_00000000, 16);
    }
  }

  /** The low 128 bits of five limbs. */
  function Assemble(h: seq<int>): (acc: nat)
    requires KeyLimbs(h)
    ensures Val5(h) == acc + (h[4] / 0x1000000) * 0x1_00000000_00000000_00000000_00000000
  {
    Packed(h, h[4] / 0x1000000, h[4] % 0x1000000, h[0] + 0x4000000 * h[1] + 0x100000_00000000 * h[2] + 0x4000_00000000_00000000 * h[3] + 0x100_00000000_00000000_00000000 * (h[4] % 0x1000000));
    h[0] + 0x4000000 * h[1] + 0x100000_00000000 * h[2] + 0x4000_00000000_00000000 * h[3] + 0x100_00000000_00000000_00000000 * (h[4] % 0x1000000)
  }

  lemma Packed(h: seq<int>, q: int, top: int, acc: int)
    requires |h| == 5 && h[4] == q * 0x1000000 + top
    requires acc == h[0] + 0x4000000 * h[1] + 0x100000_00000000 * h[2] + 0x4000_00000000_00000000 * h[3] + 0x100_00000000_00000000_00000000 * top
    ensures Val5(h) == acc + q * 0x1_00000000_00000000_00000000_00000000
  {
  }

  /** The clamped key in limbs. */
  function KeyOf(k: seq<Octet>): (l: seq<Word32>)
    requires |k| == 16
    ensures KeyLimbs(l) && Val5(l) == Clamp(LittleEndian(k))
  {
    var c := Clamp(LittleEndian(k));
    KeyValue(c, c / 0x4000000, c / 0x100000_00000000, c / 0x4000_00000000_00000000, c / 0x100_00000000_00000000_00000000);
    [c % 0x4000000, c / 0x4000000 % 0x4000000, c / 0x100000_00000000 % 0x4000000, c / 0x4000_00000000_00000000 % 0x4000000, c / 0x100_00000000_00000000_00000000 % 0x4000000]
  }

  lemma KeyValue(c: nat, c1: nat, c2: nat, c3: nat, c4: nat)
    requires c < 0x10000000_00000000_00000000_00000000 && c1 == c / 0x4000000 && c2 == c / 0x100000_00000000 && c3 == c / 0x4000_00000000_00000000 && c4 == c / 0x100_00000000_00000000_00000000
    ensures Val5([c % 0x4000000, c1 % 0x4000000, c2 % 0x4000000, c3 % 0x4000000, c4 % 0x4000000]) == c
  {
    assert c2 == c1 / 0x4000000 && c3 == c2 / 0x4000000 && c4 == c3 / 0x4000000 && c4 < 0x4000000;
    KeySum(c, c1, c2, c3, c4, c % 0x4000000, c1 % 0x4000000, c2 % 0x4000000, c3 % 0x4000000);
  }

  lemma KeySum(c: int, c1: int, c2: int, c3: int, c4: int, l0: int, l1: int, l2: int, l3: int)
    requires c == l0 + 0x4000000 * c1 && c1 == l1 + 0x4000000 * c2 && c2 == l2 + 0x4000000 * c3 && c3 == l3 + 0x4000000 * c4
    ensures Val5([l0, l1, l2, l3, c4]) == c
  {
  }

  lemma ZeroValue()
    ensures Val5([0, 0, 0, 0, 0]) == 0
  {
  }

  lemma FullBlock(m: seq<Octet>, b: seq<int>)
    requires |m| == 16 && |b| == 5 && Val5(b) == LittleEndian(m)
    ensures Val5([b[0], b[1], b[2], b[3], b[4] + 0x1000000]) == BlockNumber(m)
  {
    Pow2Large(16);
    hide LittleEndian, Pow2;
  }

  predicate Canonical(a: seq<int>) {
    KeyLimbs(a) && Val5(a) < P
  }

  // ----- the last pass

  /** One pass of carries over all limbs. */
  method CarryFull(acc: array<Word32>)
    requires acc.Length == 5 && forall k :: 0 <= k < 5 ==> acc[k] < 0x8000000
    modifies acc
    ensures (forall k :: 0 <= k < 4 ==> acc[k] < 0x4000000) && acc[4] <= 0x8000000 + 2
    ensures Val5(acc[..]) == Val5(old(acc[..]))
  {
    hide Low26, High26;
    var t0, t1, t2, t3, t4 := acc[0], acc[1], acc[2], acc[3], acc[4];
    var u1: int := t1 + High26(t0);
    var u2: int := t2 + High26(u1);
    var u3: int := t3 + High26(u2);
    var u4: int := t4 + High26(u3);
    acc[0], acc[1], acc[2], acc[3], acc[4] := Low26(t0), Low26(u1), Low26(u2), Low26(u3), u4;
    assert acc[..] == [Low26(t0), Low26(u1), Low26(u2), Low26(u3), u4];
  }

  method LastPass(acc: array<Word32>)
    requires acc.Length == 5 && AccLimbs(acc[..])
    modifies acc
    ensures Canonical(acc[..]) && Val5(acc[..]) == Val5(old(acc[..])) % P
  {
    hide Val5, Canonical, KeyLimbs;
    ghost var v := Val5(acc[..]);
    ghost var k := TwoPasses(acc);
    ghost var v2 := acc[..];
    ThirdPass(acc);
    FinalSubtraction(acc, v, k);
  }

  /** Two passes of carries with the top folded after each of them bring every limb below 2^26. */
  method TwoPasses(acc: array<Word32>) returns (ghost k: int)
    requires acc.Length == 5 && AccLimbs(acc[..])
    modifies acc
    ensures KeyLimbs(acc[..]) && Val5(acc[..]) == Val5(old(acc[..])) - k * P
  {
    hide Val5;
    AccMax(acc[..]);
    CarryFull(acc);
    TopAtMost(acc[..]);
    ghost var k1 := CarryTop(acc);
    ghost var v1 := acc[..];
    CarryFull(acc);
    AlmostEmpty(v1, acc[..]);
    ghost var k2 := CarryTop(acc);
    k := k1 + k2;
  }

  /** The remaining carries change nothing. */
  method ThirdPass(acc: array<Word32>)
    requires acc.Length == 5 && KeyLimbs(acc[..])
    modifies acc
    ensures acc[..] == old(acc[..])
  {
    hide Val5, Low26, High26;
    ghost var v2 := acc[..];
    CarryFull(acc);
    Unchanged(v2, acc[..]);
    ghost var k3 := CarryTop(acc);
    var i0, i1 := acc[0], acc[1];
    SplitLimb(i0);
    acc[0] := Low26(i0);
    acc[1] := i1 + High26(i0);
    assert acc[..] == v2;
  }

  lemma AccMax(a: seq<int>)
    requires AccLimbs(a)
    ensures 0 <= Val5(a) < 0x4_00000000_00000000_00000000_00000000 + 0x100_00000000_00000000_00000000
  {
  }

  lemma TopAtMost(a: seq<int>)
    requires |a| == 5 && (forall k :: 0 <= k < 5 ==> 0 <= a[k]) && Val5(a) < 0x4_00000000_00000000_00000000_00000000 + 0x100_00000000_00000000_00000000
    ensures a[4] <= 0x4000000
  {
  }

  /** When the top limb overflows, the limbs below it are almost empty. */
  lemma AlmostEmpty(v: seq<int>, a: seq<int>)
    requires |v| == 5 && 0 <= v[0] < 0x4000000 + 5 && (forall k :: 1 <= k < 5 ==> 0 <= v[k] < 0x4000000)
    requires |a| == 5 && (forall k :: 0 <= k < 4 ==> 0 <= a[k] < 0x4000000) && 0 <= a[4] && Val5(a) == Val5(v)
    ensures a[4] <= 0x4000000 && (a[4] == 0x4000000 ==> a[0] < 5 && a[1] == 0 && a[2] == 0 && a[3] == 0)
  {
  }

  lemma Joined(x: seq<int>)
    requires |x| == 5
    ensures Val5(x) == Join(x[0], Join(x[1], Join(x[2], Join(x[3], x[4]))))
  {
  }

  lemma Unchanged(v: seq<int>, a: seq<int>)
    requires KeyLimbs(v) && |a| == 5 && (forall k :: 0 <= k < 4 ==> 0 <= a[k] < 0x4000000) && 0 <= a[4] && Val5(a) == Val5(v)
    ensures a == v
  {
    hide Join, Val5;
    Joined(a);
    Joined(v);
    JoinUnique(a[0], Join(a[1], Join(a[2], Join(a[3], a[4]))), v[0], Join(v[1], Join(v[2], Join(v[3], v[4]))));
    JoinUnique(a[1], Join(a[2], Join(a[3], a[4])), v[1], Join(v[2], Join(v[3], v[4])));
    JoinUnique(a[2], Join(a[3], a[4]), v[2], Join(v[3], v[4]));
    JoinUnique(a[3], a[4], v[3], v[4]);
  }

  lemma JoinUnique(x: nat, h: int, y: nat, k: int)
    requires x < 0x4000000 && y < 0x4000000 && Join(x, h) == Join(y, k)
    ensures x == y && h == k
  {
  }

  method FinalSubtraction(acc: array<Word32>, ghost v: int, ghost k: int)
    requires acc.Length == 5 && KeyLimbs(acc[..]) && Val5(acc[..]) == v - k * P
    modifies acc
    ensures Canonical(acc[..]) && Val5(acc[..]) == v % P
  {
    ghost var a := acc[..];
    var mask := acc[0] >= 0x3fffffb && acc[1] == 0x3ffffff && acc[2] == 0x3ffffff && acc[3] == 0x3ffffff && acc[4] == 0x3ffffff;
    if mask {
      acc[0], acc[1], acc[2] := acc[0] - 0x3fffffb, acc[1] - 0x3ffffff, acc[2] - 0x3ffffff;
      acc[3], acc[4] := acc[3] - 0x3ffffff, acc[4] - 0x3ffffff;
    }
    Subtracted(a, acc[..], mask);
    hide Val5;
    ghost var m := if mask then 1 else 0;
    DivModUnique(v, P, k + m, Val5(acc[..]));
  }

  lemma Subtracted(a: seq<int>, b: seq<int>, mask: bool)
    requires KeyLimbs(a) && |b| == 5
    requires mask <==> a[0] >= 0x3fffffb && a[1] == 0x3ffffff && a[2] == 0x3ffffff && a[3] == 0x3ffffff && a[4] == 0x3ffffff
    requires b == if mask then [a[0] - 0x3fffffb, 0, 0, 0, 0] else a
    ensures Canonical(b) && Val5(b) == Val5(a) - if mask then P else 0
  {
  }

  // ----- both versions

  method OneTimeAuth(input: seq<Octet>, key: seq<Octet>) returns (output: seq<Octet>)
    requires |key| == 32 && |input| < 0x1_00000000_00000000
    ensures output == Tag(P64.Authenticated(input), key)
  {
    hide Eval, Congruent, LittleEndian, ToBytes, Canonical, Clamp, Val5;
    var len16, rem16 := |input| / 16, |input| % 16;
    var at := (16 * len16) % 0x1_00000000;
    var st := new State.Init(key[..16]);
    st.Update(input, len16);
    st.UpdateLast(input[at..at + rem16]);
    assert st.absorbed == P64.Authenticated(input);
    output := st.Finish(key[16..]);
  }

  /** Any way of cutting a message into runs of whole blocks and a rest gives the same tag. */
  method Streaming(parts: seq<seq<Octet>>, last: seq<Octet>, key: seq<Octet>) returns (output: seq<Octet>)
    requires |key| == 32 && |last| < 16 && forall i :: 0 <= i < |parts| ==> |parts[i]| % 16 == 0
    ensures output == Tag(Concat(parts) + last, key)
  {
    hide Eval, Congruent, LittleEndian, ToBytes, Canonical, Clamp, Val5;
    var st := new State.Init(key[..16]);
    for i := 0 to |parts|
      invariant st.Valid() && st.key == key[..16] && fresh(st) && fresh(st.h)
      invariant st.absorbed == Concat(parts[..i]) && |st.absorbed| % 16 == 0
    {
      st.Update(parts[i], |parts[i]| / 16);
      assert parts[i][..16 * (|parts[i]| / 16)] == parts[i];
      assert parts[..i + 1][..i] == parts[..i];
    }
    assert parts[..|parts|] == parts;
    st.UpdateLast(last);
    output := st.Finish(key[16..]);
  }

  /** The three-limb and the five-limb implementation return the same tag for every message and key. */
  method SameTag(input: seq<Octet>, key: seq<Octet>) returns (tag64: seq<Octet>, tag32: seq<Octet>)
    requires |key| == 32 && |input| < 0x1_00000000_00000000
    ensures tag64 == tag32 == Tag(P64.Authenticated(input), key)
  {
    hide Tag;
    tag64 := P64.OneTimeAuth(input, key);
    tag32 := OneTimeAuth(input, key);
  }

  /** The one-shot and the streaming functions of both implementations, side by side: all four return the same tag of
      a message whose length lets the one-shot functions authenticate it as it stands. */
  method FourTags(parts: seq<seq<Octet>>, last: seq<Octet>, key: seq<Octet>)
    returns (whole64: seq<Octet>, pieces64: seq<Octet>, whole32: seq<Octet>, pieces32: seq<Octet>)
    requires |key| == 32 && |last| < 16 && forall i :: 0 <= i < |parts| ==> |parts[i]| % 16 == 0
    requires |Concat(parts) + last| < 0x1_00000000_00000000 && P64.WholeLength(|Concat(parts) + last|)
    ensures whole64 == pieces64 == whole32 == pieces32 == Tag(Concat(parts) + last, key)
  {
    hide Tag;
    var message := Concat(parts) + last;
    P64.AuthenticatedIsInput(message);
    whole64, whole32 := SameTag(message, key);
    pieces64 := P64.Streaming(parts, last, key);
    pieces32 := Streaming(parts, last, key);
  }
}
