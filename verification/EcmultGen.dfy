/** Blinded multiplication of the generator with a precomputed table of offset multiples. */
module EcmultGen {
  import opened Arith
  import opened Scalars
  import opened Groups

  const ROWS: nat := 64

  /** us[0] + us[1] + ... */
  ghost function Sum<P>(g: Group<P>, us: seq<P>): P {
    if |us| == 0 then g.zero else g.add(Sum(g, us[..|us| - 1]), us[|us| - 1])
  }

  lemma SumSnoc<P>(g: Group<P>, us: seq<P>, u: P)
    ensures Sum(g, us + [u]) == g.add(Sum(g, us), u)
  {
    assert (us + [u])[..|us|] == us;
  }

  /** Row j of the table holds us[j] + i 16^j gen for i = 0, ..., 15. */
  ghost predicate RowOk<P>(g: Group<P>, gen: P, u: P, prec: seq<P>, j: nat) {
    16 * j + 16 <= |prec| &&
    forall i :: 0 <= i < 16 ==> prec[16 * j + i] == g.add(u, Mul(g, i * Pow2(4 * j), gen))
  }

  /** No entry is infinity: the stored form of a point cannot say that it is. */
  ghost predicate AllFinite<P>(g: Group<P>, prec: seq<P>) {
    forall k :: 0 <= k < |prec| ==> prec[k] != g.zero
  }

  ghost predicate TableOk<P>(g: Group<P>, gen: P, us: seq<P>, prec: seq<P>) {
    && |us| == ROWS && |prec| == 16 * ROWS
    && (forall j :: 0 <= j < ROWS ==> RowOk(g, gen, us[j], prec, j))
    && Sum(g, us) == g.zero && AllFinite(g, prec)
  }

  /** The coefficient of the offset base in row j: powers of two that the last row cancels. */
  function OffsetCoefficient(j: nat): int {
    if j == ROWS - 1 then 1 - Pow2(ROWS - 1) else Pow2(j)
  }

  /** What the offset base has to meet: none of its sums with a multiple of the generator is infinity. */
  ghost predicate FiniteEntries<P>(g: Group<P>, gen: P, nums: P) {
    forall j: nat, i :: 0 <= j < ROWS && 0 <= i < 16 ==> Entry(g, gen, nums, j, i) != g.zero
  }

  ghost function Entry<P>(g: Group<P>, gen: P, nums: P, j: nat, i: int): P {
    g.add(Mul(g, OffsetCoefficient(j), nums), Mul(g, i * Pow2(4 * j), gen))
  }

  /** Rows of entries that are not infinity make up such a table. */
  lemma RowsFinite<P>(g: Group<P>, gen: P, nums: P, us: seq<P>, prec: seq<P>)
    requires FiniteEntries(g, gen, nums) && |us| == ROWS && |prec| == 16 * ROWS
    requires forall j :: 0 <= j < ROWS ==> RowOk(g, gen, us[j], prec, j) && us[j] == Mul(g, OffsetCoefficient(j), nums)
    ensures AllFinite(g, prec)
  {
    hide Mul, Pow2, OffsetCoefficient;
    forall k | 0 <= k < |prec|
      ensures prec[k] != g.zero
    {
      var j, i := k / 16, k % 16;
      assert RowOk(g, gen, us[j], prec, j);
      assert prec[16 * j + i] == Entry(g, gen, nums, j, i);
    }
  }

  /** One row of the table, from its offset and 16^j times the generator. */
  method FillRow<P(!new)>(g: Group<P>, precj: array<P>, j: nat, numsbase: P, gbase: P, ghost gen: P)
    requires IsGroup(g) && j < ROWS && precj.Length == 16 * ROWS && gbase == Mul(g, Pow2(4 * j), gen)
    modifies precj
    ensures RowOk(g, gen, numsbase, precj[..], j)
    ensures forall i :: 0 <= i < 16 * j ==> precj[i] == old(precj[i])
  {
    hide Pow2, IsGroup;
    precj[16 * j] := numsbase;
    Unit(g, numsbase);
    assert 0 * Pow2(4 * j) == 0;
    for i := 1 to 16
      invariant forall k :: 0 <= k < i ==> precj[16 * j + k] == g.add(numsbase, Mul(g, k * Pow2(4 * j), gen))
      invariant forall k :: 0 <= k < 16 * j ==> precj[k] == old(precj[k])
    {
      var p := Pow2(4 * j);
      assert i * p == (i - 1) * p + p;
      MulAdd(g, (i - 1) * p, p, gen);
      Assoc(g, numsbase, Mul(g, (i - 1) * p, gen), gbase);
      precj[16 * j + i] := g.add(precj[16 * j + i - 1], gbase);
    }
  }

  method QuadrupleTwice<P(!new)>(g: Group<P>, gbase0: P, ghost j: nat, ghost gen: P) returns (gbase: P)
    requires IsGroup(g) && gbase0 == Mul(g, Pow2(4 * j), gen)
    ensures gbase == Mul(g, Pow2(4 * (j + 1)), gen)
  {
    gbase := gbase0;
    for i := 0 to 4
      invariant gbase == Mul(g, Pow2(4 * j + i), gen)
    {
      MulAdd(g, Pow2(4 * j + i), Pow2(4 * j + i), gen);
      gbase := g.add(gbase, gbase);
    }
  }

  lemma NextCoefficient(j: nat)
    requires j < ROWS
    ensures j < 62 ==> OffsetCoefficient(j + 1) == OffsetCoefficient(j) + OffsetCoefficient(j)
    ensures j == 62 ==> OffsetCoefficient(j + 1) == 1 - (OffsetCoefficient(j) + OffsetCoefficient(j))
  {
  }

  method NextOffset<P(!new)>(g: Group<P>, numsbase0: P, nums: P, j: nat) returns (numsbase: P)
    requires IsGroup(g) && j < ROWS && numsbase0 == Mul(g, OffsetCoefficient(j), nums)
    ensures j + 1 < ROWS ==> numsbase == Mul(g, OffsetCoefficient(j + 1), nums)
  {
    hide OffsetCoefficient, IsGroup, Mul;
    var c := OffsetCoefficient(j);
    numsbase := g.add(numsbase0, numsbase0);
    MulAdd(g, c, c, nums);
    NextCoefficient(j);
    if j == 62 {
      MulNeg(g, c + c, nums);
      MulSucc(g, -(c + c), nums);
      numsbase := g.neg(numsbase);
      numsbase := g.add(numsbase, nums);
    }
  }

  /** The sum of the offsets of the rows built so far. */
  function OffsetSum(j: nat): int {
    if j == ROWS then 0 else Pow2(j) - 1
  }

  lemma OffsetSumStep(j: nat)
    requires j < ROWS
    ensures OffsetSum(j + 1) == OffsetSum(j) + OffsetCoefficient(j)
  {
  }

  method BuildTable<P(!new)>(g: Group<P>, gen: P, nums: P) returns (precj: array<P>, ghost us: seq<P>)
    requires IsGroup(g) && FiniteEntries(g, gen, nums)
    ensures fresh(precj) && TableOk(g, gen, us, precj[..])
  {
    hide IsGroup, RowOk, OffsetCoefficient, OffsetSum, Sum, Mul, Pow2, FiniteEntries, AllFinite;
    precj := new P[16 * ROWS](_ => g.zero);
    var gbase, numsbase := gen, nums;
    us := [];
    MulSucc(g, 0, gen);
    MulSucc(g, 0, nums);
    SumEmpty(g);
    OffsetStart();
    for j := 0 to ROWS
      invariant |us| == j && (forall k :: 0 <= k < j ==> RowOk(g, gen, us[k], precj[..], k))
      invariant forall k :: 0 <= k < j ==> us[k] == Mul(g, OffsetCoefficient(k), nums)
      invariant Sum(g, us) == Mul(g, OffsetSum(j), nums)
      invariant j < ROWS ==> numsbase == Mul(g, OffsetCoefficient(j), nums)
      invariant gbase == Mul(g, Pow2(4 * j), gen)
    {
      ghost var before := precj[..];
      FillRow(g, precj, j, numsbase, gbase, gen);
      forall k | 0 <= k < j
        ensures RowOk(g, gen, us[k], precj[..], k)
      {
        RowKept(g, gen, us[k], before, precj[..], k, j);
      }
      SumSnoc(g, us, numsbase);
      OffsetSumStep(j);
      MulAdd(g, OffsetSum(j), OffsetCoefficient(j), nums);
      us := us + [numsbase];
      gbase := QuadrupleTwice(g, gbase, j, gen);
      numsbase := NextOffset(g, numsbase, nums, j);
    }
    OffsetStart();
    RowsFinite(g, gen, nums, us, precj[..]);
  }

  lemma SumEmpty<P>(g: Group<P>)
    ensures Sum(g, []) == g.zero
  {
  }

  lemma OffsetStart()
    ensures OffsetSum(0) == 0 && OffsetCoefficient(0) == 1 && OffsetSum(ROWS) == 0 && Pow2(4 * 0) == 1
  {
  }

  lemma RowKept<P>(g: Group<P>, gen: P, u: P, before: seq<P>, after: seq<P>, k: nat, j: nat)
    requires RowOk(g, gen, u, before, k) && k < j && |before| == |after|
    requires forall i :: 0 <= i < 16 * j && i < |before| ==> after[i] == before[i]
    ensures RowOk(g, gen, u, after, k)
  {
  }

  /** What the first j digits of m contribute, offsets included. */
  lemma RowContribution<P(!new)>(g: Group<P>, gen: P, us: seq<P>, prec: seq<P>, m: nat, j: nat, base: P)
    requires IsGroup(g) && TableOk(g, gen, us, prec) && j < ROWS
    ensures Bits(m, j * 4, 4) < 16
    ensures g.add(g.add(base, g.add(Sum(g, us[..j]), Mul(g, m % Pow2(4 * j), gen))), prec[16 * j + Bits(m, j * 4, 4)])
         == g.add(base, g.add(Sum(g, us[..j + 1]), Mul(g, m % Pow2(4 * (j + 1)), gen)))
  {
    hide Pow2, Bits, IsGroup, TableOk, Mul, Sum;
    TableRow(g, gen, us, prec, j);
    LowBitsExtend(m, 4 * j, 4);
    Pow2Small();
    assert j * 4 == 4 * j && 4 * j + 4 == 4 * (j + 1);
    var b, p := Bits(m, 4 * j, 4), Pow2(4 * j);
    var bp := b * p;
    assert p * b == bp;
    MulAdd(g, m % p, bp, gen);
    assert us[..j + 1] == us[..j] + [us[j]];
    SumSnoc(g, us[..j], us[j]);
    var s, x, u, y := Sum(g, us[..j]), Mul(g, m % p, gen), us[j], Mul(g, bp, gen);
    Assoc(g, base, g.add(s, x), g.add(u, y));
    Swap4(g, s, x, u, y);
  }

  lemma TableRow<P>(g: Group<P>, gen: P, us: seq<P>, prec: seq<P>, j: nat)
    requires TableOk(g, gen, us, prec) && j < ROWS
    ensures |us| == ROWS && |prec| == 16 * ROWS && Sum(g, us) == g.zero
    ensures forall k :: 0 <= k < |prec| ==> prec[k] != g.zero
    ensures forall i :: 0 <= i < 16 ==> prec[16 * j + i] == g.add(us[j], Mul(g, i * Pow2(4 * j), gen))
  {
    assert RowOk(g, gen, us[j], prec, j);
  }

  lemma BlindCancels<P(!new)>(g: Group<P>, gen: P, initial: P, blind: Scalar, gn: Scalar, us: seq<P>)
    requires IsGroup(g) && g.order == N && g.add(initial, Mul(g, blind, gen)) == g.zero && Sum(g, us) == g.zero
    ensures g.add(initial, g.add(Sum(g, us), Mul(g, AddScalars(gn, blind), gen))) == Mul(g, gn, gen)
  {
    hide AddScalars, Congruent, Mul, Sum;
    var m := Mul(g, gn, gen);
    MulCongruent(g, AddScalars(gn, blind), gn + blind, gen);
    MulAdd(g, gn, blind, gen);
    Unit(g, Mul(g, gn + blind, gen));
    Comm(g, m, Mul(g, blind, gen));
    Assoc(g, initial, Mul(g, blind, gen), m);
    Unit(g, m);
  }

  class GenContext<P(==,!new)> {
    const g: Group<P>
    const gen: P
    const nums: P
    var prec: array?<P>
    var blind: Scalar
    var initial: P
    ghost var us: seq<P>

    /** Once built, the table is right and initial is the negation of blind times the generator. */
    ghost predicate Valid()
      reads this, prec
    {
      && IsGroup(g) && g.order == N
      && (prec != null ==>
            && TableOk(g, gen, us, prec[..])
            && g.add(initial, Mul(g, blind, gen)) == g.zero)
    }

    constructor (g: Group<P>, gen: P, nums: P)
      requires IsGroup(g) && g.order == N
      ensures Valid() && prec == null && this.g == g && this.gen == gen && this.nums == nums
    {
      this.g, this.gen, this.nums := g, gen, nums;
      prec, blind, initial, us := null, 0, g.zero, [];
    }

    /** Fills the table unless it is there already, then blinds with the drawn scalar b. */
    method Build(b: Scalar)
      requires Valid() && b != 0 && FiniteEntries(g, gen, nums)
      modifies this
      ensures Valid() && prec != null
      ensures old(prec) != null ==> unchanged(this)
      ensures old(prec) == null ==> fresh(prec) && blind == Negate(b) && initial == Mul(g, b, gen)
    {
      if prec != null {
        return;
      }
      var table, offsets := BuildTable(g, gen, nums);
      prec, us := table, offsets;
      blind, initial := 0, g.zero;
      Unit(g, g.zero);
      Blind(true, b);
    }

    /** Adds one table entry per hexadecimal digit of the blinded scalar to the blinding point. */
    method Multiply(gn: Scalar) returns (r: P)
      requires Valid() && prec != null
      ensures r == Mul(g, gn, gen)
    {
      hide IsGroup, TableOk, Mul, Pow2, Sum, Bits, AddScalars, Congruent;
      var table := prec;
      TableRow(g, gen, us, table[..], 0);
      r := initial;
      var gnb := AddScalars(gn, blind);
      Start(r);
      var adds := g.zero;
      for j := 0 to ROWS
        invariant r == g.add(initial, g.add(Sum(g, us[..j]), Mul(g, gnb % Pow2(4 * j), gen)))
      {
        var bits := Bits(gnb, j * 4, 4);
        RowContribution(g, gen, us, table[..], gnb, j, initial);
        adds := Select(table, j, bits, adds);
        assert adds != g.zero;
        r := g.add(r, adds);
      }
      OrderSize();
      LowBitsWhole(gnb, 256);
      assert us[..ROWS] == us;
      BlindCancels(g, gen, initial, blind, gn, us);
    }

    lemma Start(r: P)
      requires Valid() && prec != null
      ensures us[..0] == [] && r == g.add(r, g.add(Sum(g, []), Mul(g, 0, gen)))
      ensures forall m: nat :: m % Pow2(4 * 0) == 0
    {
      Unit(g, r);
      Unit(g, g.zero);
    }

    /** Reads the wanted entry of row j while touching all of them. */
    method Select(table: array<P>, j: nat, bits: nat, adds0: P) returns (adds: P)
      requires table.Length == 16 * ROWS && j < ROWS && bits < 16
      ensures adds == table[16 * j + bits]
    {
      adds := adds0;
      for i := 0 to 16
        invariant i > bits ==> adds == table[16 * j + bits]
      {
        adds := if i == bits then table[16 * j + i] else adds;
      }
    }

    /** Replaces the blinding by the drawn scalar b; without a seed the previous blinding is reset first. */
    method Blind(reset: bool, b: Scalar)
      requires Valid() && prec != null && b != 0
      modifies this
      ensures Valid() && prec == old(prec) && us == old(us)
      ensures blind == Negate(b) && initial == Mul(g, b, gen)
    {
      hide IsGroup, TableOk;
      MulSucc(g, 0, gen);
      Unit(g, gen);
      if reset {
        initial := g.neg(gen);
        blind := 1;
      }
      var gb := Multiply(b);
      MulAdd(g, b, Negate(b), gen);
      MulCongruent(g, b + Negate(b), 0, gen);
      blind := Negate(b);
      initial := gb;
    }

    /** Copies a context, sharing nothing that is later written. */
    method CloneFrom(src: GenContext<P>)
      requires src.Valid() && src.g == g && src.gen == gen && src != this
      modifies this
      ensures Valid() && (prec == null <==> src.prec == null)
      ensures src.prec != null ==> fresh(prec) && prec[..] == src.prec[..] && blind == src.blind && initial == src.initial
    {
      if src.prec == null {
        prec := null;
      } else {
        var from := src.prec;
        var copy := new P[from.Length](i requires 0 <= i < from.Length reads from => from[i]);
        assert copy[..] == from[..];
        prec, us := copy, src.us;
        initial := src.initial;
        blind := src.blind;
      }
    }

    /** Drops the table and overwrites the rest; the cleared point structure stands for no point in particular. */
    method Clear(cleared: P)
      requires Valid()
      modifies this
      ensures Valid() && prec == null && blind == 0 && initial == cleared
    {
      blind, initial, prec := 0, cleared, null;
    }
  }
}
