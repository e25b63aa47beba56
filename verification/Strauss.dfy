/** Interleaved multi-scalar multiplication: all points share one chain of doublings. */
module Strauss {
  import opened Arith
  import opened Scalars
  import opened Groups
  import opened Wnaf
  import opened Wrappers
  import opened OddTables

  const WINDOW_A: nat := 5
  const WINDOW_G: nat := 16
  const TABLE_A: nat := 8

  /** A point that takes part: its recoded scalar and where it came from. */
  datatype PointState = PointState(wnafNa: seq<int>, bitsNa: nat, inputPos: nat)

  /** A 256-digit recoding of a scalar whose digits vanish from position bits on. */
  ghost predicate Recodes(ds: seq<int>, bits: nat, a: int, w: nat)
    requires w > 0
  {
    && |ds| == 256 && bits <= 256
    && Congruent(Value(ds, 1), a, N)
    && (forall i :: 0 <= i < 256 ==> DigitOk(ds[i], w))
    && (forall i :: bits <= i < 256 ==> ds[i] == 0)
  }

  method Recode256(a: Scalar, w: nat) returns (ds: seq<int>, bits: nat)
    requires 2 <= w <= 31
    ensures Recodes(ds, bits, a, w)
  {
    var wnaf := new int[256];
    bits := Recode(wnaf, 256, a, w);
    SignedFits(a);
    ds := wnaf[..256];
  }

  ghost function ScalarsOf(ps: seq<PointState>, na: seq<Scalar>): seq<int>
    requires forall k :: 0 <= k < |ps| ==> ps[k].inputPos < |na|
  {
    seq(|ps|, k requires 0 <= k < |ps| => na[ps[k].inputPos])
  }

  ghost function PointsOf<P>(ps: seq<PointState>, a: seq<P>): seq<P>
    requires forall k :: 0 <= k < |ps| ==> ps[k].inputPos < |a|
  {
    seq(|ps|, k requires 0 <= k < |ps| => a[ps[k].inputPos])
  }

  /** Every kept point is finite and recoded, with no digit at or above position bits. */
  ghost predicate Kept<P>(g: Group<P>, ps: seq<PointState>, bits: nat, a: seq<P>, na: seq<Scalar>)
    requires |a| == |na|
  {
    && bits <= 256
    && forall k :: 0 <= k < |ps| ==>
        && ps[k].inputPos < |a| && ps[k].bitsNa <= bits
        && a[ps[k].inputPos] != g.zero
        && Recodes(ps[k].wnafNa, ps[k].bitsNa, na[ps[k].inputPos], WINDOW_A)
  }

  /** Drops zero scalars and points at infinity, and recodes the scalars that remain. */
  method Compact<P(==,!new)>(g: Group<P>, ps: array<PointState>, a: seq<P>, na: seq<Scalar>)
    returns (no: nat, bits: nat)
    requires IsGroup(g) && |a| == |na| <= ps.Length
    modifies ps
    ensures no <= |a| && Kept(g, ps[..no], bits, a, na)
    ensures Comb(g, ScalarsOf(ps[..no], na), PointsOf(ps[..no], a)) == Comb(g, na, a)
  {
    hide Compacted, Kept, Comb, ScalarsOf, PointsOf, IsGroup, Recodes;
    no, bits := 0, 0;
    NothingKept(g, a, na);
    assert ps[..0] == [];
    for np := 0 to |a|
      invariant no <= np && Compacted(g, ps[..no], bits, a, na, np)
    {
      if na[np] == 0 || a[np] == g.zero {
        SkipOne(g, ps[..no], bits, a, na, np);
        continue;
      }
      var ds, b := Recode256(na[np], WINDOW_A);
      ghost var kept := ps[..no];
      ps[no] := PointState(ds, b, np);
      assert ps[..no + 1] == kept + [PointState(ds, b, np)];
      KeepOne(g, kept, bits, a, na, np, PointState(ds, b, np));
      if b > bits {
        bits := b;
      }
      no := no + 1;
    }
    AllCompacted(g, ps[..no], bits, a, na);
  }

  /** The kept points among the first np account for the whole sum up to there. */
  ghost predicate Compacted<P>(g: Group<P>, ps: seq<PointState>, bits: nat, a: seq<P>, na: seq<Scalar>, np: nat)
    requires |a| == |na| && np <= |a|
  {
    Kept(g, ps, bits, a, na) && Comb(g, ScalarsOf(ps, na), PointsOf(ps, a)) == Comb(g, na[..np], a[..np])
  }

  lemma SkipOne<P(!new)>(g: Group<P>, ps: seq<PointState>, bits: nat, a: seq<P>, na: seq<Scalar>, np: nat)
    requires IsGroup(g) && |a| == |na| && np < |a| && Compacted(g, ps, bits, a, na, np) && (na[np] == 0 || a[np] == g.zero)
    ensures Compacted(g, ps, bits, a, na, np + 1)
  {
    hide IsGroup, Recodes;
    SkipOrKeep(g, ps, bits, a, na, np);
  }

  lemma KeepOne<P(!new)>(g: Group<P>, ps: seq<PointState>, bits: nat, a: seq<P>, na: seq<Scalar>, np: nat, p: PointState)
    requires IsGroup(g) && |a| == |na| && np < |a| && Compacted(g, ps, bits, a, na, np)
    requires p.inputPos == np && a[np] != g.zero && Recodes(p.wnafNa, p.bitsNa, na[np], WINDOW_A)
    ensures Compacted(g, ps + [p], if p.bitsNa > bits then p.bitsNa else bits, a, na, np + 1)
  {
    hide IsGroup, Recodes;
    SkipOrKeep(g, ps, bits, a, na, np);
    AppendKept(g, ps, bits, a, na, p);
  }

  lemma AllCompacted<P>(g: Group<P>, ps: seq<PointState>, bits: nat, a: seq<P>, na: seq<Scalar>)
    requires |a| == |na| && Compacted(g, ps, bits, a, na, |a|)
    ensures Kept(g, ps, bits, a, na) && Comb(g, ScalarsOf(ps, na), PointsOf(ps, a)) == Comb(g, na, a)
  {
    hide Recodes, Comb;
    assert a[..|a|] == a && na[..|na|] == na;
  }

  lemma NothingKept<P>(g: Group<P>, a: seq<P>, na: seq<Scalar>)
    requires |a| == |na|
    ensures Compacted(g, [], 0, a, na, 0)
  {
    assert a[..0] == [] && na[..0] == [];
  }

  lemma SkipOrKeep<P(!new)>(g: Group<P>, ps: seq<PointState>, bits: nat, a: seq<P>, na: seq<Scalar>, np: nat)
    requires IsGroup(g) && |a| == |na| && np < |a| && Kept(g, ps, bits, a, na)
    ensures Comb(g, na[..np + 1], a[..np + 1]) == g.add(Comb(g, na[..np], a[..np]), Mul(g, na[np], a[np]))
    ensures na[np] == 0 || a[np] == g.zero ==> Comb(g, na[..np + 1], a[..np + 1]) == Comb(g, na[..np], a[..np])
  {
    assert na[..np + 1] == na[..np] + [na[np]] && a[..np + 1] == a[..np] + [a[np]];
    CombSnoc(g, na[..np], a[..np], na[np], a[np]);
    Unit(g, Comb(g, na[..np], a[..np]));
    MulPoint(g, na[np], a[np], a[np]);
  }

  lemma AppendKept<P>(g: Group<P>, ps: seq<PointState>, bits: nat, a: seq<P>, na: seq<Scalar>, p: PointState)
    requires |a| == |na| && Kept(g, ps, bits, a, na)
    requires p.inputPos < |a| && a[p.inputPos] != g.zero && Recodes(p.wnafNa, p.bitsNa, na[p.inputPos], WINDOW_A)
    ensures Kept(g, ps + [p], if p.bitsNa > bits then p.bitsNa else bits, a, na)
    ensures Comb(g, ScalarsOf(ps + [p], na), PointsOf(ps + [p], a))
         == g.add(Comb(g, ScalarsOf(ps, na), PointsOf(ps, a)), Mul(g, na[p.inputPos], a[p.inputPos]))
  {
    assert ScalarsOf(ps + [p], na) == ScalarsOf(ps, na) + [na[p.inputPos]];
    assert PointsOf(ps + [p], a) == PointsOf(ps, a) + [a[p.inputPos]];
    CombSnoc(g, ScalarsOf(ps, na), PointsOf(ps, a), na[p.inputPos], a[p.inputPos]);
  }

  /** One table of odd multiples for each kept point, side by side. */
  ghost predicate Tables<P>(g: Group<P>, preA: seq<P>, pts: seq<P>) {
    TABLE_A * |pts| <= |preA| &&
    forall k :: 0 <= k < |pts| ==> OddTable(g, preA[TABLE_A * k..TABLE_A * k + TABLE_A], pts[k])
  }

  method BuildTables<P(!new)>(g: Group<P>, preA: array<P>, ps: seq<PointState>, a: seq<P>)
    requires IsGroup(g) && TABLE_A * |ps| <= preA.Length
    requires forall k :: 0 <= k < |ps| ==> ps[k].inputPos < |a| && a[ps[k].inputPos] != g.zero
    modifies preA
    ensures Tables(g, preA[..], PointsOf(ps, a))
  {
    for np := 0 to |ps|
      invariant forall k :: 0 <= k < np ==>
        OddTable(g, preA[..][TABLE_A * k..TABLE_A * k + TABLE_A], a[ps[k].inputPos])
    {
      ghost var before := preA[..];
      OddMultiplesTable(g, TABLE_A, preA, TABLE_A * np, a[ps[np].inputPos]);
      forall k | 0 <= k < np
        ensures preA[..][TABLE_A * k..TABLE_A * k + TABLE_A] == before[TABLE_A * k..TABLE_A * k + TABLE_A]
      {
      }
      assert preA[..][TABLE_A * np..TABLE_A * np + TABLE_A] == preA[TABLE_A * np..TABLE_A * np + TABLE_A];
    }
  }

  // ----- the shared doubling chain

  /** cs[k] is the number that the digits of ws[k] from position i upwards stand for. */
  ghost predicate Tails(cs: seq<int>, ws: seq<seq<int>>, i: nat) {
    && |cs| == |ws|
    && forall k :: 0 <= k < |ws| ==> |ws[k]| == 256 && i <= 256 && cs[k] == Value(ws[k][i..], 1)
  }

  /** Position i has been folded into the first np coefficients; the others have only been doubled. */
  ghost predicate MidTails(cs: seq<int>, ws: seq<seq<int>>, i: nat, np: nat) {
    && |cs| == |ws| && i < 256
    && (forall k :: 0 <= k < |ws| ==> |ws[k]| == 256)
    && (forall k :: 0 <= k < |ws| ==> cs[k] == (if k < np then ws[k][i] else 0) + 2 * Value(ws[k][i + 1..], 1))
  }

  lemma TailsStart(cs: seq<int>, ws: seq<seq<int>>, bits: nat)
    requires |cs| == |ws| && bits <= 256
    requires forall k :: 0 <= k < |cs| ==> cs[k] == 0
    requires forall k :: 0 <= k < |ws| ==> |ws[k]| == 256 && forall j :: bits <= j < 256 ==> ws[k][j] == 0
    ensures Tails(cs, ws, bits)
  {
    forall k | 0 <= k < |ws|
      ensures Value(ws[k][bits..], 1) == 0
    {
      ValueZero(ws[k][bits..], 1);
    }
  }

  lemma TailsDouble<P(!new)>(g: Group<P>, cs: seq<int>, ws: seq<seq<int>>, pts: seq<P>, i: nat, r: P)
    returns (cs2: seq<int>)
    requires IsGroup(g) && |cs| == |pts| && r == Comb(g, cs, pts)
    requires i < 256 && Tails(cs, ws, i + 1)
    ensures |cs2| == |pts| && MidTails(cs2, ws, i, 0) && g.add(r, r) == Comb(g, cs2, pts)
  {
    cs2 := seq(|cs|, k requires 0 <= k < |cs| => 2 * cs[k]);
    CombDouble(g, cs, cs2, pts);
  }

  lemma TailsAdd<P(!new)>(g: Group<P>, cs: seq<int>, ws: seq<seq<int>>, pts: seq<P>, i: nat, np: nat, r: P)
    returns (cs2: seq<int>)
    requires IsGroup(g) && |cs| == |pts| && r == Comb(g, cs, pts)
    requires np < |ws| && MidTails(cs, ws, i, np)
    ensures |cs2| == |pts| && MidTails(cs2, ws, i, np + 1)
    ensures g.add(r, Mul(g, ws[np][i], pts[np])) == Comb(g, cs2, pts)
    ensures ws[np][i] == 0 ==> r == Comb(g, cs2, pts)
  {
    hide Value;
    cs2 := cs[np := cs[np] + ws[np][i]];
    CombUpdate(g, cs, pts, np, ws[np][i]);
    Unit(g, r);
  }

  lemma TailsFold(cs: seq<int>, ws: seq<seq<int>>, i: nat)
    requires i < 256 && MidTails(cs, ws, i, |ws|)
    ensures Tails(cs, ws, i)
  {
    forall k | 0 <= k < |ws|
      ensures Value(ws[k][i..], 1) == ws[k][i] + 2 * Value(ws[k][i + 1..], 1)
    {
      assert ws[k][i..][1..] == ws[k][i + 1..];
      assert Pow2(1) == 2;
    }
  }

  lemma TailsDone<P(!new)>(g: Group<P>, cs: seq<int>, ws: seq<seq<int>>, ks: seq<int>, pts: seq<P>)
    requires IsGroup(g) && g.order == N && |ws| == |ks| == |pts| && Tails(cs, ws, 0)
    requires forall k :: 0 <= k < |ws| ==> Congruent(Value(ws[k], 1), ks[k], N)
    ensures Comb(g, cs, pts) == Comb(g, ks, pts)
  {
    forall k | 0 <= k < |ks|
      ensures Congruent(cs[k], ks[k], N)
    {
      assert ws[k][0..] == ws[k];
    }
    CombCongruent(g, cs, ks, pts);
  }

  /** The digits that drive the chain: those of the kept points, and last those of the generator. */
  ghost function Digits(ps: seq<PointState>, wnafNg: seq<int>): seq<seq<int>> {
    seq(|ps|, k requires 0 <= k < |ps| => ps[k].wnafNa) + [wnafNg]
  }

  /** Adds one digit's multiple of a point, looked up in its table; a zero digit adds nothing. */
  method AddDigit<P(!new)>(g: Group<P>, r: P, pre: seq<P>, n: int, w: nat, ghost a: P) returns (r': P)
    requires IsGroup(g) && w >= 2 && |pre| == TableSize(w) && OddTable(g, pre, a) && DigitOk(n, w)
    ensures r' == if n != 0 then g.add(r, Mul(g, n, a)) else r
  {
    r' := r;
    if n != 0 {
      TableGetMultiplies(g, pre, n, w, a);
      r' := g.add(r, TableGet(g, pre, n, w));
    }
  }

  /** One position: double, then add the digit of every kept point. */
  method AddPosition<P(!new)>(g: Group<P>, r0: P, i: nat, preA: seq<P>, ps: seq<PointState>, ghost wnafNg: seq<int>,
                              ghost pts: seq<P>, ghost cs0: seq<int>) returns (r: P, ghost cs: seq<int>)
    requires IsGroup(g) && |pts| == |ps| + 1 && Tables(g, preA, pts[..|ps|]) && i < 256
    requires forall k :: 0 <= k < |ps| ==> |ps[k].wnafNa| == 256 && forall j :: 0 <= j < 256 ==>
      DigitOk(ps[k].wnafNa[j], WINDOW_A) && (ps[k].bitsNa <= j ==> ps[k].wnafNa[j] == 0)
    requires |cs0| == |pts| && r0 == Comb(g, cs0, pts) && Tails(cs0, Digits(ps, wnafNg), i + 1)
    ensures |cs| == |pts| && r == Comb(g, cs, pts) && MidTails(cs, Digits(ps, wnafNg), i, |ps|)
  {
    hide Comb, Value, Mul, IsGroup, Tails, MidTails;
    ghost var ws := Digits(ps, wnafNg);
    assert Pow2(WINDOW_A - 2) == TABLE_A;
    cs := TailsDouble(g, cs0, ws, pts, i, r0);
    r := g.add(r0, r0);
    for np := 0 to |ps|
      invariant |cs| == |pts| && r == Comb(g, cs, pts) && MidTails(cs, ws, i, np)
    {
      ghost var r1 := r;
      assert ws[np] == ps[np].wnafNa && pts[..|ps|][np] == pts[np];
      var n := ps[np].wnafNa[i];
      if i < ps[np].bitsNa && n != 0 {
        r := AddDigit(g, r, preA[TABLE_A * np..TABLE_A * np + TABLE_A], n, WINDOW_A, pts[np]);
      }
      cs := TailsAdd(g, cs, ws, pts, i, np, r1);
    }
  }

  method Chain<P(!new)>(g: Group<P>, bits: nat, preA: seq<P>, ps: seq<PointState>, preG: seq<P>,
                        wnafNg: seq<int>, bitsNg: nat, ghost pts: seq<P>, ghost ks: seq<int>)
    returns (r: P)
    requires IsGroup(g) && g.order == N && |pts| == |ks| == |ps| + 1 && bits <= 256
    requires Tables(g, preA, pts[..|ps|])
    requires |preG| == TableSize(WINDOW_G) && OddTable(g, preG, pts[|ps|])
    requires forall k :: 0 <= k < |ps| ==> ps[k].bitsNa <= bits && Recodes(ps[k].wnafNa, ps[k].bitsNa, ks[k], WINDOW_A)
    requires bitsNg <= bits && Recodes(wnafNg, bitsNg, ks[|ps|], WINDOW_G)
    ensures r == Comb(g, ks, pts)
  {
    hide Comb, Value, Mul, IsGroup, Tails, MidTails, Tables;
    ghost var ws := Digits(ps, wnafNg);
    r := g.zero;
    ghost var cs := seq(|pts|, _ => 0);
    CombZero(g, cs, pts);
    TailsStart(cs, ws, bits);
    for i := bits downto 0
      invariant |cs| == |pts| && r == Comb(g, cs, pts) && Tails(cs, ws, i)
    {
      r, cs := AddPosition(g, r, i, preA, ps, wnafNg, pts, cs);
      ghost var r1 := r;
      var n := wnafNg[i];
      if i < bitsNg && n != 0 {
        r := AddDigit(g, r, preG, n, WINDOW_G, pts[|ps|]);
      }
      cs := TailsAdd(g, cs, ws, pts, i, |ps|, r1);
      TailsFold(cs, ws, i);
    }
    TailsDone(g, cs, ws, ks, pts);
  }

  /** Sum of na[i] a[i] for all i, plus ng times the generator when ng is given. */
  ghost function MultiSum<P>(g: Group<P>, na: seq<int>, a: seq<P>, ng: Option<Scalar>, gen: P): P
    requires |na| == |a|
  {
    if ng.Some? then g.add(Comb(g, na, a), Mul(g, ng.value, gen)) else Comb(g, na, a)
  }

  method StraussWnaf<P(==,!new)>(g: Group<P>, preG: seq<P>, ghost gen: P, ps: array<PointState>, preA: array<P>,
                                 a: seq<P>, na: seq<Scalar>, ng: Option<Scalar>)
    returns (r: P)
    requires IsGroup(g) && g.order == N && |a| == |na| <= ps.Length && TABLE_A * |a| <= preA.Length
    requires |preG| == TableSize(WINDOW_G) && OddTable(g, preG, gen)
    modifies ps, preA
    ensures r == MultiSum(g, na, a, ng, gen)
  {
    hide Comb, Value, Mul, IsGroup;
    var no, bits := Compact(g, ps, a, na);
    var kept := ps[..no];
    BuildTables(g, preA, kept, a);
    var wnafNg: seq<int>, bitsNg := seq(256, _ => 0), 0;
    ValueZero(wnafNg, 1);
    if ng.Some? {
      wnafNg, bitsNg := Recode256(ng.value, WINDOW_G);
      if bitsNg > bits {
        bits := bitsNg;
      }
    }
    ghost var k := if ng.Some? then ng.value else 0;
    ghost var pts, ks := PointsOf(kept, a), ScalarsOf(kept, na);
    assert (pts + [gen])[..no] == pts;
    r := Chain(g, bits, preA[..], kept, preG, wnafNg, bitsNg, pts + [gen], ks + [k]);
    CombSnoc(g, ks, pts, k, gen);
    MulSucc(g, 0, gen);
    Unit(g, Comb(g, ks, pts));
  }

  /** The two-term form: na A + ng G. */
  method Ecmult<P(==,!new)>(g: Group<P>, preG: seq<P>, ghost gen: P, a: P, na: Scalar, ng: Option<Scalar>)
    returns (r: P)
    requires IsGroup(g) && g.order == N
    requires |preG| == TableSize(WINDOW_G) && OddTable(g, preG, gen)
    ensures r == if ng.Some? then g.add(Mul(g, na, a), Mul(g, ng.value, gen)) else Mul(g, na, a)
  {
    var preA := new P[TABLE_A](_ => g.zero);
    var ps := new PointState[1](_ => PointState([], 0, 0));
    r := StraussWnaf(g, preG, gen, ps, preA, [a], [na], ng);
    assert [na][..0] == [] && [a][..0] == [];
    assert Comb(g, [na], [a]) == g.add(Comb(g, [na][..0], [a][..0]), Mul(g, na, a));
    Unit(g, Mul(g, na, a));
  }
}
