/** Constant-time multiplication of a point, which never doubles or adds the point at infinity. */
module EcmultConst {
  import opened Arith
  import opened Scalars
  import opened Groups
  import opened Wnaf
  import opened WnafFixed
  import opened WnafConst
  import opened OddTables

  const WINDOW: nat := 4
  const DIGITS: nat := 64

  ghost predicate NoTorsion<P>(g: Group<P>, k: int, p: P)
    requires g.order > 0
  {
    Mul(g, k, p) == g.zero ==> p == g.zero || k % g.order == 0
  }

  /** In a group of prime order only multiples of the order kill a finite point. */
  ghost predicate PrimeOrder<P(!new)>(g: Group<P>) {
    g.order > 0 && forall k, p :: NoTorsion(g, k, p)
  }

  lemma FiniteMultiple<P(!new)>(g: Group<P>, k: int, p: P)
    requires IsGroup(g) && g.order == N && PrimeOrder(g) && p != g.zero && 0 < Abs(k) < N
    ensures Mul(g, k, p) != g.zero
  {
    assert NoTorsion(g, k, p);
    if k > 0 {
      DivModUnique(k, N, 0, k);
    } else {
      DivModUnique(k, N, -1, k + N);
    }
  }

  /** Doubling that its caller may use only away from infinity. */
  method DoubleNonzero<P>(g: Group<P>, a: P) returns (r: P)
    requires a != g.zero
    ensures r == g.add(a, a)
  {
    r := g.add(a, a);
  }

  /** Addition whose second operand must not be the point at infinity. */
  method AddFinite<P>(g: Group<P>, a: P, b: P) returns (r: P)
    requires b != g.zero
    ensures r == g.add(a, b)
  {
    r := g.add(a, b);
  }

  // ----- prefixes of an all-odd recoding

  lemma {:induction false} ValueSplit(ds: seq<int>, w: nat, i: nat)
    requires i <= |ds|
    ensures Value(ds, w) == Value(ds[..i], w) + Pow2(w * i) * Value(ds[i..], w)
  {
    if i == 0 {
      assert ds[0..] == ds && Pow2(w * 0) == 1;
    } else {
      ValueSplit(ds[1..], w, i - 1);
      assert ds[..i][1..] == ds[1..][..i - 1] && ds[1..][i - 1..] == ds[i..];
      assert w * i == w + w * (i - 1);
      Pow2Add(w, w * (i - 1));
      SplitSum(Pow2(w), Value(ds[..i][1..], w), Pow2(w * (i - 1)), Value(ds[i..], w));
    }
  }

  lemma SplitSum(p: int, lo: int, q: int, hi: int)
    ensures p * (lo + q * hi) == p * lo + (p * q) * hi
  {
    MulAssoc(p, q, hi);
  }

  lemma {:induction false} OddValue(ds: seq<int>, w: nat)
    requires w > 0 && AllOdd(ds, w)
    ensures Abs(Value(ds, w)) < Pow2(w * |ds|)
    ensures |ds| > 0 ==> Value(ds, w) % 2 == 1
  {
    if |ds| == 0 {
      assert w * 0 == 0;
    } else {
      hide Pow2;
      assert AllOdd(ds[1..], w) && OddDigit(ds[0], w);
      OddValue(ds[1..], w);
      assert w * |ds| == w + w * (|ds| - 1);
      Pow2Add(w, w * (|ds| - 1));
      Pow2Even(w);
      OddStep(ds[0], Pow2(w - 1), Pow2(w), Value(ds[1..], w), Pow2(w * (|ds| - 1)));
    }
  }

  lemma OddStep(d: int, half: nat, p: nat, v: int, q: nat)
    requires p == 2 * half && d % 2 == 1 && Abs(d) < p && Abs(v) < q
    ensures Abs(d + p * v) < p * q && (d + p * v) % 2 == 1
  {
    var pv, pq, hv := p * v, p * q, half * v;
    TimesBound(p, v, q);
    MulAssoc(2, half, v);
    OddPlusEven(d, pv, hv);
    assert p - pq <= pv <= pq - p;
  }

  lemma OddPlusEven(d: int, e: int, h: int)
    requires d % 2 == 1 && e == 2 * h
    ensures (d + e) % 2 == 1
  {
  }

  lemma TimesBound(p: nat, v: int, q: nat)
    requires Abs(v) < q
    ensures p - p * q <= p * v <= p * q - p
  {
    MulMono(v, q - 1, p);
    MulMono(1 - q, v, p);
  }

  /** Every proper prefix of the recoding is a small odd number, so small doublings of it stay below the order. */
  lemma PrefixSmall(ds: seq<int>, i: nat)
    requires |ds| == DIGITS + 1 && AllOdd(ds, WINDOW) && 0 < i <= DIGITS
    requires 2 * Abs(Value(ds, WINDOW)) < N + 4
    ensures var x := Value(ds[i..], WINDOW); x != 0 && 8 * Abs(x) < N
  {
    hide Value, Pow2;
    assert AllOdd(ds[..i], WINDOW) && AllOdd(ds[i..], WINDOW);
    ValueSplit(ds, WINDOW, i);
    OddValue(ds[..i], WINDOW);
    OddValue(ds[i..], WINDOW);
    Pow2Mono(WINDOW, WINDOW * i);
    Pow2Small();
    QuotientSmall(Value(ds[i..], WINDOW), Pow2(WINDOW * i), Value(ds, WINDOW), Value(ds[..i], WINDOW));
  }

  lemma QuotientSmall(x: int, p: nat, v: int, lo: int)
    requires v == lo + p * x && Abs(lo) < p && p >= 16 && 2 * Abs(v) < N + 4
    ensures 8 * Abs(x) < N
  {
    if x >= 1 {
      MulMono(16, p, x - 1);
      assert p * x == p * (x - 1) + p;
    } else if x <= -1 {
      MulMono(16, p, -x - 1);
      assert p * -x == p * (-x - 1) + p;
    }
  }

  // ----- the algorithm

  method LookupConst<P(!new)>(g: Group<P>, pre: seq<P>, n: int, ghost a: P) returns (p: P)
    requires IsGroup(g) && g.order == N && PrimeOrder(g) && a != g.zero
    requires |pre| == TableSize(WINDOW + 1) && OddTable(g, pre, a) && OddDigit(n, WINDOW)
    ensures p == Mul(g, n, a) && p != g.zero
  {
    Pow2Small();
    TableGetMultiplies(g, pre, n, WINDOW + 1, a);
    FiniteMultiple(g, n, a);
    var absN := if n > 0 then n else -n;
    var idx := absN / 2;
    p := pre[idx];
    if n != absN {
      p := g.neg(p);
    }
  }

  /** Four doublings and one table addition. */
  method WindowConst<P(!new)>(g: Group<P>, pre: seq<P>, r0: P, n: int, ghost a: P, ghost x: int) returns (r: P)
    requires IsGroup(g) && g.order == N && PrimeOrder(g) && a != g.zero
    requires |pre| == TableSize(WINDOW + 1) && OddTable(g, pre, a) && OddDigit(n, WINDOW)
    requires r0 == Mul(g, x, a) && x != 0 && 8 * Abs(x) < N
    ensures r == Mul(g, n + Pow2(WINDOW) * x, a)
  {
    hide IsGroup, PrimeOrder, OddTable, OddDigit;
    hide Mul;
    r := r0;
    Pow2Small();
    ghost var k := x;
    for j := 0 to WINDOW
      invariant r == Mul(g, k, a) && k != 0
      invariant (j == 0 ==> k == x) && (j == 1 ==> k == 2 * x) && (j == 2 ==> k == 4 * x) && (j == 3 ==> k == 8 * x)
      invariant j == 4 ==> k == 16 * x
    {
      FiniteMultiple(g, k, a);
      MulAdd(g, k, k, a);
      r := DoubleNonzero(g, r);
      k := k + k;
    }
    var p := LookupConst(g, pre, n, a);
    MulAdd(g, k, n, a);
    r := AddFinite(g, r, p);
  }

  method EcmultConst<P(==,!new)>(g: Group<P>, a: P, scalar: Scalar) returns (r: P)
    requires IsGroup(g) && g.order == N && PrimeOrder(g)
    requires a != g.zero
    ensures r == Mul(g, scalar, a)
  {
    hide IsGroup, PrimeOrder, Value, Mul, Pow2, AllOdd, OddTable;
    SizeUnique(WINDOW, DIGITS);
    var wnaf := new int[DIGITS + 1];
    var skew := RecodeConst(wnaf, scalar, WINDOW);
    var ds := wnaf[..DIGITS + 1];
    var pre := new P[8](_ => g.zero);
    Pow2Small();
    OddMultiplesTable(g, 8, pre, 0, a);
    var table := pre[0..8];
    r := Horner(g, table, ds, a);
    var correction := a;
    var doubled := g.add(correction, correction);
    SkewPoint(g, a, skew);
    if skew == 2 {
      correction := doubled;
    }
    correction := g.neg(correction);
    ghost var v := Value(ds, WINDOW);
    MulAdd(g, v, -skew, a);
    MulCongruent(g, v - skew, scalar, a);
    r := AddFinite(g, r, correction);
  }

  method Horner<P(!new)>(g: Group<P>, table: seq<P>, ds: seq<int>, ghost a: P) returns (r: P)
    requires IsGroup(g) && g.order == N && PrimeOrder(g) && a != g.zero
    requires |table| == TableSize(WINDOW + 1) && OddTable(g, table, a)
    requires |ds| == DIGITS + 1 && AllOdd(ds, WINDOW) && 2 * Abs(Value(ds, WINDOW)) < N + 4
    ensures r == Mul(g, Value(ds, WINDOW), a)
  {
    hide IsGroup, PrimeOrder, Mul, Pow2, OddTable;
    assert OddDigit(ds[DIGITS], WINDOW);
    r := LookupConst(g, table, ds[DIGITS], a);
    assert ds[DIGITS..][1..] == [];
    for i := DIGITS downto 0
      invariant r == Mul(g, Value(ds[i..], WINDOW), a)
    {
      PrefixSmall(ds, i + 1);
      assert OddDigit(ds[i], WINDOW);
      r := WindowConst(g, table, r, ds[i], a, Value(ds[i + 1..], WINDOW));
      assert ds[i..][1..] == ds[i + 1..];
    }
    assert ds[0..] == ds;
  }

  lemma SkewPoint<P(!new)>(g: Group<P>, a: P, skew: int)
    requires IsGroup(g) && g.order == N && PrimeOrder(g) && a != g.zero && (skew == 1 || skew == 2)
    ensures var c := if skew == 2 then g.add(a, a) else a; g.neg(c) == Mul(g, -skew, a) && g.neg(c) != g.zero
  {
    MulSucc(g, 0, a);
    MulSucc(g, 1, a);
    MulNeg(g, skew, a);
    FiniteMultiple(g, -skew, a);
  }
}
