/** Commutative groups whose exponent divides a given order, and integer combinations of their elements.
    The laws are stated through named predicates, so that each one is used exactly where a proof names it. */
module Groups {
  import opened Arith

  datatype Group<!P> = Group(zero: P, add: (P, P) -> P, neg: P -> P, order: nat)

  ghost predicate Associative<P>(g: Group<P>, a: P, b: P, c: P) {
    g.add(g.add(a, b), c) == g.add(a, g.add(b, c))
  }

  ghost predicate Commutative<P>(g: Group<P>, a: P, b: P) {
    g.add(a, b) == g.add(b, a)
  }

  ghost predicate HasUnitAndInverse<P>(g: Group<P>, a: P) {
    g.add(a, g.zero) == a && g.add(a, g.neg(a)) == g.zero
  }

  ghost predicate HasExponent<P>(g: Group<P>, a: P) {
    Mul(g, g.order, a) == g.zero
  }

  ghost predicate IsGroup<P(!new)>(g: Group<P>) {
    && g.order > 0
    && (forall a, b, c :: Associative(g, a, b, c))
    && (forall a, b :: Commutative(g, a, b))
    && (forall a :: HasUnitAndInverse(g, a))
    && (forall a :: HasExponent(g, a))
  }

  /** k times p, for any integer k. */
  ghost function Mul<P>(g: Group<P>, k: int, p: P): P
    decreases if k < 0 then 1 - k else k
  {
    if k == 0 then g.zero else if k > 0 then g.add(Mul(g, k - 1, p), p) else g.neg(Mul(g, -k, p))
  }

  lemma Assoc<P(!new)>(g: Group<P>, a: P, b: P, c: P)
    requires IsGroup(g)
    ensures g.add(g.add(a, b), c) == g.add(a, g.add(b, c))
  {
    assert Associative(g, a, b, c);
  }

  lemma Comm<P(!new)>(g: Group<P>, a: P, b: P)
    requires IsGroup(g)
    ensures g.add(a, b) == g.add(b, a)
  {
    assert Commutative(g, a, b);
  }

  lemma Unit<P(!new)>(g: Group<P>, a: P)
    requires IsGroup(g)
    ensures g.add(a, g.zero) == a && g.add(g.zero, a) == a
    ensures g.add(a, g.neg(a)) == g.zero && g.add(g.neg(a), a) == g.zero
  {
    assert HasUnitAndInverse(g, a);
    Comm(g, a, g.zero);
    Comm(g, a, g.neg(a));
  }

  lemma Exponent<P(!new)>(g: Group<P>, a: P)
    requires IsGroup(g)
    ensures Mul(g, g.order, a) == g.zero
  {
    assert HasExponent(g, a);
  }

  /** (a + b) + (c + d) == (a + c) + (b + d). */
  lemma Swap4<P(!new)>(g: Group<P>, a: P, b: P, c: P, d: P)
    requires IsGroup(g)
    ensures g.add(g.add(a, b), g.add(c, d)) == g.add(g.add(a, c), g.add(b, d))
  {
    Assoc(g, a, b, g.add(c, d));
    Assoc(g, b, c, d);
    Comm(g, b, c);
    Assoc(g, c, b, d);
    Assoc(g, a, c, g.add(b, d));
  }

  /** (a + b) + c == (a + c) + b. */
  lemma Swap3<P(!new)>(g: Group<P>, a: P, b: P, c: P)
    requires IsGroup(g)
    ensures g.add(g.add(a, b), c) == g.add(g.add(a, c), b)
  {
    Assoc(g, a, b, c);
    Comm(g, b, c);
    Assoc(g, a, c, b);
  }

  lemma Cancel<P(!new)>(g: Group<P>, a: P, b: P)
    requires IsGroup(g) && g.add(a, b) == g.zero
    ensures b == g.neg(a)
  {
    Assoc(g, g.neg(a), a, b);
    Unit(g, a);
    Unit(g, b);
    Unit(g, g.neg(a));
  }

  lemma NegSum<P(!new)>(g: Group<P>, a: P, b: P)
    requires IsGroup(g)
    ensures g.neg(g.add(a, b)) == g.add(g.neg(a), g.neg(b))
    ensures g.neg(g.neg(a)) == a
    ensures g.neg(g.zero) == g.zero
  {
    Swap4(g, a, b, g.neg(a), g.neg(b));
    Unit(g, a);
    Unit(g, b);
    Unit(g, g.zero);
    Cancel(g, g.add(a, b), g.add(g.neg(a), g.neg(b)));
    Cancel(g, g.neg(a), a);
    Cancel(g, g.zero, g.zero);
  }

  lemma MulSucc<P(!new)>(g: Group<P>, k: int, p: P)
    requires IsGroup(g)
    ensures Mul(g, k + 1, p) == g.add(Mul(g, k, p), p)
    ensures Mul(g, 0, p) == g.zero && Mul(g, 1, p) == p
  {
    Unit(g, p);
    if k < 0 {
      var m := Mul(g, -k - 1, p);
      assert Mul(g, -k, p) == g.add(m, p);
      NegSum(g, m, p);
      Assoc(g, g.neg(m), g.neg(p), p);
      Unit(g, g.neg(m));
      NegSum(g, g.zero, g.zero);
    }
  }

  /** (a + b) p == a p + b p. */
  lemma {:induction false} MulAdd<P(!new)>(g: Group<P>, a: int, b: int, p: P)
    requires IsGroup(g)
    ensures Mul(g, a + b, p) == g.add(Mul(g, a, p), Mul(g, b, p))
    decreases if b < 0 then -b else b
  {
    if b == 0 {
      Unit(g, Mul(g, a, p));
    } else if b > 0 {
      MulAdd(g, a, b - 1, p);
      MulSucc(g, a + b - 1, p);
      MulSucc(g, b - 1, p);
      Assoc(g, Mul(g, a, p), Mul(g, b - 1, p), p);
    } else {
      MulAdd(g, a, b + 1, p);
      MulSucc(g, a + b, p);
      MulSucc(g, b, p);
      var x, y, z := Mul(g, a + b, p), Mul(g, a, p), Mul(g, b, p);
      assert g.add(x, p) == g.add(y, g.add(z, p));
      Assoc(g, y, z, p);
      CancelRight(g, x, g.add(y, z), p);
    }
  }

  lemma CancelRight<P(!new)>(g: Group<P>, a: P, b: P, p: P)
    requires IsGroup(g) && g.add(a, p) == g.add(b, p)
    ensures a == b
  {
    Assoc(g, a, p, g.neg(p));
    Assoc(g, b, p, g.neg(p));
    Unit(g, p);
    Unit(g, a);
    Unit(g, b);
  }

  lemma MulNeg<P(!new)>(g: Group<P>, a: int, p: P)
    requires IsGroup(g)
    ensures Mul(g, -a, p) == g.neg(Mul(g, a, p))
  {
    MulAdd(g, a, -a, p);
    Cancel(g, Mul(g, a, p), Mul(g, -a, p));
  }

  /** (a b) p == a (b p). */
  lemma {:induction false} MulMul<P(!new)>(g: Group<P>, a: int, b: int, p: P)
    requires IsGroup(g)
    ensures Mul(g, a * b, p) == Mul(g, a, Mul(g, b, p))
    decreases if a < 0 then 1 - a else a
  {
    if a > 0 {
      MulMul(g, a - 1, b, p);
      assert a * b == (a - 1) * b + b;
      MulAdd(g, (a - 1) * b, b, p);
    } else if a < 0 {
      MulMul(g, -a, b, p);
      assert -(a * b) == -a * b;
      MulNeg(g, -a * b, p);
    }
  }

  /** a (p + q) == a p + a q. */
  lemma {:induction false} MulPoint<P(!new)>(g: Group<P>, a: int, p: P, q: P)
    requires IsGroup(g)
    ensures Mul(g, a, g.add(p, q)) == g.add(Mul(g, a, p), Mul(g, a, q))
    ensures Mul(g, a, g.zero) == g.zero
    decreases if a < 0 then 1 - a else a
  {
    Unit(g, g.zero);
    if a > 0 {
      MulPoint(g, a - 1, p, q);
      Swap4(g, Mul(g, a - 1, p), Mul(g, a - 1, q), p, q);
    } else if a < 0 {
      MulPoint(g, -a, p, q);
      NegSum(g, Mul(g, -a, p), Mul(g, -a, q));
    }
  }

  lemma MulOfNeg<P(!new)>(g: Group<P>, a: int, p: P)
    requires IsGroup(g)
    ensures Mul(g, a, g.neg(p)) == Mul(g, -a, p)
    ensures Mul(g, -1, p) == g.neg(p)
  {
    MulSucc(g, 0, p);
    MulNeg(g, 1, p);
    MulMul(g, a, -1, p);
    assert a * -1 == -a;
  }

  /** Scalars count modulo the order. */
  lemma MulCongruent<P(!new)>(g: Group<P>, a: int, b: int, p: P)
    requires IsGroup(g) && Congruent(a, b, g.order)
    ensures Mul(g, a, p) == Mul(g, b, p)
  {
    var q := (a - b) / g.order;
    assert a - b == q * g.order;
    MulMul(g, q, g.order, p);
    Exponent(g, p);
    MulPoint(g, q, p, p);
    MulAdd(g, b, q * g.order, p);
    assert b + q * g.order == a;
    Unit(g, Mul(g, b, p));
  }

  /** ks[0] ps[0] + ks[1] ps[1] + ... */
  ghost function Comb<P>(g: Group<P>, ks: seq<int>, ps: seq<P>): P
    requires |ks| == |ps|
  {
    if |ks| == 0 then g.zero
    else g.add(Comb(g, ks[..|ks| - 1], ps[..|ks| - 1]), Mul(g, ks[|ks| - 1], ps[|ks| - 1]))
  }

  lemma CombSnoc<P>(g: Group<P>, ks: seq<int>, ps: seq<P>, k: int, p: P)
    requires |ks| == |ps|
    ensures Comb(g, ks + [k], ps + [p]) == g.add(Comb(g, ks, ps), Mul(g, k, p))
  {
    assert (ks + [k])[..|ks|] == ks && (ps + [p])[..|ks|] == ps;
  }

  /** Adding d copies of one point changes one coefficient by d. */
  lemma {:induction false} CombUpdate<P(!new)>(g: Group<P>, ks: seq<int>, ps: seq<P>, i: nat, d: int)
    requires IsGroup(g) && |ks| == |ps| && i < |ks|
    ensures Comb(g, ks[i := ks[i] + d], ps) == g.add(Comb(g, ks, ps), Mul(g, d, ps[i]))
  {
    var n := |ks| - 1;
    var ks' := ks[i := ks[i] + d];
    var c, m, x := Comb(g, ks[..n], ps[..n]), Mul(g, ks[n], ps[n]), Mul(g, d, ps[i]);
    if i == n {
      assert ks'[..n] == ks[..n];
      MulAdd(g, ks[n], d, ps[n]);
      Assoc(g, c, m, x);
    } else {
      assert ks'[..n] == ks[..n][i := ks[i] + d];
      CombUpdate(g, ks[..n], ps[..n], i, d);
      Swap3(g, c, x, m);
    }
  }

  /** Doubling a combination doubles every coefficient. */
  lemma {:induction false} CombDouble<P(!new)>(g: Group<P>, ks: seq<int>, ks2: seq<int>, ps: seq<P>)
    requires IsGroup(g) && |ks| == |ks2| == |ps|
    requires forall i :: 0 <= i < |ks| ==> ks2[i] == 2 * ks[i]
    ensures Comb(g, ks2, ps) == g.add(Comb(g, ks, ps), Comb(g, ks, ps))
  {
    if |ks| == 0 {
      Unit(g, g.zero);
    } else {
      var n := |ks| - 1;
      CombDouble(g, ks[..n], ks2[..n], ps[..n]);
      MulAdd(g, ks[n], ks[n], ps[n]);
      var c, m := Comb(g, ks[..n], ps[..n]), Mul(g, ks[n], ps[n]);
      Swap4(g, c, m, c, m);
    }
  }

  lemma {:induction false} CombZero<P(!new)>(g: Group<P>, ks: seq<int>, ps: seq<P>)
    requires IsGroup(g) && |ks| == |ps|
    requires forall i :: 0 <= i < |ks| ==> ks[i] == 0
    ensures Comb(g, ks, ps) == g.zero
  {
    if |ks| != 0 {
      CombZero(g, ks[..|ks| - 1], ps[..|ks| - 1]);
      Unit(g, g.zero);
    }
  }

  lemma {:induction false} CombCongruent<P(!new)>(g: Group<P>, ks: seq<int>, ms: seq<int>, ps: seq<P>)
    requires IsGroup(g) && |ks| == |ms| == |ps|
    requires forall i :: 0 <= i < |ks| ==> Congruent(ks[i], ms[i], g.order)
    ensures Comb(g, ks, ps) == Comb(g, ms, ps)
  {
    if |ks| != 0 {
      var n := |ks| - 1;
      CombCongruent(g, ks[..n], ms[..n], ps[..n]);
      MulCongruent(g, ks[n], ms[n], ps[n]);
    }
  }

  lemma {:induction false} CombAppend<P(!new)>(g: Group<P>, ks: seq<int>, ps: seq<P>, ms: seq<int>, qs: seq<P>)
    requires IsGroup(g) && |ks| == |ps| && |ms| == |qs|
    ensures Comb(g, ks + ms, ps + qs) == g.add(Comb(g, ks, ps), Comb(g, ms, qs))
  {
    if |ms| == 0 {
      assert ks + ms == ks && ps + qs == ps;
      Unit(g, Comb(g, ks, ps));
    } else {
      var n := |ms| - 1;
      CombAppend(g, ks, ps, ms[..n], qs[..n]);
      assert (ks + ms)[..|ks| + n] == ks + ms[..n] && (ps + qs)[..|ks| + n] == ps + qs[..n];
      Assoc(g, Comb(g, ks, ps), Comb(g, ms[..n], qs[..n]), Mul(g, ms[n], qs[n]));
    }
  }

  /** Multiplying a combination multiplies every coefficient. */
  lemma {:induction false} CombScale<P(!new)>(g: Group<P>, m: int, ks: seq<int>, ms: seq<int>, ps: seq<P>)
    requires IsGroup(g) && |ks| == |ms| == |ps|
    requires forall i :: 0 <= i < |ks| ==> ms[i] == m * ks[i]
    ensures Comb(g, ms, ps) == Mul(g, m, Comb(g, ks, ps))
  {
    if |ks| == 0 {
      MulPoint(g, m, g.zero, g.zero);
    } else {
      var n := |ks| - 1;
      CombScale(g, m, ks[..n], ms[..n], ps[..n]);
      MulMul(g, m, ks[n], ps[n]);
      MulPoint(g, m, Comb(g, ks[..n], ps[..n]), Mul(g, ks[n], ps[n]));
    }
  }

  /** Combinations of the same points add coefficient by coefficient. */
  lemma {:induction false} CombSum<P(!new)>(g: Group<P>, ks: seq<int>, ms: seq<int>, ss: seq<int>, ps: seq<P>)
    requires IsGroup(g) && |ks| == |ms| == |ss| == |ps|
    requires forall i :: 0 <= i < |ks| ==> ss[i] == ks[i] + ms[i]
    ensures Comb(g, ss, ps) == g.add(Comb(g, ks, ps), Comb(g, ms, ps))
  {
    if |ks| == 0 {
      Unit(g, g.zero);
    } else {
      var n := |ks| - 1;
      CombSum(g, ks[..n], ms[..n], ss[..n], ps[..n]);
      MulAdd(g, ks[n], ms[n], ps[n]);
      Swap4(g, Comb(g, ks[..n], ps[..n]), Comb(g, ms[..n], ps[..n]), Mul(g, ks[n], ps[n]), Mul(g, ms[n], ps[n]));
    }
  }
}
