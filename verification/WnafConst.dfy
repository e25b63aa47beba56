/** Constant-time signed recoding: a skewed odd scalar in WnafSize(w) + 1 odd digits, none of them zero. */
module WnafConst {
  import opened Arith
  import opened Scalars
  import opened Wnaf
  import opened WnafFixed

  /** Everything still to be emitted: the pending digit and the unread bits, at the position of digit |ds|. */
  ghost predicate ConstPartial(ds: seq<int>, v: nat, uLast: int, rem: nat, w: nat) {
    && Value(ds, w) + Pow2(w * |ds|) * (uLast + Pow2(w) * rem) == v
    && rem == v / Pow2(w * (|ds| + 1))
    && AllOdd(ds, w)
    && OddDigit(uLast, w) && uLast > 0
  }

  lemma ConstStart(v: nat, w: nat)
    requires w > 0 && v % 2 == 1
    ensures ConstPartial([], v, LowPart(v, w), ShiftedPart(v, w), w)
    ensures LowPart(v, w) > 0
  {
    hide Pow2;
    var p := Pow2(w);
    DivModParts(v, p);
    Pow2Even(w);
    OddRemainder(v, Pow2(w - 1));
    PowZero();
    var ds: seq<int> := [];
    assert w * |ds| == 0 && w * (|ds| + 1) == w;
    assert Value(ds, w) == 0;
    assert 1 * (v % p + p * (v / p)) == v;
  }

  lemma PowZero()
    ensures Pow2(0) == 1
  {
  }

  lemma OddRemainder(v: nat, half: nat)
    requires v % 2 == 1 && half > 0
    ensures (v % (2 * half)) % 2 == 1
  {
    var q, r := v / (2 * half), v % (2 * half);
    assert v == q * (2 * half) + r == 2 * (q * half) + r;
  }

  /** One pass of the loop: the pending digit is emitted, made small by lending 2^w to an even successor. */
  lemma ConstStep(ds: seq<int>, v: nat, uLast: int, rem: nat, w: nat, u: int, even: int)
    requires w > 0 && ConstPartial(ds, v, uLast, rem, w)
    requires even == (if LowPart(rem, w) % 2 == 0 then 1 else 0) && u == LowPart(rem, w) + even
    ensures ConstPartial(ds + [uLast - Shl(even, w)], v, u, ShiftedPart(rem, w), w) && u > 0
  {
    hide Value, Pow2;
    var p, n := Pow2(w), |ds|;
    DivModParts(rem, p);
    var q, u0 := rem / p, rem % p;
    Pow2Even(w);
    ConstDigits(uLast, u0, even, p);
    var d := uLast - even * p;
    ValueAppend(ds, w, d);
    var wn := w * n;
    assert w * (n + 1) == wn + w && w * (n + 2) == (wn + w) + w;
    Pow2Add(wn, w);
    Pow2Add(wn + w, w);
    SplitThree(v, Pow2(wn + w), p);
    ConstSum(Value(ds, w), Pow2(wn), Pow2(wn + w), p, uLast, rem, q, u0, even, d, u);
    assert AllOdd(ds + [d], w);
  }

  lemma ConstDigits(uLast: int, u0: int, even: int, p: nat)
    requires uLast % 2 == 1 && 0 < uLast < p && 0 <= u0 < p && p % 2 == 0
    requires even == if u0 % 2 == 0 then 1 else 0
    ensures (uLast - even * p) % 2 == 1 && Abs(uLast - even * p) < p
    ensures (u0 + even) % 2 == 1 && 0 < u0 + even < p
  {
    if even == 0 {
      assert even * p == 0;
    } else {
      assert even * p == p;
    }
  }

  lemma ConstSum(val: int, a: int, ap: int, p: int, uLast: int, rem: int, q: int, u0: int, even: int, d: int, u: int)
    requires ap == a * p && rem == q * p + u0 && d == uLast - even * p && u == u0 + even
    ensures (val + d * a) + ap * (u + p * q) == val + a * (uLast + p * rem)
  {
    assert uLast + p * rem == d + p * (u + p * q) by {
      assert p * rem == p * (p * q + u0);
      assert p * (p * q + u) == p * (p * q + u0) + p * even;
    }
    MulAssoc(a, p, u + p * q);
    assert a * (d + p * (u + p * q)) == a * d + a * (p * (u + p * q));
  }

  /** When the loop stops, no unread bits are left and the pending digit is the last one. */
  lemma ConstDone(ds: seq<int>, v: nat, uLast: int, rem: nat, w: nat)
    requires ConstPartial(ds, v, uLast, rem, w) && w * |ds| >= SCALAR_BITS && v < Pow2(SCALAR_BITS)
    ensures rem == 0 && Value(ds + [uLast], w) == v && AllOdd(ds + [uLast], w)
  {
    hide Value, Pow2;
    var k := w * (|ds| + 1);
    assert k == w * |ds| + w;
    Pow2Mono(SCALAR_BITS, k);
    DivModUnique(v, Pow2(k), 0, v);
    ValueAppend(ds, w, uLast);
    assert Pow2(w) * rem == 0;
    assert uLast * Pow2(w * |ds|) == Pow2(w * |ds|) * uLast;
  }

  /** The skewed scalar that is actually recoded, and the sign that its digits are given. */
  lemma Skewed(s: Scalar, flip: bool, bit: nat, notNegOne: bool, s1: int, s2: int, globalSign: int)
    requires flip == IsHigh(s) && bit == (if flip != !IsEven(s) then 1 else 0)
    requires notNegOne == (Negate(s) != 1)
    requires s1 == if notNegOne then s + Pow2(bit) else s
    requires s1 < N ==> s2 == if flip then Negate(s1) else s1
    requires globalSign == (if flip then -1 else 1) * (if notNegOne then 1 else -1)
    ensures 0 <= s1 < N && s2 % 2 == 1 && 0 < s2 < N
    ensures Congruent(globalSign * s2 - Pow2(bit), s, N)
    ensures 2 * s2 < N + 4
  {
    assert Pow2(0) == 1 && Pow2(1) == 2;
    var v := globalSign * s2 - Pow2(bit);
    if !notNegOne {
      assert s == N - 1 && s2 == 1 && v == -1;
      MultipleCongruent(v, s, N, -1);
    } else if flip {
      assert v == -(N - s - Pow2(bit)) - Pow2(bit) == s - N;
      MultipleCongruent(v, s, N, -1);
    } else {
      assert v == s;
      MultipleCongruent(v, s, N, 0);
    }
  }

  /** Adds one or two to make the scalar odd, after which a high scalar is negated. */
  method SkewScalar(scalar: Scalar) returns (s: Scalar, globalSign: int, skew: int)
    ensures s % 2 == 1 && 2 * s < N + 4
    ensures (globalSign == 1 || globalSign == -1) && (skew == 1 || skew == 2)
    ensures Congruent(globalSign * s - skew, scalar, N)
  {
    var flip := IsHigh(scalar);
    var bit: nat := if flip != !IsEven(scalar) then 1 else 0;
    var negS := Negate(scalar);
    var notNegOne := negS != 1;
    var skewed: int := scalar;
    if notNegOne {
      skewed := scalar + Pow2(bit);
    }
    Skewed(scalar, flip, bit, notNegOne, skewed, if skewed >= N then 0 else if flip then Negate(skewed) else skewed,
           (if flip then -1 else 1) * (if notNegOne then 1 else -1));
    s := skewed;
    globalSign := 1;
    if flip {
      s := Negate(s);
      globalSign := -1;
    }
    globalSign := globalSign * (if notNegOne then 1 else -1);
    skew := Pow2(bit);
  }

  method RecodeConst(wnaf: array<int>, scalar: Scalar, w: nat) returns (skew: int)
    requires 1 <= w < 16
    requires WnafSize(w) < wnaf.Length
    modifies wnaf
    ensures skew == 1 || skew == 2
    ensures AllOdd(wnaf[..WnafSize(w) + 1], w)
    ensures Congruent(Value(wnaf[..WnafSize(w) + 1], w) - skew, scalar, N)
    ensures 2 * Abs(Value(wnaf[..WnafSize(w) + 1], w)) < N + 4
    ensures forall i :: WnafSize(w) < i < wnaf.Length ==> wnaf[i] == old(wnaf[i])
  {
    hide ConstPartial, Value, WnafSize, Pow2, Shl, AllOdd, LowPart, ShiftedPart, Congruent, Oriented;
    var v, globalSign, skewed := SkewScalar(scalar);
    skew := skewed;
    var s: int := v;
    ConstStart(v, w);
    ghost var size := WnafSize(w);
    var word := 0;
    var uLast: int := LowPart(s, w);
    s := ShiftedPart(s, w);
    var u := uLast;
    ghost var ds: seq<int> := [];
    assert word * w == 0;
    while word * w < SCALAR_BITS
      invariant 0 <= word <= size && |ds| == word && s >= 0
      invariant ConstPartial(ds, v, uLast, s, w) && u == uLast > 0
      invariant forall i :: 0 <= i < word ==> wnaf[i] == Oriented(ds[i], globalSign)
      invariant forall i :: size < i < wnaf.Length ==> wnaf[i] == old(wnaf[i])
      decreases size - word
    {
      StillInside(word, w);
      ghost var rem := s;
      u := LowPart(s, w);
      s := ShiftedPart(s, w);
      var even := if u % 2 == 0 then 1 else 0;
      ConstStep(ds, v, uLast, rem, w, u + even, even);
      var sign := if uLast > 0 then 1 else -1;
      assert sign * even == even;
      u := u + sign * even;
      uLast := uLast - Shl(sign * even, w);
      wnaf[word] := Oriented(uLast, globalSign);
      ds := ds + [uLast];
      word := word + 1;
      uLast := u;
    }
    AllCovered(word, w);
    wnaf[word] := Oriented(u, globalSign);
    ConstFinish(wnaf[..size + 1], ds, v, uLast, s, w, globalSign);
  }

  lemma ConstFinish(es: seq<int>, ds: seq<int>, v: nat, uLast: int, rem: nat, w: nat, sign: int)
    requires ConstPartial(ds, v, uLast, rem, w) && w * |ds| >= SCALAR_BITS && v < N
    requires |es| == |ds| + 1 && (sign == 1 || sign == -1) && es[|ds|] == Oriented(uLast, sign)
    requires forall i :: 0 <= i < |ds| ==> es[i] == Oriented(ds[i], sign)
    ensures Value(es, w) == sign * v && Abs(Value(es, w)) == v && AllOdd(es, w)
  {
    OrderSize();
    ConstDone(ds, v, uLast, rem, w);
    SignedDigits(es, ds + [uLast], sign, w);
  }

  /** Multiplying every digit by a sign multiplies the value. */
  lemma {:induction false} SignedDigits(es: seq<int>, ds: seq<int>, sign: int, w: nat)
    requires |es| == |ds| && (sign == 1 || sign == -1) && AllOdd(ds, w)
    requires forall i :: 0 <= i < |ds| ==> es[i] == sign * ds[i]
    ensures Value(es, w) == sign * Value(ds, w) && AllOdd(es, w)
  {
    if |ds| != 0 {
      assert AllOdd(ds[1..], w);
      SignedDigits(es[1..], ds[1..], sign, w);
      MulAssoc(sign, Pow2(w), Value(ds[1..], w));
      MulAssoc(Pow2(w), sign, Value(ds[1..], w));
      assert OddDigit(ds[0], w);
      assert es[0] == ds[0] || es[0] == -ds[0];
    }
  }
}
