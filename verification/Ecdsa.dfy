/** ECDSA signing, verification and public key recovery over an abstract curve group (sections 4.1.3, 4.1.4 and
    4.1.6 of SEC 1). */
module Ecdsa {
  import opened Arith
  import opened Scalars
  import opened Groups
  import opened OddTables
  import opened Strauss
  import opened Wrappers
  import EcmultGen

  /** The field characteristic, larger than the group order but smaller than twice the order. */
  const P: int := 0xFFFFFFFF_FFFFFFFF_FFFFFFFF_FFFFFFFF_FFFFFFFF_FFFFFFFF_FFFFFFFE_FFFFFC2F
  const P_MINUS_ORDER: int := 0x1_45512319_50B75FC4_402DA172_2FC9BAEE

  /** The x and z parts of a point in Jacobian coordinates, and the inverse of the z part. */
  datatype Jacobian = Jacobian(x: int, z: int, zInverse: int)

  /** A group of points with a generator, coordinates of the points other than zero, affine and Jacobian, and the point
      with a given x coordinate and parity of y; together with inverses of scalars. */
  datatype Curve<!T> = Curve(group: Group<T>, generator: T, x: T -> int, odd: T -> bool, jacobian: T -> Jacobian,
                             lift: (int, bool) -> Option<T>, inverse: Scalar -> Scalar)

  ghost predicate PointLaws<T>(c: Curve<T>, a: T) {
    a != c.group.zero ==>
      && 0 <= c.x(a) < P
      && c.group.neg(a) != c.group.zero && c.x(c.group.neg(a)) == c.x(a) && c.odd(c.group.neg(a)) == !c.odd(a)
      && c.lift(c.x(a), c.odd(a)) == Some(a)
  }

  /** x is the x part divided by the square of the z part. */
  ghost predicate JacobianLaws<T>(c: Curve<T>, a: T) {
    a != c.group.zero ==>
      var j := c.jacobian(a);
      Congruent(j.z * j.zInverse, 1, P) && Congruent(j.x, (j.z * j.z) * c.x(a), P)
  }

  ghost predicate LiftLaws<T>(c: Curve<T>, x: int, odd: bool) {
    c.lift(x, odd).Some? ==>
      var a := c.lift(x, odd).value;
      a != c.group.zero && c.x(a) == x && c.odd(a) == odd
  }

  ghost predicate InverseLaws<T>(c: Curve<T>, s: Scalar) {
    s != 0 ==> Congruent(s * c.inverse(s), 1, N)
  }

  ghost predicate GeneratorLaws<T>(c: Curve<T>, k: Scalar) {
    k != 0 ==> Mul(c.group, k, c.generator) != c.group.zero
  }

  ghost predicate IsCurve<T(!new)>(c: Curve<T>) {
    && IsGroup(c.group) && c.group.order == N
    && (forall a :: PointLaws(c, a)) && (forall a :: JacobianLaws(c, a))
    && (forall x, odd :: LiftLaws(c, x, odd))
    && (forall s :: InverseLaws(c, s))
    && (forall k :: GeneratorLaws(c, k))
  }

  // ----- what the standard says

  /** R' = s^-1 (m G + r Q). */
  ghost function Claimed<T>(c: Curve<T>, r: Scalar, s: Scalar, q: T, m: Scalar): T {
    Mul(c.group, c.inverse(s), c.group.add(Mul(c.group, m, c.generator), Mul(c.group, r, q)))
  }

  /** The signature is valid for message m and public key q. */
  ghost predicate Verifies<T>(c: Curve<T>, r: Scalar, s: Scalar, q: T, m: Scalar) {
    r != 0 && s != 0
    && Claimed(c, r, s, q, m) != c.group.zero && c.x(Claimed(c, r, s, q, m)) % N == r
  }

  /** The x coordinate that r and the second bit of the recovery id stand for, when it is in the field. */
  function CandidateX(r: Scalar, recid: nat): Option<int> {
    if recid / 2 % 2 == 1 then if r + N < P then Some(r + N) else None else Some(r)
  }

  /** Q = r^-1 (s R - m G), for the point R with the candidate x coordinate and the parity in the recovery id. */
  ghost function Recovered<T>(c: Curve<T>, r: Scalar, s: Scalar, m: Scalar, recid: nat): Option<T> {
    if r == 0 || s == 0 || CandidateX(r, recid).None? then None else
    var lifted := c.lift(CandidateX(r, recid).value, recid % 2 == 1);
    if lifted.None? then None else
    var q := KeyFrom(c, r, s, m, lifted.value);
    if q == c.group.zero then None else Some(q)
  }

  ghost function KeyFrom<T>(c: Curve<T>, r: Scalar, s: Scalar, m: Scalar, p: T): T {
    Mul(c.group, c.inverse(r), c.group.add(Mul(c.group, s, p), c.group.neg(Mul(c.group, m, c.generator))))
  }

  // ----- arithmetic of scalars

  function MulScalars(a: Scalar, b: Scalar): (r: Scalar)
    ensures Congruent(r, a * b, N)
  {
    CongruentMod(a * b, N);
    (a * b) % N
  }

  lemma MulByReduced<T(!new)>(c: Curve<T>, a: Scalar, b: Scalar, p: T)
    requires IsGroup(c.group) && c.group.order == N
    ensures Mul(c.group, MulScalars(a, b), p) == Mul(c.group, a, Mul(c.group, b, p))
  {
    MulCongruent(c.group, MulScalars(a, b), a * b, p);
    MulMul(c.group, a, b, p);
  }

  /** e k is the quotient z / s when s is e times a number s0 with s0 k = z, for a sign e. */
  lemma Quotient(s: int, w: int, s0: int, k: int, z: int, e: int, n: int)
    requires n > 0 && Congruent(s * w, 1, n) && Congruent(s, e * s0, n) && Congruent(s0 * k, z, n) && (e == 1 || e == -1)
    ensures Congruent(w * z, e * k, n)
  {
    CongruentScale(s0 * k, z, w, n);
    CongruentSym(w * (s0 * k), w * z, n);
    CongruentScale(s, e * s0, e * (w * k), n);
    CongruentSym((e * (w * k)) * s, (e * (w * k)) * (e * s0), n);
    SignSquare(e, w, k, s0);
    CongruentScale(s * w, 1, e * k, n);
    Rearranged(e, w, k, s);
    CongruentTrans(w * z, w * (s0 * k), (e * (w * k)) * s, n);
    CongruentTrans(w * z, (e * k) * (s * w), e * k, n);
  }

  lemma SignSquare(e: int, w: int, k: int, s0: int)
    requires e == 1 || e == -1
    ensures (e * (w * k)) * (e * s0) == w * (s0 * k)
  {
    var v := w * k;
    assert (e * v) * (e * s0) == v * s0;
    MulAssoc(w, k, s0);
    assert k * s0 == s0 * k;
  }

  lemma Rearranged(e: int, w: int, k: int, s: int)
    ensures (e * (w * k)) * s == (e * k) * (s * w)
  {
    MulAssoc(e, w * k, s);
    MulAssoc(e, k, s * w);
    MulAssoc(w, k, s);
    MulAssoc(k, s, w);
    assert w * (k * s) == (k * s) * w;
  }

  // ----- verification

  /** An invertible scalar and its inverse undo each other on points. */
  lemma UndoScalar<T(!new)>(c: Curve<T>, s: Scalar, p: T)
    requires IsCurve(c) && s != 0
    ensures Mul(c.group, c.inverse(s), Mul(c.group, s, p)) == p
    ensures Mul(c.group, s, Mul(c.group, c.inverse(s), p)) == p
  {
    hide Mul, IsGroup, Congruent;
    var g := c.group;
    assert InverseLaws(c, s);
    MulMul(g, c.inverse(s), s, p);
    MulMul(g, s, c.inverse(s), p);
    assert c.inverse(s) * s == s * c.inverse(s);
    MulCongruent(g, s * c.inverse(s), 1, p);
    MulSucc(g, 0, p);
  }

  /** The claimed point is the only one that can make a signature valid. */
  lemma OnlyClaimed<T(!new)>(c: Curve<T>, r: Scalar, s: Scalar, q: T, m: Scalar, p: T)
    requires IsCurve(c) && s != 0
    ensures Mul(c.group, s, p) == c.group.add(Mul(c.group, m, c.generator), Mul(c.group, r, q))
            <==> p == Claimed(c, r, s, q, m)
  {
    hide Mul, IsGroup;
    UndoScalar(c, s, p);
    UndoScalar(c, s, c.group.add(Mul(c.group, m, c.generator), Mul(c.group, r, q)));
  }

  /** A signature is valid exactly when some point solves its equation. */
  lemma VerifiesSolvable<T(!new)>(c: Curve<T>, r: Scalar, s: Scalar, q: T, m: Scalar)
    requires IsCurve(c)
    ensures Verifies(c, r, s, q, m)
            <==> r != 0 && s != 0
                 && exists p :: p != c.group.zero && c.x(p) % N == r
                                && Mul(c.group, s, p) == c.group.add(Mul(c.group, m, c.generator), Mul(c.group, r, q))
  {
    hide Mul, IsGroup, Claimed;
    if s != 0 {
      var a := Claimed(c, r, s, q, m);
      OnlyClaimed(c, r, s, q, m, a);
      forall p | Mul(c.group, s, p) == c.group.add(Mul(c.group, m, c.generator), Mul(c.group, r, q))
        ensures p == a
      {
        OnlyClaimed(c, r, s, q, m, p);
      }
    }
  }

  /** The claimed x coordinate is r or r + N because the field is smaller than twice the order. */
  lemma TwoCases(x: int, r: Scalar)
    requires 0 <= x < P
    ensures x % N == r <==> x == r || (r < P_MINUS_ORDER && x == r + N)
  {
    assert P - N == P_MINUS_ORDER && P < 2 * N;
    DivModUnique(x, N, if x < N then 0 else 1, if x < N then x else x - N);
  }

  /** Multiplying by an invertible number can be undone. */
  lemma CancelFactor(w: int, wInverse: int, a: int, b: int, n: int)
    requires n > 0 && Congruent(w * wInverse, 1, n) && Congruent(w * a, w * b, n) && 0 <= a < n && 0 <= b < n
    ensures a == b
  {
    hide Congruent;
    CongruentScale(w * wInverse, 1, a, n);
    CongruentScale(w * wInverse, 1, b, n);
    Reordered(wInverse, w, a);
    Reordered(wInverse, w, b);
    CongruentScale(w * a, w * b, wInverse, n);
    CongruentSym(wInverse * (w * a), a, n);
    CongruentTrans(a, wInverse * (w * a), wInverse * (w * b), n);
    CongruentTrans(a, wInverse * (w * b), b, n);
    CongruentEqual(a, b, n);
  }

  /** The test without an inversion, in a field of n elements: for w the square of the z part, a claimed x coordinate is
      the affine one exactly when w times it is the x part. */
  lemma EqXExact(xr: int, affine: int, part: int, w: int, wInverse: int, n: int)
    requires 0 <= xr < n && 0 <= affine < n
    requires Congruent(w * wInverse, 1, n) && Congruent(part, w * affine, n)
    ensures Congruent(w * xr, part, n) <==> xr == affine
  {
    hide Congruent;
    CongruentSym(part, w * affine, n);
    if Congruent(w * xr, part, n) {
      CongruentTrans(w * xr, part, w * affine, n);
      CancelFactor(w, wInverse, xr, affine, n);
    }
  }

  lemma ReducedFactor(w: int, a: int, n: int)
    requires n > 0
    ensures (w % n * a) % n == (w * a) % n
  {
    CongruentMod(w, n);
    CongruentScale(w % n, w, a, n);
    CongruentModEqual(a * (w % n), a * w, n);
    assert a * (w % n) == w % n * a && a * w == w * a;
  }

  lemma SameResidue(a: int, b: int, n: int)
    requires n > 0
    ensures a % n == b % n <==> Congruent(a, b, n)
  {
    if a % n == b % n {
      DivModParts(a, n);
      DivModParts(b, n);
      assert a - b == (a / n - b / n) * n;
      MultipleCongruent(a, b, n, a / n - b / n);
    }
    if Congruent(a, b, n) {
      CongruentModEqual(a, b, n);
    }
  }

  lemma SquareInverse(z: int, zInverse: int, n: int)
    requires n > 0 && Congruent(z * zInverse, 1, n)
    ensures Congruent((z * z) * (zInverse * zInverse), 1, n)
  {
    hide Congruent;
    CongruentProduct(z * zInverse, 1, z * zInverse, 1, n);
    MulAssoc(z, z, zInverse * zInverse);
    MulAssoc(z, zInverse, zInverse);
    MulAssoc(z, zInverse, z * zInverse);
    MulAssoc(zInverse, z, zInverse);
    assert z * zInverse == zInverse * z;
  }

  /** Whether xr is the x coordinate of a point, by way of its Jacobian coordinates. */
  method EqX<T(!new)>(c: Curve<T>, xr: int, a: T) returns (yes: bool)
    requires IsCurve(c) && a != c.group.zero && 0 <= xr < P
    ensures yes <==> xr == c.x(a)
  {
    hide IsGroup, Congruent;
    assert PointLaws(c, a) && JacobianLaws(c, a);
    var j := c.jacobian(a);
    SquareInverse(j.z, j.zInverse, P);
    EqXExact(xr, c.x(a), j.x, j.z * j.z, j.zInverse * j.zInverse, P);
    ReducedFactor(j.z * j.z, xr, P);
    SameResidue((j.z * j.z) * xr, j.x, P);
    var r := (j.z * j.z) % P;
    r := r * xr % P;
    yes := r == j.x % P;
  }

  lemma ClaimedParts<T(!new)>(c: Curve<T>, r: Scalar, s: Scalar, q: T, m: Scalar)
    requires IsGroup(c.group) && c.group.order == N
    ensures Claimed(c, r, s, q, m) == c.group.add(Mul(c.group, MulScalars(c.inverse(s), r), q),
                                                  Mul(c.group, MulScalars(c.inverse(s), m), c.generator))
  {
    var g := c.group;
    MulPoint(g, c.inverse(s), Mul(g, m, c.generator), Mul(g, r, q));
    MulByReduced(c, c.inverse(s), r, q);
    MulByReduced(c, c.inverse(s), m, c.generator);
    Comm(g, Mul(g, MulScalars(c.inverse(s), r), q), Mul(g, MulScalars(c.inverse(s), m), c.generator));
  }

  /** The table of odd multiples of the generator that double multiplication needs. */
  ghost predicate ContextOk<T>(c: Curve<T>, preG: seq<T>) {
    |preG| == TableSize(WINDOW_G) && OddTable(c.group, preG, c.generator)
  }

  /** Accepts exactly the valid signatures; the x coordinate is never reduced modulo the order. */
  method SigVerify<T(!new, ==)>(c: Curve<T>, preG: seq<T>, sigr: Scalar, sigs: Scalar, pubkey: T, message: Scalar)
    returns (valid: bool)
    requires IsCurve(c) && ContextOk(c, preG)
    ensures valid <==> Verifies(c, sigr, sigs, pubkey, message)
    ensures valid
            <==> sigr != 0 && sigs != 0
                 && exists p :: p != c.group.zero && c.x(p) % N == sigr
                                && Mul(c.group, sigs, p) == c.group.add(Mul(c.group, message, c.generator), Mul(c.group, sigr, pubkey))
  {
    hide IsGroup, Mul, OddTable, Claimed;
    VerifiesSolvable(c, sigr, sigs, pubkey, message);
    if sigr == 0 || sigs == 0 {
      return false;
    }
    var sn := c.inverse(sigs);
    var u1 := MulScalars(sn, message);
    var u2 := MulScalars(sn, sigr);
    var pr := Ecmult(c.group, preG, c.generator, pubkey, u2, Some(u1));
    ClaimedParts(c, sigr, sigs, pubkey, message);
    if pr == c.group.zero {
      return false;
    }
    assert PointLaws(c, pr);
    TwoCases(c.x(pr), sigr);
    var xr: int := sigr;
    valid := EqX(c, xr, pr);
    if valid {
      return;
    }
    if xr >= P_MINUS_ORDER {
      return false;
    }
    xr := xr + N;
    valid := EqX(c, xr, pr);
  }

  // ----- signing

  /** The s value before it is made low: k^-1 (r d + m). */
  function RawS<T>(c: Curve<T>, r: Scalar, seckey: Scalar, message: Scalar, nonce: Scalar): Scalar {
    MulScalars(c.inverse(nonce), AddScalars(MulScalars(r, seckey), message))
  }

  /** Signs with a nonce. It fails exactly when s would be zero; otherwise s is nonzero and at most half the order,
      the signature verifies under the public key unless r is zero, and recovery with the id returns that key. */
  method SigSign<T(!new, ==)>(c: Curve<T>, ctx: EcmultGen.GenContext<T>, seckey: Scalar, message: Scalar, nonce: Scalar)
    returns (ok: bool, sigr: Scalar, sigs: Scalar, recid: nat)
    requires IsCurve(c) && nonce != 0
    requires ctx.Valid() && ctx.prec != null && ctx.g == c.group && ctx.gen == c.generator
    ensures sigr == c.x(Mul(c.group, nonce, c.generator)) % N && recid < 4
    ensures ok <==> (sigr * seckey + message) % N != 0
    ensures ok ==> 0 < sigs <= N / 2
    ensures ok ==> (Verifies(c, sigr, sigs, Mul(c.group, seckey, c.generator), message) <==> sigr != 0)
    ensures ok && sigr != 0 && seckey != 0 ==>
              Recovered(c, sigr, sigs, message, recid) == Some(Mul(c.group, seckey, c.generator))
  {
    hide IsGroup, Mul, Verifies, Recovered, RawS, MulScalars, AddScalars;
    var rp := ctx.Multiply(nonce);
    NoncePoint(c, nonce);
    var overflow := c.x(rp) >= N;
    sigr := ReducedX(c.x(rp));
    recid := (if overflow then 2 else 0) + (if c.odd(rp) then 1 else 0);
    sigs := RawS(c, sigr, seckey, message, nonce);
    ZeroS(c, sigr, seckey, message, nonce);
    ok := sigs != 0;
    if !ok {
      return;
    }
    ghost var raw := sigs;
    if IsHigh(sigs) {
      sigs := Negate(sigs);
      recid := FlipParity(recid);
    }
    if sigr != 0 {
      Signed(c, sigr, sigs, seckey, message, nonce, rp, raw, recid);
    } else {
      ZeroRejected(c, sigs, Mul(c.group, seckey, c.generator), message);
    }
  }

  lemma ZeroRejected<T>(c: Curve<T>, s: Scalar, q: T, m: Scalar)
    ensures !Verifies(c, 0, s, q, m)
  {
  }

  function ReducedX(x: int): (r: Scalar)
    requires 0 <= x < P
    ensures r == x % N
    ensures x >= N ==> x == r + N && r + N < P
    ensures x < N ==> x == r
  {
    DivModUnique(x, N, if x < N then 0 else 1, if x < N then x else x - N);
    x % N
  }

  /** recid ^ 1. */
  function FlipParity(recid: nat): (f: nat)
    ensures f / 2 == recid / 2 && (f % 2 == 1 <==> recid % 2 == 0)
  {
    if recid % 2 == 0 then recid + 1 else recid - 1
  }

  lemma NoncePoint<T(!new)>(c: Curve<T>, nonce: Scalar)
    requires IsCurve(c) && nonce != 0
    ensures Mul(c.group, nonce, c.generator) != c.group.zero && 0 <= c.x(Mul(c.group, nonce, c.generator)) < P
  {
    assert GeneratorLaws(c, nonce);
    assert PointLaws(c, Mul(c.group, nonce, c.generator));
  }

  /** s times the nonce is congruent to r d + m. */
  lemma RawTimesNonce<T(!new)>(c: Curve<T>, r: Scalar, d: Scalar, m: Scalar, k: Scalar)
    requires IsCurve(c) && k != 0
    ensures Congruent(RawS(c, r, d, m, k) * k, r * d + m, N)
    ensures Congruent(RawS(c, r, d, m, k), c.inverse(k) * (r * d + m), N)
  {
    hide MulScalars, AddScalars, Congruent;
    assert InverseLaws(c, k);
    var i, z := c.inverse(k), r * d + m;
    var zr := AddScalars(MulScalars(r, d), m);
    AddRight(MulScalars(r, d), r * d, m);
    CongruentTrans(zr, MulScalars(r, d) + m, z, N);
    CongruentScale(zr, z, i, N);
    CongruentTrans(RawS(c, r, d, m, k), i * zr, i * z, N);
    CongruentScale(RawS(c, r, d, m, k), i * z, k, N);
    CongruentScale(k * i, 1, z, N);
    MulAssoc(k, i, z);
    assert k * RawS(c, r, d, m, k) == RawS(c, r, d, m, k) * k && z * (k * i) == (k * i) * z;
    CongruentTrans(RawS(c, r, d, m, k) * k, k * (i * z), z, N);
  }

  lemma AddRight(a: int, b: int, m: int)
    requires Congruent(a, b, N)
    ensures Congruent(a + m, b + m, N)
  {
  }

  lemma ZeroS<T(!new)>(c: Curve<T>, r: Scalar, d: Scalar, m: Scalar, k: Scalar)
    requires IsCurve(c) && k != 0
    ensures RawS(c, r, d, m, k) == 0 <==> (r * d + m) % N == 0
  {
    hide RawS;
    RawTimesNonce(c, r, d, m, k);
    var s, z, i := RawS(c, r, d, m, k), r * d + m, c.inverse(k);
    if s == 0 {
      CongruentSym(s * k, z, N);
      assert (z - 0 * k) % N == 0;
    } else if z % N == 0 {
      CongruentScale(z, 0, i, N);
      CongruentTrans(s, i * z, i * 0, N);
      CongruentEqual(s, 0, N);
    }
  }

  /** On multiples of the generator, the claimed point and the recovered key are multiples too. */
  lemma ClaimedMultiple<T(!new)>(c: Curve<T>, r: Scalar, s: Scalar, d: Scalar, m: Scalar)
    requires IsGroup(c.group)
    ensures Claimed(c, r, s, Mul(c.group, d, c.generator), m)
         == Mul(c.group, c.inverse(s) * (r * d + m), c.generator)
  {
    var g := c.group;
    MulMul(g, r, d, c.generator);
    MulAdd(g, m, r * d, c.generator);
    MulMul(g, c.inverse(s), m + r * d, c.generator);
  }

  lemma KeyMultiple<T(!new)>(c: Curve<T>, r: Scalar, s: Scalar, m: Scalar, t: int)
    requires IsGroup(c.group)
    ensures KeyFrom(c, r, s, m, Mul(c.group, t, c.generator)) == Mul(c.group, c.inverse(r) * (s * t - m), c.generator)
  {
    var g := c.group;
    MulMul(g, s, t, c.generator);
    var mi: int := m;
    MulNeg(g, mi, c.generator);
    MulAdd(g, s * t, -mi, c.generator);
    MulMul(g, c.inverse(r), s * t - m, c.generator);
  }

  /** The sign that making s low applied. */
  function SignOf(raw: Scalar): int { if IsHigh(raw) then -1 else 1 }

  /** A signature made with nonce k claims the point k G, or its negation if s was negated. */
  lemma SignedPoint<T(!new)>(c: Curve<T>, r: Scalar, s: Scalar, d: Scalar, m: Scalar, k: Scalar, e: int)
    requires IsCurve(c) && k != 0 && s != 0 && (e == 1 || e == -1)
    requires Congruent(s, e * RawS(c, r, d, m, k), N)
    ensures Claimed(c, r, s, Mul(c.group, d, c.generator), m) == Mul(c.group, e * k, c.generator)
  {
    hide RawS, Mul, Claimed, Congruent, IsGroup;
    assert InverseLaws(c, s);
    RawTimesNonce(c, r, d, m, k);
    Quotient(s, c.inverse(s), RawS(c, r, d, m, k), k, r * d + m, e, N);
    ClaimedMultiple(c, r, s, d, m);
    MulCongruent(c.group, c.inverse(s) * (r * d + m), e * k, c.generator);
  }

  /** Whatever the sign taken, s times the nonce is r d + m. */
  lemma SignedTimesNonce<T(!new)>(c: Curve<T>, r: Scalar, s: Scalar, d: Scalar, m: Scalar, k: Scalar, e: int)
    requires IsCurve(c) && k != 0 && (e == 1 || e == -1)
    requires Congruent(s, e * RawS(c, r, d, m, k), N)
    ensures Congruent(s * (e * k), r * d + m, N)
  {
    hide RawS, Congruent;
    var s0 := RawS(c, r, d, m, k);
    RawTimesNonce(c, r, d, m, k);
    CongruentScale(s, e * s0, e * k, N);
    SignCancels(e, k, s0, s);
    CongruentTrans(s * (e * k), s0 * k, r * d + m, N);
  }

  /** From that point, r and s lead back to the secret multiple d. */
  lemma RecoveredKey<T(!new)>(c: Curve<T>, r: Scalar, s: Scalar, d: Scalar, m: Scalar, k: Scalar, e: int)
    requires IsCurve(c) && k != 0 && r != 0 && (e == 1 || e == -1)
    requires Congruent(s, e * RawS(c, r, d, m, k), N)
    ensures KeyFrom(c, r, s, m, Mul(c.group, e * k, c.generator)) == Mul(c.group, d, c.generator)
  {
    hide RawS, Mul, KeyFrom, Congruent, IsGroup;
    assert InverseLaws(c, r);
    SignedTimesNonce(c, r, s, d, m, k, e);
    var t := e * k;
    var y := s * t - m;
    MoveOver(s * t, r * d, m);
    var i := c.inverse(r);
    CongruentScale(y, r * d, i, N);
    CongruentScale(r * i, 1, d, N);
    Reordered(i, r, d);
    CongruentTrans(i * y, i * (r * d), d, N);
    KeyMultiple(c, r, s, m, t);
    MulCongruent(c.group, c.inverse(r) * y, d, c.generator);
  }

  lemma Reordered(i: int, r: int, d: int)
    ensures i * (r * d) == d * (r * i) && d * 1 == d
  {
    MulAssoc(d, r, i);
    MulAssoc(r, d, i);
  }

  lemma SignCancels(e: int, k: int, s0: int, s: int)
    requires e == 1 || e == -1
    ensures (e * k) * (e * s0) == s0 * k && (e * k) * s == s * (e * k)
  {
  }

  lemma MoveOver(y: int, x: int, m: int)
    requires Congruent(y, x + m, N)
    ensures Congruent(y - m, x, N)
  {
  }

  /** What SigSign owes its caller. */
  lemma Signed<T(!new)>(c: Curve<T>, r: Scalar, s: Scalar, d: Scalar, m: Scalar, k: Scalar, rp: T, raw: Scalar, recid: nat)
    requires IsCurve(c) && k != 0 && r != 0 && raw == RawS(c, r, d, m, k) && raw != 0
    requires rp == Mul(c.group, k, c.generator) && r == c.x(rp) % N && 0 <= c.x(rp) < P
    requires s == if IsHigh(raw) then Negate(raw) else raw
    requires recid / 2 == if c.x(rp) >= N then 1 else 0
    requires recid % 2 == 1 <==> (c.odd(rp) <==> !IsHigh(raw))
    ensures Verifies(c, r, s, Mul(c.group, d, c.generator), m)
    ensures d != 0 ==> Recovered(c, r, s, m, recid) == Some(Mul(c.group, d, c.generator))
  {
    hide RawS, Mul, Claimed, KeyFrom, IsGroup, Congruent;
    var e := SignOf(raw);
    SignedS(s, raw, e);
    NoncePoint(c, k);
    assert PointLaws(c, rp);
    assert PointLaws(c, c.group.neg(rp));
    NegSum(c.group, rp, rp);
    MulNeg(c.group, k, c.generator);
    var p := Mul(c.group, e * k, c.generator);
    assert p == if e == 1 then rp else c.group.neg(rp);
    SignedPoint(c, r, s, d, m, k, e);
    assert ReducedX(c.x(rp)) == r;
    assert CandidateX(r, recid) == Some(c.x(p));
    assert c.lift(c.x(p), recid % 2 == 1) == Some(p);
    RecoveredKey(c, r, s, d, m, k, e);
    assert GeneratorLaws(c, d);
  }

  lemma SignedS(s: Scalar, raw: Scalar, e: int)
    requires s == (if IsHigh(raw) then Negate(raw) else raw) && e == SignOf(raw) && raw != 0
    ensures Congruent(s, e * raw, N) && s != 0
  {
    MultipleCongruent(s, e * raw, N, if IsHigh(raw) then 1 else 0);
  }

  // ----- recovery

  /** The key under which the signature is valid, from the point that r and the id stand for. */
  method SigRecover<T(!new, ==)>(c: Curve<T>, preG: seq<T>, sigr: Scalar, sigs: Scalar, message: Scalar, recid: nat)
    returns (pubkey: Option<T>)
    requires IsCurve(c) && ContextOk(c, preG) && recid < 4
    ensures pubkey == Recovered(c, sigr, sigs, message, recid)
    ensures pubkey.Some? ==> Verifies(c, sigr, sigs, pubkey.value, message)
  {
    hide IsGroup, Mul, OddTable, Verifies, KeyFrom, MulScalars;
    if sigr == 0 || sigs == 0 {
      return None;
    }
    var fx: int := sigr;
    assert P - N == P_MINUS_ORDER;
    if recid / 2 == 1 {
      if fx >= P_MINUS_ORDER {
        return None;
      }
      fx := fx + N;
    }
    var x := c.lift(fx, recid % 2 == 1);
    if x == None {
      return None;
    }
    var rn := c.inverse(sigr);
    var u1 := Negate(MulScalars(rn, message));
    var u2 := MulScalars(rn, sigs);
    var qj := Ecmult(c.group, preG, c.generator, x.value, u2, Some(u1));
    KeyParts(c, sigr, sigs, message, x.value);
    if qj == c.group.zero {
      return None;
    }
    pubkey := Some(qj);
    RecoveredVerifies(c, sigr, sigs, message, recid);
  }

  lemma KeyParts<T(!new)>(c: Curve<T>, r: Scalar, s: Scalar, m: Scalar, p: T)
    requires IsGroup(c.group) && c.group.order == N
    ensures KeyFrom(c, r, s, m, p) == c.group.add(Mul(c.group, MulScalars(c.inverse(r), s), p),
                                                  Mul(c.group, Negate(MulScalars(c.inverse(r), m)), c.generator))
  {
    hide MulScalars;
    var g, i := c.group, c.inverse(r);
    MulByReduced(c, i, s, p);
    MulByReduced(c, i, m, c.generator);
    NegateMul(c, MulScalars(i, m));
    MulPoint(g, i, Mul(g, s, p), g.neg(Mul(g, m, c.generator)));
    MulOfNeg(g, i, Mul(g, m, c.generator));
    MulNeg(g, i, Mul(g, m, c.generator));
  }

  lemma NegateMul<T(!new)>(c: Curve<T>, a: Scalar)
    requires IsGroup(c.group) && c.group.order == N
    ensures Mul(c.group, Negate(a), c.generator) == c.group.neg(Mul(c.group, a, c.generator))
  {
    var ai: int := a;
    MultipleCongruent(Negate(a), -ai, N, if a == 0 then 0 else 1);
    MulCongruent(c.group, Negate(a), -ai, c.generator);
    MulNeg(c.group, ai, c.generator);
  }

  /** A recovered key always verifies the signature it was recovered from. */
  lemma RecoveredVerifies<T(!new)>(c: Curve<T>, r: Scalar, s: Scalar, m: Scalar, recid: nat)
    requires IsCurve(c) && Recovered(c, r, s, m, recid).Some?
    ensures Verifies(c, r, s, Recovered(c, r, s, m, recid).value, m)
  {
    hide Mul, Claimed, KeyFrom, IsGroup, Congruent;
    var x, odd := CandidateX(r, recid).value, recid % 2 == 1;
    assert LiftLaws(c, x, odd);
    var p := c.lift(x, odd).value;
    assert PointLaws(c, p);
    ClaimedOfKey(c, r, s, m, p);
    DivModUnique(x, N, if x == r then 0 else 1, r);
  }

  /** Recovering from a point and verifying leads back to the point. */
  lemma ClaimedOfKey<T(!new)>(c: Curve<T>, r: Scalar, s: Scalar, m: Scalar, p: T)
    requires IsCurve(c) && r != 0 && s != 0
    ensures Claimed(c, r, s, KeyFrom(c, r, s, m, p), m) == p
  {
    hide Mul, IsGroup, Congruent;
    var g := c.group;
    var mg, sp := Mul(g, m, c.generator), Mul(g, s, p);
    var diff := g.add(sp, g.neg(mg));
    UndoScalar(c, r, diff);
    Comm(g, mg, diff);
    Assoc(g, sp, g.neg(mg), mg);
    Unit(g, mg);
    Unit(g, sp);
    UndoScalar(c, s, p);
  }

  /** Verifying against a key and recovering from the claimed point leads back to the key. */
  lemma KeyOfClaimed<T(!new)>(c: Curve<T>, r: Scalar, s: Scalar, q: T, m: Scalar)
    requires IsCurve(c) && r != 0 && s != 0
    ensures KeyFrom(c, r, s, m, Claimed(c, r, s, q, m)) == q
  {
    hide Mul, IsGroup;
    var g := c.group;
    var mg, rq := Mul(g, m, c.generator), Mul(g, r, q);
    UndoScalar(c, s, g.add(mg, rq));
    Comm(g, mg, rq);
    Assoc(g, rq, mg, g.neg(mg));
    Unit(g, mg);
    Unit(g, rq);
    UndoScalar(c, r, q);
  }

  /** The recovery id of a point. */
  ghost function IdOf<T>(c: Curve<T>, p: T): (recid: nat)
    ensures recid < 4
  {
    (if c.x(p) >= N then 2 else 0) + (if c.odd(p) then 1 else 0)
  }

  lemma RecoversById<T(!new)>(c: Curve<T>, r: Scalar, s: Scalar, q: T, m: Scalar)
    requires IsCurve(c) && Verifies(c, r, s, q, m) && q != c.group.zero
    ensures Recovered(c, r, s, m, IdOf(c, Claimed(c, r, s, q, m))) == Some(q)
  {
    hide Mul, Claimed, KeyFrom, IsGroup;
    var p := Claimed(c, r, s, q, m);
    assert PointLaws(c, p);
    assert ReducedX(c.x(p)) == r;
    KeyOfClaimed(c, r, s, q, m);
    assert CandidateX(r, IdOf(c, p)) == Some(c.x(p));
  }

  lemma RecoveredById<T(!new)>(c: Curve<T>, r: Scalar, s: Scalar, q: T, m: Scalar, recid: nat)
    requires IsCurve(c) && recid < 4 && Recovered(c, r, s, m, recid) == Some(q)
    ensures IdOf(c, Claimed(c, r, s, q, m)) == recid
  {
    hide Mul, Claimed, KeyFrom, IsGroup;
    var x, odd := CandidateX(r, recid).value, recid % 2 == 1;
    assert LiftLaws(c, x, odd);
    ClaimedOfKey(c, r, s, m, c.lift(x, odd).value);
  }

  /** Recovery finds exactly the keys other than zero that the signature is valid for, each by the id of its claimed
      point. */
  lemma RecoveryExact<T(!new)>(c: Curve<T>, r: Scalar, s: Scalar, q: T, m: Scalar, recid: nat)
    requires IsCurve(c) && recid < 4
    ensures Recovered(c, r, s, m, recid) == Some(q)
            <==> Verifies(c, r, s, q, m) && q != c.group.zero && recid == IdOf(c, Claimed(c, r, s, q, m))
  {
    hide Verifies, Claimed, KeyFrom, IsGroup, IdOf;
    if Recovered(c, r, s, m, recid) == Some(q) {
      RecoveredVerifies(c, r, s, m, recid);
      RecoveredById(c, r, s, q, m, recid);
    } else if Verifies(c, r, s, q, m) && q != c.group.zero {
      RecoversById(c, r, s, q, m);
    }
  }

  /** Negating s keeps a signature valid, which is why signing settles on the lower of the two values. */
  lemma BothSignsVerify<T(!new)>(c: Curve<T>, r: Scalar, s: Scalar, q: T, m: Scalar)
    requires IsCurve(c)
    ensures Verifies(c, r, s, q, m) <==> Verifies(c, r, Negate(s), q, m)
  {
    hide Mul, Claimed, IsGroup, Congruent;
    if s != 0 && r != 0 {
      ClaimedNegated(c, r, s, q, m);
      var a := Claimed(c, r, s, q, m);
      assert PointLaws(c, a);
      NegSum(c.group, a, a);
    }
  }

  lemma ClaimedNegated<T(!new)>(c: Curve<T>, r: Scalar, s: Scalar, q: T, m: Scalar)
    requires IsCurve(c) && s != 0
    ensures Claimed(c, r, Negate(s), q, m) == c.group.neg(Claimed(c, r, s, q, m))
  {
    hide Mul, IsGroup, Congruent;
    var n, v, w := Negate(s), c.inverse(Negate(s)), c.inverse(s);
    assert InverseLaws(c, s) && InverseLaws(c, n);
    MultipleCongruent(n, -1 * s, N, 1);
    Quotient(n, v, s, w, 1, -1, N);
    var a := c.group.add(Mul(c.group, m, c.generator), Mul(c.group, r, q));
    var wi: int := w;
    MulCongruent(c.group, v, -1 * wi, a);
    MulNeg(c.group, wi, a);
  }
}
