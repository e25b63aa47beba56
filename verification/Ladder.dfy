/** The X25519 ladder (section 5 of RFC 7748): pairs of points in four buffers, swapped under the bits of the scalar,
    with the result of every step landing in the other pair. Points are x-line representatives of group elements. */
module Ladder {
  import opened Arith
  import opened Groups
  import opened Octets

  /** Representatives of points up to sign, with doubling and differential addition. */
  datatype XLine<!X, !P> = XLine(group: Group<P>, infinity: X, double: X -> X, add: (X, X, X) -> X, junk: X -> X,
                                 ghost represents: (X, P) -> bool)

  ghost predicate DoubleLaw<X, P>(l: XLine<X, P>, a: X, p: P) {
    l.represents(a, p) ==> l.represents(l.double(a), l.group.add(p, p))
  }

  /** The sum of two points from the points and their difference, when that is the base d up to sign. */
  ghost predicate AddLaw<X, P>(l: XLine<X, P>, a: X, p: P, b: X, q: P, d: X, r: P) {
    l.represents(a, p) && l.represents(b, q) && (l.group.add(p, r) == q || l.group.add(q, r) == p)
    ==> l.represents(l.add(a, b, d), l.group.add(p, q))
  }

  /** The laws that the ladder needs for one base, which is the difference in all its additions. The formulas read the
      x part of the base alone, so they meet the laws for a finite base with z part 1 whose x part is not 0. */
  ghost predicate IsXLine<X(!new), P(!new)>(l: XLine<X, P>, base: X, point: P) {
    && IsGroup(l.group)
    && l.represents(l.infinity, l.group.zero) && l.represents(base, point)
    && (forall a, p :: DoubleLaw(l, a, p))
    && (forall a, p, b, q :: AddLaw(l, a, p, b, q, base, point))
  }

  /** The two slots hold m Q and (m + 1) Q. */
  ghost predicate Pair<X, P>(l: XLine<X, P>, buf: seq<X>, i: nat, j: nat, m: int, q: P) {
    i < |buf| && j < |buf| && l.represents(buf[i], Mul(l.group, m, q)) && l.represents(buf[j], Mul(l.group, m + 1, q))
  }

  /** Exchanges two slots when the bit is one, leaving the others alone. */
  method SwapConditional<X>(buf: array<X>, i: nat, j: nat, bit: nat)
    requires i < buf.Length && j < buf.Length && i != j && bit <= 1
    modifies buf
    ensures buf[..] == if bit == 1 then old(buf[..])[i := old(buf[j])][j := old(buf[i])] else old(buf[..])
  {
    if bit == 1 {
      buf[i], buf[j] := buf[j], buf[i];
    }
  }

  /** Doubles the point in slot p and adds the one in slot pq to it, into slots pp and ppq; p and pq are used up. */
  method Fmonty<X, P>(l: XLine<X, P>, buf: array<X>, pp: nat, ppq: nat, p: nat, pq: nat, q: X)
    requires pp < buf.Length && ppq < buf.Length && p < buf.Length && pq < buf.Length
    requires pp != ppq && pp != p && pp != pq && ppq != p && ppq != pq && p != pq
    modifies buf
    ensures buf[pp] == l.double(old(buf[p])) && buf[ppq] == l.add(old(buf[p]), old(buf[pq]), q)
  {
    var x, xprime := buf[p], buf[pq];
    buf[p] := l.junk(x);
    buf[pq] := l.junk(xprime);
    buf[ppq] := l.add(x, xprime, q);
    buf[pp] := l.double(x);
  }

  lemma PairStep<X(!new), P(!new)>(l: XLine<X, P>, a: X, b: X, d: X, m: int, bit: nat, q: P)
    requires IsXLine(l, d, q) && bit <= 1
    requires l.represents(a, Mul(l.group, m, q)) && l.represents(b, Mul(l.group, m + 1, q))
    ensures var x, y := if bit == 1 then b else a, if bit == 1 then a else b;
            var dbl, sum := l.double(x), l.add(x, y, d);
            && l.represents(if bit == 1 then sum else dbl, Mul(l.group, 2 * m + bit, q))
            && l.represents(if bit == 1 then dbl else sum, Mul(l.group, 2 * m + bit + 1, q))
  {
    hide IsGroup, Mul;
    var g := l.group;
    var mp, np := Mul(g, m, q), Mul(g, m + 1, q);
    MulSucc(g, m, q);
    MulAdd(g, m, m, q);
    MulAdd(g, m + 1, m + 1, q);
    MulAdd(g, m, m + 1, q);
    MulAdd(g, m + 1, m, q);
    assert m + m == 2 * m && m + 1 + (m + 1) == 2 * m + 2 && m + (m + 1) == 2 * m + 1 && m + 1 + m == 2 * m + 1;
    if bit == 1 {
      assert DoubleLaw(l, b, np) && AddLaw(l, b, np, a, mp, d, q);
    } else {
      assert DoubleLaw(l, a, mp) && AddLaw(l, a, mp, b, np, d, q);
    }
  }

  /** One bit: the pair for m in the first two slots becomes the pair for 2 m + bit in the other two. */
  method SmallLoopStep<X(!new), P(!new)>(l: XLine<X, P>, buf: array<X>, nq: nat, nqpq: nat, nq2: nat, nqpq2: nat, q: X,
                                         byt: Octet, ghost m: int, ghost point: P)
    requires IsXLine(l, q, point) && Distinct(nq, nqpq, nq2, nqpq2) && buf.Length == 4
    requires Pair(l, buf[..], nq, nqpq, m, point)
    modifies buf
    ensures Pair(l, buf[..], nq2, nqpq2, 2 * m + byt / 0x80, point)
  {
    hide IsXLine, Mul;
    var bit := byt / 0x80;
    PairStep(l, buf[nq], buf[nqpq], q, m, bit, point);
    SwapConditional(buf, nq, nqpq, bit);
    Fmonty(l, buf, nq2, nqpq2, nq, nqpq, q);
    SwapConditional(buf, nq2, nqpq2, bit);
  }

  predicate Distinct(a: nat, b: nat, c: nat, d: nat) {
    a < 4 && b < 4 && c < 4 && d < 4 && a != b && a != c && a != d && b != c && b != d && c != d
  }

  /** Two bits: the pairs trade places twice, so the result is back where it started. */
  method SmallLoopDoubleStep<X(!new), P(!new)>(l: XLine<X, P>, buf: array<X>, q: X, byt: Octet, ghost m: int, ghost point: P)
    requires IsXLine(l, q, point) && buf.Length == 4 && Pair(l, buf[..], 0, 1, m, point)
    modifies buf
    ensures Pair(l, buf[..], 0, 1, 4 * m + byt / 0x40, point)
  {
    hide IsXLine, Pair, Mul;
    SmallLoopStep(l, buf, 0, 1, 2, 3, q, byt, m, point);
    var byt1: Octet := byt * 2 % 0x100;
    TwoBits(byt, m);
    SmallLoopStep(l, buf, 2, 3, 0, 1, q, byt1, 2 * m + byt / 0x80, point);
  }

  lemma TwoBits(byt: Octet, m: int)
    ensures 2 * (2 * m + byt / 0x80) + (byt * 2 % 0x100) / 0x80 == 4 * m + byt / 0x40
  {
    var hi, lo := byt / 0x80, byt % 0x80;
    assert byt * 2 % 0x100 == 2 * lo;
  }

  function Power4(i: nat): nat
    requires i <= 4
  {
    match i case 0 => 1 case 1 => 4 case 2 => 0x10 case 3 => 0x40 case 4 => 0x100
  }

  /** The top 2 i bits of a byte. */
  function TopBits(byt: Octet, i: nat): nat
    requires i <= 4
  {
    match i case 0 => 0 case 1 => byt / 0x40 case 2 => byt / 0x10 case 3 => byt / 4 case 4 => byt
  }

  method SmallLoop<X(!new), P(!new)>(l: XLine<X, P>, buf: array<X>, q: X, byt: Octet, i: nat, ghost m: int, ghost point: P)
    requires IsXLine(l, q, point) && buf.Length == 4 && i <= 4 && Pair(l, buf[..], 0, 1, m, point)
    modifies buf
    ensures Pair(l, buf[..], 0, 1, Power4(i) * m + TopBits(byt, i), point)
    decreases i
  {
    hide IsXLine, Pair, Mul, Power4, TopBits;
    BitsOnce(byt, i, m);
    if i != 0 {
      SmallLoopDoubleStep(l, buf, q, byt, m, point);
      var byt2: Octet := byt * 4 % 0x100;
      SmallLoop(l, buf, q, byt2, i - 1, 4 * m + byt / 0x40, point);
    }
  }

  lemma BitsOnce(byt: Octet, i: nat, m: int)
    requires i <= 4
    ensures i == 0 ==> Power4(i) * m + TopBits(byt, i) == m
    ensures i > 0 ==> (Power4(i - 1) * (4 * m + byt / 0x40) + TopBits(byt * 4 % 0x100, i - 1)
                       == Power4(i) * m + TopBits(byt, i))
  {
    var hi, lo := byt / 0x40, byt % 0x40;
    UpperBits(byt, hi, lo);
  }

  lemma UpperBits(byt: Octet, hi: int, lo: int)
    requires hi == byt / 0x40 && lo == byt % 0x40
    ensures byt == 0x40 * hi + lo && byt * 4 % 0x100 == 4 * lo
    ensures byt / 0x10 == 4 * hi + lo / 0x10 && byt / 4 == 0x10 * hi + lo / 4
    ensures 4 * lo / 0x40 == lo / 0x10 && 4 * lo / 0x10 == lo / 4 && 4 * lo / 4 == lo
  {
    assert byt == 0x40 * hi + lo;
  }

  function Power256(i: nat): nat {
    if i == 0 then 1 else 0x100 * Power256(i - 1)
  }

  /** The bytes of the scalar from the top down. */
  method BigLoop<X(!new), P(!new)>(l: XLine<X, P>, n: seq<Octet>, buf: array<X>, q: X, i: nat, ghost m: int, ghost point: P)
    requires IsXLine(l, q, point) && buf.Length == 4 && i <= |n| && Pair(l, buf[..], 0, 1, m, point)
    modifies buf
    ensures Pair(l, buf[..], 0, 1, m * Power256(i) + LittleEndian(n[..i]), point)
    decreases i
  {
    hide IsXLine, Pair, Mul;
    if i == 0 {
      assert n[..0] == [];
    } else {
      SmallLoop(l, buf, q, n[i - 1], 4, m, point);
      BytesOnce(n, i, m);
      BigLoop(l, n, buf, q, i - 1, 0x100 * m + n[i - 1], point);
    }
  }

  lemma BytesOnce(n: seq<Octet>, i: nat, m: int)
    requires 0 < i <= |n|
    ensures (0x100 * m + n[i - 1]) * Power256(i - 1) + LittleEndian(n[..i - 1]) == m * Power256(i) + LittleEndian(n[..i])
  {
    assert n[..i] == n[..i - 1] + [n[i - 1]];
    LastByte(n[..i - 1], n[i - 1]);
    Regroup(m, n[i - 1], Power256(i - 1));
  }

  lemma Regroup(m: int, b: int, p: int)
    ensures (0x100 * m + b) * p == m * (0x100 * p) + b * p
  {
    MulAssoc(0x100, m, p);
    MulAssoc(m, 0x100, p);
  }

  lemma {:induction false} LastByte(b: seq<Octet>, c: Octet)
    ensures LittleEndian(b + [c]) == LittleEndian(b) + c * Power256(|b|)
  {
    if |b| == 0 {
      assert b + [c] == [c] && [c][1..] == [];
    } else {
      assert (b + [c])[1..] == b[1..] + [c];
      LastByte(b[1..], c);
      MulAssoc(0x100, c, Power256(|b| - 1));
      MulAssoc(c, 0x100, Power256(|b| - 1));
    }
  }

  /** The ladder multiplies by the little-endian scalar. */
  method Cmult<X(!new), P(!new)>(l: XLine<X, P>, n: seq<Octet>, q: X, ghost point: P) returns (result: X)
    requires IsXLine(l, q, point)
    ensures l.represents(result, Mul(l.group, LittleEndian(n), point))
  {
    hide Mul;
    var buf := new X[4](_ => l.infinity);
    buf[1] := q;
    MulSucc(l.group, 0, point);
    BigLoop(l, n, buf, q, |n|, 0, point);
    assert n[..|n|] == n;
    result := buf[0];
  }

  /** The scalar that is used: the low three bits cleared, bit 255 cleared and bit 254 set. */
  function ClampScalar(secret: seq<Octet>): (e: seq<Octet>)
    requires |secret| == 32
    ensures |e| == 32
  {
    secret[0 := secret[0] / 8 * 8][31 := secret[31] % 0x40 + 0x40]
  }

  /** The five bits set and cleared, and the others as they were. */
  lemma ClampKeeps(secret: seq<Octet>)
    requires |secret| == 32
    ensures var e := ClampScalar(secret);
      e[1..31] == secret[1..31]
      && e[0] % 8 == 0 && e[0] / 8 == secret[0] / 8
      && e[31] / 0x40 == 1 && e[31] % 0x40 == secret[31] % 0x40
  {
  }

  /** Multiplies a point by a secret that is clamped in a copy. */
  method ScalarMult<X(!new), P(!new)>(l: XLine<X, P>, secret: seq<Octet>, q: X, ghost point: P) returns (result: X)
    requires IsXLine(l, q, point) && |secret| == 32
    ensures l.represents(result, Mul(l.group, LittleEndian(ClampScalar(secret)), point))
  {
    hide Mul, LittleEndian, IsXLine;
    var e := new Octet[32](i requires 0 <= i < 32 => secret[i]);
    var e0, e31 := e[0], e[31];
    var e01 := e0 / 8 * 8;
    var e311 := e31 % 0x80;
    var e312 := if e311 / 0x40 % 2 == 1 then e311 else e311 + 0x40;
    e[0] := e01;
    e[31] := e312;
    assert e[..] == ClampScalar(secret);
    result := Cmult(l, e[..], q, point);
  }

  /** A used scalar is a multiple of 8 with its top bit at position 254. */
  lemma ClampedRange(secret: seq<Octet>)
    requires |secret| == 32
    ensures LittleEndian(ClampScalar(secret)) % 8 == 0
    ensures 0x40 * Power256(31) <= LittleEndian(ClampScalar(secret)) < 0x80 * Power256(31)
  {
    hide Power256, LittleEndian;
    var e := ClampScalar(secret);
    assert e == e[..31] + [e[31]];
    LastByte(e[..31], e[31]);
    BytesBound(e[..31]);
    MulMono(0x40, e[31], Power256(31));
    MulMono(e[31], 0x7F, Power256(31));
    LowByte(e);
  }

  lemma LowByte(e: seq<Octet>)
    requires |e| > 0 && e[0] % 8 == 0
    ensures LittleEndian(e) % 8 == 0
  {
    assert LittleEndian(e) == e[0] + 0x100 * LittleEndian(e[1..]);
    hide LittleEndian;
  }

  lemma {:induction false} BytesBound(b: seq<Octet>)
    ensures LittleEndian(b) < Power256(|b|)
  {
    if |b| > 0 {
      BytesBound(b[1..]);
    }
  }
}

/** Inversion modulo 2^255 - 19 by a chain of squarings and multiplications. */
module Inversion {
  import opened Arith

  const P: int := 0x7fffffff_ffffffff_ffffffff_ffffffff_ffffffff_ffffffff_ffffffff_ffffffed

  function Fmul(a: int, b: int): int { a * b % P }

  function Power(z: int, e: nat): int {
    if e == 0 then 1 else z * Power(z, e - 1)
  }

  lemma {:induction false} PowerSum(z: int, a: nat, b: nat)
    ensures Power(z, a) * Power(z, b) == Power(z, a + b)
  {
    if a > 0 {
      PowerSum(z, a - 1, b);
      MulAssoc(z, Power(z, a - 1), Power(z, b));
    }
  }

  /** The slot holds a power of z, reduced modulo P. */
  ghost predicate Holds(x: int, z: int, e: nat) {
    0 <= x < P && Congruent(x, Power(z, e), P)
  }

  method Multiply(x: int, y: int, ghost z: int, ghost a: nat, ghost b: nat) returns (r: int)
    requires Holds(x, z, a) && Holds(y, z, b)
    ensures Holds(r, z, a + b)
  {
    hide Power, Congruent;
    r := Fmul(x, y);
    PowerSum(z, a, b);
    CongruentMod(x * y, P);
    CongruentProduct(x, Power(z, a), y, Power(z, b), P);
    CongruentTrans(r, x * y, Power(z, a + b), P);
  }

  method SquareTimes(x: int, count: nat, ghost z: int, ghost e: nat) returns (r: int)
    requires Holds(x, z, e) && count > 0
    ensures Holds(r, z, e * Pow2(count))
  {
    hide Holds, Pow2;
    r := x;
    NoSquare(e);
    for i := 0 to count
      invariant Holds(r, z, e * Pow2(i))
    {
      r := Multiply(r, r, z, e * Pow2(i), e * Pow2(i));
      OneSquare(e, i);
    }
  }

  lemma NoSquare(e: nat)
    ensures e * Pow2(0) == e
  {
  }

  lemma OneSquare(e: nat, i: nat)
    ensures e * Pow2(i + 1) == e * Pow2(i) + e * Pow2(i)
  {
  }

  /** z to the power P - 2, the inverse of z modulo the prime P when z is not a multiple of it. */
  method Crecip(z: int) returns (out: int)
    requires 0 <= z < P
    ensures out == Power(z, P - 2) % P
  {
    hide Holds, Pow2;
    Start(z);
    var b0 := FirstPowers(z);
    var c := MiddlePowers(b0.1, z);
    out := LastPowers(b0.0, c, z);
    Finish(out, z);
  }

  lemma Start(z: int)
    requires 0 <= z < P
    ensures Holds(z, z, 1)
  {
    assert Power(z, 1) == z * Power(z, 0) == z;
    MultipleCongruent(z, z, P, 0);
  }

  lemma Finish(x: int, z: int)
    requires Holds(x, z, P - 2)
    ensures x == Power(z, P - 2) % P
  {
    hide Power;
    CongruentModEqual(x, Power(z, P - 2), P);
  }

  lemma Squarings()
    ensures Pow2(1) == 2 && Pow2(2) == 4 && Pow2(5) == 0x20 && Pow2(10) == 0x400 && Pow2(20) == 0x10_0000
    ensures Pow2(50) == 0x4_0000_0000_0000 && Pow2(100) == 0x10_0000_0000_0000_0000_0000_0000
  {
    hide Pow2;
    Pow2Small();
    FiveBits();
    Pow2Add(5, 5);
    Pow2Add(10, 10);
    Pow2Add(20, 20);
    Pow2Add(40, 10);
    Pow2Add(50, 50);
  }

  lemma FiveBits()
    ensures Pow2(1) == 2 && Pow2(2) == 4 && Pow2(5) == 0x20
  {
  }

  /** z^11 and z^(2^5 - 1). */
  method FirstPowers(z: int) returns (r: (int, int))
    requires Holds(z, z, 1)
    ensures Holds(r.0, z, 11) && Holds(r.1, z, 0x1f)
  {
    hide Holds, Pow2;
    Squarings();
    var a := SquareTimes(z, 1, z, 1);
    var t0 := SquareTimes(a, 2, z, 2);
    var b := Multiply(t0, z, z, 8, 1);
    a := Multiply(b, a, z, 9, 2);
    t0 := SquareTimes(a, 1, z, 11);
    b := Multiply(t0, b, z, 22, 9);
    r := (a, b);
  }

  /** z^(2^50 - 1), by way of 2^10 - 1, 2^20 - 1 and 2^40 - 1. */
  method MiddlePowers(b0: int, z: int) returns (r: int)
    requires Holds(b0, z, 0x1f)
    ensures Holds(r, z, 0x3_ffff_ffff_ffff)
  {
    hide Holds, Pow2;
    Squarings();
    var t := SquareTimes(b0, 5, z, 0x1f);
    var b := Multiply(t, b0, z, 0x3e0, 0x1f);
    t := SquareTimes(b, 10, z, 0x3ff);
    var c := Multiply(t, b, z, 0xffc00, 0x3ff);
    t := SquareTimes(c, 20, z, 0xfffff);
    t := Multiply(t, c, z, 0xff_fff0_0000, 0xfffff);
    t := SquareTimes(t, 10, z, 0xff_ffff_ffff);
    r := Multiply(t, b, z, 0x3_ffff_ffff_fc00, 0x3ff);
  }

  /** z^(2^100 - 1), z^(2^200 - 1), z^(2^250 - 1), and the last five squarings with z^11. */
  method LastPowers(a: int, b: int, z: int) returns (r: int)
    requires Holds(a, z, 11) && Holds(b, z, 0x3_ffff_ffff_ffff)
    ensures Holds(r, z, P - 2)
  {
    hide Holds, Pow2;
    Squarings();
    ghost var e50, e100 := 0x3_ffff_ffff_ffff, 0xf_ffff_ffff_ffff_ffff_ffff_ffff;
    var t := SquareTimes(b, 50, z, e50);
    var c := Multiply(t, b, z, e50 * 0x4_0000_0000_0000, e50);
    t := SquareTimes(c, 100, z, e100);
    t := Multiply(t, c, z, e100 * 0x10_0000_0000_0000_0000_0000_0000, e100);
    ghost var e200 := e100 * 0x10_0000_0000_0000_0000_0000_0001;
    t := SquareTimes(t, 50, z, e200);
    t := Multiply(t, b, z, e200 * 0x4_0000_0000_0000, e50);
    ghost var e250 := e200 * 0x4_0000_0000_0000 + e50;
    t := SquareTimes(t, 5, z, e250);
    r := Multiply(t, a, z, e250 * 0x20, 11);
    assert e250 * 0x20 + 11 == P - 2;
  }
}
