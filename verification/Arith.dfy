/** Powers of two, bit windows of naturals, and little-endian positional values. */
module Arith {

  ghost predicate Congruent(a: int, b: int, n: int)
    requires n > 0
  {
    (a - b) % n == 0
  }

  function Pow2(n: nat): (p: nat)
    ensures p > 0
  {
    if n == 0 then 1 else 2 * Pow2(n - 1)
  }

  lemma {:induction false} Pow2Add(a: nat, b: nat)
    ensures Pow2(a + b) == Pow2(a) * Pow2(b)
  {
    if a != 0 {
      Pow2Add(a - 1, b);
      MulAssoc(2, Pow2(a - 1), Pow2(b));
    }
  }

  lemma {:induction false} Pow2Mono(a: nat, b: nat)
    requires a <= b
    ensures Pow2(a) <= Pow2(b)
    ensures a < b ==> 2 * Pow2(a) <= Pow2(b)
    decreases b - a
  {
    if a < b {
      Pow2Mono(a, b - 1);
    }
  }

  lemma {:induction false} Pow2Even(n: nat)
    requires n > 0
    ensures Pow2(n) == 2 * Pow2(n - 1) && Pow2(n) % 2 == 0
  {
    EvenNumber(Pow2(n), Pow2(n - 1));
  }

  lemma EvenNumber(x: int, k: int)
    requires x == 2 * k
    ensures x % 2 == 0
  {
  }

  lemma Pow2Small()
    ensures Pow2(1) == 2 && Pow2(2) == 4 && Pow2(3) == 8 && Pow2(4) == 16 && Pow2(8) == 0x100
    ensures Pow2(16) == 0x1_0000
  {
  }

  lemma Pow2Double(n: nat, p: nat)
    requires Pow2(n) == p
    ensures Pow2(2 * n) == p * p
  {
    Pow2Add(n, n);
  }

  /** The word size and the scalar size, as powers of two. */
  lemma Pow2Large(n: nat)
    requires n == 16
    ensures Pow2(2 * n) == 0x1_0000_0000 && Pow2(4 * n) == 0x1_0000_0000_0000_0000
    ensures Pow2(8 * n) == 0x1_00000000_00000000_00000000_00000000
    ensures Pow2(16 * n) == 0x1_00000000_00000000_00000000_00000000_00000000_00000000_00000000_00000000
    ensures Pow2(16 * n) == 2 * Pow2(16 * n - 1)
  {
    Pow2Small();
    Pow2Double(n, 0x1_0000);
    Pow2Double(2 * n, 0x1_0000_0000);
    Pow2Double(4 * n, 0x1_0000_0000_0000_0000);
    Pow2Double(8 * n, 0x1_00000000_00000000_00000000_00000000);
  }

  /** A product that a proof can treat as a number without looking into it. */
  function Prod(a: int, b: int): int { a * b }

  lemma MulAssoc(a: int, b: int, c: int)
    ensures (a * b) * c == a * (b * c)
  {
  }

  lemma Distribute(a: int, b: int, c: int, p: int)
    ensures (a + b - c) * p == a * p + b * p - c * p
  {
  }

  lemma MulMono(a: int, b: int, c: int)
    requires a <= b && 0 <= c
    ensures a * c <= b * c
  {
  }

  /** The quotient and remainder of a number are determined by their defining equation. */
  lemma DivModUnique(a: int, d: int, q: int, r: int)
    requires d > 0 && 0 <= r < d && a == q * d + r
    ensures a / d == q && a % d == r
  {
    var q', r' := a / d, a % d;
    assert a == q' * d + r';
    var e := q' - q;
    assert e * d == q' * d - q * d == r - r';
    if e >= 1 {
      MulMono(1, e, d);
      assert false;
    } else if e <= -1 {
      MulMono(e, -1, d);
      assert false;
    }
  }

  lemma DivModParts(a: int, d: int)
    requires d > 0
    ensures a == (a / d) * d + a % d && 0 <= a % d < d
    ensures a >= 0 ==> a / d >= 0
  {
    if a >= 0 {
      DivNonNeg(a, d);
    }
  }

  lemma DivNonNeg(a: nat, d: nat)
    requires d > 0
    ensures a / d >= 0
  {
    var q := a / d;
    assert a == q * d + a % d;
    if q <= -1 {
      MulMono(q, -1, d);
      assert false;
    }
  }

  /** A multiple of n is congruent to zero, and congruence is exactly that. */
  lemma MultipleCongruent(a: int, b: int, n: int, k: int)
    requires n > 0 && a - b == k * n
    ensures Congruent(a, b, n)
  {
    DivModUnique(a - b, n, k, 0);
  }

  lemma CongruentMod(a: int, n: int)
    requires n > 0
    ensures Congruent(a % n, a, n)
  {
    assert a == (a / n) * n + a % n;
    MultipleCongruent(a % n, a, n, -(a / n));
  }

  /** Congruence is preserved by sums and integer multiples. */
  lemma CongruentSum(a: int, b: int, c: int, d: int, n: int)
    requires n > 0 && Congruent(a, b, n) && Congruent(c, d, n)
    ensures Congruent(a + c, b + d, n) && Congruent(a - c, b - d, n)
  {
    var q1, q2 := (a - b) / n, (c - d) / n;
    assert a - b == q1 * n;
    assert c - d == q2 * n;
    assert (a + c) - (b + d) == (q1 + q2) * n;
    assert (a - c) - (b - d) == (q1 - q2) * n;
    MultipleCongruent(a + c, b + d, n, q1 + q2);
    MultipleCongruent(a - c, b - d, n, q1 - q2);
  }

  lemma CongruentScale(a: int, b: int, k: int, n: int)
    requires n > 0 && Congruent(a, b, n)
    ensures Congruent(k * a, k * b, n)
  {
    var q := (a - b) / n;
    assert a - b == q * n;
    assert k * a - k * b == k * (a - b) == k * (q * n) == (k * q) * n;
    MultipleCongruent(k * a, k * b, n, k * q);
  }

  lemma CongruentTrans(a: int, b: int, c: int, n: int)
    requires n > 0 && Congruent(a, b, n) && Congruent(b, c, n)
    ensures Congruent(a, c, n)
  {
    CongruentSum(a, b, b, c, n);
  }

  lemma CongruentSym(a: int, b: int, n: int)
    requires n > 0 && Congruent(a, b, n)
    ensures Congruent(b, a, n)
  {
    CongruentScale(a, b, -1, n);
    assert -1 * a - -1 * b == b - a;
  }

  lemma CongruentProduct(a: int, b: int, c: int, d: int, n: int)
    requires n > 0 && Congruent(a, b, n) && Congruent(c, d, n)
    ensures Congruent(a * c, b * d, n)
  {
    CongruentScale(a, b, c, n);
    CongruentScale(c, d, b, n);
    assert c * a == a * c && c * b == b * c;
    CongruentTrans(a * c, b * c, b * d, n);
  }

  /** Congruent numbers in [0, n) are equal. */
  lemma CongruentEqual(a: int, b: int, n: int)
    requires n > 0 && Congruent(a, b, n) && 0 <= a < n && 0 <= b < n
    ensures a == b
  {
    var q := (a - b) / n;
    assert a - b == q * n;
    if q >= 1 {
      MulMono(1, q, n);
      assert false;
    } else if q <= -1 {
      MulMono(q, -1, n);
      assert false;
    }
  }

  lemma CongruentModEqual(a: int, b: int, n: int)
    requires n > 0 && Congruent(a, b, n)
    ensures a % n == b % n
  {
    CongruentMod(a, n);
    CongruentMod(b, n);
    CongruentSym(b % n, b, n);
    CongruentTrans(a % n, a, b, n);
    CongruentTrans(a % n, b, b % n, n);
    CongruentEqual(a % n, b % n, n);
  }

  /** The count bits of s that start at bit offset. */
  function Bits(s: nat, offset: nat, count: nat): (b: nat)
  {
    DivNonNeg(s, Pow2(offset));
    (s / Pow2(offset)) % Pow2(count)
  }

  /** s == hi * (p * q) + mid * p + lo, with every digit in range, determines the parts. */
  lemma SplitThree(s: nat, p: nat, q: nat)
    requires p > 0 && q > 0
    ensures s / p >= 0 && p * q > 0
    ensures s % (p * q) == s % p + p * ((s / p) % q)
    ensures s / (p * q) == (s / p) / q
  {
    DivNonNeg(s, p);
    var h, lo := s / p, s % p;
    var mid, hi := h % q, h / q;
    assert s == h * p + lo;
    assert h == hi * q + mid;
    Recompose(s, h, p, q, hi, mid, lo);
    MulMono(mid, q - 1, p);
    MulMono(0, mid, p);
    MulPositive(p, q);
    assert mid * p <= q * p - p;
    DivModUnique(s, p * q, hi, mid * p + lo);
  }

  lemma MulPositive(p: nat, q: nat)
    requires p > 0 && q > 0
    ensures p * q > 0
  {
  }

  lemma Recompose(s: int, h: int, p: int, q: int, hi: int, mid: int, lo: int)
    requires s == h * p + lo && h == hi * q + mid
    ensures s == hi * (p * q) + (mid * p + lo)
  {
    assert h * p == hi * q * p + mid * p;
    MulAssoc(hi, q, p);
  }

  /** x with its sign flipped when sign is -1. */
  function Oriented(x: int, sign: int): int {
    x * sign
  }

  /** x shifted left by n positions. */
  function Shl(x: int, n: nat): int {
    x * Pow2(n)
  }

  /** Reading one more window extends the low part of a number. */
  lemma LowBitsExtend(s: nat, offset: nat, count: nat)
    ensures s % Pow2(offset + count) == s % Pow2(offset) + Pow2(offset) * Bits(s, offset, count)
    ensures 0 <= Bits(s, offset, count) < Pow2(count)
  {
    Pow2Add(offset, count);
    SplitThree(s, Pow2(offset), Pow2(count));
  }

  lemma LowBitsWhole(s: nat, n: nat)
    requires s < Pow2(n)
    ensures s % Pow2(n) == s
  {
    DivModUnique(s, Pow2(n), 0, s);
  }

  /** A nonzero bit at or above offset means the number is at least 2^offset. */
  lemma HighBitSet(s: nat, offset: nat, count: nat)
    requires Bits(s, offset, count) != 0
    ensures s >= Pow2(offset)
  {
    if s < Pow2(offset) {
      DivModUnique(s, Pow2(offset), 0, s);
      DivModUnique(0, Pow2(count), 0, 0);
      assert false;
    }
  }

  /** The top bit of a window decides which half of its range the window is in. */
  lemma TopBit(s: nat, offset: nat, count: nat)
    requires count > 0
    ensures Bits(s, offset, count) == Bits(s, offset, count - 1) + Pow2(count - 1) * Bits(s, offset + count - 1, 1)
    ensures Bits(s, offset + count - 1, 1) <= 1
    ensures Bits(s, offset, count - 1) < Pow2(count - 1)
  {
    var p, q := Pow2(offset), Pow2(count - 1);
    DivNonNeg(s, p);
    SplitThree(s, p, q);
    Pow2Add(offset, count - 1);
    SplitThree(s / p, q, 2);
    assert Pow2(count) == q * 2;
    assert Pow2(1) == 2;
  }

  /** The lowest bit of a window is the bit at its offset. */
  lemma LowBitsParity(h: nat, q: nat)
    requires q > 0
    ensures (h % (2 * q)) % 2 == h % 2
  {
    var r, t := h % (2 * q), h / (2 * q);
    DivModParts(h, 2 * q);
    MulAssoc(t, 2, q);
    MulAssoc(2, t, q);
    SameParity(h, r, t * q);
  }

  lemma SameParity(h: int, r: int, k: int)
    requires h == 2 * k + r
    ensures h % 2 == r % 2
  {
  }

  lemma BottomBit(s: nat, offset: nat, count: nat)
    requires count > 0
    ensures Bits(s, offset, count) % 2 == Bits(s, offset, 1)
  {
    DivNonNeg(s, Pow2(offset));
    assert Pow2(1) == 2 && Pow2(count) == 2 * Pow2(count - 1);
    hide Pow2;
    LowBitsParity(s / Pow2(offset), Pow2(count - 1));
  }

  /** Value of a digit string, least significant digit first, in base 2^w. */
  function Value(ds: seq<int>, w: nat): int
  {
    if |ds| == 0 then 0 else ds[0] + Pow2(w) * Value(ds[1..], w)
  }

  lemma {:induction false} ValueUpdate(ds: seq<int>, w: nat, i: nat, d: int)
    requires i < |ds|
    ensures Value(ds[i := d], w) == Value(ds, w) + (d - ds[i]) * Pow2(w * i)
  {
    if i == 0 {
      assert ds[i := d][1..] == ds[1..];
    } else {
      assert ds[i := d][1..] == ds[1..][i - 1 := d];
      ValueUpdate(ds[1..], w, i - 1, d);
      assert w * i == w + w * (i - 1);
      Pow2Add(w, w * (i - 1));
      var e := d - ds[i];
      assert Pow2(w) * (Value(ds[1..], w) + e * Pow2(w * (i - 1)))
          == Pow2(w) * Value(ds[1..], w) + Pow2(w) * (e * Pow2(w * (i - 1)));
      assert Pow2(w) * (e * Pow2(w * (i - 1))) == e * (Pow2(w) * Pow2(w * (i - 1))) by {
        MulAssoc(e, Pow2(w), Pow2(w * (i - 1)));
        MulAssoc(Pow2(w), e, Pow2(w * (i - 1)));
      }
    }
  }

  lemma {:induction false} ValueZero(ds: seq<int>, w: nat)
    requires forall i :: 0 <= i < |ds| ==> ds[i] == 0
    ensures Value(ds, w) == 0
  {
    if |ds| != 0 {
      ValueZero(ds[1..], w);
    }
  }

  lemma {:induction false} ValueAppend(ds: seq<int>, w: nat, d: int)
    ensures Value(ds + [d], w) == Value(ds, w) + d * Pow2(w * |ds|)
  {
    if |ds| == 0 {
      assert ds + [d] == [d];
      assert Value([d], w) == d + Pow2(w) * Value([], w);
    } else {
      assert (ds + [d])[1..] == ds[1..] + [d];
      ValueAppend(ds[1..], w, d);
      assert w * |ds| == w + w * (|ds| - 1);
      Pow2Add(w, w * (|ds| - 1));
      ScaleShift(Pow2(w), Value(ds[1..], w), d, Pow2(w * (|ds| - 1)));
    }
  }

  lemma ScaleShift(p: int, v: int, d: int, q: int)
    ensures p * (v + d * q) == p * v + d * (p * q)
  {
    MulAssoc(d, p, q);
    MulAssoc(p, d, q);
  }
}
