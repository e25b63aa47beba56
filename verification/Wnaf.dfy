/** Sliding-window signed recoding: zeros and odd digits, at least w positions apart. */
module Wnaf {
  import opened Arith
  import opened Scalars

  /** The representative of a scalar nearest zero that the recoding works on. */
  function Signed(a: Scalar): (v: int)
    ensures Congruent(v, a, N)
  {
    if Bits(a, 255, 1) == 1 then MultipleCongruent(a - N, a, N, -1); a - N else a
  }

  function Abs(v: int): nat { if v < 0 then -v else v }

  ghost predicate DigitOk(d: int, w: nat)
    requires w > 0
  {
    d == 0 || (d % 2 == 1 && Abs(d) < Pow2(w - 1))
  }

  ghost predicate Spaced(ds: seq<int>, w: nat) {
    forall i, j :: 0 <= i < j < |ds| && ds[i] != 0 && ds[j] != 0 ==> j - i >= w
  }

  /** The signed remainder of a window: odd, small, and borrowed from above only when its top bit is set. */
  lemma WindowDigit(s: nat, bit: nat, now: nat, w: nat, carry: nat, word: nat, carry': nat, d: int)
    requires carry <= 1 && Bits(s, bit, 1) != carry && 1 <= now <= w && 2 <= w
    requires word == Bits(s, bit, now) + carry
    requires carry' == Bits(word, w - 1, 1)
    requires d == word - Shl(carry', w)
    ensures DigitOk(d, w) && d != 0
    ensures carry' <= 1 && (now < w ==> carry' == 0)
    ensures carry' == 1 ==> Bits(s, bit + now - 1, 1) == 1
  {
    BottomBit(s, bit, now);
    LowBitsExtend(s, bit, 1);
    TopBit(s, bit, now);
    var q, half, top := Pow2(now - 1), Pow2(w - 1), Bits(s, bit + now - 1, 1);
    Pow2Mono(now - 1, w - 1);
    Pow2Even(w - 1);
    hide Bits, Pow2;
    OddWord(word, carry, q, half, now < w, Bits(s, bit, now), Bits(s, bit, now - 1), top);
    WordTop(word, w);
    Pow2Even(w);
  }

  lemma WordTop(word: nat, w: nat)
    requires w > 0 && word < 2 * Pow2(w - 1)
    ensures Bits(word, w - 1, 1) == if word >= Pow2(w - 1) then 1 else 0
  {
    var half := Pow2(w - 1);
    DivModUnique(word, half, if word >= half then 1 else 0, if word >= half then word - half else word);
    assert Pow2(1) == 2;
  }

  lemma OddWord(word: nat, carry: nat, q: nat, half: nat, short: bool, b: nat, low: nat, top: nat)
    requires half > 0 && word == b + carry && carry <= 1 && top <= 1 && b % 2 != carry
    requires b == low + q * top && low < q <= half && half % 2 == 0 && (short ==> 2 * q <= half)
    ensures word % 2 == 1 && word != half && word < 2 * half
    ensures short ==> word < half
    ensures word >= half ==> top == 1
    ensures var d := if word >= half then word - 2 * half else word; d % 2 == 1 && Abs(d) < half && d != 0
  {
    assert b == low + if top == 0 then 0 else q;
    OddSum(b, carry);
    OddAround(word, half);
  }

  lemma OddSum(b: nat, carry: nat)
    requires carry <= 1 && b % 2 != carry
    ensures (b + carry) % 2 == 1
  {
  }

  lemma OddAround(word: nat, half: nat)
    requires word % 2 == 1 && half % 2 == 0
    ensures word != half && word != 2 * half && (word - 2 * half) % 2 == 1
  {
    OddNumber(word - 2 * half, word / 2 - half);
  }

  lemma OddNumber(x: int, k: int)
    requires x == 2 * k + 1
    ensures x % 2 == 1
  {
  }

  lemma DigitSign(d: int, sign: int, w: nat)
    requires w > 0 && DigitOk(d, w) && (sign == 1 || sign == -1)
    ensures DigitOk(sign * d, w) && (d != 0 ==> sign * d != 0)
  {
  }

  /** The digits emitted so far stand for the low bits of s, less the carry still owed at position bit. */
  ghost predicate Partial(ds: seq<int>, s: nat, bit: nat, carry: nat, sign: int, w: nat)
    requires w > 0
  {
    && bit <= |ds| && carry <= 1 && (sign == 1 || sign == -1)
    && Value(ds, 1) == sign * (s % Pow2(bit) - carry * Pow2(bit))
    && (carry == 1 ==> bit > 0 && Bits(s, bit - 1, 1) == 1)
    && (forall i :: 0 <= i < |ds| ==> DigitOk(ds[i], w))
    && (forall i :: bit <= i < |ds| ==> ds[i] == 0)
    && (forall i :: 0 <= i < bit && ds[i] != 0 ==> i + w <= bit || bit == |ds|)
    && Spaced(ds, w)
  }

  /** A window of zeros (or of ones, under a carry) emits nothing. */
  lemma SkipKeeps(ds: seq<int>, s: nat, bit: nat, carry: nat, sign: int, w: nat)
    requires w > 0 && Partial(ds, s, bit, carry, sign, w) && bit < |ds|
    requires Bits(s, bit, 1) == carry
    ensures Partial(ds, s, bit + 1, carry, sign, w)
  {
    hide Value, Bits, Spaced, DigitOk;
    LowBitsExtend(s, bit, 1);
    SkippedValue(s % Pow2(bit), s % Pow2(bit + 1), Pow2(bit), carry);
    hide Pow2;
  }

  lemma SkippedValue(lo: int, lo': int, p: int, carry: int)
    requires lo' == lo + p * carry
    ensures lo' - carry * (2 * p) == lo - carry * p
  {
  }

  /** What the emitted digit and the outgoing carry of a window are worth. */
  lemma WindowValue(lo: int, lo': int, p: int, b: int, q: int, carry: int, carry': int, d: int, pq: int)
    requires lo' == lo + p * b && d == b + carry - carry' * q
    requires carry' == 0 || (carry' == 1 && pq == p * q)
    ensures lo' - carry' * pq == lo - carry * p + d * p
  {
    Distribute(b, carry, carry' * q, p);
    if carry' == 0 {
      assert carry' * q == 0;
    } else {
      assert carry' * q == q;
    }
  }

  lemma EmitKeeps(ds: seq<int>, s: nat, bit: nat, carry: nat, sign: int, w: nat, now: nat, carry': nat, d: int)
    requires 2 <= w && Partial(ds, s, bit, carry, sign, w) && bit < |ds|
    requires now == if w > |ds| - bit then |ds| - bit else w
    requires Bits(s, bit, 1) != carry
    requires carry' == Bits(Bits(s, bit, now) + carry, w - 1, 1)
    requires d == Bits(s, bit, now) + carry - Shl(carry', w)
    ensures Partial(ds[bit := Oriented(d, sign)], s, bit + now, carry', sign, w) && Oriented(d, sign) != 0
  {
    hide Bits, Pow2, Shl, Value, DigitOk;
    WindowDigit(s, bit, now, w, carry, Bits(s, bit, now) + carry, carry', d);
    DigitSign(d, sign, w);
    EmitValue(ds, s, bit, carry, sign, w, now, carry', d);
  }

  lemma EmitValue(ds: seq<int>, s: nat, bit: nat, carry: nat, sign: int, w: nat, now: nat, carry': nat, d: int)
    requires bit < |ds| && ds[bit] == 0 && carry' <= 1 && (now < w ==> carry' == 0) && now <= w
    requires Value(ds, 1) == sign * (s % Pow2(bit) - carry * Pow2(bit))
    requires d == Bits(s, bit, now) + carry - Shl(carry', w)
    ensures Value(ds[bit := sign * d], 1) == sign * (s % Pow2(bit + now) - carry' * Pow2(bit + now))
  {
    LowBitsExtend(s, bit, now);
    Pow2Add(bit, now);
    var lo, lo' := s % Pow2(bit), s % Pow2(bit + now);
    WindowValue(lo, lo', Pow2(bit), Bits(s, bit, now), Pow2(w), carry, carry', d, Pow2(bit + now));
    ValueUpdate(ds, 1, bit, sign * d);
    assert 1 * bit == bit;
    SignedSum(sign, lo - carry * Pow2(bit), d, Pow2(bit));
  }

  lemma SignedSum(sign: int, a: int, d: int, p: int)
    ensures sign * a + (sign * d - 0) * p == sign * (a + d * p)
  {
    MulAssoc(sign, d, p);
  }

  method Clear(wnaf: array<int>, len: nat)
    requires len <= wnaf.Length
    modifies wnaf
    ensures forall i :: 0 <= i < len ==> wnaf[i] == 0
    ensures forall i :: len <= i < wnaf.Length ==> wnaf[i] == old(wnaf[i])
  {
    for i := 0 to len
      invariant forall j :: 0 <= j < i ==> wnaf[j] == 0
      invariant forall i :: len <= i < wnaf.Length ==> wnaf[i] == old(wnaf[i])
    {
      wnaf[i] := 0;
    }
  }

  method Recode(wnaf: array<int>, len: nat, a: Scalar, w: nat) returns (bits: nat)
    requires len <= 256 && len <= wnaf.Length
    requires 2 <= w <= 31
    modifies wnaf
    ensures 2 * Abs(Signed(a)) < Pow2(len) ==> Value(wnaf[..len], 1) == Signed(a)
    ensures (forall i :: 0 <= i < len ==> DigitOk(wnaf[..len][i], w)) && Spaced(wnaf[..len], w)
    ensures bits <= len && (forall i :: bits <= i < len ==> wnaf[i] == 0)
    ensures bits > 0 ==> wnaf[bits - 1] != 0
    ensures forall i :: len <= i < wnaf.Length ==> wnaf[i] == old(wnaf[i])
  {
    hide Partial, Bits, Shl, Value, Spaced, Signed, Oriented, Pow2, DigitOk, Abs;
    var s: nat := a;
    var lastSetBit := -1;
    var bit := 0;
    var sign := 1;
    var carry: nat := 0;
    Clear(wnaf, len);
    ghost var ds := wnaf[..len];
    if Bits(s, 255, 1) != 0 {
      s := Negate(s);
      sign := -1;
    }
    SignedParts(a, s, sign);
    PartialStart(ds, s, sign, w);

    while bit < len
      invariant bit <= len && wnaf[..len] == ds && Partial(ds, s, bit, carry, sign, w)
      invariant -1 <= lastSetBit < bit && (forall i :: lastSetBit < i < len ==> ds[i] == 0)
      invariant lastSetBit >= 0 ==> ds[lastSetBit] != 0
      invariant forall i :: len <= i < wnaf.Length ==> wnaf[i] == old(wnaf[i])
    {
      if Bits(s, bit, 1) == carry {
        SkipKeeps(ds, s, bit, carry, sign, w);
        bit := bit + 1;
        continue;
      }
      var now := w;
      if now > len - bit {
        now := len - bit;
      }
      var word := Bits(s, bit, now) + carry;
      var carry' := Bits(word, w - 1, 1);
      var digit := word - Shl(carry', w);
      EmitKeeps(ds, s, bit, carry, sign, w, now, carry', digit);
      wnaf[bit] := Oriented(digit, sign);
      ds := ds[bit := Oriented(digit, sign)];
      carry := carry';
      lastSetBit := bit;
      bit := bit + now;
    }
    PartialDone(ds, s, carry, sign, w);
    bits := lastSetBit + 1;
  }

  lemma SignedParts(a: Scalar, s: nat, sign: int)
    requires if Bits(a, 255, 1) != 0 then s == Negate(a) && sign == -1 else s == a && sign == 1
    ensures s == Abs(Signed(a)) && Signed(a) == sign * s && s % Pow2(0) == 0
  {
    LowBitsExtend(a, 255, 1);
    assert Pow2(1) == 2;
    if Bits(a, 255, 1) != 0 {
      HighBitSet(a, 255, 1);
    }
  }

  lemma PartialStart(ds: seq<int>, s: nat, sign: int, w: nat)
    requires w > 0 && (sign == 1 || sign == -1)
    requires forall i :: 0 <= i < |ds| ==> ds[i] == 0
    ensures Partial(ds, s, 0, 0, sign, w)
  {
    ValueZero(ds, 1);
  }

  lemma PartialDone(ds: seq<int>, s: nat, carry: nat, sign: int, w: nat)
    requires w > 0 && Partial(ds, s, |ds|, carry, sign, w)
    ensures 2 * s < Pow2(|ds|) ==> Value(ds, 1) == sign * s
    ensures (forall i :: 0 <= i < |ds| ==> DigitOk(ds[i], w)) && Spaced(ds, w)
  {
    if 2 * s < Pow2(|ds|) {
      LowBitsWhole(s, |ds|);
      if carry == 1 {
        HighBitSet(s, |ds| - 1, 1);
        assert false;
      }
    }
  }

  /** With all 256 positions available, recoding is exact for every scalar. */
  lemma SignedFits(a: Scalar)
    ensures 2 * Abs(Signed(a)) < Pow2(256)
  {
    hide Pow2;
    OrderSize();
    LowBitsExtend(a, 255, 1);
    LowBitsWhole(a, 256);
    Pow2Small();
    assert Pow2(255 + 1) == Pow2(256);
    if Bits(a, 255, 1) == 1 {
      HighBitSet(a, 255, 1);
    } else {
      assert Pow2(255) * Bits(a, 255, 1) == 0;
    }
  }
}
