/** Bit-level access to scalars in limbs: windows, shifts, single-bit additions and the byte encoding. */
module ScalarBits {
  import opened Arith
  import opened Scalars
  import opened Limbs32
  import opened ScalarProduct
  import opened ScalarFold
  import opened Scalar8x32

  /** The limbs from k upwards as a number. */
  ghost function Tail(a: seq<Word>, k: nat): nat
    requires k <= |a| == 8
    decreases 8 - k
  {
    if k == 8 then 0 else Join(a[k], Tail(a, k + 1))
  }

  lemma TailStart(a: seq<Word>)
    requires |a| == 8
    ensures Tail(a, 0) == Val8(a)
  {
    assert Tail(a, 4) == Join(a[4], Join(a[5], Join(a[6], Join(a[7], Tail(a, 8)))));
    assert Tail(a, 0) == Join(a[0], Join(a[1], Join(a[2], Join(a[3], Tail(a, 4)))));
  }

  lemma WordPower(s: nat)
    requires s <= 32
    ensures Pow2(32) == 0x1_0000_0000 && Pow2(s) * Pow2(32 - s) == 0x1_0000_0000
  {
    Pow2Large(16);
    Pow2Add(s, 32 - s);
  }

  lemma {:induction false} TailIsQuotient(a: seq<Word>, k: nat)
    requires k <= |a| == 8
    ensures Val8(a) / Pow2(32 * k) == Tail(a, k)
  {
    TailStart(a);
    if k == 0 {
    } else {
      TailIsQuotient(a, k - 1);
      hide Val8;
      WordPower(0);
      Pow2Add(32 * (k - 1), 32);
      SplitThree(Val8Nat(a), Pow2(32 * (k - 1)), Pow2(32));
      assert 32 * k == 32 * (k - 1) + 32;
      DivModUnique(Tail(a, k - 1), 0x1_0000_0000, Tail(a, k), a[k - 1]);
    }
  }

  function Val8Nat(a: seq<Word>): (v: nat)
    requires |a| == 8
    ensures v < TWO_256
  {
    Val8Bound(a);
    Val8(a)
  }

  lemma DivShift(w: nat, p: nat, m: int)
    requires p > 0
    ensures (w + p * m) / p == w / p + m
  {
    var q, r := w / p, w % p;
    assert w == q * p + r;
    assert w + p * m == (q + m) * p + r;
    DivModUnique(w + p * m, p, q + m, r);
  }

  lemma ModShift(x: int, q: nat, m: int)
    requires q > 0
    ensures (x + q * m) % q == x % q
  {
    MultipleCongruent(x + q * m, x, q, m);
    CongruentModEqual(x + q * m, x, q);
  }

  /** A window that starts in limb k at bit s, read from the number. */
  lemma WindowAt(a: seq<Word>, k: nat, s: nat, count: nat)
    requires k < |a| == 8
    ensures Bits(Val8Nat(a), 32 * k + s, count) == Bits(Tail(a, k), s, count)
  {
    hide Val8;
    Pow2Add(32 * k, s);
    SplitThree(Val8Nat(a), Pow2(32 * k), Pow2(s));
    TailIsQuotient(a, k);
  }

  lemma OneWord(w: nat, t: nat, s: nat, count: nat)
    requires s + count <= 32
    ensures Bits(w + 0x1_0000_0000 * t, s, count) == Bits(w, s, count)
  {
    var p, q, u := Pow2(s), Pow2(count), Pow2(32 - s - count);
    WordPower(s);
    Pow2Add(count, 32 - s - count);
    assert 0x1_0000_0000 * t == p * (q * u * t) by {
      assert 0x1_0000_0000 == p * (q * u);
      MulAssoc(p, q * u, t);
    }
    DivShift(w, p, q * u * t);
    MulAssoc(q, u, t);
    ModShift(w / p, q, u * t);
  }

  lemma TwoWords(w: nat, w1: nat, t: nat, s: nat, count: nat)
    requires s <= 32 && count <= 32
    ensures Bits(w + 0x1_0000_0000 * (w1 + 0x1_0000_0000 * t), s, count)
         == (w / Pow2(s) + (w1 * Pow2(32 - s)) % 0x1_0000_0000) % Pow2(count)
  {
    hide Pow2;
    WordPower(s);
    WordPower(count);
    TwoWordsParts(w, w1, t, Pow2(s), Pow2(32 - s), Pow2(count), Pow2(32 - count));
  }

  /** The same with word size p * u == q * v. */
  lemma TwoWordsParts(w: nat, w1: nat, t: nat, p: nat, u: nat, q: nat, v: nat)
    requires p > 0 && q > 0 && p * u == 0x1_0000_0000 == q * v
    ensures ((w + 0x1_0000_0000 * (w1 + 0x1_0000_0000 * t)) / p) % q == (w / p + (w1 * u) % 0x1_0000_0000) % q
  {
    var h := w1 + 0x1_0000_0000 * t;
    MulAssoc(p, u, h);
    DivShift(w, p, u * h);
    UpperWord(w1, t, u);
    var m := (w1 * u) / 0x1_0000_0000 + u * t;
    MulAssoc(q, v, m);
    ModShift(w / p + (w1 * u) % 0x1_0000_0000, q, v * m);
  }

  lemma UpperWord(w1: nat, t: nat, u: nat)
    ensures u * (w1 + 0x1_0000_0000 * t)
         == (w1 * u) % 0x1_0000_0000 + 0x1_0000_0000 * ((w1 * u) / 0x1_0000_0000 + u * t)
  {
    MulAssoc(u, 0x1_0000_0000, t);
    MulAssoc(0x1_0000_0000, u, t);
  }

  /** Bitwise or of two words without a common bit: the low part stays below p and the high part is a multiple. */
  function Or(low: nat, high: nat, p: nat): nat
    requires p > 0 && low < p && high % p == 0
  {
    low + high
  }

  lemma ShiftAndMask(w: nat, s: nat, count: nat)
    ensures Bits(w, s, count) == (w / Pow2(s)) % Pow2(count)
  {
  }

  lemma InsideOne(offset: nat, count: nat)
    requires offset < 256 && (offset + count - 1) / 32 == offset / 32
    ensures offset / 32 < 8 && offset % 32 + count <= 32 && offset == 32 * (offset / 32) + offset % 32
  {
  }

  /** The bits of a window inside one limb; an empty window has none. */
  method GetBits(a: seq<Word>, offset: nat, count: nat) returns (b: nat)
    requires |a| == 8 && offset < 256 && offset + count <= 256 && (offset + count - 1) / 32 == offset / 32
    ensures b == Bits(Val8Nat(a), offset, count)
  {
    hide Val8, Pow2, Bits;
    InsideOne(offset, count);
    var k, s := offset / 32, offset % 32;
    b := (a[k] / Pow2(s)) % Pow2(count);
    ShiftAndMask(a[k], s, count);
    WindowAt(a, k, s, count);
    OneWord(a[k], Tail(a, k + 1), s, count);
  }

  /** The bits of any window of at most 31 bits, which may straddle two limbs. */
  method GetBitsVar(a: seq<Word>, offset: nat, count: nat) returns (b: nat)
    requires |a| == 8 && offset < 256 && count < 32 && offset + count <= 256 && (count == 0 ==> offset % 32 != 0)
    ensures b == Bits(Val8Nat(a), offset, count)
  {
    hide Val8, Pow2;
    if (offset + count - 1) / 32 == offset / 32 {
      b := GetBits(a, offset, count);
    } else {
      b := GetStraddling(a, offset, count);
    }
  }

  method GetStraddling(a: seq<Word>, offset: nat, count: nat) returns (b: nat)
    requires |a| == 8 && 1 <= count < 32 && offset + count <= 256 && (offset + count - 1) / 32 != offset / 32
    ensures b == Bits(Val8Nat(a), offset, count)
  {
    hide Val8, Pow2;
    var k, s := offset / 32, offset % 32;
    ShiftedParts(a[k], a[k + 1], s);
    b := Or(a[k] / Pow2(s), (a[k + 1] * Pow2(32 - s)) % 0x1_0000_0000, Pow2(32 - s)) % Pow2(count);
    WindowAt(a, k, s, count);
    TwoWords(a[k], a[k + 1], Tail(a, k + 2), s, count);
    assert Tail(a, k) == a[k] + 0x1_0000_0000 * (a[k + 1] + 0x1_0000_0000 * Tail(a, k + 2));
  }

  /** A word shifted down and its upper neighbour shifted up have no bit in common. */
  lemma ShiftedParts(lo: Word, hi: Word, s: nat)
    requires s <= 32
    ensures 0 <= lo / Pow2(s) < Pow2(32 - s)
    ensures (hi * Pow2(32 - s)) % 0x1_0000_0000 == (hi % Pow2(s)) * Pow2(32 - s)
    ensures ((hi * Pow2(32 - s)) % 0x1_0000_0000) % Pow2(32 - s) == 0
  {
    hide Pow2;
    WordPower(s);
    PartsOf(lo, hi, Pow2(s), Pow2(32 - s));
  }

  lemma PartsOf(lo: Word, hi: Word, p: nat, u: nat)
    requires p > 0 && u > 0 && p * u == 0x1_0000_0000
    ensures 0 <= lo / p < u
    ensures (hi * u) % 0x1_0000_0000 == (hi % p) * u
    ensures ((hi * u) % 0x1_0000_0000) % u == 0
  {
    DivNonNeg(lo, p);
    if lo / p >= u {
      MulMono(u, lo / p, p);
      assert false;
    }
    var q, r := hi / p, hi % p;
    MulAssoc(q, p, u);
    assert hi * u == q * 0x1_0000_0000 + r * u;
    MulMono(r, p - 1, u);
    MulMono(0, r, u);
    DivModUnique(hi * u, 0x1_0000_0000, q, r * u);
    DivModUnique(r * u, u, r, 0);
  }

  function Rem(x: nat, p: nat): (m: nat)
    requires p > 0
    ensures m < p
  {
    x % p
  }

  lemma RemZero(p: nat)
    requires p > 0
    ensures Rem(0, p) == 0
  {
    DivModUnique(0, p, 0, 0);
  }

  /** One limb of a right shift: its own bits moved down, the neighbour's low bits above them. */
  function ShiftIn(lo: Word, hi: Word, n: nat): (w: Word)
    requires n <= 32
    ensures Prod(Pow2(n), w) == lo - Rem(lo, Pow2(n)) + 0x1_0000_0000 * Rem(hi, Pow2(n))
  {
    ShiftedParts(lo, hi, n);
    ShiftInBound(lo / Pow2(n), hi, n);
    ShiftInScaled(lo, hi, n);
    lo / Pow2(n) + (hi * Pow2(32 - n)) % 0x1_0000_0000
  }

  lemma ShiftInBound(low: nat, hi: Word, n: nat)
    requires n <= 32 && low < Pow2(32 - n)
    ensures low + (hi % Pow2(n)) * Pow2(32 - n) < 0x1_0000_0000
  {
    hide Pow2;
    WordPower(n);
    MulMono(hi % Pow2(n), Pow2(n) - 1, Pow2(32 - n));
  }

  lemma ShiftInScaled(lo: Word, hi: Word, n: nat)
    requires n <= 32
    ensures Prod(Pow2(n), lo / Pow2(n) + (hi % Pow2(n)) * Pow2(32 - n))
         == lo - lo % Pow2(n) + 0x1_0000_0000 * (hi % Pow2(n))
  {
    hide Pow2;
    WordPower(n);
    ScaledParts(lo, hi % Pow2(n), Pow2(n), Pow2(32 - n));
  }

  lemma ScaledParts(lo: Word, h: nat, p: nat, u: nat)
    requires p > 0 && p * u == 0x1_0000_0000
    ensures Prod(p, lo / p + h * u) == lo - lo % p + 0x1_0000_0000 * h
  {
    MulAssoc(p, h, u);
    MulAssoc(h, p, u);
    assert p * (h * u) == h * 0x1_0000_0000;
    assert p * (lo / p + h * u) == p * (lo / p) + p * (h * u);
  }

  /** Shifts right in place and returns the bits that fall off. */
  method ShrInt(r: array<Word>, n: nat) returns (low: nat)
    requires r.Length == 8 && 0 < n < 16
    modifies r
    ensures Val8Nat(r[..]) == Val8Nat(old(r[..])) / Pow2(n)
    ensures low == Val8Nat(old(r[..])) % Pow2(n)
  {
    hide Pow2, Val8, ShiftIn;
    ghost var a := r[..];
    low := r[0] % Pow2(n);
    r[0] := ShiftIn(r[0], r[1], n);
    r[1] := ShiftIn(r[1], r[2], n);
    r[2] := ShiftIn(r[2], r[3], n);
    r[3] := ShiftIn(r[3], r[4], n);
    r[4] := ShiftIn(r[4], r[5], n);
    r[5] := ShiftIn(r[5], r[6], n);
    r[6] := ShiftIn(r[6], r[7], n);
    r[7] := ShiftIn(r[7], 0, n);
    Shifted(a, r[..], n);
  }

  lemma Shifted(a: seq<Word>, d: seq<Word>, n: nat)
    requires |a| == 8 && |d| == 8 && n <= 32
    requires forall i :: 0 <= i < 7 ==> d[i] == ShiftIn(a[i], a[i + 1], n)
    requires d[7] == ShiftIn(a[7], 0, n)
    ensures Val8Nat(d) == Val8Nat(a) / Pow2(n) && a[0] % Pow2(n) == Val8Nat(a) % Pow2(n)
  {
    hide Prod, ShiftIn, Pow2;
    var p := Pow2(n);
    ShiftedScaled(a, d, n);
    hide Val8;
    QuotientOf(Val8(a), p, Val8(d), Rem(a[0], p));
  }

  lemma ShiftedScaled(a: seq<Word>, d: seq<Word>, n: nat)
    requires |a| == 8 && |d| == 8 && n <= 32
    requires forall i :: 0 <= i < 7 ==> d[i] == ShiftIn(a[i], a[i + 1], n)
    requires d[7] == ShiftIn(a[7], 0, n)
    ensures Prod(Pow2(n), Val8(d)) == Val8(a) - Rem(a[0], Pow2(n))
  {
    hide Prod, ShiftIn, Pow2, Rem, Join;
    var p := Pow2(n);
    RemZero(p);
    Distribute8(p, d);
    var x := [Prod(p, d[0]), Prod(p, d[1]), Prod(p, d[2]), Prod(p, d[3]), Prod(p, d[4]), Prod(p, d[5]), Prod(p, d[6]), Prod(p, d[7])];
    var m := [Rem(a[0], p), Rem(a[1], p), Rem(a[2], p), Rem(a[3], p), Rem(a[4], p), Rem(a[5], p), Rem(a[6], p), Rem(a[7], p)];
    ShiftedSum(a, x, m);
  }

  lemma QuotientOf(v: int, p: nat, d: int, m: int)
    requires p > 0 && 0 <= m < p && Prod(p, d) == v - m
    ensures d == v / p && m == v % p
  {
    DivModUnique(v, p, d, m);
  }

  /** The bits moved down by one limb are those missing from the limb below. */
  lemma ShiftedSum(a: seq<int>, x: seq<int>, m: seq<int>)
    requires |a| == 8 && |x| == 8 && |m| == 8
    requires x[0] == a[0] - m[0] + 0x1_0000_0000 * m[1]
    requires x[1] == a[1] - m[1] + 0x1_0000_0000 * m[2]
    requires x[2] == a[2] - m[2] + 0x1_0000_0000 * m[3]
    requires x[3] == a[3] - m[3] + 0x1_0000_0000 * m[4]
    requires x[4] == a[4] - m[4] + 0x1_0000_0000 * m[5]
    requires x[5] == a[5] - m[5] + 0x1_0000_0000 * m[6]
    requires x[6] == a[6] - m[6] + 0x1_0000_0000 * m[7]
    requires x[7] == a[7] - m[7]
    ensures Val8(x) == Val8(a) - m[0]
  {
  }

  // ----- adding one bit

  /** A single bit placed in its limb; nothing for a position above the top. */
  function BitLimb(bit: nat, i: nat): Word {
    BitFits(bit % 32);
    if bit / 32 == i then Pow2(bit % 32) else 0
  }

  lemma BitFits(j: nat)
    requires j < 32
    ensures Pow2(j) < 0x1_0000_0000
  {
    WordPower(0);
    Pow2Mono(j, 32);
  }

  /** 2^(32 k). */
  function Weight(k: nat): (w: nat)
    requires k < 8
    ensures w == Pow2(32 * k)
  {
    WordPowers(k);
    match k
    case 0 => 1
    case 1 => 0x1_0000_0000
    case 2 => 0x1_0000_0000_0000_0000
    case 3 => 0x1_0000_0000_0000_0000_0000_0000
    case 4 => 0x1_0000_0000_0000_0000_0000_0000_0000_0000
    case 5 => 0x1_0000_0000_0000_0000_0000_0000_0000_0000_0000_0000
    case 6 => 0x1_0000_0000_0000_0000_0000_0000_0000_0000_0000_0000_0000_0000
    case 7 => 0x1_0000_0000_0000_0000_0000_0000_0000_0000_0000_0000_0000_0000_0000_0000
  }

  lemma WordPowers(k: nat)
    requires k < 8
    ensures Pow2(32 * k) == (match k
                             case 0 => 1
                             case 1 => 0x1_0000_0000
                             case 2 => 0x1_0000_0000_0000_0000
                             case 3 => 0x1_0000_0000_0000_0000_0000_0000
                             case 4 => 0x1_0000_0000_0000_0000_0000_0000_0000_0000
                             case 5 => 0x1_0000_0000_0000_0000_0000_0000_0000_0000_0000_0000
                             case 6 => 0x1_0000_0000_0000_0000_0000_0000_0000_0000_0000_0000_0000_0000
                             case 7 => 0x1_0000_0000_0000_0000_0000_0000_0000_0000_0000_0000_0000_0000_0000_0000)
  {
    if k > 0 {
      WordPowers(k - 1);
      WordPower(0);
      Pow2Add(32, 32 * (k - 1));
      assert 32 * k == 32 + 32 * (k - 1);
      hide Pow2;
    }
  }

  lemma OneLimb(k: nat, p: int, x: seq<int>)
    requires k < 8 && |x| == 8 && forall i :: 0 <= i < 8 ==> x[i] == if i == k then p else 0
    ensures Val8(x) == Weight(k) * p
  {
    hide Pow2;
  }

  lemma BitValue(bit: nat, x: seq<Word>)
    requires |x| == 8 && forall i :: 0 <= i < 8 ==> x[i] == BitLimb(bit, i)
    ensures Val8(x) == if bit < 256 then Pow2(bit) else 0
  {
    hide Pow2, Weight;
    var k, j := bit / 32, bit % 32;
    if bit < 256 {
      Pow2Add(32 * k, j);
      OneLimb(k, Pow2(j), x);
    }
  }

  /** Adds 2^bit if flag is set; the sum must still fit. */
  method CaddBit(r: array<Word>, bit: nat, flag: bool)
    requires r.Length == 8 && bit < 256
    requires flag ==> Val8(r[..]) + Pow2(bit) < TWO_256
    modifies r
    ensures Val8(r[..]) == Val8(old(r[..])) + if flag then Pow2(bit) else 0
  {
    hide Val8, Pow2, Sums, BitLimb;
    var position := bit + if flag then 0 else 0x100;
    var x := [BitLimb(position, 0), BitLimb(position, 1), BitLimb(position, 2), BitLimb(position, 3),
              BitLimb(position, 4), BitLimb(position, 5), BitLimb(position, 6), BitLimb(position, 7)];
    BitValue(position, x);
    Val8Bound(r[..]);
    SumLimbs(r[..], x);
    var d, t := CarryChain(Sums(r[..], x));
    Val8Bound(d);
    WriteLimbs(r, d);
  }
}
