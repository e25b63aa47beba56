/** Fixed-window signed recodings: every digit odd, one digit per window of w bits. */
module WnafFixed {
  import opened Arith
  import opened Scalars
  import opened Wnaf

  /** Number of windows of w bits that cover a scalar. */
  function WnafSize(w: nat): (n: nat)
    requires w > 0
    ensures n > 0 && (n - 1) * w < SCALAR_BITS <= n * w
  {
    var n := (SCALAR_BITS + w - 1) / w;
    assert n * w + (SCALAR_BITS + w - 1) % w == SCALAR_BITS + w - 1;
    assert (n - 1) * w == n * w - w;
    SizePositive(n, w);
    n
  }

  lemma SizePositive(n: int, w: nat)
    requires n * w >= 1 && w > 0
    ensures n > 0
  {
    if n <= 0 {
      MulMono(n, 0, w);
    }
  }

  lemma SizeUnique(w: nat, n: nat)
    requires w > 0 && n > 0 && (n - 1) * w < SCALAR_BITS <= n * w
    ensures n == WnafSize(w)
  {
    var m := WnafSize(w);
    if n < m {
      MulMono(n, m - 1, w);
    } else if m < n {
      MulMono(m, n - 1, w);
    }
  }

  /** x ^ sign in two's complement, for sign 0 or -1. */
  function XorSign(x: int, sign: int): int
  {
    if sign == 0 then x else -x - 1
  }

  ghost predicate OddDigit(d: int, w: nat) {
    d % 2 == 1 && Abs(d) < Pow2(w)
  }

  ghost predicate AllOdd(ds: seq<int>, w: nat) {
    forall i :: 0 <= i < |ds| ==> OddDigit(ds[i], w)
  }

  /** ds recodes the low covered bits of work, up to sign; the newest digit is still unborrowed. */
  ghost predicate FixedPartial(ds: seq<int>, work: nat, covered: nat, sgn: int, w: nat) {
    && |ds| > 0 && (sgn == 1 || sgn == -1)
    && Value(ds, w) == sgn * (work % Pow2(covered))
    && AllOdd(ds, w)
    && sgn * ds[|ds| - 1] > 0
  }

  lemma FirstDigit(work: nat, sgn: int, w: nat)
    requires w > 0 && work % 2 == 1 && (sgn == 1 || sgn == -1)
    ensures FixedPartial([sgn * Bits(work, 0, w)], work, w, sgn, w)
  {
    var b := Bits(work, 0, w);
    BottomBit(work, 0, w);
    BottomBit(work, 0, 1);
    LowBitsExtend(work, 0, w);
    LowBitsExtend(work, 0, 1);
    assert Pow2(0) == 1 && Pow2(1) == 2;
    DivModUnique(work, 1, work, 0);
    assert b % 2 == 1;
    OddScaled(b, sgn, Pow2(w));
    assert Value([sgn * b], w) == sgn * b + Pow2(w) * Value([], w);
  }

  lemma OddScaled(b: nat, sgn: int, p: nat)
    requires b % 2 == 1 && b < p && (sgn == 1 || sgn == -1)
    ensures (sgn * b) % 2 == 1 && Abs(sgn * b) < p && sgn * (sgn * b) > 0
  {
  }

  /** An odd window is appended as it stands. */
  lemma NextOdd(ds: seq<int>, work: nat, covered: nat, sgn: int, w: nat, now: nat, val: nat)
    requires w > 0 && FixedPartial(ds, work, covered, sgn, w)
    requires covered == w * |ds| && now <= w && val == Bits(work, covered, now) && val % 2 == 1
    ensures FixedPartial(ds + [sgn * val], work, covered + now, sgn, w)
  {
    LowBitsExtend(work, covered, now);
    Pow2Mono(now, w);
    ValueAppend(ds, w, sgn * val);
    OddScaled(val, sgn, Pow2(w));
    SignedTerm(sgn, work % Pow2(covered), val, Pow2(covered));
  }

  lemma SignedTerm(sgn: int, lo: int, val: int, p: int)
    ensures sgn * lo + (sgn * val) * p == sgn * (lo + p * val)
  {
    MulAssoc(sgn, val, p);
  }

  /** An even window becomes odd by borrowing 2^w from the digit below. */
  lemma NextEven(ds: seq<int>, work: nat, covered: nat, sgn: int, w: nat, now: nat, val: nat)
    requires w > 0 && FixedPartial(ds, work, covered, sgn, w)
    requires covered == w * |ds| && 0 < now <= w && val == Bits(work, covered, now) && val % 2 == 0
    ensures FixedPartial(ds[|ds| - 1 := ds[|ds| - 1] - sgn * Pow2(w)] + [sgn * (val + 1)], work, covered + now, sgn, w)
  {
    hide Value, Bits, Pow2;
    var n := |ds| - 1;
    EvenValue(ds, work, covered, sgn, w, now, val);
    LowBitsExtend(work, covered, now);
    Pow2Mono(now, w);
    Pow2Even(w);
    Pow2Even(now);
    OddScaled(val + 1, sgn, Pow2(w));
    assert OddDigit(ds[n], w);
    BorrowDigit(ds[n], sgn, Pow2(w));
    AllOddChange(ds, w, ds[n] - sgn * Pow2(w), sgn * (val + 1));
  }

  lemma EvenValue(ds: seq<int>, work: nat, covered: nat, sgn: int, w: nat, now: nat, val: nat)
    requires |ds| > 0 && Value(ds, w) == sgn * (work % Pow2(covered))
    requires covered == w * |ds| && val == Bits(work, covered, now)
    ensures Value(ds[|ds| - 1 := ds[|ds| - 1] - sgn * Pow2(w)] + [sgn * (val + 1)], w)
         == sgn * (work % Pow2(covered + now))
  {
    hide Value, Bits, Pow2;
    var n := |ds| - 1;
    LowBitsExtend(work, covered, now);
    ValueUpdate(ds, w, n, ds[n] - sgn * Pow2(w));
    ValueAppend(ds[n := ds[n] - sgn * Pow2(w)], w, sgn * (val + 1));
    var wn := w * n;
    assert w + wn == covered;
    Pow2Add(w, wn);
    BorrowSum(sgn, work % Pow2(covered), val, Pow2(w), Pow2(wn), Pow2(covered));
  }

  lemma AllOddChange(ds: seq<int>, w: nat, d: int, e: int)
    requires |ds| > 0 && AllOdd(ds, w) && OddDigit(d, w) && OddDigit(e, w)
    ensures AllOdd(ds[|ds| - 1 := d] + [e], w)
  {
  }

  lemma BorrowDigit(d: int, sgn: int, p: nat)
    requires d % 2 == 1 && Abs(d) < p && sgn * d > 0 && (sgn == 1 || sgn == -1) && p % 2 == 0
    ensures (d - sgn * p) % 2 == 1 && Abs(d - sgn * p) < p
  {
  }

  lemma BorrowSum(sgn: int, lo: int, val: int, p: int, q: int, pq: int)
    requires pq == p * q
    ensures sgn * lo + (-(sgn * p)) * q + sgn * (val + 1) * pq == sgn * (lo + pq * val)
  {
    MulAssoc(-sgn, p, q);
    MulAssoc(sgn, val + 1, pq);
    assert sgn * (lo + pq * val) == sgn * lo + sgn * (val * pq);
    assert sgn * ((val + 1) * pq) == sgn * (val * pq) + sgn * pq;
  }

  function SignOf(sign: int): int { if sign == 0 then 1 else -1 }

  /** The same step in the two's-complement form in which the digits are written. */
  lemma WriteNext(ds: seq<int>, work: nat, covered: nat, sign: int, w: nat, now: nat, val: nat)
    requires w > 0 && (sign == 0 || sign == -1) && FixedPartial(ds, work, covered, SignOf(sign), w)
    requires covered == w * |ds| && 0 < now <= w && val == Bits(work, covered, now)
    ensures val % 2 == 0 ==>
      FixedPartial(ds[|ds| - 1 := ds[|ds| - 1] - XorSign(Pow2(w) + sign, sign)] + [XorSign(val + 1 + sign, sign)],
                   work, covered + now, SignOf(sign), w)
    ensures val % 2 == 1 ==>
      FixedPartial(ds + [XorSign(val + sign, sign)], work, covered + now, SignOf(sign), w)
  {
    hide FixedPartial, Bits, Pow2;
    if val % 2 == 0 {
      NextEven(ds, work, covered, SignOf(sign), w, now, val);
    } else {
      NextOdd(ds, work, covered, SignOf(sign), w, now, val);
    }
  }

  /** Number of scalar bits that the first pos windows cover. */
  ghost function Covered(pos: nat, w: nat): nat {
    if pos * w > SCALAR_BITS then SCALAR_BITS else pos * w
  }

  lemma CoverStep(pos: nat, w: nat, covered: nat, now: nat)
    requires covered == pos * w < SCALAR_BITS
    requires now == if w + covered > SCALAR_BITS then SCALAR_BITS - covered else w
    ensures covered == w * pos && Covered(pos, w) == covered && Covered(pos + 1, w) == covered + now
  {
    assert (pos + 1) * w == covered + w;
  }

  /** The branch for the zero scalar: it starts at digit 1. */
  method ClearUpper(wnaf: array<int>, off: nat, w: nat)
    requires 1 <= w && off + WnafSize(w) <= wnaf.Length
    modifies wnaf
    ensures forall i :: off < i < off + WnafSize(w) ==> wnaf[i] == 0
    ensures forall i :: 0 <= i < wnaf.Length && !(off < i < off + WnafSize(w)) ==> wnaf[i] == old(wnaf[i])
  {
    var pos := 1;
    ghost var size := WnafSize(w);
    hide WnafSize;
    while pos * w < SCALAR_BITS
      invariant 1 <= pos <= size
      invariant forall i :: off < i < off + pos ==> wnaf[i] == 0
      invariant forall i :: 0 <= i < wnaf.Length && !(off < i < off + pos) ==> wnaf[i] == old(wnaf[i])
      decreases size - pos
    {
      StillInside(pos, w);
      wnaf[off + pos] := 0;
      pos := pos + 1;
    }
    AllCovered(pos, w);
  }

  lemma ValueSingle(ds: seq<int>, w: nat)
    requires |ds| > 0 && forall i :: 1 <= i < |ds| ==> ds[i] == 0
    ensures Value(ds, w) == ds[0]
  {
    ValueZero(ds[1..], w);
  }

  /** The loop over the windows of an odd scalar; sign is 0 or -1 and is applied to every digit. */
  method RecodeWindows(wnaf: array<int>, off: nat, work: nat, sign: int, w: nat)
    requires 1 <= w <= 30 && off + WnafSize(w) <= wnaf.Length
    requires work < N && work % 2 == 1 && (sign == 0 || sign == -1)
    modifies wnaf
    ensures Value(wnaf[off..off + WnafSize(w)], w) == SignOf(sign) * work
    ensures AllOdd(wnaf[off..off + WnafSize(w)], w)
    ensures forall i :: 0 <= i < wnaf.Length && !(off <= i < off + WnafSize(w)) ==> wnaf[i] == old(wnaf[i])
  {
    hide Value, Bits, Pow2, FixedPartial, WnafSize, Covered, AllOdd;
    ghost var size := WnafSize(w);
    var pos := 1;
    wnaf[off] := XorSign(Bits(work, 0, w) + sign, sign);
    ghost var ds := [wnaf[off]];
    FirstDigit(work, SignOf(sign), w);
    CoverStep(0, w, 0, w);
    hide XorSign, SignOf;

    while pos * w < SCALAR_BITS
      invariant 1 <= pos <= size && |ds| == pos
      invariant forall i :: 0 <= i < |ds| ==> ds[i] == wnaf[off + i]
      invariant FixedPartial(ds, work, Covered(pos, w), SignOf(sign), w)
      invariant forall i :: 0 <= i < wnaf.Length && !(off <= i < off + pos) ==> wnaf[i] == old(wnaf[i])
      decreases size - pos
    {
      StillInside(pos, w);
      ghost var covered := pos * w;
      var now := w;
      if now + pos * w > SCALAR_BITS {
        now := SCALAR_BITS - pos * w;
      }
      CoverStep(pos, w, covered, now);
      var val := Bits(work, pos * w, now);
      WriteNext(ds, work, covered, sign, w, now, val);
      if val % 2 == 0 {
        wnaf[off + pos - 1] := wnaf[off + pos - 1] - XorSign(Pow2(w) + sign, sign);
        wnaf[off + pos] := XorSign(val + 1 + sign, sign);
        ds := ds[pos - 1 := wnaf[off + pos - 1]] + [wnaf[off + pos]];
      } else {
        wnaf[off + pos] := XorSign(val + sign, sign);
        ds := ds + [wnaf[off + pos]];
      }
      pos := pos + 1;
    }
    AllCovered(pos, w);
    FixedDone(ds, work, SignOf(sign), w, pos);
    assert wnaf[off..off + size] == ds;
  }

  /** Recodes s into WnafSize(w) digits at wnaf[off..]. The zero scalar leaves the first digit unwritten,
      so its recoding is right exactly when that digit already stood for zero. */
  method RecodeFixed(wnaf: array<int>, off: nat, s: Scalar, w: nat) returns (skew: int)
    requires 1 <= w <= 30
    requires off + WnafSize(w) <= wnaf.Length
    modifies wnaf
    ensures skew == 0
    ensures s != 0 ==> Value(wnaf[off..off + WnafSize(w)], w) == if IsEven(s) then s - N else s
    ensures s != 0 ==> AllOdd(wnaf[off..off + WnafSize(w)], w)
    ensures s == 0 ==> Value(wnaf[off..off + WnafSize(w)], w) == wnaf[off] == old(wnaf[off])
    ensures s == 0 ==> forall i :: off < i < off + WnafSize(w) ==> wnaf[i] == 0
    ensures Congruent(Value(wnaf[off..off + WnafSize(w)], w), s, N) <==> s != 0 || Congruent(old(wnaf[off]), 0, N)
    ensures forall i :: 0 <= i < wnaf.Length && !(off <= i < off + WnafSize(w)) ==> wnaf[i] == old(wnaf[i])
  {
    hide Value, WnafSize, AllOdd;
    skew := 0;
    if s == 0 {
      ClearUpper(wnaf, off, w);
      ValueSingle(wnaf[off..off + WnafSize(w)], w);
      return;
    }
    var sign: int := 0;
    var work: nat := s;
    if IsEven(s) {
      work := Negate(s);
      sign := -1;
    }
    RecodeWindows(wnaf, off, work, sign, w);
    MultipleCongruent(if IsEven(s) then s - N else s, s, N, if IsEven(s) then -1 else 0);
  }

  lemma FixedDone(ds: seq<int>, work: nat, sgn: int, w: nat, pos: nat)
    requires pos * w >= SCALAR_BITS && FixedPartial(ds, work, Covered(pos, w), sgn, w) && work < N
    ensures Value(ds, w) == sgn * work && AllOdd(ds, w)
  {
    OrderSize();
    LowBitsWhole(work, SCALAR_BITS);
  }

  lemma StillInside(pos: nat, w: nat)
    requires w > 0 && pos * w < SCALAR_BITS
    ensures pos < WnafSize(w)
  {
    if pos >= WnafSize(w) {
      MulMono(WnafSize(w), pos, w);
    }
  }

  lemma AllCovered(pos: nat, w: nat)
    requires w > 0 && pos <= WnafSize(w) && pos * w >= SCALAR_BITS
    ensures pos == WnafSize(w)
  {
    if pos < WnafSize(w) {
      MulMono(pos, WnafSize(w) - 1, w);
    }
  }
}
