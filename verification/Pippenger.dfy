/** Bucket-method multi-scalar multiplication. */
module Pippenger {
  import opened Arith
  import opened Scalars
  import opened Groups
  import opened Wnaf
  import opened WnafFixed

  // ----- buckets

  /** m bs[0] + (m + 2) bs[1] + (m + 4) bs[2] + ... */
  ghost function BucketSum<P>(g: Group<P>, bs: seq<P>, m: int): P {
    if |bs| == 0 then g.zero else g.add(Mul(g, m, bs[0]), BucketSum(g, bs[1..], m + 2))
  }

  /** bs[0] + bs[1] + ... */
  ghost function Total<P>(g: Group<P>, bs: seq<P>): P {
    if |bs| == 0 then g.zero else g.add(Total(g, bs[1..]), bs[0])
  }

  /** The sum of the running totals of all suffixes: bs[0] + 2 bs[1] + 3 bs[2] + ... */
  ghost function Staircase<P>(g: Group<P>, bs: seq<P>): P {
    if |bs| == 0 then g.zero else g.add(Staircase(g, bs[1..]), Total(g, bs))
  }

  lemma {:induction false} BucketAdd<P(!new)>(g: Group<P>, bs: seq<P>, m: int, i: nat, q: P)
    requires IsGroup(g) && i < |bs|
    ensures BucketSum(g, bs[i := g.add(bs[i], q)], m) == g.add(BucketSum(g, bs, m), Mul(g, m + 2 * i, q))
  {
    var bs' := bs[i := g.add(bs[i], q)];
    var rest := BucketSum(g, bs[1..], m + 2);
    if i == 0 {
      assert bs'[1..] == bs[1..];
      MulPoint(g, m, bs[0], q);
      Swap3(g, Mul(g, m, bs[0]), Mul(g, m, q), rest);
    } else {
      assert bs'[1..] == bs[1..][i - 1 := g.add(bs[1..][i - 1], q)];
      BucketAdd(g, bs[1..], m + 2, i - 1, q);
      Assoc(g, Mul(g, m, bs[0]), rest, Mul(g, m + 2 * i, q));
    }
  }

  lemma {:induction false} BucketsEmpty<P(!new)>(g: Group<P>, bs: seq<P>, m: int)
    requires IsGroup(g) && forall i :: 0 <= i < |bs| ==> bs[i] == g.zero
    ensures BucketSum(g, bs, m) == g.zero
  {
    if |bs| != 0 {
      BucketsEmpty(g, bs[1..], m + 2);
      MulPoint(g, m, bs[0], bs[0]);
      Unit(g, g.zero);
    }
  }

  lemma {:induction false} BucketShift<P(!new)>(g: Group<P>, bs: seq<P>, m: int)
    requires IsGroup(g)
    ensures BucketSum(g, bs, m + 2) == g.add(BucketSum(g, bs, m), g.add(Total(g, bs), Total(g, bs)))
  {
    if |bs| == 0 {
      Unit(g, g.zero);
    } else {
      var b, t, s := bs[0], Total(g, bs[1..]), BucketSum(g, bs[1..], m + 2);
      BucketShift(g, bs[1..], m + 2);
      MulAdd(g, m, 2, b);
      MulSucc(g, 1, b);
      Swap4(g, Mul(g, m, b), g.add(b, b), s, g.add(t, t));
      Swap4(g, b, b, t, t);
      Comm(g, b, t);
    }
  }

  /** The running-sum sweep weighs bucket j by 2 j + 1. */
  lemma {:induction false} SweepTotal<P(!new)>(g: Group<P>, bs: seq<P>)
    requires IsGroup(g) && |bs| > 0
    ensures BucketSum(g, bs, 1)
         == g.add(g.add(Staircase(g, bs[1..]), Staircase(g, bs[1..])), Total(g, bs))
  {
    var b, rest := bs[0], bs[1..];
    MulSucc(g, 0, b);
    BucketShift(g, rest, 1);
    Unit(g, g.zero);
    Unit(g, b);
    if |rest| > 0 {
      SweepTotal(g, rest);
      var s, t := Staircase(g, rest[1..]), Total(g, rest);
      assert BucketSum(g, bs, 1) == g.add(b, g.add(g.add(g.add(s, s), t), g.add(t, t)));
      SweepRearrange(g, b, s, t);
      assert Staircase(g, rest) == g.add(s, t);
    }
  }

  /** b + (2 s + t + 2 t) == 2 (s + t) + (t + b). */
  lemma SweepRearrange<P(!new)>(g: Group<P>, b: P, s: P, t: P)
    requires IsGroup(g)
    ensures g.add(b, g.add(g.add(g.add(s, s), t), g.add(t, t)))
         == g.add(g.add(g.add(s, t), g.add(s, t)), g.add(t, b))
  {
    var ss, tt := g.add(s, s), g.add(t, t);
    Swap3(g, ss, t, tt);
    Swap4(g, s, t, s, t);
    assert g.add(g.add(s, t), g.add(s, t)) == g.add(ss, tt);
    Comm(g, b, g.add(g.add(ss, tt), t));
    Assoc(g, g.add(ss, tt), t, b);
  }

  // ----- one window

  method FillBuckets<P(!new)>(g: Group<P>, buckets: array<P>, bw: nat, wnafNa: seq<int>, nWnaf: nat, i: nat,
                              inputPos: seq<nat>, pt: seq<P>, ghost ds: seq<int>, ghost pts: seq<P>)
    requires IsGroup(g) && buckets.Length >= Pow2(bw) && |ds| == |pts| == |inputPos| && i < nWnaf
    requires |inputPos| * nWnaf <= |wnafNa|
    requires forall k :: 0 <= k < |ds| ==> inputPos[k] < |pt| && pts[k] == pt[inputPos[k]] && OddDigit(ds[k], bw + 1)
    requires forall k :: 0 <= k < |ds| ==>
      k * nWnaf + i < |wnafNa| && ds[k] == wnafNa[k * nWnaf + i]
    modifies buckets
    ensures BucketSum(g, buckets[..Pow2(bw)], 1) == Comb(g, ds, pts)
  {
    hide IsGroup, Comb, BucketSum, Mul, Pow2;
    var top := Pow2(bw);
    for j := 0 to top
      invariant forall k :: 0 <= k < j ==> buckets[k] == g.zero
    {
      buckets[j] := g.zero;
    }
    ghost var bs := buckets[..top];
    BucketsEmpty(g, bs, 1);
    CombZero(g, [], pts[..0]);
    assert ds[..0] == [];
    for np := 0 to |inputPos|
      invariant bs == buckets[..top] && BucketSum(g, bs, 1) == Comb(g, ds[..np], pts[..np])
    {
      var n := wnafNa[np * nWnaf + i];
      var p := pt[inputPos[np]];
      assert n == ds[np] && OddDigit(ds[np], bw + 1);
      DigitBucket(g, n, bw, p);
      assert ds[..np + 1] == ds[..np] + [n] && pts[..np + 1] == pts[..np] + [p];
      CombSnoc(g, ds[..np], pts[..np], n, p);
      if n > 0 {
        var idx := (n - 1) / 2;
        BucketAdd(g, bs, 1, idx, p);
        buckets[idx] := g.add(buckets[idx], p);
        bs := bs[idx := g.add(bs[idx], p)];
      } else if n < 0 {
        var idx := -(n + 1) / 2;
        BucketAdd(g, bs, 1, idx, g.neg(p));
        buckets[idx] := g.add(buckets[idx], g.neg(p));
        bs := bs[idx := g.add(bs[idx], g.neg(p))];
      }
    }
    assert ds[..|ds|] == ds && pts[..|ds|] == pts;
  }

  /** A digit n puts the point, or its negation, into an existing bucket whose weight is |n|. */
  lemma DigitBucket<P(!new)>(g: Group<P>, n: int, bw: nat, p: P)
    requires IsGroup(g) && OddDigit(n, bw + 1)
    ensures n != 0
    ensures n > 0 ==> 0 <= (n - 1) / 2 < Pow2(bw) && 1 + 2 * ((n - 1) / 2) == n
    ensures n < 0 ==> 0 <= -(n + 1) / 2 < Pow2(bw) && 1 + 2 * (-(n + 1) / 2) == -n
                      && Mul(g, -n, g.neg(p)) == Mul(g, n, p)
  {
    Pow2Even(bw + 1);
    MulOfNeg(g, -n, p);
  }

  method DoubleTimes<P(!new)>(g: Group<P>, bw: nat, r0: P) returns (r: P)
    requires IsGroup(g)
    ensures r == Mul(g, Pow2(bw), r0)
  {
    hide IsGroup, Mul;
    r := r0;
    MulSucc(g, 0, r0);
    for j := 0 to bw
      invariant r == Mul(g, Pow2(j), r0)
    {
      MulAdd(g, Pow2(j), Pow2(j), r0);
      assert Pow2(j + 1) == Pow2(j) + Pow2(j);
      r := g.add(r, r);
    }
  }

  /** r becomes 2^(bw + 1) r plus the weighted buckets. */
  method Sweep<P(!new)>(g: Group<P>, buckets: array<P>, bw: nat, r0: P) returns (r: P)
    requires IsGroup(g) && buckets.Length >= Pow2(bw)
    ensures r == g.add(Mul(g, Pow2(bw + 1), r0), BucketSum(g, buckets[..Pow2(bw)], 1))
  {
    hide IsGroup, Mul, BucketSum;
    var top := Pow2(bw);
    ghost var bs := buckets[..top];
    r := DoubleTimes(g, bw, r0);
    ghost var scaled := r;
    Unit(g, scaled);
    var runningSum := g.zero;
    assert bs[top..] == [];
    var j := top - 1;
    while j > 0
      invariant 0 <= j < top
      invariant runningSum == Total(g, bs[j + 1..]) && r == g.add(scaled, Staircase(g, bs[j + 1..]))
    {
      assert bs[j..][1..] == bs[j + 1..] && bs[j..][0] == buckets[j];
      runningSum := g.add(runningSum, buckets[j]);
      Assoc(g, scaled, Staircase(g, bs[j + 1..]), runningSum);
      r := g.add(r, runningSum);
      j := j - 1;
    }
    assert bs[1..] == bs[j + 1..];
    runningSum := g.add(runningSum, buckets[0]);
    SweepDone(g, bs, bw, r0);
    r := g.add(r, r);
    r := g.add(r, runningSum);
  }

  lemma SweepDone<P(!new)>(g: Group<P>, bs: seq<P>, bw: nat, r0: P)
    requires IsGroup(g) && |bs| > 0
    ensures var r := g.add(Mul(g, Pow2(bw), r0), Staircase(g, bs[1..]));
      g.add(g.add(r, r), Total(g, bs)) == g.add(Mul(g, Pow2(bw + 1), r0), BucketSum(g, bs, 1))
  {
    var scaled, s := Mul(g, Pow2(bw), r0), Staircase(g, bs[1..]);
    Swap4(g, scaled, s, scaled, s);
    Assoc(g, g.add(scaled, scaled), g.add(s, s), Total(g, bs));
    MulAdd(g, Pow2(bw), Pow2(bw), r0);
    SweepTotal(g, bs);
  }

  // ----- all windows

  /** Row k of the digit matrix recodes ks[k] in nWnaf odd digits. */
  ghost predicate Rows(wnafNa: seq<int>, ws: seq<seq<int>>, ks: seq<int>, w: nat, nWnaf: nat) {
    && |ws| == |ks| && |ws| * nWnaf <= |wnafNa|
    && (forall k :: 0 <= k < |ws| ==> |ws[k]| == nWnaf && AllOdd(ws[k], w) && Congruent(Value(ws[k], w), ks[k], N))
    && (forall k :: 0 <= k < |ws| ==> RowAt(wnafNa, k * nWnaf, ws[k]))
  }

  ghost predicate RowAt(wnafNa: seq<int>, off: nat, row: seq<int>) {
    off + |row| <= |wnafNa| && forall i :: 0 <= i < |row| ==> wnafNa[off + i] == row[i]
  }

  lemma RowsShape(wnafNa: seq<int>, ws: seq<seq<int>>, ks: seq<int>, w: nat, nWnaf: nat)
    requires Rows(wnafNa, ws, ks, w, nWnaf)
    ensures |ws| == |ks| && |ws| * nWnaf <= |wnafNa|
    ensures forall k :: 0 <= k < |ws| ==> |ws[k]| == nWnaf && Congruent(Value(ws[k], w), ks[k], N)
  {
  }

  lemma RowsColumn(wnafNa: seq<int>, ws: seq<seq<int>>, ks: seq<int>, w: nat, nWnaf: nat, i: nat)
    requires Rows(wnafNa, ws, ks, w, nWnaf) && i < nWnaf
    ensures forall k :: 0 <= k < |ws| ==>
      OddDigit(ws[k][i], w) && k * nWnaf + i < |wnafNa| && ws[k][i] == wnafNa[k * nWnaf + i]
  {
    forall k | 0 <= k < |ws|
      ensures OddDigit(ws[k][i], w) && k * nWnaf + i < |wnafNa| && ws[k][i] == wnafNa[k * nWnaf + i]
    {
      assert AllOdd(ws[k], w) && RowAt(wnafNa, k * nWnaf, ws[k]);
    }
  }

  ghost function Column(ws: seq<seq<int>>, i: nat): seq<int>
    requires forall k :: 0 <= k < |ws| ==> i < |ws[k]|
  {
    seq(|ws|, k requires 0 <= k < |ws| => ws[k][i])
  }

  ghost function TailValues(ws: seq<seq<int>>, i: nat, w: nat): seq<int>
    requires forall k :: 0 <= k < |ws| ==> i <= |ws[k]|
  {
    seq(|ws|, k requires 0 <= k < |ws| => Value(ws[k][i..], w))
  }

  /** Prepending a column to the digit strings is the window step of the combination. */
  lemma ColumnStep<P(!new)>(g: Group<P>, ws: seq<seq<int>>, i: nat, w: nat, pts: seq<P>)
    requires IsGroup(g) && |ws| == |pts| && forall k :: 0 <= k < |ws| ==> i < |ws[k]|
    ensures Comb(g, TailValues(ws, i, w), pts)
         == g.add(Mul(g, Pow2(w), Comb(g, TailValues(ws, i + 1, w), pts)), Comb(g, Column(ws, i), pts))
  {
    var hi := TailValues(ws, i + 1, w);
    var scaled := seq(|ws|, k requires 0 <= k < |ws| => Pow2(w) * hi[k]);
    CombScale(g, Pow2(w), hi, scaled, pts);
    forall k | 0 <= k < |ws|
      ensures TailValues(ws, i, w)[k] == scaled[k] + Column(ws, i)[k]
    {
      assert ws[k][i..][1..] == ws[k][i + 1..];
    }
    CombSum(g, scaled, Column(ws, i), TailValues(ws, i, w), pts);
  }

  lemma ColumnsDone<P(!new)>(g: Group<P>, ws: seq<seq<int>>, ks: seq<int>, w: nat, pts: seq<P>)
    requires IsGroup(g) && g.order == N && |ws| == |ks| == |pts|
    requires forall k :: 0 <= k < |ws| ==> Congruent(Value(ws[k], w), ks[k], N)
    ensures Comb(g, TailValues(ws, 0, w), pts) == Comb(g, ks, pts)
  {
    forall k | 0 <= k < |ws|
      ensures Congruent(TailValues(ws, 0, w)[k], ks[k], N)
    {
      assert ws[k][0..] == ws[k];
    }
    CombCongruent(g, TailValues(ws, 0, w), ks, pts);
  }

  lemma ColumnsStart<P(!new)>(g: Group<P>, ws: seq<seq<int>>, n: nat, w: nat, pts: seq<P>)
    requires IsGroup(g) && |ws| == |pts| && forall k :: 0 <= k < |ws| ==> |ws[k]| == n
    ensures Comb(g, TailValues(ws, n, w), pts) == g.zero
  {
    CombZero(g, TailValues(ws, n, w), pts);
  }

  method Windows<P(!new)>(g: Group<P>, buckets: array<P>, bw: nat, wnafNa: seq<int>, inputPos: seq<nat>, pt: seq<P>,
                          ghost ws: seq<seq<int>>, ghost ks: seq<int>, ghost pts: seq<P>) returns (r: P)
    requires IsGroup(g) && g.order == N && buckets.Length >= Pow2(bw)
    requires Rows(wnafNa, ws, ks, bw + 1, WnafSize(bw + 1)) && |ws| == |pts| == |inputPos|
    requires forall k :: 0 <= k < |pts| ==> inputPos[k] < |pt| && pts[k] == pt[inputPos[k]]
    modifies buckets
    ensures r == Comb(g, ks, pts)
  {
    hide IsGroup, Comb, BucketSum, Mul, Pow2, Value, WnafSize, Rows;
    var nWnaf := WnafSize(bw + 1);
    var w := bw + 1;
    RowsShape(wnafNa, ws, ks, w, nWnaf);
    r := g.zero;
    ColumnsStart(g, ws, nWnaf, w, pts);
    for i := nWnaf downto 0
      invariant r == Comb(g, TailValues(ws, i, w), pts)
    {
      ghost var ds := Column(ws, i);
      RowsColumn(wnafNa, ws, ks, w, nWnaf, i);
      FillBuckets(g, buckets, bw, wnafNa, nWnaf, i, inputPos, pt, ds, pts);
      r := Sweep(g, buckets, bw, r);
      ColumnStep(g, ws, i, w, pts);
    }
    ColumnsDone(g, ws, ks, w, pts);
  }

  // ----- compaction and recoding

  ghost predicate KeptPoints<P>(inputPos: seq<nat>, sc: seq<Scalar>, pt: seq<P>, ks: seq<int>, pts: seq<P>)
  {
    && |sc| == |pt| && |inputPos| == |ks| == |pts|
    && forall k :: 0 <= k < |pts| ==> inputPos[k] < |pt| && pts[k] == pt[inputPos[k]] && ks[k] == sc[inputPos[k]]
  }

  lemma DropTerm<P(!new)>(g: Group<P>, sc: seq<int>, pt: seq<P>, np: nat)
    requires IsGroup(g) && |sc| == |pt| && np < |sc|
    ensures Comb(g, sc[..np + 1], pt[..np + 1]) == g.add(Comb(g, sc[..np], pt[..np]), Mul(g, sc[np], pt[np]))
    ensures sc[np] == 0 || pt[np] == g.zero ==> Comb(g, sc[..np + 1], pt[..np + 1]) == Comb(g, sc[..np], pt[..np])
  {
    assert sc[..np + 1] == sc[..np] + [sc[np]] && pt[..np + 1] == pt[..np] + [pt[np]];
    CombSnoc(g, sc[..np], pt[..np], sc[np], pt[np]);
    Unit(g, Comb(g, sc[..np], pt[..np]));
    MulPoint(g, sc[np], pt[np], pt[np]);
  }

  /** Writing one more row of digits keeps the earlier rows. */
  lemma AppendRow(before: seq<int>, after: seq<int>, ws: seq<seq<int>>, ks: seq<int>, row: seq<int>, s: Scalar, w: nat,
                  nWnaf: nat)
    requires Rows(before, ws, ks, w, nWnaf) && |before| == |after| && (|ws| + 1) * nWnaf <= |after|
    requires |row| == nWnaf && AllOdd(row, w) && Congruent(Value(row, w), s, N)
    requires RowAt(after, |ws| * nWnaf, row)
    requires forall i :: 0 <= i < |ws| * nWnaf && i < |before| ==> after[i] == before[i]
    ensures Rows(after, ws + [row], ks + [s], w, nWnaf)
  {
    hide Value, Pow2, AllOdd, Congruent;
    var rows := ws + [row];
    forall k | 0 <= k < |rows|
      ensures RowAt(after, k * nWnaf, rows[k])
    {
      if k < |ws| {
        var off := k * nWnaf;
        MulMono(k + 1, |ws|, nWnaf);
        assert (k + 1) * nWnaf == off + nWnaf;
        RowUntouched(before, after, off, ws[k], |ws| * nWnaf);
      }
    }
  }

  lemma RowUntouched(before: seq<int>, after: seq<int>, off: nat, row: seq<int>, limit: nat)
    requires RowAt(before, off, row) && off + |row| <= limit && |before| == |after|
    requires forall i :: 0 <= i < limit && i < |before| ==> after[i] == before[i]
    ensures RowAt(after, off, row)
  {
  }

  method RecodeRow(wnafNa: array<int>, no: nat, s: Scalar, w: nat, ghost ws: seq<seq<int>>, ghost ks: seq<int>)
    returns (ghost row: seq<int>)
    requires 1 <= w <= 30 && s != 0 && |ws| == no && (no + 1) * WnafSize(w) <= wnafNa.Length
    requires Rows(wnafNa[..], ws, ks, w, WnafSize(w))
    modifies wnafNa
    ensures Rows(wnafNa[..], ws + [row], ks + [s], w, WnafSize(w))
  {
    hide Value, Pow2, WnafSize, Rows;
    ghost var before := wnafNa[..];
    var nWnaf := WnafSize(w);
    assert (no + 1) * nWnaf == no * nWnaf + nWnaf;
    var off := no * nWnaf;
    var skew := RecodeFixed(wnafNa, off, s, w);
    row := wnafNa[off..off + nWnaf];
    assert RowAt(wnafNa[..], off, row);
    MultipleCongruent(Value(row, w), s, N, if IsEven(s) then -1 else 0);
    AppendRow(before, wnafNa[..], ws, ks, row, s, w, nWnaf);
  }

  method PippengerWnaf<P(==,!new)>(g: Group<P>, buckets: array<P>, bucketWindow: nat, wnafNa: array<int>,
                                   sc: seq<Scalar>, pt: seq<P>) returns (r: P)
    requires IsGroup(g) && g.order == N && |sc| == |pt|
    requires bucketWindow < 30 && buckets.Length >= Pow2(bucketWindow)
    requires |sc| * WnafSize(bucketWindow + 1) <= wnafNa.Length
    modifies buckets, wnafNa
    ensures r == Comb(g, sc, pt)
  {
    hide IsGroup, Comb, Mul, Pow2, Value, WnafSize, Rows;
    var w := bucketWindow + 1;
    var nWnaf := WnafSize(w);
    var inputPos: seq<nat> := [];
    ghost var ws: seq<seq<int>>, ks: seq<int>, pts: seq<P> := [], [], [];
    RowsEmpty(wnafNa[..], w, nWnaf);
    assert sc[..0] == [] && pt[..0] == [];
    for np := 0 to |sc|
      invariant |inputPos| <= np && KeptPoints(inputPos, sc, pt, ks, pts) && |ws| == |ks|
      invariant Rows(wnafNa[..], ws, ks, w, nWnaf)
      invariant Comb(g, ks, pts) == Comb(g, sc[..np], pt[..np])
    {
      DropTerm(g, sc, pt, np);
      if sc[np] == 0 || pt[np] == g.zero {
        continue;
      }
      MulMono(|inputPos| + 1, |sc|, nWnaf);
      CombSnoc(g, ks, pts, sc[np], pt[np]);
      ghost var row := RecodeRow(wnafNa, |inputPos|, sc[np], w, ws, ks);
      inputPos := inputPos + [np];
      ws, ks, pts := ws + [row], ks + [sc[np]], pts + [pt[np]];
    }
    assert sc[..|sc|] == sc && pt[..|sc|] == pt;
    r := g.zero;
    if |inputPos| == 0 {
      CombZero(g, ks, pts);
      return;
    }
    r := Windows(g, buckets, bucketWindow, wnafNa[..], inputPos, pt, ws, ks, pts);
  }

  lemma RowsEmpty(wnafNa: seq<int>, w: nat, nWnaf: nat)
    ensures Rows(wnafNa, [], [], w, nWnaf)
  {
    var ws: seq<seq<int>> := [];
    assert |ws| * nWnaf == 0;
  }
}
