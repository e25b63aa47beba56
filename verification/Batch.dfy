/** Multi-scalar multiplication in batches that fit a bounded scratch space. */
module Batch {
  import opened Arith
  import opened Scalars
  import opened Groups
  import opened Wnaf
  import opened WnafFixed
  import opened OddTables
  import opened Strauss
  import opened Wrappers
  import opened Pippenger

  const ALIGNMENT: nat := 16
  const SCRATCH_OBJECTS: nat := 6
  const MAX_BUCKET_WINDOW: nat := 12
  const PIPPENGER_THRESHOLD: nat := 160
  const MAX_POINTS_PER_BATCH: nat := 10000000
  const SIZE_MAX: nat := 0xFFFF_FFFF_FFFF_FFFF

  /** Sizes in bytes of the objects that live in scratch space. */
  datatype Sizes = Sizes(ge: nat, gej: nat, fe: nat, scalar: nat, int_: nat, pippengerPoint: nat, pippengerState: nat,
                         straussPoint: nat)

  // ----- the scratch space

  class Scratch {
    var initSize: nat
    var offset: nat
    const maxSize: nat

    constructor (initSize: nat, maxSize: nat)
      ensures this.initSize == initSize && this.maxSize == maxSize && offset == 0
    {
      this.initSize, this.maxSize, this.offset := initSize, maxSize, 0;
    }

    function MaxAllocation(objects: nat): nat {
      if maxSize <= objects * ALIGNMENT then 0 else maxSize - objects * ALIGNMENT
    }

    /** Succeeds exactly when the request with its alignment slack is within the maximum. */
    method Resize(n: nat, objects: nat) returns (ok: bool)
      modifies this
      ensures ok <==> n + objects * ALIGNMENT <= maxSize
      ensures ok ==> initSize >= n + objects * ALIGNMENT
      ensures initSize >= old(initSize) && offset == old(offset)
    {
      var m := n + objects * ALIGNMENT;
      if m > initSize && m <= maxSize {
        initSize := m;
      }
      ok := m <= maxSize;
    }

    method Reset()
      modifies this
      ensures offset == 0 && initSize == old(initSize)
    {
      offset := 0;
    }

    /** Claims size bytes, rounded up to the alignment; false when they are not there. */
    method Alloc(size: nat) returns (ok: bool)
      modifies this
      ensures old(offset) + size + (ALIGNMENT - 1) <= initSize ==> ok
      ensures ok ==> old(offset) + size <= offset < old(offset) + size + ALIGNMENT && offset <= initSize
      ensures !ok ==> offset == old(offset)
      ensures initSize == old(initSize)
    {
      var rounded := (size + ALIGNMENT - 1) / ALIGNMENT * ALIGNMENT;
      if rounded + offset > initSize {
        return false;
      }
      offset := offset + rounded;
      ok := true;
    }
  }

  // ----- how many points fit

  function BucketWindow(n: nat): nat {
    if n <= 1 then 1
    else if n <= 11 then 2
    else if n <= 45 then 3
    else if n <= 100 then 4
    else if n <= 275 then 5
    else if n <= 625 then 6
    else if n <= 1850 then 7
    else if n <= 3400 then 8
    else if n <= 9630 then 9
    else if n <= 17900 then 10
    else if n <= 32800 then 11
    else MAX_BUCKET_WINDOW
  }

  function BucketWindowInv(w: nat): nat {
    match w
    case 1 => 1
    case 2 => 11
    case 3 => 45
    case 4 => 100
    case 5 => 275
    case 6 => 625
    case 7 => 1850
    case 8 => 3400
    case 9 => 9630
    case 10 => 17900
    case 11 => 32800
    case 12 => SIZE_MAX
    case _ => 0
  }

  /** The two tables are inverse to each other: n points use window w exactly between consecutive bounds. */
  lemma WindowBounds(n: nat, w: nat)
    requires 1 <= n <= SIZE_MAX && 1 <= w <= MAX_BUCKET_WINDOW
    ensures BucketWindow(n) == w <==> BucketWindowInv(w - 1) < n <= BucketWindowInv(w)
    ensures BucketWindow(n) <= w <==> n <= BucketWindowInv(w)
  {
  }

  function EntrySize(sz: Sizes, w: nat): nat {
    sz.ge + sz.scalar + sz.pippengerPoint + (WnafSize(w + 1) + 1) * sz.int_
  }

  function PippengerScratchSize(sz: Sizes, n: nat, w: nat): nat {
    Pow2(w) * sz.gej + sz.pippengerState + (n + 1) * EntrySize(sz, w)
  }

  /** n points and the generator fit when their own bucket window is used. */
  predicate Fits(sz: Sizes, n: nat, maxAlloc: nat) {
    PippengerScratchSize(sz, n, BucketWindow(n)) <= maxAlloc
  }

  ghost predicate AllFit(sz: Sizes, n: nat, maxAlloc: nat) {
    forall m :: 1 <= m <= n ==> Fits(sz, m, maxAlloc)
  }

  lemma SpaceForPoints(maxAlloc: nat, overhead: nat, fixedPart: nat, entry: nat, m: nat)
    requires entry > 0 && overhead == fixedPart + entry
    ensures fixedPart + (m + 1) * entry <= maxAlloc <==> overhead <= maxAlloc && m <= (maxAlloc - overhead) / entry
  {
    assert (m + 1) * entry == m * entry + entry;
    if overhead <= maxAlloc {
      var space := maxAlloc - overhead;
      DivModParts(space, entry);
      if m <= space / entry {
        MulMono(m, space / entry, entry);
      } else {
        MulMono(space / entry + 1, m, entry);
      }
    } else {
      MulMono(0, m, entry);
    }
  }

  /** The answer is exact: it is the largest count such that it and every smaller count fit. */
  method PippengerMaxPoints(sz: Sizes, maxAlloc: nat) returns (res: nat)
    requires sz.ge > 0 && maxAlloc <= SIZE_MAX
    ensures IsMaxPoints(sz, maxAlloc, res)
  {
    res := 0;
    var w := 1;
    hide PippengerScratchSize;
    while w <= MAX_BUCKET_WINDOW
      invariant 1 <= w <= MAX_BUCKET_WINDOW + 1
      invariant res == BucketWindowInv(w - 1)
      invariant AllFit(sz, res, maxAlloc)
    {
      var maxPoints := BucketWindowInv(w);
      var entrySize := EntrySize(sz, w);
      var spaceOverhead := Pow2(w) * sz.gej + entrySize + sz.pippengerState;
      WindowFits(sz, w, maxAlloc);
      if spaceOverhead > maxAlloc {
        break;
      }
      var spaceForPoints := maxAlloc - spaceOverhead;
      var nPoints := spaceForPoints / entrySize;
      nPoints := if nPoints > maxPoints then maxPoints else nPoints;
      if nPoints > res {
        res := nPoints;
      }
      if nPoints < maxPoints {
        break;
      }
      w := w + 1;
    }
    if w <= MAX_BUCKET_WINDOW {
      assert res < SIZE_MAX ==> !Fits(sz, res + 1, maxAlloc);
    }
  }

  /** Within one bucket window, the counts that fit are those up to the computed quotient. */
  lemma WindowFits(sz: Sizes, w: nat, maxAlloc: nat)
    requires sz.ge > 0 && maxAlloc <= SIZE_MAX && 1 <= w <= MAX_BUCKET_WINDOW
    ensures EntrySize(sz, w) > 0
    ensures var overhead := Pow2(w) * sz.gej + EntrySize(sz, w) + sz.pippengerState;
      (overhead <= maxAlloc ==> (maxAlloc - overhead) / EntrySize(sz, w) >= 0) &&
      forall n :: BucketWindowInv(w - 1) < n <= BucketWindowInv(w) ==>
        (Fits(sz, n, maxAlloc) <==> overhead <= maxAlloc && n <= (maxAlloc - overhead) / EntrySize(sz, w))
  {
    var entry := EntrySize(sz, w);
    var fixedPart := Pow2(w) * sz.gej + sz.pippengerState;
    MulMono(0, WnafSize(w + 1) + 1, sz.int_);
    if fixedPart + entry <= maxAlloc {
      DivModParts(maxAlloc - fixedPart - entry, entry);
    }
    forall n | BucketWindowInv(w - 1) < n <= BucketWindowInv(w)
      ensures Fits(sz, n, maxAlloc) <==>
              fixedPart + entry <= maxAlloc && n <= (maxAlloc - fixedPart - entry) / entry
    {
      WindowBounds(n, w);
      SpaceForPoints(maxAlloc, fixedPart + entry, fixedPart, entry, n);
    }
  }

  // ----- one batch

  /** The caller's enumeration of scalars and points; it may fail at any index. */
  type Callback<P> = nat -> Option<(Scalar, P)>

  ghost function Term<P>(g: Group<P>, cb: Callback<P>, k: nat): P {
    if cb(k).Some? then Mul(g, cb(k).value.0, cb(k).value.1) else g.zero
  }

  /** The sum of the terms of the n indices from offset on. */
  ghost function CallSum<P>(g: Group<P>, cb: Callback<P>, offset: nat, n: nat): P {
    if n == 0 then g.zero else g.add(CallSum(g, cb, offset, n - 1), Term(g, cb, offset + n - 1))
  }

  ghost predicate AllSucceed<P>(cb: Callback<P>, offset: nat, n: nat) {
    forall k :: offset <= k < offset + n ==> cb(k).Some?
  }

  ghost function GeneratorTerm<P>(g: Group<P>, ng: Option<Scalar>, gen: P): P {
    if ng.Some? then Mul(g, ng.value, gen) else g.zero
  }

  /** The indices offset, ..., offset + n - 1 in order. */
  ghost function Indices(offset: nat, n: nat): seq<nat> {
    seq(n, i requires 0 <= i < n => offset + i)
  }

  lemma {:induction false} CallSumSplit<P(!new)>(g: Group<P>, cb: Callback<P>, offset: nat, n: nat, m: nat)
    requires IsGroup(g)
    ensures CallSum(g, cb, offset, n + m) == g.add(CallSum(g, cb, offset, n), CallSum(g, cb, offset + n, m))
  {
    if m == 0 {
      Unit(g, CallSum(g, cb, offset, n));
    } else {
      CallSumSplit(g, cb, offset, n, m - 1);
      Assoc(g, CallSum(g, cb, offset, n), CallSum(g, cb, offset + n, m - 1), Term(g, cb, offset + n + m - 1));
    }
  }

  lemma CollectStart<P(!new)>(g: Group<P>, cb: Callback<P>, offset: nat)
    requires IsGroup(g)
    ensures Comb(g, [], []) == CallSum(g, cb, offset, 0) && Indices(offset, 0) == []
  {
  }

  /** Calls back for every index of the batch, stopping at the first failure. */
  method Collect<P(!new)>(g: Group<P>, cb: Callback<P>, n: nat, offset: nat)
    returns (ok: bool, scalars: seq<Scalar>, points: seq<P>, ghost calls: seq<nat>)
    requires IsGroup(g)
    ensures ok <==> AllSucceed(cb, offset, n)
    ensures ok ==> |scalars| == |points| == n && Comb(g, scalars, points) == CallSum(g, cb, offset, n)
    ensures ok ==> calls == Indices(offset, n)
  {
    CollectStart(g, cb, offset);
    hide IsGroup, Mul, Comb, CallSum, Indices;
    ok, scalars, points, calls := true, [], [], [];
    for i := 0 to n
      invariant AllSucceed(cb, offset, i)
      invariant |scalars| == |points| == i && Comb(g, scalars, points) == CallSum(g, cb, offset, i)
      invariant calls == Indices(offset, i)
    {
      var answer := cb(i + offset);
      if answer.None? {
        assert !cb(offset + i).Some?;
        return false, scalars, points, calls;
      }
      CollectStep(g, cb, offset, i, scalars, points);
      scalars, points := scalars + [answer.value.0], points + [answer.value.1];
      calls := calls + [offset + i];
    }
  }

  /** The room that count objects of the given size take. */
  function Bytes(count: nat, size: nat): nat { MulMono(0, count, size); count * size }

  /** Claims the objects one after the other; enough room was reserved, alignment slack included. */
  method AllocAll(scratch: Scratch, sizes: seq<nat>, ghost total: nat)
    requires |sizes| <= SCRATCH_OBJECTS && SumOf(sizes) <= total
    requires total + SCRATCH_OBJECTS * ALIGNMENT <= scratch.initSize && scratch.offset == 0
    modifies scratch
    ensures scratch.offset <= scratch.initSize == old(scratch.initSize)
  {
    for i := 0 to |sizes|
      invariant scratch.initSize == old(scratch.initSize)
      invariant scratch.offset <= SumOf(sizes[..i]) + i * (ALIGNMENT - 1)
    {
      SumOfSnoc(sizes, i);
      var ok := scratch.Alloc(sizes[i]);
      assert ok;
    }
    assert sizes[..|sizes|] == sizes;
  }

  ghost function SumOf(sizes: seq<nat>): nat {
    if |sizes| == 0 then 0 else SumOf(sizes[..|sizes| - 1]) + sizes[|sizes| - 1]
  }

  lemma {:induction false} SumOfPrefix(sizes: seq<nat>, i: nat)
    requires i <= |sizes|
    ensures SumOf(sizes[..i]) <= SumOf(sizes)
  {
    if i < |sizes| {
      assert sizes[..|sizes| - 1][..i] == sizes[..i];
      SumOfPrefix(sizes[..|sizes| - 1], i);
    } else {
      assert sizes[..i] == sizes;
    }
  }

  lemma SumOfSnoc(sizes: seq<nat>, i: nat)
    requires i < |sizes|
    ensures SumOf(sizes[..i + 1]) == SumOf(sizes[..i]) + sizes[i] <= SumOf(sizes)
  {
    assert sizes[..i + 1][..i] == sizes[..i];
    SumOfPrefix(sizes, i + 1);
  }

  ghost function BatchSum<P>(g: Group<P>, ng: Option<Scalar>, gen: P, cb: Callback<P>, offset: nat, n: nat): P {
    g.add(GeneratorTerm(g, ng, gen), CallSum(g, cb, offset, n))
  }

  lemma RoomForRows(rows: nat, entries: nat, size: nat)
    requires rows <= entries
    ensures rows * size <= Bytes(entries, size)
  {
    MulMono(rows, entries, size);
  }

  lemma IndicesEmpty<P>(cb: Callback<P>, offset: nat)
    ensures Indices(offset, 0) == [] && AllSucceed(cb, offset, 0)
  {
  }

  lemma EmptyBatch<P(!new)>(g: Group<P>, ng: Option<Scalar>, gen: P, cb: Callback<P>, offset: nat)
    requires IsGroup(g) && ng.None?
    ensures BatchSum(g, ng, gen, cb, offset, 0) == g.zero
  {
    Unit(g, g.zero);
  }

  /** One more successful call extends the batch. */
  lemma CollectStep<P(!new)>(g: Group<P>, cb: Callback<P>, offset: nat, i: nat, scalars: seq<Scalar>, points: seq<P>)
    requires IsGroup(g) && |scalars| == |points| && Comb(g, scalars, points) == CallSum(g, cb, offset, i)
    requires cb(offset + i).Some? && AllSucceed(cb, offset, i)
    ensures var (s, p) := cb(offset + i).value;
      Comb(g, scalars + [s], points + [p]) == CallSum(g, cb, offset, i + 1)
    ensures AllSucceed(cb, offset, i + 1) && Indices(offset, i) + [offset + i] == Indices(offset, i + 1)
  {
    CombSnoc(g, scalars, points, cb(offset + i).value.0, cb(offset + i).value.1);
  }

  lemma PippengerObjects(sz: Sizes, n: nat, w: nat)
    ensures var entries := n + 1;
      SumOf([Bytes(entries, sz.ge), Bytes(entries, sz.scalar), sz.pippengerState, Bytes(entries, sz.pippengerPoint),
             Bytes(Bytes(entries, WnafSize(w + 1)), sz.int_), Bytes(Pow2(w), sz.gej)]) <= PippengerScratchSize(sz, n, w)
  {
    hide Pow2, WnafSize;
    var e, k := n + 1, WnafSize(w + 1);
    var a, b, d, f := e * sz.ge, e * sz.scalar, e * sz.pippengerPoint, e * k * sz.int_;
    var h := Pow2(w) * sz.gej;
    SumOfSix(a, b, sz.pippengerState, d, f, h);
    MulAssoc(e, k, sz.int_);
    var x := (k + 1) * sz.int_;
    assert x == k * sz.int_ + sz.int_;
    assert e * x == e * (k * sz.int_) + e * sz.int_;
    assert e * (sz.ge + sz.scalar + sz.pippengerPoint + x) == a + b + d + e * x;
  }

  lemma SumOfSix(a: nat, b: nat, c: nat, d: nat, e: nat, f: nat)
    ensures SumOf([a, b, c, d, e, f]) == a + b + c + d + e + f
  {
    var s := [a, b, c, d, e, f];
    assert s[..1] == [a] && s[..0] == [];
    forall i | 0 <= i < 6
      ensures SumOf(s[..i + 1]) == SumOf(s[..i]) + s[i]
    {
      SumOfSnoc(s, i);
    }
    assert s[..6] == s;
    assert SumOf(s[..0]) == 0;
    assert SumOf(s[..0 + 1]) == a;
    assert SumOf(s[..1 + 1]) == a + b;
    assert SumOf(s[..2 + 1]) == a + b + c;
    assert SumOf(s[..3 + 1]) == a + b + c + d;
    assert SumOf(s[..4 + 1]) == a + b + c + d + e;
    assert SumOf(s[..5 + 1]) == a + b + c + d + e + f;
  }

  method PippengerBatch<P(==,!new)>(g: Group<P>, gen: P, sz: Sizes, scratch: Scratch, ng: Option<Scalar>,
                                    cb: Callback<P>, n: nat, offset: nat)
    returns (ok: bool, r: P, ghost calls: seq<nat>)
    requires IsGroup(g) && g.order == N
    modifies scratch
    ensures ok <==> ((ng.None? && n == 0) ||
                     (PippengerScratchSize(sz, n, BucketWindow(n)) + SCRATCH_OBJECTS * ALIGNMENT <= scratch.maxSize
                      && AllSucceed(cb, offset, n)))
    ensures ok ==> r == BatchSum(g, ng, gen, cb, offset, n) && calls == Indices(offset, n)
  {
    hide IsGroup, Mul, Comb, Pow2, WnafSize, PippengerScratchSize, Bytes, SumOf, AllSucceed, BatchSum, Indices;
    IndicesEmpty(cb, offset);
    r, calls := g.zero, [];
    if ng.None? && n == 0 {
      EmptyBatch(g, ng, gen, cb, offset);
      return true, r, calls;
    }
    var entries := n + 1;
    var w := BucketWindow(n);
    ghost var total := PippengerScratchSize(sz, n, w);
    var fits := scratch.Resize(PippengerScratchSize(sz, n, w), SCRATCH_OBJECTS);
    if !fits {
      return false, r, calls;
    }
    scratch.Reset();
    PippengerObjects(sz, n, w);
    AllocAll(scratch, [Bytes(entries, sz.ge), Bytes(entries, sz.scalar), sz.pippengerState,
                       Bytes(entries, sz.pippengerPoint), Bytes(Bytes(entries, WnafSize(w + 1)), sz.int_),
                       Bytes(Pow2(w), sz.gej)], total);
    var scalars, points;
    ok, scalars, points, calls := Collect(g, cb, n, offset);
    if !ok {
      return;
    }
    PrependGenerator(g, ng, gen, cb, offset, n, scalars, points);
    if ng.Some? {
      scalars, points := [ng.value] + scalars, [gen] + points;
    }
    RoomForRows(|scalars|, entries, WnafSize(w + 1));
    var buckets := new P[Pow2(w)](_ => g.zero);
    var wnafNa := new int[Bytes(entries, WnafSize(w + 1))];
    r := PippengerWnaf(g, buckets, w, wnafNa, scalars, points);
  }

  lemma PrependGenerator<P(!new)>(g: Group<P>, ng: Option<Scalar>, gen: P, cb: Callback<P>, offset: nat, n: nat,
                                  scalars: seq<Scalar>, points: seq<P>)
    requires IsGroup(g) && |scalars| == |points| && Comb(g, scalars, points) == CallSum(g, cb, offset, n)
    ensures ng.None? ==> Comb(g, scalars, points) == BatchSum(g, ng, gen, cb, offset, n)
    ensures ng.Some? ==> Comb(g, [ng.value] + scalars, [gen] + points) == BatchSum(g, ng, gen, cb, offset, n)
    ensures MultiSum(g, scalars, points, ng, gen) == BatchSum(g, ng, gen, cb, offset, n)
  {
    var c := Comb(g, scalars, points);
    Unit(g, c);
    if ng.Some? {
      CombAppend(g, [ng.value], [gen], scalars, points);
      assert Comb(g, [ng.value][..0], [gen][..0]) == g.zero;
      Unit(g, Mul(g, ng.value, gen));
      Comm(g, c, Mul(g, ng.value, gen));
    }
  }

  function StraussScratchSize(sz: Sizes, n: nat): nat {
    n * ((sz.ge + sz.gej + sz.fe) * TABLE_A + sz.straussPoint + sz.gej + sz.scalar)
  }

  function StraussMaxPoints(sz: Sizes, maxAlloc: nat): (n: nat)
    requires sz.ge > 0
    ensures forall m: nat :: m <= n <==> StraussScratchSize(sz, m) <= maxAlloc
  {
    var size := StraussScratchSize(sz, 1);
    DivModParts(maxAlloc, size);
    StraussQuotient(sz, maxAlloc);
    maxAlloc / size
  }

  lemma StraussQuotient(sz: Sizes, maxAlloc: nat)
    requires sz.ge > 0
    ensures forall m: nat :: m <= maxAlloc / StraussScratchSize(sz, 1) <==> StraussScratchSize(sz, m) <= maxAlloc
  {
    var size := (sz.ge + sz.gej + sz.fe) * TABLE_A + sz.straussPoint + sz.gej + sz.scalar;
    DivModParts(maxAlloc, size);
    var q := maxAlloc / size;
    forall m: nat
      ensures m <= q <==> StraussScratchSize(sz, m) <= maxAlloc
    {
      if m <= q {
        MulMono(m, q, size);
      } else {
        MulMono(q + 1, m, size);
        assert (q + 1) * size == q * size + size;
      }
    }
  }

  lemma StraussObjects(sz: Sizes, n: nat)
    ensures SumOf([Bytes(n, sz.gej), Bytes(n, sz.scalar), Bytes(Bytes(n, TABLE_A), sz.gej), Bytes(Bytes(n, TABLE_A), sz.fe),
                   Bytes(Bytes(n, TABLE_A), sz.ge), Bytes(n, sz.straussPoint)]) <= StraussScratchSize(sz, n)
  {
    var a, b, c, d := n * sz.gej, n * sz.scalar, n * sz.fe, n * sz.ge;
    SumOfSix(a, b, n * TABLE_A * sz.gej, n * TABLE_A * sz.fe, n * TABLE_A * sz.ge, n * sz.straussPoint);
    assert n * TABLE_A * sz.gej == TABLE_A * a;
    assert n * TABLE_A * sz.fe == TABLE_A * c;
    assert n * TABLE_A * sz.ge == TABLE_A * d;
    assert n * ((sz.ge + sz.gej + sz.fe) * TABLE_A) == TABLE_A * d + TABLE_A * a + TABLE_A * c;
  }

  method StraussBatch<P(==,!new)>(g: Group<P>, preG: seq<P>, gen: P, sz: Sizes, scratch: Scratch, ng: Option<Scalar>,
                                  cb: Callback<P>, n: nat, offset: nat)
    returns (ok: bool, r: P, ghost calls: seq<nat>)
    requires IsGroup(g) && g.order == N
    requires |preG| == TableSize(WINDOW_G) && OddTable(g, preG, gen)
    modifies scratch
    ensures ok <==> ((ng.None? && n == 0) ||
                     (StraussScratchSize(sz, n) + SCRATCH_OBJECTS * ALIGNMENT <= scratch.maxSize
                      && AllSucceed(cb, offset, n)))
    ensures ok ==> r == BatchSum(g, ng, gen, cb, offset, n) && calls == Indices(offset, n)
  {
    hide IsGroup, Mul, Comb, Pow2, OddTable, StraussScratchSize, Bytes, SumOf, AllSucceed, BatchSum, Indices;
    IndicesEmpty(cb, offset);
    r, calls := g.zero, [];
    if ng.None? && n == 0 {
      EmptyBatch(g, ng, gen, cb, offset);
      return true, r, calls;
    }
    ghost var total := StraussScratchSize(sz, n);
    var fits := scratch.Resize(StraussScratchSize(sz, n), SCRATCH_OBJECTS);
    if !fits {
      return false, r, calls;
    }
    scratch.Reset();
    StraussObjects(sz, n);
    AllocAll(scratch, [Bytes(n, sz.gej), Bytes(n, sz.scalar), Bytes(Bytes(n, TABLE_A), sz.gej), Bytes(Bytes(n, TABLE_A), sz.fe),
                       Bytes(Bytes(n, TABLE_A), sz.ge), Bytes(n, sz.straussPoint)], total);
    var scalars, points;
    ok, scalars, points, calls := Collect(g, cb, n, offset);
    if !ok {
      return;
    }
    PrependGenerator(g, ng, gen, cb, offset, n, scalars, points);
    var preA := new P[TABLE_A * n](_ => g.zero);
    var ps := new PointState[n](_ => PointState([], 0, 0));
    r := StraussWnaf(g, preG, gen, ps, preA, points, scalars, ng);
  }

  // ----- all batches

  /** How a sum of n > 0 terms is cut up: which algorithm, how many batches, and how many terms in each. */
  datatype Plan = Plan(pippenger: bool, batches: nat, batchPoints: nat)

  function CeilDiv(a: nat, b: nat): (q: nat)
    requires b > 0
    ensures q * b >= a && (a > 0 ==> q > 0 && (q - 1) * b < a)
  {
    DivModParts(a + b - 1, b);
    CeilBounds(a, b);
    (a + b - 1) / b
  }

  lemma CeilBounds(a: nat, b: nat)
    requires b > 0
    ensures var q := (a + b - 1) / b; q * b >= a && (a > 0 ==> q > 0 && (q - 1) * b < a)
  {
    var q := (a + b - 1) / b;
    DivModParts(a + b - 1, b);
    assert (q - 1) * b == q * b - b;
    if a > 0 && q <= 0 {
      MulMono(q, 0, b);
    }
  }

  /** Batches of even size respect the limit, cover everything, and are never empty. */
  lemma EvenBatches(n: nat, maxPoints: nat)
    requires n > 0 && maxPoints > 0
    ensures var b := CeilDiv(n, maxPoints);
      b > 0 && 0 < CeilDiv(n, b) <= maxPoints && (b - 1) * CeilDiv(n, b) < n <= b * CeilDiv(n, b)
  {
    var b := CeilDiv(n, maxPoints);
    var k := CeilDiv(n, b);
    assert b * maxPoints == maxPoints * b;
    if k > maxPoints {
      MulMono(maxPoints, k - 1, b);
      assert false;
    }
    MulMono(k, maxPoints, b - 1);
    assert k * (b - 1) == (b - 1) * k && maxPoints * (b - 1) == (b - 1) * maxPoints;
  }

  /** max is the largest count that fits together with every smaller count. */
  ghost predicate IsMaxPoints(sz: Sizes, maxAlloc: nat, max: nat) {
    forall n :: 1 <= n <= SIZE_MAX ==> (n <= max <==> AllFit(sz, n, maxAlloc))
  }

  function Capped(max: nat): nat {
    if max > MAX_POINTS_PER_BATCH then MAX_POINTS_PER_BATCH else max
  }

  /** The number of points in a batch when n points are spread evenly over batches of at most max points. */
  function EvenSize(n: nat, max: nat): nat
    requires n > 0 && max > 0
  {
    EvenBatches(n, max);
    CeilDiv(n, CeilDiv(n, max))
  }

  /** There is room for a point, and either the batches are long enough for buckets or Strauss has room as well. */
  ghost predicate CanPlan(sz: Sizes, maxAlloc: nat, n: nat) {
    exists max: nat :: IsMaxPoints(sz, maxAlloc, max) && max > 0 && n > 0
      && (EvenSize(n, Capped(max)) >= PIPPENGER_THRESHOLD || StraussScratchSize(sz, 1) <= maxAlloc)
  }

  /** The cap makes the largest count unique. */
  lemma SameCap(sz: Sizes, maxAlloc: nat, max: nat, other: nat)
    requires IsMaxPoints(sz, maxAlloc, max) && IsMaxPoints(sz, maxAlloc, other)
    ensures Capped(max) == Capped(other)
  {
    hide AllFit;
    var n := if max < other then max + 1 else other + 1;
    if n <= SIZE_MAX {
      assert n <= max <==> AllFit(sz, n, maxAlloc);
    }
  }

  method MakePlan(sz: Sizes, maxAlloc: nat, n: nat) returns (plan: Option<Plan>)
    requires sz.ge > 0 && maxAlloc <= SIZE_MAX && n > 0
    ensures plan.Some? <==> CanPlan(sz, maxAlloc, n)
    ensures plan.Some? ==> Fits(sz, 1, maxAlloc)
    ensures plan.Some? ==> var p := plan.value;
      && p.batches > 0 && p.batchPoints > 0 && (p.batches - 1) * p.batchPoints < n <= p.batches * p.batchPoints
      && (forall m :: 1 <= m <= p.batchPoints ==>
            if p.pippenger then Fits(sz, m, maxAlloc) else StraussScratchSize(sz, m) <= maxAlloc)
  {
    hide Fits, StraussScratchSize;
    var maxPoints := PippengerMaxPoints(sz, maxAlloc);
    ghost var max := maxPoints;
    assert IsMaxPoints(sz, maxAlloc, max);
    assert AllFit(sz, 1, maxAlloc) <==> Fits(sz, 1, maxAlloc);
    PlanOf(sz, maxAlloc, n, max);
    if maxPoints == 0 {
      return None;
    } else if maxPoints > MAX_POINTS_PER_BATCH {
      maxPoints := MAX_POINTS_PER_BATCH;
    }
    EvenBatches(n, maxPoints);
    var batches := CeilDiv(n, maxPoints);
    var batchPoints := CeilDiv(n, batches);
    if batchPoints >= PIPPENGER_THRESHOLD {
      assert AllFit(sz, batchPoints, maxAlloc);
      return Some(Plan(true, batches, batchPoints));
    }
    maxPoints := StraussMaxPoints(sz, maxAlloc);
    if maxPoints == 0 {
      return None;
    }
    EvenBatches(n, maxPoints);
    batches := CeilDiv(n, maxPoints);
    batchPoints := CeilDiv(n, batches);
    return Some(Plan(false, batches, batchPoints));
  }

  /** Below this many points and this much memory, the sums rounded up in a plan stay inside a machine word, whatever
      the limit on the points in a batch. */
  lemma PlanSumsFit(sz: Sizes, maxAlloc: nat, n: nat, max: nat)
    requires sz.ge > 0 && n > 0 && 2 * n <= SIZE_MAX && n + maxAlloc <= SIZE_MAX && n + MAX_POINTS_PER_BATCH <= SIZE_MAX
    requires 0 < max && (max <= MAX_POINTS_PER_BATCH || StraussScratchSize(sz, max) <= maxAlloc)
    ensures n + max - 1 <= SIZE_MAX && n + CeilDiv(n, max) - 1 <= SIZE_MAX
  {
    var q := CeilDiv(n, max);
    if q > n {
      MulMono(n, q - 1, max);
      MulMono(1, max, n);
      assert false;
    }
    MulMono(1, (sz.ge + sz.gej + sz.fe) * TABLE_A + sz.straussPoint + sz.gej + sz.scalar, max);
  }

  lemma PlanOf(sz: Sizes, maxAlloc: nat, n: nat, max: nat)
    requires IsMaxPoints(sz, maxAlloc, max) && n > 0
    ensures CanPlan(sz, maxAlloc, n) <==>
      max > 0 && (EvenSize(n, Capped(max)) >= PIPPENGER_THRESHOLD || StraussScratchSize(sz, 1) <= maxAlloc)
  {
    hide IsMaxPoints, StraussScratchSize;
    if CanPlan(sz, maxAlloc, n) {
      var other: nat :| IsMaxPoints(sz, maxAlloc, other) && other > 0
        && (EvenSize(n, Capped(other)) >= PIPPENGER_THRESHOLD || StraussScratchSize(sz, 1) <= maxAlloc);
      SameCap(sz, maxAlloc, max, other);
    }
  }

  /** Runs one batch with the planned algorithm. */
  method RunBatch<P(==,!new)>(g: Group<P>, preG: seq<P>, gen: P, sz: Sizes, scratch: Scratch, ng: Option<Scalar>,
                              cb: Callback<P>, n: nat, offset: nat, pippenger: bool)
    returns (ok: bool, r: P, ghost calls: seq<nat>)
    requires IsGroup(g) && g.order == N && n > 0
    requires |preG| == TableSize(WINDOW_G) && OddTable(g, preG, gen)
    requires if pippenger then Fits(sz, n, scratch.MaxAllocation(SCRATCH_OBJECTS))
             else StraussScratchSize(sz, n) <= scratch.MaxAllocation(SCRATCH_OBJECTS)
    requires sz.ge > 0
    modifies scratch
    ensures ok <==> AllSucceed(cb, offset, n)
    ensures ok ==> r == BatchSum(g, ng, gen, cb, offset, n) && calls == Indices(offset, n)
  {
    hide IsGroup, OddTable, BatchSum, Pow2;
    if pippenger {
      PippengerNeedsSpace(sz, n, BucketWindow(n));
      ok, r, calls := PippengerBatch(g, gen, sz, scratch, ng, cb, n, offset);
    } else {
      MulMono(1, n, sz.ge);
      StraussNeedsSpace(sz, n);
      ok, r, calls := StraussBatch(g, preG, gen, sz, scratch, ng, cb, n, offset);
    }
  }

  lemma PippengerNeedsSpace(sz: Sizes, n: nat, w: nat)
    requires sz.ge > 0
    ensures PippengerScratchSize(sz, n, w) > 0
  {
    MulMono(0, WnafSize(w + 1) + 1, sz.int_);
    MulMono(1, n + 1, EntrySize(sz, w));
  }

  lemma StraussNeedsSpace(sz: Sizes, n: nat)
    requires sz.ge > 0 && n > 0
    ensures StraussScratchSize(sz, n) > 0
  {
    MulMono(1, n, (sz.ge + sz.gej + sz.fe) * TABLE_A + sz.straussPoint + sz.gej + sz.scalar);
  }

  method MultiVar<P(==,!new)>(g: Group<P>, preG: seq<P>, gen: P, sz: Sizes, scratch: Scratch, ng: Option<Scalar>,
                              cb: Callback<P>, n0: nat)
    returns (ok: bool, r: P, ghost calls: seq<nat>)
    requires IsGroup(g) && g.order == N
    requires |preG| == TableSize(WINDOW_G) && OddTable(g, preG, gen)
    requires sz.ge > 0 && scratch.maxSize <= SIZE_MAX
    modifies scratch
    ensures ok <==> n0 == 0 || (CanPlan(sz, scratch.MaxAllocation(SCRATCH_OBJECTS), n0) && AllSucceed(cb, 0, n0))
    ensures ok ==> r == BatchSum(g, ng, gen, cb, 0, n0) && calls == Indices(0, n0)
  {
    hide IsGroup, OddTable, Mul, Pow2, CallSum, Fits, StraussScratchSize, CanPlan;
    r, calls := g.zero, [];
    EmptySum(g, ng, gen, cb);
    if n0 == 0 {
      if ng.Some? {
        r := Ecmult(g, preG, gen, r, 0, ng);
      }
      return true, r, calls;
    }
    var plan := MakePlan(sz, scratch.MaxAllocation(SCRATCH_OBJECTS), n0);
    if plan.None? {
      return false, r, calls;
    }
    var Plan(pippenger, batches, batchPoints) := plan.value;
    var n := n0;
    var i := 0;
    ghost var processed := 0;
    assert batchPoints * 0 == 0;
    while i < batches
      invariant 0 <= i <= batches && n == n0 - processed && processed <= n0
      invariant processed == if i == batches then n0 else batchPoints * i
      invariant r == if i == 0 then g.zero else BatchSum(g, ng, gen, cb, 0, processed)
      invariant calls == Indices(0, processed) && AllSucceed(cb, 0, processed)
    {
      var nbp := if n < batchPoints then n else batchPoints;
      var offset := batchPoints * i;
      BatchProgress(n0, batches, batchPoints, i);
      var good, tmp;
      ghost var more;
      good, tmp, more := RunBatch(g, preG, gen, sz, scratch, if i == 0 then ng else None, cb, nbp, offset, pippenger);
      if !good {
        return false, r, calls;
      }
      AddBatch(g, ng, gen, cb, processed, nbp, i == 0);
      r := g.add(r, tmp);
      calls := calls + more;
      n := n - nbp;
      processed := processed + nbp;
      i := i + 1;
    }
    ok := true;
  }

  lemma EmptySum<P(!new)>(g: Group<P>, ng: Option<Scalar>, gen: P, cb: Callback<P>)
    requires IsGroup(g)
    ensures BatchSum(g, ng, gen, cb, 0, 0) == GeneratorTerm(g, ng, gen)
    ensures Mul(g, 0, g.zero) == g.zero && CallSum(g, cb, 0, 0) == g.zero
    ensures ng.Some? ==> g.add(g.zero, Mul(g, ng.value, gen)) == Mul(g, ng.value, gen)
  {
    Unit(g, GeneratorTerm(g, ng, gen));
  }

  lemma BatchProgress(n0: nat, batches: nat, k: nat, i: nat)
    requires i < batches && k > 0 && (batches - 1) * k < n0 <= batches * k
    ensures k * i < n0
    ensures var nbp := if n0 - k * i < k then n0 - k * i else k;
      0 < nbp <= k && k * i + nbp == if i + 1 == batches then n0 else k * (i + 1)
  {
    MulMono(i, batches - 1, k);
    assert i * k == k * i && k * (i + 1) == k * i + k;
    if i + 1 < batches {
      MulMono(i + 1, batches - 1, k);
    } else {
      assert batches * k == k * i + k;
    }
  }

  lemma AddBatch<P(!new)>(g: Group<P>, ng: Option<Scalar>, gen: P, cb: Callback<P>, done: nat, n: nat, first: bool)
    requires IsGroup(g) && (first ==> done == 0)
    ensures var r := if first then g.zero else BatchSum(g, ng, gen, cb, 0, done);
      g.add(r, BatchSum(g, if first then ng else None, gen, cb, done, n)) == BatchSum(g, ng, gen, cb, 0, done + n)
  {
    CallSumSplit(g, cb, 0, done, n);
    var t, a, b := GeneratorTerm(g, ng, gen), CallSum(g, cb, 0, done), CallSum(g, cb, done, n);
    if first {
      Unit(g, BatchSum(g, ng, gen, cb, 0, n));
    } else {
      Unit(g, b);
      Assoc(g, t, a, b);
    }
  }
}
