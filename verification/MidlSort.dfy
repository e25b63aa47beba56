/** Sorting of ID lists in place: quicksort with an explicit stack, insertion sort for short stretches.
    An ID list keeps its length in slot 0 and its IDs in descending order in the slots from 1 on. */
module MidlSort {
  import opened Arith

  const SMALL: int := 8
  const STACK_SIZE: int := 64
  const INT_LIMIT: int := 0x8000_0000

  /** The longest list whose midpoints l + ir are all in the range of an int. */
  const MAX_COUNT: int := 0x4000_0003

  /** A stretch of slots, both ends included; empty when hi < lo. */
  datatype Segment = Segment(lo: int, hi: int)

  ghost predicate Descending(s: seq<int>, lo: int, hi: int)
    requires 0 <= lo && hi < |s|
  {
    forall x, y :: lo <= x < y <= hi ==> s[x] >= s[y]
  }

  /** t is s with the slots lo, ..., hi rearranged. */
  ghost predicate Rearranged(s: seq<int>, t: seq<int>, lo: int, hi: int) {
    && |s| == |t| && 0 <= lo && hi < |s| && lo <= hi + 1
    && s[..lo] == t[..lo] && s[hi + 1..] == t[hi + 1..]
    && multiset(s[lo..hi + 1]) == multiset(t[lo..hi + 1])
  }

  lemma RearrangedSelf(s: seq<int>, lo: int, hi: int)
    requires 0 <= lo && hi < |s| && lo <= hi + 1
    ensures Rearranged(s, s, lo, hi)
  {
  }

  lemma RearrangedTrans(s: seq<int>, t: seq<int>, u: seq<int>, lo: int, hi: int)
    requires Rearranged(s, t, lo, hi) && Rearranged(t, u, lo, hi)
    ensures Rearranged(s, u, lo, hi)
  {
  }

  /** Everything in a rearranged stretch was there before; everything outside stays. */
  lemma RearrangedElement(s: seq<int>, t: seq<int>, lo: int, hi: int, x: int) returns (y: int)
    requires Rearranged(s, t, lo, hi) && 0 <= x < |s|
    ensures 0 <= y < |s| && t[x] == s[y]
    ensures if lo <= x <= hi then lo <= y <= hi else y == x
  {
    if lo <= x <= hi {
      var m, m' := s[lo..hi + 1], t[lo..hi + 1];
      assert m'[x - lo] in multiset(m');
      assert t[x] in m;
      var k :| 0 <= k < |m| && m[k] == t[x];
      y := lo + k;
    } else if x < lo {
      assert s[..lo][x] == t[..lo][x];
      y := x;
    } else {
      assert s[hi + 1..][x - hi - 1] == t[hi + 1..][x - hi - 1];
      y := x;
    }
  }

  lemma SwapRearranges(s: seq<int>, lo: int, hi: int, x: int, y: int)
    requires 0 <= lo <= x <= hi < |s| && lo <= y <= hi
    ensures Rearranged(s, s[x := s[y]][y := s[x]], lo, hi)
  {
    var t, m := s[x := s[y]][y := s[x]], s[lo..hi + 1];
    SwapMultiset(m, x - lo, y - lo);
    SwapSlice(s, t, lo, hi, x, y);
  }

  lemma SwapSlice(s: seq<int>, t: seq<int>, lo: int, hi: int, x: int, y: int)
    requires 0 <= lo <= x <= hi < |s| && lo <= y <= hi && t == s[x := s[y]][y := s[x]]
    ensures s[..lo] == t[..lo] && s[hi + 1..] == t[hi + 1..]
    ensures t[lo..hi + 1] == s[lo..hi + 1][x - lo := s[lo..hi + 1][y - lo]][y - lo := s[lo..hi + 1][x - lo]]
  {
  }

  lemma SwapMultiset(m: seq<int>, x: nat, y: nat)
    requires x < |m| && y < |m|
    ensures multiset(m[x := m[y]][y := m[x]]) == multiset(m)
  {
  }

  method Swap(a: array<int>, ghost lo: int, ghost hi: int, x: int, y: int)
    requires 0 <= lo <= x <= hi < a.Length && lo <= y <= hi
    modifies a
    ensures a[x] == old(a[y]) && a[y] == old(a[x])
    ensures forall z :: 0 <= z < a.Length && z != x && z != y ==> a[z] == old(a[z])
    ensures Rearranged(old(a[..]), a[..], lo, hi)
  {
    hide Rearranged;
    ghost var s := a[..];
    SwapRearranges(s, lo, hi, x, y);
    a[x], a[y] := a[y], a[x];
    assert a[..] == s[x := s[y]][y := s[x]];
  }

  // ----- insertion sort

  /** The stretch lo, ..., j with a's slot vacated at i + 1: both parts sorted, the upper one below a. */
  ghost predicate Hole(s: seq<int>, lo: int, i: int, j: int, a: int)
    requires 0 <= lo && j < |s|
  {
    && lo - 1 <= i < j
    && (forall x, y :: lo <= x < y <= j && x != i + 1 && y != i + 1 ==> s[x] >= s[y])
    && (forall x :: i + 2 <= x <= j ==> s[x] < a)
  }

  /** Sorts slots l, ..., ir. The scan for a slot runs on to slot 1, and is stopped by the dominating slots below l. */
  method InsertionSort(ids: array<int>, l: int, ir: int)
    requires 1 <= l && ir < ids.Length && l <= ir + 1
    requires forall x, y :: 1 <= x < l <= y <= ir ==> ids[x] >= ids[y]
    modifies ids
    ensures Rearranged(old(ids[..]), ids[..], l, ir)
    ensures Descending(ids[..], l, ir)
  {
    ghost var start := ids[..];
    RearrangedSelf(start, l, ir);
    var j := l + 1;
    while j <= ir
      invariant l < j && (j <= ir + 1 || j == l + 1)
      invariant Rearranged(start, ids[..], l, ir)
      invariant j <= ir + 1 ==> Descending(ids[..], l, j - 1)
    {
      InsertOne(ids, l, ir, j, start);
      j := j + 1;
    }
  }

  /** Moves the ID in slot j down to its place among the sorted slots l, ..., j - 1. */
  method InsertOne(ids: array<int>, l: int, ir: int, j: int, ghost start: seq<int>)
    requires 1 <= l < j <= ir < ids.Length
    requires Rearranged(start, ids[..], l, ir) && Descending(ids[..], l, j - 1)
    requires forall x, y :: 1 <= x < l <= y <= ir ==> start[x] >= start[y]
    modifies ids
    ensures Rearranged(start, ids[..], l, ir) && Descending(ids[..], l, j)
  {
    hide Rearranged, Descending, Hole;
    var a := ids[j];
    HoleStart(ids[..], l, j);
    Dominated(start, ids[..], l, ir, j);
    var i := j - 1;
    assert ids[..][i + 1 := a] == ids[..];
    while i >= 1
      invariant |start| == ids.Length && l - 1 <= i < j && Hole(ids[..], l, i, j, a)
      invariant Rearranged(start, ids[..][i + 1 := a], l, ir)
      invariant forall x :: 1 <= x < l ==> ids[x] >= a
    {
      if ids[i] >= a {
        break;
      }
      ghost var before := ids[..];
      HoleStep(before, l, i, j, a);
      ids[i + 1] := ids[i];
      ShiftRearranges(before, start, l, ir, i, a);
      assert ids[..] == before[i + 1 := before[i]];
      i := i - 1;
    }
    ghost var before := ids[..];
    HoleDone(before, l, i, j, a);
    ids[i + 1] := a;
    assert ids[..] == before[i + 1 := a];
  }

  lemma HoleStart(s: seq<int>, l: int, j: int)
    requires 1 <= l < j < |s| && Descending(s, l, j - 1)
    ensures Hole(s, l, j - 1, j, s[j])
  {
  }

  lemma HoleStep(s: seq<int>, l: int, i: int, j: int, a: int)
    requires 1 <= l <= i < j < |s| && Hole(s, l, i, j, a) && s[i] < a
    ensures Hole(s[i + 1 := s[i]], l, i - 1, j, a)
  {
  }

  lemma HoleDone(s: seq<int>, l: int, i: int, j: int, a: int)
    requires 1 <= l && l - 1 <= i < j < |s| && Hole(s, l, i, j, a) && (l <= i ==> s[i] >= a)
    ensures Descending(s[i + 1 := a], l, j)
  {
  }

  lemma Dominated(start: seq<int>, now: seq<int>, l: int, ir: int, j: int)
    requires Rearranged(start, now, l, ir) && 1 <= l <= j <= ir
    requires forall x, y :: 1 <= x < l <= y <= ir ==> start[x] >= start[y]
    ensures |start| == |now| && forall x :: 1 <= x < l ==> now[x] >= now[j]
  {
    var y := RearrangedElement(start, now, l, ir, j);
    forall x | 1 <= x < l
      ensures now[x] >= now[j]
    {
      var x' := RearrangedElement(start, now, l, ir, x);
    }
  }

  lemma ShiftRearranges(s: seq<int>, start: seq<int>, l: int, ir: int, i: int, a: int)
    requires 0 <= l <= i < ir < |s| && Rearranged(start, s[i + 1 := a], l, ir)
    ensures Rearranged(start, s[i + 1 := s[i]][i := a], l, ir)
  {
    var t := s[i + 1 := a];
    SwapRearranges(t, l, ir, i, i + 1);
    assert t[i := t[i + 1]][i + 1 := t[i]] == s[i + 1 := s[i]][i := a];
    RearrangedTrans(start, t, s[i + 1 := s[i]][i := a], l, ir);
  }

  // ----- partitioning

  /** After the median of three has been moved to slot l + 1: it bounds the whole stretch from both ends. */
  ghost predicate MedianPlaced(s: seq<int>, l: int, ir: int)
    requires 0 <= l && l + 1 < ir < |s|
  {
    s[l] >= s[l + 1] >= s[ir]
  }

  /** The middle one of three values. */
  function Median(a: int, b: int, c: int): int {
    if (a >= b >= c) || (c >= b >= a) then b else if (b >= a >= c) || (c >= a >= b) then a else c
  }

  /** The sum of the ends is formed in an int before it is halved. */
  predicate MidpointFits(l: int, ir: int) { l + ir < INT_LIMIT }

  /** Exactly up to MAX_COUNT slots, the ends of every stretch that is long enough to be split add up to an int. */
  lemma MidpointsFit(n: int)
    ensures (forall l, ir :: 1 <= l && l + SMALL <= ir <= n ==> MidpointFits(l, ir)) <==> n <= MAX_COUNT
  {
    if n > MAX_COUNT {
      assert !MidpointFits(n - SMALL, n);
    }
  }

  lemma StretchFits(l: int, ir: int, n: int)
    requires 1 <= l && l + SMALL <= ir <= n <= MAX_COUNT
    ensures MidpointFits(l, ir)
  {
  }

  /** With the largest count an int can hold, the very first midpoint overflows, whatever the list. */
  lemma LargestCountOverflows(n: int)
    requires n == INT_LIMIT - 1
    ensures n >= 1 + SMALL && !MidpointFits(1, n)
  {
  }

  /** Exchanges two slots that are in the wrong order. */
  method OrderPair(ids: array<int>, ghost lo: int, ghost hi: int, x: int, y: int, ghost start: seq<int>)
    requires 0 <= lo <= x < y <= hi < ids.Length && Rearranged(start, ids[..], lo, hi)
    modifies ids
    ensures |start| == ids.Length && Rearranged(start, ids[..], lo, hi)
    ensures ids[x] >= ids[y] && ids[x] >= old(ids[x]) && ids[y] <= old(ids[y])
    ensures {old(ids[x]), old(ids[y])} == {ids[x], ids[y]}
    ensures forall z :: 0 <= z < ids.Length && z != x && z != y ==> ids[z] == old(ids[z])
  {
    ghost var before := ids[..];
    if ids[x] < ids[y] {
      Swap(ids, lo, hi, x, y);
      RearrangedTrans(start, before, ids[..], lo, hi);
    }
  }

  method PlaceMedian(ids: array<int>, l: int, ir: int)
    requires 1 <= l && l + SMALL <= ir < ids.Length && MidpointFits(l, ir)
    modifies ids
    ensures Rearranged(old(ids[..]), ids[..], l, ir) && MedianPlaced(ids[..], l, ir)
    ensures ids[l + 1] == Median(old(ids[l]), old(ids[(l + ir) / 2]), old(ids[ir]))
  {
    hide Rearranged;
    ghost var s := ids[..];
    var sum := l + ir;
    assert 0 <= sum < INT_LIMIT;
    var k := sum / 2;
    Swap(ids, l, ir, k, l + 1);
    OrderPair(ids, l, ir, l, ir, s);
    OrderPair(ids, l, ir, l + 1, ir, s);
    OrderPair(ids, l, ir, l, l + 1, s);
  }

  /** Where the two scans stand: everything up to i is at least a, everything from j on is at most a. */
  ghost predicate Scanned(s: seq<int>, l: int, ir: int, i: int, j: int, a: int)
    requires 0 <= l && ir < |s|
  {
    && l + 1 <= i && j <= ir && i <= j && (i == j ==> j < ir && l + 1 < i)
    && s[l + 1] == a
    && (forall x :: l <= x <= i ==> s[x] >= a)
    && (forall x :: j <= x <= ir ==> s[x] <= a)
  }

  /** Splits the stretch around its median: left of j at least the median, right of j at most, i is j + 1 or j + 2. */
  ghost predicate Partitioned(s: seq<int>, l: int, ir: int, i: int, j: int)
    requires 0 <= l && ir < |s|
  {
    && l + 1 <= j < i <= ir && i <= j + 2
    && (forall x :: l <= x <= j ==> s[x] >= s[j])
    && (forall x :: j <= x <= ir ==> s[x] <= s[j])
    && (forall x :: j <= x < i ==> s[x] == s[j])
  }

  /** The two unguarded scans: neither leaves the stretch. */
  method Scan(ids: array<int>, l: int, ir: int, i0: int, j0: int, a: int) returns (i: int, j: int)
    requires 1 <= l && l + SMALL <= ir < ids.Length
    requires Scanned(ids[..], l, ir, i0, j0, a)
    ensures i0 < i <= ir && l + 1 <= j < j0
    ensures (forall x :: l <= x < i ==> ids[x] >= a) && ids[i] <= a
    ensures (forall x :: j < x <= ir ==> ids[x] <= a) && ids[j] >= a
    ensures j < i ==> i <= j + 2
  {
    i, j := i0, j0;
    ghost var stopI := if i0 < j0 then j0 else j0 + 1;
    ghost var stopJ := if i0 < j0 then i0 else i0 - 1;
    assert ids[..][stopI] <= a && ids[..][stopJ] >= a;
    i := i + 1;
    while ids[i] > a
      invariant i0 < i <= stopI
      invariant forall x :: l <= x < i ==> ids[x] >= a
      decreases stopI - i
    {
      i := i + 1;
    }
    j := j - 1;
    while ids[j] < a
      invariant stopJ <= j < j0
      invariant forall x :: j < x <= ir ==> ids[x] <= a
      invariant j + 1 < j0 ==> ids[j + 1] < a
      decreases j
    {
      j := j - 1;
    }
  }

  /** The exchanges: afterwards the scans have crossed. */
  method Exchange(ids: array<int>, l: int, ir: int, a: int) returns (i: int, j: int)
    requires 1 <= l && l + SMALL <= ir < ids.Length
    requires MedianPlaced(ids[..], l, ir) && a == ids[l + 1]
    modifies ids
    ensures Rearranged(old(ids[..]), ids[..], l, ir)
    ensures l + 1 <= j < i <= ir && i <= j + 2 && ids[l + 1] == a && ids[j] >= a
    ensures (forall x :: l <= x < i ==> ids[x] >= a) && (forall x :: j < x <= ir ==> ids[x] <= a)
  {
    hide Rearranged;
    ghost var start := ids[..];
    RearrangedSelf(start, l, ir);
    i := l + 1;
    j := ir;
    while true
      invariant |start| == ids.Length && Rearranged(start, ids[..], l, ir)
      invariant Scanned(ids[..], l, ir, i, j, a)
      decreases j - i
    {
      i, j := Scan(ids, l, ir, i, j, a);
      if j < i {
        break;
      }
      ghost var before := ids[..];
      Swap(ids, l, ir, i, j);
      RearrangedTrans(start, before, ids[..], l, ir);
    }
  }

  method Partition(ids: array<int>, l: int, ir: int) returns (i: int, j: int)
    requires 1 <= l && l + SMALL <= ir < ids.Length && MidpointFits(l, ir)
    modifies ids
    ensures Rearranged(old(ids[..]), ids[..], l, ir)
    ensures Partitioned(ids[..], l, ir, i, j)
    ensures ids[j] == Median(old(ids[l]), old(ids[(l + ir) / 2]), old(ids[ir]))
  {
    hide Rearranged, Median;
    ghost var start := ids[..];
    PlaceMedian(ids, l, ir);
    ghost var middle := ids[..];
    var a := ids[l + 1];
    i, j := Exchange(ids, l, ir, a);
    ghost var before := ids[..];
    RearrangedTrans(start, middle, before, l, ir);
    PlacePivot(ids, l, ir, j, a);
    RearrangedTrans(start, before, ids[..], l, ir);
  }

  /** The pivot leaves slot l + 1 for its final slot j. */
  method PlacePivot(ids: array<int>, l: int, ghost ir: int, j: int, a: int)
    requires 1 <= l && l + 1 <= j <= ir < ids.Length && ids[l + 1] == a
    modifies ids
    ensures Rearranged(old(ids[..]), ids[..], l, ir)
    ensures ids[l + 1] == old(ids[j]) && ids[j] == a
    ensures forall z :: 0 <= z < ids.Length && z != l + 1 && z != j ==> ids[z] == old(ids[z])
  {
    ghost var s := ids[..];
    SwapRearranges(s, l, ir, l + 1, j);
    ids[l + 1] := ids[j];
    ids[j] := a;
    assert ids[..] == s[l + 1 := s[j]][j := s[l + 1]];
  }

  // ----- the stretches still to be sorted

  ghost predicate In(seg: Segment, x: int) { seg.lo <= x <= seg.hi }

  ghost function Size(seg: Segment): int { seg.hi - seg.lo + 1 }

  ghost predicate InSame(segs: seq<Segment>, x: int, y: int) {
    exists k :: 0 <= k < |segs| && In(segs[k], x) && In(segs[k], y)
  }

  ghost predicate Disjoint(segs: seq<Segment>, n: int) {
    && (forall k :: 0 <= k < |segs| ==> 1 <= segs[k].lo && segs[k].hi <= n && segs[k].lo <= segs[k].hi + 1)
    && (forall k, m, x :: 0 <= k < m < |segs| && In(segs[k], x) ==> !In(segs[m], x))
  }

  /** Slots that are not in one pending stretch together are already in the right order. */
  ghost predicate Ordered(s: seq<int>, segs: seq<Segment>, n: int)
    requires 0 <= n < |s|
  {
    forall x, y :: 1 <= x < y <= n ==> s[x] >= s[y] || InSame(segs, x, y)
  }

  lemma RearrangeKeeps(s: seq<int>, t: seq<int>, segs: seq<Segment>, cur: Segment, n: int)
    requires 0 <= n < |s| && Disjoint(segs + [cur], n) && Ordered(s, segs + [cur], n)
    requires Rearranged(s, t, cur.lo, cur.hi)
    ensures |s| == |t| && Ordered(t, segs + [cur], n)
  {
    var all := segs + [cur];
    assert all[|segs|] == cur;
    forall x, y | 1 <= x < y <= n
      ensures t[x] >= t[y] || InSame(all, x, y)
    {
      var x' := RearrangedElement(s, t, cur.lo, cur.hi, x);
      var y' := RearrangedElement(s, t, cur.lo, cur.hi, y);
      if In(cur, x) && In(cur, y) {
        assert InSame(all, x, y);
      } else if InSame(all, x', y') {
        SameBack(all, |segs|, n, x, y, x', y');
      }
    }
  }

  /** Slots that share a stretch still do after moving within stretch c. */
  lemma SameBack(all: seq<Segment>, c: nat, n: int, x: int, y: int, x': int, y': int)
    requires c < |all| && Disjoint(all, n) && InSame(all, x', y')
    requires if In(all[c], x) then In(all[c], x') else x' == x
    requires if In(all[c], y) then In(all[c], y') else y' == y
    ensures InSame(all, x, y)
  {
    var k :| 0 <= k < |all| && In(all[k], x') && In(all[k], y');
    if k < c {
      assert In(all[k], x) && In(all[k], y);
    } else if c < k {
      assert In(all[k], x) && In(all[k], y);
    } else {
      assert In(all[c], x) && In(all[c], y);
    }
  }

  /** What insertion sort needs: the slots before the current stretch dominate it. */
  lemma LeftDominates(s: seq<int>, segs: seq<Segment>, cur: Segment, n: int, x: int, y: int)
    requires 0 <= n < |s| && Disjoint(segs + [cur], n) && Ordered(s, segs + [cur], n)
    requires 1 <= x < cur.lo <= y <= cur.hi && y <= n
    ensures s[x] >= s[y]
  {
    var all := segs + [cur];
    assert all[|segs|] == cur;
    forall k | 0 <= k < |all|
      ensures !(In(all[k], x) && In(all[k], y))
    {
      if k < |segs| {
        assert In(all[k], y) ==> !In(all[|segs|], y);
      }
    }
  }

  lemma FinishKeeps(s: seq<int>, segs: seq<Segment>, cur: Segment, n: int)
    requires 0 <= n < |s| && Disjoint(segs + [cur], n) && Ordered(s, segs + [cur], n)
    requires 0 <= cur.lo && cur.hi < |s| && Descending(s, cur.lo, cur.hi)
    ensures Disjoint(segs, n) && Ordered(s, segs, n)
  {
    var all := segs + [cur];
    assert forall k :: 0 <= k < |segs| ==> segs[k] == all[k];
    forall x, y | 1 <= x < y <= n
      ensures s[x] >= s[y] || InSame(segs, x, y)
    {
      if InSame(all, x, y) {
        var k :| 0 <= k < |all| && In(all[k], x) && In(all[k], y);
        if k < |segs| {
          assert In(segs[k], x) && In(segs[k], y);
        } else {
          assert all[k] == cur;
        }
      }
    }
  }

  /** A partitioned stretch gives way to its two parts, in either order. */
  lemma SplitKeeps(s: seq<int>, segs: seq<Segment>, cur: Segment, n: int, i: int, j: int, a: Segment, b: Segment)
    requires 0 <= n < |s| && Disjoint(segs + [cur], n) && Ordered(s, segs + [cur], n)
    requires 0 <= cur.lo && cur.hi < |s| && Partitioned(s, cur.lo, cur.hi, i, j)
    requires (a == Segment(cur.lo, j - 1) && b == Segment(i, cur.hi))
          || (b == Segment(cur.lo, j - 1) && a == Segment(i, cur.hi))
    ensures Disjoint(segs + [a] + [b], n) && Ordered(s, segs + [a] + [b], n)
  {
    var all, new_ := segs + [cur], segs + [a] + [b];
    var d := |segs|;
    assert all[d] == cur && new_[d] == a && new_[d + 1] == b;
    assert forall k :: 0 <= k < d ==> segs[k] == all[k] == new_[k];
    assert forall x :: In(a, x) || In(b, x) ==> In(cur, x);
    forall x, y | 1 <= x < y <= n
      ensures s[x] >= s[y] || InSame(new_, x, y)
    {
      if InSame(all, x, y) {
        var k :| 0 <= k < |all| && In(all[k], x) && In(all[k], y);
        if k < d {
          assert In(new_[k], x) && In(new_[k], y);
        } else if y < j || i <= x {
          assert (In(new_[d], x) && In(new_[d], y)) || (In(new_[d + 1], x) && In(new_[d + 1], y));
        } else if x <= j <= y {
          assert s[x] >= s[j] >= s[y];
        } else {
          assert s[x] == s[j] >= s[y];
        }
      }
    }
  }

  lemma Widen(s: seq<int>, t: seq<int>, lo: int, hi: int, n: int)
    requires Rearranged(s, t, lo, hi) && 1 <= lo && hi <= n < |s| && 0 <= n
    ensures Rearranged(s, t, 1, n)
  {
    assert s[..1] == s[..lo][..1] && t[..1] == t[..lo][..1];
    assert s[n + 1..] == s[hi + 1..][n - hi..] && t[n + 1..] == t[hi + 1..][n - hi..];
    assert s[..lo][1..] == t[..lo][1..] && s[hi + 1..][..n - hi] == t[hi + 1..][..n - hi];
    assert s[1..n + 1] == s[..lo][1..] + s[lo..hi + 1] + s[hi + 1..][..n - hi];
    assert t[1..n + 1] == t[..lo][1..] + t[lo..hi + 1] + t[hi + 1..][..n - hi];
  }

  // ----- the stack

  ghost function TotalSize(segs: seq<Segment>): int {
    if |segs| == 0 then 0 else TotalSize(segs[..|segs| - 1]) + Size(segs[|segs| - 1])
  }

  lemma TotalSnoc(segs: seq<Segment>, seg: Segment)
    ensures TotalSize(segs + [seg]) == TotalSize(segs) + Size(seg)
  {
    assert (segs + [seg])[..|segs|] == segs;
  }

  /** The stretch pushed at depth k has at most n / 2^k slots: each push leaves the smaller half to be worked on. */
  ghost predicate Halved(segs: seq<Segment>, n: int) {
    forall k :: 0 <= k < |segs| ==> Size(segs[k]) * Pow2(k) <= n
  }

  lemma DepthBound(size: int, depth: nat, n: int)
    requires size > SMALL && size * Pow2(depth) <= n < INT_LIMIT
    ensures 2 * (depth + 1) < STACK_SIZE
  {
    if depth >= 31 {
      Pow2Mono(31, depth);
      Pow2Known31(31);
      MulMono(1, size, Pow2(depth));
      assert false;
    }
  }

  lemma Pow2Known31(k: nat)
    requires k == 31
    ensures Pow2(k) == 0x8000_0000
  {
    Pow2Small();
    Pow2Add(15, 16);
    assert Pow2(15) == 0x8000;
  }

  lemma PushHalves(cur: Segment, i: int, j: int, depth: nat, n: int, s: seq<int>)
    requires 0 <= cur.lo && cur.hi < |s| && Partitioned(s, cur.lo, cur.hi, i, j)
    requires Size(cur) * Pow2(depth) <= n
    ensures var left, right := Segment(cur.lo, j - 1), Segment(i, cur.hi);
      && Size(left) + Size(right) < Size(cur)
      && Size(left) * Pow2(depth) <= n && Size(right) * Pow2(depth) <= n
      && (Size(right) >= Size(left) ==> Size(left) * Pow2(depth + 1) <= n)
      && (Size(right) < Size(left) ==> Size(right) * Pow2(depth + 1) <= n)
  {
    var left, right := Size(Segment(cur.lo, j - 1)), Size(Segment(i, cur.hi));
    assert left + right < Size(cur) && left >= 0 && right >= 0;
    Pow2Even(depth + 1);
    HalfFits(left, right, Size(cur), Pow2(depth), Pow2(depth + 1), n);
    HalfFits(right, left, Size(cur), Pow2(depth), Pow2(depth + 1), n);
  }

  lemma HalfFits(part: int, other: int, whole: int, p: int, p2: int, n: int)
    requires 0 <= part && 0 <= other && part + other < whole && whole * p <= n && p > 0 && p2 == 2 * p
    ensures part * p <= n && (part <= other ==> part * p2 <= n)
  {
    MulMono(part, whole, p);
    if part <= other {
      MulMono(2 * part, whole, p);
      assert part * p2 == 2 * part * p;
    }
  }

  // ----- longer lists

  /** How many elements are at least v. */
  ghost function CountAtLeast(s: seq<int>, v: int): nat {
    if |s| == 0 then 0 else CountAtLeast(s[..|s| - 1], v) + if s[|s| - 1] >= v then 1 else 0
  }

  lemma {:induction false} CountSplit(s: seq<int>, t: seq<int>, v: int)
    ensures CountAtLeast(s + t, v) == CountAtLeast(s, v) + CountAtLeast(t, v)
  {
    if |t| == 0 {
      assert s + t == s;
    } else {
      assert (s + t)[..|s + t| - 1] == s + t[..|t| - 1];
      CountSplit(s, t[..|t| - 1], v);
    }
  }

  lemma CountInside(low: seq<int>, x: int, high: seq<int>, v: int)
    ensures CountAtLeast(low + ([x] + high), v) == CountAtLeast(low + high, v) + CountAtLeast([x], v)
  {
    hide CountAtLeast;
    CountSplit(low, high, v);
    CountSplit(low, [x] + high, v);
    CountSplit([x], high, v);
  }

  lemma CountLast(s: seq<int>, v: int)
    requires |s| > 0
    ensures CountAtLeast(s, v) == CountAtLeast(s[..|s| - 1], v) + CountAtLeast([s[|s| - 1]], v)
  {
    hide CountAtLeast;
    assert s == s[..|s| - 1] + [s[|s| - 1]];
    CountSplit(s[..|s| - 1], [s[|s| - 1]], v);
  }

  lemma RemoveOne(rest: seq<int>, x: int, low: seq<int>, high: seq<int>)
    requires multiset(rest + [x]) == multiset(low + ([x] + high))
    ensures multiset(rest) == multiset(low + high)
  {
    assert multiset(rest) == multiset(rest + [x]) - multiset{x};
    assert multiset(low + high) == multiset(low + ([x] + high)) - multiset{x};
  }

  /** Rearranging does not change the count. */
  lemma {:induction false} CountRearranged(s: seq<int>, t: seq<int>, v: int)
    requires multiset(s) == multiset(t)
    ensures CountAtLeast(s, v) == CountAtLeast(t, v)
  {
    hide CountAtLeast;
    if |s| == 0 {
      assert |multiset(t)| == 0;
    } else {
      var rest, x := s[..|s| - 1], s[|s| - 1];
      assert x in multiset(t);
      var j :| 0 <= j < |t| && t[j] == x;
      var low, high := t[..j], t[j + 1..];
      assert s == rest + [x] && t == low + ([x] + high);
      RemoveOne(rest, x, low, high);
      CountRearranged(rest, low + high, v);
      CountLast(s, v);
      CountInside(low, x, high, v);
    }
  }

  lemma {:induction false} CountAll(s: seq<int>, v: int)
    ensures CountAtLeast(s, v) <= |s|
    ensures (forall x :: 0 <= x < |s| ==> s[x] >= v) ==> CountAtLeast(s, v) == |s|
    ensures (forall x :: 0 <= x < |s| ==> s[x] < v) ==> CountAtLeast(s, v) == 0
  {
    if |s| > 0 {
      CountAll(s[..|s| - 1], v);
    }
  }

  /** The list of the n IDs n - 1, ..., 0. */
  ghost function AllIds(n: nat): seq<int> {
    [n] + seq(n, x => n - 1 - x)
  }

  /** That list with its first ID and its tenth to last one exchanged. */
  ghost function LongList(n: int): seq<int>
    requires n >= 20
  {
    AllIds(n)[1 := AllIds(n)[n - 9]][n - 9 := AllIds(n)[1]]
  }

  lemma AllIdsCount(n: nat, v: nat)
    requires v <= n
    ensures |AllIds(n)| == n + 1 && CountAtLeast(AllIds(n)[1..], v) == n - v
  {
    hide CountAtLeast;
    var d := AllIds(n)[1..];
    var high, low := d[..n - v], d[n - v..];
    assert d == high + low;
    CountSplit(high, low, v);
    CountAll(high, v);
    CountAll(low, v);
  }

  lemma RearrangedCount(s: seq<int>, t: seq<int>, n: int, v: int)
    requires n >= 0 && |s| == n + 1 && Rearranged(s, t, 1, n)
    ensures |t| == n + 1 && CountAtLeast(t[1..], v) == CountAtLeast(s[1..], v)
  {
    hide CountAtLeast;
    assert s[1..n + 1] == s[1..] && t[1..n + 1] == t[1..];
    CountRearranged(s[1..], t[1..], v);
  }

  lemma LongListCount(n: int, v: int)
    requires n >= 20 && 0 <= v <= n
    ensures |LongList(n)| == n + 1 && CountAtLeast(LongList(n)[1..], v) == n - v
  {
    hide CountAtLeast, AllIds, Rearranged;
    AllIdsCount(n, v);
    SwapRearranges(AllIds(n), 1, n, 1, n - 9);
    RearrangedCount(AllIds(n), LongList(n), n, v);
  }

  /** For every longer list length some list makes the second midpoint overflow: its first split leaves the nine
      last slots to be worked on next. */
  lemma LongerListsOverflow(n: int, s: seq<int>, i: int, j: int)
    requires n > MAX_COUNT && |s| == |LongList(n)| == n + 1 && Rearranged(LongList(n), s, 1, n)
    requires Partitioned(s, 1, n, i, j)
    requires s[j] == Median(LongList(n)[1], LongList(n)[(1 + n) / 2], LongList(n)[n])
    ensures i == n - SMALL && !(n - i + 1 >= j - 1) && !MidpointFits(i, n)
  {
    hide CountAtLeast, Median, Rearranged, LongList;
    MedianIsNine(n);
    CountsKept(n, s);
    FirstPart(s, n, j, j);
    if i == j + 2 {
      FirstPart(s, n, j, j + 1);
    }
  }

  lemma MedianIsNine(n: int)
    requires n > MAX_COUNT
    ensures |LongList(n)| == n + 1
    ensures Median(LongList(n)[1], LongList(n)[(1 + n) / 2], LongList(n)[n]) == 9
  {
  }

  lemma CountsKept(n: int, s: seq<int>)
    requires n >= 20 && |s| == |LongList(n)| == n + 1 && Rearranged(LongList(n), s, 1, n)
    ensures CountAtLeast(s[1..], 9) == n - 9 && CountAtLeast(s[1..], 10) == n - 10
  {
    hide CountAtLeast, LongList, Rearranged;
    RearrangedCount(LongList(n), s, n, 9);
    RearrangedCount(LongList(n), s, n, 10);
    LongListCount(n, 9);
    LongListCount(n, 10);
  }

  /** The slots up to k are at least the pivot, and those from the pivot on are not above it. */
  lemma FirstPart(s: seq<int>, n: int, j: int, k: int)
    requires |s| == n + 1 && 1 <= j <= k <= n && s[j] == 9
    requires forall x :: 1 <= x <= k ==> s[x] >= 9
    requires forall x :: j <= x <= n ==> s[x] <= 9
    ensures CountAtLeast(s[1..], 9) >= k && CountAtLeast(s[1..], 10) <= j - 1
  {
    hide CountAtLeast;
    assert s[1..] == s[1..k + 1] + s[k + 1..] && s[1..] == s[1..j] + s[j..];
    CountSplit(s[1..k + 1], s[k + 1..], 9);
    CountAll(s[1..k + 1], 9);
    CountSplit(s[1..j], s[j..], 10);
    CountAll(s[1..j], 10);
    CountAll(s[j..], 10);
  }

  ghost predicate OnStack(istack: seq<int>, segs: seq<Segment>) {
    && |istack| == STACK_SIZE && 2 * |segs| < STACK_SIZE
    && forall k :: 0 <= k < |segs| ==> istack[2 * k + 1] == segs[k].lo && istack[2 * k + 2] == segs[k].hi
  }

  /** The state between two rounds of the sort. */
  ghost predicate Sorting(start: seq<int>, s: seq<int>, n: int, segs: seq<Segment>, cur: Segment) {
    && 0 <= n < |s| && Rearranged(start, s, 1, n)
    && Disjoint(segs + [cur], n) && Ordered(s, segs + [cur], n)
    && Halved(segs, n) && Size(cur) * Pow2(|segs|) <= n
    && TotalSize(segs) >= 0 && Size(cur) >= 0
  }

  /** Works on the current stretch until it is short, pushing the larger part of every split. */
  method PartitionStep(ids: array<int>, istack: array<int>, n: int, l: int, ir: int, jstack: int,
                       ghost start: seq<int>, ghost segs: seq<Segment>)
    returns (l': int, ir': int, jstack': int, ghost segs': seq<Segment>)
    requires ids != istack && n <= MAX_COUNT && Sorting(start, ids[..], n, segs, Segment(l, ir))
    requires ir - l >= SMALL && OnStack(istack[..], segs) && jstack == 2 * |segs|
    modifies ids, istack
    ensures Sorting(start, ids[..], n, segs', Segment(l', ir'))
    ensures OnStack(istack[..], segs') && jstack' == 2 * |segs'|
    ensures TotalSize(segs') + Size(Segment(l', ir')) < TotalSize(segs) + Size(Segment(l, ir))
  {
    hide Rearranged, Ordered, Disjoint, Partitioned, TotalSize, Pow2, Descending, Median, MidpointFits;
    ghost var cur := Segment(l, ir);
    ghost var before := ids[..];
    CurrentInside(segs, cur, n);
    DepthBound(Size(cur), |segs|, n);
    StretchFits(l, ir, n);
    var i, j := Partition(ids, l, ir);
    ghost var s := ids[..];
    Widen(before, s, l, ir, n);
    RearrangedTrans(start, before, s, 1, n);
    RearrangeKeeps(before, s, segs, cur, n);
    PushHalves(cur, i, j, |segs|, n, s);
    ghost var left, right := Segment(l, j - 1), Segment(i, ir);
    PartSizes(s, l, ir, i, j);
    jstack' := jstack + 2;
    if ir - i + 1 >= j - l {
      SplitKeeps(s, segs, cur, n, i, j, right, left);
      TotalSnoc(segs, right);
      istack[jstack'] := ir;
      istack[jstack' - 1] := i;
      l', ir' := l, j - 1;
      segs' := segs + [right];
    } else {
      SplitKeeps(s, segs, cur, n, i, j, left, right);
      TotalSnoc(segs, left);
      istack[jstack'] := j - 1;
      istack[jstack' - 1] := l;
      l', ir' := i, ir;
      segs' := segs + [left];
    }
  }

  lemma CurrentInside(segs: seq<Segment>, cur: Segment, n: int)
    requires Disjoint(segs + [cur], n)
    ensures 1 <= cur.lo && cur.hi <= n && cur.lo <= cur.hi + 1
  {
    assert (segs + [cur])[|segs|] == cur;
  }

  lemma PartSizes(s: seq<int>, l: int, ir: int, i: int, j: int)
    requires 0 <= l && ir < |s| && Partitioned(s, l, ir, i, j)
    ensures Size(Segment(l, j - 1)) >= 0 && Size(Segment(i, ir)) >= 0
  {
  }

  method FinishStep(ids: array<int>, n: int, l: int, ir: int, ghost start: seq<int>, ghost segs: seq<Segment>)
    requires Sorting(start, ids[..], n, segs, Segment(l, ir))
    modifies ids
    ensures 0 <= n < ids.Length && Rearranged(start, ids[..], 1, n)
    ensures Disjoint(segs, n) && Ordered(ids[..], segs, n)
  {
    hide Rearranged, Ordered, Disjoint, TotalSize, Pow2, Descending;
    ghost var cur := Segment(l, ir);
    ghost var before := ids[..];
    CurrentInside(segs, cur, n);
    forall x, y | 1 <= x < l <= y <= ir
      ensures ids[x] >= ids[y]
    {
      LeftDominates(before, segs, cur, n, x, y);
    }
    InsertionSort(ids, l, ir);
    Widen(before, ids[..], l, ir, n);
    RearrangedTrans(start, before, ids[..], 1, n);
    RearrangeKeeps(before, ids[..], segs, cur, n);
    FinishKeeps(ids[..], segs, cur, n);
  }

  lemma PopKeeps(start: seq<int>, s: seq<int>, n: int, segs: seq<Segment>, istack: seq<int>)
    requires 0 <= n < |s| && Rearranged(start, s, 1, n) && Disjoint(segs, n) && Ordered(s, segs, n)
    requires Halved(segs, n) && |segs| > 0 && TotalSize(segs) >= 0 && OnStack(istack, segs)
    ensures Sorting(start, s, n, segs[..|segs| - 1], segs[|segs| - 1])
    ensures TotalSize(segs) == TotalSize(segs[..|segs| - 1]) + Size(segs[|segs| - 1])
    ensures OnStack(istack, segs[..|segs| - 1])
  {
    hide Rearranged, Ordered, Pow2, OnStack;
    var k := |segs| - 1;
    LastSegment(segs);
    TotalNonNeg(segs[..k], n);
    StackPopped(istack, segs);
  }

  lemma LastSegment(segs: seq<Segment>)
    requires |segs| > 0
    ensures segs[..|segs| - 1] + [segs[|segs| - 1]] == segs
  {
  }

  lemma StackPopped(istack: seq<int>, segs: seq<Segment>)
    requires OnStack(istack, segs) && |segs| > 0
    ensures OnStack(istack, segs[..|segs| - 1])
  {
  }

  lemma {:induction false} TotalNonNeg(segs: seq<Segment>, n: int)
    requires forall k :: 0 <= k < |segs| ==> Size(segs[k]) >= 0
    ensures TotalSize(segs) >= 0
  {
    if |segs| > 0 {
      TotalNonNeg(segs[..|segs| - 1], n);
    }
  }

  /** Takes the stretch on top of the stack. */
  method PopStep(istack: array<int>, ghost s: seq<int>, ghost n: int, jstack: int, ghost start: seq<int>, ghost segs: seq<Segment>)
    returns (l: int, ir: int, jstack': int, ghost segs': seq<Segment>)
    requires 0 <= n < |s| && Rearranged(start, s, 1, n) && Disjoint(segs, n) && Ordered(s, segs, n)
    requires Halved(segs, n) && |segs| > 0 && TotalSize(segs) >= 0 && OnStack(istack[..], segs) && jstack == 2 * |segs|
    ensures Sorting(start, s, n, segs', Segment(l, ir)) && OnStack(istack[..], segs') && jstack' == 2 * |segs'|
    ensures TotalSize(segs) == TotalSize(segs') + Size(Segment(l, ir)) && |segs'| < |segs|
  {
    hide Rearranged, Ordered, Disjoint, Halved, Sorting, TotalSize, Pow2;
    PopKeeps(start, s, n, segs, istack[..]);
    ir := istack[jstack];
    l := istack[jstack - 1];
    jstack' := jstack - 2;
    assert Segment(l, ir) == segs[|segs| - 1];
    segs' := segs[..|segs| - 1];
  }

  lemma EmptyStack()
    ensures forall istack: seq<int> :: |istack| == STACK_SIZE ==> OnStack(istack, [])
  {
  }

  method Sort(ids: array<int>)
    requires ids.Length > 0 && 0 <= ids[0] < ids.Length && ids[0] <= MAX_COUNT
    modifies ids
    ensures ids[0] == old(ids[0])
    ensures Descending(ids[..], 1, ids[0])
    ensures multiset(ids[1..ids[0] + 1]) == multiset(old(ids[1..ids[0] + 1]))
    ensures ids[ids[0] + 1..] == old(ids[ids[0] + 1..])
  {
    hide Rearranged, Ordered, Disjoint, Descending, Halved, Sorting, TotalSize, Pow2, OnStack;
    EmptyStack();
    var istack := new int[STACK_SIZE];
    var n := ids[0];
    var ir := n;
    var l := 1;
    var jstack := 0;
    ghost var start := ids[..];
    ghost var segs: seq<Segment> := [];
    SortingStart(start, n);
    while true
      invariant Sorting(start, ids[..], n, segs, Segment(l, ir))
      invariant OnStack(istack[..], segs) && jstack == 2 * |segs|
      invariant TotalSize(segs) + Size(Segment(l, ir)) >= 0
      decreases TotalSize(segs) + Size(Segment(l, ir)), |segs|
    {
      SortingFacts(start, ids[..], n, segs, Segment(l, ir));
      if ir - l < SMALL {
        FinishStep(ids, n, l, ir, start, segs);
        if jstack == 0 {
          break;
        }
        l, ir, jstack, segs := PopStep(istack, ids[..], n, jstack, start, segs);
      } else {
        l, ir, jstack, segs := PartitionStep(ids, istack, n, l, ir, jstack, start, segs);
      }
      SortingFacts(start, ids[..], n, segs, Segment(l, ir));
    }
    SortingDone(start, ids[..], n);
  }

  lemma SortingFacts(start: seq<int>, s: seq<int>, n: int, segs: seq<Segment>, cur: Segment)
    requires Sorting(start, s, n, segs, cur)
    ensures Halved(segs, n) && TotalSize(segs) >= 0 && Size(cur) >= 0
  {
  }

  lemma SortingStart(start: seq<int>, n: int)
    requires 0 <= n < |start|
    ensures Sorting(start, start, n, [], Segment(1, n)) && TotalSize([]) == 0
  {
    var all := [Segment(1, n)];
    assert [] + all == all;
    assert all[0] == Segment(1, n);
    forall x, y | 1 <= x < y <= n
      ensures InSame([] + all, x, y)
    {
      assert In(([] + all)[0], x) && In(([] + all)[0], y);
    }
    assert Pow2(0) == 1;
  }

  lemma SortingDone(start: seq<int>, s: seq<int>, n: int)
    requires 0 <= n < |s| && Rearranged(start, s, 1, n) && Ordered(s, [], n)
    ensures Descending(s, 1, n) && |s| == |start| && s[0] == start[0]
    ensures multiset(s[1..n + 1]) == multiset(start[1..n + 1]) && s[n + 1..] == start[n + 1..]
  {
    assert s[0] == s[..1][0] && start[0] == start[..1][0];
  }
}
