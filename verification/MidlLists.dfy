/** Searching, merging and growing ID lists. Slot 0 holds the length; IDs descend from slot 1. */
module MidlLists {
  import opened Arith
  import opened MidlSort

  const ID_MAX: int := 0xFFFF_FFFF_FFFF_FFFF
  const UM_MAX: int := 0x1FFFF

  ghost predicate IsList(s: seq<int>) {
    |s| > 0 && 0 <= s[0] < |s| && s[0] < 0x8000_0000
  }

  ghost predicate StrictlyDescending(s: seq<int>)
    requires IsList(s)
  {
    forall x, y :: 1 <= x < y <= s[0] ==> s[x] > s[y]
  }

  /** Slot p separates the IDs at least id from those at most id, and holds id itself when id is listed. */
  ghost predicate SplitsAt(s: seq<int>, id: int, p: int)
    requires IsList(s)
  {
    && 1 <= p <= s[0] + 1
    && (forall x :: 1 <= x < p ==> s[x] >= id)
    && (forall x :: p <= x <= s[0] ==> s[x] <= id)
    && ((p <= s[0] && s[p] == id) || forall x :: 1 <= x <= s[0] ==> s[x] != id)
  }

  method Search(ids: array<int>, id: int) returns (p: int)
    requires IsList(ids[..]) && Descending(ids[..], 1, ids[0])
    ensures SplitsAt(ids[..], id, p)
  {
    var base, cursor, val, n := 0, 1, 0, ids[0];
    while 0 < n
      invariant 0 <= base && 0 <= n && base + n <= ids[0]
      invariant forall x :: 1 <= x <= base ==> ids[x] > id
      invariant forall x :: base + n < x <= ids[0] ==> ids[x] < id
      invariant val < 0 ==> cursor == base + n + 1
      invariant val > 0 ==> cursor == base
      invariant val == 0 ==> cursor == 1 && base == 0 && n == ids[0]
    {
      var pivot := n / 2;
      cursor := base + pivot + 1;
      val := if ids[cursor] < id then -1 else if ids[cursor] > id then 1 else 0;
      if val < 0 {
        n := pivot;
      } else if val > 0 {
        base := cursor;
        n := n - (pivot + 1);
      } else {
        return cursor;
      }
    }
    if val > 0 {
      cursor := cursor + 1;
    }
    p := cursor;
  }

  /** In a list without duplicates that slot is exactly the first whose ID does not exceed id. */
  lemma SplitIsFirstAtMost(s: seq<int>, id: int, p: int)
    requires IsList(s) && StrictlyDescending(s)
    ensures SplitsAt(s, id, p) <==>
      (1 <= p <= s[0] + 1 && (forall x :: 1 <= x < p ==> s[x] > id) && (p <= s[0] ==> s[p] <= id))
  {
    if SplitsAt(s, id, p) {
      forall x | 1 <= x < p
        ensures s[x] > id
      {
        assert p <= s[0] ==> s[x] > s[p];
      }
    }
  }

  // ----- merging

  /** The slots above k hold the smallest IDs in order; i IDs of the merge list and j of the old list are left. */
  ghost predicate Merging(was: seq<int>, merge: seq<int>, now: seq<int>, i: int, j: int, k: int, total: int) {
    && |now| == |was| && 0 <= i < |merge| && 0 <= j <= k <= total < |now|
    && (forall x :: 1 <= x <= j ==> now[x] == was[x])
    && Descending(now, k + 1, total)
    && (forall x, y :: 1 <= x <= j && k < y <= total ==> now[x] >= now[y])
    && (forall x, y :: 1 <= x <= i && k < y <= total ==> merge[x] >= now[y])
  }

  /** Nothing is lost: the finished slots and what is left of both lists make up the whole, but for the IDs in hand. */
  ghost predicate Accounted(was: seq<int>, merge: seq<int>, now: seq<int>, i: int, j: int, k: int, total: int,
                            inHand: multiset<int>, whole: multiset<int>) {
    && 0 <= i < |merge| && 0 <= j < |was| && 0 <= k <= total < |now|
    && multiset(now[k + 1..total + 1]) + multiset(was[1..j + 1]) + multiset(merge[1..i + 1]) + inHand == whole
  }

  lemma SliceLast(s: seq<int>, j: int)
    requires 1 <= j < |s|
    ensures multiset(s[1..j + 1]) == multiset(s[1..j]) + multiset{s[j]}
  {
    assert s[1..j + 1] == s[1..j] + [s[j]];
  }

  lemma SliceFirst(s: seq<int>, k: int, total: int)
    requires 0 <= k <= total < |s|
    ensures multiset(s[k..total + 1]) == multiset{s[k]} + multiset(s[k + 1..total + 1])
  {
    assert s[k..total + 1] == [s[k]] + s[k + 1..total + 1];
  }

  /** An old ID smaller than everything left of the merge list moves to slot k. */
  lemma ShiftKeeps(was: seq<int>, merge: seq<int>, before: seq<int>, now: seq<int>, i: int, j: int, k: int, total: int)
    requires Merging(was, merge, before, i, j, k, total) && 1 <= j < k && Descending(was, 1, j)
    requires now == before[k := before[j]] && forall x :: 1 <= x <= i ==> merge[x] >= before[j]
    ensures Merging(was, merge, now, i, j - 1, k - 1, total)
  {
  }

  /** The merge ID in hand, no larger than anything left in the old list, goes to slot k. */
  lemma PlaceKeeps(was: seq<int>, merge: seq<int>, before: seq<int>, now: seq<int>, i: int, j: int, k: int, total: int,
                   mergeId: int)
    requires Merging(was, merge, before, i, j, k, total) && j < k && Descending(was, 1, j)
    requires forall x :: 1 <= x <= i ==> merge[x] >= mergeId
    requires forall y :: k < y <= total ==> mergeId >= before[y]
    requires j >= 1 ==> before[j] >= mergeId
    requires now == before[k := mergeId]
    ensures Merging(was, merge, now, i, j, k - 1, total)
  {
  }

  lemma MergingFacts(was: seq<int>, merge: seq<int>, now: seq<int>, i: int, j: int, k: int, total: int)
    requires Merging(was, merge, now, i, j, k, total)
    ensures |now| == |was| && 0 <= i < |merge| && 0 <= j <= k <= total < |now|
    ensures forall x :: 1 <= x <= j ==> now[x] == was[x]
    ensures forall y :: k < y <= total ==> i >= 1 ==> merge[i] >= now[y]
  {
  }

  lemma DescendingPrefix(s: seq<int>, hi: int, j: int)
    requires 0 <= j <= hi < |s| && Descending(s, 1, hi)
    ensures Descending(s, 1, j)
  {
  }

  lemma TakeKeeps(was: seq<int>, merge: seq<int>, now: seq<int>, i: int, j: int, k: int, total: int)
    requires Merging(was, merge, now, i, j, k, total) && i >= 1
    ensures Merging(was, merge, now, i - 1, j, k, total)
  {
  }

  /** What holds while smaller old IDs move up past the ID in hand. */
  ghost predicate Shifting(was: seq<int>, m: seq<int>, now: seq<int>, i: int, j: int, k: int, total: int, mergeId: int,
                           whole: multiset<int>) {
    && Merging(was, m, now, i, j, k, total) && k == i + 1 + j && Descending(was, 1, j)
    && 0 <= mergeId <= ID_MAX && now[0] == ID_MAX
    && (forall x :: 1 <= x <= i ==> m[x] >= mergeId)
    && (forall y :: k < y <= total ==> mergeId >= now[y])
    && Accounted(was, m, now, i, j, k, total, multiset{mergeId}, whole)
  }

  lemma ShiftStep(was: seq<int>, m: seq<int>, before: seq<int>, now: seq<int>, i: int, j: int, k: int, total: int,
                  mergeId: int, whole: multiset<int>)
    requires Shifting(was, m, before, i, j, k, total, mergeId, whole) && before[j] < mergeId
    requires now == before[k := before[j]]
    ensures 1 <= j && Shifting(was, m, now, i, j - 1, k - 1, total, mergeId, whole)
  {
    hide Accounted;
    ShiftKeeps(was, m, before, now, i, j, k, total);
    AccountOld(was, m, before, now, i, j, k, total, multiset{mergeId}, whole);
  }

  lemma ShiftingFacts(was: seq<int>, m: seq<int>, now: seq<int>, i: int, j: int, k: int, total: int, mergeId: int,
                      whole: multiset<int>)
    requires Shifting(was, m, now, i, j, k, total, mergeId, whole)
    ensures |now| == |was| && 0 <= j < k <= total < |now| && (now[j] < mergeId ==> j > 0)
  {
  }

  /** The inner scan: old IDs below mergeId move up; the maximal value in slot 0 stops it. */
  method MoveSmaller(idl: array<int>, mergeId: int, j0: int, k0: int, total: int, ghost i: int,
                     ghost was: seq<int>, ghost m: seq<int>, ghost whole: multiset<int>)
    returns (oldId: int, j: int, k: int)
    requires Shifting(was, m, idl[..], i, j0, k0, total, mergeId, whole)
    modifies idl
    ensures Shifting(was, m, idl[..], i, j, k, total, mergeId, whole) && 0 <= j <= j0 && 0 < k < idl.Length
    ensures oldId == idl[j] >= mergeId
    ensures forall x :: total < x < idl.Length ==> idl[x] == old(idl[x])
  {
    hide Shifting;
    j, k := j0, k0;
    ShiftingFacts(was, m, idl[..], i, j, k, total, mergeId, whole);
    oldId := idl[j];
    while oldId < mergeId
      invariant Shifting(was, m, idl[..], i, j, k, total, mergeId, whole)
      invariant 0 <= j <= j0 && 0 < k < idl.Length && oldId == idl[j]
      invariant forall x :: total < x < idl.Length ==> idl[x] == old(idl[x])
      decreases j
    {
      ghost var before := idl[..];
      ShiftingFacts(was, m, before, i, j, k, total, mergeId, whole);
      idl[k] := oldId;
      assert idl[..] == before[k := before[j]];
      ShiftStep(was, m, before, idl[..], i, j, k, total, mergeId, whole);
      k := k - 1;
      j := j - 1;
      ShiftingFacts(was, m, idl[..], i, j, k, total, mergeId, whole);
      oldId := idl[j];
    }
  }

  lemma AccountOld(was: seq<int>, merge: seq<int>, before: seq<int>, now: seq<int>, i: int, j: int, k: int, total: int,
                   inHand: multiset<int>, whole: multiset<int>)
    requires Accounted(was, merge, before, i, j, k, total, inHand, whole) && 1 <= j
    requires 1 <= k && now == before[k := was[j]]
    ensures Accounted(was, merge, now, i, j - 1, k - 1, total, inHand, whole)
  {
    SliceLast(was, j);
    SliceFirst(now, k, total);
    assert now[k + 1..total + 1] == before[k + 1..total + 1];
  }

  lemma AccountMerge(was: seq<int>, merge: seq<int>, before: seq<int>, now: seq<int>, i: int, j: int, k: int, total: int,
                     mergeId: int, whole: multiset<int>)
    requires Accounted(was, merge, before, i, j, k, total, multiset{mergeId}, whole)
    requires 1 <= k && now == before[k := mergeId]
    ensures Accounted(was, merge, now, i, j, k - 1, total, multiset{}, whole)
  {
    SliceFirst(now, k, total);
    assert now[k + 1..total + 1] == before[k + 1..total + 1];
  }

  lemma AccountTake(was: seq<int>, merge: seq<int>, now: seq<int>, i: int, j: int, k: int, total: int, whole: multiset<int>)
    requires Accounted(was, merge, now, i, j, k, total, multiset{}, whole) && 1 <= i
    ensures Accounted(was, merge, now, i - 1, j, k, total, multiset{merge[i]}, whole)
  {
    SliceLast(merge, i);
  }

  /** What holds between two IDs of the merge list. */
  ghost predicate BetweenIds(was: seq<int>, m: seq<int>, now: seq<int>, i: int, j: int, k: int, total: int,
                             whole: multiset<int>) {
    && IsList(was) && IsList(m) && Descending(was, 1, was[0]) && Descending(m, 1, m[0])
    && (forall x :: 1 <= x <= m[0] ==> 0 <= m[x] <= ID_MAX)
    && Merging(was, m, now, i, j, k, total) && k == i + j && j <= was[0] && i <= m[0] && now[0] == ID_MAX
    && Accounted(was, m, now, i, j, k, total, multiset{}, whole)
  }

  lemma TakeStep(was: seq<int>, m: seq<int>, now: seq<int>, i: int, j: int, k: int, total: int, whole: multiset<int>)
    requires BetweenIds(was, m, now, i, j, k, total, whole) && i > 0
    ensures Shifting(was, m, now, i - 1, j, k, total, m[i], whole)
  {
    hide Accounted;
    AccountTake(was, m, now, i, j, k, total, whole);
    MergingFacts(was, m, now, i, j, k, total);
    TakeKeeps(was, m, now, i, j, k, total);
    DescendingPrefix(was, was[0], j);
  }

  lemma PlaceStep(was: seq<int>, m: seq<int>, before: seq<int>, now: seq<int>, i: int, j: int, k: int, total: int,
                  mergeId: int, whole: multiset<int>)
    requires Shifting(was, m, before, i, j, k, total, mergeId, whole) && before[j] >= mergeId
    requires now == before[k := mergeId]
    ensures Merging(was, m, now, i, j, k - 1, total) && k - 1 == i + j && now[0] == ID_MAX
    ensures Accounted(was, m, now, i, j, k - 1, total, multiset{}, whole)
  {
    hide Accounted;
    PlaceKeeps(was, m, before, now, i, j, k, total, mergeId);
    AccountMerge(was, m, before, now, i, j, k, total, mergeId, whole);
  }

  /** Merges one ID: larger old IDs stay, smaller ones move up past it. */
  method MergeOne(idl: array<int>, mergeId: int, i0: int, j0: int, k0: int, total: int,
                  ghost was: seq<int>, ghost m: seq<int>, ghost whole: multiset<int>)
    returns (j: int, k: int)
    requires BetweenIds(was, m, idl[..], i0, j0, k0, total, whole) && i0 > 0 && mergeId == m[i0]
    modifies idl
    ensures BetweenIds(was, m, idl[..], i0 - 1, j, k, total, whole)
    ensures forall x :: total < x < idl.Length ==> idl[x] == old(idl[x])
  {
    hide Accounted, Merging, Shifting, Descending;
    TakeStep(was, m, idl[..], i0, j0, k0, total, whole);
    var oldId;
    oldId, j, k := MoveSmaller(idl, mergeId, j0, k0, total, i0 - 1, was, m, whole);
    ghost var before := idl[..];
    ShiftingFacts(was, m, before, i0 - 1, j, k, total, mergeId, whole);
    idl[k] := mergeId;
    assert idl[..] == before[k := mergeId];
    PlaceStep(was, m, before, idl[..], i0 - 1, j, k, total, mergeId, whole);
    k := k - 1;
  }

  /** Merges the IDs from slot i0 of the second list down to slot 1. */
  method MergeAll(idl: array<int>, merge: array<int>, i0: int, j0: int, total: int, ghost was: seq<int>, ghost whole: multiset<int>)
    returns (j: int, k: int)
    requires idl != merge && merge.Length > 0 && 0 <= i0 <= merge[0] < merge.Length && total >= 0
    requires BetweenIds(was, merge[..], idl[..], i0, j0, total, total, whole)
    modifies idl
    ensures BetweenIds(was, merge[..], idl[..], 0, j, k, total, whole)
    ensures forall x :: total < x < idl.Length ==> idl[x] == old(idl[x])
  {
    hide BetweenIds;
    ghost var m := merge[..];
    var i := i0;
    j, k := j0, total;
    while i > 0
      invariant BetweenIds(was, m, idl[..], i, j, k, total, whole) && 0 <= i <= m[0]
      invariant m == merge[..]
      invariant forall x :: total < x < idl.Length ==> idl[x] == old(idl[x])
    {
      j, k := MergeOne(idl, merge[i], i, j, k, total, was, m, whole);
      i := i - 1;
    }
  }

  method XMerge(idl: array<int>, merge: array<int>)
    requires idl != merge && IsList(idl[..]) && IsList(merge[..])
    requires idl[0] + merge[0] < idl.Length
    requires Descending(idl[..], 1, idl[0]) && Descending(merge[..], 1, merge[0])
    requires forall x :: 1 <= x <= merge[0] ==> 0 <= merge[x] <= ID_MAX
    modifies idl
    ensures idl[0] == old(idl[0]) + merge[0]
    ensures Descending(idl[..], 1, idl[0])
    ensures multiset(idl[1..idl[0] + 1]) == multiset(old(idl[1..idl[0] + 1])) + multiset(merge[1..merge[0] + 1])
    ensures forall x :: idl[0] < x < idl.Length ==> idl[x] == old(idl[x])
  {
    hide Descending, BetweenIds, Accounted, Merging;
    ghost var was, m := idl[..], merge[..];
    var i, j := merge[0], idl[0];
    var total := i + j;
    ghost var whole := multiset(was[1..j + 1]) + multiset(m[1..i + 1]);
    idl[0] := ID_MAX;
    StartMerge(was, m, idl[..], i, j, total);
    var k;
    j, k := MergeAll(idl, merge, i, j, total, was, whole);
    ghost var before := idl[..];
    idl[0] := total;
    FinishMerge(was, m, before, idl[..], j, k, total, whole);
  }

  lemma StartMerge(was: seq<int>, m: seq<int>, now: seq<int>, i: int, j: int, total: int)
    requires IsList(was) && IsList(m) && Descending(was, 1, was[0]) && Descending(m, 1, m[0])
    requires forall x :: 1 <= x <= m[0] ==> 0 <= m[x] <= ID_MAX
    requires i == m[0] && j == was[0] && i + j == total < |was| && now == was[0 := ID_MAX]
    ensures BetweenIds(was, m, now, i, j, total, total, multiset(was[1..j + 1]) + multiset(m[1..i + 1]))
  {
    AccountStart(was, m, i, j, total);
    AccountSlotZero(was, m, was, now, i, j, total, total, multiset(was[1..j + 1]) + multiset(m[1..i + 1]));
  }

  lemma FinishMerge(was: seq<int>, m: seq<int>, before: seq<int>, now: seq<int>, j: int, k: int, total: int,
                    whole: multiset<int>)
    requires BetweenIds(was, m, before, 0, j, k, total, whole) && |before| > 0 && now == before[0 := total]
    ensures 0 <= total < |now| && Descending(now, 1, total) && multiset(now[1..total + 1]) == whole
  {
    hide Accounted;
    DescendingPrefix(was, was[0], j);
    AccountSlotZero(was, m, before, now, 0, j, k, total, whole);
    MergingDone(was, m, before, now, j, total);
    MergeDone(was, m, now, j, total, whole);
  }

  lemma MergingDone(was: seq<int>, merge: seq<int>, before: seq<int>, now: seq<int>, j: int, total: int)
    requires Merging(was, merge, before, 0, j, j, total) && Descending(was, 1, j)
    requires now == before[0 := total]
    ensures Descending(now, 1, total) && |now| == |was| && forall x :: 1 <= x <= j ==> now[x] == was[x]
  {
  }

  lemma AccountStart(was: seq<int>, merge: seq<int>, i: int, j: int, total: int)
    requires 0 <= i < |merge| && 0 <= j < |was| && i + j == total < |was|
    ensures Accounted(was, merge, was, i, j, total, total, multiset{},
                      multiset(was[1..j + 1]) + multiset(merge[1..i + 1]))
  {
    assert was[total + 1..total + 1] == [];
  }

  lemma AccountSlotZero(was: seq<int>, merge: seq<int>, before: seq<int>, now: seq<int>, i: int, j: int, k: int, total: int,
                        whole: multiset<int>)
    requires Accounted(was, merge, before, i, j, k, total, multiset{}, whole)
    requires |now| == |before| && forall x :: 1 <= x < |now| ==> now[x] == before[x]
    ensures Accounted(was, merge, now, i, j, k, total, multiset{}, whole)
  {
    assert now[k + 1..total + 1] == before[k + 1..total + 1];
  }

  lemma MergeDone(was: seq<int>, merge: seq<int>, now: seq<int>, j: int, total: int, whole: multiset<int>)
    requires Accounted(was, merge, now, 0, j, j, total, multiset{}, whole)
    requires |now| == |was| && forall x :: 1 <= x <= j ==> now[x] == was[x]
    ensures multiset(now[1..total + 1]) == whole
  {
    assert now[1..total + 1] == now[1..j + 1] + now[j + 1..total + 1];
    assert now[1..j + 1] == was[1..j + 1];
    assert merge[1..1] == [];
  }
}
