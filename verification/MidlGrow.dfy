/** Growing ID lists, and sorted insertion into lists of ID and pointer pairs. */
module MidlGrow {
  import opened Arith
  import opened MidlSort
  import opened MidlLists

  const WORD32: int := 0x1_0000_0000
  const WORD64: int := 0x1_0000_0000_0000_0000

  /** n | UM_MAX, where UM_MAX is all ones in the low 17 bits. */
  function OrUmMax(n: nat): (r: nat)
    ensures n <= r && UM_MAX <= r
    ensures r / 0x2_0000 == n / 0x2_0000 && r % 0x2_0000 == 0x1_FFFF
  {
    DivModUnique(n - n % (UM_MAX + 1) + UM_MAX, 0x2_0000, n / 0x2_0000, 0x1_FFFF);
    n - n % (UM_MAX + 1) + UM_MAX
  }

  /** The size in words that a request for t IDs asks for, in 32-bit arithmetic, rounded down to a multiple of 256. */
  function NeedWords(t: nat): (r: nat)
    requires t < WORD32
  {
    var sum := (t + t / 4 + (256 + 2)) % WORD32;
    sum - sum % 256
  }

  /** The request leaves room for t IDs and the two header words exactly when the sum does not wrap around. */
  lemma NeedSuffices(t: nat)
    requires t < WORD32
    ensures NeedWords(t) >= t + 2 <==> t + t / 4 + (256 + 2) < WORD32
  {
    var exact := t + t / 4 + (256 + 2);
    if exact < WORD32 {
      DivModUnique(exact, WORD32, 0, exact);
    } else {
      DivModUnique(exact, WORD32, 1, exact - WORD32);
    }
  }

  /** It is the multiple of 256 next below a quarter more than what is needed, and 258. */
  lemma NeedRounded(t: nat)
    requires t + t / 4 + (256 + 2) < WORD32
    ensures NeedWords(t) % 256 == 0 && t + t / 4 + 2 < NeedWords(t) <= t + t / 4 + (256 + 2)
  {
    var exact := t + t / 4 + (256 + 2);
    DivModUnique(exact, WORD32, 0, exact);
    DivModUnique(exact - exact % 256, 256, exact / 256, 0);
  }

  lemma NeedCanFail()
    ensures NeedWords(0xF000_0000) < 0xF000_0000
  {
    NeedSuffices(0xF000_0000);
  }

  /** Whether t IDs have room after a request has counted them in 32 bits: only a count above cap reallocates. */
  predicate NeedMet(t: nat, cap: nat) {
    if t % WORD32 > cap then NeedWords(t % WORD32) >= t + 2 else t <= cap
  }

  /** A request meets its purpose exactly when t IDs fit already or the rounding does not wrap around. */
  lemma NeedExact(t: nat, cap: nat)
    ensures NeedMet(t, cap) <==> t <= cap || t + t / 4 + (256 + 2) < WORD32
  {
    hide NeedWords;
    var u := t % WORD32;
    DivModParts(t, WORD32);
    if t < WORD32 {
      DivModUnique(t, WORD32, 0, t);
      NeedSuffices(t);
    } else {
      assert u <= t;
      NeedBound(u);
    }
  }

  lemma NeedBound(t: nat)
    requires t < WORD32
    ensures NeedWords(t) < WORD32
  {
  }

  /** What an unsigned 32-bit number becomes as an int. */
  function AsInt(n: nat): int
    requires n < WORD32
  {
    if n < WORD32 / 2 then n else n - WORD32
  }

  /** Whether n IDs have room behind the first len: growing adds n | UM_MAX, taken as an int, to the capacity. */
  predicate RangeFits(len: nat, cap: nat, n: nat)
    requires n < WORD32
  {
    OrFits(n);
    len + n <= if len + n > cap then cap + AsInt(OrUmMax(n)) else cap
  }

  lemma OrFits(n: nat)
    requires n < WORD32
    ensures OrUmMax(n) < WORD32 && (OrUmMax(n) < WORD32 / 2 <==> n < WORD32 / 2)
  {
    DivModParts(n, UM_MAX + 1);
  }

  /** A range has room exactly when nothing has to grow or its length is not negative as an int. */
  lemma RangeExact(len: nat, cap: nat, n: nat)
    requires len <= cap && n < WORD32
    ensures RangeFits(len, cap, n) <==> len + n <= cap || n < WORD32 / 2
  {
    OrFits(n);
    hide OrUmMax;
  }

  /** With 2^31 IDs to append to an empty list, the capacity would shrink. */
  lemma RangeCanFail()
    ensures OrUmMax(0x8000_0000) < WORD32 && AsInt(OrUmMax(0x8000_0000)) < 0 && !RangeFits(0, UM_MAX, 0x8000_0000)
  {
    OrFits(0x8000_0000);
    RangeExact(0, UM_MAX, 0x8000_0000);
  }

  /** An ID list that owns its storage: slot 0 holds the length, and cap IDs fit behind it. */
  class Idl {
    var cap: nat
    var ids: array<int>

    ghost predicate Valid()
      reads this, ids
    {
      ids.Length == cap + 1 && 0 <= ids[0] <= cap
    }

    function Length(): int
      requires Valid()
      reads this, ids
    {
      ids[0]
    }

    ghost function Contents(): seq<int>
      requires Valid()
      reads this, ids
    {
      ids[1..ids[0] + 1]
    }

    constructor Alloc(num: nat)
      ensures Valid() && fresh(ids) && cap == num && Contents() == []
    {
      cap := num;
      ids := new int[num + 1](_ => 0);
    }

    method Reallocate(newCap: nat)
      requires Valid() && ids[0] <= newCap
      modifies this
      ensures Valid() && fresh(ids) && cap == newCap && Contents() == old(Contents())
    {
      var from := ids;
      var into := new int[newCap + 1](_ => 0);
      for i := 0 to from[0] + 1
        invariant from[..] == old(ids[..]) && into.Length == newCap + 1
        invariant forall k :: 0 <= k < i ==> into[k] == from[k]
      {
        into[i] := from[i];
      }
      ids := into;
      cap := newCap;
      assert ids[1..ids[0] + 1] == from[1..from[0] + 1];
    }

    method Grow(num: nat)
      requires Valid() && num < WORD32 / 2
      modifies this
      ensures Valid() && fresh(ids) && cap == old(cap) + num && Contents() == old(Contents())
    {
      Reallocate(cap + num);
    }

    /** Afterwards num more IDs fit. */
    method Need(num0: nat)
      requires Valid() && num0 < WORD32
      requires var t := num0 + Length(); t <= cap || t + t / 4 + (256 + 2) < WORD32
      modifies this
      ensures Valid() && Contents() == old(Contents()) && Length() + num0 <= cap
      ensures old(Length()) + num0 <= old(cap) ==> unchanged(this)
      ensures ids == old(ids) || fresh(ids)
      ensures old(Length()) + num0 > old(cap) ==> cap == NeedWords(old(Length()) + num0) - 2
    {
      NeedExact(num0 + ids[0], cap);
      var num := (num0 + ids[0]) % WORD32;
      if num > cap {
        Reallocate(NeedWords(num) - 2);
      }
    }

    method Append(id: int)
      requires Valid()
      modifies this, ids
      ensures Valid() && Contents() == old(Contents()) + [id]
      ensures cap == old(cap) + if old(Length()) < old(cap) then 0 else UM_MAX
    {
      if ids[0] >= cap {
        Grow(UM_MAX);
      }
      ghost var before := ids[..];
      ids[0] := ids[0] + 1;
      ids[ids[0]] := id;
      assert ids[1..ids[0] + 1] == before[1..before[0] + 1] + [id];
    }

    /** Appends id, ..., id + n - 1 in descending order; IDs wrap around at 64 bits. */
    method AppendRange(id: nat, n: nat)
      requires Valid() && id <= ID_MAX && n < WORD32
      requires Length() + n <= cap || n < WORD32 / 2
      modifies this, ids
      ensures Valid() && Contents() == old(Contents()) + DescendingRange(id, n)
      ensures cap == old(cap) + if old(Length()) + n <= old(cap) then 0 else OrUmMax(n)
    {
      var len := ids[0];
      hide OrUmMax;
      OrFits(n);
      if len + n > cap {
        Grow(OrUmMax(n));
      }
      ghost var before := ids[..];
      FillRange(ids, len, id, n);
      RangeAppended(before, ids[..], len, n);
    }
  }

  lemma RangeAppended(before: seq<int>, after: seq<int>, len: nat, n: nat)
    requires |before| == |after| && len + n < |after| && forall k :: 1 <= k <= len ==> after[k] == before[k]
    ensures after[1..len + n + 1] == before[1..len + 1] + after[len + 1..len + n + 1]
  {
  }

  /** Writes the range from its top slot downwards. */
  method FillRange(a: array<int>, len: nat, id: nat, n: nat)
    requires len + n < a.Length && id <= ID_MAX
    modifies a
    ensures a[0] == len + n && a[len + 1..len + n + 1] == DescendingRange(id, n)
    ensures forall k :: 1 <= k <= len ==> a[k] == old(a[k])
  {
    a[0] := len + n;
    var left := n;
    var next: int := id;
    DivModUnique(id, WORD64, 0, id);
    while left > 0
      invariant 0 <= left <= n && next == (id + (n - left)) % WORD64 && a[0] == len + n
      invariant forall k :: 1 <= k <= len ==> a[k] == old(a[k])
      invariant forall k :: len + left < k <= len + n ==> a[k] == (id + (n - (k - len))) % WORD64
    {
      a[len + left] := next;
      NextId(id + (n - left));
      next := (next + 1) % WORD64;
      left := left - 1;
    }
  }

  /** id + n - 1, ..., id, in 64-bit arithmetic. */
  ghost function DescendingRange(id: nat, n: nat): seq<int> {
    seq(n, k requires 0 <= k < n => (id + (n - 1 - k)) % WORD64)
  }

  lemma NextId(x: nat)
    ensures (x % WORD64 + 1) % WORD64 == (x + 1) % WORD64
  {
  }

  /** Without wrap-around the appended range itself descends. */
  lemma RangeDescends(id: nat, n: nat)
    requires id + n <= ID_MAX + 1
    ensures Descending(DescendingRange(id, n), 0, n - 1)
    ensures forall k :: 0 <= k < n ==> DescendingRange(id, n)[k] == id + (n - 1 - k)
  {
    forall k | 0 <= k < n
      ensures DescendingRange(id, n)[k] == id + (n - 1 - k)
    {
      DivModUnique(id + (n - 1 - k), WORD64, 0, id + (n - 1 - k));
    }
  }

  // ----- lists of pairs, ascending

  datatype Id2 = Id2(mid: int, ptr: int)

  ghost predicate IsPairList(s: seq<Id2>) {
    |s| > 0 && 0 <= s[0].mid < |s| && forall x, y :: 1 <= x < y <= s[0].mid ==> s[x].mid < s[y].mid
  }

  ghost predicate PairSplit(s: seq<Id2>, id: int, p: int)
    requires IsPairList(s)
  {
    && 1 <= p <= s[0].mid + 1
    && (forall x :: 1 <= x < p ==> s[x].mid < id)
    && (forall x :: p <= x <= s[0].mid ==> s[x].mid >= id)
  }

  method PairSearch(ids: array<Id2>, id: int) returns (p: int)
    requires IsPairList(ids[..])
    ensures PairSplit(ids[..], id, p)
  {
    var base, cursor, val, n := 0, 1, 0, ids[0].mid;
    while 0 < n
      invariant 0 <= base && 0 <= n && base + n <= ids[0].mid
      invariant forall x :: 1 <= x <= base ==> ids[x].mid < id
      invariant forall x :: base + n < x <= ids[0].mid ==> ids[x].mid > id
      invariant val < 0 ==> cursor == base + n + 1
      invariant val > 0 ==> cursor == base
      invariant val == 0 ==> cursor == 1 && base == 0 && n == ids[0].mid
    {
      var pivot := n / 2;
      cursor := base + pivot + 1;
      val := if id < ids[cursor].mid then -1 else if id > ids[cursor].mid then 1 else 0;
      if val < 0 {
        n := pivot;
      } else if val > 0 {
        base := cursor;
        n := n - (pivot + 1);
      } else {
        return cursor;
      }
    }
    if val > 0 {
      cursor := cursor + 1;
    }
    p := cursor;
  }

  /** after lists what before does, with id in its place at slot p. */
  ghost predicate InsertedAt(before: seq<Id2>, after: seq<Id2>, id: Id2, p: int) {
    && IsPairList(before) && IsPairList(after) && PairSplit(before, id.mid, p)
    && after[1..after[0].mid + 1] == before[1..p] + [id] + before[p..before[0].mid + 1]
  }

  /** Inserts in order; -1 for an ID that is there already, -2 for a full list, and then nothing changes. */
  method PairInsert(ids: array<Id2>, id: Id2) returns (rc: int)
    requires IsPairList(ids[..]) && UM_MAX < ids.Length
    modifies ids
    ensures rc == -1 <==> exists x :: 1 <= x <= old(ids[0].mid) && old(ids[x].mid) == id.mid
    ensures rc == -2 <==> old(ids[0].mid) >= UM_MAX && rc != -1
    ensures rc == -1 || rc == -2 || rc == 0
    ensures rc != 0 ==> ids[..] == old(ids[..])
    ensures rc == 0 ==> IsPairList(ids[..]) && ids[0].mid == old(ids[0].mid) + 1
    ensures rc == 0 ==> exists p :: InsertedAt(old(ids[..]), ids[..], id, p)
  {
    ghost var before := ids[..];
    var x := PairSearch(ids, id.mid);
    if x <= ids[0].mid && ids[x].mid == id.mid {
      return -1;
    }
    if ids[0].mid >= UM_MAX {
      return -2;
    }
    ids[0] := ids[0].(mid := ids[0].mid + 1);
    var i := ids[0].mid;
    while i > x
      invariant x <= i <= ids[0].mid == before[0].mid + 1
      invariant forall k :: 1 <= k <= i && k < ids[0].mid ==> ids[k] == before[k]
      invariant forall k :: i < k <= ids[0].mid ==> ids[k] == before[k - 1]
    {
      ids[i] := ids[i - 1];
      i := i - 1;
    }
    ids[x] := id;
    InsertedInOrder(before, ids[..], x, id);
    rc := 0;
  }

  lemma InsertedInOrder(before: seq<Id2>, after: seq<Id2>, p: int, id: Id2)
    requires IsPairList(before) && PairSplit(before, id.mid, p) && before[0].mid + 1 < |before| == |after|
    requires p <= before[0].mid ==> before[p].mid != id.mid
    requires after[0].mid == before[0].mid + 1 && after[p] == id
    requires forall k :: 1 <= k < p ==> after[k] == before[k]
    requires forall k :: p < k <= after[0].mid ==> after[k] == before[k - 1]
    ensures InsertedAt(before, after, id, p)
  {
    forall x, y | 1 <= x < y <= after[0].mid
      ensures after[x].mid < after[y].mid
    {
      if y > p {
        assert after[y] == before[y - 1];
        if x > p {
          assert after[x] == before[x - 1];
        } else if x == p {
          assert p < y - 1 ==> before[p].mid < before[y - 1].mid;
        }
      }
    }
  }
}
