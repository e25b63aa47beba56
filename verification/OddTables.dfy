/** Tables of odd multiples of a point: the entries a, 3a, 5a, ... and signed lookup in them. */
module OddTables {
  import opened Arith
  import opened Groups
  import opened Wnaf

  function TableSize(w: nat): nat
    requires w >= 2
  {
    Pow2(w - 2)
  }

  ghost predicate OddTable<P>(g: Group<P>, pre: seq<P>, a: P) {
    forall i :: 0 <= i < |pre| ==> pre[i] == Mul(g, 2 * i + 1, a)
  }

  method OddMultiplesTable<P(!new)>(g: Group<P>, n: nat, pre: array<P>, off: nat, a: P)
    requires IsGroup(g) && a != g.zero
    requires n > 0 && off + n <= pre.Length
    modifies pre
    ensures OddTable(g, pre[off..off + n], a)
    ensures forall i :: 0 <= i < pre.Length && !(off <= i < off + n) ==> pre[i] == old(pre[i])
  {
    var d := g.add(a, a);
    pre[off] := a;
    MulSucc(g, 0, a);
    MulSucc(g, 1, a);
    for i := 1 to n
      invariant forall j :: 0 <= j < i ==> pre[off + j] == Mul(g, 2 * j + 1, a)
      invariant forall j :: 0 <= j < pre.Length && !(off <= j < off + i) ==> pre[j] == old(pre[j])
    {
      MulAdd(g, 2 * i - 1, 2, a);
      assert pre[off + (i - 1)] == Mul(g, 2 * (i - 1) + 1, a);
      pre[off + i] := g.add(pre[off + i - 1], d);
    }
  }

  /** The lookup of a nonzero digit n: an entry, or the negation of one. */
  function TableGet<P>(g: Group<P>, pre: seq<P>, n: int, w: nat): P
    requires w >= 2 && |pre| == TableSize(w)
    requires n % 2 == 1 && Abs(n) < Pow2(w - 1)
  {
    Pow2Even(w - 1);
    if n > 0 then pre[(n - 1) / 2] else g.neg(pre[(-n - 1) / 2])
  }

  lemma TableGetMultiplies<P(!new)>(g: Group<P>, pre: seq<P>, n: int, w: nat, a: P)
    requires IsGroup(g)
    requires w >= 2 && |pre| == TableSize(w) && OddTable(g, pre, a)
    requires n % 2 == 1 && Abs(n) < Pow2(w - 1)
    ensures TableGet(g, pre, n, w) == Mul(g, n, a)
  {
    Pow2Even(w - 1);
    if n < 0 {
      MulNeg(g, -n, a);
      assert pre[(-n - 1) / 2] == Mul(g, 2 * ((-n - 1) / 2) + 1, a);
    } else {
      assert pre[(n - 1) / 2] == Mul(g, 2 * ((n - 1) / 2) + 1, a);
    }
  }
}
