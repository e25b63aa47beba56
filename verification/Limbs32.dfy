/** Numbers in 32-bit limbs, least significant first, and the 96-bit accumulator that sums products of limbs. */
module Limbs32 {
  import opened Arith

  type Word = x: int | 0 <= x < 0x1_0000_0000 witness 0

  const TWO_256: int := 0x1_0000_0000_0000_0000_0000_0000_0000_0000_0000_0000_0000_0000_0000_0000_0000_0000
  const TWO_512: int := 0x1_0000_0000_0000_0000_0000_0000_0000_0000_0000_0000_0000_0000_0000_0000_0000_0000_0000_0000_0000_0000_0000_0000_0000_0000_0000_0000_0000_0000_0000_0000_0000_0000

  /** A low limb and what stands above it. */
  function Join(lo: int, hi: int): int { lo + OneLimbUp(hi) }

  function OneLimbUp(hi: int): int { hi * 0x1_0000_0000 }

  /** The number that eight limbs stand for. */
  function Val8(d: seq<int>): int
    requires |d| == 8
  {
    Join(d[0], Join(d[1], Join(d[2], Join(d[3], Join(d[4], Join(d[5], Join(d[6], d[7])))))))
  }

  /** The number that sixteen limbs stand for. */
  function Val16(l: seq<int>): int
    requires |l| == 16
  {
    Join(l[0], Join(l[1], Join(l[2], Join(l[3], Join(l[4], Join(l[5], Join(l[6], Join(l[7], Join(l[8], Join(l[9], Join(l[10], Join(l[11], Join(l[12], Join(l[13], Join(l[14], l[15])))))))))))))))
  }

  // ----- the accumulator

  datatype Acc = Acc(c0: Word, c1: Word, c2: Word)

  function AccVal(c: Acc): nat {
    Join(c.c0, Join(c.c1, c.c2))
  }

  const EMPTY: Acc := Acc(0, 0, 0)

  lemma ProdBound(a: Word, b: Word)
    ensures 0 <= Prod(a, b) <= 0xFFFF_FFFE_0000_0001
  {
    MulMono(a, 0xFFFF_FFFF, b);
    MulMono(b, 0xFFFF_FFFF, 0xFFFF_FFFF);
    MulMono(0, a, b);
  }

  /** A 32-bit sum, and the carry that comparing it with an operand reveals. */
  function Add32(x: int, y: int): (s: Word) { (x + y) % 0x1_0000_0000 }

  function Carry(s: int, y: int): int { if s < y then 1 else 0 }

  lemma CarryExact(x: Word, y: Word)
    ensures x + y == Add32(x, y) + 0x1_0000_0000 * Carry(Add32(x, y), y)
  {
  }

  /** The two words of a product. */
  method WideMul(a: Word, b: Word) returns (th: int, tl: int)
    ensures Prod(a, b) == tl + 0x1_0000_0000 * th && 0 <= tl < 0x1_0000_0000 && 0 <= th <= 0xFFFF_FFFE
    ensures 0 <= Prod(a, b) <= 0xFFFF_FFFE_0000_0001
  {
    ProdBound(a, b);
    hide Prod;
    var t := Prod(a, b);
    th, tl := t / 0x1_0000_0000, t % 0x1_0000_0000;
  }

  /** Adds a * b; the top word must not overflow. */
  method MulAdd(c: Acc, a: Word, b: Word) returns (r: Acc)
    requires AccVal(c) <= 0xFFFF_FFFF_0000_0000_0000_0000
    ensures AccVal(r) == AccVal(c) + Prod(a, b)
    ensures 0 <= Prod(a, b) <= 0xFFFF_FFFE_0000_0001
  {
    hide Prod, Add32;
    var th, tl := WideMul(a, b);
    var c0 := Add32(c.c0, tl);
    CarryExact(c.c0, tl);
    th := th + Carry(c0, tl);
    var c1 := Add32(c.c1, th);
    CarryExact(c.c1, th);
    var c2: int := c.c2 + Carry(c1, th);
    r := Acc(c0, c1, c2);
  }

  /** Adds a * b to an accumulator that stays below 64 bits. */
  method MulAddFast(c: Acc, a: Word, b: Word) returns (r: Acc)
    requires c.c2 == 0 && AccVal(c) + Prod(a, b) < 0x1_0000_0000_0000_0000
    ensures AccVal(r) == AccVal(c) + Prod(a, b) && r.c2 == 0
    ensures 0 <= Prod(a, b) <= 0xFFFF_FFFE_0000_0001
  {
    hide Prod, Add32;
    var th, tl := WideMul(a, b);
    var c0 := Add32(c.c0, tl);
    CarryExact(c.c0, tl);
    th := th + Carry(c0, tl);
    var c1: int := c.c1 + th;
    r := Acc(c0, c1, c.c2);
  }

  /** Adds 2 * a * b, with a carry out of each doubling. */
  method MulAdd2(c: Acc, a: Word, b: Word) returns (r: Acc)
    requires AccVal(c) <= 0xFFFF_FFFE_0000_0000_0000_0000
    ensures AccVal(r) == AccVal(c) + 2 * Prod(a, b)
    ensures 0 <= Prod(a, b) <= 0xFFFF_FFFE_0000_0001
  {
    hide Prod, Add32;
    var th, tl := WideMul(a, b);
    var th2: int := Add32(th, th);
    CarryExact(th, th);
    var c2: int := c.c2 + Carry(th2, th);
    var tl2: int := Add32(tl, tl);
    CarryExact(tl, tl);
    th2 := th2 + Carry(tl2, tl);
    var c0 := Add32(c.c0, tl2);
    CarryExact(c.c0, tl2);
    var over := Carry(c0, tl2);
    CarryExact(th2, over);
    th2 := Add32(th2, over);
    c2 := c2 + if over == 1 && th2 == 0 then 1 else 0;
    var c1 := Add32(c.c1, th2);
    CarryExact(c.c1, th2);
    c2 := c2 + Carry(c1, th2);
    r := Acc(c0, c1, c2);
  }

  method SumAdd(c: Acc, a: Word) returns (r: Acc)
    requires AccVal(c) + a < 0x1_0000_0000_0000_0000_0000_0000
    ensures AccVal(r) == AccVal(c) + a
  {
    hide Add32;
    var c0 := Add32(c.c0, a);
    CarryExact(c.c0, a);
    var over := Carry(c0, a);
    var c1 := Add32(c.c1, over);
    CarryExact(c.c1, over);
    var c2: int := c.c2 + Carry(c1, over);
    r := Acc(c0, c1, c2);
  }

  method SumAddFast(c: Acc, a: Word) returns (r: Acc)
    requires c.c2 == 0 && AccVal(c) + a < 0x1_0000_0000_0000_0000
    ensures AccVal(r) == AccVal(c) + a && r.c2 == 0
  {
    hide Add32;
    var c0 := Add32(c.c0, a);
    CarryExact(c.c0, a);
    var c1: int := c.c1 + Carry(c0, a);
    r := Acc(c0, c1, c.c2);
  }

  /** Takes the lowest word out and shifts the rest down. */
  method Extract(c: Acc) returns (n: Word, r: Acc)
    ensures AccVal(c) == Join(n, AccVal(r))
    ensures r.c2 == 0
  {
    n, r := c.c0, Acc(c.c1, c.c2, 0);
  }

  method ExtractFast(c: Acc) returns (n: Word, r: Acc)
    requires c.c2 == 0
    ensures AccVal(c) == Join(n, AccVal(r))
    ensures r.c1 == 0 && r.c2 == 0
  {
    n, r := c.c0, Acc(c.c1, 0, c.c2);
  }

  lemma AccEmpty()
    ensures AccVal(EMPTY) == 0
  {
  }

  lemma AccOfWord(w: Word)
    ensures AccVal(Acc(w, 0, 0)) == w
  {
  }

  lemma AccSmall(c: Acc)
    ensures AccVal(c) < 0x1_0000_0000_0000_0000 ==> c.c2 == 0
  {
  }

  lemma AccLow(c: Acc)
    ensures c.c1 == 0 && c.c2 == 0 ==> AccVal(c) == c.c0
  {
  }

  lemma Val8Bound(a: seq<Word>)
    requires |a| == 8
    ensures 0 <= Val8(a) < TWO_256
  {
  }

  method WriteLimbs(l: array<Word>, v: seq<Word>)
    requires l.Length == |v|
    modifies l
    ensures l[..] == v
  {
    for i := 0 to l.Length
      invariant forall k :: 0 <= k < i ==> l[k] == v[k]
    {
      l[i] := v[i];
    }
  }
}
