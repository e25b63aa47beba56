/** What pins the tables and operations of BLAKE2b down without naming their definitions (sections 2.6 and 2.7 and
    appendix A of RFC 7693). */
module Blake2Facts {
  import opened Blake2Spec

  /** Bit i modulo 64 of a word. */
  function At(x: Word, i: bv7): bool { (x >> (i & 63)) & 1 == 1 }

  /** Every bit of a rotated word comes from n places further up, round the end. */
  lemma RotrAt(x: Word, n: bv7, j: bv7)
    requires (n == 32 || n == 24 || n == 16 || n == 63) && j < 64
    ensures At(Rotr(x, n), j) == At(x, j + n)
  {
    if n == 32 {
    } else if n == 24 {
    } else if n == 16 {
    }
  }

  /** At which place round r uses message word s. */
  function Place(r: nat, s: nat): (i: nat)
    requires r < 12 && s < 16
    ensures i < 16
  {
    var places := Places(r);
    if places[s] < 16 then places[s] else 0
  }

  function Places(r: nat): (places: seq<nat>)
    requires r < 12
    ensures |places| == 16
  {
    match r
    case 0 => [0, 1, 2, 3, 4, 5, 6, 7, 8, 9, 10, 11, 12, 13, 14, 15]
    case 1 => [10, 8, 11, 15, 2, 14, 7, 13, 3, 4, 1, 12, 9, 6, 0, 5]
    case 2 => [3, 13, 5, 10, 15, 4, 11, 12, 1, 14, 8, 0, 2, 7, 9, 6]
    case 3 => [13, 3, 8, 2, 12, 10, 9, 0, 15, 1, 11, 6, 5, 4, 7, 14]
    case 4 => [1, 9, 4, 14, 5, 2, 12, 3, 13, 0, 6, 10, 11, 15, 8, 7]
    case 5 => [4, 14, 0, 7, 8, 11, 2, 10, 6, 15, 3, 5, 1, 9, 13, 12]
    case 6 => [8, 2, 13, 11, 6, 1, 10, 9, 14, 12, 7, 15, 0, 5, 4, 3]
    case 7 => [9, 5, 14, 6, 11, 8, 13, 2, 12, 7, 15, 1, 4, 0, 3, 10]
    case 8 => [6, 12, 9, 5, 13, 15, 0, 11, 7, 3, 14, 4, 8, 10, 2, 1]
    case 9 => [15, 6, 1, 12, 3, 7, 5, 4, 2, 10, 0, 9, 13, 14, 11, 8]
    case 10 => [0, 1, 2, 3, 4, 5, 6, 7, 8, 9, 10, 11, 12, 13, 14, 15]
    case _ => [10, 8, 11, 15, 2, 14, 7, 13, 3, 4, 1, 12, 9, 6, 0, 5]
  }

  lemma Row0(s: nat)
    requires s < 16
    ensures Sigma(0, Place(0, s)) == s
  {
  }

  lemma Row1(s: nat)
    requires s < 16
    ensures Sigma(1, Place(1, s)) == s
  {
  }

  lemma Row2(s: nat)
    requires s < 16
    ensures Sigma(2, Place(2, s)) == s
  {
  }

  lemma Row3(s: nat)
    requires s < 16
    ensures Sigma(3, Place(3, s)) == s
  {
  }

  lemma Row4(s: nat)
    requires s < 16
    ensures Sigma(4, Place(4, s)) == s
  {
  }

  lemma Row5(s: nat)
    requires s < 16
    ensures Sigma(5, Place(5, s)) == s
  {
  }

  lemma Row6(s: nat)
    requires s < 16
    ensures Sigma(6, Place(6, s)) == s
  {
  }

  lemma Row7(s: nat)
    requires s < 16
    ensures Sigma(7, Place(7, s)) == s
  {
  }

  lemma Row8(s: nat)
    requires s < 16
    ensures Sigma(8, Place(8, s)) == s
  {
  }

  lemma Row9(s: nat)
    requires s < 16
    ensures Sigma(9, Place(9, s)) == s
  {
  }

  lemma Row10(s: nat)
    requires s < 16
    ensures Sigma(10, Place(10, s)) == s
  {
  }

  lemma Row11(s: nat)
    requires s < 16
    ensures Sigma(11, Place(11, s)) == s
  {
  }

  /** Every row of the schedule is a permutation: each of the sixteen message words comes at its place. */
  lemma RowsPermute(r: nat, s: nat)
    requires r < 12 && s < 16
    ensures Sigma(r, Place(r, s)) == s
  {
    hide Sigma, Place;
    match r
    case 0 => Row0(s);
    case 1 => Row1(s);
    case 2 => Row2(s);
    case 3 => Row3(s);
    case 4 => Row4(s);
    case 5 => Row5(s);
    case 6 => Row6(s);
    case 7 => Row7(s);
    case 8 => Row8(s);
    case 9 => Row9(s);
    case 10 => Row10(s);
    case _ => Row11(s);
  }

  /** The last two rounds use the words in the order of the first two. */
  lemma RowsRepeat(i: nat)
    requires i < 16
    ensures Sigma(10, i) == Sigma(0, i) == i && Sigma(11, i) == Sigma(1, i)
  {
  }

  /** The initial value holds the first 64 bits behind the point of the square root of p. */
  predicate SquareRootBits(p: nat, k: Word, whole: nat) {
    var root := whole * 0x1_00000000_00000000 + k as nat;
    root * root <= p * 0x1_00000000_00000000_00000000_00000000 < (root + 1) * (root + 1)
  }

  lemma InitialValues0()
    ensures SquareRootBits(2, IV(0), 1)
    ensures SquareRootBits(3, IV(1), 1)
    ensures SquareRootBits(5, IV(2), 2)
    ensures SquareRootBits(7, IV(3), 2)
  {
  }

  lemma InitialValues4()
    ensures SquareRootBits(11, IV(4), 3)
    ensures SquareRootBits(13, IV(5), 3)
    ensures SquareRootBits(17, IV(6), 4)
    ensures SquareRootBits(19, IV(7), 4)
  {
  }

  /** The initial value holds the first 64 fractional bits of the square roots of the first eight primes. */
  lemma InitialValues()
    ensures SquareRootBits(2, IV(0), 1)
    ensures SquareRootBits(3, IV(1), 1)
    ensures SquareRootBits(5, IV(2), 2)
    ensures SquareRootBits(7, IV(3), 2)
    ensures SquareRootBits(11, IV(4), 3)
    ensures SquareRootBits(13, IV(5), 3)
    ensures SquareRootBits(17, IV(6), 4)
    ensures SquareRootBits(19, IV(7), 4)
  {
    hide IV, SquareRootBits;
    InitialValues0();
    InitialValues4();
  }

  /** Octet k of a word is its k-th from the bottom. */
  lemma WordOfAt(b: seq<Octet>)
    requires |b| == 8
    ensures BytesOf(WordOf(b)) == b
  {
  }

  lemma XorUndone(x: Word, y: Word)
    ensures Xor(Xor(x, y), x) == y
  {
  }

  /** The hash comes first and the initial value second; the counter and the flags change one word each. */
  lemma StartsDiffer(h: seq<Word>, t0: nat, t1: nat, f0: Word, f1: Word)
    requires |h| == 8 && t0 < 0x1_0000_0000_0000_0000 && t1 < 0x1_0000_0000_0000_0000
    ensures var v := StartVector(h, t0, t1, f0, f1);
      v[..8] == h && v[8] == IV(0) && v[9] == IV(1) && v[10] == IV(2) && v[11] == IV(3)
      && Xor(v[12], IV(4)) == t0 as Word && Xor(v[13], IV(5)) == t1 as Word
      && Xor(v[14], IV(6)) == f0 && Xor(v[15], IV(7)) == f1
  {
    hide IV, Xor;
    XorUndone(IV(4), t0 as Word);
    XorUndone(IV(5), t1 as Word);
    XorUndone(IV(6), f0);
    XorUndone(IV(7), f1);
  }

  /** A raised flag inverts its word, any other leaves it alone. */
  lemma FlagInverts(x: Word)
    ensures Xor(x, Flag(true)) == !x && Xor(x, Flag(false)) == x
  {
  }

  /** The parameters change the first word only: the digest length, the key length, and one for fanout and depth. */
  lemma InitialHashAt(outlen: nat, keylen: nat, i: nat)
    requires outlen <= 64 && keylen <= 64 && i < 8
    ensures InitialHash(outlen, keylen)[i] ^ IV(i)
         == if i == 0 then 0x0101_0000 + ((keylen as Word) << 8) + outlen as Word else 0
  {
  }
}

/** A known answer: the digest of the three octets 0x61, 0x62, 0x63 (appendix A of RFC 7693), worked out by half rounds. */
module Blake2Answer {
  import opened Blake2Spec

  /** The four words that one step changes: a column of the working vector, or a diagonal. */
  datatype Quarter = Quarter(a: Word, b: Word, c: Word, d: Word)

  /** The working vector by its columns. */
  datatype Vector = Vector(c0: Quarter, c1: Quarter, c2: Quarter, c3: Quarter)

  function HalfQuarter(q: Quarter, x: Word, p: bv7, r: bv7): Quarter
    requires 0 < p < 64 && 0 < r < 64
  {
    var a := Add(Add(q.a, q.b), x);
    var d := Rotr(Xor(q.d, a), p);
    var c := Add(q.c, d);
    Quarter(a, Rotr(Xor(q.b, c), r), c, d)
  }

  function MixQuarter(q: Quarter, x: Word, y: Word): Quarter {
    HalfQuarter(HalfQuarter(q, x, 32, 24), y, 16, 63)
  }

  function Pick(v: seq<Word>, a: nat, b: nat, c: nat, d: nat): Quarter
    requires |v| == 16 && a < 16 && b < 16 && c < 16 && d < 16
  {
    Quarter(v[a], v[b], v[c], v[d])
  }

  function VectorOf(v: seq<Word>): Vector
    requires |v| == 16
  {
    Vector(Pick(v, 0, 4, 8, 12), Pick(v, 1, 5, 9, 13), Pick(v, 2, 6, 10, 14), Pick(v, 3, 7, 11, 15))
  }

  lemma HalfMixIs(v: seq<Word>, a: nat, b: nat, c: nat, d: nat, x: Word, p: bv7, r: bv7)
    requires |v| == 16 && a < 4 <= b < 8 <= c < 12 <= d < 16 && 0 < p < 64 && 0 < r < 64
    ensures var w := HalfMix(v, a, b, c, d, x, p, r);
      Pick(w, a, b, c, d) == HalfQuarter(Pick(v, a, b, c, d), x, p, r)
      && forall i :: 0 <= i < 16 && i != a && i != b && i != c && i != d ==> w[i] == v[i]
  {
    hide Add, Xor, Rotr;
  }

  /** A step mixes its four words and leaves the others alone. */
  lemma MixIs(v: seq<Word>, a: nat, b: nat, c: nat, d: nat, x: Word, y: Word)
    requires |v| == 16 && a < 4 <= b < 8 <= c < 12 <= d < 16
    ensures var w := Mix(v, a, b, c, d, x, y);
      Pick(w, a, b, c, d) == MixQuarter(Pick(v, a, b, c, d), x, y)
      && forall i :: 0 <= i < 16 && i != a && i != b && i != c && i != d ==> w[i] == v[i]
  {
    hide HalfMix, HalfQuarter;
    HalfMixIs(v, a, b, c, d, x, 32, 24);
    HalfMixIs(HalfMix(v, a, b, c, d, x, 32, 24), a, b, c, d, y, 16, 63);
  }

  /** The word of the message that step i of a round uses first, when its only non-zero word comes at place p. */
  function Given(p: nat, i: nat): Word { if i == p then 0x636261 else 0 }

  function MixColumns(v: Vector, p: nat): Vector {
    Vector(MixQuarter(v.c0, Given(p, 0), Given(p, 1)), MixQuarter(v.c1, Given(p, 2), Given(p, 3)),
           MixQuarter(v.c2, Given(p, 4), Given(p, 5)), MixQuarter(v.c3, Given(p, 6), Given(p, 7)))
  }

  /** The diagonals of a vector given by its columns, and back. */
  function Turn(v: Vector): Vector {
    Vector(Quarter(v.c0.a, v.c1.b, v.c2.c, v.c3.d), Quarter(v.c1.a, v.c2.b, v.c3.c, v.c0.d),
           Quarter(v.c2.a, v.c3.b, v.c0.c, v.c1.d), Quarter(v.c3.a, v.c0.b, v.c1.c, v.c2.d))
  }

  function TurnBack(v: Vector): Vector {
    Vector(Quarter(v.c0.a, v.c3.b, v.c2.c, v.c1.d), Quarter(v.c1.a, v.c0.b, v.c3.c, v.c2.d),
           Quarter(v.c2.a, v.c1.b, v.c0.c, v.c3.d), Quarter(v.c3.a, v.c2.b, v.c1.c, v.c0.d))
  }

  function MixTurned(v: Vector, p: nat): Vector {
    Vector(MixQuarter(v.c0, Given(p, 8), Given(p, 9)), MixQuarter(v.c1, Given(p, 10), Given(p, 11)),
           MixQuarter(v.c2, Given(p, 12), Given(p, 13)), MixQuarter(v.c3, Given(p, 14), Given(p, 15)))
  }

  function DiagonalsOf(v: seq<Word>): Vector
    requires |v| == 16
  {
    Vector(Pick(v, 0, 5, 10, 15), Pick(v, 1, 6, 11, 12), Pick(v, 2, 7, 8, 13), Pick(v, 3, 4, 9, 14))
  }

  lemma Turned(v: seq<Word>)
    requires |v| == 16
    ensures DiagonalsOf(v) == Turn(VectorOf(v)) && VectorOf(v) == TurnBack(DiagonalsOf(v))
  {
  }

  predicate Ordered(m: seq<Word>, r: nat, p: nat)
    requires |m| == 16 && r < 12
  {
    forall i :: 0 <= i < 16 ==> m[Sigma(r, i)] == Given(p, i)
  }

  lemma OneStep(v: seq<Word>, m: seq<Word>, r: nat, i: nat)
    requires |v| == 16 && |m| == 16 && r < 12 && i < 8
    ensures Steps(v, m, 8 * r + i + 1) == Step(Steps(v, m, 8 * r + i), m, r, i)
  {
    hide Step;
  }

  lemma FirstColumns(v: seq<Word>, m: seq<Word>, r: nat, p: nat)
    requires |v| == 16 && |m| == 16 && r < 12 && Ordered(m, r, p)
    ensures var w := Step(Step(v, m, r, 0), m, r, 1);
      var u, n := VectorOf(v), VectorOf(w);
      n.c0 == MixQuarter(u.c0, Given(p, 0), Given(p, 1)) && n.c1 == MixQuarter(u.c1, Given(p, 2), Given(p, 3))
      && n.c2 == u.c2 && n.c3 == u.c3
  {
    hide Mix, MixQuarter, Sigma, Given;
    MixIs(v, 0, 4, 8, 12, Given(p, 0), Given(p, 1));
    MixIs(Step(v, m, r, 0), 1, 5, 9, 13, Given(p, 2), Given(p, 3));
  }

  lemma LastColumns(v: seq<Word>, m: seq<Word>, r: nat, p: nat)
    requires |v| == 16 && |m| == 16 && r < 12 && Ordered(m, r, p)
    ensures var w := Step(Step(v, m, r, 2), m, r, 3);
      var u, n := VectorOf(v), VectorOf(w);
      n.c0 == u.c0 && n.c1 == u.c1
      && n.c2 == MixQuarter(u.c2, Given(p, 4), Given(p, 5)) && n.c3 == MixQuarter(u.c3, Given(p, 6), Given(p, 7))
  {
    hide Mix, MixQuarter, Sigma, Given;
    MixIs(v, 2, 6, 10, 14, Given(p, 4), Given(p, 5));
    MixIs(Step(v, m, r, 2), 3, 7, 11, 15, Given(p, 6), Given(p, 7));
  }

  /** The first four steps of a round mix the columns. */
  lemma Columns(h: seq<Word>, m: seq<Word>, r: nat, p: nat)
    requires |h| == 16 && |m| == 16 && r < 12 && Ordered(m, r, p)
    ensures VectorOf(Steps(h, m, 8 * r + 4)) == MixColumns(VectorOf(Steps(h, m, 8 * r)), p)
  {
    hide Step, Steps, VectorOf, MixQuarter, Ordered, Given;
    OneStep(h, m, r, 0);
    OneStep(h, m, r, 1);
    OneStep(h, m, r, 2);
    OneStep(h, m, r, 3);
    FirstColumns(Steps(h, m, 8 * r), m, r, p);
    LastColumns(Steps(h, m, 8 * r + 2), m, r, p);
  }

  lemma FirstDiagonals(v: seq<Word>, m: seq<Word>, r: nat, p: nat)
    requires |v| == 16 && |m| == 16 && r < 12 && Ordered(m, r, p)
    ensures var w := Step(Step(v, m, r, 4), m, r, 5);
      var u, n := DiagonalsOf(v), DiagonalsOf(w);
      n.c0 == MixQuarter(u.c0, Given(p, 8), Given(p, 9)) && n.c1 == MixQuarter(u.c1, Given(p, 10), Given(p, 11))
      && n.c2 == u.c2 && n.c3 == u.c3
  {
    hide Mix, MixQuarter, Sigma, Given;
    MixIs(v, 0, 5, 10, 15, Given(p, 8), Given(p, 9));
    MixIs(Step(v, m, r, 4), 1, 6, 11, 12, Given(p, 10), Given(p, 11));
  }

  lemma LastDiagonals(v: seq<Word>, m: seq<Word>, r: nat, p: nat)
    requires |v| == 16 && |m| == 16 && r < 12 && Ordered(m, r, p)
    ensures var w := Step(Step(v, m, r, 6), m, r, 7);
      var u, n := DiagonalsOf(v), DiagonalsOf(w);
      n.c0 == u.c0 && n.c1 == u.c1
      && n.c2 == MixQuarter(u.c2, Given(p, 12), Given(p, 13)) && n.c3 == MixQuarter(u.c3, Given(p, 14), Given(p, 15))
  {
    hide Mix, MixQuarter, Sigma, Given;
    MixIs(v, 2, 7, 8, 13, Given(p, 12), Given(p, 13));
    MixIs(Step(v, m, r, 6), 3, 4, 9, 14, Given(p, 14), Given(p, 15));
  }

  /** The last four mix the diagonals. */
  lemma Diagonals(h: seq<Word>, m: seq<Word>, r: nat, p: nat)
    requires |h| == 16 && |m| == 16 && r < 12 && Ordered(m, r, p)
    ensures VectorOf(Steps(h, m, 8 * r + 8)) == TurnBack(MixTurned(Turn(VectorOf(Steps(h, m, 8 * r + 4))), p))
  {
    hide Step, Steps, VectorOf, DiagonalsOf, Turn, TurnBack, MixQuarter, Ordered, Given;
    OneStep(h, m, r, 4);
    OneStep(h, m, r, 5);
    OneStep(h, m, r, 6);
    OneStep(h, m, r, 7);
    FirstDiagonals(Steps(h, m, 8 * r + 4), m, r, p);
    LastDiagonals(Steps(h, m, 8 * r + 6), m, r, p);
    Turned(Steps(h, m, 8 * r + 4));
    Turned(Steps(h, m, 8 * r + 8));
  }

  predicate IsBlock(m: seq<Word>) {
    |m| == 16 && m[0] == 0x636261 && forall i :: 0 < i < 16 ==> m[i] == 0
  }

  lemma OrderOfRow0(m: seq<Word>)
    requires IsBlock(m)
    ensures Ordered(m, 0, 0)
  {
    ghost var row := SigmaRow(0);
  }

  lemma OrderOfRow1(m: seq<Word>)
    requires IsBlock(m)
    ensures Ordered(m, 1, 10)
  {
    ghost var row := SigmaRow(1);
  }

  lemma OrderOfRow2(m: seq<Word>)
    requires IsBlock(m)
    ensures Ordered(m, 2, 3)
  {
    ghost var row := SigmaRow(2);
  }

  lemma OrderOfRow3(m: seq<Word>)
    requires IsBlock(m)
    ensures Ordered(m, 3, 13)
  {
    ghost var row := SigmaRow(3);
  }

  lemma OrderOfRow4(m: seq<Word>)
    requires IsBlock(m)
    ensures Ordered(m, 4, 1)
  {
    ghost var row := SigmaRow(4);
  }

  lemma OrderOfRow5(m: seq<Word>)
    requires IsBlock(m)
    ensures Ordered(m, 5, 4)
  {
    ghost var row := SigmaRow(5);
  }

  lemma OrderOfRow6(m: seq<Word>)
    requires IsBlock(m)
    ensures Ordered(m, 6, 8)
  {
    ghost var row := SigmaRow(6);
  }

  lemma OrderOfRow7(m: seq<Word>)
    requires IsBlock(m)
    ensures Ordered(m, 7, 9)
  {
    ghost var row := SigmaRow(7);
  }

  lemma OrderOfRow8(m: seq<Word>)
    requires IsBlock(m)
    ensures Ordered(m, 8, 6)
  {
    ghost var row := SigmaRow(8);
  }

  lemma OrderOfRow9(m: seq<Word>)
    requires IsBlock(m)
    ensures Ordered(m, 9, 15)
  {
    ghost var row := SigmaRow(9);
  }

  lemma OrderOfRow10(m: seq<Word>)
    requires IsBlock(m)
    ensures Ordered(m, 10, 0)
  {
    ghost var row := SigmaRow(10);
  }

  lemma OrderOfRow11(m: seq<Word>)
    requires IsBlock(m)
    ensures Ordered(m, 11, 10)
  {
    ghost var row := SigmaRow(11);
  }

  ghost predicate Begins(h: seq<Word>) {
    |h| == 16 && VectorOf(h) ==
      Vector(Quarter(0x6a09e667f2bdc948, 0x510e527fade682d1, 0x6a09e667f3bcc908, 0x510e527fade682d2),
             Quarter(0xbb67ae8584caa73b, 0x9b05688c2b3e6c1f, 0xbb67ae8584caa73b, 0x9b05688c2b3e6c1f),
             Quarter(0x3c6ef372fe94f82b, 0x1f83d9abfb41bd6b, 0x3c6ef372fe94f82b, 0xe07c265404be4294),
             Quarter(0xa54ff53a5f1d36f1, 0x5be0cd19137e2179, 0xa54ff53a5f1d36f1, 0x5be0cd19137e2179))
  }

  lemma Worked0(h: seq<Word>, m: seq<Word>)
    requires Begins(h) && IsBlock(m)
    ensures VectorOf(Steps(h, m, 0)) ==
      Vector(Quarter(0x6a09e667f2bdc948, 0x510e527fade682d1, 0x6a09e667f3bcc908, 0x510e527fade682d2),
             Quarter(0xbb67ae8584caa73b, 0x9b05688c2b3e6c1f, 0xbb67ae8584caa73b, 0x9b05688c2b3e6c1f),
             Quarter(0x3c6ef372fe94f82b, 0x1f83d9abfb41bd6b, 0x3c6ef372fe94f82b, 0xe07c265404be4294),
             Quarter(0xa54ff53a5f1d36f1, 0x5be0cd19137e2179, 0xa54ff53a5f1d36f1, 0x5be0cd19137e2179))
  {
  }

  lemma Worked1(h: seq<Word>, m: seq<Word>)
    requires Begins(h) && IsBlock(m)
    ensures VectorOf(Steps(h, m, 4)) ==
      Vector(Quarter(0xf0c9aa0f86491dea, 0xb7defc3d0277e11f, 0xee5e0f39647a9fff, 0x7772fc2886a76c5f),
             Quarter(0x63b7dedf4a4e5ad3, 0xed49c30cd311d50e, 0x7bee264bf3cdadfe, 0x254ef880a19a8726),
             Quarter(0xbe50eb454e0a93d7, 0xa056671704b00d71, 0xb2752dadd66bd8f9, 0x789d43381c47f584),
             Quarter(0x949804b0483ead14, 0x75e6432fc4661b06, 0xa99463cb37905929, 0xa25ef57d7da312ee))
  {
    hide VectorOf;
    Worked0(h, m);
    OrderOfRow0(m);
    Columns(h, m, 0, 0);
  }

  lemma Worked2(h: seq<Word>, m: seq<Word>)
    requires Begins(h) && IsBlock(m)
    ensures VectorOf(Steps(h, m, 8)) ==
      Vector(Quarter(0x86b7c1568029bb79, 0x44ee6039bd86a9f7, 0xbec3ae837eac4887, 0xe02d0975b8d37a83),
             Quarter(0xc12cbcc809ff59f3, 0xa447c850aa694a7e, 0x6267fc79df9d6ad1, 0x1c7b754f08b7d193),
             Quarter(0xc6a5214cc0eaca8e, 0xde080f1bb1c0f84b, 0xfa87b01273fa6dbe, 0x8f885a76b6e578fe),
             Quarter(0x0c87cd524c14cc5d, 0x595cb8a9a1aca66c, 0x521a715c63e08d8a, 0x2318a24e2140fc64))
  {
    hide VectorOf;
    Worked1(h, m);
    OrderOfRow0(m);
    Diagonals(h, m, 0, 0);
  }

  lemma Worked3(h: seq<Word>, m: seq<Word>)
    requires Begins(h) && IsBlock(m)
    ensures VectorOf(Steps(h, m, 12)) ==
      Vector(Quarter(0x7d7ebc91065eb487, 0xa2a2bb290a6fa0ac, 0xe089c6944d999f41, 0x9c62f81da3622dd5),
             Quarter(0x2985dbd3b522b163, 0x48daa2180cca574f, 0x607c07b706df2755, 0x4134955aae31cc2d),
             Quarter(0x83dcc7c95110e507, 0x25804d5986d6e07f, 0x4defb1cc1d0e5211, 0x8f1947927dee7a35),
             Quarter(0xd5f7d943ae7a12d4, 0x47dc958f84e67b9c, 0x53fd198002cb9dc5, 0x3561197657eee886))
  {
    hide VectorOf;
    Worked2(h, m);
    OrderOfRow1(m);
    Columns(h, m, 1, 10);
  }

  lemma Worked4(h: seq<Word>, m: seq<Word>)
    requires Begins(h) && IsBlock(m)
    ensures VectorOf(Steps(h, m, 16)) ==
      Vector(Quarter(0x53281e83806010f2, 0xbaabdbb2f386d9ae, 0x224e6a3369224f96, 0x92a3aaaa6d952b7f),
             Quarter(0x3594b403f81b4393, 0xca5425aec65a10a8, 0x500e125e58a92923, 0xc5fdf71090fae853),
             Quarter(0x8cd63c7462de0dff, 0xc6a22e2ff0f7aa48, 0xe9e4ad0d0e1a0d48, 0x2a8a40f15a462dd0),
             Quarter(0x85f693f3da53f974, 0xc6a56a51cb89c595, 0x85df9dc143c59a74, 0x572d17effdd37358))
  {
    hide VectorOf;
    Worked3(h, m);
    OrderOfRow1(m);
    Diagonals(h, m, 1, 10);
  }

  lemma Worked5(h: seq<Word>, m: seq<Word>)
    requires Begins(h) && IsBlock(m)
    ensures VectorOf(Steps(h, m, 20)) ==
      Vector(Quarter(0x224d9730ddde8c9b, 0x1161e9566cec8636, 0x1cc968515f81e2e0, 0xdc073c3e56ef42ae),
             Quarter(0xe430476788c41ef0, 0x956fe864884ac584, 0xaef099868dce0a96, 0x3052cabffb0fb2d1),
             Quarter(0x4f163fda2e4243bf, 0x4dfeb83fd06a086b, 0x5d62892a32598f4d, 0x69ea4685aa4d57b0),
             Quarter(0x41dd8960f0de029d, 0x78c811fddf5c5824, 0xc92583e5a4ae6f86, 0xeb3719d34531eb68))
  {
    hide VectorOf;
    Worked4(h, m);
    OrderOfRow2(m);
    Columns(h, m, 2, 3);
  }

  lemma Worked6(h: seq<Word>, m: seq<Word>)
    requires Begins(h) && IsBlock(m)
    ensures VectorOf(Steps(h, m, 24)) ==
      Vector(Quarter(0x60ed96aa7ad41725, 0xda0a61bcde4267ea, 0xa1677e19f37fd5da, 0xc804ebab11c99fa9),
             Quarter(0xe46a743c71800b9d, 0xb1dd230754d7bdee, 0x22bdce6976b08c51, 0x8e0cec959c715793),
             Quarter(0x1a04b543a01f156b, 0x25a1422779e06d14, 0xf1de8696bec11bf1, 0x7c45557fae0d4d89),
             Quarter(0xa2f8716e775c4877, 0xe6823ae4c3ff58a5, 0xa0ebd586a4a1d2c8, 0x716343f52fdd265e))
  {
    hide VectorOf;
    Worked5(h, m);
    OrderOfRow2(m);
    Diagonals(h, m, 2, 3);
  }

  lemma Worked7(h: seq<Word>, m: seq<Word>)
    requires Begins(h) && IsBlock(m)
    ensures VectorOf(Steps(h, m, 28)) ==
      Vector(Quarter(0x6b864497a655fb47, 0xc4b99c558f3684e9, 0xd2d2821a8aa43e4c, 0xe88b2359a43154a6),
             Quarter(0xc1fd6110ffa75065, 0x065b83216e96ed93, 0xa898085d8e04f013, 0x2bb39bdbff08e7ec),
             Quarter(0x817908f78a142cfa, 0xf2d93929736e5b04, 0x38bf8d18c9a387f9, 0x8eee368bc701c9f4),
             Quarter(0xce1577a72bc1ce7b, 0x2795f81cfb8f7633, 0xd750375d8da19646, 0x21ddda93f0e5d3d8))
  {
    hide VectorOf;
    Worked6(h, m);
    OrderOfRow3(m);
    Columns(h, m, 3, 13);
  }

  lemma Worked8(h: seq<Word>, m: seq<Word>)
    requires Begins(h) && IsBlock(m)
    ensures VectorOf(Steps(h, m, 32)) ==
      Vector(Quarter(0xbb2a77d3a8382351, 0x8a03c4cb7e97590a, 0xa9c9a8f17b1fc614, 0x086092cfb858437e),
             Quarter(0x45eb47971f23b103, 0x24192e49ebf54ea0, 0x55908187977514a0, 0x5c4be2156dbeecf9),
             Quarter(0x98be297f6e45c684, 0x4f82c9401cb32d7a, 0x5b44273e66b19d27, 0x2efede99ed4eff16),
             Quarter(0xa36077dee3370b89, 0x8ccd013726420dc4, 0xb6d5c9fca2579327, 0x3e7b5f234cd1f804))
  {
    hide VectorOf;
    Worked7(h, m);
    OrderOfRow3(m);
    Diagonals(h, m, 3, 13);
  }

  lemma Worked9(h: seq<Word>, m: seq<Word>)
    requires Begins(h) && IsBlock(m)
    ensures VectorOf(Steps(h, m, 36)) ==
      Vector(Quarter(0x3e5bab618a5fbc72, 0x475dcc427f3fcd87, 0x5a8388e35cb33b75, 0x1222a0cc9444c711),
             Quarter(0x9be6aa793ad3a7c9, 0xbb2d4d7552ba222d, 0xec74922286e7b930, 0x303dfd40b9230c9c),
             Quarter(0xc5252a4d03f65b2f, 0xcdcfc26e59d1d349, 0x3a03d6ba54158e95, 0x7709a29326a5c548),
             Quarter(0x1fe21186bd238be3, 0x8bc33bc025ae3c8e, 0xaa550590a17d6cd1, 0xadd65a4af0cfb375))
  {
    hide VectorOf;
    Worked8(h, m);
    OrderOfRow4(m);
    Columns(h, m, 4, 1);
  }

  lemma Worked10(h: seq<Word>, m: seq<Word>)
    requires Begins(h) && IsBlock(m)
    ensures VectorOf(Steps(h, m, 40)) ==
      Vector(Quarter(0xc79c15b3d423b099, 0x0f6d9eeed157da2a, 0xb2240b59e6d567d3, 0xb97d2d439e4df63d),
             Quarter(0x2da2224e8da97556, 0x6fe66467af88c0a9, 0x2643c2370e49ebfd, 0xc718e755294c9111),
             Quarter(0x77d2b26df1c45c55, 0x4eb0b76284c7aafb, 0x79e02eef20cdb1ae, 0x1f0893f2772bb373),
             Quarter(0x8934eb09a3456052, 0x299c8e725d954697, 0x64b3eed7bb602f39, 0x1205ea4a7859807d))
  {
    hide VectorOf;
    Worked9(h, m);
    OrderOfRow4(m);
    Diagonals(h, m, 4, 1);
  }

  lemma Worked11(h: seq<Word>, m: seq<Word>)
    requires Begins(h) && IsBlock(m)
    ensures VectorOf(Steps(h, m, 44)) ==
      Vector(Quarter(0xf4e55384dc924147, 0xb7b58d9367a4043d, 0xc601582b84c4b49a, 0xd8a6cfd32f7ab2e6),
             Quarter(0xf015d00b613578c6, 0x02ca058bf3799684, 0x53e84b90ddbf8985, 0x1925e46b74e53ba5),
             Quarter(0x648495058cae3d2f, 0xb9668b8ebf3fa717, 0x42b26ef24a2100f5, 0xc70d65404fc75525),
             Quarter(0x54567270ac75c4ea, 0x292f756a3507a223, 0x35134241b118cf10, 0x57dc2cd554e40ca1))
  {
    hide VectorOf;
    Worked10(h, m);
    OrderOfRow5(m);
    Columns(h, m, 5, 4);
  }

  lemma Worked12(h: seq<Word>, m: seq<Word>)
    requires Begins(h) && IsBlock(m)
    ensures VectorOf(Steps(h, m, 48)) ==
      Vector(Quarter(0xe58f97d6385baee4, 0x7127cd48c76a7708, 0x41cca9073c8c4d0d, 0x8733794f07ac1500),
             Quarter(0x7640aa9764da137a, 0x9e472af0be3db3f6, 0x5c7912bc10df3b4b, 0xc67a6be42335aa6f),
             Quarter(0xdeb4c7c23efe287e, 0x0f244c62ddf71788, 0xa2c3abbd37510ee2, 0xacb22b28681e4c82),
             Quarter(0x70f6f41c8783c9f6, 0x219828aa83880842, 0xcb5668cc2a9f7859, 0xdb2161604cbc9828))
  {
    hide VectorOf;
    Worked11(h, m);
    OrderOfRow5(m);
    Diagonals(h, m, 5, 4);
  }

  lemma Worked13(h: seq<Word>, m: seq<Word>)
    requires Begins(h) && IsBlock(m)
    ensures VectorOf(Steps(h, m, 52)) ==
      Vector(Quarter(0xd0d5bb6a10dae2b5, 0x860aa9f111072cea, 0x391b02b399972abc, 0xfee428bf8b86c15e),
             Quarter(0xf5d2174aff6cf2cd, 0x90ee681d04ce182a, 0xa93d75cc5e322748, 0x4ca1f5f07a552d91),
             Quarter(0x39337b3da7e963ab, 0x7e1ec202f5042fa8, 0x74550619f0763471, 0x5ca64dd877b9e682),
             Quarter(0x588d5ef9a0a6492f, 0x04d72048395b53ff, 0x4795d2168937df08, 0x34881f3a14e9e908))
  {
    hide VectorOf;
    Worked12(h, m);
    OrderOfRow6(m);
    Columns(h, m, 6, 8);
  }

  lemma Worked14(h: seq<Word>, m: seq<Word>)
    requires Begins(h) && IsBlock(m)
    ensures VectorOf(Steps(h, m, 56)) ==
      Vector(Quarter(0x6e2d286eeadedc81, 0x819415b56220c459, 0x04d769b3fcb048db, 0x92aac307cf2c0afc),
             Quarter(0xbcf02c0787e86358, 0xb63c479a6a769f02, 0xb78a9a33e9bff4dd, 0x30aaccc4f06dafaa),
             Quarter(0x57d56a56dd015edf, 0x258e55e0ec1f362a, 0x5777272ae1e930c0, 0x483893cc094f8863),
             Quarter(0x55d899d40a5d0d0a, 0x3a3b4ec60e19dfdc, 0x5a387849e578dbf6, 0xe03c6cc89c26bf92))
  {
    hide VectorOf;
    Worked13(h, m);
    OrderOfRow6(m);
    Diagonals(h, m, 6, 8);
  }

  lemma Worked15(h: seq<Word>, m: seq<Word>)
    requires Begins(h) && IsBlock(m)
    ensures VectorOf(Steps(h, m, 60)) ==
      Vector(Quarter(0x2c42e52d8c060ff2, 0x8ffac8c5ec5cb0e6, 0x7b7cc36bc928376b, 0xf2d1af914f0bf16d),
             Quarter(0xa357b3b1736ec0a1, 0x1355530d9510b6da, 0x3981e9894b87e52a, 0x7fc4a1651e4130e8),
             Quarter(0xd916516a31320b04, 0x56af9e7816abf9be, 0x70e55e0e63448924, 0x58ff19794c000469),
             Quarter(0x41d37d7ecbfc6541, 0x1c460b4a606cc880, 0xbf9c914183b31c1b, 0xe113c5832e0abbd3))
  {
    hide VectorOf;
    Worked14(h, m);
    OrderOfRow7(m);
    Columns(h, m, 7, 9);
  }

  lemma Worked16(h: seq<Word>, m: seq<Word>)
    requires Begins(h) && IsBlock(m)
    ensures VectorOf(Steps(h, m, 64)) ==
      Vector(Quarter(0xffc83ece76024d01, 0x81937da314a50838, 0xa3c2d35e4f685c10, 0x3841def6f4c9848a),
             Quarter(0x1be7bffb8c5cc5f9, 0xe1179523a2541963, 0xa53d3f73aa619624, 0x98662c85fba726d4),
             Quarter(0xa35a18cbac4c65b7, 0x3a1fad7106232b8f, 0x30bbcc0285a22f65, 0x7762439bd5a851bd),
             Quarter(0xb7c2c7e6d88c285f, 0x1c7ede92ab8b9c46, 0xbcefbb6a81539e5d, 0xb0b9f0d443d1a889))
  {
    hide VectorOf;
    Worked15(h, m);
    OrderOfRow7(m);
    Diagonals(h, m, 7, 9);
  }

  lemma Worked17(h: seq<Word>, m: seq<Word>)
    requires Begins(h) && IsBlock(m)
    ensures VectorOf(Steps(h, m, 68)) ==
      Vector(Quarter(0xa9126c152d800655, 0x4165a65ac9e3c45b, 0x87047c8ec6295331, 0x64d2d77cbda6949a),
             Quarter(0xac1632ba715ebf08, 0xdfe2d8cd3101f453, 0x40e7b1fdda2d2585, 0xc6927901cb3215c7),
             Quarter(0x7c1849df4e91206f, 0x41aa56fe49862d7f, 0x3e4ba8ddb8e29996, 0xa5c81bdf8924e48a),
             Quarter(0x94aaf312690f9253, 0x13e3a2c50cfad099, 0x49989dfa62e90301, 0xc4fe53007c9d0df7))
  {
    hide VectorOf;
    Worked16(h, m);
    OrderOfRow8(m);
    Columns(h, m, 8, 6);
  }

  lemma Worked18(h: seq<Word>, m: seq<Word>)
    requires Begins(h) && IsBlock(m)
    ensures VectorOf(Steps(h, m, 72)) ==
      Vector(Quarter(0x753a70a1e8faeadd, 0x58540ee1b1aebc47, 0x316cc9ebeefad8fc, 0x88ed6c4f3bd7a537),
             Quarter(0x6b0d43ca2c25d629, 0x63c5b9b80d294cb9, 0x4a466bcd021526a4, 0x19ae688ddf67f026),
             Quarter(0xf8343ba8b94f8c0b, 0x490870ecad27debd, 0x5da7f7638cec5669, 0x4d8707aab40f7e6d),
             Quarter(0xbc7d062b0db5cf35, 0xb2a90ddf667287fe, 0xd9c8826727d306fc, 0xfd3f572687fea4f1))
  {
    hide VectorOf;
    Worked17(h, m);
    OrderOfRow8(m);
    Diagonals(h, m, 8, 6);
  }

  lemma Worked19(h: seq<Word>, m: seq<Word>)
    requires Begins(h) && IsBlock(m)
    ensures VectorOf(Steps(h, m, 76)) ==
      Vector(Quarter(0xc0df0f0e596ec5a9, 0xb4014455ff7c2ca0, 0xa9502da0417b08d5, 0xd66561a10d1d1c0d),
             Quarter(0x87ca07d5e3d64cb6, 0x65bf544e084bb313, 0x0a28a074aea2f05d, 0xd9b961e2d51134aa),
             Quarter(0xd11bc20e8ef44efc, 0x3478342ab05ecf87, 0x15e30f6c705383f7, 0xe5c30363d6ab824f),
             Quarter(0x0df3ea89aaa44e12, 0x88274463ca98e874, 0xdade744ed33782e5, 0x0d3efe25194b38bd))
  {
    hide VectorOf;
    Worked18(h, m);
    OrderOfRow9(m);
    Columns(h, m, 9, 15);
  }

  lemma Worked20(h: seq<Word>, m: seq<Word>)
    requires Begins(h) && IsBlock(m)
    ensures VectorOf(Steps(h, m, 80)) ==
      Vector(Quarter(0xe630c747ccd59c4f, 0x2d04185eac2a8cba, 0x6dd4fbc1de60165d, 0x2c6b25593d717852),
             Quarter(0xbc713d41127571ca, 0x5f311b88904056ec, 0xb3b0b51de3c86270, 0x37e8ca471beaa5f8),
             Quarter(0x46db183025025078, 0x40bd313009201aab, 0x900aee2f233b08e5, 0x2cfc1bac10ef4457),
             Quarter(0x6727e81260610140, 0x0099d4f82a2a1eab, 0xa07199d87ad058d8, 0x01369ec18746e775))
  {
    hide VectorOf;
    Worked19(h, m);
    OrderOfRow9(m);
    Diagonals(h, m, 9, 15);
  }

  lemma Worked21(h: seq<Word>, m: seq<Word>)
    requires Begins(h) && IsBlock(m)
    ensures VectorOf(Steps(h, m, 84)) ==
      Vector(Quarter(0xfdd2c6435d5a301b, 0x2ca29c4d619bafa1, 0x7ccca8ba533b7361, 0xcae4b9c0357b6205),
             Quarter(0x6e446afbc3efad36, 0xfcd5d76a6de20047, 0xacc8f98717c8e4a3, 0x3fb8d71b07b5efa5),
             Quarter(0x46d963ee934efeea, 0x8b7f1e6cfc2a0039, 0x7afe95b81b3993db, 0xac2678144c9a382a),
             Quarter(0x5523c5b930d1aeb6, 0xadbdc7977150b805, 0x3bbceb651eeed2c9, 0x8d7d58ee3d275626))
  {
    hide VectorOf;
    Worked20(h, m);
    OrderOfRow10(m);
    Columns(h, m, 10, 0);
  }

  lemma Worked22(h: seq<Word>, m: seq<Word>)
    requires Begins(h) && IsBlock(m)
    ensures VectorOf(Steps(h, m, 88)) ==
      Vector(Quarter(0xe801f73b9768c760, 0xf4f1be86690b3c34, 0x35ba354a9c7df448, 0x61b5c0a41d491399),
             Quarter(0x35c6d22320be511d, 0x3cc88735d1475e4b, 0x4929cbe45679d73e, 0xb5c333457e12844a),
             Quarter(0x306f27584f65495e, 0x5dac67921ff76949, 0x733d1a17248f39db, 0xbd696be010d0d889),
             Quarter(0xb51776adf569a77b, 0x1cdb9d31ad70cc4e, 0x92d57b736f5f170a, 0x02231e1a917fe0bd))
  {
    hide VectorOf;
    Worked21(h, m);
    OrderOfRow10(m);
    Diagonals(h, m, 10, 0);
  }

  lemma Worked23(h: seq<Word>, m: seq<Word>)
    requires Begins(h) && IsBlock(m)
    ensures VectorOf(Steps(h, m, 92)) ==
      Vector(Quarter(0xac495068076fe1c4, 0x5198d8d539a3fbce, 0xe799f6cc9a2a23d7, 0x94a2b1744065ba29),
             Quarter(0xf3ae6a427a75e234, 0xb8eacc53aead98b1, 0x5d6a76c05f26fe94, 0x88297fb94160bd39),
             Quarter(0x83933b99d54089ee, 0x55b2599798b3a4a1, 0x5fae8064a9ba0517, 0x6ce4fc1f51b7e632),
             Quarter(0x31db95ba436e4db7, 0xb20b2179d2dcd8c6, 0x06ed116649fdb58d, 0x4072027e06ce90be))
  {
    hide VectorOf;
    Worked22(h, m);
    OrderOfRow11(m);
    Columns(h, m, 11, 10);
  }

  lemma Worked24(h: seq<Word>, m: seq<Word>)
    requires Begins(h) && IsBlock(m)
    ensures VectorOf(Steps(h, m, 96)) ==
      Vector(Quarter(0x12ef8a641ec4f6d6, 0xf42c16519ad5afa7, 0x75ab709bd3dcbf24, 0x885bef040ef6aa0b),
             Quarter(0xbced5de977c9faf5, 0xaa5ac1888e10467e, 0xee7ce1f345947aa4, 0xa4939a417bfb78a3),
             Quarter(0x733ca476c5148639, 0x217d930aa51787f3, 0xf8960d6c2faf5f5e, 0x646cbb7af6dce980),
             Quarter(0x97df596b0610f6fc, 0x906a6ff19e573942, 0xe332538a36b6d246, 0xe813a23c60af3b82))
  {
    hide VectorOf;
    Worked23(h, m);
    OrderOfRow11(m);
    Diagonals(h, m, 11, 10);
  }

  function Message(): (m: seq<Octet>)
    ensures |m| == 3
  {
    [0x61, 0x62, 0x63]
  }

  lemma NoWord(b: seq<Octet>)
    requires |b| == 8 && forall i :: 0 <= i < 8 ==> b[i] == 0
    ensures WordOf(b) == 0
  {
  }

  /** The block is the message and zeros. */
  lemma BlockWords()
    ensures IsBlock(Words(Message() + Zeros(125), 16))
  {
    hide WordOf;
    var b := Message() + Zeros(125);
    var m := Words(b, 16);
    FirstWord(b[..8]);
    forall i | 0 < i < 16
      ensures m[i] == 0
    {
      NoWord(b[8 * i..8 * i + 8]);
    }
  }

  lemma FirstWord(b: seq<Octet>)
    requires |b| == 8 && b[0] == 0x61 && b[1] == 0x62 && b[2] == 0x63 && forall i :: 3 <= i < 8 ==> b[i] == 0
    ensures WordOf(b) == 0x636261
  {
  }

  lemma ParameterWord(b: seq<Octet>)
    requires |b| == 8 && b[0] == 64 && b[1] == 0 && b[2] == 1 && b[3] == 1 && forall i :: 4 <= i < 8 ==> b[i] == 0
    ensures WordOf(b) == 0x0101_0040
  {
  }

  lemma Parameterized()
    ensures var p := Words(Parameters(64, 0), 8); p[0] == 0x0101_0040 && forall i :: 0 < i < 8 ==> p[i] == 0
  {
    hide WordOf;
    var b := Parameters(64, 0);
    var p := Words(b, 8);
    ParameterWord(b[..8]);
    forall i | 0 < i < 8
      ensures p[i] == 0
    {
      NoWord(b[8 * i..8 * i + 8]);
    }
  }

  ghost predicate IsInitial(h: seq<Word>) {
    |h| == 8 && h[0] == 0x6a09e667f2bdc948 && h[1] == 0xbb67ae8584caa73b && h[2] == 0x3c6ef372fe94f82b && h[3] == 0xa54ff53a5f1d36f1
    && h[4] == 0x510e527fade682d1 && h[5] == 0x9b05688c2b3e6c1f && h[6] == 0x1f83d9abfb41bd6b && h[7] == 0x5be0cd19137e2179
  }

  lemma Initial()
    ensures IsInitial(InitialHash(64, 0))
  {
    hide Words, Parameters;
    Parameterized();
  }

  lemma StartsThere(h: seq<Word>)
    requires IsInitial(h)
    ensures Begins(StartVector(h, 3, 0, Flag(true), Flag(false)))
  {
  }

  lemma Folded(h: seq<Word>, v: seq<Word>)
    requires IsInitial(h) && |v| == 16 && VectorOf(v) ==
      Vector(Quarter(0x12ef8a641ec4f6d6, 0xf42c16519ad5afa7, 0x75ab709bd3dcbf24, 0x885bef040ef6aa0b),
             Quarter(0xbced5de977c9faf5, 0xaa5ac1888e10467e, 0xee7ce1f345947aa4, 0xa4939a417bfb78a3),
             Quarter(0x733ca476c5148639, 0x217d930aa51787f3, 0xf8960d6c2faf5f5e, 0x646cbb7af6dce980),
             Quarter(0x97df596b0610f6fc, 0x906a6ff19e573942, 0xe332538a36b6d246, 0xe813a23c60af3b82))
    ensures Finish(h, v) ==
      [0x0d4d1c983fa580ba, 0xe9f6129fb697276a, 0xb7c45a68142f214c, 0xd1a2ffdb6fbb124b,
       0x2d79ab2a39c5877d, 0x95cc3345ded552c2, 0x5a92f1dba88ad318, 0x239900d4ed8623b9]
  {
  }

  lemma OneMore(w: seq<Word>, k: nat)
    requires k < |w|
    ensures WordBytes(w[..k + 1]) == WordBytes(w[..k]) + BytesOf(w[k])
  {
    hide BytesOf;
    assert w[..k + 1][..k] == w[..k];
  }

  lemma EightWords(w: seq<Word>)
    requires |w| == 8
    ensures WordBytes(w) == BytesOf(w[0]) + BytesOf(w[1]) + BytesOf(w[2]) + BytesOf(w[3])
                            + BytesOf(w[4]) + BytesOf(w[5]) + BytesOf(w[6]) + BytesOf(w[7])
  {
    hide BytesOf, WordBytes;
    assert w[..8] == w;
    FourWords(w);
    OneMore(w, 7);
    OneMore(w, 6);
    OneMore(w, 5);
    OneMore(w, 4);
  }

  lemma FourWords(w: seq<Word>)
    requires |w| >= 4
    ensures WordBytes(w[..4]) == BytesOf(w[0]) + BytesOf(w[1]) + BytesOf(w[2]) + BytesOf(w[3])
  {
    hide BytesOf, WordBytes;
    OneMore(w, 3);
    OneMore(w, 2);
    OneMore(w, 1);
    OneMore(w, 0);
    NoWords(w);
  }

  lemma NoWords(w: seq<Word>)
    ensures WordBytes(w[..0]) == []
  {
  }

  lemma Octets0()
    ensures BytesOf(0x0d4d1c983fa580ba) == [0xba, 0x80, 0xa5, 0x3f, 0x98, 0x1c, 0x4d, 0x0d]
    ensures BytesOf(0xe9f6129fb697276a) == [0x6a, 0x27, 0x97, 0xb6, 0x9f, 0x12, 0xf6, 0xe9]
    ensures BytesOf(0xb7c45a68142f214c) == [0x4c, 0x21, 0x2f, 0x14, 0x68, 0x5a, 0xc4, 0xb7]
    ensures BytesOf(0xd1a2ffdb6fbb124b) == [0x4b, 0x12, 0xbb, 0x6f, 0xdb, 0xff, 0xa2, 0xd1]
  {
  }

  lemma Octets4()
    ensures BytesOf(0x2d79ab2a39c5877d) == [0x7d, 0x87, 0xc5, 0x39, 0x2a, 0xab, 0x79, 0x2d]
    ensures BytesOf(0x95cc3345ded552c2) == [0xc2, 0x52, 0xd5, 0xde, 0x45, 0x33, 0xcc, 0x95]
    ensures BytesOf(0x5a92f1dba88ad318) == [0x18, 0xd3, 0x8a, 0xa8, 0xdb, 0xf1, 0x92, 0x5a]
    ensures BytesOf(0x239900d4ed8623b9) == [0xb9, 0x23, 0x86, 0xed, 0xd4, 0x00, 0x99, 0x23]
  {
  }

  lemma HashOctets()
    ensures WordBytes(
      [0x0d4d1c983fa580ba, 0xe9f6129fb697276a, 0xb7c45a68142f214c, 0xd1a2ffdb6fbb124b,
       0x2d79ab2a39c5877d, 0x95cc3345ded552c2, 0x5a92f1dba88ad318, 0x239900d4ed8623b9]) ==
      [0xba, 0x80, 0xa5, 0x3f, 0x98, 0x1c, 0x4d, 0x0d] +
      [0x6a, 0x27, 0x97, 0xb6, 0x9f, 0x12, 0xf6, 0xe9] +
      [0x4c, 0x21, 0x2f, 0x14, 0x68, 0x5a, 0xc4, 0xb7] +
      [0x4b, 0x12, 0xbb, 0x6f, 0xdb, 0xff, 0xa2, 0xd1] +
      [0x7d, 0x87, 0xc5, 0x39, 0x2a, 0xab, 0x79, 0x2d] +
      [0xc2, 0x52, 0xd5, 0xde, 0x45, 0x33, 0xcc, 0x95] +
      [0x18, 0xd3, 0x8a, 0xa8, 0xdb, 0xf1, 0x92, 0x5a] +
      [0xb9, 0x23, 0x86, 0xed, 0xd4, 0x00, 0x99, 0x23]
  {
    hide BytesOf, WordBytes;
    var w :=
      [0x0d4d1c983fa580ba, 0xe9f6129fb697276a, 0xb7c45a68142f214c, 0xd1a2ffdb6fbb124b,
       0x2d79ab2a39c5877d, 0x95cc3345ded552c2, 0x5a92f1dba88ad318, 0x239900d4ed8623b9];
    EightWords(w);
    Octets0();
    Octets4();
  }

  lemma KnownHash()
    ensures FinalHash(InitialHash(64, 0), Message(), false) ==
      [0x0d4d1c983fa580ba, 0xe9f6129fb697276a, 0xb7c45a68142f214c, 0xd1a2ffdb6fbb124b,
       0x2d79ab2a39c5877d, 0x95cc3345ded552c2, 0x5a92f1dba88ad318, 0x239900d4ed8623b9]
  {
    hide IsInitial, Begins, IsBlock, Words, Message, StartVector, Flag, Zeros, Finish, VectorOf, Steps, InitialHash;
    var h := InitialHash(64, 0);
    var m := Words(Message() + Zeros(125), 16);
    Initial();
    BlockWords();
    var v := StartVector(h, 3, 0, Flag(true), Flag(false));
    StartsThere(h);
    OneBlock(h);
    Worked24(v, m);
    Folded(h, Steps(v, m, 96));
  }

  lemma OneBlock(h: seq<Word>)
    requires |h| == 8
    ensures FinalHash(h, Message(), false)
         == Finish(h, Steps(StartVector(h, 3, 0, Flag(true), Flag(false)), Words(Message() + Zeros(125), 16), 96))
  {
    hide Words, StartVector, Flag, Finish, Steps, Message, Zeros;
    assert Message()[0..] == Message();
    assert Chain(h, Message()[..0]) == h;
  }

  /** The digest of the three octets, without a key and at full length. */
  lemma KnownDigest()
    ensures Digest([0x61, 0x62, 0x63], [], 64) ==
      [0xba, 0x80, 0xa5, 0x3f, 0x98, 0x1c, 0x4d, 0x0d] +
      [0x6a, 0x27, 0x97, 0xb6, 0x9f, 0x12, 0xf6, 0xe9] +
      [0x4c, 0x21, 0x2f, 0x14, 0x68, 0x5a, 0xc4, 0xb7] +
      [0x4b, 0x12, 0xbb, 0x6f, 0xdb, 0xff, 0xa2, 0xd1] +
      [0x7d, 0x87, 0xc5, 0x39, 0x2a, 0xab, 0x79, 0x2d] +
      [0xc2, 0x52, 0xd5, 0xde, 0x45, 0x33, 0xcc, 0x95] +
      [0x18, 0xd3, 0x8a, 0xa8, 0xdb, 0xf1, 0x92, 0x5a] +
      [0xb9, 0x23, 0x86, 0xed, 0xd4, 0x00, 0x99, 0x23]
  {
    hide FinalHash, InitialHash, WordBytes;
    KnownHash();
    HashOctets();
    assert Keyed([], Message()) == Message();
  }
}
