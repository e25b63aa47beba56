/** The 32-bit operations of SHA-256, in the forms the two implementations use. */
module Sha256Words {
  type Word = bv32
  type Octet = bv8

  /** Addition modulo 2^32. */
  function Add(x: Word, y: Word): Word { x + y }

  function BigSigma0(x: Word): Word { ((x >> 2) | (x << 30)) ^ (((x >> 13) | (x << 19)) ^ ((x >> 22) | (x << 10))) }
  function BigSigma1(x: Word): Word { ((x >> 6) | (x << 26)) ^ (((x >> 11) | (x << 21)) ^ ((x >> 25) | (x << 7))) }
  function SmallSigma0(x: Word): Word { ((x >> 7) | (x << 25)) ^ (((x >> 18) | (x << 14)) ^ (x >> 3)) }
  function SmallSigma1(x: Word): Word { ((x >> 17) | (x << 15)) ^ (((x >> 19) | (x << 13)) ^ (x >> 10)) }
  function Ch(x: Word, y: Word, z: Word): Word { (x & y) ^ (!x & z) }
  function Maj(x: Word, y: Word, z: Word): Word { (x & y) ^ ((x & z) ^ (y & z)) }

  function WordOf(b0: Octet, b1: Octet, b2: Octet, b3: Octet): Word {
    ((b0 as Word) << 24) | ((b1 as Word) << 16) | ((b2 as Word) << 8) | (b3 as Word)
  }

  function ChMux(x: Word, y: Word, z: Word): Word { z ^ (x & (y ^ z)) }
  function MajOr(x: Word, y: Word, z: Word): Word { (x & y) | (z & (x | y)) }

  /** The two forms of each Boolean function agree. */
  lemma ChForms(x: Word, y: Word, z: Word)
    ensures ChMux(x, y, z) == Ch(x, y, z)
  {
    ChBits(x, y, z);
  }

  lemma ChBits(x: bv32, y: bv32, z: bv32)
    ensures z ^ (x & (y ^ z)) == (x & y) ^ (!x & z)
  {
  }

  lemma MajForms(x: Word, y: Word, z: Word)
    ensures MajOr(x, y, z) == Maj(x, y, z)
  {
    MajBits(x, y, z);
  }

  lemma MajBits(x: bv32, y: bv32, z: bv32)
    ensures (x & y) | (z & (x | y)) == (x & y) ^ ((x & z) ^ (y & z))
  {
  }

  /** A word read little-endian and then swapped is the word read big-endian. */
  function LoadLittle(b0: Octet, b1: Octet, b2: Octet, b3: Octet): Word {
    (b0 as Word) | ((b1 as Word) << 8) | ((b2 as Word) << 16) | ((b3 as Word) << 24)
  }

  function Swap(p: Word): (w: Word) {
    ((p & 0xFF) << 24) | ((p & 0xFF00) << 8) | ((p & 0xFF0000) >> 8) | ((p & 0xFF000000) >> 24)
  }

  lemma SwapLoads(b0: Octet, b1: Octet, b2: Octet, b3: Octet)
    ensures Swap(LoadLittle(b0, b1, b2, b3)) == WordOf(b0, b1, b2, b3)
  {
  }

  /** The next word of the schedule, and the same sum as an update of the oldest word. */
  function NextWord(w2: Word, w7: Word, w15: Word, w16: Word): Word {
    SmallSigma1(w2) + w7 + (SmallSigma0(w15) + w16)
  }

  function NextInPlace(w16: Word, w2: Word, w7: Word, w15: Word): Word {
    w16 + (SmallSigma1(w2) + w7 + SmallSigma0(w15))
  }

  lemma NextForms(w2: Word, w7: Word, w15: Word, w16: Word)
    ensures NextInPlace(w16, w2, w7, w15) == NextWord(w2, w7, w15, w16)
  {
    hide SmallSigma0, SmallSigma1;
  }
}

/** The SHA-256 compression function and digest (sections 5.1.1, 6.2.1 and 6.2.2 of FIPS 180-4). */
module Sha256Spec {
  import opened Sha256Words

  /** The round constants; both implementations hold this table. */
  function K(t: nat): Word
    requires t < 64
  {
    match t
    case 0 => 0x428a2f98 case 1 => 0x71374491 case 2 => 0xb5c0fbcf case 3 => 0xe9b5dba5 case 4 => 0x3956c25b
    case 5 => 0x59f111f1 case 6 => 0x923f82a4 case 7 => 0xab1c5ed5 case 8 => 0xd807aa98 case 9 => 0x12835b01
    case 10 => 0x243185be case 11 => 0x550c7dc3 case 12 => 0x72be5d74 case 13 => 0x80deb1fe case 14 => 0x9bdc06a7
    case 15 => 0xc19bf174 case 16 => 0xe49b69c1 case 17 => 0xefbe4786 case 18 => 0x0fc19dc6 case 19 => 0x240ca1cc
    case 20 => 0x2de92c6f case 21 => 0x4a7484aa case 22 => 0x5cb0a9dc case 23 => 0x76f988da case 24 => 0x983e5152
    case 25 => 0xa831c66d case 26 => 0xb00327c8 case 27 => 0xbf597fc7 case 28 => 0xc6e00bf3 case 29 => 0xd5a79147
    case 30 => 0x06ca6351 case 31 => 0x14292967 case 32 => 0x27b70a85 case 33 => 0x2e1b2138 case 34 => 0x4d2c6dfc
    case 35 => 0x53380d13 case 36 => 0x650a7354 case 37 => 0x766a0abb case 38 => 0x81c2c92e case 39 => 0x92722c85
    case 40 => 0xa2bfe8a1 case 41 => 0xa81a664b case 42 => 0xc24b8b70 case 43 => 0xc76c51a3 case 44 => 0xd192e819
    case 45 => 0xd6990624 case 46 => 0xf40e3585 case 47 => 0x106aa070 case 48 => 0x19a4c116 case 49 => 0x1e376c08
    case 50 => 0x2748774c case 51 => 0x34b0bcb5 case 52 => 0x391c0cb3 case 53 => 0x4ed8aa4a case 54 => 0x5b9cca4f
    case 55 => 0x682e6ff3 case 56 => 0x748f82ee case 57 => 0x78a5636f case 58 => 0x84c87814 case 59 => 0x8cc70208
    case 60 => 0x90befffa case 61 => 0xa4506ceb case 62 => 0xbef9a3f7 case _ => 0xc67178f2
  }

  function InitialHash(): (h: seq<Word>)
    ensures |h| == 8
  {
    [0x6a09e667, 0xbb67ae85, 0x3c6ef372, 0xa54ff53a, 0x510e527f, 0x9b05688c, 0x1f83d9ab, 0x5be0cd19]
  }

  /** Word t of the message schedule of a sixteen-word block. */
  function Schedule(m: seq<Word>, t: nat): Word
    requires |m| == 16
  {
    if t < 16 then m[t]
    else NextWord(Schedule(m, t - 2), Schedule(m, t - 7), Schedule(m, t - 15), Schedule(m, t - 16))
  }

  function T1(e: Word, f: Word, g: Word, h: Word, k: Word, w: Word): Word {
    Add(Add(Add(Add(h, BigSigma1(e)), Ch(e, f, g)), k), w)
  }

  function T2(a: Word, b: Word, c: Word): Word { Add(BigSigma0(a), Maj(a, b, c)) }

  /** One round on the eight working variables. */
  function Round(v: seq<Word>, k: Word, w: Word): (r: seq<Word>)
    requires |v| == 8
    ensures |r| == 8
  {
    var t1 := T1(v[4], v[5], v[6], v[7], k, w);
    [Add(t1, T2(v[0], v[1], v[2])), v[0], v[1], v[2], Add(v[3], t1), v[4], v[5], v[6]]
  }

  function Rounds(h: seq<Word>, m: seq<Word>, t: nat): (v: seq<Word>)
    requires |h| == 8 && |m| == 16 && t <= 64
    ensures |v| == 8
  {
    if t == 0 then h else Round(Rounds(h, m, t - 1), K(t - 1), Schedule(m, t - 1))
  }

  function AddWords(h: seq<Word>, v: seq<Word>): (r: seq<Word>)
    requires |h| == 8 && |v| == 8
    ensures |r| == 8
  {
    [Add(h[0], v[0]), Add(h[1], v[1]), Add(h[2], v[2]), Add(h[3], v[3]),
     Add(h[4], v[4]), Add(h[5], v[5]), Add(h[6], v[6]), Add(h[7], v[7])]
  }

  /** The big-endian words of a byte string. */
  function Words(b: seq<Octet>, n: nat): (w: seq<Word>)
    requires |b| == 4 * n
    ensures |w| == n && forall i :: 0 <= i < n ==> w[i] == WordOf(b[4 * i], b[4 * i + 1], b[4 * i + 2], b[4 * i + 3])
  {
    seq(n, i requires 0 <= i < n => WordOf(b[4 * i], b[4 * i + 1], b[4 * i + 2], b[4 * i + 3]))
  }

  function Compress(h: seq<Word>, block: seq<Octet>): (r: seq<Word>)
    requires |h| == 8 && |block| == 64
    ensures |r| == 8
  {
    AddWords(h, Rounds(h, Words(block, 16), 64))
  }

  /** The hash after the whole blocks of a message. */
  function Fold(m: seq<Octet>): (h: seq<Word>)
    requires |m| % 64 == 0
    ensures |h| == 8
  {
    if |m| == 0 then InitialHash() else Compress(Fold(m[..|m| - 64]), m[|m| - 64..])
  }

  function BigEndian(v: nat, n: nat): (b: seq<Octet>)
    ensures |b| == n
  {
    if n == 0 then [] else BigEndian(v / 0x100, n - 1) + [(v % 0x100) as Octet]
  }

  function Zeros(n: nat): (z: seq<Octet>)
    ensures |z| == n
  {
    seq(n, _ => 0)
  }

  /** The zeros that bring a message, a one byte and an eight-byte length to whole blocks. */
  function PadZeros(n: nat): nat { (119 - n % 64) % 64 }

  lemma PadWhole(n: nat, q: nat, r: nat)
    requires n == 64 * q + r && r < 64
    ensures (n + 1 + (119 - r) % 64 + 8) % 64 == 0
  {
    assert n + 1 + (119 - r) % 64 + 8 == 64 * (q + if r <= 55 then 1 else 2);
  }

  function Padding(n: nat): (p: seq<Octet>)
    ensures (n + |p|) % 64 == 0
  {
    PadWhole(n, n / 64, n % 64);
    [0x80] + Zeros(PadZeros(n)) + BigEndian(8 * n, 8)
  }

  lemma PaddingParts(n: nat)
    ensures Padding(n) == [0x80] + Zeros((119 - n % 64) % 64) + BigEndian(8 * n, 8)
  {
  }

  lemma PaddedLength(m: seq<Octet>)
    ensures |m + Padding(|m|)| % 64 == 0
  {
    hide Padding;
  }

  lemma Grouped(a: seq<Octet>, b: seq<Octet>, c: seq<Octet>)
    ensures a + b + c == a + (b + c)
  {
  }

  function Digest(m: seq<Octet>): seq<Octet> {
    WordBytes(Fold(m + Padding(|m|)))
  }

  function BytesOf(w: Word): (b: seq<Octet>)
    ensures |b| == 4
  {
    [((w >> 24) & 0xFF) as Octet, ((w >> 16) & 0xFF) as Octet, ((w >> 8) & 0xFF) as Octet, (w & 0xFF) as Octet]
  }

  function WordBytes(w: seq<Word>): seq<Octet> {
    if |w| == 0 then [] else WordBytes(w[..|w| - 1]) + BytesOf(w[|w| - 1])
  }

  lemma FoldNothing()
    ensures Fold([]) == InitialHash()
  {
  }

  lemma FoldAppend(m: seq<Octet>, block: seq<Octet>)
    requires |m| % 64 == 0 && |block| == 64
    ensures Fold(m + block) == Compress(Fold(m), block)
  {
    assert (m + block)[..|m|] == m && (m + block)[|m|..] == block;
  }

  function DropBytes(v: nat, k: nat): nat {
    if k == 0 then v else DropBytes(v / 0x100, k - 1)
  }

  lemma {:induction false} SplitBytes(v: nat, n: nat, k: nat)
    ensures BigEndian(v, n + k) == BigEndian(DropBytes(v, k), n) + BigEndian(v, k)
  {
    if k > 0 {
      SplitBytes(v / 0x100, n, k - 1);
    }
  }

  /** Only the low bytes of a number are written. */
  lemma {:induction false} LowBytes(v: nat, w: nat, h: nat, k: nat)
    requires k <= 4 && v == w + Pow256(k) * h
    ensures BigEndian(v, k) == BigEndian(w, k)
  {
    hide Pow256;
    if k > 0 {
      NextPower(k, h);
      LowByte(Pow256(k - 1) * h, w, v);
      LowBytes(v / 0x100, w / 0x100, h, k - 1);
    }
  }

  lemma NextPower(k: nat, h: nat)
    requires 0 < k <= 4
    ensures Pow256(k) * h == 0x100 * (Pow256(k - 1) * h)
  {
    assert Pow256(k) == 0x100 * Pow256(k - 1);
  }

  lemma LowByte(h: nat, lo: nat, v: nat)
    requires v == 0x100 * h + lo
    ensures v / 0x100 == h + lo / 0x100 && v % 0x100 == lo % 0x100
  {
  }

  function Pow256(n: nat): nat
    requires n <= 4
  {
    match n case 0 => 1 case 1 => 0x100 case 2 => 0x1_0000 case 3 => 0x100_0000 case 4 => 0x1_0000_0000
  }

  /** The eight bytes of a number are those of its two halves. */
  lemma TwoHalves(v: nat)
    requires v < 0x1_0000_0000_0000_0000
    ensures BigEndian(v, 8) == BigEndian(v / 0x1_0000_0000, 4) + BigEndian(v % 0x1_0000_0000, 4)
  {
    hide BigEndian;
    SplitBytes(v, 4, 4);
    DropFour(v);
    LowBytes(v, v % 0x1_0000_0000, v / 0x1_0000_0000, 4);
  }

  lemma DropFour(v: nat)
    ensures DropBytes(v, 4) == v / 0x1_0000_0000
  {
    var v1, v2, v3 := v / 0x100, v / 0x100 / 0x100, v / 0x100 / 0x100 / 0x100;
    assert DropBytes(v, 4) == DropBytes(v1, 3) && DropBytes(v1, 3) == DropBytes(v2, 2);
    assert DropBytes(v2, 2) == DropBytes(v3, 1) && DropBytes(v3, 1) == DropBytes(v3 / 0x100, 0) == v3 / 0x100;
    assert v3 / 0x100 == v / 0x1_0000_0000;
  }
}

/** The streaming implementation: a rolling schedule of sixteen words and registers that rotate by renaming. */
module Sha256Streaming {
  import opened Sha256Words
  import opened Sha256Spec

  /** The storage place of working variable j before round t: the registers are renamed, not moved. */
  function Place(j: nat, t: nat): (p: nat)
    requires j < 8
    ensures p < 8
  {
    (j + 7 * t) % 8
  }

  ghost predicate Holds(v: seq<Word>, regs: seq<Word>, t: nat) {
    |v| == 8 && |regs| == 8 && forall j :: 0 <= j < 8 ==> v[Place(j, t)] == regs[j]
  }

  /** The sixteen places hold the latest words of the schedule. */
  ghost predicate Rolling(w: seq<Word>, m: seq<Word>, t: nat) {
    |w| == 16 && |m| == 16
    && forall i :: (if t < 16 then 0 else t - 16) <= i < (if t < 16 then 16 else t) ==> w[i % 16] == Schedule(m, i)
  }

  /** The update in place makes the oldest word the next one. */
  lemma Roll(w: seq<Word>, m: seq<Word>, t: nat)
    requires Rolling(w, m, t) && t >= 16
    ensures var x := NextInPlace(w[t % 16], w[(t + 14) % 16], w[(t + 9) % 16], w[(t + 1) % 16]);
            x == Schedule(m, t) && Rolling(w[t % 16 := x], m, t + 1)
  {
    hide NextWord, NextInPlace;
    RollPlaces(t);
    NextForms(Schedule(m, t - 2), Schedule(m, t - 7), Schedule(m, t - 15), Schedule(m, t - 16));
    assert w[(t - 2) % 16] == Schedule(m, t - 2) && w[(t - 7) % 16] == Schedule(m, t - 7);
    assert w[(t - 15) % 16] == Schedule(m, t - 15) && w[(t - 16) % 16] == Schedule(m, t - 16);
    RollKeeps(w, m, t, Schedule(m, t));
  }

  lemma RollPlaces(t: nat)
    requires t >= 16
    ensures (t + 14) % 16 == (t - 2) % 16 && (t + 9) % 16 == (t - 7) % 16 && (t + 1) % 16 == (t - 15) % 16
    ensures t % 16 == (t - 16) % 16
  {
  }

  lemma RollKeeps(w: seq<Word>, m: seq<Word>, t: nat, x: Word)
    requires Rolling(w, m, t) && t >= 16 && x == Schedule(m, t)
    ensures Rolling(w[t % 16 := x], m, t + 1)
  {
    hide Schedule;
    forall i | t - 15 <= i < t + 1
      ensures w[t % 16 := x][i % 16] == Schedule(m, i)
    {
      if i != t {
        DistinctPlaces(i, t);
      }
    }
  }

  lemma DistinctPlaces(i: int, t: int)
    requires t - 16 < i < t
    ensures i % 16 != t % 16
  {
  }

  /** Updating two registers in place and renaming all of them is one round. */
  lemma Renamed(v: seq<Word>, regs: seq<Word>, t: nat, k: Word, w: Word)
    requires Holds(v, regs, t)
    ensures var t1 := T1(regs[4], regs[5], regs[6], regs[7], k, w);
            Holds(v[Place(3, t) := Add(regs[3], t1)][Place(7, t) := Add(t1, T2(regs[0], regs[1], regs[2]))],
                  Round(regs, k, w), t + 1)
  {
    hide T1, T2, Place, Add;
    PlacesMove(t);
  }

  lemma PlacesMove(t: nat)
    ensures Place(0, t + 1) == Place(7, t)
    ensures Place(1, t + 1) == Place(0, t) && Place(2, t + 1) == Place(1, t) && Place(3, t + 1) == Place(2, t)
    ensures Place(4, t + 1) == Place(3, t) && Place(5, t + 1) == Place(4, t) && Place(6, t + 1) == Place(5, t)
    ensures Place(7, t + 1) == Place(6, t)
    ensures forall i, j :: 0 <= i < j < 8 ==> Place(i, t) != Place(j, t)
  {
    forall i, j | 0 <= i < j < 8
      ensures Place(i, t) != Place(j, t)
    {
      Apart(i + 7 * t, j + 7 * t);
    }
    Around(7 * t);
    Around(1 + 7 * t);
    Around(2 + 7 * t);
    Around(3 + 7 * t);
    Around(4 + 7 * t);
    Around(5 + 7 * t);
    Around(6 + 7 * t);
  }

  lemma Around(x: nat)
    ensures (x + 8) % 8 == x % 8
  {
  }

  lemma Apart(x: nat, y: nat)
    requires x < y < x + 8
    ensures x % 8 != y % 8
  {
  }

  /** Processes one block. */
  method Transform(s: array<Word>, chunk: seq<Octet>)
    requires s.Length == 8 && |chunk| == 64
    modifies s
    ensures s[..] == Compress(old(s[..]), chunk)
  {
    hide SmallSigma0, SmallSigma1, BigSigma0, BigSigma1, ChMux, MajOr, Ch, Maj, T1, T2, K, Place, WordOf, Round, Add;
    ghost var h, m := s[..], Words(chunk, 16);
    var v := new Word[8](i requires 0 <= i < 8 reads s => s[i]);
    var w := new Word[16](i requires 0 <= i < 16 => 0);
    LoadWords(w, chunk);
    assert v[..] == h;
    FirstPlaces();
    for t := 0 to 64
      invariant fresh(v) && fresh(w) && v.Length == 8 && w.Length == 16
      invariant s[..] == h && Holds(v[..], Rounds(h, m, t), t) && Rolling(w[..], m, t)
    {
      NextSchedule(w, m, t);
      OneRound(v, Rounds(h, m, t), t, K(t), w[t % 16]);
    }
    LastPlaces(v[..], Rounds(h, m, 64));
    AddState(s, v[..]);
  }

  method AddState(s: array<Word>, v: seq<Word>)
    requires s.Length == 8 && |v| == 8
    modifies s
    ensures s[..] == AddWords(old(s[..]), v)
  {
    hide Add;
    s[0], s[1], s[2], s[3] := Add(s[0], v[0]), Add(s[1], v[1]), Add(s[2], v[2]), Add(s[3], v[3]);
    s[4], s[5], s[6], s[7] := Add(s[4], v[4]), Add(s[5], v[5]), Add(s[6], v[6]), Add(s[7], v[7]);
  }

  method LoadWords(w: array<Word>, chunk: seq<Octet>)
    requires w.Length == 16 && |chunk| == 64
    modifies w
    ensures w[..] == Words(chunk, 16)
  {
    hide WordOf, Swap, LoadLittle;
    for i := 0 to 16
      invariant forall k :: 0 <= k < i ==> w[k] == WordOf(chunk[4 * k], chunk[4 * k + 1], chunk[4 * k + 2], chunk[4 * k + 3])
    {
      SwapLoads(chunk[4 * i], chunk[4 * i + 1], chunk[4 * i + 2], chunk[4 * i + 3]);
      w[i] := Swap(LoadLittle(chunk[4 * i], chunk[4 * i + 1], chunk[4 * i + 2], chunk[4 * i + 3]));
    }
  }

  lemma FirstPlaces()
    ensures forall j :: 0 <= j < 8 ==> Place(j, 0) == j
  {
  }

  lemma LastPlaces(v: seq<Word>, regs: seq<Word>)
    requires Holds(v, regs, 64)
    ensures v == regs
  {
    assert forall j :: 0 <= j < 8 ==> Place(j, 64) == j;
  }

  method NextSchedule(w: array<Word>, ghost m: seq<Word>, t: nat)
    requires w.Length == 16 && Rolling(w[..], m, t) && t < 64
    modifies w
    ensures Rolling(w[..], m, t + 1) && w[t % 16] == Schedule(m, t)
  {
    hide NextInPlace;
    if t >= 16 {
      ghost var before := w[..];
      Roll(before, m, t);
      hide Rolling;
      w[t % 16] := NextInPlace(w[t % 16], w[(t + 14) % 16], w[(t + 9) % 16], w[(t + 1) % 16]);
      assert w[..] == before[t % 16 := w[t % 16]];
    }
  }

  method OneRound(v: array<Word>, ghost regs: seq<Word>, t: nat, k: Word, w: Word)
    requires v.Length == 8 && Holds(v[..], regs, t)
    modifies v
    ensures Holds(v[..], Round(regs, k, w), t + 1)
  {
    hide BigSigma0, BigSigma1, ChMux, MajOr, Ch, Maj, Place, Add;
    var a, b, c, d := v[Place(0, t)], v[Place(1, t)], v[Place(2, t)], v[Place(3, t)];
    var e, f, g, h := v[Place(4, t)], v[Place(5, t)], v[Place(6, t)], v[Place(7, t)];
    ChForms(e, f, g);
    MajForms(a, b, c);
    ghost var before := v[..];
    Renamed(before, regs, t, k, w);
    PlacesMove(t);
    var t1 := Add(Add(Add(Add(h, BigSigma1(e)), ChMux(e, f, g)), k), w);
    var t2 := Add(BigSigma0(a), MajOr(a, b, c));
    v[Place(3, t)] := Add(d, t1);
    v[Place(7, t)] := Add(t1, t2);
    assert v[..] == before[Place(3, t) := Add(d, t1)][Place(7, t) := Add(t1, t2)];
  }

  class Sha256 {
    const s: array<Word>
    const buf: array<Octet>
    var bytes: nat
    ghost var message: seq<Octet>

    /** s is the hash of the whole blocks of the message so far; buf holds what is left of it. */
    ghost predicate Valid()
      reads this, s, buf
    {
      s.Length == 8 && buf.Length == 64 && bytes == |message| < 0x2000_0000_0000_0000 + 0x100
      && s[..] == Fold(Whole(message)) && buf[..|message| % 64] == Rest(message)
    }

    constructor Initialize()
      ensures Valid() && message == [] && fresh(s) && fresh(buf)
    {
      var h := InitialHash();
      s := new Word[8](i requires 0 <= i < 8 => h[i]);
      buf := new Octet[64](_ => 0);
      bytes, message := 0, [];
      new;
      assert s[..] == h;
    }

    /** Absorbs any number of bytes. */
    method Write(data: seq<Octet>)
      requires Valid() && |message| + |data| < 0x2000_0000_0000_0000 + 0x100
      modifies this, s, buf
      ensures Valid() && message == old(message) + data
    {
      hide Fold, Compress, Whole, Rest, Holds;
      var bufsize: nat := bytes % 64;
      Held();
      bytes := bytes + |data|;
      ghost var start := message;
      var at := 0;
      assert start + data[..0] == start;
      while bufsize + (|data| - at) >= 64
        invariant at <= |data| && bufsize < 64 && Holds(start + data[..at], bufsize)
        invariant message == start && bytes == |start| + |data|
        decreases |data| - at
      {
        var chunk := data[at..at + (64 - bufsize)];
        Absorb(chunk, bufsize, start + data[..at]);
        assert start + data[..at] + chunk == start + data[..at + |chunk|];
        at, bufsize := at + |chunk|, 0;
      }
      var last := data[at..];
      assert start + data[..at] + last == start + data;
      Keep(last, bufsize, start + data[..at]);
      message := message + data;
      ValidAgain();
    }

    lemma Held()
      requires Valid()
      ensures Holds(message, bytes % 64)
    {
      hide Fold;
    }

    lemma ValidAgain()
      requires bytes == |message| < 0x2000_0000_0000_0000 + 0x100 && Holds(message, |message| % 64)
      ensures Valid()
    {
      hide Fold;
    }

    /** Puts what is left into the buffer. */
    method Keep(last: seq<Octet>, bufsize: nat, ghost m: seq<Octet>)
      requires Holds(m, bufsize) && bufsize + |last| < 64
      modifies s, buf
      ensures Holds(m + last, |m + last| % 64)
    {
      hide Fold;
      RestGrows(m, last);
      if |last| > 0 {
        FillBuffer(last, bufsize);
      }
    }

    ghost predicate Holds(m: seq<Octet>, bufsize: nat)
      reads s, buf
    {
      s.Length == 8 && buf.Length == 64 && bufsize == |m| % 64 && s[..] == Fold(Whole(m)) && buf[..bufsize] == Rest(m)
    }

    /** Fills the buffer and processes it. */
    method Absorb(chunk: seq<Octet>, bufsize: nat, ghost m: seq<Octet>)
      requires Holds(m, bufsize) && bufsize + |chunk| == 64
      modifies s, buf
      ensures Holds(m + chunk, 0)
    {
      hide Fold, Compress;
      FillBuffer(chunk, bufsize);
      BlockDone(m, chunk, buf[..]);
      Transform(s, buf[..]);
    }

    method FillBuffer(data: seq<Octet>, at: nat)
      requires buf.Length == 64 && at + |data| <= 64
      modifies buf
      ensures buf[..at + |data|] == old(buf[..at]) + data
    {
      for i := 0 to |data|
        invariant buf[..at] == old(buf[..at]) && buf[at..at + i] == data[..i]
      {
        buf[at + i] := data[i];
      }
    }

    /** The digest of everything written. */
    method Finalize() returns (out: seq<Octet>)
      requires Valid() && |message| < 0x2000_0000_0000_0000
      modifies this, s, buf
      ensures out == Digest(old(message))
    {
      hide Fold, BigEndian, WordBytes, Zeros, Padding, PadZeros;
      ghost var m := message;
      var high, low := (bytes / 0x2000_0000) % 0x1_0000_0000, (bytes * 8) % 0x1_0000_0000;
      var sizedesc := BigEndian(high, 4) + BigEndian(low, 4);
      LengthBytes(bytes);
      PaddingParts(bytes);
      Grouped(m, [0x80] + Zeros((119 - bytes % 64) % 64), sizedesc);
      Write([0x80] + Zeros((119 - bytes % 64) % 64));
      Write(sizedesc);
      assert message == m + Padding(|m|);
      PaddedLength(m);
      WholeHash();
      out := Output();
    }

    lemma WholeHash()
      requires Valid() && |message| % 64 == 0
      ensures s[..] == Fold(message)
    {
      assert Whole(message) == message;
    }

    /** Writes out the hash words and clears them. */
    method Output() returns (out: seq<Octet>)
      requires s.Length == 8
      modifies s
      ensures out == WordBytes(old(s[..]))
    {
      ghost var h := s[..];
      out := [];
      for i := 0 to 8
        invariant out == WordBytes(h[..i]) && forall k :: i <= k < 8 ==> s[k] == h[k]
      {
        NextWordBytes(h, i);
        out := out + BytesOf(s[i]);
        s[i] := 0;
      }
      assert h[..8] == h;
    }
  }

  function Whole(m: seq<Octet>): (w: seq<Octet>)
    ensures |w| % 64 == 0
  {
    m[..|m| / 64 * 64]
  }

  function Rest(m: seq<Octet>): (r: seq<Octet>)
    ensures |r| == |m| % 64
  {
    m[|m| / 64 * 64..]
  }

  lemma BlockDone(m: seq<Octet>, chunk: seq<Octet>, block: seq<Octet>)
    requires |m| % 64 + |chunk| == 64 && block == Rest(m) + chunk
    ensures Fold(Whole(m + chunk)) == Compress(Fold(Whole(m)), block)
    ensures Rest(m + chunk) == [] && |m + chunk| % 64 == 0
  {
    hide Fold, Compress;
    assert m == Whole(m) + Rest(m);
    assert |m + chunk| == 64 * (|m| / 64 + 1);
    assert Whole(m + chunk) == Whole(m) + block;
    FoldAppend(Whole(m), block);
  }

  lemma RestGrows(m: seq<Octet>, data: seq<Octet>)
    requires |m| % 64 + |data| < 64
    ensures Whole(m + data) == Whole(m) && Rest(m + data) == Rest(m) + data
    ensures |m + data| % 64 == |m| % 64 + |data|
  {
    assert |m + data| / 64 == |m| / 64;
  }

  /** The two size words are the eight bytes of the length in bits. */
  lemma LengthBytes(n: nat)
    requires n < 0x2000_0000_0000_0000
    ensures BigEndian((n / 0x2000_0000) % 0x1_0000_0000, 4) + BigEndian((n * 8) % 0x1_0000_0000, 4) == BigEndian(8 * n, 8)
  {
    hide BigEndian;
    TwoHalves(8 * n);
    assert 8 * n / 0x1_0000_0000 == n / 0x2000_0000 == (n / 0x2000_0000) % 0x1_0000_0000;
  }

  lemma NextWordBytes(w: seq<Word>, i: nat)
    requires i < |w|
    ensures WordBytes(w[..i + 1]) == WordBytes(w[..i]) + BytesOf(w[i])
  {
    assert w[..i + 1][..i] == w[..i];
  }
}

/** The one-shot implementation: a full schedule of 64 words, and all its words in one array. */
module Sha256Full {
  import opened Messages
  import opened Sha256Words
  import opened Sha256Spec
  import Sha256Streaming

  const WS: nat := 64
  const HASH: nat := 128
  const END: nat := 136

  /** Round constants at 0, schedule at 64, hash at 128; the block counter is a word of its own. */
  class State {
    const words: array<Word>
    var counter: nat

    ghost predicate Loaded()
      reads this, words
    {
      words.Length == END && counter < 0x1_0000_0000 && forall t :: 0 <= t < 64 ==> words[t] == K(t)
    }

    ghost function Hash(): (h: seq<Word>)
      requires Loaded()
      reads this, words
      ensures |h| == 8
    {
      words[HASH..]
    }

    constructor ()
      ensures Loaded() && Hash() == InitialHash() && counter == 0 && fresh(words)
    {
      words := new Word[END](_ => 0);
      counter := 0;
      new;
      LoadConstants();
    }

    method LoadConstants()
      requires words.Length == END && counter < 0x1_0000_0000
      modifies words
      ensures Loaded() && Hash() == InitialHash()
    {
      hide K;
      for t := 0 to 64
        invariant forall k :: 0 <= k < t ==> words[k] == K(k)
      {
        words[t] := K(t);
      }
      var h := InitialHash();
      for i := 0 to 8
        invariant forall k :: 0 <= k < 64 ==> words[k] == K(k)
        invariant words[HASH..HASH + i] == h[..i]
      {
        words[HASH + i] := h[i];
      }
      assert words[HASH..] == words[HASH..HASH + 8] && h[..8] == h;
    }

    /** One block. */
    method Update(data: seq<Octet>)
      requires Loaded() && |data| == 64
      modifies this, words
      ensures Loaded() && Hash() == Compress(old(Hash()), data)
      ensures counter == (old(counter) + 1) % 0x1_0000_0000
    {
      hide K, WordOf, Round, NextWord, Add;
      ghost var h, m := Hash(), Words(data, 16);
      FillSchedule(data);
      assert Hash() == h;
      var hash0 := new Word[8](i requires 0 <= i < 8 && words.Length == END reads words => words[HASH + i]);
      assert hash0[..] == h;
      for i := 0 to 64
        invariant hash0.Length == 8 && fresh(hash0) && hash0[..] == Rounds(h, m, i)
        invariant Loaded() && Hash() == h && counter == old(counter)
        invariant forall t :: 0 <= t < 64 ==> words[WS + t] == Schedule(m, t)
      {
        FullRound(hash0, words[i], words[WS + i]);
      }
      AddHash(hash0[..]);
      counter := (counter + 1) % 0x1_0000_0000;
    }

    method FillSchedule(data: seq<Octet>)
      requires Loaded() && |data| == 64
      modifies words
      ensures Loaded() && words[HASH..] == old(words[HASH..])
      ensures forall t :: 0 <= t < 64 ==> words[WS + t] == Schedule(Words(data, 16), t)
    {
      hide K, WordOf, NextWord;
      ghost var m := Words(data, 16);
      for i := 0 to 16
        invariant Loaded() && words[HASH..] == old(words[HASH..])
        invariant forall t :: 0 <= t < i ==> words[WS + t] == Schedule(m, t)
      {
        words[WS + i] := WordOf(data[4 * i], data[4 * i + 1], data[4 * i + 2], data[4 * i + 3]);
      }
      for i := 16 to 64
        invariant Loaded() && words[HASH..] == old(words[HASH..])
        invariant forall t :: 0 <= t < i ==> words[WS + t] == Schedule(m, t)
      {
        var t16, t15, t7, t2 := words[WS + i - 16], words[WS + i - 15], words[WS + i - 7], words[WS + i - 2];
        words[WS + i] := NextWord(t2, t7, t15, t16);
        assert words[WS + i] == Schedule(m, i);
      }
    }

    static method FullRound(hash0: array<Word>, kt: Word, wst: Word)
      requires hash0.Length == 8
      modifies hash0
      ensures hash0[..] == Round(old(hash0[..]), kt, wst)
    {
      hide BigSigma0, BigSigma1, Ch, Maj, Add;
      var a, b, c, d := hash0[0], hash0[1], hash0[2], hash0[3];
      var e, f1, g, h := hash0[4], hash0[5], hash0[6], hash0[7];
      var t1 := Add(Add(Add(Add(h, BigSigma1(e)), Ch(e, f1, g)), kt), wst);
      var t2 := Add(BigSigma0(a), Maj(a, b, c));
      hash0[0], hash0[1], hash0[2], hash0[3] := Add(t1, t2), a, b, c;
      hash0[4], hash0[5], hash0[6], hash0[7] := Add(d, t1), e, f1, g;
    }

    method AddHash(v: seq<Word>)
      requires Loaded() && |v| == 8
      modifies words
      ensures Loaded() && Hash() == AddWords(old(Hash()), v)
    {
      hide K, Add;
      ghost var h := words[HASH..];
      for i := 0 to 8
        invariant Loaded() && words.Length == END
        invariant forall k :: 0 <= k < 8 ==> words[HASH + k] == if k < i then Add(h[k], v[k]) else h[k]
      {
        words[HASH + i] := Add(words[HASH + i], v[i]);
      }
    }

    method UpdateMulti(data: seq<Octet>, n: nat, ghost done: seq<Octet>)
      requires Loaded() && |data| == 64 * n && |done| % 64 == 0 && |done + data| % 64 == 0 && Hash() == Fold(done)
      requires counter + n < 0x1_0000_0000
      modifies this, words
      ensures Loaded() && Hash() == Fold(done + data) && counter == old(counter) + n
    {
      hide Fold, Compress, K, Add, Loaded, Hash;
      assert done + data[..0] == done;
      for i := 0 to n
        invariant Loaded() && Hash() == Fold(done + data[..64 * i]) && counter == old(counter) + i
      {
        var b := data[64 * i..64 * i + 64];
        FoldAppend(done + data[..64 * i], b);
        assert done + data[..64 * i] + b == done + data[..64 * (i + 1)];
        Update(b);
      }
      assert data[..64 * n] == data;
    }

    /** The rest of the message, its padding and its length, in one or two blocks at the end of a buffer. */
    method UpdateLast(data: seq<Octet>, ghost done: seq<Octet>)
      requires Loaded() && |data| < 64 && |done| == 64 * counter && Hash() == Fold(done) && counter + 2 < 0x1_0000_0000
      modifies this, words
      ensures Loaded()
      ensures var m := done + data; Hash() == Fold(m + Padding(|m|))
    {
      hide Fold, K, Loaded, Hash, BigEndian, Padding, PadZeros;
      var encodedlen := ((counter * 64 + |data|) * 8) % 0x1_0000_0000_0000_0000;
      var blocks := FinalBlocks(data, encodedlen, |done|);
      ghost var m := done + data;
      assert done + blocks == m + Padding(|m|);
      UpdateMulti(blocks, if |data| < 56 then 1 else 2, done);
    }

    /** The rest, a one bit, zeros and the length, at the end of a buffer of two blocks. */
    static method FinalBlocks(data: seq<Octet>, encodedlen: nat, ghost done: nat) returns (f: seq<Octet>)
      requires |data| < 64 && done % 64 == 0 && encodedlen == 8 * (done + |data|)
      ensures f == data + Padding(done + |data|) && |f| == if |data| < 56 then 64 else 128
    {
      hide BigEndian, PadZeros;
      var len := |data|;
      var blocks := new Octet[128](_ => 0);
      var at := if len < 56 then 64 else 0;
      var pad0len := (64 - (len + 8 + 1) % 64) % 64;
      PadLengths(done, len);
      Copy(blocks, at, data);
      blocks[at + len] := 0x80;
      Copy(blocks, at + len + 1 + pad0len, BigEndian(encodedlen, 8));
      f := blocks[at..];
      FinalLayout(f, data, pad0len, BigEndian(encodedlen, 8));
    }

    static lemma FinalLayout(f: seq<Octet>, data: seq<Octet>, pad: nat, tail: seq<Octet>)
      requires |f| == |data| + 1 + pad + |tail| && (forall k :: 0 <= k < |data| ==> f[k] == data[k]) && f[|data|] == 0x80
      requires forall k :: |data| + 1 <= k < |data| + 1 + pad ==> f[k] == 0
      requires forall k :: |data| + 1 + pad <= k < |f| ==> f[k] == tail[k - (|data| + 1 + pad)]
      ensures f == data + ([0x80] + Zeros(pad) + tail)
    {
      var n := |data| + 1;
      assert f[..|data|] == data && f[n..n + pad] == Zeros(pad) && f[n + pad..] == tail;
      assert f == f[..|data|] + f[|data|..];
      assert f[|data|..] == [f[|data|]] + f[n..];
      assert f[n..] == f[n..n + pad] + f[n + pad..];
      assert [0x80] + Zeros(pad) + tail == [0x80] + (Zeros(pad) + tail);
    }

    static method Copy(b: array<Octet>, at: nat, v: seq<Octet>)
      requires at + |v| <= b.Length
      modifies b
      ensures forall k :: 0 <= k < b.Length ==> b[k] == if at <= k < at + |v| then v[k - at] else old(b[k])
    {
      for i := 0 to |v|
        invariant forall k :: 0 <= k < b.Length ==> b[k] == if at <= k < at + i then v[k - at] else old(b[k])
      {
        b[at + i] := v[i];
      }
    }

    method Finish() returns (hash: seq<Octet>)
      requires Loaded()
      ensures hash == WordBytes(Hash())
    {
      hide K;
      hash := [];
      for i := 0 to 8
        invariant hash == WordBytes(Hash()[..i])
      {
        Sha256Streaming.NextWordBytes(Hash(), i);
        hash := hash + BytesOf(words[HASH + i]);
      }
      assert Hash()[..8] == Hash();
    }
  }

  /** Both ways of counting the padding zeros agree. */
  lemma PadLengths(done: nat, len: nat)
    requires done % 64 == 0 && len < 64
    ensures (64 - (len + 9) % 64) % 64 == PadZeros(done + len)
    ensures len + 1 + PadZeros(done + len) + 8 == if len < 56 then 64 else 128
  {
    RestOf(done, len);
    if len < 55 {
      assert PadZeros(done + len) == 55 - len;
    } else if len == 55 {
    } else {
      assert PadZeros(done + len) == 119 - len;
    }
  }

  lemma RestOf(done: nat, len: nat)
    requires done % 64 == 0 && len < 64
    ensures (done + len) % 64 == len
  {
  }

  /** The digest of a message in one call. */
  method Hash(input: seq<Octet>) returns (hash: seq<Octet>)
    requires |input| < 0x1_0000_0000
    ensures hash == Digest(input)
  {
    hide Fold, K, WordBytes;
    var state := new State();
    var n, r := |input| / 64, |input| % 64;
    var whole, last := input[..64 * n], input[64 * n..];
    assert [] + whole == whole && whole + last == input;
    FoldNothing();
    state.UpdateMulti(whole, n, []);
    state.UpdateLast(last, whole);
    hash := state.Finish();
  }

  /** However a message is cut into pieces, writing the pieces and hashing the whole give the same digest. */
  method BothDigests(parts: seq<seq<Octet>>) returns (streamed: seq<Octet>, whole: seq<Octet>)
    requires |Concat(parts)| < 0x1_0000_0000
    ensures streamed == whole == Digest(Concat(parts))
  {
    hide Digest;
    var hash := new Sha256Streaming.Sha256.Initialize();
    for i := 0 to |parts|
      invariant hash.Valid() && fresh(hash) && fresh(hash.s) && fresh(hash.buf)
      invariant hash.message == Concat(parts[..i])
      invariant |Concat(parts[..i])| <= |Concat(parts)|
    {
      Prefixes(parts, i + 1);
      assert parts[..i + 1][..i] == parts[..i];
      hash.Write(parts[i]);
    }
    assert parts[..|parts|] == parts;
    streamed := hash.Finalize();
    whole := Hash(Concat(parts));
  }

}
