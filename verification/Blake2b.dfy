/** The BLAKE2b compression function and digest (sections 3.1 to 3.3 of RFC 7693). */
module Blake2Spec {
  type Word = bv64
  type Octet = bv8

  function IV(i: nat): Word
    requires i < 8
  {
    match i
    case 0 => 0x6a09e667f3bcc908 case 1 => 0xbb67ae8584caa73b case 2 => 0x3c6ef372fe94f82b case 3 => 0xa54ff53a5f1d36f1
    case 4 => 0x510e527fade682d1 case 5 => 0x9b05688c2b3e6c1f case 6 => 0x1f83d9abfb41bd6b case _ => 0x5be0cd19137e2179
  }

  /** The order in which round r uses the message words. */
  function SigmaRow(r: nat): (row: seq<nat>)
    requires r < 12
    ensures |row| == 16
  {
    match r
    case 0 => [0, 1, 2, 3, 4, 5, 6, 7, 8, 9, 10, 11, 12, 13, 14, 15]
    case 1 => [14, 10, 4, 8, 9, 15, 13, 6, 1, 12, 0, 2, 11, 7, 5, 3]
    case 2 => [11, 8, 12, 0, 5, 2, 15, 13, 10, 14, 3, 6, 7, 1, 9, 4]
    case 3 => [7, 9, 3, 1, 13, 12, 11, 14, 2, 6, 5, 10, 4, 0, 15, 8]
    case 4 => [9, 0, 5, 7, 2, 4, 10, 15, 14, 1, 11, 12, 6, 8, 3, 13]
    case 5 => [2, 12, 6, 10, 0, 11, 8, 3, 4, 13, 7, 5, 15, 14, 1, 9]
    case 6 => [12, 5, 1, 15, 14, 13, 4, 10, 0, 7, 6, 3, 9, 2, 8, 11]
    case 7 => [13, 11, 7, 14, 12, 1, 3, 9, 5, 0, 15, 4, 8, 6, 2, 10]
    case 8 => [6, 15, 14, 9, 11, 3, 0, 8, 12, 2, 13, 7, 1, 4, 10, 5]
    case 9 => [10, 2, 8, 4, 7, 6, 1, 5, 15, 11, 9, 14, 3, 12, 13, 0]
    case 10 => [0, 1, 2, 3, 4, 5, 6, 7, 8, 9, 10, 11, 12, 13, 14, 15]
    case _ => [14, 10, 4, 8, 9, 15, 13, 6, 1, 12, 0, 2, 11, 7, 5, 3]
  }

  function Sigma(r: nat, i: nat): (s: nat)
    requires r < 12 && i < 16
    ensures s < 16
  {
    if SigmaRow(r)[i] < 16 then SigmaRow(r)[i] else 0
  }

  function Add(x: Word, y: Word): Word { x + y }
  function Xor(x: Word, y: Word): Word { x ^ y }

  function Rotr(x: Word, n: bv7): Word
    requires 0 < n < 64
  {
    (x >> n) | (x << (64 - n))
  }

  /** Half of the mixing function: one message word, and rotations by p and q. */
  function HalfMix(v: seq<Word>, a: nat, b: nat, c: nat, d: nat, x: Word, p: bv7, q: bv7): (r: seq<Word>)
    requires |v| == 16 && a < 4 <= b < 8 <= c < 12 <= d < 16 && 0 < p < 64 && 0 < q < 64
    ensures |r| == 16
  {
    var a1 := Add(Add(v[a], v[b]), x);
    var d1 := Rotr(Xor(v[d], a1), p);
    var c1 := Add(v[c], d1);
    var b1 := Rotr(Xor(v[b], c1), q);
    v[a := a1][b := b1][c := c1][d := d1]
  }

  /** The mixing function on four words of the working vector. */
  function Mix(v: seq<Word>, a: nat, b: nat, c: nat, d: nat, x: Word, y: Word): (r: seq<Word>)
    requires |v| == 16 && a < 4 <= b < 8 <= c < 12 <= d < 16
    ensures |r| == 16
  {
    HalfMix(HalfMix(v, a, b, c, d, x, 32, 24), a, b, c, d, y, 16, 63)
  }

  /** Step i of round r: a column for i below 4, a diagonal otherwise. */
  function Step(v: seq<Word>, m: seq<Word>, r: nat, i: nat): (w: seq<Word>)
    requires |v| == 16 && |m| == 16 && r < 12 && i < 8
    ensures |w| == 16
  {
    Mix(v, i % 4, 4 + (i + i / 4) % 4, 8 + (i + 2 * (i / 4)) % 4, 12 + (i + 3 * (i / 4)) % 4,
        m[Sigma(r, 2 * i)], m[Sigma(r, 2 * i + 1)])
  }

  /** The vector after n of the 96 steps. */
  function Steps(v: seq<Word>, m: seq<Word>, n: nat): (w: seq<Word>)
    requires |v| == 16 && |m| == 16 && n <= 96
    ensures |w| == 16
  {
    if n == 0 then v else Step(Steps(v, m, n - 1), m, (n - 1) / 8, (n - 1) % 8)
  }

  function WordOf(b: seq<Octet>): Word
    requires |b| == 8
  {
    (b[0] as Word) | ((b[1] as Word) << 8) | ((b[2] as Word) << 16) | ((b[3] as Word) << 24)
    | ((b[4] as Word) << 32) | ((b[5] as Word) << 40) | ((b[6] as Word) << 48) | ((b[7] as Word) << 56)
  }

  function Words(b: seq<Octet>, n: nat): (w: seq<Word>)
    requires |b| == 8 * n
    ensures |w| == n && forall i :: 0 <= i < n ==> w[i] == WordOf(b[8 * i..8 * i + 8])
  {
    seq(n, i requires 0 <= i < n => WordOf(b[8 * i..8 * i + 8]))
  }

  function Bits(n: nat): Word
    requires n < 0x1_0000_0000_0000_0000
  {
    n as Word
  }

  /** The flag words of the last block. */
  function Flag(raised: bool): Word { if raised then 0xFFFF_FFFF_FFFF_FFFF else 0 }

  function StartVector(h: seq<Word>, t0: nat, t1: nat, f0: Word, f1: Word): (v: seq<Word>)
    requires |h| == 8 && t0 < 0x1_0000_0000_0000_0000 && t1 < 0x1_0000_0000_0000_0000
    ensures |v| == 16
  {
    h + [IV(0), IV(1), IV(2), IV(3), Xor(IV(4), Bits(t0)), Xor(IV(5), Bits(t1)), Xor(IV(6), f0), Xor(IV(7), f1)]
  }

  function Finish(h: seq<Word>, v: seq<Word>): (r: seq<Word>)
    requires |h| == 8 && |v| == 16
    ensures |r| == 8 && forall i :: 0 <= i < 8 ==> r[i] == Xor(Xor(h[i], v[i]), v[i + 8])
  {
    seq(8, i requires 0 <= i < 8 => Xor(Xor(h[i], v[i]), v[i + 8]))
  }

  /** F: absorbs a block into the hash; t counts the bytes up to and including the block, modulo 2^128. */
  function F(h: seq<Word>, block: seq<Octet>, t: nat, last: bool, lastNode: bool): (r: seq<Word>)
    requires |h| == 8 && |block| == 128
    ensures |r| == 8
  {
    var low, high := t % 0x1_0000_0000_0000_0000, t / 0x1_0000_0000_0000_0000 % 0x1_0000_0000_0000_0000;
    var v := StartVector(h, low, high, Flag(last), Flag(last && lastNode));
    Finish(h, Steps(v, Words(block, 16), 96))
  }

  function Zeros(n: nat): (z: seq<Octet>)
    ensures |z| == n
  {
    seq(n, _ => 0)
  }

  /** The hash after whole blocks, none of which is the last. */
  function Chain(h0: seq<Word>, m: seq<Octet>): (h: seq<Word>)
    requires |h0| == 8 && |m| % 128 == 0
    ensures |h| == 8
  {
    if |m| == 0 then h0 else F(Chain(h0, m[..|m| - 128]), m[|m| - 128..], |m|, false, false)
  }

  /** How many bytes are absorbed before the last block: it is never empty unless the message is. */
  function Held(n: nat): (k: nat)
    ensures k % 128 == 0 && k <= n <= k + 128 && (n > 0 ==> k < n)
  {
    if n == 0 then 0 else (n - 1) / 128 * 128
  }

  function FinalHash(h0: seq<Word>, m: seq<Octet>, lastNode: bool): (h: seq<Word>)
    requires |h0| == 8
    ensures |h| == 8
  {
    var k := Held(|m|);
    F(Chain(h0, m[..k]), m[k..] + Zeros(128 - (|m| - k)), |m|, true, lastNode)
  }

  function BytesOf(w: Word): (b: seq<Octet>)
    ensures |b| == 8
  {
    [(w & 0xFF) as Octet, ((w >> 8) & 0xFF) as Octet, ((w >> 16) & 0xFF) as Octet, ((w >> 24) & 0xFF) as Octet,
     ((w >> 32) & 0xFF) as Octet, ((w >> 40) & 0xFF) as Octet, ((w >> 48) & 0xFF) as Octet, ((w >> 56) & 0xFF) as Octet]
  }

  function WordBytes(w: seq<Word>): (b: seq<Octet>)
    ensures |b| == 8 * |w|
  {
    if |w| == 0 then [] else WordBytes(w[..|w| - 1]) + BytesOf(w[|w| - 1])
  }

  /** The parameter block of sequential hashing: digest length, key length, fanout 1 and depth 1. */
  function Parameters(outlen: nat, keylen: nat): (p: seq<Octet>)
    requires outlen <= 64 && keylen <= 64
    ensures |p| == 64
  {
    [outlen as Octet, keylen as Octet, 1, 1] + Zeros(60)
  }

  function InitialHash(outlen: nat, keylen: nat): (h: seq<Word>)
    requires outlen <= 64 && keylen <= 64
    ensures |h| == 8
  {
    var p := Words(Parameters(outlen, keylen), 8);
    seq(8, i requires 0 <= i < 8 => Xor(IV(i), p[i]))
  }

  /** A key is hashed as a block of its own in front of the message. */
  function Keyed(key: seq<Octet>, m: seq<Octet>): seq<Octet>
    requires |key| <= 64
  {
    if |key| == 0 then m else key + Zeros(128 - |key|) + m
  }

  function Digest(m: seq<Octet>, key: seq<Octet>, outlen: nat): (d: seq<Octet>)
    requires outlen <= 64 && |key| <= 64
    ensures |d| == outlen
  {
    WordBytes(FinalHash(InitialHash(outlen, |key|), Keyed(key, m), false))[..outlen]
  }

  lemma ChainAppend(h0: seq<Word>, m: seq<Octet>, block: seq<Octet>)
    requires |h0| == 8 && |m| % 128 == 0 && |block| == 128
    ensures Chain(h0, m + block) == F(Chain(h0, m), block, |m| + 128, false, false)
  {
    hide F;
    assert (m + block)[..|m|] == m && (m + block)[|m|..] == block;
  }
}

/** The streaming implementation. */
module Blake2b {
  import opened Messages
  import opened Blake2Spec

  const OUTBYTES: nat := 64
  const KEYBYTES: nat := 64

  class State {
    const h: array<Word>
    var t0: nat
    var t1: nat
    var f0: Word
    var f1: Word
    const buf: array<Octet>
    var buflen: nat
    var outlen: nat
    var lastNode: bool
    ghost var start: seq<Word>
    ghost var absorbed: seq<Octet>

    /** The number in the two counter words. */
    ghost function Counter(): nat
      reads this
    {
      t0 + t1 * 0x1_0000_0000_0000_0000
    }

    ghost predicate Shape()
      reads this
    {
      h.Length == 8 && buf.Length == 128 && |start| == 8 && outlen <= OUTBYTES
      && t0 < 0x1_0000_0000_0000_0000 && t1 < 0x1_0000_0000_0000_0000
    }

    /** Before the end: everything absorbed is compressed except the last 1 to 128 bytes, which the buffer holds. */
    ghost predicate Valid()
      reads this, h, buf
    {
      Shape() && f0 == 0 && f1 == 0 && Holds(start, absorbed, buflen) && Counter() + buflen == |absorbed|
    }

    ghost predicate Holds(h0: seq<Word>, m: seq<Octet>, left: nat)
      reads h, buf
    {
      |h0| == 8 && h.Length == 8 && buf.Length == 128 && left <= 128 && |m| == Held(|m|) + left
      && h[..] == Chain(h0, m[..Held(|m|)]) && buf[..left] == m[Held(|m|)..]
    }

    method IncrementCounter(inc: nat)
      requires Shape() && inc < 0x1_0000_0000_0000_0000 && Counter() + inc < 0x1_0000_0000_0000_0000_0000_0000_0000_0000
      modifies this`t0, this`t1
      ensures Shape() && Counter() == old(Counter()) + inc
    {
      t0 := (t0 + inc) % 0x1_0000_0000_0000_0000;
      t1 := (t1 + if t0 < inc then 1 else 0) % 0x1_0000_0000_0000_0000;
    }

    /** F on the hash in place, with the counter and the flags as they are. */
    method Compress(block: seq<Octet>)
      requires Shape() && |block| == 128
      modifies h
      ensures h[..] == Finish(old(h[..]), Steps(StartVector(old(h[..]), t0, t1, f0, f1), Words(block, 16), 96))
    {
      hide Add, Xor, Rotr, IV, Sigma, WordOf, Mix, Step, Bits;
      ghost var h0 := h[..];
      var m := LoadWords(block);
      var v := new Word[16](_ => 0);
      FillVector(v, h[..], t0, t1, f0, f1);
      ghost var v0 := v[..];
      for n := 0 to 96
        invariant h[..] == h0 && v.Length == 16 && fresh(v) && v[..] == Steps(v0, m, n)
      {
        StepInPlace(v, m, n / 8, n % 8);
      }
      FoldVector(v[..]);
    }

    method FoldVector(v: seq<Word>)
      requires h.Length == 8 && |v| == 16
      modifies h
      ensures h[..] == Finish(old(h[..]), v)
    {
      hide Xor;
      ghost var h0 := h[..];
      for i := 0 to 8
        invariant forall k :: 0 <= k < i ==> h[k] == Xor(Xor(h0[k], v[k]), v[k + 8])
        invariant forall k :: i <= k < 8 ==> h[k] == h0[k]
      {
        h[i] := Xor(Xor(h[i], v[i]), v[i + 8]);
      }
    }

    /** A block that is not the last one: the counter moves first. */
    method CompressBlock(block: seq<Octet>, ghost m: seq<Octet>)
      requires Shape() && f0 == 0 && f1 == 0 && |block| == 128 && |m| % 128 == 0 && |m + block| % 128 == 0
      requires h[..] == Chain(start, m)
      requires Counter() == |m| && |m| + 128 < 0x1_0000_0000_0000_0000_0000_0000_0000_0000
      modifies this`t0, this`t1, h
      ensures Shape() && h[..] == Chain(start, m + block) && Counter() == |m| + 128
    {
      hide Chain, Finish, Steps, StartVector, Words, F;
      ghost var h0 := h[..];
      IncrementCounter(128);
      Compress(block);
      ChainAppend(start, m, block);
      CompressIsF(h0, block, t0, t1, |m| + 128, false, false);
    }

    /** Absorbs any number of bytes; a full buffer is compressed only when more follows it. */
    method Update(data: seq<Octet>)
      requires Valid() && |absorbed| + |data| < 0x1_0000_0000_0000_0000_0000_0000_0000_0000
      modifies this`t0, this`t1, this`buflen, this`absorbed, h, buf
      ensures Valid() && absorbed == old(absorbed) + data
    {
      hide Chain, Holds;
      ghost var m := absorbed;
      if |data| > 0 {
        LeftOver(m, buflen);
        if |data| > 128 - buflen {
          Overflow(data, m);
        } else {
          Keep(data, m);
        }
        absorbed := m + data;
      } else {
        assert m + data == m;
      }
    }

    /** Fills the buffer, compresses it and goes on from the input. */
    method Overflow(data: seq<Octet>, ghost m: seq<Octet>)
      requires Shape() && f0 == 0 && f1 == 0 && Holds(start, m, buflen) && Counter() + buflen == |m|
      requires buflen <= 128 < buflen + |data| && |m| + |data| < 0x1_0000_0000_0000_0000_0000_0000_0000_0000
      modifies this`t0, this`t1, this`buflen, h, buf
      ensures Shape() && Holds(start, m + data, buflen) && Counter() + buflen == |m| + |data|
    {
      hide Chain, Holds, Held;
      LeftOver(m, buflen);
      var left := buflen;
      var fill := 128 - left;
      buflen := 0;
      FillBuffer(left, data[..fill]);
      FirstBlock(m, data, left, buf[..]);
      CompressBlock(buf[..], m[..Held(|m|)]);
      Blocks(data, fill, m);
    }

    method Keep(data: seq<Octet>, ghost m: seq<Octet>)
      requires Shape() && Holds(start, m, buflen) && 0 < |data| <= 128 - buflen
      modifies this`buflen, buf
      ensures Shape() && Holds(start, m + data, buflen) && buflen == old(buflen) + |data|
    {
      hide Chain;
      FillBuffer(buflen, data);
      StillHeld(m, data);
      buflen := buflen + |data|;
    }

    /** Compresses whole blocks from the input while more than one block is left, then keeps the rest. */
    method Blocks(data: seq<Octet>, from: nat, ghost m: seq<Octet>)
      requires Shape() && f0 == 0 && f1 == 0 && buflen == 0 && from < |data| && (|m| + from) % 128 == 0
      requires h[..] == Chain(start, m + data[..from]) && Counter() == |m| + from
      requires |m| + |data| < 0x1_0000_0000_0000_0000_0000_0000_0000_0000
      modifies this`t0, this`t1, this`buflen, h, buf
      ensures Shape() && Holds(start, m + data, buflen) && Counter() + buflen == |m| + |data|
    {
      hide Chain;
      var at := from;
      while |data| - at > 128
        invariant Shape() && buflen == 0 && from <= at < |data| && (|m| + at) % 128 == 0
        invariant h[..] == Chain(start, m + data[..at]) && Counter() == |m| + at
      {
        var block := data[at..at + 128];
        NextBlock(data, at, m);
        CompressBlock(block, m + data[..at]);
        at := at + 128;
      }
      KeepRest(data, at, m);
    }

    method KeepRest(data: seq<Octet>, at: nat, ghost m: seq<Octet>)
      requires Shape() && buflen == 0 && at < |data| <= at + 128 && (|m| + at) % 128 == 0
      requires h[..] == Chain(start, m + data[..at])
      modifies this`buflen, buf
      ensures Shape() && Holds(start, m + data, buflen) && buflen == |data| - at
    {
      hide Chain;
      var rest := data[at..];
      FillBuffer(buflen, rest);
      buflen := buflen + |rest|;
      HeldExact(|m| + |data|, |m| + at);
      assert (m + data)[..|m| + at] == m + data[..at];
      assert (m + data)[|m| + at..] == rest;
    }

    method FillBuffer(at: nat, data: seq<Octet>)
      requires buf.Length == 128 && at + |data| <= 128
      modifies buf
      ensures buf[..at + |data|] == old(buf[..at]) + data
    {
      Put(buf, at, data);
    }

    lemma LeftOver(m: seq<Octet>, left: nat)
      requires Shape() && Holds(start, m, left)
      ensures left <= 128 && left == |m| - Held(|m|) && buf[..left] == m[Held(|m|)..] && h[..] == Chain(start, m[..Held(|m|)])
      ensures Counter() + left == |m| ==> Counter() == Held(|m|)
    {
      hide Chain;
    }

    /** The digest of everything absorbed, unless the caller's buffer is too small or it was taken before. */
    method Final(outlen0: nat) returns (out: seq<Octet>, ok: bool)
      requires Shape() && (f0 == 0 ==> Valid()) && |absorbed| < 0x1_0000_0000_0000_0000_0000_0000_0000_0000
      modifies this`t0, this`t1, this`f0, this`f1, h, buf
      ensures ok <==> outlen0 >= outlen && old(f0) == 0
      ensures ok ==> Shape() && f0 != 0 && out == WordBytes(FinalHash(start, absorbed, lastNode))[..outlen]
      ensures !ok ==> t0 == old(t0) && t1 == old(t1) && f0 == old(f0) && f1 == old(f1)
      ensures !ok ==> h[..] == old(h[..]) && buf[..] == old(buf[..])
    {
      hide Chain, Finish, Steps, StartVector, Words, FinalHash, WordBytes;
      out := [];
      if outlen0 < outlen {
        return out, false;
      }
      if f0 != 0 {
        return out, false;
      }
      LeftOver(absorbed, buflen);
      ghost var h0 := h[..];
      IncrementCounter(buflen);
      f1 := Flag(lastNode);
      f0 := Flag(true);
      FillBuffer(buflen, Zeros(128 - buflen));
      Compress(buf[..]);
      CompressIsF(h0, buf[..], t0, t1, |absorbed|, true, lastNode);
      FinalIs(start, absorbed, lastNode, h0, buf[..]);
      var bytes := Output();
      out, ok := bytes[..outlen], true;
    }

    method Output() returns (out: seq<Octet>)
      requires h.Length == 8
      ensures out == WordBytes(h[..]) && |out| == 64
    {
      out := [];
      for i := 0 to 8
        invariant out == WordBytes(h[..i])
      {
        assert h[..i + 1][..i] == h[..i];
        out := out + BytesOf(h[i]);
      }
      assert h[..8] == h[..];
    }

    /** A fresh state for unkeyed hashing. */
    constructor Init(outlen0: nat)
      requires 0 < outlen0 <= OUTBYTES
      ensures Valid() && absorbed == [] && start == InitialHash(outlen0, 0) && outlen == outlen0 && !lastNode
      ensures fresh(h) && fresh(buf)
    {
      var p := InitialHash(outlen0, 0);
      h := new Word[8](i requires 0 <= i < 8 => p[i]);
      buf := new Octet[128](_ => 0);
      t0, t1, f0, f1, buflen, outlen, lastNode := 0, 0, 0, 0, 0, outlen0, false;
      start, absorbed := p, [];
      new;
      assert h[..] == p;
    }

    /** A fresh state that has absorbed the key as a block of its own. */
    constructor InitKey(outlen0: nat, key: seq<Octet>)
      requires 0 < outlen0 <= OUTBYTES && 0 < |key| <= KEYBYTES
      ensures Valid() && absorbed == key + Zeros(128 - |key|) && start == InitialHash(outlen0, |key|)
      ensures outlen == outlen0 && !lastNode && fresh(h) && fresh(buf)
    {
      var p := InitialHash(outlen0, |key|);
      h := new Word[8](i requires 0 <= i < 8 => p[i]);
      buf := new Octet[128](_ => 0);
      t0, t1, f0, f1, buflen, outlen, lastNode := 0, 0, 0, 0, 0, outlen0, false;
      start, absorbed := p, [];
      new;
      assert h[..] == p;
      Update(key + Zeros(128 - |key|));
    }
  }

  method LoadWords(block: seq<Octet>) returns (m: seq<Word>)
    requires |block| == 128
    ensures m == Words(block, 16)
  {
    hide WordOf;
    var w := new Word[16](_ => 0);
    for i := 0 to 16
      invariant forall k :: 0 <= k < i ==> w[k] == WordOf(block[8 * k..8 * k + 8])
    {
      w[i] := WordOf(block[8 * i..8 * i + 8]);
    }
    m := w[..];
  }

  method FillVector(v: array<Word>, h: seq<Word>, t0: nat, t1: nat, f0: Word, f1: Word)
    requires v.Length == 16 && |h| == 8 && t0 < 0x1_0000_0000_0000_0000 && t1 < 0x1_0000_0000_0000_0000
    modifies v
    ensures v[..] == StartVector(h, t0, t1, f0, f1)
  {
    hide IV, Xor, Bits;
    Put(v, 0, h);
    Put(v, 8, [IV(0), IV(1), IV(2), IV(3), Xor(IV(4), Bits(t0)), Xor(IV(5), Bits(t1)), Xor(IV(6), f0), Xor(IV(7), f1)]);
  }

  method Put<T>(a: array<T>, at: nat, v: seq<T>)
    requires at + |v| <= a.Length
    modifies a
    ensures forall k :: 0 <= k < a.Length ==> a[k] == if at <= k < at + |v| then v[k - at] else old(a[k])
  {
    for i := 0 to |v|
      invariant forall k :: 0 <= k < a.Length ==> a[k] == if at <= k < at + i then v[k - at] else old(a[k])
    {
      a[at + i] := v[i];
    }
  }

  method HalfMixInPlace(v: array<Word>, a: nat, b: nat, c: nat, d: nat, x: Word, p: bv7, q: bv7)
    requires v.Length == 16 && a < 4 <= b < 8 <= c < 12 <= d < 16 && 0 < p < 64 && 0 < q < 64
    modifies v
    ensures v[..] == HalfMix(old(v[..]), a, b, c, d, x, p, q)
  {
    hide Add, Xor, Rotr;
    v[a] := Add(Add(v[a], v[b]), x);
    v[d] := Rotr(Xor(v[d], v[a]), p);
    v[c] := Add(v[c], v[d]);
    v[b] := Rotr(Xor(v[b], v[c]), q);
  }

  /** The mixing function in place. */
  method MixInPlace(v: array<Word>, a: nat, b: nat, c: nat, d: nat, x: Word, y: Word)
    requires v.Length == 16 && a < 4 <= b < 8 <= c < 12 <= d < 16
    modifies v
    ensures v[..] == Mix(old(v[..]), a, b, c, d, x, y)
  {
    hide HalfMix;
    HalfMixInPlace(v, a, b, c, d, x, 32, 24);
    HalfMixInPlace(v, a, b, c, d, y, 16, 63);
  }

  /** One of the eight steps of a round, as the macro lists them. */
  method StepInPlace(v: array<Word>, m: seq<Word>, r: nat, i: nat)
    requires v.Length == 16 && |m| == 16 && r < 12 && i < 8
    modifies v
    ensures v[..] == Step(old(v[..]), m, r, i)
  {
    hide Mix, Sigma;
    var x, y := m[Sigma(r, 2 * i)], m[Sigma(r, 2 * i + 1)];
    match i
    case 0 => MixInPlace(v, 0, 4, 8, 12, x, y);
    case 1 => MixInPlace(v, 1, 5, 9, 13, x, y);
    case 2 => MixInPlace(v, 2, 6, 10, 14, x, y);
    case 3 => MixInPlace(v, 3, 7, 11, 15, x, y);
    case 4 => MixInPlace(v, 0, 5, 10, 15, x, y);
    case 5 => MixInPlace(v, 1, 6, 11, 12, x, y);
    case 6 => MixInPlace(v, 2, 7, 8, 13, x, y);
    case 7 => MixInPlace(v, 3, 4, 9, 14, x, y);
  }

  lemma CompressIsF(h: seq<Word>, block: seq<Octet>, t0: nat, t1: nat, t: nat, last: bool, lastNode: bool)
    requires |h| == 8 && |block| == 128 && t0 < 0x1_0000_0000_0000_0000 && t1 < 0x1_0000_0000_0000_0000
    requires t == t0 + t1 * 0x1_0000_0000_0000_0000 && (lastNode ==> last)
    ensures Finish(h, Steps(StartVector(h, t0, t1, Flag(last), Flag(lastNode)), Words(block, 16), 96))
         == F(h, block, t, last, lastNode)
  {
    hide Finish, Steps, StartVector, Words;
    assert t % 0x1_0000_0000_0000_0000 == t0 && t / 0x1_0000_0000_0000_0000 == t1;
  }

  lemma FirstBlock(m: seq<Octet>, data: seq<Octet>, left: nat, block: seq<Octet>)
    requires left == |m| - Held(|m|) && left <= 128 && 128 - left < |data|
    requires block == m[Held(|m|)..] + data[..128 - left]
    ensures m[..Held(|m|)] + block == m + data[..128 - left] && Held(|m|) % 128 == 0
    ensures |m[..Held(|m|)] + block| % 128 == 0 && (|m| + 128 - left) % 128 == 0
  {
  }

  lemma NextBlock(data: seq<Octet>, at: nat, m: seq<Octet>)
    requires at + 128 <= |data| && (|m| + at) % 128 == 0
    ensures |m + data[..at]| == |m| + at && (|m| + at + 128) % 128 == 0
    ensures m + data[..at] + data[at..at + 128] == m + data[..at + 128]
  {
  }

  lemma StillHeld(m: seq<Octet>, data: seq<Octet>)
    requires |data| > 0 && |m| - Held(|m|) + |data| <= 128
    ensures Held(|m + data|) == Held(|m|)
    ensures (m + data)[..Held(|m|)] == m[..Held(|m|)] && (m + data)[Held(|m|)..] == m[Held(|m|)..] + data
  {
    HeldExact(|m + data|, Held(|m|));
  }

  lemma HeldExact(n: nat, k: nat)
    requires k % 128 == 0 && k < n <= k + 128
    ensures Held(n) == k
  {
  }

  lemma FinalIs(h0: seq<Word>, m: seq<Octet>, lastNode: bool, h: seq<Word>, block: seq<Octet>)
    requires |h0| == 8 && h == Chain(h0, m[..Held(|m|)]) && block == m[Held(|m|)..] + Zeros(128 - (|m| - Held(|m|)))
    ensures FinalHash(h0, m, lastNode) == F(h, block, |m|, true, lastNode)
  {
    hide Chain, F;
  }

  /** The one-call interface: fails on an impossible digest or key length, otherwise the digest. */
  method Blake2b(outlen: nat, input: seq<Octet>, key: seq<Octet>) returns (out: seq<Octet>, ok: bool)
    requires |input| < 0x1_0000_0000_0000_0000
    ensures ok <==> 0 < outlen <= OUTBYTES && |key| <= KEYBYTES
    ensures ok ==> out == Digest(input, key, outlen)
  {
    hide FinalHash, WordBytes, InitialHash, Chain;
    out, ok := [], false;
    if outlen == 0 || outlen > OUTBYTES {
      return;
    }
    if |key| > KEYBYTES {
      return;
    }
    out := Pieces(outlen, [input], key);
    assert [input][..0] == [];
    assert Concat([input]) == Concat([]) + input == input;
    ok := true;
  }

  /** However the input is cut into pieces, the digest is that of the whole. */
  method Pieces(outlen: nat, parts: seq<seq<Octet>>, key: seq<Octet>) returns (out: seq<Octet>)
    requires 0 < outlen <= OUTBYTES && |key| <= KEYBYTES && |Concat(parts)| < 0x1_0000_0000_0000_0000
    ensures out == Digest(Concat(parts), key, outlen)
  {
    hide FinalHash, WordBytes, InitialHash, Chain, Keyed;
    var s := Start(outlen, key);
    UpdateAll(s, parts);
    KeyInFront(key, Concat(parts));
    var ok;
    out, ok := s.Final(outlen);
  }

  method UpdateAll(s: State, parts: seq<seq<Octet>>)
    requires s.Valid() && |s.absorbed| <= 128 && |Concat(parts)| < 0x1_0000_0000_0000_0000
    modifies s`t0, s`t1, s`buflen, s`absorbed, s.h, s.buf
    ensures s.Valid() && s.absorbed == old(s.absorbed) + Concat(parts)
  {
    hide Chain, Held, Concat;
    ghost var head := s.absorbed;
    NoPieces(head, parts);
    for i := 0 to |parts|
      invariant s.Valid() && s.absorbed == head + Concat(parts[..i])
    {
      NextPiece(head, parts, i);
      s.Update(parts[i]);
    }
  }

  lemma NoPieces(head: seq<Octet>, parts: seq<seq<Octet>>)
    ensures head + Concat(parts[..0]) == head && parts[..|parts|] == parts
  {
  }

  lemma NextPiece(head: seq<Octet>, parts: seq<seq<Octet>>, i: nat)
    requires i < |parts|
    ensures head + Concat(parts[..i]) + parts[i] == head + Concat(parts[..i + 1])
    ensures |head + Concat(parts[..i]) + parts[i]| <= |head| + |Concat(parts)|
  {
    hide Concat;
    Prefixes(parts, i + 1);
    ConcatSnoc(parts, i);
  }

  method Start(outlen: nat, key: seq<Octet>) returns (s: State)
    requires 0 < outlen <= OUTBYTES && |key| <= KEYBYTES
    ensures s.Valid() && fresh(s) && fresh(s.h) && fresh(s.buf) && s.absorbed == Keyed(key, [])
    ensures |s.absorbed| <= 128
    ensures s.start == InitialHash(outlen, |key|) && s.outlen == outlen && !s.lastNode
  {
    hide InitialHash, Chain;
    if |key| > 0 {
      s := new State.InitKey(outlen, key);
    } else {
      s := new State.Init(outlen);
    }
  }

  lemma KeyInFront(key: seq<Octet>, m: seq<Octet>)
    requires |key| <= KEYBYTES
    ensures Keyed(key, []) + m == Keyed(key, m)
  {
  }

}
