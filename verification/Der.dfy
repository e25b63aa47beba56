/** Strict DER signatures: a sequence of two integers (sections 8.1.3 and 8.3 of X.690). */
module Der {
  import opened Arith
  import opened Octets
  import opened Scalars

  datatype Signature = Signature(r: Scalar, s: Scalar)
  datatype Parsed = Rejected | Accepted(signature: Signature)

  // ----- the encoding

  const WORD64: int := 0x1_0000_0000_0000_0000

  /** Every object in memory is smaller than this. */
  const SIZE_LIMIT: int := 0x8000_0000_0000_0000

  function BigEndian(b: seq<Octet>): nat {
    if |b| == 0 then 0 else 0x100 * BigEndian(b[..|b| - 1]) + b[|b| - 1]
  }

  /** The digits of n in base 256 without leading zeros. */
  function MinBytes(n: nat): seq<Octet> {
    if n == 0 then [] else MinBytes(n / 0x100) + [n % 0x100]
  }

  /** Length octets: one for less than 128, otherwise a count and the shortest big-endian form. */
  function EncodeLength(n: nat): seq<Octet>
    requires |MinBytes(n)| < 0x80
  {
    if n < 0x80 then [n] else [0x80 + |MinBytes(n)|] + MinBytes(n)
  }

  /** Content octets of an integer: at least one, and no leading octet that could be dropped. */
  predicate MinimalInt(c: seq<Octet>) {
    |c| > 0
    && !(c[0] == 0 && |c| > 1 && c[1] < 0x80)
    && !(c[0] == 0xFF && |c| > 1 && c[1] >= 0x80)
  }

  /** Content octets short enough for their length to be written down. */
  predicate Encodable(n: nat) { |MinBytes(n)| < 0x7F }

  function EncodeInt(c: seq<Octet>): seq<Octet>
    requires Encodable(|c|)
  {
    [0x02] + EncodeLength(|c|) + c
  }

  /** The scalar that content octets stand for; negative numbers and those not below the order become zero. */
  function IntValue(c: seq<Octet>): Scalar {
    if |c| == 0 || c[0] >= 0x80 || BigEndian(c) >= N then 0 else BigEndian(c)
  }

  function Body(c1: seq<Octet>, c2: seq<Octet>): seq<Octet>
    requires Encodable(|c1|) && Encodable(|c2|)
  {
    EncodeInt(c1) + EncodeInt(c2)
  }

  /** sig is the encoding of two minimal integers. */
  ghost predicate IsEncoding(sig: seq<Octet>, c1: seq<Octet>, c2: seq<Octet>) {
    && MinimalInt(c1) && MinimalInt(c2) && Encodable(|c1|) && Encodable(|c2|) && Encodable(|Body(c1, c2)|)
    && sig == [0x30] + EncodeLength(|Body(c1, c2)|) + Body(c1, c2)
  }

  // ----- digits

  lemma {:induction false} MinBytesValue(n: nat)
    ensures BigEndian(MinBytes(n)) == n
    ensures n > 0 ==> |MinBytes(n)| > 0 && MinBytes(n)[0] != 0
  {
    if n > 0 {
      MinBytesValue(n / 0x100);
      var d, r := MinBytes(n / 0x100), n % 0x100;
      assert (d + [r])[..|d|] == d;
    }
  }

  lemma {:induction false} MinBytesUnique(b: seq<Octet>)
    requires |b| == 0 || b[0] != 0
    ensures MinBytes(BigEndian(b)) == b
    ensures |b| > 0 ==> BigEndian(b) > 0
  {
    if |b| > 0 {
      var h := b[..|b| - 1];
      MinBytesUnique(h);
      assert b == h + [b[|b| - 1]];
      var v, last := BigEndian(h), b[|b| - 1];
      assert |h| == 0 ==> v == 0;
      DivModUnique(0x100 * v + last, 0x100, v, last);
    }
  }

  lemma {:induction false} BigEndianAppend(a: seq<Octet>, b: seq<Octet>)
    ensures BigEndian(a + b) == BigEndian(a) * Pow2(8 * |b|) + BigEndian(b)
  {
    hide Pow2;
    if |b| == 0 {
      assert a + b == a;
      assert Pow2(0) == 1 by { PowZero(); }
    } else {
      var h := b[..|b| - 1];
      assert (a + b)[..|a + b| - 1] == a + h;
      BigEndianAppend(a, h);
      NextPower(|h|);
      ScaleUp(BigEndian(a), Pow2(8 * |h|));
    }
  }

  lemma PowZero()
    ensures Pow2(0) == 1
  {
  }

  lemma NextPower(n: nat)
    ensures Pow2(8 * (n + 1)) == 0x100 * Pow2(8 * n)
  {
    Pow2Add(8, 8 * n);
    Pow2Small();
    assert 8 * (n + 1) == 8 + 8 * n;
  }

  lemma ScaleUp(v: int, p: int)
    ensures 0x100 * (v * p) == v * (0x100 * p)
  {
  }

  lemma {:induction false} BigEndianBound(b: seq<Octet>)
    ensures BigEndian(b) < Pow2(8 * |b|)
  {
    hide Pow2;
    if |b| > 0 {
      BigEndianBound(b[..|b| - 1]);
      NextPower(|b| - 1);
    }
  }

  /** Leading zeros do not count, and a nonzero leading digit makes the number large. */
  lemma LeadingZero(b: seq<Octet>)
    requires |b| > 0
    ensures b[0] == 0 ==> BigEndian(b) == BigEndian(b[1..])
    ensures b[0] != 0 ==> BigEndian(b) >= Pow2(8 * (|b| - 1))
  {
    hide Pow2, BigEndian;
    assert b == [b[0]] + b[1..];
    BigEndianAppend([b[0]], b[1..]);
    OneDigit(b[0]);
    if b[0] != 0 {
      MulMono(1, b[0], Pow2(8 * (|b| - 1)));
    }
  }

  lemma OneDigit(b: Octet)
    ensures BigEndian([b]) == b
  {
    assert [b][..0] == [];
  }

  // ----- reading a length

  /** What a 64-bit length becomes when it is returned as a 32-bit int. */
  function ToInt(n: nat): int {
    var m := n % 0x1_0000_0000;
    if m >= 0x8000_0000 then m - 0x1_0000_0000 else m
  }

  /** No length that fits into the rest of the input is encoded at pos. */
  ghost predicate NoLength(sig: seq<Octet>, pos: nat) {
    forall n: nat :: Encodable(n) && pos <= |sig| && EncodeLength(n) <= sig[pos..]
      ==> pos + |EncodeLength(n)| + n > |sig|
  }

  /** A length is encoded from pos to next, and a long one lies within the input. */
  ghost predicate LengthAt(sig: seq<Octet>, pos: nat, len: int, next: nat, length: nat) {
    && Encodable(length) && pos <= next <= |sig| && EncodeLength(length) == sig[pos..next] && len == ToInt(length)
    && (length >= 0x80 ==> next + length <= |sig|)
  }

  /** Reads length octets. Either it finds a length, and a long one lies within the input, or there is none. */
  method ReadLen(sig: seq<Octet>, pos: nat) returns (len: int, next: nat, ghost length: nat)
    requires pos <= |sig| < SIZE_LIMIT
    ensures pos <= next <= |sig|
    ensures (len == -1 && NoLength(sig, pos)) || LengthAt(sig, pos, len, next, length)
  {
    hide BigEndian, MinBytes;
    next, length := pos, 0;
    if pos == |sig| {
      Nothing(sig, pos);
      return -1, next, 0;
    }
    var b1 := sig[next];
    next := next + 1;
    if b1 < 0x80 {
      ShortForm(sig, pos);
      return b1, next, b1;
    }
    if b1 == 0xFF || b1 == 0x80 || b1 - 0x80 > |sig| - next || sig[next] == 0 || b1 - 0x80 > 8 {
      BadCount(sig, pos);
      return -1, next, 0;
    }
    len, next, length := ReadLong(sig, pos, b1 - 0x80);
  }

  lemma Nothing(sig: seq<Octet>, pos: nat)
    requires pos == |sig|
    ensures NoLength(sig, pos)
  {
  }

  lemma ShortForm(sig: seq<Octet>, pos: nat)
    requires pos < |sig| && sig[pos] < 0x80
    ensures Encodable(sig[pos]) && EncodeLength(sig[pos]) == sig[pos..pos + 1]
  {
    assert MinBytes(0) == [];
    assert sig[pos] != 0 ==> MinBytes(sig[pos]) == MinBytes(0) + [sig[pos]];
  }

  /** What a long form at pos has to look like. */
  lemma LongForm(sig: seq<Octet>, pos: nat, n: nat)
    requires pos < |sig| && sig[pos] >= 0x80 && Encodable(n) && EncodeLength(n) <= sig[pos..]
    ensures var count := |MinBytes(n)|;
            && n >= 0x80 && sig[pos] == 0x80 + count && count > 0 && pos + 1 + count <= |sig|
            && sig[pos + 1..pos + 1 + count] == MinBytes(n) && sig[pos + 1] != 0
            && BigEndian(sig[pos + 1..pos + 1 + count]) == n
  {
    hide MinBytes, BigEndian;
    var e, count := EncodeLength(n), |MinBytes(n)|;
    assert |e| <= |sig| - pos && sig[pos..][..|e|] == e;
    assert e[0] == sig[pos..][0] == sig[pos];
    MinBytesValue(n);
    assert e[1..] == MinBytes(n);
    assert sig[pos + 1..pos + 1 + count] == sig[pos..][..|e|][1..];
    assert sig[pos + 1] == e[1];
  }

  lemma BadCount(sig: seq<Octet>, pos: nat)
    requires pos < |sig| < SIZE_LIMIT && sig[pos] >= 0x80
    requires (sig[pos] == 0xFF || sig[pos] == 0x80 || sig[pos] - 0x80 > |sig| - pos - 1 || sig[pos + 1] == 0
              || sig[pos] - 0x80 > 8)
    ensures NoLength(sig, pos)
  {
    hide BigEndian, MinBytes, Pow2;
    forall n: nat | Encodable(n) && EncodeLength(n) <= sig[pos..]
      ensures pos + |EncodeLength(n)| + n > |sig|
    {
      LongForm(sig, pos, n);
      var count := |MinBytes(n)|;
      var b := sig[pos + 1..pos + 1 + count];
      LeadingZero(b);
      Pow2Mono(64, 64);
      if count > 8 {
        Pow2Mono(64, 8 * (count - 1));
        Pow2Large(16);
      }
    }
  }

  method ReadLong(sig: seq<Octet>, pos: nat, count: nat) returns (len: int, next: nat, ghost length: nat)
    requires pos + 1 + count <= |sig| < SIZE_LIMIT && 0 < count <= 8
    requires sig[pos] == 0x80 + count && sig[pos + 1] != 0
    ensures pos <= next <= |sig|
    ensures (len == -1 && NoLength(sig, pos)) || LengthAt(sig, pos, len, next, length)
  {
    hide BigEndian, MinBytes;
    var lenleft := count;
    var ret: nat := 0;
    next := pos + 1;
    ValueOfNothing();
    assert sig[pos + 1..next] == [];
    while lenleft > 0
      invariant next == pos + 1 + (count - lenleft) && lenleft <= count
      invariant ret == BigEndian(sig[pos + 1..next])
      invariant lenleft < count ==> next + lenleft + ret <= |sig| || (lenleft == 0 && ret == WORD64 - 1)
      decreases lenleft
    {
      FewDigits(sig[pos + 1..next]);
      ret := ShiftIn(ret, sig[next]);
      NextDigit(sig, pos + 1, next);
      FewDigits(sig[pos + 1..next + 1]);
      SumWraps(ret, lenleft);
      if (ret + lenleft) % WORD64 > |sig| - next {
        TooLong(sig, pos, count, next + 1);
        return -1, next, 0;
      }
      next, lenleft := next + 1, lenleft - 1;
    }
    WholeLong(sig, pos, count, ret);
    if ret < 0x80 {
      return -1, next, 0;
    }
    len, length := ToInt(ret), ret;
    if ret == WORD64 - 1 {
      TooLong(sig, pos, count, next);
    }
  }

  lemma SumWraps(ret: nat, k: nat)
    requires ret < WORD64 && k <= 8 && (k > 1 ==> ret < 0x100_0000_0000_0000)
    ensures (ret + k) % WORD64 == if ret == WORD64 - 1 && k == 1 then 0 else ret + k
  {
  }

  /** Up to seven digits leave room for one more in 64 bits. */
  lemma FewDigits(b: seq<Octet>)
    ensures |b| <= 7 ==> BigEndian(b) < 0x100_0000_0000_0000
    ensures |b| <= 8 ==> BigEndian(b) < WORD64
  {
    hide BigEndian;
    BigEndianBound(b);
    WordSizes();
    if |b| <= 7 {
      Pow2Mono(8 * |b|, 56);
    }
    if |b| <= 8 {
      Pow2Mono(8 * |b|, 64);
    }
  }

  lemma WordSizes()
    ensures Pow2(56) == 0x100_0000_0000_0000 && Pow2(64) == WORD64
  {
    Pow2Small();
    Pow2Add(16, 16);
    Pow2Add(32, 16);
    Pow2Add(48, 8);
    Pow2Add(56, 8);
    hide Pow2;
  }

  /** (ret << 8) | b in 64 bits. */
  function ShiftIn(ret: nat, b: Octet): (r: nat)
    ensures ret < 0x100_0000_0000_0000 ==> r == 0x100 * ret + b
  {
    (0x100 * ret + b) % WORD64
  }

  lemma ValueOfNothing()
    ensures BigEndian([]) == 0
  {
  }

  lemma NextDigit(sig: seq<Octet>, start: nat, next: nat)
    requires start <= next < |sig|
    ensures BigEndian(sig[start..next + 1]) == 0x100 * BigEndian(sig[start..next]) + sig[next]
  {
    assert sig[start..next + 1][..next - start] == sig[start..next];
  }

  lemma MoreDigits(a: seq<Octet>, b: seq<Octet>)
    ensures BigEndian(a + b) >= BigEndian(a)
  {
    hide BigEndian, Pow2;
    BigEndianAppend(a, b);
    MulMono(1, Pow2(8 * |b|), BigEndian(a));
  }

  /** A prefix of the length octets that is already too large rules the length out. */
  lemma TooLong(sig: seq<Octet>, pos: nat, count: nat, next: nat)
    requires pos + 1 <= next <= pos + 1 + count <= |sig| && sig[pos] == 0x80 + count
    requires BigEndian(sig[pos + 1..next]) + (pos + 1 + count) > |sig|
    ensures NoLength(sig, pos)
  {
    hide BigEndian, MinBytes, Pow2;
    forall n: nat | Encodable(n) && EncodeLength(n) <= sig[pos..]
      ensures pos + |EncodeLength(n)| + n > |sig|
    {
      LongForm(sig, pos, n);
      var a, b := sig[pos + 1..next], sig[next..pos + 1 + count];
      assert sig[pos + 1..pos + 1 + count] == a + b;
      MoreDigits(a, b);
    }
  }

  lemma WholeLong(sig: seq<Octet>, pos: nat, count: nat, ret: nat)
    requires pos + 1 + count <= |sig| && 0 < count <= 8 && sig[pos] == 0x80 + count && sig[pos + 1] != 0
    requires ret == BigEndian(sig[pos + 1..pos + 1 + count])
    ensures ret < 0x80 ==> NoLength(sig, pos)
    ensures ret >= 0x80 ==> Encodable(ret) && EncodeLength(ret) == sig[pos..pos + 1 + count]
  {
    hide BigEndian, MinBytes;
    var b := sig[pos + 1..pos + 1 + count];
    MinBytesUnique(b);
    assert sig[pos..pos + 1 + count] == [sig[pos]] + b;
    forall n: nat | Encodable(n) && EncodeLength(n) <= sig[pos..]
      ensures n == ret && n >= 0x80
    {
      LongForm(sig, pos, n);
    }
  }

  // ----- integers

  /** Length octets are prefix-free: two lengths encoded at the same place are equal. */
  lemma LengthUnique(s: seq<Octet>, n: nat, m: nat)
    requires Encodable(n) && Encodable(m) && EncodeLength(n) <= s && EncodeLength(m) <= s
    ensures n == m
  {
    hide MinBytes, BigEndian;
    MinBytesValue(n);
    MinBytesValue(m);
    assert EncodeLength(n)[0] == s[0] == EncodeLength(m)[0];
    if n >= 0x80 && m >= 0x80 {
      assert EncodeLength(n) == EncodeLength(m);
      assert EncodeLength(n)[1..] == MinBytes(n);
      assert EncodeLength(m)[1..] == MinBytes(m);
    }
  }

  /** What an encoded integer at pos has to look like. */
  lemma IntForm(sig: seq<Octet>, pos: nat, c: seq<Octet>)
    requires pos <= |sig| && Encodable(|c|) && EncodeInt(c) <= sig[pos..]
    ensures pos < |sig| && sig[pos] == 0x02 && EncodeLength(|c|) <= sig[pos + 1..]
    ensures var start := pos + 1 + |EncodeLength(|c|)|; start + |c| <= |sig| && sig[start..start + |c|] == c
  {
    hide EncodeLength;
    var e, l := EncodeInt(c), EncodeLength(|c|);
    assert e == [0x02] + (l + c);
    assert sig[pos..][..|e|] == e && e[0] == 0x02;
    assert sig[pos + 1..][..|l|] == sig[pos..][..|e|][1..1 + |l|] == l;
    var start := pos + 1 + |l|;
    assert sig[start..start + |c|] == sig[pos..][..|e|][1 + |l|..] == c;
  }

  lemma IntUnique(s: seq<Octet>, c: seq<Octet>, d: seq<Octet>)
    requires Encodable(|c|) && Encodable(|d|) && EncodeInt(c) <= s && EncodeInt(d) <= s
    ensures c == d
  {
    hide EncodeLength, EncodeInt;
    assert s[0..] == s;
    IntForm(s, 0, c);
    IntForm(s, 0, d);
    LengthUnique(s[1..], |c|, |d|);
  }

  /** No minimal integer is encoded at pos. */
  ghost predicate NoInt(sig: seq<Octet>, pos: nat) {
    forall c: seq<Octet> :: MinimalInt(c) && Encodable(|c|) && pos <= |sig| ==> !(EncodeInt(c) <= sig[pos..])
  }

  lemma IntNeedsLength(sig: seq<Octet>, pos: nat)
    ensures NoInt(sig, pos) || (pos < |sig| && sig[pos] == 0x02 && !NoLength(sig, pos + 1))
  {
    hide EncodeLength;
    forall c: seq<Octet> | MinimalInt(c) && Encodable(|c|) && pos <= |sig| && EncodeInt(c) <= sig[pos..]
      ensures pos < |sig| && sig[pos] == 0x02 && !NoLength(sig, pos + 1)
    {
      IntForm(sig, pos, c);
      var l := EncodeLength(|c|);
      assert l <= sig[pos + 1..] && pos + 1 + |l| + |c| <= |sig|;
    }
  }

  /** A length was found, but no content octets of that length, or not minimal ones. */
  lemma BadContent(sig: seq<Octet>, pos: nat, start: nat, n: nat)
    requires pos + 1 <= start <= |sig| && sig[pos] == 0x02 && Encodable(n) && EncodeLength(n) == sig[pos + 1..start]
    requires start + n > |sig| || !MinimalInt(sig[start..start + n])
    ensures NoInt(sig, pos)
  {
    hide EncodeLength, MinimalInt;
    forall c: seq<Octet> | MinimalInt(c) && Encodable(|c|) && EncodeInt(c) <= sig[pos..]
      ensures start + n <= |sig| && sig[start..start + n] == c
    {
      IntForm(sig, pos, c);
      assert sig[pos + 1..start] <= sig[pos + 1..];
      LengthUnique(sig[pos + 1..], |c|, n);
    }
  }

  /** Reads a 32-byte big-endian number modulo the order, and whether it was not below the order. */
  function SetB32(ra: seq<Octet>): (r: (Scalar, bool))
    requires |ra| == 32
    ensures r.0 == BigEndian(ra) % N && (r.1 <==> BigEndian(ra) >= N)
  {
    (BigEndian(ra) % N, BigEndian(ra) >= N)
  }

  /** The number in content octets: leading zeros are skipped, and what is negative or too large becomes zero. */
  method ContentValue(c: seq<Octet>) returns (r: Scalar)
    requires MinimalInt(c)
    ensures r == IntValue(c)
    ensures c[0] >= 0x80 || BigEndian(c) >= N ==> r == 0
    ensures c[0] < 0x80 && BigEndian(c) < N ==> r == BigEndian(c)
  {
    hide BigEndian;
    r := 0;
    var overflow := c[0] >= 0x80;
    var p := 0;
    assert c[0..] == c;
    while p < |c| && c[p] == 0
      invariant 0 <= p <= |c| && BigEndian(c[p..]) == BigEndian(c)
    {
      LeadingZero(c[p..]);
      assert c[p..][1..] == c[p + 1..];
      p := p + 1;
    }
    var rlen := |c| - p;
    if rlen > 32 {
      overflow := true;
      LargeContent(c[p..]);
    }
    if !overflow {
      var ra := seq(32 - rlen, _ => 0) + c[p..];
      PaddedValue(c[p..], ra);
      var reduced := SetB32(ra);
      r, overflow := reduced.0, reduced.1;
    }
    if overflow {
      r := 0;
    }
  }

  lemma LargeContent(b: seq<Octet>)
    requires |b| > 32 && b[0] != 0
    ensures BigEndian(b) >= N
  {
    LeadingZero(b);
    Pow2Mono(256, 8 * (|b| - 1));
    OrderSize();
  }

  lemma PaddedValue(b: seq<Octet>, ra: seq<Octet>)
    requires |b| <= 32 && ra == seq(32 - |b|, _ => 0) + b
    ensures BigEndian(ra) == BigEndian(b)
  {
    var zeros: seq<Octet> := seq(32 - |b|, _ => 0);
    BigEndianAppend(zeros, b);
    BigEndianZeros(zeros);
  }

  lemma {:induction false} BigEndianZeros(b: seq<Octet>)
    requires forall i :: 0 <= i < |b| ==> b[i] == 0
    ensures BigEndian(b) == 0
  {
    if |b| > 0 {
      BigEndianZeros(b[..|b| - 1]);
    }
  }

  /** Reads one integer, or finds that there is no minimal one at pos. */
  method ParseInteger(sig: seq<Octet>, pos: nat) returns (ok: bool, r: Scalar, next: nat, ghost c: seq<Octet>)
    requires pos <= |sig| < SIZE_LIMIT && |sig| - pos < 0x8000_0000
    ensures !ok ==> NoInt(sig, pos)
    ensures ok ==> (pos <= next <= |sig| && MinimalInt(c) && Encodable(|c|) && EncodeInt(c) == sig[pos..next]
                    && r == IntValue(c) && (c[0] >= 0x80 || BigEndian(c) >= N ==> r == 0))
  {
    hide EncodeLength, IntValue, NoLength, NoInt, Encodable, BigEndian;
    ok, r, next, c := false, 0, pos, [];
    if pos == |sig| || sig[pos] != 0x02 {
      IntNeedsLength(sig, pos);
      return;
    }
    var rlen, start, n := ReadLen(sig, pos + 1);
    if rlen <= 0 || start + rlen > |sig| {
      Refused(sig, pos, rlen, start, n);
      return;
    }
    Found(sig, pos + 1, rlen, start, n);
    var content := sig[start..start + rlen];
    if (content[0] == 0 && rlen > 1 && content[1] < 0x80) || (content[0] == 0xFF && rlen > 1 && content[1] >= 0x80) {
      BadContent(sig, pos, start, n);
      return;
    }
    r := ContentValue(content);
    ok, next, c := true, start + rlen, content;
    assert sig[pos..next] == [0x02] + sig[pos + 1..start] + content;
  }

  lemma Found(sig: seq<Octet>, pos: nat, len: int, next: nat, n: nat)
    requires LengthAt(sig, pos, len, next, n) && |sig| - pos < 0x8000_0000
    ensures len == n
  {
    hide EncodeLength, Encodable;
  }

  lemma Refused(sig: seq<Octet>, pos: nat, len: int, next: nat, n: nat)
    requires pos < |sig| && |sig| - pos < 0x8000_0000 && sig[pos] == 0x02 && pos + 1 <= next <= |sig|
    requires (len == -1 && NoLength(sig, pos + 1)) || LengthAt(sig, pos + 1, len, next, n)
    requires len <= 0 || next + len > |sig|
    ensures NoInt(sig, pos)
  {
    hide EncodeLength, Encodable, NoLength, NoInt;
    if LengthAt(sig, pos + 1, len, next, n) {
      Found(sig, pos + 1, len, next, n);
      BadContent(sig, pos, next, n);
    } else {
      IntNeedsLength(sig, pos);
    }
  }

  // ----- signatures

  /** An encoding whose body has fewer than 2^31 octets. */
  ghost predicate SmallEncoding(sig: seq<Octet>, c1: seq<Octet>, c2: seq<Octet>) {
    IsEncoding(sig, c1, c2) && |Body(c1, c2)| < 0x8000_0000
  }

  /** sig is the encoding of two minimal integers that stand for r and s. */
  ghost predicate Encodes(sig: seq<Octet>, c1: seq<Octet>, c2: seq<Octet>, signature: Signature) {
    SmallEncoding(sig, c1, c2) && signature == Signature(IntValue(c1), IntValue(c2))
  }

  /** sig is no such encoding. */
  ghost predicate NoSignature(sig: seq<Octet>) {
    forall c1: seq<Octet>, c2: seq<Octet> :: !SmallEncoding(sig, c1, c2)
  }

  /** Accepts exactly the encodings of two minimal integers whose body has fewer than 2^31 octets. */
  method SigParse(sig: seq<Octet>) returns (p: Parsed, ghost c1: seq<Octet>, ghost c2: seq<Octet>)
    requires |sig| < SIZE_LIMIT
    ensures p.Accepted? ==> Encodes(sig, c1, c2, p.signature)
    ensures p.Accepted? && (c1[0] >= 0x80 || BigEndian(c1) >= N) ==> p.signature.r == 0
    ensures p.Accepted? && (c2[0] >= 0x80 || BigEndian(c2) >= N) ==> p.signature.s == 0
    ensures p.Rejected? ==> NoSignature(sig)
  {
    hide EncodeLength, EncodeInt, IntValue, NoLength, NoInt, Encodable, MinimalInt, LengthAt, NoSignature;
    p, c1, c2 := Rejected, [], [];
    if |sig| == 0 || sig[0] != 0x30 {
      SequenceForm(sig);
      return;
    }
    var rlen, pos, n := ReadLen(sig, 1);
    if rlen < 0 || pos + rlen > |sig| || pos + rlen != |sig| {
      BadLength(sig, rlen, pos, n);
      return;
    }
    WholeBody(sig, rlen, pos, n);
    var start := pos;
    var ok1, r, ok2, s;
    ok1, r, pos, c1 := ParseInteger(sig, pos);
    if !ok1 {
      BadFirst(sig, rlen, start, n);
      return;
    }
    var middle := pos;
    ok2, s, pos, c2 := ParseInteger(sig, pos);
    if !ok2 {
      BadSecond(sig, rlen, start, middle, n, c1);
      return;
    }
    assert sig[start..pos] == Body(c1, c2);
    if pos != |sig| {
      TrailingGarbage(sig, rlen, start, middle, pos, n, c1, c2);
      return;
    }
    p := Accepted(Signature(r, s));
    WholeEncoding(sig, rlen, start, n, c1, c2);
  }

  lemma WholeEncoding(sig: seq<Octet>, len: int, start: nat, n: nat, c1: seq<Octet>, c2: seq<Octet>)
    requires |sig| > 0 && sig[0] == 0x30 && 1 <= start <= |sig| && LengthAt(sig, 1, len, start, n) && start + n == |sig|
    requires MinimalInt(c1) && MinimalInt(c2) && Encodable(|c1|) && Encodable(|c2|) && sig[start..] == Body(c1, c2)
    requires |sig| - start < 0x8000_0000
    ensures SmallEncoding(sig, c1, c2)
  {
    hide EncodeLength, EncodeInt, Encodable, MinimalInt;
    assert sig == [0x30] + sig[1..start] + sig[start..];
  }

  lemma SignatureForm(sig: seq<Octet>, c1: seq<Octet>, c2: seq<Octet>)
    requires IsEncoding(sig, c1, c2)
    ensures |sig| > 0 && sig[0] == 0x30
    ensures var l := EncodeLength(|Body(c1, c2)|); l <= sig[1..] && sig[1 + |l|..] == Body(c1, c2) && 1 + |l| <= |sig|
  {
    hide MinBytes, Body, MinimalInt;
    var l, b := EncodeLength(|Body(c1, c2)|), Body(c1, c2);
    assert sig == [0x30] + (l + b);
    assert sig[1..] == l + b;
  }

  lemma SequenceForm(sig: seq<Octet>)
    ensures NoSignature(sig) || (|sig| > 0 && sig[0] == 0x30)
  {
    hide IsEncoding;
    forall c1: seq<Octet>, c2: seq<Octet> | SmallEncoding(sig, c1, c2)
      ensures |sig| > 0 && sig[0] == 0x30
    {
      SignatureForm(sig, c1, c2);
    }
  }

  /** An encoding has the length that was read, and its body right behind it. */
  lemma SameLength(sig: seq<Octet>, next: nat, n: nat, len: int, c1: seq<Octet>, c2: seq<Octet>)
    requires |sig| > 0 && IsEncoding(sig, c1, c2) && LengthAt(sig, 1, len, next, n)
    ensures n == |Body(c1, c2)| && next + n == |sig| && sig[next..] == Body(c1, c2)
  {
    hide EncodeLength, Body, MinimalInt, Encodable;
    SignatureForm(sig, c1, c2);
    assert sig[1..next] <= sig[1..];
    LengthUnique(sig[1..], |Body(c1, c2)|, n);
  }

  lemma BadLength(sig: seq<Octet>, len: int, next: nat, n: nat)
    requires 0 < |sig| && 1 <= next <= |sig|
    requires (len == -1 && NoLength(sig, 1)) || LengthAt(sig, 1, len, next, n)
    ensures NoSignature(sig) || (len >= 0 && next + len == |sig|)
  {
    hide IsEncoding, EncodeLength, Body, LengthAt, NoLength;
    forall c1: seq<Octet>, c2: seq<Octet> | SmallEncoding(sig, c1, c2)
      ensures len >= 0 && next + len == |sig|
    {
      LengthPresent(sig, c1, c2);
      SameLength(sig, next, n, len, c1, c2);
      LengthInt(sig, len, next, n);
    }
  }

  lemma LengthPresent(sig: seq<Octet>, c1: seq<Octet>, c2: seq<Octet>)
    requires IsEncoding(sig, c1, c2)
    ensures !NoLength(sig, 1)
  {
    hide EncodeLength, Body, MinimalInt;
    EncodableBody(sig, c1, c2);
    SignatureForm(sig, c1, c2);
    var l := EncodeLength(|Body(c1, c2)|);
    assert l <= sig[1..] && 1 + |l| + |Body(c1, c2)| == |sig|;
  }

  lemma EncodableBody(sig: seq<Octet>, c1: seq<Octet>, c2: seq<Octet>)
    requires IsEncoding(sig, c1, c2)
    ensures Encodable(|c1|) && Encodable(|c2|) && Encodable(|Body(c1, c2)|) && MinimalInt(c1) && MinimalInt(c2)
  {
  }

  lemma LengthInt(sig: seq<Octet>, len: int, next: nat, n: nat)
    requires LengthAt(sig, 1, len, next, n)
    ensures len == ToInt(n)
  {
    hide EncodeLength, Encodable;
  }

  lemma WholeBody(sig: seq<Octet>, len: int, next: nat, n: nat)
    requires (len == -1 && NoLength(sig, 1)) || LengthAt(sig, 1, len, next, n)
    requires 0 <= len && next + len == |sig| && 1 <= next
    ensures LengthAt(sig, 1, len, next, n) && n == len && |sig| - next < 0x8000_0000
  {
    hide EncodeLength, Encodable;
  }

  lemma BadFirst(sig: seq<Octet>, len: int, start: nat, n: nat)
    requires |sig| > 0 && LengthAt(sig, 1, len, start, n) && 1 <= start <= |sig|
    ensures NoSignature(sig) || !NoInt(sig, start)
  {
    hide IsEncoding, EncodeLength, EncodeInt, LengthAt, Encodable, MinimalInt;
    forall c1: seq<Octet>, c2: seq<Octet> | SmallEncoding(sig, c1, c2)
      ensures !NoInt(sig, start)
    {
      EncodableBody(sig, c1, c2);
      SameLength(sig, start, n, len, c1, c2);
      assert EncodeInt(c1) <= sig[start..];
    }
  }

  /** In any encoding, the first integer is the one that was read. */
  lemma FirstIs(sig: seq<Octet>, len: int, start: nat, middle: nat, n: nat, c1: seq<Octet>, d1: seq<Octet>, d2: seq<Octet>)
    requires |sig| > 0 && LengthAt(sig, 1, len, start, n) && 1 <= start <= middle <= |sig|
    requires Encodable(|c1|) && EncodeInt(c1) == sig[start..middle] && IsEncoding(sig, d1, d2)
    ensures d1 == c1 && Encodable(|d2|) && sig[middle..] == EncodeInt(d2) && MinimalInt(d2)
  {
    hide IsEncoding, EncodeLength, EncodeInt, LengthAt, Encodable, MinimalInt;
    EncodableBody(sig, d1, d2);
    SameLength(sig, start, n, len, d1, d2);
    assert EncodeInt(d1) <= sig[start..];
    assert EncodeInt(c1) <= sig[start..];
    IntUnique(sig[start..], c1, d1);
    assert sig[middle..] == sig[start..][middle - start..];
  }

  lemma BadSecond(sig: seq<Octet>, len: int, start: nat, middle: nat, n: nat, c1: seq<Octet>)
    requires |sig| > 0 && LengthAt(sig, 1, len, start, n) && 1 <= start <= middle <= |sig|
    requires Encodable(|c1|) && EncodeInt(c1) == sig[start..middle]
    ensures NoSignature(sig) || !NoInt(sig, middle)
  {
    hide IsEncoding, EncodeLength, EncodeInt, LengthAt, Encodable, MinimalInt, Body;
    forall d1: seq<Octet>, d2: seq<Octet> | SmallEncoding(sig, d1, d2)
      ensures !NoInt(sig, middle)
    {
      FirstIs(sig, len, start, middle, n, c1, d1, d2);
      assert EncodeInt(d2) <= sig[middle..];
    }
  }

  lemma TrailingGarbage(sig: seq<Octet>, len: int, start: nat, middle: nat, end: nat, n: nat, c1: seq<Octet>, c2: seq<Octet>)
    requires |sig| > 0 && LengthAt(sig, 1, len, start, n) && 1 <= start <= middle <= end <= |sig|
    requires Encodable(|c1|) && EncodeInt(c1) == sig[start..middle]
    requires Encodable(|c2|) && EncodeInt(c2) == sig[middle..end]
    ensures NoSignature(sig) || end == |sig|
  {
    hide IsEncoding, EncodeLength, EncodeInt, LengthAt, Encodable, MinimalInt, Body;
    forall d1: seq<Octet>, d2: seq<Octet> | SmallEncoding(sig, d1, d2)
      ensures end == |sig|
    {
      FirstIs(sig, len, start, middle, n, c1, d1, d2);
      assert EncodeInt(d2) <= sig[middle..];
      assert EncodeInt(c2) <= sig[middle..];
      IntUnique(sig[middle..], c2, d2);
      assert |sig[middle..]| == |EncodeInt(c2)| == end - middle;
    }
  }

  /** The two integers of an encoding, and so the signature, are determined by it. */
  lemma EncodingUnique(sig: seq<Octet>, c1: seq<Octet>, c2: seq<Octet>, d1: seq<Octet>, d2: seq<Octet>)
    requires IsEncoding(sig, c1, c2) && IsEncoding(sig, d1, d2)
    ensures c1 == d1 && c2 == d2
  {
    hide IsEncoding, EncodeLength, EncodeInt, Encodable, MinimalInt;
    EncodableBody(sig, c1, c2);
    EncodableBody(sig, d1, d2);
    SignatureForm(sig, c1, c2);
    SignatureForm(sig, d1, d2);
    LengthUnique(sig[1..], |Body(c1, c2)|, |Body(d1, d2)|);
    var body := Body(c1, c2);
    assert EncodeInt(c1) <= body && EncodeInt(d1) <= body;
    IntUnique(body, c1, d1);
    assert body[|EncodeInt(c1)|..] == EncodeInt(c2) == EncodeInt(d2);
    IntUnique(EncodeInt(c2), c2, d2);
  }

  // ----- serialization

  function ToBytes32(v: nat, n: nat): (b: seq<Octet>)
    ensures |b| == n
  {
    if n == 0 then [] else ToBytes32(v / 0x100, n - 1) + [v % 0x100]
  }

  lemma {:induction false} ToBytes32Value(v: nat, n: nat)
    requires v < Pow2(8 * n)
    ensures BigEndian(ToBytes32(v, n)) == v
  {
    if n > 0 {
      NextPower(n - 1);
      ToBytes32Value(v / 0x100, n - 1);
      var h := ToBytes32(v / 0x100, n - 1);
      assert (h + [v % 0x100])[..n - 1] == h;
    }
  }

  /** The shortest nonnegative content octets for v: 33 octets with the superfluous zeros stripped. */
  method Content(v: Scalar) returns (c: seq<Octet>)
    ensures MinimalInt(c) && c[0] < 0x80 && BigEndian(c) == v && |c| <= 33
  {
    hide BigEndian;
    OrderSize();
    ToBytes32Value(v, 32);
    var r := [0] + ToBytes32(v, 32);
    LeadingZero(r);
    assert r[1..] == ToBytes32(v, 32);
    var len, p := 33, 0;
    assert r[0..] == r;
    while len > 1 && r[p] == 0 && r[p + 1] < 0x80
      invariant p + len == 33 && len >= 1 && BigEndian(r[p..]) == v && r[p] < 0x80
    {
      LeadingZero(r[p..]);
      assert r[p..][1..] == r[p + 1..];
      len, p := len - 1, p + 1;
    }
    c := r[p..];
  }

  /** Minimal nonnegative content octets are determined by their value. */
  lemma ContentUnique(c: seq<Octet>, d: seq<Octet>)
    requires MinimalInt(c) && MinimalInt(d) && c[0] < 0x80 && d[0] < 0x80 && BigEndian(c) == BigEndian(d)
    ensures c == d
  {
    hide BigEndian;
    ContentDigits(c);
    ContentDigits(d);
  }

  /** They are the digits of the value, behind a zero when the first digit is missing or looks negative. */
  lemma ContentDigits(c: seq<Octet>)
    requires MinimalInt(c) && c[0] < 0x80
    ensures c == (var b := MinBytes(BigEndian(c)); if |b| == 0 || b[0] >= 0x80 then [0] + b else b)
  {
    if c[0] == 0 {
      LeadingZero(c);
      assert c == [0] + c[1..];
      MinBytesUnique(c[1..]);
    } else {
      MinBytesUnique(c);
    }
  }

  /** Writes the encoding of r and s if it fits, and in any case the size it takes. */
  method SigSerialize(sig: array<Octet>, size: nat, r: Scalar, s: Scalar)
    returns (ok: bool, newSize: nat, ghost c1: seq<Octet>, ghost c2: seq<Octet>)
    requires size <= sig.Length
    modifies sig
    ensures ok <==> newSize <= size
    ensures ok ==> Encodes(sig[..newSize], c1, c2, Signature(r, s)) && sig[newSize..] == old(sig[newSize..])
    ensures !ok ==> sig[..] == old(sig[..])
    ensures MinimalInt(c1) && MinimalInt(c2) && c1[0] < 0x80 && c2[0] < 0x80 && BigEndian(c1) == r && BigEndian(c2) == s
    ensures newSize == 6 + |c1| + |c2| && newSize <= 72
  {
    hide BigEndian, IntValue, MinimalInt;
    var rp := Content(r);
    var sp := Content(s);
    c1, c2 := rp, sp;
    newSize := 6 + |sp| + |rp|;
    if size < newSize {
      return false, newSize, c1, c2;
    }
    WriteSignature(sig, rp, sp);
    ok := true;
    Assembled(sig[..newSize], rp, sp);
    ContentScalar(rp, r);
    ContentScalar(sp, s);
  }

  method WriteSignature(sig: array<Octet>, rp: seq<Octet>, sp: seq<Octet>)
    requires |rp| <= 33 && |sp| <= 33 && 6 + |sp| + |rp| <= sig.Length
    modifies sig
    ensures sig[..6 + |sp| + |rp|] == [0x30, 4 + |sp| + |rp|] + ([0x02, |rp|] + rp) + ([0x02, |sp|] + sp)
    ensures sig[6 + |sp| + |rp|..] == old(sig[6 + |sp| + |rp|..])
  {
    sig[0] := 0x30;
    sig[1] := 4 + |sp| + |rp|;
    assert sig[..2] == [0x30, 4 + |sp| + |rp|];
    ghost var before := sig[..];
    WriteInt(sig, 2, rp);
    ghost var middle := sig[..];
    assert middle[..4 + |rp|] == before[..2] + ([0x02, |rp|] + rp);
    assert middle[4 + |rp|..] == before[4 + |rp|..];
    WriteInt(sig, 4 + |rp|, sp);
    ghost var after := sig[..];
    assert after[..6 + |sp| + |rp|] == middle[..4 + |rp|] + ([0x02, |sp|] + sp);
    assert after[6 + |sp| + |rp|..] == middle[4 + |rp|..][2 + |sp|..];
  }

  method WriteInt(sig: array<Octet>, at: nat, c: seq<Octet>)
    requires |c| <= 33 && at + 2 + |c| <= sig.Length
    modifies sig
    ensures sig[..] == old(sig[..at]) + ([0x02, |c|] + c) + old(sig[at + 2 + |c|..])
  {
    sig[at] := 0x02;
    sig[at + 1] := |c|;
    Copy(sig, at + 2, c);
  }

  method Copy(sig: array<Octet>, at: nat, v: seq<Octet>)
    requires at + |v| <= sig.Length
    modifies sig
    ensures sig[..] == old(sig[..at]) + v + old(sig[at + |v|..])
  {
    for i := 0 to |v|
      invariant forall k :: 0 <= k < sig.Length ==> sig[k] == if at <= k < at + i then v[k - at] else old(sig[k])
    {
      sig[at + i] := v[i];
    }
  }

  lemma ContentScalar(c: seq<Octet>, v: Scalar)
    requires MinimalInt(c) && c[0] < 0x80 && BigEndian(c) == v
    ensures IntValue(c) == v
  {
    hide BigEndian;
  }

  lemma ShortLength(n: nat)
    requires n < 0x80
    ensures Encodable(n) && EncodeLength(n) == [n]
  {
    assert MinBytes(0) == [];
    assert n != 0 ==> MinBytes(n) == MinBytes(0) + [n];
  }

  lemma Assembled(sig: seq<Octet>, c1: seq<Octet>, c2: seq<Octet>)
    requires MinimalInt(c1) && MinimalInt(c2) && |c1| <= 33 && |c2| <= 33
    requires sig == [0x30, 4 + |c2| + |c1|] + ([0x02, |c1|] + c1) + ([0x02, |c2|] + c2)
    ensures SmallEncoding(sig, c1, c2)
  {
    hide EncodeLength, Encodable, MinimalInt;
    ShortLength(|c1|);
    ShortLength(|c2|);
    assert EncodeInt(c1) == [0x02, |c1|] + c1;
    assert EncodeInt(c2) == [0x02, |c2|] + c2;
    ShortLength(4 + |c2| + |c1|);
    assert [0x30] + [4 + |c2| + |c1|] == [0x30, 4 + |c2| + |c1|];
  }

  // ----- round trips

  /** Parsing what was serialized gives the two scalars back. */
  method SerializeThenParse(r: Scalar, s: Scalar) returns (p: Parsed)
    ensures p == Accepted(Signature(r, s))
  {
    hide IsEncoding, IntValue, NoSignature;
    var sig := new Octet[72](_ => 0);
    var ok, size, c1, c2 := SigSerialize(sig, 72, r, s);
    ghost var d1, d2;
    p, d1, d2 := SigParse(sig[..size]);
    BodySize(sig[..size], c1, c2);
    if p.Accepted? {
      EncodingUnique(sig[..size], c1, c2, d1, d2);
    }
  }

  lemma BodySize(sig: seq<Octet>, c1: seq<Octet>, c2: seq<Octet>)
    requires IsEncoding(sig, c1, c2)
    ensures NoSignature(sig) ==> |sig| >= 0x8000_0000
  {
    hide EncodeLength, EncodeInt, Encodable, MinimalInt, Body;
    assert !SmallEncoding(sig, c1, c2) ==> |Body(c1, c2)| >= 0x8000_0000;
  }

  /** Serializing what was parsed gives the input back, if its integers are nonnegative and below the order, which they
      are when no scalar comes out zero. */
  method ParseThenSerialize(sig: seq<Octet>) returns (p: Parsed, again: seq<Octet>)
    requires |sig| < SIZE_LIMIT
    ensures p.Accepted? ==> exists c1, c2 :: Encodes(sig, c1, c2, p.signature)
    ensures forall c1, c2 :: IsEncoding(sig, c1, c2) && p.Accepted? && InRange(c1) && InRange(c2) ==> again == sig
    ensures p.Accepted? && p.signature.r != 0 && p.signature.s != 0 ==> again == sig
  {
    hide IsEncoding, NoSignature, BigEndian;
    ghost var c1, c2;
    p, c1, c2 := SigParse(sig);
    again := [];
    if p.Accepted? {
      var out := new Octet[72](_ => 0);
      var ok, size, d1, d2 := SigSerialize(out, 72, p.signature.r, p.signature.s);
      again := out[..size];
      forall e1, e2 | IsEncoding(sig, e1, e2) && InRange(e1) && InRange(e2)
        ensures again == sig
      {
        EncodingUnique(sig, c1, c2, e1, e2);
        EncodableBody(sig, c1, c2);
        ContentUnique(c1, d1);
        ContentUnique(c2, d2);
        SameEncoding(sig, again, c1, c2);
      }
      if p.signature.r != 0 && p.signature.s != 0 {
        OneEncoding(sig, again, c1, c2, d1, d2, p.signature);
      }
    }
  }

  /** No two strings stand for the same signature, unless one of its scalars is zero. */
  lemma OneEncoding(sig: seq<Octet>, other: seq<Octet>, c1: seq<Octet>, c2: seq<Octet>, d1: seq<Octet>, d2: seq<Octet>,
                    signature: Signature)
    requires IsEncoding(sig, c1, c2) && signature == Signature(IntValue(c1), IntValue(c2))
    requires IsEncoding(other, d1, d2) && signature == Signature(IntValue(d1), IntValue(d2))
    requires signature.r != 0 && signature.s != 0
    ensures sig == other
  {
    hide BigEndian, Body, EncodeLength, MinimalInt;
    ContentUnique(c1, d1);
    ContentUnique(c2, d2);
  }

  /** The shortest signature, and the first long lengths. */
  lemma KnownEncodings()
    ensures IsEncoding([0x30, 6, 2, 1, 1, 2, 1, 1], [1], [1])
    ensures EncodeLength(0x80) == [0x81, 0x80] && EncodeLength(0x1FF) == [0x82, 0x01, 0xFF]
  {
    ShortLength(1);
    ShortLength(6);
    assert EncodeInt([1]) == [2, 1, 1];
    assert MinBytes(0x1FF) == MinBytes(1) + [0xFF] && MinBytes(1) == MinBytes(0) + [1];
    assert MinBytes(0x80) == MinBytes(0) + [0x80];
  }

  predicate InRange(c: seq<Octet>) {
    |c| > 0 && c[0] < 0x80 && BigEndian(c) < N
  }

  lemma SameEncoding(sig: seq<Octet>, again: seq<Octet>, c1: seq<Octet>, c2: seq<Octet>)
    requires IsEncoding(sig, c1, c2) && IsEncoding(again, c1, c2)
    ensures sig == again
  {
  }
}
