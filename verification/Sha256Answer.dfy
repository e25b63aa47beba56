/** What pins the operations and constants of SHA-256 down without naming their definitions: each bit of their results,
    and where the constants come from (sections 4.1.2, 4.2.2 and 5.3.3 of FIPS 180-4). */
module Sha256Facts {
  import opened Sha256Words
  import opened Sha256Spec

  /** Bit i modulo 32 of a word. */
  function At(x: Word, i: bv6): bool { (x >> (i & 31)) & 1 == 1 }

  function Xor3(x: Word, y: Word, z: Word): Word { x ^ (y ^ z) }

  lemma XorAt(x: Word, y: Word, z: Word, j: bv6)
    ensures At(Xor3(x, y, z), j) == (At(x, j) != (At(y, j) != At(z, j)))
  {
  }

  lemma Turn2(x: Word, j: bv6)
    requires j < 32
    ensures At((x >> 2) | (x << 30), j) == At(x, j + 2)
  {
  }

  lemma Turn6(x: Word, j: bv6)
    requires j < 32
    ensures At((x >> 6) | (x << 26), j) == At(x, j + 6)
  {
  }

  lemma Turn7(x: Word, j: bv6)
    requires j < 32
    ensures At((x >> 7) | (x << 25), j) == At(x, j + 7)
  {
  }

  lemma Turn11(x: Word, j: bv6)
    requires j < 32
    ensures At((x >> 11) | (x << 21), j) == At(x, j + 11)
  {
  }

  lemma Turn13(x: Word, j: bv6)
    requires j < 32
    ensures At((x >> 13) | (x << 19), j) == At(x, j + 13)
  {
  }

  lemma Turn17(x: Word, j: bv6)
    requires j < 32
    ensures At((x >> 17) | (x << 15), j) == At(x, j + 17)
  {
  }

  lemma Turn18(x: Word, j: bv6)
    requires j < 32
    ensures At((x >> 18) | (x << 14), j) == At(x, j + 18)
  {
  }

  lemma Turn19(x: Word, j: bv6)
    requires j < 32
    ensures At((x >> 19) | (x << 13), j) == At(x, j + 19)
  {
  }

  lemma Turn22(x: Word, j: bv6)
    requires j < 32
    ensures At((x >> 22) | (x << 10), j) == At(x, j + 22)
  {
  }

  lemma Turn25(x: Word, j: bv6)
    requires j < 32
    ensures At((x >> 25) | (x << 7), j) == At(x, j + 25)
  {
  }

  lemma Shift3(x: Word, j: bv6)
    requires j < 32
    ensures At(x >> 3, j) == (j < 29 && At(x, j + 3))
  {
  }

  lemma Shift10(x: Word, j: bv6)
    requires j < 32
    ensures At(x >> 10, j) == (j < 22 && At(x, j + 10))
  {
  }

  /** Bit j of the sum comes from the bits 2, 13 and 22 places further up, round the end. */
  lemma BigSigma0At(x: Word, j: bv6)
    requires j < 32
    ensures At(BigSigma0(x), j) == (At(x, j + 2) != (At(x, j + 13) != At(x, j + 22)))
  {
    hide At;
    Turn2(x, j);
    Turn13(x, j);
    Turn22(x, j);
    XorAt((x >> 2) | (x << 30), (x >> 13) | (x << 19), (x >> 22) | (x << 10), j);
  }

  lemma BigSigma1At(x: Word, j: bv6)
    requires j < 32
    ensures At(BigSigma1(x), j) == (At(x, j + 6) != (At(x, j + 11) != At(x, j + 25)))
  {
    hide At;
    Turn6(x, j);
    Turn11(x, j);
    Turn25(x, j);
    XorAt((x >> 6) | (x << 26), (x >> 11) | (x << 21), (x >> 25) | (x << 7), j);
  }

  /** The third copy is shifted out at the end instead. */
  lemma SmallSigma0At(x: Word, j: bv6)
    requires j < 32
    ensures At(SmallSigma0(x), j) == (At(x, j + 7) != (At(x, j + 18) != (j < 29 && At(x, j + 3))))
  {
    hide At;
    Turn7(x, j);
    Turn18(x, j);
    Shift3(x, j);
    XorAt((x >> 7) | (x << 25), (x >> 18) | (x << 14), x >> 3, j);
  }

  lemma SmallSigma1At(x: Word, j: bv6)
    requires j < 32
    ensures At(SmallSigma1(x), j) == (At(x, j + 17) != (At(x, j + 19) != (j < 22 && At(x, j + 10))))
  {
    hide At;
    Turn17(x, j);
    Turn19(x, j);
    Shift10(x, j);
    XorAt((x >> 17) | (x << 15), (x >> 19) | (x << 13), x >> 10, j);
  }

  /** Where x has a one, Ch takes the bit of y, elsewhere that of z. */
  lemma ChAt(x: Word, y: Word, z: Word, b: Word)
    ensures x & b == b ==> Ch(x, y, z) & b == y & b
    ensures x & b == 0 ==> Ch(x, y, z) & b == z & b
  {
  }

  /** Where two of the words agree, Maj agrees with them. */
  lemma MajAt(x: Word, y: Word, z: Word, b: Word)
    ensures x & b == y & b ==> Maj(x, y, z) & b == x & b
  {
  }

  lemma MajTurns(x: Word, y: Word, z: Word)
    ensures Maj(x, y, z) == Maj(y, z, x)
  {
  }

  /** Four octets make a word, the first one on top. */
  lemma WordOfAt(b0: Octet, b1: Octet, b2: Octet, b3: Octet)
    ensures WordOf(b0, b1, b2, b3) >> 24 == b0 as Word && (WordOf(b0, b1, b2, b3) >> 16) & 0xFF == b1 as Word
    ensures (WordOf(b0, b1, b2, b3) >> 8) & 0xFF == b2 as Word && WordOf(b0, b1, b2, b3) & 0xFF == b3 as Word
  {
  }

  /** The padding takes a whole number of blocks, and the fewest that hold a marker octet and the length. */
  lemma PadLeast(n: nat)
    ensures (n + |Padding(n)|) % 64 == 0 && 9 <= |Padding(n)| < 73 && Padding(n)[0] == 0x80
  {
  }

  /** The first 64 primes. */
  function Prime(t: nat): nat
    requires t < 64
  {
    match t
    case 0 => 2 case 1 => 3 case 2 => 5 case 3 => 7 case 4 => 11 case 5 => 13 case 6 => 17 case 7 => 19
    case 8 => 23 case 9 => 29 case 10 => 31 case 11 => 37 case 12 => 41 case 13 => 43 case 14 => 47 case 15 => 53
    case 16 => 59 case 17 => 61 case 18 => 67 case 19 => 71 case 20 => 73 case 21 => 79 case 22 => 83 case 23 => 89
    case 24 => 97 case 25 => 101 case 26 => 103 case 27 => 107 case 28 => 109 case 29 => 113 case 30 => 127 case 31 => 131
    case 32 => 137 case 33 => 139 case 34 => 149 case 35 => 151 case 36 => 157 case 37 => 163 case 38 => 167 case 39 => 173
    case 40 => 179 case 41 => 181 case 42 => 191 case 43 => 193 case 44 => 197 case 45 => 199 case 46 => 211 case 47 => 223
    case 48 => 227 case 49 => 229 case 50 => 233 case 51 => 239 case 52 => 241 case 53 => 251 case 54 => 257 case 55 => 263
    case 56 => 269 case 57 => 271 case 58 => 277 case 59 => 281 case 60 => 283 case 61 => 293 case 62 => 307 case _ => 311
  }

  /** k holds the first 32 bits behind the point of the cube root of p. */
  predicate CubeRootBits(p: nat, k: Word, whole: nat) {
    var root := whole * 0x1_0000_0000 + k as nat;
    root * root * root <= p * 0x1_00000000_00000000_00000000 < (root + 1) * (root + 1) * (root + 1)
  }

  predicate SquareRootBits(p: nat, k: Word, whole: nat) {
    var root := whole * 0x1_0000_0000 + k as nat;
    root * root <= p * 0x1_00000000_00000000 < (root + 1) * (root + 1)
  }

  /** The whole part of the cube root of the t-th prime. */
  function CubeRoot(t: nat): nat {
    if t < 4 then 1 else if t < 9 then 2 else if t < 18 then 3 else if t < 30 then 4 else if t < 47 then 5 else 6
  }

  lemma Keys0()
    ensures K(0) == 0x428a2f98 && K(1) == 0x71374491 && K(2) == 0xb5c0fbcf && K(3) == 0xe9b5dba5
  {
  }

  lemma Keys4()
    ensures K(4) == 0x3956c25b && K(5) == 0x59f111f1 && K(6) == 0x923f82a4 && K(7) == 0xab1c5ed5
  {
  }

  lemma Keys8()
    ensures K(8) == 0xd807aa98 && K(9) == 0x12835b01 && K(10) == 0x243185be && K(11) == 0x550c7dc3
  {
  }

  lemma Keys12()
    ensures K(12) == 0x72be5d74 && K(13) == 0x80deb1fe && K(14) == 0x9bdc06a7 && K(15) == 0xc19bf174
  {
  }

  lemma Keys16()
    ensures K(16) == 0xe49b69c1 && K(17) == 0xefbe4786 && K(18) == 0x0fc19dc6 && K(19) == 0x240ca1cc
  {
  }

  lemma Keys20()
    ensures K(20) == 0x2de92c6f && K(21) == 0x4a7484aa && K(22) == 0x5cb0a9dc && K(23) == 0x76f988da
  {
  }

  lemma Keys24()
    ensures K(24) == 0x983e5152 && K(25) == 0xa831c66d && K(26) == 0xb00327c8 && K(27) == 0xbf597fc7
  {
  }

  lemma Keys28()
    ensures K(28) == 0xc6e00bf3 && K(29) == 0xd5a79147 && K(30) == 0x06ca6351 && K(31) == 0x14292967
  {
  }

  lemma Keys32()
    ensures K(32) == 0x27b70a85 && K(33) == 0x2e1b2138 && K(34) == 0x4d2c6dfc && K(35) == 0x53380d13
  {
  }

  lemma Keys36()
    ensures K(36) == 0x650a7354 && K(37) == 0x766a0abb && K(38) == 0x81c2c92e && K(39) == 0x92722c85
  {
  }

  lemma Keys40()
    ensures K(40) == 0xa2bfe8a1 && K(41) == 0xa81a664b && K(42) == 0xc24b8b70 && K(43) == 0xc76c51a3
  {
  }

  lemma Keys44()
    ensures K(44) == 0xd192e819 && K(45) == 0xd6990624 && K(46) == 0xf40e3585 && K(47) == 0x106aa070
  {
  }

  lemma Keys48()
    ensures K(48) == 0x19a4c116 && K(49) == 0x1e376c08 && K(50) == 0x2748774c && K(51) == 0x34b0bcb5
  {
  }

  lemma Keys52()
    ensures K(52) == 0x391c0cb3 && K(53) == 0x4ed8aa4a && K(54) == 0x5b9cca4f && K(55) == 0x682e6ff3
  {
  }

  lemma Keys56()
    ensures K(56) == 0x748f82ee && K(57) == 0x78a5636f && K(58) == 0x84c87814 && K(59) == 0x8cc70208
  {
  }

  lemma Keys60()
    ensures K(60) == 0x90befffa && K(61) == 0xa4506ceb && K(62) == 0xbef9a3f7 && K(63) == 0xc67178f2
  {
  }

  lemma Roots0()
    ensures CubeRootBits(2, 0x428a2f98, 1)
    ensures CubeRootBits(3, 0x71374491, 1)
    ensures CubeRootBits(5, 0xb5c0fbcf, 1)
    ensures CubeRootBits(7, 0xe9b5dba5, 1)
  {
  }

  lemma Constants0(t: nat)
    requires 0 <= t < 4
    ensures CubeRootBits(Prime(t), K(t), CubeRoot(t))
  {
    hide K, CubeRootBits;
    Keys0();
    Roots0();
  }

  lemma Roots4()
    ensures CubeRootBits(11, 0x3956c25b, 2)
    ensures CubeRootBits(13, 0x59f111f1, 2)
    ensures CubeRootBits(17, 0x923f82a4, 2)
    ensures CubeRootBits(19, 0xab1c5ed5, 2)
  {
  }

  lemma Constants4(t: nat)
    requires 4 <= t < 8
    ensures CubeRootBits(Prime(t), K(t), CubeRoot(t))
  {
    hide K, CubeRootBits;
    Keys4();
    Roots4();
  }

  lemma Roots8()
    ensures CubeRootBits(23, 0xd807aa98, 2)
    ensures CubeRootBits(29, 0x12835b01, 3)
    ensures CubeRootBits(31, 0x243185be, 3)
    ensures CubeRootBits(37, 0x550c7dc3, 3)
  {
  }

  lemma Constants8(t: nat)
    requires 8 <= t < 12
    ensures CubeRootBits(Prime(t), K(t), CubeRoot(t))
  {
    hide K, CubeRootBits;
    Keys8();
    Roots8();
  }

  lemma Roots12()
    ensures CubeRootBits(41, 0x72be5d74, 3)
    ensures CubeRootBits(43, 0x80deb1fe, 3)
    ensures CubeRootBits(47, 0x9bdc06a7, 3)
    ensures CubeRootBits(53, 0xc19bf174, 3)
  {
  }

  lemma Constants12(t: nat)
    requires 12 <= t < 16
    ensures CubeRootBits(Prime(t), K(t), CubeRoot(t))
  {
    hide K, CubeRootBits;
    Keys12();
    Roots12();
  }

  lemma Roots16()
    ensures CubeRootBits(59, 0xe49b69c1, 3)
    ensures CubeRootBits(61, 0xefbe4786, 3)
    ensures CubeRootBits(67, 0x0fc19dc6, 4)
    ensures CubeRootBits(71, 0x240ca1cc, 4)
  {
  }

  lemma Constants16(t: nat)
    requires 16 <= t < 20
    ensures CubeRootBits(Prime(t), K(t), CubeRoot(t))
  {
    hide K, CubeRootBits;
    Keys16();
    Roots16();
  }

  lemma Roots20()
    ensures CubeRootBits(73, 0x2de92c6f, 4)
    ensures CubeRootBits(79, 0x4a7484aa, 4)
    ensures CubeRootBits(83, 0x5cb0a9dc, 4)
    ensures CubeRootBits(89, 0x76f988da, 4)
  {
  }

  lemma Constants20(t: nat)
    requires 20 <= t < 24
    ensures CubeRootBits(Prime(t), K(t), CubeRoot(t))
  {
    hide K, CubeRootBits;
    Keys20();
    Roots20();
  }

  lemma Roots24()
    ensures CubeRootBits(97, 0x983e5152, 4)
    ensures CubeRootBits(101, 0xa831c66d, 4)
    ensures CubeRootBits(103, 0xb00327c8, 4)
    ensures CubeRootBits(107, 0xbf597fc7, 4)
  {
  }

  lemma Constants24(t: nat)
    requires 24 <= t < 28
    ensures CubeRootBits(Prime(t), K(t), CubeRoot(t))
  {
    hide K, CubeRootBits;
    Keys24();
    Roots24();
  }

  lemma Roots28()
    ensures CubeRootBits(109, 0xc6e00bf3, 4)
    ensures CubeRootBits(113, 0xd5a79147, 4)
    ensures CubeRootBits(127, 0x06ca6351, 5)
    ensures CubeRootBits(131, 0x14292967, 5)
  {
  }

  lemma Constants28(t: nat)
    requires 28 <= t < 32
    ensures CubeRootBits(Prime(t), K(t), CubeRoot(t))
  {
    hide K, CubeRootBits;
    Keys28();
    Roots28();
  }

  lemma Roots32()
    ensures CubeRootBits(137, 0x27b70a85, 5)
    ensures CubeRootBits(139, 0x2e1b2138, 5)
    ensures CubeRootBits(149, 0x4d2c6dfc, 5)
    ensures CubeRootBits(151, 0x53380d13, 5)
  {
  }

  lemma Constants32(t: nat)
    requires 32 <= t < 36
    ensures CubeRootBits(Prime(t), K(t), CubeRoot(t))
  {
    hide K, CubeRootBits;
    Keys32();
    Roots32();
  }

  lemma Roots36()
    ensures CubeRootBits(157, 0x650a7354, 5)
    ensures CubeRootBits(163, 0x766a0abb, 5)
    ensures CubeRootBits(167, 0x81c2c92e, 5)
    ensures CubeRootBits(173, 0x92722c85, 5)
  {
  }

  lemma Constants36(t: nat)
    requires 36 <= t < 40
    ensures CubeRootBits(Prime(t), K(t), CubeRoot(t))
  {
    hide K, CubeRootBits;
    Keys36();
    Roots36();
  }

  lemma Roots40()
    ensures CubeRootBits(179, 0xa2bfe8a1, 5)
    ensures CubeRootBits(181, 0xa81a664b, 5)
    ensures CubeRootBits(191, 0xc24b8b70, 5)
    ensures CubeRootBits(193, 0xc76c51a3, 5)
  {
  }

  lemma Constants40(t: nat)
    requires 40 <= t < 44
    ensures CubeRootBits(Prime(t), K(t), CubeRoot(t))
  {
    hide K, CubeRootBits;
    Keys40();
    Roots40();
  }

  lemma Roots44()
    ensures CubeRootBits(197, 0xd192e819, 5)
    ensures CubeRootBits(199, 0xd6990624, 5)
    ensures CubeRootBits(211, 0xf40e3585, 5)
    ensures CubeRootBits(223, 0x106aa070, 6)
  {
  }

  lemma Constants44(t: nat)
    requires 44 <= t < 48
    ensures CubeRootBits(Prime(t), K(t), CubeRoot(t))
  {
    hide K, CubeRootBits;
    Keys44();
    Roots44();
  }

  lemma Roots48()
    ensures CubeRootBits(227, 0x19a4c116, 6)
    ensures CubeRootBits(229, 0x1e376c08, 6)
    ensures CubeRootBits(233, 0x2748774c, 6)
    ensures CubeRootBits(239, 0x34b0bcb5, 6)
  {
  }

  lemma Constants48(t: nat)
    requires 48 <= t < 52
    ensures CubeRootBits(Prime(t), K(t), CubeRoot(t))
  {
    hide K, CubeRootBits;
    Keys48();
    Roots48();
  }

  lemma Roots52()
    ensures CubeRootBits(241, 0x391c0cb3, 6)
    ensures CubeRootBits(251, 0x4ed8aa4a, 6)
    ensures CubeRootBits(257, 0x5b9cca4f, 6)
    ensures CubeRootBits(263, 0x682e6ff3, 6)
  {
  }

  lemma Constants52(t: nat)
    requires 52 <= t < 56
    ensures CubeRootBits(Prime(t), K(t), CubeRoot(t))
  {
    hide K, CubeRootBits;
    Keys52();
    Roots52();
  }

  lemma Roots56()
    ensures CubeRootBits(269, 0x748f82ee, 6)
    ensures CubeRootBits(271, 0x78a5636f, 6)
    ensures CubeRootBits(277, 0x84c87814, 6)
    ensures CubeRootBits(281, 0x8cc70208, 6)
  {
  }

  lemma Constants56(t: nat)
    requires 56 <= t < 60
    ensures CubeRootBits(Prime(t), K(t), CubeRoot(t))
  {
    hide K, CubeRootBits;
    Keys56();
    Roots56();
  }

  lemma Roots60()
    ensures CubeRootBits(283, 0x90befffa, 6)
    ensures CubeRootBits(293, 0xa4506ceb, 6)
    ensures CubeRootBits(307, 0xbef9a3f7, 6)
    ensures CubeRootBits(311, 0xc67178f2, 6)
  {
  }

  lemma Constants60(t: nat)
    requires 60 <= t < 64
    ensures CubeRootBits(Prime(t), K(t), CubeRoot(t))
  {
    hide K, CubeRootBits;
    Keys60();
    Roots60();
  }

  /** The round constants are the first fractional bits of the cube roots of the first 64 primes. */
  lemma RoundConstants(t: nat)
    requires t < 64
    ensures CubeRootBits(Prime(t), K(t), CubeRoot(t))
  {
    hide K, CubeRootBits, Prime, CubeRoot;
    if t < 4 {
      Constants0(t);
    } else if t < 8 {
      Constants4(t);
    } else if t < 12 {
      Constants8(t);
    } else if t < 16 {
      Constants12(t);
    } else if t < 20 {
      Constants16(t);
    } else if t < 24 {
      Constants20(t);
    } else if t < 28 {
      Constants24(t);
    } else if t < 32 {
      Constants28(t);
    } else if t < 36 {
      Constants32(t);
    } else if t < 40 {
      Constants36(t);
    } else if t < 44 {
      Constants40(t);
    } else if t < 48 {
      Constants44(t);
    } else if t < 52 {
      Constants48(t);
    } else if t < 56 {
      Constants52(t);
    } else if t < 60 {
      Constants56(t);
    } else {
      Constants60(t);
    }
  }

  /** The initial hash holds the first fractional bits of the square roots of the first eight primes. */
  lemma InitialWords()
    ensures SquareRootBits(2, InitialHash()[0], 1)
    ensures SquareRootBits(3, InitialHash()[1], 1)
    ensures SquareRootBits(5, InitialHash()[2], 2)
    ensures SquareRootBits(7, InitialHash()[3], 2)
    ensures SquareRootBits(11, InitialHash()[4], 3)
    ensures SquareRootBits(13, InitialHash()[5], 3)
    ensures SquareRootBits(17, InitialHash()[6], 4)
    ensures SquareRootBits(19, InitialHash()[7], 4)
  {
    hide SquareRootBits;
    FirstInitialWords();
    LastInitialWords();
  }

  lemma FirstInitialWords()
    ensures SquareRootBits(2, 0x6a09e667, 1)
    ensures SquareRootBits(3, 0xbb67ae85, 1)
    ensures SquareRootBits(5, 0x3c6ef372, 2)
    ensures SquareRootBits(7, 0xa54ff53a, 2)
  {
  }

  lemma LastInitialWords()
    ensures SquareRootBits(11, 0x510e527f, 3)
    ensures SquareRootBits(13, 0x9b05688c, 3)
    ensures SquareRootBits(17, 0x1f83d9ab, 4)
    ensures SquareRootBits(19, 0x5be0cd19, 4)
  {
  }
}

/** A known answer: the digest of the three octets 0x61, 0x62, 0x63 (the first example of FIPS 180-4), worked out round
    by round. */
module Sha256Answer {
  import opened Sha256Words
  import opened Sha256Spec
  import opened Sha256Facts

  /** The message with its padding, as words. */
  predicate IsBlock(m: seq<Word>) {
    |m| == 16 && m[0] == 0x61626380 && m[15] == 0x18 && forall i :: 0 < i < 15 ==> m[i] == 0
  }

  /** The schedule of the block and the working variables after t rounds. */
  ghost predicate Scheduled(m: seq<Word>, t: nat, w: Word) {
    |m| == 16 && Schedule(m, t) == w
  }

  ghost predicate After(m: seq<Word>, t: nat, v: seq<Word>) {
    |m| == 16 && t <= 64 && Rounds(InitialHash(), m, t) == v
  }

  lemma NextW(m: seq<Word>, t: nat, w2: Word, w7: Word, w15: Word, w16: Word)
    requires t >= 16 && Scheduled(m, t - 2, w2) && Scheduled(m, t - 7, w7) && Scheduled(m, t - 15, w15) && Scheduled(m, t - 16, w16)
    ensures Scheduled(m, t, NextWord(w2, w7, w15, w16))
  {
    hide NextWord;
  }

  lemma NextRound(m: seq<Word>, t: nat, v: seq<Word>, w: Word)
    requires t < 64 && |v| == 8 && After(m, t, v) && Scheduled(m, t, w)
    ensures After(m, t + 1, Round(v, K(t), w))
  {
    hide Round, K, Schedule;
  }

  lemma W0To15(m: seq<Word>)
    requires IsBlock(m)
    ensures Scheduled(m, 0, 0x61626380) && Scheduled(m, 1, 0x0) && Scheduled(m, 2, 0x0) && Scheduled(m, 3, 0x0)
    ensures Scheduled(m, 4, 0x0) && Scheduled(m, 5, 0x0) && Scheduled(m, 6, 0x0) && Scheduled(m, 7, 0x0)
    ensures Scheduled(m, 8, 0x0) && Scheduled(m, 9, 0x0) && Scheduled(m, 10, 0x0) && Scheduled(m, 11, 0x0)
    ensures Scheduled(m, 12, 0x0) && Scheduled(m, 13, 0x0) && Scheduled(m, 14, 0x0) && Scheduled(m, 15, 0x18)
  {
  }

  lemma W16To23(m: seq<Word>)
    requires IsBlock(m)
    ensures Scheduled(m, 16, 0x61626380) && Scheduled(m, 17, 0x000f0000)
    ensures Scheduled(m, 18, 0x7da86405) && Scheduled(m, 19, 0x600003c6)
    ensures Scheduled(m, 20, 0x3e9d7b78) && Scheduled(m, 21, 0x0183fc00)
    ensures Scheduled(m, 22, 0x12dcbfdb) && Scheduled(m, 23, 0xe2e2c38e)
  {
    hide Scheduled, IsBlock;
    W0To15(m);
    NextW(m, 16, 0x00000000, 0x00000000, 0x00000000, 0x61626380);
    NextW(m, 17, 0x00000018, 0x00000000, 0x00000000, 0x00000000);
    NextW(m, 18, 0x61626380, 0x00000000, 0x00000000, 0x00000000);
    NextW(m, 19, 0x000f0000, 0x00000000, 0x00000000, 0x00000000);
    NextW(m, 20, 0x7da86405, 0x00000000, 0x00000000, 0x00000000);
    NextW(m, 21, 0x600003c6, 0x00000000, 0x00000000, 0x00000000);
    NextW(m, 22, 0x3e9d7b78, 0x00000018, 0x00000000, 0x00000000);
    NextW(m, 23, 0x0183fc00, 0x61626380, 0x00000000, 0x00000000);
  }

  lemma W24To31(m: seq<Word>)
    requires IsBlock(m)
    ensures Scheduled(m, 24, 0xc8215c1a) && Scheduled(m, 25, 0xb73679a2)
    ensures Scheduled(m, 26, 0xe5bc3909) && Scheduled(m, 27, 0x32663c5b)
    ensures Scheduled(m, 28, 0x9d209d67) && Scheduled(m, 29, 0xec8726cb)
    ensures Scheduled(m, 30, 0x702138a4) && Scheduled(m, 31, 0xd3b7973b)
  {
    hide Scheduled, IsBlock;
    W0To15(m);
    W16To23(m);
    NextW(m, 24, 0x12dcbfdb, 0x000f0000, 0x00000000, 0x00000000);
    NextW(m, 25, 0xe2e2c38e, 0x7da86405, 0x00000000, 0x00000000);
    NextW(m, 26, 0xc8215c1a, 0x600003c6, 0x00000000, 0x00000000);
    NextW(m, 27, 0xb73679a2, 0x3e9d7b78, 0x00000000, 0x00000000);
    NextW(m, 28, 0xe5bc3909, 0x0183fc00, 0x00000000, 0x00000000);
    NextW(m, 29, 0x32663c5b, 0x12dcbfdb, 0x00000000, 0x00000000);
    NextW(m, 30, 0x9d209d67, 0xe2e2c38e, 0x00000018, 0x00000000);
    NextW(m, 31, 0xec8726cb, 0xc8215c1a, 0x61626380, 0x00000018);
  }

  lemma W32To39(m: seq<Word>)
    requires IsBlock(m)
    ensures Scheduled(m, 32, 0x93f5997f) && Scheduled(m, 33, 0x3b68ba73)
    ensures Scheduled(m, 34, 0xaff4ffc1) && Scheduled(m, 35, 0xf10a5c62)
    ensures Scheduled(m, 36, 0x0a8b3996) && Scheduled(m, 37, 0x72af830a)
    ensures Scheduled(m, 38, 0x9409e33e) && Scheduled(m, 39, 0x24641522)
  {
    hide Scheduled, IsBlock;
    W16To23(m);
    W24To31(m);
    NextW(m, 32, 0x702138a4, 0xb73679a2, 0x000f0000, 0x61626380);
    NextW(m, 33, 0xd3b7973b, 0xe5bc3909, 0x7da86405, 0x000f0000);
    NextW(m, 34, 0x93f5997f, 0x32663c5b, 0x600003c6, 0x7da86405);
    NextW(m, 35, 0x3b68ba73, 0x9d209d67, 0x3e9d7b78, 0x600003c6);
    NextW(m, 36, 0xaff4ffc1, 0xec8726cb, 0x0183fc00, 0x3e9d7b78);
    NextW(m, 37, 0xf10a5c62, 0x702138a4, 0x12dcbfdb, 0x0183fc00);
    NextW(m, 38, 0x0a8b3996, 0xd3b7973b, 0xe2e2c38e, 0x12dcbfdb);
    NextW(m, 39, 0x72af830a, 0x93f5997f, 0xc8215c1a, 0xe2e2c38e);
  }

  lemma W40To47(m: seq<Word>)
    requires IsBlock(m)
    ensures Scheduled(m, 40, 0x9f47bf94) && Scheduled(m, 41, 0xf0a64f5a)
    ensures Scheduled(m, 42, 0x3e246a79) && Scheduled(m, 43, 0x27333ba3)
    ensures Scheduled(m, 44, 0x0c4763f2) && Scheduled(m, 45, 0x840abf27)
    ensures Scheduled(m, 46, 0x7a290d5d) && Scheduled(m, 47, 0x065c43da)
  {
    hide Scheduled, IsBlock;
    W24To31(m);
    W32To39(m);
    NextW(m, 40, 0x9409e33e, 0x3b68ba73, 0xb73679a2, 0xc8215c1a);
    NextW(m, 41, 0x24641522, 0xaff4ffc1, 0xe5bc3909, 0xb73679a2);
    NextW(m, 42, 0x9f47bf94, 0xf10a5c62, 0x32663c5b, 0xe5bc3909);
    NextW(m, 43, 0xf0a64f5a, 0x0a8b3996, 0x9d209d67, 0x32663c5b);
    NextW(m, 44, 0x3e246a79, 0x72af830a, 0xec8726cb, 0x9d209d67);
    NextW(m, 45, 0x27333ba3, 0x9409e33e, 0x702138a4, 0xec8726cb);
    NextW(m, 46, 0x0c4763f2, 0x24641522, 0xd3b7973b, 0x702138a4);
    NextW(m, 47, 0x840abf27, 0x9f47bf94, 0x93f5997f, 0xd3b7973b);
  }

  lemma W48To55(m: seq<Word>)
    requires IsBlock(m)
    ensures Scheduled(m, 48, 0xfb3e89cb) && Scheduled(m, 49, 0xcc7617db)
    ensures Scheduled(m, 50, 0xb9e66c34) && Scheduled(m, 51, 0xa9993667)
    ensures Scheduled(m, 52, 0x84badedd) && Scheduled(m, 53, 0xc21462bc)
    ensures Scheduled(m, 54, 0x1487472c) && Scheduled(m, 55, 0xb20f7a99)
  {
    hide Scheduled, IsBlock;
    W32To39(m);
    W40To47(m);
    NextW(m, 48, 0x7a290d5d, 0xf0a64f5a, 0x3b68ba73, 0x93f5997f);
    NextW(m, 49, 0x065c43da, 0x3e246a79, 0xaff4ffc1, 0x3b68ba73);
    NextW(m, 50, 0xfb3e89cb, 0x27333ba3, 0xf10a5c62, 0xaff4ffc1);
    NextW(m, 51, 0xcc7617db, 0x0c4763f2, 0x0a8b3996, 0xf10a5c62);
    NextW(m, 52, 0xb9e66c34, 0x840abf27, 0x72af830a, 0x0a8b3996);
    NextW(m, 53, 0xa9993667, 0x7a290d5d, 0x9409e33e, 0x72af830a);
    NextW(m, 54, 0x84badedd, 0x065c43da, 0x24641522, 0x9409e33e);
    NextW(m, 55, 0xc21462bc, 0xfb3e89cb, 0x9f47bf94, 0x24641522);
  }

  lemma W56To63(m: seq<Word>)
    requires IsBlock(m)
    ensures Scheduled(m, 56, 0xef57b9cd) && Scheduled(m, 57, 0xebe6b238)
    ensures Scheduled(m, 58, 0x9fe3095e) && Scheduled(m, 59, 0x78bc8d4b)
    ensures Scheduled(m, 60, 0xa43fcf15) && Scheduled(m, 61, 0x668b2ff8)
    ensures Scheduled(m, 62, 0xeeaba2cc) && Scheduled(m, 63, 0x12b1edeb)
  {
    hide Scheduled, IsBlock;
    W40To47(m);
    W48To55(m);
    NextW(m, 56, 0x1487472c, 0xcc7617db, 0xf0a64f5a, 0x9f47bf94);
    NextW(m, 57, 0xb20f7a99, 0xb9e66c34, 0x3e246a79, 0xf0a64f5a);
    NextW(m, 58, 0xef57b9cd, 0xa9993667, 0x27333ba3, 0x3e246a79);
    NextW(m, 59, 0xebe6b238, 0x84badedd, 0x0c4763f2, 0x27333ba3);
    NextW(m, 60, 0x9fe3095e, 0xc21462bc, 0x840abf27, 0x0c4763f2);
    NextW(m, 61, 0x78bc8d4b, 0x1487472c, 0x7a290d5d, 0x840abf27);
    NextW(m, 62, 0xa43fcf15, 0xb20f7a99, 0x065c43da, 0x7a290d5d);
    NextW(m, 63, 0x668b2ff8, 0xef57b9cd, 0xfb3e89cb, 0x065c43da);
  }

  lemma After0(m: seq<Word>)
    requires IsBlock(m)
    ensures After(m, 0, [0x6a09e667, 0xbb67ae85, 0x3c6ef372, 0xa54ff53a, 0x510e527f, 0x9b05688c, 0x1f83d9ab, 0x5be0cd19])
  {
  }

  lemma After4(m: seq<Word>)
    requires IsBlock(m)
    ensures After(m, 4, [0xd550f666, 0xc8c347a7, 0x5a6ad9ad, 0x5d6aebcd, 0x24e00850, 0xf92939eb, 0x78ce7989, 0xfa2a4622])
  {
    hide Scheduled, After, IsBlock, K;
    After0(m);
    W0To15(m);
    Keys0();
    NextRound(m, 0, [0x6a09e667, 0xbb67ae85, 0x3c6ef372, 0xa54ff53a, 0x510e527f, 0x9b05688c, 0x1f83d9ab, 0x5be0cd19], 0x61626380);
    NextRound(m, 1, [0x5d6aebcd, 0x6a09e667, 0xbb67ae85, 0x3c6ef372, 0xfa2a4622, 0x510e527f, 0x9b05688c, 0x1f83d9ab], 0x00000000);
    NextRound(m, 2, [0x5a6ad9ad, 0x5d6aebcd, 0x6a09e667, 0xbb67ae85, 0x78ce7989, 0xfa2a4622, 0x510e527f, 0x9b05688c], 0x00000000);
    NextRound(m, 3, [0xc8c347a7, 0x5a6ad9ad, 0x5d6aebcd, 0x6a09e667, 0xf92939eb, 0x78ce7989, 0xfa2a4622, 0x510e527f], 0x00000000);
  }

  lemma After8(m: seq<Word>)
    requires IsBlock(m)
    ensures After(m, 8, [0x85a07b5f, 0xe5030380, 0x2b4209f5, 0x04409a6a, 0x0c657a79, 0x9b27a401, 0x714260ad, 0x43ada245])
  {
    hide Scheduled, After, IsBlock, K;
    After4(m);
    W0To15(m);
    Keys4();
    NextRound(m, 4, [0xd550f666, 0xc8c347a7, 0x5a6ad9ad, 0x5d6aebcd, 0x24e00850, 0xf92939eb, 0x78ce7989, 0xfa2a4622], 0x00000000);
    NextRound(m, 5, [0x04409a6a, 0xd550f666, 0xc8c347a7, 0x5a6ad9ad, 0x43ada245, 0x24e00850, 0xf92939eb, 0x78ce7989], 0x00000000);
    NextRound(m, 6, [0x2b4209f5, 0x04409a6a, 0xd550f666, 0xc8c347a7, 0x714260ad, 0x43ada245, 0x24e00850, 0xf92939eb], 0x00000000);
    NextRound(m, 7, [0xe5030380, 0x2b4209f5, 0x04409a6a, 0xd550f666, 0x9b27a401, 0x714260ad, 0x43ada245, 0x24e00850], 0x00000000);
  }

  lemma After12(m: seq<Word>)
    requires IsBlock(m)
    ensures After(m, 12, [0xf71fc5a9, 0x4798a3f4, 0x8c87346b, 0x8e04ecb9, 0x816fd6e9, 0x436b23e8, 0x1cc92596, 0x32ca2d8c])
  {
    hide Scheduled, After, IsBlock, K;
    After8(m);
    W0To15(m);
    Keys8();
    NextRound(m, 8, [0x85a07b5f, 0xe5030380, 0x2b4209f5, 0x04409a6a, 0x0c657a79, 0x9b27a401, 0x714260ad, 0x43ada245], 0x00000000);
    NextRound(m, 9, [0x8e04ecb9, 0x85a07b5f, 0xe5030380, 0x2b4209f5, 0x32ca2d8c, 0x0c657a79, 0x9b27a401, 0x714260ad], 0x00000000);
    NextRound(m, 10, [0x8c87346b, 0x8e04ecb9, 0x85a07b5f, 0xe5030380, 0x1cc92596, 0x32ca2d8c, 0x0c657a79, 0x9b27a401], 0x00000000);
    NextRound(m, 11, [0x4798a3f4, 0x8c87346b, 0x8e04ecb9, 0x85a07b5f, 0x436b23e8, 0x1cc92596, 0x32ca2d8c, 0x0c657a79], 0x00000000);
  }

  lemma After16(m: seq<Word>)
    requires IsBlock(m)
    ensures After(m, 16, [0xb0fa238e, 0xc0645fde, 0xd932eb16, 0x87912990, 0x07590dcd, 0x0b92f20c, 0x745a48de, 0x1e578218])
  {
    hide Scheduled, After, IsBlock, K;
    After12(m);
    W0To15(m);
    Keys12();
    NextRound(m, 12, [0xf71fc5a9, 0x4798a3f4, 0x8c87346b, 0x8e04ecb9, 0x816fd6e9, 0x436b23e8, 0x1cc92596, 0x32ca2d8c], 0x00000000);
    NextRound(m, 13, [0x87912990, 0xf71fc5a9, 0x4798a3f4, 0x8c87346b, 0x1e578218, 0x816fd6e9, 0x436b23e8, 0x1cc92596], 0x00000000);
    NextRound(m, 14, [0xd932eb16, 0x87912990, 0xf71fc5a9, 0x4798a3f4, 0x745a48de, 0x1e578218, 0x816fd6e9, 0x436b23e8], 0x00000000);
    NextRound(m, 15, [0xc0645fde, 0xd932eb16, 0x87912990, 0xf71fc5a9, 0x0b92f20c, 0x745a48de, 0x1e578218, 0x816fd6e9], 0x00000018);
  }

  lemma After20(m: seq<Word>)
    requires IsBlock(m)
    ensures After(m, 20, [0xe1f20c33, 0xfe777bbf, 0xc2fbd9d1, 0x21da9a9b, 0xb0638179, 0xcc899961, 0x846ee454, 0x8034229c])
  {
    hide Scheduled, After, IsBlock, K;
    After16(m);
    W16To23(m);
    Keys16();
    NextRound(m, 16, [0xb0fa238e, 0xc0645fde, 0xd932eb16, 0x87912990, 0x07590dcd, 0x0b92f20c, 0x745a48de, 0x1e578218], 0x61626380);
    NextRound(m, 17, [0x21da9a9b, 0xb0fa238e, 0xc0645fde, 0xd932eb16, 0x8034229c, 0x07590dcd, 0x0b92f20c, 0x745a48de], 0x000f0000);
    NextRound(m, 18, [0xc2fbd9d1, 0x21da9a9b, 0xb0fa238e, 0xc0645fde, 0x846ee454, 0x8034229c, 0x07590dcd, 0x0b92f20c], 0x7da86405);
    NextRound(m, 19, [0xfe777bbf, 0xc2fbd9d1, 0x21da9a9b, 0xb0fa238e, 0xcc899961, 0x846ee454, 0x8034229c, 0x07590dcd], 0x600003c6);
  }

  lemma After24(m: seq<Word>)
    requires IsBlock(m)
    ensures After(m, 24, [0xc5d53d8d, 0xa7a3623f, 0xc2606d6d, 0x9dc68b63, 0xaa47c347, 0x49f5114a, 0xe1257970, 0x8ada8930])
  {
    hide Scheduled, After, IsBlock, K;
    After20(m);
    W16To23(m);
    Keys20();
    NextRound(m, 20, [0xe1f20c33, 0xfe777bbf, 0xc2fbd9d1, 0x21da9a9b, 0xb0638179, 0xcc899961, 0x846ee454, 0x8034229c], 0x3e9d7b78);
    NextRound(m, 21, [0x9dc68b63, 0xe1f20c33, 0xfe777bbf, 0xc2fbd9d1, 0x8ada8930, 0xb0638179, 0xcc899961, 0x846ee454], 0x0183fc00);
    NextRound(m, 22, [0xc2606d6d, 0x9dc68b63, 0xe1f20c33, 0xfe777bbf, 0xe1257970, 0x8ada8930, 0xb0638179, 0xcc899961], 0x12dcbfdb);
    NextRound(m, 23, [0xa7a3623f, 0xc2606d6d, 0x9dc68b63, 0xe1f20c33, 0x49f5114a, 0xe1257970, 0x8ada8930, 0xb0638179], 0xe2e2c38e);
  }

  lemma After28(m: seq<Word>)
    requires IsBlock(m)
    ensures After(m, 28, [0x77d37528, 0xb62ec4bc, 0xcde8037d, 0x1c2c2838, 0xedffbff8, 0xc74c6516, 0x14383d8e, 0x2823ef91])
  {
    hide Scheduled, After, IsBlock, K;
    After24(m);
    W24To31(m);
    Keys24();
    NextRound(m, 24, [0xc5d53d8d, 0xa7a3623f, 0xc2606d6d, 0x9dc68b63, 0xaa47c347, 0x49f5114a, 0xe1257970, 0x8ada8930], 0xc8215c1a);
    NextRound(m, 25, [0x1c2c2838, 0xc5d53d8d, 0xa7a3623f, 0xc2606d6d, 0x2823ef91, 0xaa47c347, 0x49f5114a, 0xe1257970], 0xb73679a2);
    NextRound(m, 26, [0xcde8037d, 0x1c2c2838, 0xc5d53d8d, 0xa7a3623f, 0x14383d8e, 0x2823ef91, 0xaa47c347, 0x49f5114a], 0xe5bc3909);
    NextRound(m, 27, [0xb62ec4bc, 0xcde8037d, 0x1c2c2838, 0xc5d53d8d, 0xc74c6516, 0x14383d8e, 0x2823ef91, 0xaa47c347], 0x32663c5b);
  }

  lemma After32(m: seq<Word>)
    requires IsBlock(m)
    ensures After(m, 32, [0x73b33bf5, 0xea992a22, 0xa0060b30, 0x363482c9, 0xba591112, 0x0109ab3a, 0xade79437, 0x6112a3b7])
  {
    hide Scheduled, After, IsBlock, K;
    After28(m);
    W24To31(m);
    Keys28();
    NextRound(m, 28, [0x77d37528, 0xb62ec4bc, 0xcde8037d, 0x1c2c2838, 0xedffbff8, 0xc74c6516, 0x14383d8e, 0x2823ef91], 0x9d209d67);
    NextRound(m, 29, [0x363482c9, 0x77d37528, 0xb62ec4bc, 0xcde8037d, 0x6112a3b7, 0xedffbff8, 0xc74c6516, 0x14383d8e], 0xec8726cb);
    NextRound(m, 30, [0xa0060b30, 0x363482c9, 0x77d37528, 0xb62ec4bc, 0xade79437, 0x6112a3b7, 0xedffbff8, 0xc74c6516], 0x702138a4);
    NextRound(m, 31, [0xea992a22, 0xa0060b30, 0x363482c9, 0x77d37528, 0x0109ab3a, 0xade79437, 0x6112a3b7, 0xedffbff8], 0xd3b7973b);
  }

  lemma After36(m: seq<Word>)
    requires IsBlock(m)
    ensures After(m, 36, [0x65a0cfe4, 0xa9a7738c, 0xfe604df5, 0x98e12507, 0xf4b002d6, 0x085f3833, 0x59249dd3, 0x9cd9f5f6])
  {
    hide Scheduled, After, IsBlock, K;
    After32(m);
    W32To39(m);
    Keys32();
    NextRound(m, 32, [0x73b33bf5, 0xea992a22, 0xa0060b30, 0x363482c9, 0xba591112, 0x0109ab3a, 0xade79437, 0x6112a3b7], 0x93f5997f);
    NextRound(m, 33, [0x98e12507, 0x73b33bf5, 0xea992a22, 0xa0060b30, 0x9cd9f5f6, 0xba591112, 0x0109ab3a, 0xade79437], 0x3b68ba73);
    NextRound(m, 34, [0xfe604df5, 0x98e12507, 0x73b33bf5, 0xea992a22, 0x59249dd3, 0x9cd9f5f6, 0xba591112, 0x0109ab3a], 0xaff4ffc1);
    NextRound(m, 35, [0xa9a7738c, 0xfe604df5, 0x98e12507, 0x73b33bf5, 0x085f3833, 0x59249dd3, 0x9cd9f5f6, 0xba591112], 0xf10a5c62);
  }

  lemma After40(m: seq<Word>)
    requires IsBlock(m)
    ensures After(m, 40, [0x79ea687a, 0x6dc57a8a, 0x34df1604, 0x41a65cb1, 0x1efbc0a0, 0xf0781bc8, 0xa507a53d, 0x0772a26b])
  {
    hide Scheduled, After, IsBlock, K;
    After36(m);
    W32To39(m);
    Keys36();
    NextRound(m, 36, [0x65a0cfe4, 0xa9a7738c, 0xfe604df5, 0x98e12507, 0xf4b002d6, 0x085f3833, 0x59249dd3, 0x9cd9f5f6], 0x0a8b3996);
    NextRound(m, 37, [0x41a65cb1, 0x65a0cfe4, 0xa9a7738c, 0xfe604df5, 0x0772a26b, 0xf4b002d6, 0x085f3833, 0x59249dd3], 0x72af830a);
    NextRound(m, 38, [0x34df1604, 0x41a65cb1, 0x65a0cfe4, 0xa9a7738c, 0xa507a53d, 0x0772a26b, 0xf4b002d6, 0x085f3833], 0x9409e33e);
    NextRound(m, 39, [0x6dc57a8a, 0x34df1604, 0x41a65cb1, 0x65a0cfe4, 0xf0781bc8, 0xa507a53d, 0x0772a26b, 0xf4b002d6], 0x24641522);
  }

  lemma After44(m: seq<Word>)
    requires IsBlock(m)
    ensures After(m, 44, [0x9d4baf93, 0x17aa0dfe, 0xdf46652f, 0xd6670766, 0xfda24c2e, 0xdecd4715, 0x838b2711, 0x26352d63])
  {
    hide Scheduled, After, IsBlock, K;
    After40(m);
    W40To47(m);
    Keys40();
    NextRound(m, 40, [0x79ea687a, 0x6dc57a8a, 0x34df1604, 0x41a65cb1, 0x1efbc0a0, 0xf0781bc8, 0xa507a53d, 0x0772a26b], 0x9f47bf94);
    NextRound(m, 41, [0xd6670766, 0x79ea687a, 0x6dc57a8a, 0x34df1604, 0x26352d63, 0x1efbc0a0, 0xf0781bc8, 0xa507a53d], 0xf0a64f5a);
    NextRound(m, 42, [0xdf46652f, 0xd6670766, 0x79ea687a, 0x6dc57a8a, 0x838b2711, 0x26352d63, 0x1efbc0a0, 0xf0781bc8], 0x3e246a79);
    NextRound(m, 43, [0x17aa0dfe, 0xdf46652f, 0xd6670766, 0x79ea687a, 0xdecd4715, 0x838b2711, 0x26352d63, 0x1efbc0a0], 0x27333ba3);
  }

  lemma After48(m: seq<Word>)
    requires IsBlock(m)
    ensures After(m, 48, [0x4172328d, 0xa14c14b0, 0x72ab4b91, 0x26628815, 0xfecf0bc6, 0xd57b94a9, 0xb7755da1, 0xa80f11f0])
  {
    hide Scheduled, After, IsBlock, K;
    After44(m);
    W40To47(m);
    Keys44();
    NextRound(m, 44, [0x9d4baf93, 0x17aa0dfe, 0xdf46652f, 0xd6670766, 0xfda24c2e, 0xdecd4715, 0x838b2711, 0x26352d63], 0x0c4763f2);
    NextRound(m, 45, [0x26628815, 0x9d4baf93, 0x17aa0dfe, 0xdf46652f, 0xa80f11f0, 0xfda24c2e, 0xdecd4715, 0x838b2711], 0x840abf27);
    NextRound(m, 46, [0x72ab4b91, 0x26628815, 0x9d4baf93, 0x17aa0dfe, 0xb7755da1, 0xa80f11f0, 0xfda24c2e, 0xdecd4715], 0x7a290d5d);
    NextRound(m, 47, [0xa14c14b0, 0x72ab4b91, 0x26628815, 0x9d4baf93, 0xd57b94a9, 0xb7755da1, 0xa80f11f0, 0xfda24c2e], 0x065c43da);
  }

  lemma After52(m: seq<Word>)
    requires IsBlock(m)
    ensures After(m, 52, [0x886e7a22, 0x7a0508a1, 0xf11bfaa8, 0x05757ceb, 0x49231c1e, 0x52f1ccf7, 0x6e5c390c, 0xbd714038])
  {
    hide Scheduled, After, IsBlock, K;
    After48(m);
    W48To55(m);
    Keys48();
    NextRound(m, 48, [0x4172328d, 0xa14c14b0, 0x72ab4b91, 0x26628815, 0xfecf0bc6, 0xd57b94a9, 0xb7755da1, 0xa80f11f0], 0xfb3e89cb);
    NextRound(m, 49, [0x05757ceb, 0x4172328d, 0xa14c14b0, 0x72ab4b91, 0xbd714038, 0xfecf0bc6, 0xd57b94a9, 0xb7755da1], 0xcc7617db);
    NextRound(m, 50, [0xf11bfaa8, 0x05757ceb, 0x4172328d, 0xa14c14b0, 0x6e5c390c, 0xbd714038, 0xfecf0bc6, 0xd57b94a9], 0xb9e66c34);
    NextRound(m, 51, [0x7a0508a1, 0xf11bfaa8, 0x05757ceb, 0x4172328d, 0x52f1ccf7, 0x6e5c390c, 0xbd714038, 0xfecf0bc6], 0xa9993667);
  }

  lemma After56(m: seq<Word>)
    requires IsBlock(m)
    ensures After(m, 56, [0x38cc9913, 0x3ec45cdb, 0xf5702fdb, 0x101fd28f, 0x54cb266b, 0xe50e1b4f, 0x9f4787c3, 0x529e7d00])
  {
    hide Scheduled, After, IsBlock, K;
    After52(m);
    W48To55(m);
    Keys52();
    NextRound(m, 52, [0x886e7a22, 0x7a0508a1, 0xf11bfaa8, 0x05757ceb, 0x49231c1e, 0x52f1ccf7, 0x6e5c390c, 0xbd714038], 0x84badedd);
    NextRound(m, 53, [0x101fd28f, 0x886e7a22, 0x7a0508a1, 0xf11bfaa8, 0x529e7d00, 0x49231c1e, 0x52f1ccf7, 0x6e5c390c], 0xc21462bc);
    NextRound(m, 54, [0xf5702fdb, 0x101fd28f, 0x886e7a22, 0x7a0508a1, 0x9f4787c3, 0x529e7d00, 0x49231c1e, 0x52f1ccf7], 0x1487472c);
    NextRound(m, 55, [0x3ec45cdb, 0xf5702fdb, 0x101fd28f, 0x886e7a22, 0xe50e1b4f, 0x9f4787c3, 0x529e7d00, 0x49231c1e], 0xb20f7a99);
  }

  lemma After60(m: seq<Word>)
    requires IsBlock(m)
    ensures After(m, 60, [0xb6ae8fff, 0xffb70472, 0xc062d46f, 0xfcd1887b, 0xb21bad3d, 0x6d83bfc6, 0x7e44008e, 0x9b5e906c])
  {
    hide Scheduled, After, IsBlock, K;
    After56(m);
    W56To63(m);
    Keys56();
    NextRound(m, 56, [0x38cc9913, 0x3ec45cdb, 0xf5702fdb, 0x101fd28f, 0x54cb266b, 0xe50e1b4f, 0x9f4787c3, 0x529e7d00], 0xef57b9cd);
    NextRound(m, 57, [0xfcd1887b, 0x38cc9913, 0x3ec45cdb, 0xf5702fdb, 0x9b5e906c, 0x54cb266b, 0xe50e1b4f, 0x9f4787c3], 0xebe6b238);
    NextRound(m, 58, [0xc062d46f, 0xfcd1887b, 0x38cc9913, 0x3ec45cdb, 0x7e44008e, 0x9b5e906c, 0x54cb266b, 0xe50e1b4f], 0x9fe3095e);
    NextRound(m, 59, [0xffb70472, 0xc062d46f, 0xfcd1887b, 0x38cc9913, 0x6d83bfc6, 0x7e44008e, 0x9b5e906c, 0x54cb266b], 0x78bc8d4b);
  }

  lemma After64(m: seq<Word>)
    requires IsBlock(m)
    ensures After(m, 64, [0x506e3058, 0xd39a2165, 0x04d24d6c, 0xb85e2ce9, 0x5ef50f24, 0xfb121210, 0x948d25b6, 0x961f4894])
  {
    hide Scheduled, After, IsBlock, K;
    After60(m);
    W56To63(m);
    Keys60();
    NextRound(m, 60, [0xb6ae8fff, 0xffb70472, 0xc062d46f, 0xfcd1887b, 0xb21bad3d, 0x6d83bfc6, 0x7e44008e, 0x9b5e906c], 0xa43fcf15);
    NextRound(m, 61, [0xb85e2ce9, 0xb6ae8fff, 0xffb70472, 0xc062d46f, 0x961f4894, 0xb21bad3d, 0x6d83bfc6, 0x7e44008e], 0x668b2ff8);
    NextRound(m, 62, [0x04d24d6c, 0xb85e2ce9, 0xb6ae8fff, 0xffb70472, 0x948d25b6, 0x961f4894, 0xb21bad3d, 0x6d83bfc6], 0xeeaba2cc);
    NextRound(m, 63, [0xd39a2165, 0x04d24d6c, 0xb85e2ce9, 0xb6ae8fff, 0xfb121210, 0x948d25b6, 0x961f4894, 0xb21bad3d], 0x12b1edeb);
  }

  function Message(): seq<Octet> { [0x61, 0x62, 0x63] }

  /** The message, a one bit, zeros, and its length in bits. */
  function PaddedMessage(): (b: seq<Octet>)
    ensures |b| == 64
  {
    [0x61, 0x62, 0x63, 0x80] + Zeros(59) + [0x18]
  }

  lemma PaddingOfThree()
    ensures Message() + Padding(3) == PaddedMessage()
  {
    assert PadZeros(3) == 52;
    LengthOctets();
    assert Zeros(52) + Zeros(7) == Zeros(59);
    assert Message() + Padding(3) == [0x61, 0x62, 0x63, 0x80] + Zeros(52) + (Zeros(7) + [0x18]);
  }

  lemma LengthOctets()
    ensures BigEndian(24, 8) == Zeros(7) + [0x18]
  {
    ZeroOctets(7);
  }

  lemma {:induction false} ZeroOctets(n: nat)
    ensures BigEndian(0, n) == Zeros(n)
  {
    if n > 0 {
      ZeroOctets(n - 1);
    }
  }

  lemma PaddedWords()
    ensures IsBlock(Words(PaddedMessage(), 16))
  {
    assert WordOf(0x61, 0x62, 0x63, 0x80) == 0x61626380 && WordOf(0, 0, 0, 0x18) == 0x18 && WordOf(0, 0, 0, 0) == 0;
  }

  /** The last addition. */
  lemma LastSums()
    ensures AddWords(InitialHash(), [0x506e3058, 0xd39a2165, 0x04d24d6c, 0xb85e2ce9, 0x5ef50f24, 0xfb121210, 0x948d25b6, 0x961f4894])
         == [0xba7816bf, 0x8f01cfea, 0x414140de, 0x5dae2223, 0xb00361a3, 0x96177a9c, 0xb410ff61, 0xf20015ad]
  {
  }

  lemma OneBlock(b: seq<Octet>)
    requires |b| == 64
    ensures Fold(b) == Compress(InitialHash(), b)
  {
    FoldNothing();
    FoldAppend([], b);
    assert [] + b == b;
  }

  /** A padded message of these words has this hash. */
  lemma KnownHash(b: seq<Octet>)
    requires |b| == 64 && IsBlock(Words(b, 16))
    ensures Fold(b) == [0xba7816bf, 0x8f01cfea, 0x414140de, 0x5dae2223, 0xb00361a3, 0x96177a9c, 0xb410ff61, 0xf20015ad]
  {
    var m := Words(b, 16);
    OneBlock(b);
    After64(m);
    LastSums();
    hide AddWords, InitialHash, Rounds, Words, IsBlock, Fold;
  }

  /** The digest of the three octets. */
  lemma KnownDigest()
    ensures Digest([0x61, 0x62, 0x63]) ==
      [0xba, 0x78, 0x16, 0xbf, 0x8f, 0x01, 0xcf, 0xea, 0x41, 0x41, 0x40, 0xde, 0x5d, 0xae, 0x22, 0x23,
       0xb0, 0x03, 0x61, 0xa3, 0x96, 0x17, 0x7a, 0x9c, 0xb4, 0x10, 0xff, 0x61, 0xf2, 0x00, 0x15, 0xad]
  {
    hide Fold, Padding, Words, IsBlock, PaddedMessage, WordBytes;
    PaddedWords();
    KnownHash(PaddedMessage());
    PaddingOfThree();
    HashOctets();
    assert Message() == [0x61, 0x62, 0x63];
  }

  lemma Octets0()
    ensures BytesOf(0xba7816bf) == [0xba, 0x78, 0x16, 0xbf]
    ensures BytesOf(0x8f01cfea) == [0x8f, 0x01, 0xcf, 0xea]
    ensures BytesOf(0x414140de) == [0x41, 0x41, 0x40, 0xde]
    ensures BytesOf(0x5dae2223) == [0x5d, 0xae, 0x22, 0x23]
  {
  }

  lemma Octets4()
    ensures BytesOf(0xb00361a3) == [0xb0, 0x03, 0x61, 0xa3]
    ensures BytesOf(0x96177a9c) == [0x96, 0x17, 0x7a, 0x9c]
    ensures BytesOf(0xb410ff61) == [0xb4, 0x10, 0xff, 0x61]
    ensures BytesOf(0xf20015ad) == [0xf2, 0x00, 0x15, 0xad]
  {
  }

  lemma HashOctets()
    ensures WordBytes([0xba7816bf, 0x8f01cfea, 0x414140de, 0x5dae2223, 0xb00361a3, 0x96177a9c, 0xb410ff61, 0xf20015ad]) ==
      [0xba, 0x78, 0x16, 0xbf, 0x8f, 0x01, 0xcf, 0xea, 0x41, 0x41, 0x40, 0xde, 0x5d, 0xae, 0x22, 0x23,
       0xb0, 0x03, 0x61, 0xa3, 0x96, 0x17, 0x7a, 0x9c, 0xb4, 0x10, 0xff, 0x61, 0xf2, 0x00, 0x15, 0xad]
  {
    var w := [0xba7816bf, 0x8f01cfea, 0x414140de, 0x5dae2223, 0xb00361a3, 0x96177a9c, 0xb410ff61, 0xf20015ad];
    hide BytesOf, WordBytes;
    EightWords(w);
    Octets0();
    Octets4();
  }

  lemma EightWords(w: seq<Word>)
    requires |w| == 8
    ensures WordBytes(w) == BytesOf(w[0]) + BytesOf(w[1]) + BytesOf(w[2]) + BytesOf(w[3])
                            + BytesOf(w[4]) + BytesOf(w[5]) + BytesOf(w[6]) + BytesOf(w[7])
  {
    hide BytesOf, WordBytes;
    assert w[..8] == w;
    FourWords(w);
    OneMore(w, 7);
    OneMore(w, 6);
    OneMore(w, 5);
    OneMore(w, 4);
  }

  lemma FourWords(w: seq<Word>)
    requires |w| >= 4
    ensures WordBytes(w[..4]) == BytesOf(w[0]) + BytesOf(w[1]) + BytesOf(w[2]) + BytesOf(w[3])
  {
    hide BytesOf;
    OneMore(w, 3);
    OneMore(w, 2);
    OneMore(w, 1);
    OneMore(w, 0);
  }

  lemma OneMore(w: seq<Word>, k: nat)
    requires k < |w|
    ensures WordBytes(w[..k + 1]) == WordBytes(w[..k]) + BytesOf(w[k])
  {
    assert w[..k + 1][..k] == w[..k];
  }
}
