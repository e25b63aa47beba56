/** A known answer: the tag of the example in section 2.5.2 of RFC 8439. */
module PolyAnswer {
  import opened Arith
  import opened Octets
  import opened PolySpec
  import opened PolyKey

  /** The one-time key of the example. */
  function Key(): (k: seq<Octet>)
    ensures |k| == 32
  {
    [0x85, 0xd6, 0xbe, 0x78, 0x57, 0x55, 0x6d, 0x33, 0x7f, 0x44, 0x52, 0xfe, 0x42, 0xd5, 0x06, 0xa8,
     0x01, 0x03, 0x80, 0x8a, 0xfb, 0x0d, 0xb2, 0xfd, 0x4a, 0xbf, 0xf6, 0xaf, 0x41, 0x49, 0xf5, 0x1b]
  }

  /** Its message. */
  function Message(): (m: seq<Octet>)
    ensures |m| == 34
  {
    [0x43, 0x72, 0x79, 0x70, 0x74, 0x6f, 0x67, 0x72, 0x61, 0x70, 0x68, 0x69, 0x63, 0x20, 0x46, 0x6f,
     0x72, 0x75, 0x6d, 0x20, 0x52, 0x65, 0x73, 0x65, 0x61, 0x72, 0x63, 0x68, 0x20, 0x47, 0x72, 0x6f,
     0x75, 0x70]
  }

  lemma FirstOctets()
    ensures Key()[..16] == [0x85, 0xd6, 0xbe, 0x78, 0x57, 0x55, 0x6d, 0x33, 0x7f, 0x44, 0x52, 0xfe, 0x42, 0xd5, 0x06, 0xa8]
  {
  }

  lemma ClampedKey()
    ensures ClampedOctets([0x85, 0xd6, 0xbe, 0x78, 0x57, 0x55, 0x6d, 0x33, 0x7f, 0x44, 0x52, 0xfe, 0x42, 0xd5, 0x06, 0xa8])
         == [0x85, 0xd6, 0xbe, 0x08, 0x54, 0x55, 0x6d, 0x03, 0x7c, 0x44, 0x52, 0x0e, 0x40, 0xd5, 0x06, 0x08]
  {
  }

  lemma FirstHalf()
    ensures Clamp(LittleEndian(Key()[..16])) == 0x806d540_0e52447c_036d5554_08bed685
  {
    hide Clamp, LittleEndian, ClampedOctets, Key;
    FirstOctets();
    ClampedKey();
    ClampIsOctets(Key()[..16]);
    SixteenOctets([0x85, 0xd6, 0xbe, 0x08, 0x54, 0x55, 0x6d, 0x03, 0x7c, 0x44, 0x52, 0x0e, 0x40, 0xd5, 0x06, 0x08]);
  }

  lemma SecondHalf()
    ensures LittleEndian(Key()[16..]) == 0x1bf54941_aff6bf4a_fdb20dfb_8a800301
  {
    hide LittleEndian;
    SixteenOctets(Key()[16..]);
  }

  lemma WholeBlock(b: seq<Octet>)
    requires |b| == 16
    ensures BlockNumber(b) == LittleEndian(b) + 0x1_00000000_00000000_00000000_00000000
  {
    Pow2Large(16);
  }

  lemma Block0()
    ensures BlockNumber(Message()[..16]) == 0x1_6f462063_69687061_72676f74_70797243
  {
    hide LittleEndian, BlockNumber;
    var b := [0x43, 0x72, 0x79, 0x70, 0x74, 0x6f, 0x67, 0x72, 0x61, 0x70, 0x68, 0x69, 0x63, 0x20, 0x46, 0x6f];
    assert Message()[..16] == b;
    WholeBlock(b);
    SixteenOctets(b);
  }

  lemma Block1()
    ensures BlockNumber(Message()[16..32]) == 0x1_6f724720_68637261_65736552_206d7572
  {
    hide LittleEndian, BlockNumber;
    var b := [0x72, 0x75, 0x6d, 0x20, 0x52, 0x65, 0x73, 0x65, 0x61, 0x72, 0x63, 0x68, 0x20, 0x47, 0x72, 0x6f];
    assert Message()[16..32] == b;
    WholeBlock(b);
    SixteenOctets(b);
  }

  lemma Block2()
    ensures BlockNumber(Message()[32..]) == 0x17075
  {
    Pow2Small();
    var b := Message()[32..];
    assert b[1..][1..] == [];
    assert LittleEndian(b[1..]) == b[1] + 0x100 * LittleEndian([]);
  }

  lemma ThreeBlocks(m: seq<Octet>, r: int)
    requires |m| == 34
    ensures Eval(m, r) == Absorb(Absorb(Absorb(0, m[..16], r), m[16..32], r), m[32..], r)
  {
    hide Absorb;
    assert m[..32][..16] == m[..16] && m[..32][16..] == m[16..32] && m[..16][..0] == [] && m[..16][0..] == m[..16];
    assert Eval(m[..16], r) == Absorb(Eval([], r), m[..16], r);
    assert Eval(m[..32], r) == Absorb(Eval(m[..16], r), m[16..32], r);
  }

  lemma Products(r: int)
    requires r == 0x806d540_0e52447c_036d5554_08bed685
    ensures (0x1_6f462063_69687061_72676f74_70797243 * r) % P == 0x2_c88c7784_9d64ae91_47ddeb88_e69c83fc
    ensures ((0x2_c88c7784_9d64ae91_47ddeb88_e69c83fc + 0x1_6f724720_68637261_65736552_206d7572) * r) % P == 0x2_d8adaf23_b0337fa7_cccfb4ea_344b30de
    ensures ((0x2_d8adaf23_b0337fa7_cccfb4ea_344b30de + 0x17075) * r) % P == 0x2_8d31b7ca_ff946c77_c8844335_369d03a7
  {
  }

  lemma Evaluated()
    ensures Eval(Message(), Clamp(LittleEndian(Key()[..16]))) == 0x2_8d31b7ca_ff946c77_c8844335_369d03a7
  {
    hide Clamp, LittleEndian, BlockNumber, Eval, Message, Key;
    FirstHalf();
    var r := 0x806d540_0e52447c_036d5554_08bed685;
    ThreeBlocks(Message(), r);
    Block0();
    Block1();
    Block2();
    Products(r);
  }

  /** Writing the number of some octets gives them back. */
  lemma {:induction false} ToBytesOfNumber(b: seq<Octet>)
    ensures ToBytes(LittleEndian(b), |b|) == b
  {
    if |b| > 0 {
      ToBytesOfNumber(b[1..]);
      DivModUnique(LittleEndian(b), 0x100, LittleEndian(b[1..]), b[0]);
    }
  }

  lemma TagOctets()
    ensures ToBytes(0xa927010c_af8b2bc2_c6365130_c11d06a8, 16) ==
      [0xa8, 0x06, 0x1d, 0xc1, 0x30, 0x51, 0x36, 0xc6, 0xc2, 0x2b, 0x8b, 0xaf, 0x0c, 0x01, 0x27, 0xa9]
  {
    hide LittleEndian, ToBytes;
    var t :=
      [0xa8, 0x06, 0x1d, 0xc1, 0x30, 0x51, 0x36, 0xc6, 0xc2, 0x2b, 0x8b, 0xaf, 0x0c, 0x01, 0x27, 0xa9];
    ToBytesOfNumber(t);
    SixteenOctets(t);
  }

  lemma KnownTag()
    ensures Tag(Message(), Key()) ==
      [0xa8, 0x06, 0x1d, 0xc1, 0x30, 0x51, 0x36, 0xc6, 0xc2, 0x2b, 0x8b, 0xaf, 0x0c, 0x01, 0x27, 0xa9]
  {
    hide Clamp, LittleEndian, Eval, Message, Key, ToBytes;
    Evaluated();
    SecondHalf();
    TagOctets();
  }
}
