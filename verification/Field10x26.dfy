/** Field elements in ten limbs of 26 bits that may run over by their magnitude. */
module Field10x26 {
  import opened Arith
  import opened FP = FieldProduct
  import opened FieldProduct26

  predicate WithinMagnitude26(n: seq<int>, m: nat) {
    |n| == 10 && (forall i :: 0 <= i < 9 ==> 0 <= n[i] <= 2 * m * 0x3ffffff) && 0 <= n[9] <= 2 * m * 0x3fffff
  }

  predicate Normalized26(n: seq<int>) {
    |n| == 10 && (forall i :: 0 <= i < 9 ==> 0 <= n[i] <= 0x3ffffff) && 0 <= n[9] <= 0x3fffff && Val10(n) < P
  }

  lemma MulWide26(n: seq<int>, m: nat)
    requires WithinMagnitude26(n, m) && m <= 8
    ensures Wide26(n)
  {
  }

  /** The two bottom limbs after the part of the top limb above bit 22 has been folded into them. */
  function FirstSum26(n: seq<int>): int
    requires |n| == 10
  {
    n[0] + (n[9] / 0x400000) * 0x3D1
  }

  /** That sum fits in 32 bits for every element of magnitude m exactly when m is at most 31: at the largest
      permitted magnitude, 32, it can wrap around. */
  lemma FirstSumFits26(m: nat)
    ensures m <= 31 <==> forall n: seq<int> :: WithinMagnitude26(n, m) ==> FirstSum26(n) < 0x1_00000000
  {
    if m <= 31 {
      forall n: seq<int> | WithinMagnitude26(n, m)
        ensures FirstSum26(n) < 0x1_00000000
      {
      }
    } else {
      var n := [2 * m * 0x3ffffff, 0, 0, 0, 0, 0, 0, 0, 0, 2 * m * 0x3fffff];
      assert WithinMagnitude26(n, m);
      assert n[9] / 0x400000 >= 2 * 32 - 1;
      assert FirstSum26(n) >= 0x1_00000000;
    }
  }

  /** One pass of carries: nine limbs cut to 26 bits, the rest in the top limb. */
  method CarryPass26(t: seq<nat>) returns (s: seq<nat>)
    requires |t| == 10 && forall i :: 0 <= i < 10 ==> t[i] < 0x1_00000000 - 0x40
    ensures |s| == 10 && (forall i :: 0 <= i < 9 ==> s[i] < 0x4000000) && s[9] <= t[9] + 0x40
    ensures Val10(s) == Val10(t)
  {
    hide Low26, High26, Join26, Val10;
    var u0: Word32 := t[0];
    SmallCarry(u0);
    var u1: Word32 := t[1] + High26(u0);
    SmallCarry(u1);
    var u2: Word32 := t[2] + High26(u1);
    SmallCarry(u2);
    var u3: Word32 := t[3] + High26(u2);
    SmallCarry(u3);
    var u4: Word32 := t[4] + High26(u3);
    SmallCarry(u4);
    var u5: Word32 := t[5] + High26(u4);
    SmallCarry(u5);
    var u6: Word32 := t[6] + High26(u5);
    SmallCarry(u6);
    var u7: Word32 := t[7] + High26(u6);
    SmallCarry(u7);
    var u8: Word32 := t[8] + High26(u7);
    SmallCarry(u8);
    var u9: Word32 := t[9] + High26(u8);
    s := [Low26(u0), Low26(u1), Low26(u2), Low26(u3), Low26(u4), Low26(u5), Low26(u6), Low26(u7), Low26(u8), u9];
    Carried(t, s, [High26(u0), High26(u1), High26(u2), High26(u3), High26(u4), High26(u5), High26(u6), High26(u7), High26(u8)]);
  }

  lemma SmallCarry(u: Word32)
    ensures High26(u) < 0x40 && u == Join26(Low26(u), High26(u))
  {
  }

  lemma Carried(t: seq<int>, s: seq<int>, c: seq<int>)
    requires |t| == 10 && |s| == 10 && |c| == 9 && t[0] == Join26(s[0], c[0]) && t[9] + c[8] == s[9]
    requires t[1] + c[0] == Join26(s[1], c[1])
    requires t[2] + c[1] == Join26(s[2], c[2])
    requires t[3] + c[2] == Join26(s[3], c[3])
    requires t[4] + c[3] == Join26(s[4], c[4])
    requires t[5] + c[4] == Join26(s[5], c[5])
    requires t[6] + c[5] == Join26(s[6], c[6])
    requires t[7] + c[6] == Join26(s[7], c[7])
    requires t[8] + c[7] == Join26(s[8], c[8])
    ensures Val10(s) == Val10(t)
  {
  }

  /** The first pass: congruent to the input and below 2 P. */
  method FirstPass26(n: seq<Word32>, ghost m: nat) returns (s: seq<nat>)
    requires WithinMagnitude26(n, m) && m <= 31
    ensures |s| == 10 && (forall i :: 0 <= i < 9 ==> s[i] < 0x4000000) && s[9] < 0x800000 - 1
    ensures Val10(s) == Val10(n) - (n[9] / 0x400000) * P && 0 <= Val10(s) < 2 * P
  {
    hide Val10;
    var x := n[9] / 0x400000;
    var t9 := n[9] % 0x400000;
    var t0: int, t1: int := n[0] + x * 0x3D1, n[1] + x * 0x40;
    s := CarryPass26([t0, t1, n[2], n[3], n[4], n[5], n[6], n[7], n[8], t9]);
    FoldTop26(n, t0, t1, x, t9);
    PassBound26(s);
  }

  lemma FoldTop26(n: seq<int>, t0: int, t1: int, x: int, t9: int)
    requires |n| == 10 && t0 == n[0] + x * 0x3D1 && t1 == n[1] + x * 0x40 && n[9] == x * 0x400000 + t9
    ensures Val10([t0, t1, n[2], n[3], n[4], n[5], n[6], n[7], n[8], t9]) == Val10(n) - x * P
  {
  }

  lemma PassBound26(s: seq<nat>)
    requires |s| == 10 && (forall i :: 0 <= i < 9 ==> s[i] < 0x4000000) && s[9] < 0x800000 - 1
    ensures 0 <= Val10(s) < 2 * P
  {
  }

  predicate AtLeastP26(s: seq<nat>)
    requires |s| == 10
  {
    s[9] / 0x400000 != 0
    || (s[9] == 0x3fffff && s[2] == 0x3ffffff && s[3] == 0x3ffffff && s[4] == 0x3ffffff && s[5] == 0x3ffffff && s[6] == 0x3ffffff && s[7] == 0x3ffffff && s[8] == 0x3ffffff
        && s[1] + 0x40 + (s[0] + 0x3D1) / 0x4000000 > 0x3ffffff)
  }

  lemma AtLeastPExact26(s: seq<nat>)
    requires |s| == 10 && (forall i :: 0 <= i < 9 ==> s[i] < 0x4000000) && s[9] < 0x800000 - 1
    ensures AtLeastP26(s) <==> Val10(s) >= P
  {
    var mid := Join26(s[2], Join26(s[3], Join26(s[4], Join26(s[5], Join26(s[6], Join26(s[7], s[8]))))));
    MidOnes(s, mid);
    LowPart26(s[0], s[1]);
    SplitValue(s, mid);
    hide Val10, Join26;
  }

  lemma SplitValue(s: seq<int>, mid: int)
    requires |s| == 10 && mid == Join26(s[2], Join26(s[3], Join26(s[4], Join26(s[5], Join26(s[6], Join26(s[7], s[8]))))))
    ensures Val10(s) == Join26(s[0], s[1]) + mid * 0x100000_00000000 + s[9] * 0x400_00000000_00000000_00000000_00000000_00000000_00000000_00000000
  {
  }

  lemma MidOnes(s: seq<nat>, mid: int)
    requires |s| == 10 && (forall i :: 0 <= i < 9 ==> s[i] < 0x4000000) && mid == Join26(s[2], Join26(s[3], Join26(s[4], Join26(s[5], Join26(s[6], Join26(s[7], s[8]))))))
    ensures 0 <= mid <= 0x3fffff_ffffffff_ffffffff_ffffffff_ffffffff_ffffffff
    ensures mid == 0x3fffff_ffffffff_ffffffff_ffffffff_ffffffff_ffffffff <==> s[2] == 0x3ffffff && s[3] == 0x3ffffff && s[4] == 0x3ffffff && s[5] == 0x3ffffff && s[6] == 0x3ffffff && s[7] == 0x3ffffff && s[8] == 0x3ffffff
  {
  }

  lemma LowPart26(s0: nat, s1: nat)
    requires s0 < 0x4000000 && s1 < 0x4000000
    ensures s1 + 0x40 + (s0 + 0x3D1) / 0x4000000 > 0x3ffffff <==> Join26(s0, s1) + 0x1000003D1 >= 0x100000_00000000
    ensures 0 <= Join26(s0, s1) < 0x100000_00000000
  {
    var c := (s0 + 0x3D1) / 0x4000000;
    assert c == if s0 + 0x3D1 >= 0x4000000 then 1 else 0;
  }

  /** The second pass adds R0 when the value is at least P and drops bit 256. */
  method SecondPass26(s: seq<nat>, x: nat) returns (r: seq<Word32>)
    requires |s| == 10 && (forall i :: 0 <= i < 9 ==> s[i] < 0x4000000) && s[9] < 0x800000 - 1
    requires x == if Val10(s) >= P then 1 else 0
    ensures Normalized26(r) && Val10(r) == Val10(s) - x * P
  {
    hide Val10, Normalized26;
    PassBound26(s);
    var u := CarryPass26([s[0] + x * 0x3D1, s[1] + x * 0x40, s[2], s[3], s[4], s[5], s[6], s[7], s[8], s[9]]);
    AddR026(s, x);
    TopBit22(u, Val10(s), x);
    MaskedNormal(u, Val10(s) - x * P);
    r := [u[0], u[1], u[2], u[3], u[4], u[5], u[6], u[7], u[8], u[9] % 0x400000];
  }

  lemma MaskedNormal(u: seq<nat>, v: int)
    requires |u| == 10 && (forall i :: 0 <= i < 9 ==> u[i] < 0x4000000) && 0 <= v < P
    requires Val10([u[0], u[1], u[2], u[3], u[4], u[5], u[6], u[7], u[8], u[9] % 0x400000]) == v
    ensures Normalized26([u[0], u[1], u[2], u[3], u[4], u[5], u[6], u[7], u[8], u[9] % 0x400000])
  {
    hide Val10;
  }

  lemma AddR026(s: seq<int>, x: int)
    requires |s| == 10
    ensures Val10([s[0] + x * 0x3D1, s[1] + x * 0x40, s[2], s[3], s[4], s[5], s[6], s[7], s[8], s[9]]) == Val10(s) + x * R0
  {
  }

  lemma TopBit22(u: seq<nat>, v: int, x: nat)
    requires |u| == 10 && (forall i :: 0 <= i < 9 ==> u[i] < 0x4000000) && Val10(u) == v + x * R0
    requires 0 <= v < 2 * P && x == if v >= P then 1 else 0
    ensures u[9] / 0x400000 == x
    ensures Val10([u[0], u[1], u[2], u[3], u[4], u[5], u[6], u[7], u[8], u[9] % 0x400000]) == v - x * P
  {
    var low := Join26(u[0], Join26(u[1], Join26(u[2], Join26(u[3], Join26(u[4], Join26(u[5], Join26(u[6], Join26(u[7], u[8]))))))));
    assert 0 <= low < 0x400_00000000_00000000_00000000_00000000_00000000_00000000_00000000;
    assert Val10(u) == low + u[9] * 0x400_00000000_00000000_00000000_00000000_00000000_00000000_00000000;
    var w := [u[0], u[1], u[2], u[3], u[4], u[5], u[6], u[7], u[8], u[9] % 0x400000];
    assert Val10(w) == low + w[9] * 0x400_00000000_00000000_00000000_00000000_00000000_00000000_00000000;
    hide Val10;
  }

  class Fe26 {
    const n: array<Word32>
    ghost var magnitude: nat
    ghost var normalized: bool

    ghost predicate Valid()
      reads this, n
    {
      n.Length == 10 && magnitude <= 32 && WithinMagnitude26(n[..], magnitude)
      && (normalized ==> magnitude <= 1 && Normalized26(n[..]))
    }

    ghost function Value(): int
      requires n.Length == 10
      reads n
    {
      Val10(n[..])
    }

    method Write(v: seq<Word32>)
      requires |v| == 10 && n.Length == 10
      modifies n
      ensures n[..] == v
    {
      for i := 0 to 10
        invariant n[..i] == v[..i]
      {
        n[i] := v[i];
      }
      assert n[..] == n[..10] == v[..10] == v;
    }

    /** The unique representative in [0, P). */
    method Normalize()
      requires Valid() && magnitude <= 31
      modifies this, n
      ensures Valid() && normalized && Value() == old(Value()) % P
    {
      hide Val10, AtLeastP26, WithinMagnitude26;
      ghost var before := n[..];
      var s := FirstPass26(n[..], magnitude);
      AtLeastPExact26(s);
      var r := SecondPass26(s, if AtLeastP26(s) then 1 else 0);
      Write(r);
      magnitude, normalized := 1, true;
      NormalizedMagnitude26(r);
      NormalValue26(Val10(before), before[9] / 0x400000, Val10(s), Val10(r));
    }

    /** Magnitude 1 without reducing completely. */
    method NormalizeWeak()
      requires Valid() && magnitude <= 31
      modifies this, n
      ensures Valid() && magnitude == 1 && 0 <= Value() < 2 * P && Congruent(Value(), old(Value()), P)
    {
      hide Val10;
      ghost var before := n[..];
      var s := FirstPass26(n[..], magnitude);
      Write(s);
      magnitude, normalized := 1, false;
      ghost var q: int := before[9] / 0x400000;
      MultipleCongruent(Val10(s), Val10(before), P, -q);
    }

    /** Whether the element is zero modulo P. */
    method NormalizesToZero() returns (zero: bool)
      requires Valid() && magnitude <= 31
      ensures zero <==> Value() % P == 0
    {
      hide Val10;
      var s := FirstPass26(n[..], magnitude);
      var z0 := forall i | 0 <= i < 10 :: s[i] == 0;
      var z1 := IsP26(s);
      ZeroOrP26(s);
      MultipleOfP26(Val10(n[..]), n[9] / 0x400000, Val10(s));
      zero := z0 || z1;
    }

    /** Multiplication of elements of magnitude at most 8; the result has magnitude 1. */
    method MulFrom(a: Fe26, b: Fe26)
      requires a.Valid() && b.Valid() && a.magnitude <= 8 && b.magnitude <= 8 && n.Length == 10 && this != b
      modifies this, n
      ensures Valid() && magnitude == 1 && !normalized
      ensures Congruent(Value(), old(a.Value()) * old(b.Value()), P)
    {
      hide Val10, Congruent;
      MulWide26(a.n[..], a.magnitude);
      MulWide26(b.n[..], b.magnitude);
      var r := MulInner26(a.n[..], b.n[..]);
      Write(r);
      magnitude, normalized := 1, false;
    }

    method SqrFrom(a: Fe26)
      requires a.Valid() && a.magnitude <= 8 && n.Length == 10
      modifies this, n
      ensures Valid() && magnitude == 1 && !normalized
      ensures Congruent(Value(), old(a.Value()) * old(a.Value()), P)
    {
      hide Val10, Congruent;
      MulWide26(a.n[..], a.magnitude);
      var r := SqrInner26(a.n[..]);
      Write(r);
      magnitude, normalized := 1, false;
    }
  }

  lemma NormalizedMagnitude26(r: seq<int>)
    requires Normalized26(r)
    ensures WithinMagnitude26(r, 1)
  {
  }

  lemma NormalValue26(v: int, q: int, s: int, r: int)
    requires s == v - q * P && 0 <= r < P && (r == s || r == s - P)
    ensures r == v % P
  {
    DivModUnique(v, P, if r == s then q else q + 1, r);
  }

  lemma MultipleOfP26(v: int, q: int, s: int)
    requires s == v - q * P && 0 <= s < 2 * P
    ensures v % P == 0 <==> s == 0 || s == P
  {
    DivModUnique(v, P, if s < P then q else q + 1, if s < P then s else s - P);
  }

  /** The limbs of P itself. */
  predicate IsP26(s: seq<nat>)
    requires |s| == 10
  {
    s[0] == 0x3ffffff - 0x3D0 && s[1] == 0x3ffffff - 0x40 && s[2] == 0x3ffffff && s[3] == 0x3ffffff && s[4] == 0x3ffffff && s[5] == 0x3ffffff
    && s[6] == 0x3ffffff && s[7] == 0x3ffffff && s[8] == 0x3ffffff && s[9] == 0x3ffffff - 0x3C00000
  }

  lemma ZeroOrP26(s: seq<nat>)
    requires |s| == 10 && (forall i :: 0 <= i < 9 ==> s[i] < 0x4000000) && s[9] < 0x800000 - 1
    ensures Val10(s) == 0 <==> forall i :: 0 <= i < 10 ==> s[i] == 0
    ensures Val10(s) == P <==> IsP26(s)
  {
    var p := [0x3ffffff - 0x3D0, 0x3ffffff - 0x40, 0x3ffffff, 0x3ffffff, 0x3ffffff, 0x3ffffff, 0x3ffffff, 0x3ffffff, 0x3ffffff, 0x3ffffff - 0x3C00000];
    var z := [0, 0, 0, 0, 0, 0, 0, 0, 0, 0];
    assert Val10(p) == P && Val10(z) == 0;
    if Val10(s) == P {
      SameLimbs(s, p);
    }
    if Val10(s) == 0 {
      SameLimbs(s, z);
    }
    if IsP26(s) {
      assert s == p;
    }
    if forall i :: 0 <= i < 10 ==> s[i] == 0 {
      assert s == z;
    }
    hide Val10;
  }

  /** Limbs below 2^26 are determined by the number they stand for. */
  lemma SameLimbs(s: seq<nat>, p: seq<nat>)
    requires |s| == 10 && |p| == 10 && Val10(s) == Val10(p)
    requires forall i :: 0 <= i < 9 ==> s[i] < 0x4000000 && p[i] < 0x4000000
    ensures s == p
  {
    hide Join26;
    JoinUnique26(s[0], Join26(s[1], Join26(s[2], Join26(s[3], Join26(s[4], Join26(s[5], Join26(s[6], Join26(s[7], Join26(s[8], s[9])))))))), p[0], Join26(p[1], Join26(p[2], Join26(p[3], Join26(p[4], Join26(p[5], Join26(p[6], Join26(p[7], Join26(p[8], p[9])))))))));
    JoinUnique26(s[1], Join26(s[2], Join26(s[3], Join26(s[4], Join26(s[5], Join26(s[6], Join26(s[7], Join26(s[8], s[9]))))))), p[1], Join26(p[2], Join26(p[3], Join26(p[4], Join26(p[5], Join26(p[6], Join26(p[7], Join26(p[8], p[9]))))))));
    JoinUnique26(s[2], Join26(s[3], Join26(s[4], Join26(s[5], Join26(s[6], Join26(s[7], Join26(s[8], s[9])))))), p[2], Join26(p[3], Join26(p[4], Join26(p[5], Join26(p[6], Join26(p[7], Join26(p[8], p[9])))))));
    JoinUnique26(s[3], Join26(s[4], Join26(s[5], Join26(s[6], Join26(s[7], Join26(s[8], s[9]))))), p[3], Join26(p[4], Join26(p[5], Join26(p[6], Join26(p[7], Join26(p[8], p[9]))))));
    JoinUnique26(s[4], Join26(s[5], Join26(s[6], Join26(s[7], Join26(s[8], s[9])))), p[4], Join26(p[5], Join26(p[6], Join26(p[7], Join26(p[8], p[9])))));
    JoinUnique26(s[5], Join26(s[6], Join26(s[7], Join26(s[8], s[9]))), p[5], Join26(p[6], Join26(p[7], Join26(p[8], p[9]))));
    JoinUnique26(s[6], Join26(s[7], Join26(s[8], s[9])), p[6], Join26(p[7], Join26(p[8], p[9])));
    JoinUnique26(s[7], Join26(s[8], s[9]), p[7], Join26(p[8], p[9]));
    JoinUnique26(s[8], s[9], p[8], p[9]);
  }

  lemma JoinUnique26(x: nat, h: int, y: nat, k: int)
    requires x < 0x4000000 && y < 0x4000000 && Join26(x, h) == Join26(y, k)
    ensures x == y && h == k
  {
  }
}
