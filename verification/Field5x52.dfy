/** Field elements in five limbs of 52 bits that may run over by their magnitude: normalization, negation, addition,
    multiplication and the packed storage form. */
module Field5x52 {
  import opened Arith
  import opened FieldProduct

  /** The bounds that a magnitude allows; a normalized element is the representative in [0, P). */
  predicate WithinMagnitude(n: seq<int>, m: nat) {
    |n| == 5 && (forall i :: 0 <= i < 4 ==> 0 <= n[i] <= 2 * m * 0xfffff_ffffffff) && 0 <= n[4] <= 2 * m * 0xffff_ffffffff
  }

  predicate Normalized(n: seq<int>) {
    |n| == 5 && (forall i :: 0 <= i < 4 ==> 0 <= n[i] <= 0xfffff_ffffffff) && 0 <= n[4] <= 0xffff_ffffffff && Val5(n) < P
  }

  lemma MulWide(n: seq<int>, m: nat)
    requires WithinMagnitude(n, m) && m <= 8
    ensures Wide(n)
  {
  }

  /** Normalization first adds the part of the top limb above bit 48, times R0, to the bottom limb. That sum fits
      in 64 bits for every element of magnitude m exactly when m is at most 2047: at the largest permitted
      magnitude, 2048, it can wrap around. */
  lemma FirstSumFits(m: nat)
    ensures m <= 2047 <==> forall n: seq<int> :: WithinMagnitude(n, m) ==> FirstSum(n) < 0x1_00000000_00000000
  {
    if m <= 2047 {
      forall n: seq<int> | WithinMagnitude(n, m)
        ensures FirstSum(n) < 0x1_00000000_00000000
      {
      }
    } else {
      var n := [2 * m * 0xfffff_ffffffff, 0, 0, 0, 2 * m * 0xffff_ffffffff];
      assert WithinMagnitude(n, m);
      assert n[4] / 0x10000_00000000 >= 2 * 2048 - 1;
      assert FirstSum(n) >= 0x1_00000000_00000000;
    }
  }

  function FirstSum(n: seq<int>): int
    requires |n| == 5
  {
    n[0] + (n[4] / 0x10000_00000000) * R0
  }

  /** One pass of carries: four limbs cut to 52 bits, the rest in the top limb. */
  method CarryPass(t0: Word64, t1: nat, t2: nat, t3: nat, t4: nat) returns (s: seq<nat>)
    requires t1 < 0x1_00000000_00000000 - 0x1000 && t2 < 0x1_00000000_00000000 - 0x1000 && t3 < 0x1_00000000_00000000 - 0x1000 && t4 < 0x1_00000000_00000000 - 0x1000
    ensures |s| == 5 && (forall i :: 0 <= i < 4 ==> s[i] < 0x100000_00000000) && s[4] <= t4 + 0x1000
    ensures Val5(s) == Val5([t0, t1, t2, t3, t4])
  {
    hide Low52, High52;
    var u1: Word64 := t1 + High52(t0);
    var u2: Word64 := t2 + High52(u1);
    var u3: Word64 := t3 + High52(u2);
    var u4: Word64 := t4 + High52(u3);
    s := [Low52(t0), Low52(u1), Low52(u2), Low52(u3), u4];
  }

  /** The first pass: below 2^256 plus a little, congruent to the input, hence below 2 P. */
  method FirstPass(n: seq<Word64>, ghost m: nat) returns (s: seq<nat>)
    requires WithinMagnitude(n, m) && m <= 2047
    ensures |s| == 5 && (forall i :: 0 <= i < 4 ==> s[i] < 0x100000_00000000) && s[4] < 0x20000_00000000 - 1
    ensures Val5(s) == Val5(n) - (n[4] / 0x10000_00000000) * P && 0 <= Val5(s) < 2 * P
  {
    hide Val5;
    var x := n[4] / 0x10000_00000000;
    var t4 := n[4] % 0x10000_00000000;
    var t0: int := n[0] + x * R0;
    s := CarryPass(t0, n[1], n[2], n[3], t4);
    FoldTop(n, t0, x, t4);
    PassBound(s);
  }

  lemma FoldTop(n: seq<int>, t0: int, x: int, t4: int)
    requires |n| == 5 && t0 == n[0] + x * R0 && n[4] == x * 0x10000_00000000 + t4
    ensures Val5([t0, n[1], n[2], n[3], t4]) == Val5(n) - x * P
  {
  }

  lemma PassBound(s: seq<nat>)
    requires |s| == 5 && (forall i :: 0 <= i < 4 ==> s[i] < 0x100000_00000000) && s[4] < 0x20000_00000000 - 1
    ensures 0 <= Val5(s) < 2 * P
  {
  }

  /** The comparison with P looks at bit 48 of the top limb, or at all limbs being those of a number of at least P. */
  predicate AtLeastP(s: seq<nat>)
    requires |s| == 5
  {
    s[4] / 0x10000_00000000 != 0
    || (s[4] == 0xffff_ffffffff && s[1] == 0xfffff_ffffffff && s[2] == 0xfffff_ffffffff && s[3] == 0xfffff_ffffffff && s[0] >= 0xFFFFEFFFFFC2F)
  }

  lemma AtLeastPExact(s: seq<nat>)
    requires |s| == 5 && (forall i :: 0 <= i < 4 ==> s[i] < 0x100000_00000000) && s[4] < 0x20000_00000000 - 1
    ensures AtLeastP(s) <==> Val5(s) >= P
  {
  }

  /** The second pass adds R0 when the value is at least P and drops bit 256. */
  method SecondPass(s: seq<nat>, x: nat) returns (r: seq<Word64>)
    requires |s| == 5 && (forall i :: 0 <= i < 4 ==> s[i] < 0x100000_00000000) && s[4] < 0x20000_00000000 - 1
    requires x == if Val5(s) >= P then 1 else 0
    ensures Normalized(r) && Val5(r) == Val5(s) - x * P
  {
    PassBound(s);
    hide Val5;
    var u := CarryPass(s[0] + x * R0, s[1], s[2], s[3], s[4]);
    AddR0(s, x);
    TopBit48(u, Val5(s), x);
    r := [u[0], u[1], u[2], u[3], u[4] % 0x10000_00000000];
  }

  lemma AddR0(s: seq<int>, x: int)
    requires |s| == 5
    ensures Val5([s[0] + x * R0, s[1], s[2], s[3], s[4]]) == Val5(s) + x * R0
  {
  }

  /** Bit 48 of the top limb is set exactly when R0 was added, and dropping it takes off P in all. */
  lemma TopBit48(u: seq<nat>, v: int, x: nat)
    requires |u| == 5 && (forall i :: 0 <= i < 4 ==> u[i] < 0x100000_00000000) && Val5(u) == v + x * R0
    requires 0 <= v < 2 * P && x == if v >= P then 1 else 0
    ensures u[4] / 0x10000_00000000 == x
    ensures Val5([u[0], u[1], u[2], u[3], u[4] % 0x10000_00000000]) == v - x * P
  {
  }

  lemma UniqueRepresentative(v: int, q: int, r: int)
    requires v == r + q * P && 0 <= r < P
    ensures r == v % P
  {
    DivModUnique(v, P, q, r);
  }

  // ----- elements

  class Fe {
    const n: array<Word64>
    ghost var magnitude: nat
    ghost var normalized: bool

    ghost predicate Valid()
      reads this, n
    {
      n.Length == 5 && magnitude <= 2048 && WithinMagnitude(n[..], magnitude)
      && (normalized ==> magnitude <= 1 && Normalized(n[..]))
    }

    /** The number the limbs stand for; the element is that number modulo P. */
    ghost function Value(): int
      requires n.Length == 5
      reads n
    {
      Val5(n[..])
    }

    method Write(v: seq<Word64>)
      requires |v| == 5 && n.Length == 5
      modifies n
      ensures n[..] == v
    {
      n[0], n[1], n[2], n[3], n[4] := v[0], v[1], v[2], v[3], v[4];
    }

    /** The unique representative in [0, P). */
    method Normalize()
      requires Valid() && magnitude <= 2047
      modifies this, n
      ensures Valid() && normalized && Value() == old(Value()) % P
    {
      hide Val5, AtLeastP, WithinMagnitude;
      ghost var before := n[..];
      var s := FirstPass(n[..], magnitude);
      AtLeastPExact(s);
      var r := SecondPass(s, if AtLeastP(s) then 1 else 0);
      Write(r);
      magnitude, normalized := 1, true;
      NormalizedMagnitude(r);
      NormalValue(Val5(before), before[4] / 0x10000_00000000, Val5(s), Val5(r));
    }

    /** The same without the branch-free second pass: it is skipped when the value is already below P. */
    method NormalizeVar()
      requires Valid() && magnitude <= 2047
      modifies this, n
      ensures Valid() && normalized && Value() == old(Value()) % P
    {
      hide Val5, AtLeastP, WithinMagnitude;
      ghost var before := n[..];
      var s := FirstPass(n[..], magnitude);
      AtLeastPExact(s);
      var r := s;
      if AtLeastP(s) {
        r := SecondPass(s, 1);
      } else {
        BelowP(s);
      }
      Write(r);
      magnitude, normalized := 1, true;
      NormalizedMagnitude(r);
      NormalValue(Val5(before), before[4] / 0x10000_00000000, Val5(s), Val5(r));
    }

    /** Magnitude 1 without reducing completely. */
    method NormalizeWeak()
      requires Valid() && magnitude <= 2047
      modifies this, n
      ensures Valid() && magnitude == 1 && 0 <= Value() < 2 * P && Congruent(Value(), old(Value()), P)
    {
      hide Val5;
      ghost var before := n[..];
      var s := FirstPass(n[..], magnitude);
      Write(s);
      magnitude, normalized := 1, false;
      ghost var q: int := before[4] / 0x10000_00000000;
      MultipleCongruent(Val5(s), Val5(before), P, -q);
    }

    /** Whether the element is zero modulo P: after the first pass the value is 0 or P. */
    method NormalizesToZero() returns (zero: bool)
      requires Valid() && magnitude <= 2047
      ensures zero <==> Value() % P == 0
    {
      hide Val5;
      var s := FirstPass(n[..], magnitude);
      var z0 := s[0] == 0 && s[1] == 0 && s[2] == 0 && s[3] == 0 && s[4] == 0;
      var z1 := s[0] == 0xfffff_ffffffff - 0x1000003D0 && s[1] == 0xfffff_ffffffff && s[2] == 0xfffff_ffffffff && s[3] == 0xfffff_ffffffff && s[4] == 0xfffff_ffffffff - 0xF000000000000;
      ZeroOrP(s);
      MultipleOfP(Val5(n[..]), n[4] / 0x10000_00000000, Val5(s));
      zero := z0 || z1;
    }

    /** The same, answered from the bottom limb alone in most cases. */
    method NormalizesToZeroVar() returns (zero: bool)
      requires Valid() && magnitude <= 2047
      ensures zero <==> Value() % P == 0
    {
      hide Val5, Low52;
      var t0 := FirstSum(n[..]);
      var z := Low52(t0);
      ghost var s := FirstPassLow(n[..], magnitude);
      ZeroOrP(s);
      MultipleOfP(Val5(n[..]), n[4] / 0x10000_00000000, Val5(s));
      if z != 0 && z != 0xfffff_ffffffff - 0x1000003D0 {
        return false;
      }
      zero := NormalizesToZero();
    }

    /** The negative: P scaled by 2 (m + 1) minus the element, limb by limb, so that no limb goes below zero. */
    method NegateFrom(a: Fe, m: nat)
      requires a.Valid() && a.magnitude <= m <= 2047 && n.Length == 5
      modifies this, n
      ensures Valid() && magnitude == m + 1 && !normalized
      ensures Congruent(Value(), -old(a.Value()), P)
    {
      hide Val5;
      ghost var v := a.n[..];
      var k := 2 * (m + 1);
      NegateBounds(v, m, k);
      Write([0xFFFFEFFFFFC2F * k - a.n[0], 0xfffff_ffffffff * k - a.n[1], 0xfffff_ffffffff * k - a.n[2], 0xfffff_ffffffff * k - a.n[3], 0xffff_ffffffff * k - a.n[4]]);
      magnitude, normalized := m + 1, false;
      NegateValue(v, n[..], k);
      MultipleCongruent(Val5(n[..]), -Val5(v), P, k);
    }

    /** Limb-wise addition; magnitudes add. */
    method AddTo(a: Fe)
      requires Valid() && a.Valid() && magnitude + a.magnitude <= 2048
      modifies this, n
      ensures Valid() && magnitude == old(magnitude) + old(a.magnitude) && !normalized
      ensures Value() == old(Value()) + old(a.Value())
    {
      hide Val5;
      ghost var x, y, m := n[..], a.n[..], a.magnitude;
      AddBounds(x, magnitude, y, m);
      Write([n[0] + a.n[0], n[1] + a.n[1], n[2] + a.n[2], n[3] + a.n[3], n[4] + a.n[4]]);
      magnitude, normalized := magnitude + m, false;
      AddValue(x, y, n[..]);
    }

    /** Multiplication of elements of magnitude at most 8; the result has magnitude 1. */
    method MulFrom(a: Fe, b: Fe)
      requires a.Valid() && b.Valid() && a.magnitude <= 8 && b.magnitude <= 8 && n.Length == 5 && this != b
      modifies this, n
      ensures Valid() && magnitude == 1 && !normalized
      ensures Congruent(Value(), old(a.Value()) * old(b.Value()), P)
    {
      hide Val5, Congruent;
      MulWide(a.n[..], a.magnitude);
      MulWide(b.n[..], b.magnitude);
      var r := MulInner(a.n[..], b.n[..]);
      Write(r);
      magnitude, normalized := 1, false;
    }

    method SqrFrom(a: Fe)
      requires a.Valid() && a.magnitude <= 8 && n.Length == 5
      modifies this, n
      ensures Valid() && magnitude == 1 && !normalized
      ensures Congruent(Value(), old(a.Value()) * old(a.Value()), P)
    {
      hide Val5, Congruent;
      MulWide(a.n[..], a.magnitude);
      var r := SqrInner(a.n[..]);
      Write(r);
      magnitude, normalized := 1, false;
    }

    /** Order of two normalized elements, from the top limb down. */
    method CmpVar(b: Fe) returns (c: int)
      requires Valid() && b.Valid() && normalized && b.normalized
      ensures c == if Value() > b.Value() then 1 else if Value() < b.Value() then -1 else 0
    {
      var i := 4;
      while i >= 0
        invariant -1 <= i <= 4
        invariant forall k :: i < k < 5 ==> n[k] == b.n[k]
      {
        if n[i] > b.n[i] {
          LimbDecides(n[..], b.n[..], i);
          return 1;
        }
        if n[i] < b.n[i] {
          LimbDecides(b.n[..], n[..], i);
          return -1;
        }
        i := i - 1;
      }
      assert n[..] == b.n[..];
      c := 0;
    }

    /** Packs a normalized element into four 64-bit words. */
    method ToStorage(r: array<Word64>)
      requires Valid() && normalized && r.Length == 4 && r != n
      modifies r
      ensures StorageValue(r[..]) == Value()
    {
      r[0] := Or(n[0], (n[1] % 0x1000) * 0x100000_00000000, 0x100000_00000000);
      r[1] := Or(n[1] / 0x1000, (n[2] % 0x1000000) * 0x100_00000000, 0x100_00000000);
      r[2] := Or(n[2] / 0x1000000, (n[3] % 0x10_00000000) * 0x10000000, 0x10000000);
      r[3] := Or(n[3] / 0x10_00000000, n[4] * 0x10000, 0x10000);
      PackedValue(n[..], r[..]);
    }

    /** Unpacks four words that hold a number below P. */
    method FromStorage(a: seq<Word64>)
      requires |a| == 4 && StorageValue(a) < P && n.Length == 5
      modifies this, n
      ensures Valid() && normalized && magnitude == 1 && Value() == StorageValue(a)
    {
      n[0] := a[0] % 0x100000_00000000;
      n[1] := Or(a[0] / 0x100000_00000000, (a[1] % 0x100_00000000) * 0x1000, 0x1000);
      n[2] := Or(a[1] / 0x100_00000000, (a[2] % 0x10000000) * 0x1000000, 0x1000000);
      n[3] := Or(a[2] / 0x10000000, (a[3] % 0x10000) * 0x10_00000000, 0x10_00000000);
      n[4] := a[3] / 0x10000;
      magnitude, normalized := 1, true;
      UnpackedValue(n[..], a);
      NormalizedMagnitude(n[..]);
    }
  }

  lemma NormalizedMagnitude(r: seq<int>)
    requires Normalized(r)
    ensures WithinMagnitude(r, 1)
  {
  }

  lemma NormalValue(v: int, q: int, s: int, r: int)
    requires s == v - q * P && 0 <= r < P && (r == s || r == s - P)
    ensures r == v % P
  {
    UniqueRepresentative(v, if r == s then q else q + 1, r);
  }

  lemma BelowP(s: seq<nat>)
    requires |s| == 5 && (forall i :: 0 <= i < 4 ==> s[i] < 0x100000_00000000) && s[4] < 0x20000_00000000 - 1 && Val5(s) < P
    ensures Normalized(s)
  {
  }

  lemma ZeroOrP(s: seq<nat>)
    requires |s| == 5 && (forall i :: 0 <= i < 4 ==> s[i] < 0x100000_00000000) && s[4] < 0x20000_00000000 - 1
    ensures Val5(s) == 0 <==> s[0] == 0 && s[1] == 0 && s[2] == 0 && s[3] == 0 && s[4] == 0
    ensures (Val5(s) == P <==>
             s[0] == 0xfffff_ffffffff - 0x1000003D0 && s[1] == 0xfffff_ffffffff && s[2] == 0xfffff_ffffffff && s[3] == 0xfffff_ffffffff && s[4] == 0xfffff_ffffffff - 0xF000000000000)
  {
    var p := [0xfffff_ffffffff - 0x1000003D0, 0xfffff_ffffffff, 0xfffff_ffffffff, 0xfffff_ffffffff, 0xfffff_ffffffff - 0xF000000000000];
    assert Val5(p) == P;
    if Val5(s) == P {
      hide Join;
      JoinUnique(s[0], Join(s[1], Join(s[2], Join(s[3], s[4]))), p[0], Join(p[1], Join(p[2], Join(p[3], p[4]))));
      JoinUnique(s[1], Join(s[2], Join(s[3], s[4])), p[1], Join(p[2], Join(p[3], p[4])));
      JoinUnique(s[2], Join(s[3], s[4]), p[2], Join(p[3], p[4]));
      JoinUnique(s[3], s[4], p[3], p[4]);
    }
  }

  lemma JoinUnique(x: nat, h: int, y: nat, k: int)
    requires x < 0x100000_00000000 && y < 0x100000_00000000 && Join(x, h) == Join(y, k)
    ensures x == y && h == k
  {
  }

  lemma MultipleOfP(v: int, q: int, s: int)
    requires s == v - q * P && 0 <= s < 2 * P
    ensures v % P == 0 <==> s == 0 || s == P
  {
    UniqueRepresentative(v, if s < P then q else q + 1, if s < P then s else s - P);
  }

  /** The result of the first pass, its bottom limb read off directly. */
  lemma FirstPassLow(n: seq<Word64>, m: nat) returns (s: seq<nat>)
    requires WithinMagnitude(n, m) && m <= 2047
    ensures |s| == 5 && (forall i :: 0 <= i < 4 ==> s[i] < 0x100000_00000000) && s[4] < 0x20000_00000000 - 1
    ensures Val5(s) == Val5(n) - (n[4] / 0x10000_00000000) * P && 0 <= Val5(s) < 2 * P && s[0] == Low52(FirstSum(n))
  {
    hide Val5, Low52, High52;
    var x := n[4] / 0x10000_00000000;
    var t0 := FirstSum(n);
    var t1 := n[1] as int + High52(t0);
    var t2 := n[2] as int + High52(t1);
    var t3 := n[3] as int + High52(t2);
    var t4 := n[4] % 0x10000_00000000 + High52(t3);
    s := [Low52(t0), Low52(t1), Low52(t2), Low52(t3), t4];
    FoldTop(n, t0, x, n[4] % 0x10000_00000000);
    CarriedValue(s, [t0, n[1], n[2], n[3], n[4] % 0x10000_00000000], High52(t0), High52(t1), High52(t2), High52(t3));
    PassBound(s);
  }

  lemma CarriedValue(s: seq<int>, t: seq<int>, c0: int, c1: int, c2: int, c3: int)
    requires |s| == 5 && |t| == 5
    requires t[0] == Join(s[0], c0) && t[1] + c0 == Join(s[1], c1) && t[2] + c1 == Join(s[2], c2)
    requires t[3] + c2 == Join(s[3], c3) && t[4] + c3 == s[4]
    ensures Val5(s) == Val5(t)
  {
  }

  lemma NegateBounds(v: seq<int>, m: nat, k: int)
    requires WithinMagnitude(v, m) && k == 2 * (m + 1) && m <= 2047
    ensures 0 <= 0xFFFFEFFFFFC2F * k - v[0] && 0xFFFFEFFFFFC2F * k <= 0xfffff_ffffffff * k < 0x1_00000000_00000000
    ensures v[1] <= 0xfffff_ffffffff * k && v[2] <= 0xfffff_ffffffff * k && v[3] <= 0xfffff_ffffffff * k && v[4] <= 0xffff_ffffffff * k < 0x1_00000000_00000000
  {
  }

  lemma NegateValue(v: seq<int>, r: seq<int>, k: int)
    requires |v| == 5 && |r| == 5
    requires r[0] == 0xFFFFEFFFFFC2F * k - v[0] && r[1] == 0xfffff_ffffffff * k - v[1] && r[2] == 0xfffff_ffffffff * k - v[2]
    requires r[3] == 0xfffff_ffffffff * k - v[3] && r[4] == 0xffff_ffffffff * k - v[4]
    ensures Val5(r) == k * P - Val5(v)
  {
  }

  lemma AddBounds(x: seq<int>, m: nat, y: seq<int>, k: nat)
    requires WithinMagnitude(x, m) && WithinMagnitude(y, k) && m + k <= 2048
    ensures forall i :: 0 <= i < 4 ==> 0 <= x[i] + y[i] <= 2 * (m + k) * 0xfffff_ffffffff < 0x1_00000000_00000000
    ensures 0 <= x[4] + y[4] <= 2 * (m + k) * 0xffff_ffffffff < 0x1_00000000_00000000
  {
  }

  lemma AddValue(x: seq<int>, y: seq<int>, r: seq<int>)
    requires |x| == 5 && |y| == 5 && |r| == 5 && forall i :: 0 <= i < 5 ==> r[i] == x[i] + y[i]
    ensures Val5(r) == Val5(x) + Val5(y)
  {
  }

  lemma LimbDecides(a: seq<int>, b: seq<int>, i: nat)
    requires Normalized(a) && Normalized(b) && i < 5 && a[i] > b[i] && forall k :: i < k < 5 ==> a[k] == b[k]
    ensures Val5(a) > Val5(b)
  {
  }

  function StorageValue(a: seq<int>): int
    requires |a| == 4
  {
    a[0] + 0x1_00000000_00000000 * (a[1] + 0x1_00000000_00000000 * (a[2] + 0x1_00000000_00000000 * a[3]))
  }

  lemma PackedValue(n: seq<int>, r: seq<int>)
    requires |n| == 5 && |r| == 4
    requires r[0] == n[0] + (n[1] % 0x1000) * 0x100000_00000000 && r[1] == n[1] / 0x1000 + (n[2] % 0x1000000) * 0x100_00000000
    requires r[2] == n[2] / 0x1000000 + (n[3] % 0x10_00000000) * 0x10000000 && r[3] == n[3] / 0x10_00000000 + n[4] * 0x10000
    ensures StorageValue(r) == Val5(n)
  {
  }

  lemma UnpackedValue(n: seq<int>, a: seq<Word64>)
    requires |n| == 5 && |a| == 4
    requires n[0] == a[0] % 0x100000_00000000 && n[1] == a[0] / 0x100000_00000000 + (a[1] % 0x100_00000000) * 0x1000
    requires n[2] == a[1] / 0x100_00000000 + (a[2] % 0x10000000) * 0x1000000
    requires n[3] == a[2] / 0x10000000 + (a[3] % 0x10000) * 0x10_00000000 && n[4] == a[3] / 0x10000
    ensures Val5(n) == StorageValue(a)
  {
  }
}
