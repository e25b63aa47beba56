/** Octets and the numbers they stand for. */
module Octets {
  type Octet = x: int | 0 <= x < 0x100 witness 0

  function LittleEndian(b: seq<Octet>): nat {
    if |b| == 0 then 0 else b[0] + 0x100 * LittleEndian(b[1..])
  }
}

/** Messages that arrive in pieces. */
module Messages {
  function Concat<T>(parts: seq<seq<T>>): seq<T> {
    if |parts| == 0 then [] else Concat(parts[..|parts| - 1]) + parts[|parts| - 1]
  }

  lemma ConcatSnoc<T>(parts: seq<seq<T>>, i: nat)
    requires i < |parts|
    ensures Concat(parts[..i + 1]) == Concat(parts[..i]) + parts[i]
  {
    assert parts[..i + 1][..i] == parts[..i];
  }

  lemma {:induction false} Prefixes<T>(parts: seq<seq<T>>, i: nat)
    requires i <= |parts|
    ensures |Concat(parts[..i])| <= |Concat(parts)|
  {
    if i == |parts| {
      assert parts[..i] == parts;
    } else {
      Prefixes(parts[..|parts| - 1], i);
      assert parts[..|parts| - 1][..i] == parts[..i];
    }
  }
}
