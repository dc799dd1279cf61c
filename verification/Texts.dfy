// Strings of bytes and the order in which they are compared.

module Texts {

  newtype byte = x: int | 0 <= x < 256

  /** A string without its terminating zero. */
  type Text = seq<byte>

  /** Byte by byte, as unsigned numbers; a string comes after its own beginnings. */
  function Compare(a: Text, b: Text): int {
    if a == [] then (if b == [] then 0 else -1)
    else if b == [] then 1
    else if a[0] < b[0] then -1
    else if a[0] > b[0] then 1
    else Compare(a[1..], b[1..])
  }

  lemma {:induction false} CompareSame(a: Text)
    ensures Compare(a, a) == 0
    decreases |a|
  {
    if a != [] {
      CompareSame(a[1..]);
    }
  }

  lemma {:induction false} CompareZero(a: Text, b: Text)
    ensures Compare(a, b) == 0 <==> a == b
    decreases |a|
  {
    if a != [] && b != [] && a[0] == b[0] {
      CompareZero(a[1..], b[1..]);
      assert a == [a[0]] + a[1..] && b == [b[0]] + b[1..];
    }
  }

  lemma {:induction false} CompareFlips(a: Text, b: Text)
    ensures Compare(a, b) == -Compare(b, a)
    decreases |a|
  {
    if a != [] && b != [] && a[0] == b[0] {
      CompareFlips(a[1..], b[1..]);
    }
  }

  lemma {:induction false} CompareChains(a: Text, b: Text, c: Text)
    requires Compare(a, b) < 0 && Compare(b, c) < 0
    ensures Compare(a, c) < 0
    decreases |a|
  {
    if a != [] && b != [] && c != [] && a[0] == b[0] == c[0] {
      CompareChains(a[1..], b[1..], c[1..]);
    }
  }

  /** The strings agree up to k, and there the first one ends, or has the smaller byte. */
  predicate BeforeAt(a: Text, b: Text, k: nat) {
    && k <= |a| && k < |b| && a[..k] == b[..k]
    && (k == |a| || (a[k] as int) < (b[k] as int))
  }

  lemma {:induction false} DiffersAt(a: Text, b: Text) returns (k: nat)
    requires Compare(a, b) < 0
    ensures BeforeAt(a, b, k)
    decreases |a|
  {
    if a == [] || a[0] < b[0] {
      k := 0;
    } else {
      var n := DiffersAt(a[1..], b[1..]);
      k := n + 1;
      assert a[..k] == [a[0]] + a[1..][..n] && b[..k] == [b[0]] + b[1..][..n];
    }
  }

  lemma {:induction false} DiffersIsBefore(a: Text, b: Text, k: nat)
    requires BeforeAt(a, b, k)
    ensures Compare(a, b) < 0
    decreases |a|
  {
    if k > 0 {
      assert a[0] == a[..k][0] == b[..k][0] == b[0];
      assert a[1..][..k - 1] == a[..k][1..] == b[..k][1..] == b[1..][..k - 1];
      DiffersIsBefore(a[1..], b[1..], k - 1);
    }
  }

  /** A string comes before another one if it is a beginning of it, or has the smaller byte where the two first differ. */
  lemma CompareIsLexicographic(a: Text, b: Text)
    ensures Compare(a, b) < 0 <==> exists k: nat :: BeforeAt(a, b, k)
  {
    if Compare(a, b) < 0 {
      var k := DiffersAt(a, b);
    } else if k: nat :| BeforeAt(a, b, k) {
      DiffersIsBefore(a, b, k);
      assert false;
    }
  }

  predicate EndsWith(t: Text, s: Text) {
    |s| <= |t| && t[|t| - |s|..] == s
  }
}
