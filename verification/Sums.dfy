// Sizes laid end to end.

module Sums {

  function Sum(sizes: seq<nat>): nat {
    if sizes == [] then 0 else Sum(sizes[..|sizes| - 1]) + sizes[|sizes| - 1]
  }

  lemma {:induction false} SumPrefix(sizes: seq<nat>, k: nat)
    requires k < |sizes|
    ensures Sum(sizes[..k]) + sizes[k] == Sum(sizes[..k + 1]) <= Sum(sizes)
    decreases |sizes|
  {
    assert sizes[..k + 1][..k] == sizes[..k];
    if k + 1 == |sizes| {
      assert sizes[..k + 1] == sizes;
    } else {
      var front := sizes[..|sizes| - 1];
      SumPrefix(front, k);
      assert front[..k] == sizes[..k] && front[..k + 1] == sizes[..k + 1];
    }
  }

  /** What starts at position a ends before what starts at a later position c. */
  lemma {:induction false} SumGrows(sizes: seq<nat>, a: nat, c: nat)
    requires a < c <= |sizes|
    ensures Sum(sizes[..a]) + sizes[a] <= Sum(sizes[..c])
    decreases c
  {
    SumPrefix(sizes, c - 1);
    if a + 1 < c {
      SumGrows(sizes, a, c - 1);
    }
  }
}
