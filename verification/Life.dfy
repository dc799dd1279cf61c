// Life ranges: the sorted interval lists in which the compiler records where a
// value is alive, and the three routines that work on them in place.

/** Interval lists as values: what they denote and when two of them clash. */
module LifeRanges {
  import opened Wrappers

  // Both ends are inclusive instruction ids.
  datatype Range = Range(start: nat, end: nat)

  type Life = seq<Range>

  ghost predicate Covers(r: Range, id: nat) {
    r.start <= id <= r.end
  }

  /** The list is sorted, its ranges are non-empty, and no two touch. */
  ghost predicate Canonical(life: Life) {
    && (forall i :: 0 <= i < |life| ==> life[i].start <= life[i].end)
    && (forall i, j :: 0 <= i < j < |life| ==> life[i].end + 1 < life[j].start)
  }

  ghost predicate Alive(life: Life, id: nat) {
    exists i :: 0 <= i < |life| && Covers(life[i], id)
  }

  /** The open test: ranges that only touch at an end do not clash. */
  predicate Clash(a: Range, b: Range) {
    a.start < b.end && b.start < a.end
  }

  ghost predicate Overlap(a: Life, b: Life) {
    exists i, j :: 0 <= i < |a| && 0 <= j < |b| && Clash(a[i], b[j])
  }

  /** The two-pointer scan steps over b[j] before it reaches a[i]. */
  ghost predicate Hidden(a: Life, b: Life, i: nat, j: nat)
    requires i < |a| && j < |b|
  {
    exists k :: 0 <= k < i && a[k].start == a[k].end == b[j].start
  }

  ghost predicate VisibleOverlap(a: Life, b: Life) {
    exists i, j :: 0 <= i < |a| && 0 <= j < |b| && Clash(a[i], b[j]) && !Hidden(a, b, i, j)
  }

  /** No one-point range of a starts where a range of b starts. */
  ghost predicate PointsApart(a: Life, b: Life) {
    forall i, j :: 0 <= i < |a| && 0 <= j < |b| ==> !(a[i].start == a[i].end == b[j].start)
  }

  lemma PointsApartShowsAll(a: Life, b: Life)
    requires PointsApart(a, b)
    ensures VisibleOverlap(a, b) <==> Overlap(a, b)
  {
    if Overlap(a, b) {
      var i, j :| 0 <= i < |a| && 0 <= j < |b| && Clash(a[i], b[j]);
      assert !Hidden(a, b, i, j);
    }
  }

  /** Without that premise the scan can miss a real overlap. */
  lemma ScanMissesBehindPoint() returns (a: Life, b: Life)
    ensures Canonical(a) && Canonical(b)
    ensures Overlap(a, b) && !VisibleOverlap(a, b)
  {
    a, b := [Range(3, 3), Range(5, 6)], [Range(3, 8)];
    assert Clash(a[1], b[0]);
    assert a[0].start == a[0].end == b[0].start;
    assert Hidden(a, b, 1, 0);
  }

  /** A range that starts at p begins with an id whose predecessor is not alive. */
  lemma StartsAfterGap(life: Life, i: nat)
    requires Canonical(life) && i < |life|
    ensures Alive(life, life[i].start)
    ensures life[i].start > 0 ==> !Alive(life, life[i].start - 1)
  {
    assert Covers(life[i], life[i].start);
  }

  lemma EndsBeforeGap(life: Life, i: nat)
    requires Canonical(life) && i < |life|
    ensures Alive(life, life[i].end) && !Alive(life, life[i].end + 1)
  {
    assert Covers(life[i], life[i].end);
  }

  /** Two neighbouring ids that are both alive lie in one range. */
  lemma NeighboursShareRange(life: Life, id: nat) returns (i: nat)
    requires Canonical(life) && Alive(life, id) && Alive(life, id + 1)
    ensures i < |life| && Covers(life[i], id) && Covers(life[i], id + 1)
  {
    i :| 0 <= i < |life| && Covers(life[i], id);
    var j :| 0 <= j < |life| && Covers(life[j], id + 1);
  }

  ghost predicate SameIds(a: Life, b: Life) {
    forall id: nat :: Alive(a, id) <==> Alive(b, id)
  }

  lemma TailCanonical(a: Life)
    requires Canonical(a) && a != []
    ensures Canonical(a[1..])
  {
  }

  /** A canonical list is determined by the ids it denotes. */
  lemma {:induction false} CanonicalUnique(a: Life, b: Life)
    requires Canonical(a) && Canonical(b) && SameIds(a, b)
    ensures a == b
    decreases |a|
  {
    if a == [] {
      if b != [] {
        StartsAfterGap(b, 0);
      }
    } else {
      StartsAfterGap(a, 0);
      assert Alive(b, a[0].start);
      StartsAfterGap(b, 0);
      assert Alive(a, b[0].start);
      assert a[0].start == b[0].start;
      EndsBeforeGap(a, 0);
      EndsBeforeGap(b, 0);
      FirstEndAgrees(a, b);
      FirstEndAgrees(b, a);
      assert a[0] == b[0];
      TailCanonical(a);
      TailCanonical(b);
      hide Canonical, Alive;
      forall id: nat ensures Alive(a[1..], id) <==> Alive(b[1..], id) {
        TailIds(a, id);
        TailIds(b, id);
      }
      CanonicalUnique(a[1..], b[1..]);
      assert a == [a[0]] + a[1..] && b == [b[0]] + b[1..];
    }
  }

  lemma FirstEndAgrees(a: Life, b: Life)
    requires Canonical(a) && Canonical(b) && SameIds(a, b) && a != [] && b != []
    requires a[0].start == b[0].start
    ensures b[0].end <= a[0].end
  {
    if a[0].end < b[0].end {
      assert Covers(b[0], a[0].end + 1);
      EndsBeforeGap(a, 0);
    }
  }

  lemma TailIds(a: Life, id: nat)
    requires Canonical(a) && a != []
    ensures Alive(a[1..], id) <==> Alive(a, id) && id > a[0].end
  {
    if Alive(a[1..], id) {
      var i :| 0 <= i < |a[1..]| && Covers(a[1..][i], id);
      assert Covers(a[i + 1], id);
      assert a[0].end + 1 < a[i + 1].start;
    }
    if Alive(a, id) && id > a[0].end {
      var i :| 0 <= i < |a| && Covers(a[i], id);
      assert Covers(a[1..][i - 1], id);
    }
  }

  /** If c denotes at least what b does, clashing with b means clashing with c. */
  lemma OverlapMonotone(a: Life, b: Life, c: Life)
    requires Canonical(b) && Canonical(c)
    requires forall id: nat :: Alive(b, id) ==> Alive(c, id)
    requires Overlap(a, b)
    ensures Overlap(a, c)
  {
    var i, j :| 0 <= i < |a| && 0 <= j < |b| && Clash(a[i], b[j]);
    StartsAfterGap(b, j);
    var k :| 0 <= k < |c| && Covers(c[k], b[j].start);
    if c[k].end < b[j].end {
      EndsBeforeGap(c, k);
      assert Covers(b[j], c[k].end + 1);
    }
    assert Clash(a[i], c[k]);
  }

  lemma AliveConcat(a: Life, b: Life, id: nat)
    ensures Alive(a + b, id) <==> Alive(a, id) || Alive(b, id)
  {
    if Alive(a, id) {
      var k :| 0 <= k < |a| && Covers(a[k], id);
      assert Covers((a + b)[k], id);
    }
    if Alive(b, id) {
      var k :| 0 <= k < |b| && Covers(b[k], id);
      assert Covers((a + b)[|a| + k], id);
    }
  }

  /** What every update of a list comes down to: ranges lo to hi give way to one range r around them. */
  ghost function Splice(was: Life, lo: nat, hi: nat, r: Range): Life
    requires lo <= hi <= |was|
  {
    was[..lo] + ([r] + was[hi..])
  }

  ghost predicate Fits(was: Life, lo: nat, hi: nat, r: Range)
    requires lo <= hi <= |was|
  {
    && r.start <= r.end
    && (lo > 0 ==> was[lo - 1].end + 1 < r.start)
    && (hi < |was| ==> r.end + 1 < was[hi].start)
    && forall k :: lo <= k < hi ==> r.start <= was[k].start && was[k].end <= r.end
  }

  lemma SpliceAt(was: Life, lo: nat, hi: nat, r: Range, k: nat)
    requires lo <= hi <= |was| && k < |Splice(was, lo, hi, r)|
    ensures Splice(was, lo, hi, r)[k] == if k < lo then was[k] else if k == lo then r else was[k - lo - 1 + hi]
  {
  }

  lemma SpliceCanonical(was: Life, lo: nat, hi: nat, r: Range)
    requires Canonical(was) && lo <= hi <= |was| && Fits(was, lo, hi, r)
    ensures Canonical(Splice(was, lo, hi, r))
  {
    var now := Splice(was, lo, hi, r);
    assert |now| == lo + 1 + |was| - hi;
    hide Splice;
    forall k | 0 <= k < |now| ensures now[k].start <= now[k].end {
      SpliceAt(was, lo, hi, r, k);
    }
    forall i, j | 0 <= i < j < |now| ensures now[i].end + 1 < now[j].start {
      SpliceAt(was, lo, hi, r, i);
      SpliceAt(was, lo, hi, r, j);
    }
  }

  lemma AliveParts(was: Life, lo: nat, hi: nat, id: nat)
    requires lo <= hi <= |was|
    ensures Alive(was, id) <==> Alive(was[..lo], id) || Alive(was[lo..hi], id) || Alive(was[hi..], id)
  {
    assert was == was[..hi] + was[hi..];
    assert was[..hi] == was[..lo] + was[lo..hi];
    hide Alive;
    AliveConcat(was[..hi], was[hi..], id);
    AliveConcat(was[..lo], was[lo..hi], id);
  }

  lemma AliveSingle(r: Range, id: nat)
    ensures Alive([r], id) <==> Covers(r, id)
  {
    assert [r][0] == r;
  }

  lemma ReplacedCovered(was: Life, lo: nat, hi: nat, r: Range, id: nat)
    requires Canonical(was) && lo <= hi <= |was| && Fits(was, lo, hi, r) && Alive(was[lo..hi], id)
    ensures Covers(r, id)
  {
    var k :| 0 <= k < hi - lo && Covers(was[lo..hi][k], id);
    assert was[lo..hi][k] == was[lo + k];
  }

  lemma SpliceAlive(was: Life, lo: nat, hi: nat, r: Range, id: nat)
    requires Canonical(was) && lo <= hi <= |was| && Fits(was, lo, hi, r)
    ensures Alive(Splice(was, lo, hi, r), id) <==> Alive(was, id) || Covers(r, id)
  {
    assert Splice(was, lo, hi, r) == was[..lo] + ([r] + was[hi..]);
    hide Alive, Covers, Canonical, Fits, Splice;
    AliveConcat(was[..lo], [r] + was[hi..], id);
    AliveConcat([r], was[hi..], id);
    AliveSingle(r, id);
    AliveParts(was, lo, hi, id);
    if Alive(was[lo..hi], id) {
      ReplacedCovered(was, lo, hi, r, id);
    }
  }

  /** now denotes one id more than was. */
  ghost predicate Added(was: Life, now: Life, s: nat) {
    Canonical(now) && forall id: nat :: Alive(now, id) <==> Alive(was, id) || id == s
  }

  lemma SpliceAdds(was: Life, lo: nat, hi: nat, r: Range, s: nat)
    requires Canonical(was) && lo <= hi <= |was| && Fits(was, lo, hi, r) && Covers(r, s)
    requires forall id: nat :: Covers(r, id) && id != s ==> Alive(was, id)
    ensures Added(was, Splice(was, lo, hi, r), s)
  {
    SpliceCanonical(was, lo, hi, r);
    forall id: nat ensures Alive(Splice(was, lo, hi, r), id) <==> Alive(was, id) || id == s {
      SpliceAlive(was, lo, hi, r, id);
    }
  }

  lemma AlreadyAlive(life: Life, s: nat)
    requires Canonical(life) && Alive(life, s)
    ensures Added(life, life, s)
  {
    hide Alive, Canonical;
  }

  lemma AddByEnd(was: Life, i: nat, s: nat)
    requires Canonical(was) && i < |was| && was[i].end + 1 == s
    requires i + 1 < |was| ==> s + 1 < was[i + 1].start
    ensures Added(was, was[i := was[i].(end := s)], s)
  {
    var r := was[i].(end := s);
    assert forall id: nat :: Covers(r, id) && id != s ==> Covers(was[i], id);
    SpliceAdds(was, i, i + 1, r, s);
    assert was[i := r] == Splice(was, i, i + 1, r);
  }

  lemma AddByStart(was: Life, i: nat, s: nat)
    requires Canonical(was) && i < |was| && was[i].start == s + 1
    requires i > 0 ==> was[i - 1].end + 1 < s
    ensures Added(was, was[i := was[i].(start := s)], s)
  {
    var r := was[i].(start := s);
    assert forall id: nat :: Covers(r, id) && id != s ==> Covers(was[i], id);
    ReplacedIs(was, i, r);
    hide Splice, Added;
    SpliceAdds(was, i, i + 1, r, s);
  }

  lemma ReplacedIs(was: Life, i: nat, r: Range)
    requires i < |was|
    ensures was[i := r] == Splice(was, i, i + 1, r)
  {
  }

  lemma AddByBridge(was: Life, i: nat, s: nat)
    requires Canonical(was) && i + 1 < |was| && was[i].end + 1 == s && s + 1 == was[i + 1].start
    ensures Added(was, was[i := was[i].(end := was[i + 1].end)][..i + 1] + was[i + 2..], s)
  {
    var r := Range(was[i].start, was[i + 1].end);
    assert forall id: nat :: Covers(r, id) && id != s ==> Covers(was[i], id) || Covers(was[i + 1], id);
    SpliceAdds(was, i, i + 2, r, s);
    BridgeIs(was, i, r);
    hide *;
  }

  lemma BridgeIs(was: Life, i: nat, r: Range)
    requires i + 1 < |was|
    ensures was[i := r][..i + 1] + was[i + 2..] == Splice(was, i, i + 2, r)
  {
  }

  lemma AddByInsert(was: Life, i: nat, s: nat)
    requires Canonical(was) && i <= |was|
    requires i > 0 ==> was[i - 1].end + 1 < s
    requires i < |was| ==> s + 1 < was[i].start
    ensures Added(was, was[..i] + [Range(s, s)] + was[i..], s)
  {
    SpliceAdds(was, i, i, Range(s, s), s);
    assert was[..i] + [Range(s, s)] + was[i..] == Splice(was, i, i, Range(s, s));
  }

  /** now denotes the ids of was and those of b. */
  ghost predicate United(was: Life, now: Life, b: Life) {
    Canonical(now) && forall id: nat :: Alive(now, id) <==> Alive(was, id) || Alive(b, id)
  }

  lemma SpliceUnites(was: Life, lo: nat, hi: nat, r: Range, o: Range)
    requires Canonical(was) && lo <= hi <= |was| && Fits(was, lo, hi, r)
    requires r.start <= o.start && o.end <= r.end
    requires forall id: nat :: Covers(r, id) ==> Covers(o, id) || Alive(was, id)
    ensures United(was, Splice(was, lo, hi, r), [o])
  {
    SpliceCanonical(was, lo, hi, r);
    forall id: nat ensures Alive(Splice(was, lo, hi, r), id) <==> Alive(was, id) || Alive([o], id) {
      SpliceAlive(was, lo, hi, r, id);
      assert Alive([o], id) <==> Covers(o, id) by {
        assert [o][0] == o;
      }
    }
  }

  lemma UnitedPrefix(was: Life, mid: Life, now: Life, b: Life, i: nat)
    requires i < |b| && United(was, mid, b[..i]) && United(mid, now, [b[i]])
    ensures United(was, now, b[..i + 1])
  {
    assert b[..i + 1] == b[..i] + [b[i]];
    forall id: nat ensures Alive(now, id) <==> Alive(was, id) || Alive(b[..i + 1], id) {
      AliveConcat(b[..i], [b[i]], id);
    }
  }

  /** r has absorbed ranges lo to hi of was and reaches at most over ids of o or of was. */
  ghost predicate Absorbed(was: Life, lo: nat, hi: nat, r: Range, o: Range) {
    && lo < hi <= |was|
    && r.start <= r.end
    && (lo > 0 ==> was[lo - 1].end + 1 < r.start)
    && (forall k :: lo <= k < hi ==> r.start <= was[k].start && was[k].end <= r.end)
    && (forall id: nat :: Covers(r, id) ==> Covers(o, id) || Alive(was, id))
  }

  lemma AbsorbNext(was: Life, lo: nat, hi: nat, r: Range, o: Range)
    requires Canonical(was) && Absorbed(was, lo, hi, r, o)
    requires hi < |was| && r.end + 1 >= was[hi].start
    ensures Absorbed(was, lo, hi + 1, r.(end := Max(r.end, was[hi].end)), o)
  {
    var r' := r.(end := Max(r.end, was[hi].end));
    assert was[lo].end + 1 < was[hi].start;
    forall id: nat | Covers(r', id) ensures Covers(o, id) || Alive(was, id) {
      assert Covers(r, id) || Covers(was[hi], id);
    }
  }

  /** Entries i and i + 1 made one. */
  function JoinNext(life: Life, i: nat): Life
    requires i + 1 < |life|
  {
    life[..i] + [life[i].(end := Max(life[i].end, life[i + 1].end))] + life[i + 2..]
  }

  lemma SpliceNext(was: Life, lo: nat, hi: nat, r: Range)
    requires lo < hi < |was|
    ensures var now := Splice(was, lo, hi, r);
            && now[lo + 1] == was[hi]
            && JoinNext(now, lo) == Splice(was, lo, hi + 1, r.(end := Max(r.end, was[hi].end)))
  {
    var now := Splice(was, lo, hi, r);
    assert was[hi..] == [was[hi]] + was[hi + 1..];
    assert now == was[..lo] + [r, was[hi]] + was[hi + 1..];
    assert now[..lo] == was[..lo] && now[lo + 2..] == was[hi + 1..];
  }

  /** Entry at, first widened to `entry` on account of o, has swallowed its successors up to hi. */
  ghost predicate Absorbing(was: Life, now: Life, at: nat, hi: nat, entry: Range, o: Range) {
    && at < |now|
    && Absorbed(was, at, hi, now[at], o)
    && now == Splice(was, at, hi, now[at])
    && now[at].start == entry.start && entry.end <= now[at].end
    && (entry == was[at] ==> now == was && hi == at + 1)
  }

  lemma AbsorbStep(was: Life, now: Life, at: nat, hi: nat, entry: Range, o: Range)
    requires Canonical(was) && Absorbing(was, now, at, hi, entry, o)
    requires at + 1 < |now| && now[at].end + 1 >= now[at + 1].start
    ensures Absorbing(was, JoinNext(now, at), at, hi + 1, entry, o)
  {
    SpliceNext(was, at, hi, now[at]);
    AbsorbNext(was, at, hi, now[at], o);
  }

  /** What becomes of an entry that o does not end before. */
  function Widened(entry: Range, o: Range): Range {
    var e := if o.start < entry.start && o.end + 1 >= entry.start then entry.(start := o.start) else entry;
    if o.end > e.end && o.start <= e.end + 1 then e.(end := o.end) else e
  }

  lemma AbsorbFirst(was: Life, at: nat, o: Range)
    requires Canonical(was) && at < |was| && o.start <= o.end
    requires at > 0 ==> was[at - 1].end + 1 < o.start
    requires was[at].start <= o.end + 1
    ensures var r := Widened(was[at], o); Absorbing(was, was[at := r], at, at + 1, r, o)
  {
    var r := Widened(was[at], o);
    forall id: nat | Covers(r, id) ensures Covers(o, id) || Alive(was, id) {
      assert Covers(o, id) || Covers(was[at], id);
    }
    assert was[at := r] == Splice(was, at, at + 1, r);
  }

  /** Nothing more to swallow: either o is in, or it lies after an entry left as it was. */
  lemma AbsorbDone(was: Life, now: Life, at: nat, hi: nat, o: Range)
    requires Canonical(was) && at < |was| && o.start <= o.end && was[at].start <= o.end + 1
    requires Absorbing(was, now, at, hi, Widened(was[at], o), o)
    requires at + 1 < |now| ==> now[at].end + 1 < now[at + 1].start
    ensures o.start > now[at].end ==> now == was && was[at].end + 1 < o.start
    ensures o.start <= now[at].end ==> United(was, now, [o])
    ensures at > 0 ==> now[at - 1] == was[at - 1]
  {
    if o.start <= now[at].end {
      assert hi < |was| ==> now[at + 1] == was[hi];
      SpliceUnites(was, at, hi, now[at], o);
    }
  }

  lemma InsertUnites(was: Life, at: nat, o: Range)
    requires Canonical(was) && at <= |was| && o.start <= o.end
    requires at > 0 ==> was[at - 1].end + 1 < o.start
    requires at < |was| ==> o.end + 1 < was[at].start
    ensures United(was, was[..at] + [o] + was[at..], [o])
  {
    SpliceUnites(was, at, at, o, o);
    assert was[..at] + [o] + was[at..] == Splice(was, at, at, o);
  }
}

/** The value object of the intermediate code, as far as lives and slots go. */
module IrValues {
  import opened LifeRanges

  class IrValue {
    var life: Life
    var locked: bool
    var uniqueLife: bool
    // where the value ends up: a slot, then a position; an argument cell; the cell of results
    var local: nat
    var callParam: bool
    var inReturn: bool
    var codeAddress: nat

    constructor ()
      ensures life == [] && !locked && !uniqueLife && !callParam && !inReturn
    {
      life, locked, uniqueLife := [], false, false;
      local, callParam, inReturn, codeAddress := 0, false, false, 0;
    }

    method Lives(at: nat) returns (r: bool)
      requires Canonical(life)
      ensures r <==> Alive(life, at)
    {
      var i := 0;
      while i < |life|
        invariant i <= |life|
        invariant forall k :: 0 <= k < i ==> !Covers(life[k], at)
      {
        if life[i].start <= at <= life[i].end {
          assert Covers(life[i], at);
          return true;
        }
        if life[i].start > at {
          assert forall k :: i < k < |life| ==> life[i].end + 1 < life[k].start;
          return false;
        }
        i := i + 1;
      }
      r := false;
    }

    method InsertLife(idx: nat, e: Range)
      requires idx <= |life|
      modifies this`life
      ensures life == old(life)[..idx] + [e] + old(life)[idx..]
    {
      life := life[..idx] + [e] + life[idx..];
    }

    method SetAlive(s: nat) returns (grew: bool)
      requires Canonical(life)
      modifies this`life
      ensures Added(old(life), life, s)
      ensures grew <==> !Alive(old(life), s)
      ensures !grew ==> life == old(life)
    {
      hide Alive, Canonical, Covers, Added;
      ghost var was := life;
      var i := 0;
      while i < |life| && life[i].start <= s
        invariant i <= |life|
        invariant forall k :: 0 <= k < i ==> life[k].start <= s
      {
        i := i + 1;
      }
      // i is the first range that starts after s: only the one before it can hold s
      OnlyBefore(life, i, s);
      if i == |life| {
        if i > 0 && life[i - 1].end + 1 == s {
          AddByEnd(life, i - 1, s);
          life := life[i - 1 := life[i - 1].(end := life[i - 1].end + 1)];
          return true;
        }
        if i > 0 && life[i - 1].end >= s {
          AlreadyAlive(life, s);
          return false;
        }
        AddByInsert(life, i, s);
        assert life[..i] + [Range(s, s)] + life[i..] == life + [Range(s, s)];
        life := life + [Range(s, s)];
        return true;
      }
      if i > 0 {
        if life[i - 1].end + 1 == s && life[i].start - 1 == s {
          AddByBridge(life, i - 1, s);
          life := life[i - 1 := life[i - 1].(end := life[i].end)];
          life := life[..i] + life[i + 1..];
          assert life == was[i - 1 := was[i - 1].(end := was[i].end)][..i] + was[i + 1..];
          return true;
        }
        if life[i - 1].end + 1 == s {
          AddByEnd(life, i - 1, s);
          life := life[i - 1 := life[i - 1].(end := life[i - 1].end + 1)];
          return true;
        }
        if life[i - 1].end >= s {
          AlreadyAlive(life, s);
          return false;
        }
      }
      if life[i].start - 1 == s {
        AddByStart(life, i, s);
        life := life[i := life[i].(start := life[i].start - 1)];
        return true;
      }
      AddByInsert(life, i, s);
      InsertLife(i, Range(s, s));
      return true;
    }

    method JoinSuccessor(myi: nat)
      requires myi + 1 < |life|
      modifies this`life
      ensures life == JoinNext(old(life), myi)
    {
      if life[myi].end < life[myi + 1].end {
        life := life[myi := life[myi].(end := life[myi + 1].end)];
      }
      life := life[..myi + 1] + life[myi + 2..];
    }

    /** See if a change to entry myi combines it with the next ranges. */
    method AbsorbSuccessors(myi: nat, ghost pre: Life, ghost entry: Range, ghost o: Range) returns (ghost hi: nat)
      requires Canonical(pre) && Absorbing(pre, life, myi, myi + 1, entry, o)
      modifies this`life
      ensures Absorbing(pre, life, myi, hi, entry, o) && myi < |life|
      ensures myi + 1 < |life| ==> life[myi].end + 1 < life[myi + 1].start
    {
      hi := myi + 1;
      hide Absorbing, Canonical;
      while myi + 1 < |life| && life[myi].end + 1 >= life[myi + 1].start
        invariant Absorbing(pre, life, myi, hi, entry, o)
        decreases |life|
      {
        AbsorbStep(pre, life, myi, hi, entry, o);
        JoinSuccessor(myi);
        hi := hi + 1;
      }
    }

    method Widen(myi: nat, otherlife: Range)
      requires myi < |life|
      modifies this`life
      ensures life == old(life)[myi := Widened(old(life)[myi], otherlife)]
    {
      if otherlife.start < life[myi].start && otherlife.end + 1 >= life[myi].start {
        life := life[myi := life[myi].(start := otherlife.start)];
      }
      if otherlife.end > life[myi].end && otherlife.start <= life[myi].end + 1 {
        life := life[myi := life[myi].(end := otherlife.end)];
      }
    }

    /** One range of the other list, from entry start on; every entry before it ends earlier. */
    method MergeRange(start: nat, otherlife: Range) returns (myi: nat)
      requires Canonical(life) && start < |life| && otherlife.start <= otherlife.end
      requires start > 0 ==> life[start - 1].end + 1 < otherlife.start
      modifies this`life
      ensures United(old(life), life, [otherlife])
      ensures myi < |life| && (myi > 0 ==> life[myi - 1].end <= otherlife.end)
    {
      hide Absorbing, United;
      ghost var pre := life;
      myi := start;
      while true
        invariant life == pre && myi < |life|
        invariant myi > 0 ==> life[myi - 1].end + 1 < otherlife.start
        decreases |life| - myi
      {
        if otherlife.end + 1 < life[myi].start {
          // before the entry
          InsertUnites(pre, myi, otherlife);
          InsertLife(myi, otherlife);
          myi := myi + 1;
          return;
        }
        AbsorbFirst(pre, myi, otherlife);
        Widen(myi, otherlife);
        ghost var hi := AbsorbSuccessors(myi, pre, Widened(pre[myi], otherlife), otherlife);
        AbsorbDone(pre, life, myi, hi, otherlife);
        if otherlife.start > life[myi].end {
          // after the entry
          myi := myi + 1;
          if myi >= |life| {
            InsertUnites(pre, myi, otherlife);
            life := life + [otherlife];
            assert life == pre[..myi] + [otherlife] + pre[myi..];
            return;
          }
          continue;
        }
        return;
      }
    }

    method MergeLife(other: IrValue)
      requires Canonical(life) && Canonical(other.life)
      modifies this`life
      ensures United(old(life), life, old(other.life))
    {
      ghost var was, oth := life, other.life;
      if other.life == [] {
        return;
      }
      if life == [] {
        life := other.life;
        return;
      }
      var myi: nat := 0;
      var i := 0;
      while i < |other.life|
        invariant 0 <= i <= |oth| && other.life == oth && myi < |life|
        invariant United(was, life, oth[..i])
        invariant i < |oth| && myi > 0 ==> life[myi - 1].end + 1 < oth[i].start
      {
        ghost var pre := life;
        var otherlife := other.life[i];
        myi := MergeRange(myi, otherlife);
        UnitedPrefix(was, pre, life, oth, i);
        if other == this {
          CanonicalUnique(life, was);
        }
        i := i + 1;
      }
      assert oth[..|oth|] == oth;
    }
  }

  /** No pair the scan could still report lies before la or before lb. */
  ghost predicate ScannedTo(a: Life, b: Life, la: nat, lb: nat) {
    && la < |a| && lb < |b|
    && (forall k :: 0 <= k < la ==> a[k].start < b[lb].start)
    && forall i, j :: 0 <= i < |a| && 0 <= j < |b| && Clash(a[i], b[j]) && !Hidden(a, b, i, j) ==> la <= i && lb <= j
  }

  lemma AdvanceFirst(a: Life, b: Life, la: nat, lb: nat)
    requires Canonical(a) && Canonical(b) && ScannedTo(a, b, la, lb)
    requires !Clash(a[la], b[lb]) && a[la].start < b[lb].start
    ensures la + 1 < |a| ==> ScannedTo(a, b, la + 1, lb)
    ensures la + 1 == |a| ==> !VisibleOverlap(a, b)
  {
    assert forall j :: lb <= j < |b| ==> b[lb].start <= b[j].start;
  }

  lemma AdvanceSecond(a: Life, b: Life, la: nat, lb: nat)
    requires Canonical(a) && Canonical(b) && ScannedTo(a, b, la, lb)
    requires !Clash(a[la], b[lb]) && b[lb].start <= a[la].start
    ensures lb + 1 < |b| ==> ScannedTo(a, b, la, lb + 1)
    ensures lb + 1 == |b| ==> !VisibleOverlap(a, b)
  {
    assert forall i :: la <= i < |a| ==> a[la].start <= a[i].start;
    assert a[la].start < b[lb].end ==> forall i :: la < i < |a| ==> Hidden(a, b, i, lb);
    assert lb + 1 < |b| ==> b[lb].end + 1 < b[lb + 1].start;
  }

  method ValuesOverlap(a: IrValue, b: IrValue) returns (r: bool)
    requires Canonical(a.life) && Canonical(b.life)
    ensures r <==> VisibleOverlap(a.life, b.life)
  {
    if a.life == [] || b.life == [] {
      return false;
    }
    var la, lb := 0, 0;
    while true
      invariant ScannedTo(a.life, b.life, la, lb)
      decreases |a.life| - la + |b.life| - lb
    {
      if a.life[la].start < b.life[lb].end && b.life[lb].start < a.life[la].end {
        assert Clash(a.life[la], b.life[lb]) && !Hidden(a.life, b.life, la, lb);
        return true;
      }
      if a.life[la].start < b.life[lb].start {
        AdvanceFirst(a.life, b.life, la, lb);
        la := la + 1;
        if la == |a.life| {
          break;
        }
      } else {
        AdvanceSecond(a.life, b.life, la, lb);
        lb := lb + 1;
        if lb == |b.life| {
          break;
        }
      }
    }
    r := false;
  }

  lemma OnlyBefore(life: Life, i: nat, s: nat)
    requires Canonical(life) && i <= |life|
    requires forall k :: 0 <= k < i ==> life[k].start <= s
    requires i < |life| ==> s < life[i].start
    ensures Alive(life, s) <==> i > 0 && s <= life[i - 1].end
  {
    if Alive(life, s) {
      var k :| 0 <= k < |life| && Covers(life[k], s);
    }
    if i > 0 && s <= life[i - 1].end {
      assert Covers(life[i - 1], s);
    }
  }
}
