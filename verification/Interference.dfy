// What the computed lives mean for sharing a slot: values that would disturb
// each other clash, and the overlap scan never misses a clash between them.

module Interference {
  import opened Ir
  import opened Liveness
  import opened LifeRanges

  /** The life lists say what the facts say. */
  ghost predicate Denotes(f: Facts, lives: seq<Life>) {
    && (forall v :: 0 <= v < |lives| ==> Canonical(lives[v]))
    && (forall v: nat, id: nat :: (v, id) in f.alive <==> v < |lives| && Alive(lives[v], id))
  }

  /** And so are the life lists. */
  lemma LivesUnique(f: Facts, a: seq<Life>, b: seq<Life>)
    requires Denotes(f, a) && Denotes(f, b) && |a| == |b|
    ensures a == b
  {
    forall v | 0 <= v < |a| ensures a[v] == b[v] {
      hide Canonical, Alive;
      assert SameIds(a[v], b[v]) by {
        forall id: nat ensures Alive(a[v], id) <==> Alive(b[v], id) {
          assert (v, id) in f.alive <==> Alive(a[v], id);
        }
      }
      CanonicalUnique(a[v], b[v]);
    }
  }

  /** a alive around p, b alive at p: the open test sees it. */
  lemma AroundClashes(a: Life, b: Life, p: nat)
    requires Canonical(a) && Canonical(b) && p > 0
    requires Alive(a, p - 1) && Alive(a, p) && Alive(a, p + 1) && Alive(b, p)
    ensures Overlap(a, b) && Overlap(b, a)
  {
    var i := NeighboursShareRange(a, p - 1);
    var k := NeighboursShareRange(a, p);
    var j :| 0 <= j < |b| && Covers(b[j], p);
    assert Clash(a[i], b[j]) && Clash(b[j], a[i]);
  }

  /** The only terminator that writes is a call that never returns; nothing is live after it. */
  lemma NothingAfterLastWrite(fn: Func, living: Living, b: nat, i: nat, v: nat)
    requires WellFormed(fn) && |living| == |fn.blocks| && At(fn, b, i)
    requires WellFormedInstr(fn, fn.blocks[b].instrs[i]) && v in Defs(fn, fn.blocks[b].instrs[i])
    ensures i + 1 == |fn.blocks[b].instrs| ==> LiveBefore(fn, living, b, i + 1) == {}
  {
    assert WellFormedBlock(fn, fn.blocks[b]);
    if i + 1 == |fn.blocks[b].instrs| {
      assert fn.blocks[b].exits == [];
    }
  }

  /** Writing v while another value is still wanted afterwards: the two clash. */
  lemma LiveAcrossWriteClashes(fn: Func, f: Facts, locked0: set<nat>, lives: seq<Life>, b: nat, i: nat, u: nat, v: nat)
    requires Shape(fn, f) && Solved(fn, f, locked0) && Denotes(f, lives) && At(fn, b, i)
    requires v in Defs(fn, fn.blocks[b].instrs[i]) && u in LiveBefore(fn, f.living, b, i + 1) && u != v
    ensures u < |lives| && v < |lives| && Overlap(lives[u], lives[v]) && Overlap(lives[v], lives[u])
  {
    var ins := fn.blocks[b].instrs[i];
    assert WellFormedBlock(fn, fn.blocks[b]) && WellFormedInstr(fn, ins);
    if u in Defs(fn, ins) {
      OneDef(fn, ins, u, v);
    }
    hide Solved;
    NothingAfterLastWrite(fn, f.living, b, i, v);
    LiveReachesBack(fn, f, locked0, b, i, u);
    LiveReachesBack(fn, f, locked0, b, i + 1, u);
    LiveIsAlive(fn, f, locked0, b, i, v);
    AroundClashes(lives[u], lives[v], InstrId(fn, b, i));
  }

  /** An operand the engine may read again clashes with the result. */
  lemma HeldClashesWithResult(fn: Func, f: Facts, locked0: set<nat>, lives: seq<Life>, b: nat, i: nat, u: nat, v: nat)
    requires Shape(fn, f) && Solved(fn, f, locked0) && Denotes(f, lives) && At(fn, b, i)
    requires WellFormedInstr(fn, fn.blocks[b].instrs[i])
    requires v in Defs(fn, fn.blocks[b].instrs[i])
    requires u in Held(fn.blocks[b].instrs[i]) && fn.Owned(u) && u != v
    ensures u < |lives| && v < |lives| && Overlap(lives[u], lives[v]) && Overlap(lives[v], lives[u])
  {
    var ins := fn.blocks[b].instrs[i];
    HeldAreUsed(fn, ins, u);
    hide Solved;
    LiveReachesBack(fn, f, locked0, b, i, u);
    assert RecordedAt(fn, f.living, b, i, u, InstrId(fn, b, i) + 1);
    RecordedIsAlive(fn, f, locked0, b, u, InstrId(fn, b, i) + 1);
    LiveIsAlive(fn, f, locked0, b, i, v);
    AroundClashes(lives[u], lives[v], InstrId(fn, b, i));
  }

  /** slot denotes the union of the lives of its occupants. */
  ghost predicate UnionOf(lives: seq<Life>, occupants: set<nat>, slot: Life) {
    && Canonical(slot)
    && (forall u :: u in occupants ==> u < |lives|)
    && forall id: nat :: Alive(slot, id) <==> AliveSomewhere(lives, occupants, id)
  }

  ghost predicate AliveSomewhere(lives: seq<Life>, occupants: set<nat>, id: nat) {
    exists u :: u in occupants && u < |lives| && Alive(lives[u], id)
  }

  /** A one-point life is a dead write, and each id writes one value: so v never starts,
      as a point, where a range of a slot it does not occupy starts. */
  lemma PointsApartFromSlot(fn: Func, f: Facts, locked0: set<nat>, lives: seq<Life>, v: nat, occupants: set<nat>, slot: Life)
    requires Shape(fn, f) && Solved(fn, f, locked0) && Denotes(f, lives) && UnionOf(lives, occupants, slot)
    requires v < |lives| && fn.Owned(v) && v >= fn.nparams && v !in occupants
    requires forall u :: u in occupants ==> fn.Owned(u)
    ensures PointsApart(lives[v], slot)
  {
    forall i, j | 0 <= i < |lives[v]| && 0 <= j < |slot|
      ensures !(lives[v][i].start == lives[v][i].end == slot[j].start)
    {
      PointIsNoStart(fn, f, locked0, lives, v, occupants, slot, i, j);
    }
  }

  lemma PointIsNoStart(fn: Func, f: Facts, locked0: set<nat>, lives: seq<Life>, v: nat, occupants: set<nat>, slot: Life,
                       i: nat, j: nat)
    requires Shape(fn, f) && Solved(fn, f, locked0) && Denotes(f, lives) && UnionOf(lives, occupants, slot)
    requires v < |lives| && fn.Owned(v) && v >= fn.nparams && v !in occupants
    requires forall u :: u in occupants ==> fn.Owned(u)
    requires i < |lives[v]| && j < |slot|
    ensures !(lives[v][i].start == lives[v][i].end == slot[j].start)
  {
    var p := slot[j].start;
    if lives[v][i].start == lives[v][i].end == p {
      StartsAfterGap(lives[v], i);
      EndsBeforeGap(lives[v], i);
      StartsAfterGap(slot, j);
      var u := StartOfOccupant(f, lives, occupants, slot, p);
      hide Solved, Denotes, UnionOf, Overlap, Canonical;
      var b, k := StartIsWrite(fn, f, locked0, v, p);
      NotAnEntry(fn, b, k, p);
      var c, l := StartIsWrite(fn, f, locked0, u, p);
      BlockOfId(fn, b, c, p);
    }
  }

  lemma StartOfOccupant(f: Facts, lives: seq<Life>, occupants: set<nat>, slot: Life, p: nat) returns (u: nat)
    requires Denotes(f, lives) && UnionOf(lives, occupants, slot)
    requires Alive(slot, p) && (p > 0 ==> !Alive(slot, p - 1))
    ensures u in occupants && (u, p) in f.alive && (p > 0 ==> (u, p - 1) !in f.alive)
  {
    u :| u in occupants && u < |lives| && Alive(lives[u], p);
    assert p > 0 ==> !AliveSomewhere(lives, occupants, p - 1);
  }

  lemma NotAnEntry(fn: Func, b: nat, i: nat, id: nat)
    requires WellFormed(fn) && At(fn, b, i) && id == InstrId(fn, b, i)
    ensures !IsEntry(fn, id) && WellFormedInstr(fn, fn.blocks[b].instrs[i])
  {
    assert WellFormedBlock(fn, fn.blocks[b]);
    if c :| 0 <= c < |fn.blocks| && EntryId(fn, c) == id {
      BlockOfId(fn, b, c, id);
    }
  }

  /** A value that does not clash with a slot clashes with none of its occupants. */
  lemma ApartFromOccupants(lives: seq<Life>, v: nat, occupants: set<nat>, slot: Life, u: nat)
    requires v < |lives| && (forall w :: 0 <= w < |lives| ==> Canonical(lives[w]))
    requires UnionOf(lives, occupants, slot) && u in occupants && !Overlap(lives[v], slot)
    ensures !Overlap(lives[v], lives[u]) && !Overlap(lives[u], lives[v])
  {
    forall id: nat | Alive(lives[u], id) ensures Alive(slot, id) {
      assert AliveSomewhere(lives, occupants, id);
    }
    if Overlap(lives[v], lives[u]) {
      OverlapMonotone(lives[v], lives[u], slot);
    }
    OverlapSymmetric(lives[u], lives[v]);
  }

  lemma OverlapSymmetric(a: Life, b: Life)
    ensures Overlap(a, b) ==> Overlap(b, a)
  {
    if Overlap(a, b) {
      var i, j :| 0 <= i < |a| && 0 <= j < |b| && Clash(a[i], b[j]);
      assert Clash(b[j], a[i]);
    }
  }
}
