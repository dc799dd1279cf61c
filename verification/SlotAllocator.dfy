// Slots: cells shared by values whose lives do not clash.

module SlotAllocator {
  import opened Wrappers
  import opened LifeRanges
  import opened IrValues
  import opened Interference
  import opened Sums

  /** One slot: its life is the union of its occupants' lives, no two of which clash. */
  ghost predicate SlotHolds(lives: seq<Life>, need: seq<nat>, occupants: set<nat>, life: Life, size: nat, unique: bool) {
    && |need| == |lives|
    && UnionOf(lives, occupants, life)
    && (forall u :: u in occupants ==> need[u] <= size)
    && (exists u :: u in occupants && u < |need| && need[u] == size)
    && (forall u, w :: u in occupants && w in occupants && u != w ==> !Overlap(lives[u], lives[w]) && !unique)
  }

  lemma NewSlotHolds(lives: seq<Life>, need: seq<nat>, v: nat, life: Life, unique: bool)
    requires |need| == |lives| && v < |lives| && Canonical(lives[v]) && life == lives[v]
    ensures SlotHolds(lives, need, {v}, life, need[v], unique)
  {
    forall id: nat ensures Alive(life, id) <==> AliveSomewhere(lives, {v}, id) {
      assert v in {v};
    }
    assert v in {v} && need[v] == need[v];
  }

  lemma SharedSlotHolds(lives: seq<Life>, need: seq<nat>, occupants: set<nat>, life: Life, size: nat, v: nat, life': Life, size': nat)
    requires SlotHolds(lives, need, occupants, life, size, false) && v < |lives| && v !in occupants
    requires forall w :: 0 <= w < |lives| ==> Canonical(lives[w])
    requires !Overlap(lives[v], life) && United(life, life', lives[v])
    requires size' == (if size < need[v] then need[v] else size)
    ensures SlotHolds(lives, need, occupants + {v}, life', size', false)
  {
    forall id: nat ensures Alive(life', id) <==> AliveSomewhere(lives, occupants + {v}, id) {
      if AliveSomewhere(lives, occupants, id) {
        var u :| u in occupants && u < |lives| && Alive(lives[u], id);
        assert u in occupants + {v};
      }
      assert v in occupants + {v};
    }
    forall u | u in occupants ensures !Overlap(lives[v], lives[u]) && !Overlap(lives[u], lives[v]) {
      ApartFromOccupants(lives, v, occupants, life, u);
    }
    var u :| u in occupants && u < |need| && need[u] == size;
    assert u in occupants + {v} && v in occupants + {v};
  }

  /** Slot a is one that a value of this life and size may share. */
  ghost predicate Takes(life: Life, size: nat, nparams: nat, a: nat, slot: Life, slotSize: nat, unique: bool) {
    !unique && !(a < nparams && slotSize < size) && !Overlap(life, slot)
  }

  /** The occupants once v has gone into slot a, an old one or the next new one. */
  ghost function Placed(occupants: seq<set<nat>>, v: nat, a: nat): seq<set<nat>> {
    if a < |occupants| then occupants[a := occupants[a] + {v}] else occupants + [{v}]
  }

  /** Slots lie one after the other. */
  ghost predicate LaidOut(positions: seq<nat>, sizes: seq<nat>) {
    |positions| == |sizes| && forall a :: 0 <= a < |sizes| ==> positions[a] == Sum(sizes[..a])
  }

  /** Two slots never share a cell, and all of them fit into the reported total. */
  lemma SlotsApart(positions: seq<nat>, sizes: seq<nat>, a: nat, c: nat)
    requires LaidOut(positions, sizes) && a < |sizes| && c < |sizes| && a != c
    ensures positions[a] + sizes[a] <= positions[c] || positions[c] + sizes[c] <= positions[a]
    ensures positions[a] + sizes[a] <= Sum(sizes)
  {
    if a < c {
      SumGrows(sizes, a, c);
    } else {
      SumGrows(sizes, c, a);
    }
    SumGrows(sizes, a, |sizes|);
    assert sizes[..|sizes|] == sizes;
  }

  class FunctionAllocator {
    var locals: seq<IrValue>
    var sizes: seq<nat>
    var positions: seq<nat>
    var unique: seq<bool>
    ghost var occupants: seq<set<nat>>

    ghost predicate Lengths()
      reads this`locals, this`sizes, this`unique, this`occupants
    {
      && |locals| == |sizes| == |unique| == |occupants|
      && forall a, c :: 0 <= a < c < |locals| ==> locals[a] != locals[c]
    }

    ghost predicate Valid(lives: seq<Life>, need: seq<nat>)
      reads this`locals, this`sizes, this`unique, this`occupants, locals`life
    {
      && Lengths()
      && (forall w :: 0 <= w < |lives| ==> Canonical(lives[w]))
      && (forall a :: 0 <= a < |locals| ==>
            SlotHolds(lives, need, occupants[a], locals[a].life, sizes[a], unique[a]))
      && (forall a, c :: 0 <= a < c < |occupants| ==> occupants[a] !! occupants[c])
    }

    constructor ()
      ensures locals == [] && sizes == [] && positions == [] && unique == [] && occupants == []
    {
      locals, sizes, positions, unique, occupants := [], [], [], [], [];
    }

    /** A slot of its own for v. */
    method Alloc(v: nat, value: IrValue, size: nat, ghost lives: seq<Life>, ghost need: seq<nat>)
      returns (at: nat)
      requires Valid(lives, need) && |need| == |lives| && v < |lives|
      requires value.life == lives[v] && size == need[v] && value !in locals
      requires forall a :: 0 <= a < |occupants| ==> v !in occupants[a]
      modifies this`locals, this`sizes, this`unique, this`occupants
      ensures Valid(lives, need)
      ensures occupants == old(occupants) + [{v}] && sizes == old(sizes) + [size]
      ensures unique == old(unique) + [value.uniqueLife]
      ensures |locals| == |old(locals)| + 1 && locals[..|old(locals)|] == old(locals) && fresh(locals[|old(locals)|])
      ensures at == |old(locals)|
    {
      at := |locals|;
      var slot := new IrValue();
      slot.MergeLife(value);
      assert slot.life == lives[v] by {
        CanonicalUnique(slot.life, lives[v]);
      }
      NewSlotHolds(lives, need, v, slot.life, value.uniqueLife);
      locals, sizes, unique := locals + [slot], sizes + [size], unique + [value.uniqueLife];
      occupants := occupants + [{v}];
    }

    /** The first slot v fits into, or a new one. Slots of parameters are never resized. */
    method Assign(v: nat, value: IrValue, size: nat, nparams: nat, ghost lives: seq<Life>, ghost need: seq<nat>)
      returns (at: nat)
      requires Valid(lives, need) && |need| == |lives| && v < |lives|
      requires value.life == lives[v] && size == need[v] && value !in locals
      requires forall a :: 0 <= a < |occupants| ==> v !in occupants[a]
      requires forall a :: 0 <= a < |locals| ==> PointsApart(lives[v], locals[a].life)
      modifies this`locals, this`sizes, this`unique, this`occupants, locals`life
      ensures Valid(lives, need)
      ensures at <= |old(occupants)| && occupants == Placed(old(occupants), v, at)
      ensures value.uniqueLife ==> at == |old(occupants)|
      ensures !value.uniqueLife ==> forall c :: 0 <= c < at ==>
        !Takes(lives[v], size, nparams, c, old(locals[c].life), old(sizes)[c], old(unique)[c])
      ensures at < |old(occupants)| ==> Takes(lives[v], size, nparams, at, old(locals[at].life), old(sizes)[at], old(unique)[at])
      ensures sizes == if at < |old(sizes)| then old(sizes)[at := Max(old(sizes)[at], size)] else old(sizes) + [size]
      ensures unique == if at < |old(unique)| then old(unique) else old(unique) + [value.uniqueLife]
      ensures |sizes| == |occupants| && |old(sizes)| == |old(occupants)| == |old(locals)| == |old(unique)|
      ensures |locals| >= |old(locals)| && locals[..|old(locals)|] == old(locals)
      ensures forall a :: |old(locals)| <= a < |locals| ==> fresh(locals[a])
      ensures forall a :: 0 <= a < |old(sizes)| && a < nparams ==> sizes[a] == old(sizes)[a]
    {
      hide SlotHolds, Canonical, PointsApart, VisibleOverlap, Overlap;
      if value.uniqueLife {
        at := Alloc(v, value, size, lives, need);
        return;
      }
      for a := 0 to |locals|
        invariant Valid(lives, need) && value.life == lives[v]
        invariant locals == old(locals) && sizes == old(sizes) && unique == old(unique) && occupants == old(occupants)
        invariant forall c :: 0 <= c < |locals| ==> locals[c].life == old(locals[c].life)
        invariant forall c :: 0 <= c < a ==> !Takes(lives[v], size, nparams, c, old(locals[c].life), sizes[c], unique[c])
      {
        if unique[a] {
          continue;
        }
        if a < nparams && sizes[a] < size {
          continue;
        }
        PointsApartShowsAll(lives[v], locals[a].life);
        SlotCanonical(lives, need, a);
        var overlap := ValuesOverlap(value, locals[a]);
        if overlap {
          continue;
        }
        Join(a, v, value, size, lives, need);
        return a;
      }
      at := Alloc(v, value, size, lives, need);
    }

    method Join(a: nat, v: nat, value: IrValue, size: nat, ghost lives: seq<Life>, ghost need: seq<nat>)
      requires Valid(lives, need) && |need| == |lives| && v < |lives| && a < |locals| && !unique[a]
      requires value.life == lives[v] && size == need[v] && value !in locals
      requires forall c :: 0 <= c < |occupants| ==> v !in occupants[c]
      requires PointsApart(lives[v], locals[a].life) && !VisibleOverlap(lives[v], locals[a].life)
      modifies this`sizes, this`occupants, {locals[a]}`life
      ensures Valid(lives, need)
      ensures occupants == old(occupants)[a := old(occupants)[a] + {v}]
      ensures sizes == old(sizes)[a := if old(sizes)[a] < size then size else old(sizes)[a]]
    {
      hide SlotHolds, Canonical, Alive, Overlap, VisibleOverlap, PointsApart;
      PointsApartShowsAll(lives[v], locals[a].life);
      ghost var was := locals[a].life;
      SlotCanonical(lives, need, a);
      locals[a].MergeLife(value);
      SharedSlotHolds(lives, need, occupants[a], was, sizes[a], v, locals[a].life, if sizes[a] < size then size else sizes[a]);
      if sizes[a] < size {
        sizes := sizes[a := size];
      }
      occupants := occupants[a := occupants[a] + {v}];
    }

    lemma SlotCanonical(lives: seq<Life>, need: seq<nat>, a: nat)
      requires Valid(lives, need) && a < |locals|
      ensures SlotHolds(lives, need, occupants[a], locals[a].life, sizes[a], unique[a]) && Canonical(locals[a].life)
    {
    }

    /** Each slot starts where the one before it ends. */
    method Layout() returns (total: nat)
      requires positions == []
      modifies this`positions
      ensures |positions| >= |sizes| && positions != []
      ensures LaidOut(positions[..|sizes|], sizes) && total == Sum(sizes)
    {
      positions := [0];
      total := 0;
      if sizes != [] {
        var pos := positions[0];
        var i := 1;
        while i < |sizes|
          invariant 1 <= i <= |sizes| && |positions| == i && pos == positions[i - 1]
          invariant forall a :: 0 <= a < i ==> positions[a] == Sum(sizes[..a])
        {
          pos := positions[i - 1] + sizes[i - 1];
          assert sizes[..i][..i - 1] == sizes[..i - 1];
          positions := positions + [pos];
          i := i + 1;
        }
        total := pos + sizes[|sizes| - 1];
        assert positions[..|sizes|] == positions;
      }
    }
  }
}
