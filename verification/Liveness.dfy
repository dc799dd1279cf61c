// What the backward pass over the graph computes, stated without the passes:
// the equations its result solves, what those mean for paths, and why the
// iteration can only stop at a solution.

module Liveness {
  import opened Ir

  // The three things the passes change: which value is alive at which id,
  // which values are locked, and the set of living values at each block.
  datatype Facts = Facts(alive: set<(nat, nat)>, locked: set<nat>, living: Living)

  // ----- what a visit of block b records -----

  ghost predicate RecordedAt(fn: Func, living: Living, b: nat, i: nat, v: nat, id: nat)
    requires WellFormed(fn) && |living| == |fn.blocks| && At(fn, b, i)
  {
    var ins := fn.blocks[b].instrs[i];
    assert WellFormedInstr(fn, ins);
    || (id == InstrId(fn, b, i) && (v in LiveBefore(fn, living, b, i) || v in Defs(fn, ins)))
    || (id == InstrId(fn, b, i) + 1 && v in Held(ins))
  }

  ghost predicate Recorded(fn: Func, living: Living, b: nat, v: nat, id: nat)
    requires WellFormed(fn) && |living| == |fn.blocks| && b < |fn.blocks|
  {
    || (id == EntryId(fn, b) && v in LiveBefore(fn, living, b, 0))
    || exists i :: At(fn, b, i) && RecordedAt(fn, living, b, i, v, id)
  }

  ghost predicate LockedBy(fn: Func, living: Living, b: nat, i: nat, v: nat)
    requires WellFormed(fn) && |living| == |fn.blocks| && At(fn, b, i)
  {
    fn.blocks[b].instrs[i].op.Call? && v in AcrossCall(fn, living, b, i)
  }

  ghost predicate LockedIn(fn: Func, living: Living, b: nat, v: nat)
    requires WellFormed(fn) && |living| == |fn.blocks| && b < |fn.blocks|
  {
    exists i :: At(fn, b, i) && LockedBy(fn, living, b, i, v)
  }

  ghost predicate Shape(fn: Func, f: Facts) {
    WellFormed(fn) && |f.living| == |fn.blocks|
  }

  /** f' is f after one visit of block b. */
  ghost predicate Visited(fn: Func, f: Facts, f': Facts, b: nat)
    requires Shape(fn, f) && b < |fn.blocks|
  {
    && f'.living == f.living[b := LiveBefore(fn, f.living, b, 0)]
    && (forall v: nat, id: nat :: (v, id) in f'.alive <==> (v, id) in f.alive || Recorded(fn, f.living, b, v, id))
    && (forall v: nat :: v in f'.locked <==> v in f.locked || LockedIn(fn, f.living, b, v))
  }

  // ----- the equations -----

  /** The result of the analysis: exactly these lives, exactly these locks. */
  ghost predicate Solved(fn: Func, f: Facts, locked0: set<nat>) {
    && Shape(fn, f)
    && (forall b :: 0 <= b < |fn.blocks| ==> f.living[b] == LiveBefore(fn, f.living, b, 0))
    && (forall v: nat, id: nat :: (v, id) in f.alive <==>
          (v < fn.nparams && id == 0) || exists b :: 0 <= b < |fn.blocks| && Recorded(fn, f.living, b, v, id))
    && (forall v: nat :: v in f.locked <==>
          v in locked0 || exists b :: 0 <= b < |fn.blocks| && LockedIn(fn, f.living, b, v))
  }

  // ----- paths -----

  /** v is read before it is written on a path from (b, i) that changes block at most n times. */
  ghost predicate ReadOnPath(fn: Func, v: nat, b: nat, i: nat, n: nat)
    requires WellFormed(fn) && b < |fn.blocks| && i <= |fn.blocks[b].instrs|
    decreases n, |fn.blocks[b].instrs| - i
  {
    if i == |fn.blocks[b].instrs| then
      && n > 0
      && (exists k ::
            && 0 <= k < |fn.blocks[b].exits| && LeadsTo(fn, b, k)
            && ReadOnPath(fn, v, fn.blocks[b].exits[k], 0, n - 1))
    else
      var ins := fn.blocks[b].instrs[i];
      assert WellFormedInstr(fn, ins);
      v in Uses(fn, ins) || (v !in Defs(fn, ins) && ReadOnPath(fn, v, b, i + 1, n))
  }

  predicate LeadsTo(fn: Func, b: nat, k: nat)
    requires b < |fn.blocks| && k < |fn.blocks[b].exits|
  {
    fn.blocks[b].exits[k] < |fn.blocks|
  }

  ghost predicate Readable(fn: Func, v: nat, b: nat, i: nat)
    requires WellFormed(fn) && b < |fn.blocks| && i <= |fn.blocks[b].instrs|
  {
    exists n: nat :: ReadOnPath(fn, v, b, i, n)
  }

  // ----- monotonicity -----

  ghost predicate Below(l: Living, l': Living) {
    |l| == |l'| && forall b :: 0 <= b < |l| ==> l[b] <= l'[b]
  }

  lemma {:induction false} LiveBeforeMonotone(fn: Func, l: Living, l': Living, b: nat, i: nat)
    requires WellFormed(fn) && |l| == |fn.blocks| && Below(l, l') && b < |fn.blocks| && i <= |fn.blocks[b].instrs|
    ensures LiveBefore(fn, l, b, i) <= LiveBefore(fn, l', b, i)
    decreases |fn.blocks[b].instrs| - i
  {
    hide WellFormedInstr, Uses, Defs;
    if i < |fn.blocks[b].instrs| {
      LiveBeforeMonotone(fn, l, l', b, i + 1);
    }
  }

  lemma RecordedAtMonotone(fn: Func, l: Living, l': Living, b: nat, i: nat, v: nat, id: nat)
    requires WellFormed(fn) && |l| == |fn.blocks| && Below(l, l') && At(fn, b, i) && RecordedAt(fn, l, b, i, v, id)
    ensures RecordedAt(fn, l', b, i, v, id)
  {
    hide WellFormed, Below, LiveBefore, Defs, Held;
    LiveBeforeMonotone(fn, l, l', b, i);
  }

  lemma LockedByMonotone(fn: Func, l: Living, l': Living, b: nat, i: nat, v: nat)
    requires WellFormed(fn) && |l| == |fn.blocks| && Below(l, l') && At(fn, b, i) && LockedBy(fn, l, b, i, v)
    ensures LockedBy(fn, l', b, i, v)
  {
    hide WellFormed, Below, LiveBefore, Defs;
    LiveBeforeMonotone(fn, l, l', b, i + 1);
  }

  lemma RecordedMonotone(fn: Func, l: Living, l': Living, b: nat)
    requires WellFormed(fn) && |l| == |fn.blocks| && Below(l, l') && b < |fn.blocks|
    ensures LiveBefore(fn, l, b, 0) <= LiveBefore(fn, l', b, 0)
    ensures forall v: nat, id: nat :: Recorded(fn, l, b, v, id) ==> Recorded(fn, l', b, v, id)
    ensures forall v: nat :: LockedIn(fn, l, b, v) ==> LockedIn(fn, l', b, v)
  {
    LiveBeforeMonotone(fn, l, l', b, 0);
    hide WellFormed, Below, LiveBefore, RecordedAt, LockedBy;
    forall v: nat, id: nat | Recorded(fn, l, b, v, id) ensures Recorded(fn, l', b, v, id) {
      if i :| At(fn, b, i) && RecordedAt(fn, l, b, i, v, id) {
        RecordedAtMonotone(fn, l, l', b, i, v, id);
      }
    }
    forall v: nat | LockedIn(fn, l, b, v) ensures LockedIn(fn, l', b, v) {
      var i :| At(fn, b, i) && LockedBy(fn, l, b, i, v);
      LockedByMonotone(fn, l, l', b, i, v);
    }
  }

  // ----- what every visit keeps -----

  /** Being alive at a block's first instruction comes from the living set, unless that instruction only writes. */
  ghost predicate Linked(fn: Func, f: Facts, b: nat)
    requires Shape(fn, f) && b < |fn.blocks|
  {
    At(fn, b, 0) ==>
    var ins := fn.blocks[b].instrs[0];
    assert WellFormedBlock(fn, fn.blocks[b]) && WellFormedInstr(fn, ins);
    forall v: nat :: (v, InstrId(fn, b, 0)) in f.alive && (v in Uses(fn, ins) || v !in Defs(fn, ins)) ==> v in f.living[b]
  }

  ghost predicate Invariant(fn: Func, f: Facts, locked0: set<nat>) {
    && Shape(fn, f)
    && (forall b :: 0 <= b < |fn.blocks| ==> f.living[b] <= LiveBefore(fn, f.living, b, 0))
    && (forall b :: 0 <= b < |fn.blocks| ==> Linked(fn, f, b))
    && (forall b, v :: 0 <= b < |fn.blocks| && v in f.living[b] ==> Readable(fn, v, b, 0))
    && (forall v: nat, id: nat :: (v, id) in f.alive ==>
          (v < fn.nparams && id == 0) || exists b :: 0 <= b < |fn.blocks| && Recorded(fn, f.living, b, v, id))
    && (forall v: nat :: v in f.locked ==>
          v in locked0 || exists b :: 0 <= b < |fn.blocks| && LockedIn(fn, f.living, b, v))
    && (forall v: nat :: v < fn.nparams ==> (v, 0) in f.alive)
    && locked0 <= f.locked
  }

  lemma InvariantInitially(fn: Func, f: Facts)
    requires WellFormed(fn) && f.living == seq(|fn.blocks|, b => {})
    requires forall v: nat, id: nat :: (v, id) in f.alive <==> v < fn.nparams && id == 0
    ensures Invariant(fn, f, f.locked)
  {
  }

  /** A value live before an instruction can be read on a path from there. */
  lemma {:induction false} LiveIsReadable(fn: Func, living: Living, b: nat, i: nat, v: nat)
    requires WellFormed(fn) && |living| == |fn.blocks| && b < |fn.blocks| && i <= |fn.blocks[b].instrs|
    requires forall c :: 0 <= c < |fn.blocks| && v in living[c] ==> Readable(fn, v, c, 0)
    requires v in LiveBefore(fn, living, b, i)
    ensures Readable(fn, v, b, i)
    decreases |fn.blocks[b].instrs| - i
  {
    if i == |fn.blocks[b].instrs| {
      var k :| 0 <= k < |fn.blocks[b].exits| && fn.blocks[b].exits[k] != b && v in living[fn.blocks[b].exits[k]];
      var c := fn.blocks[b].exits[k];
      var n: nat :| ReadOnPath(fn, v, c, 0, n);
      assert LeadsTo(fn, b, k) && ReadOnPath(fn, v, c, 0, n + 1 - 1);
      assert ReadOnPath(fn, v, b, i, n + 1);
    } else {
      var ins := fn.blocks[b].instrs[i];
      assert WellFormedInstr(fn, ins);
      if v in Uses(fn, ins) {
        assert ReadOnPath(fn, v, b, i, 0);
      } else {
        LiveIsReadable(fn, living, b, i + 1, v);
        var n: nat :| ReadOnPath(fn, v, b, i + 1, n);
        assert ReadOnPath(fn, v, b, i, n);
      }
    }
  }

  /** Clearing the set of b first means its own entry in the living sets plays no part. */
  lemma {:induction false} LiveBeforeIgnoresSelf(fn: Func, l: Living, b: nat, i: nat, s: set<nat>)
    requires WellFormed(fn) && |l| == |fn.blocks| && b < |fn.blocks| && i <= |fn.blocks[b].instrs|
    ensures LiveBefore(fn, l[b := s], b, i) == LiveBefore(fn, l, b, i)
    decreases |fn.blocks[b].instrs| - i
  {
    hide WellFormedInstr, Uses, Defs, LiveOut;
    if i == |fn.blocks[b].instrs| {
      OutIgnoresSelf(fn, l, b, s);
    } else {
      LiveBeforeIgnoresSelf(fn, l, b, i + 1, s);
    }
  }

  lemma OutIgnoresSelf(fn: Func, l: Living, b: nat, s: set<nat>)
    requires b < |fn.blocks| == |l|
    ensures LiveOut(fn, l[b := s], b) == LiveOut(fn, l, b)
  {
    var exits := fn.blocks[b].exits;
    assert forall k :: 0 <= k < |exits| && exits[k] != b && exits[k] < |l| ==> l[b := s][exits[k]] == l[exits[k]];
    assert LiveOut(fn, l[b := s], b) <= LiveOut(fn, l, b);
    assert LiveOut(fn, l, b) <= LiveOut(fn, l[b := s], b);
  }

  lemma FirstInstrRecorded(fn: Func, living: Living, b: nat, c: nat, v: nat)
    requires WellFormed(fn) && |living| == |fn.blocks| && At(fn, b, 0) && c < |fn.blocks|
    requires WellFormedInstr(fn, fn.blocks[b].instrs[0]) && Recorded(fn, living, c, v, InstrId(fn, b, 0))
    ensures b == c
    ensures v in LiveBefore(fn, living, b, 0) || v in Defs(fn, fn.blocks[b].instrs[0])
  {
    RecordedInBlock(fn, living, c, v, InstrId(fn, b, 0));
    hide LiveBefore, WellFormed, Defs, Held;
    if c < b {
      EntriesGrow(fn, c, b);
    } else if b < c {
      EntriesGrow(fn, b, c);
    }
  }

  /** A visit of block b records ids of block b, and an operand still held at its end at the id after it. */
  lemma RecordedInBlock(fn: Func, living: Living, b: nat, v: nat, id: nat)
    requires WellFormed(fn) && |living| == |fn.blocks| && b < |fn.blocks| && Recorded(fn, living, b, v, id)
    ensures EntryId(fn, b) <= id <= EntryId(fn, b) + |fn.blocks[b].instrs| + 1
  {
    hide LiveBefore, WellFormed, Defs, Held;
  }

  lemma VisitKeepsLink(fn: Func, f: Facts, f': Facts, b: nat, c: nat)
    requires Shape(fn, f) && b < |fn.blocks| && c < |fn.blocks| && Visited(fn, f, f', b)
    requires Linked(fn, f, c) && f.living[c] <= f'.living[c]
    ensures Linked(fn, f', c)
  {
    if At(fn, c, 0) {
      assert WellFormedBlock(fn, fn.blocks[c]);
      var ins := fn.blocks[c].instrs[0];
      forall v: nat | (v, InstrId(fn, c, 0)) in f'.alive && (v in Uses(fn, ins) || v !in Defs(fn, ins)) ensures v in f'.living[c] {
        if (v, InstrId(fn, c, 0)) !in f.alive {
          FirstInstrRecorded(fn, f.living, c, b, v);
        }
      }
    }
  }

  lemma VisitKeeps(fn: Func, f: Facts, f': Facts, locked0: set<nat>, b: nat)
    requires b < |fn.blocks| && Invariant(fn, f, locked0) && Visited(fn, f, f', b)
    ensures Invariant(fn, f', locked0)
  {
    assert Below(f.living, f'.living);
    LiveBeforeIgnoresSelf(fn, f.living, b, 0, f'.living[b]);
    forall c | 0 <= c < |fn.blocks| ensures f'.living[c] <= LiveBefore(fn, f'.living, c, 0) {
      RecordedMonotone(fn, f.living, f'.living, c);
    }
    forall c | 0 <= c < |fn.blocks| ensures Linked(fn, f', c) {
      VisitKeepsLink(fn, f, f', b, c);
    }
    forall c, v | 0 <= c < |fn.blocks| && v in f'.living[c] ensures Readable(fn, v, c, 0) {
      if c == b {
        LiveIsReadable(fn, f.living, b, 0, v);
      }
    }
    forall v: nat, id: nat | (v, id) in f'.alive
      ensures (v < fn.nparams && id == 0) || exists c :: 0 <= c < |fn.blocks| && Recorded(fn, f'.living, c, v, id)
    {
      if !(v < fn.nparams && id == 0) {
        var c :| 0 <= c < |fn.blocks| && Recorded(fn, f.living, c, v, id);
        RecordedMonotone(fn, f.living, f'.living, c);
      }
    }
    forall v: nat | v in f'.locked
      ensures v in locked0 || exists c :: 0 <= c < |fn.blocks| && LockedIn(fn, f'.living, c, v)
    {
      if v !in locked0 {
        var c :| 0 <= c < |fn.blocks| && LockedIn(fn, f.living, c, v);
        RecordedMonotone(fn, f.living, f'.living, c);
      }
    }
  }

  /** Nothing is live behind the last instruction of a block that leads nowhere. */
  lemma LiveSomewhere(fn: Func, living: Living, b: nat, i: nat, v: nat)
    requires WellFormed(fn) && |living| == |fn.blocks| && b < |fn.blocks| && i <= |fn.blocks[b].instrs|
    requires v in LiveBefore(fn, living, b, i)
    ensures i < |fn.blocks[b].instrs| || Finished(fn.blocks[b])
    ensures i == 0 ==> At(fn, b, 0)
  {
    assert WellFormedBlock(fn, fn.blocks[b]);
  }

  /** A visit that adds no life leaves the living sets as they were. */
  lemma QuietVisit(fn: Func, f: Facts, f': Facts, locked0: set<nat>, b: nat)
    requires b < |fn.blocks| && Invariant(fn, f, locked0) && Visited(fn, f, f', b)
    requires f'.alive == f.alive
    ensures f'.living == f.living
  {
    assert WellFormedBlock(fn, fn.blocks[b]) && Linked(fn, f, b);
    forall v: nat | v in f'.living[b] ensures v in f.living[b] {
      LiveSomewhere(fn, f.living, b, 0, v);
      assert At(fn, b, 0) && RecordedAt(fn, f.living, b, 0, v, InstrId(fn, b, 0));
      assert Recorded(fn, f.living, b, v, InstrId(fn, b, 0));
    }
    assert f'.living[b] == f.living[b];
  }

  /** Block b has nothing to add to f. */
  ghost predicate Settled(fn: Func, f: Facts, b: nat)
    requires Shape(fn, f) && b < |fn.blocks|
  {
    Visited(fn, f, f, b)
  }

  /** Once no block has anything to add, the equations hold. */
  lemma SettledSolves(fn: Func, f: Facts, locked0: set<nat>)
    requires Invariant(fn, f, locked0)
    requires forall b :: 0 <= b < |fn.blocks| ==> Settled(fn, f, b)
    ensures Solved(fn, f, locked0)
  {
    forall b | 0 <= b < |fn.blocks| ensures f.living[b] == LiveBefore(fn, f.living, b, 0) {
      assert Settled(fn, f, b);
    }
    forall v: nat, id: nat, b | 0 <= b < |fn.blocks| && Recorded(fn, f.living, b, v, id) ensures (v, id) in f.alive {
      assert Settled(fn, f, b);
    }
    forall v, b | 0 <= b < |fn.blocks| && LockedIn(fn, f.living, b, v) ensures v in f.locked {
      assert Settled(fn, f, b);
    }
  }

  // ----- what a solution means -----

  /** No value a self-looping block wants at its top is missing from what flows out of it. */
  ghost predicate SelfLoopsHarmless(fn: Func, living: Living)
    requires WellFormed(fn) && |living| == |fn.blocks|
  {
    forall b :: 0 <= b < |fn.blocks| && b in fn.blocks[b].exits ==> living[b] <= LiveOut(fn, living, b)
  }

  lemma ExitLivingFlows(fn: Func, living: Living, b: nat, k: nat)
    requires WellFormed(fn) && |living| == |fn.blocks| && b < |fn.blocks| && k < |fn.blocks[b].exits|
    requires fn.blocks[b].exits[k] != b || SelfLoopsHarmless(fn, living)
    ensures fn.blocks[b].exits[k] < |living| && living[fn.blocks[b].exits[k]] <= LiveOut(fn, living, b)
  {
    assert WellFormedBlock(fn, fn.blocks[b]);
  }

  /** Whatever can be read before being written on a path from b's entry is in b's living set, self-loops or not. */
  lemma {:induction false} EntryReadableIsLive(fn: Func, living: Living, v: nat, b: nat, n: nat)
    requires WellFormed(fn) && |living| == |fn.blocks| && b < |fn.blocks|
    requires forall c :: 0 <= c < |fn.blocks| ==> living[c] == LiveBefore(fn, living, c, 0)
    requires ReadOnPath(fn, v, b, 0, n)
    ensures v in living[b]
    decreases n, 1, 0
  {
    ReadableFromHere(fn, living, v, b, 0, n);
  }

  lemma {:induction false} ReadableFromHere(fn: Func, living: Living, v: nat, b: nat, i: nat, n: nat)
    requires WellFormed(fn) && |living| == |fn.blocks| && b < |fn.blocks| && i <= |fn.blocks[b].instrs|
    requires forall c :: 0 <= c < |fn.blocks| ==> living[c] == LiveBefore(fn, living, c, 0)
    requires ReadOnPath(fn, v, b, i, n)
    ensures v in LiveBefore(fn, living, b, i) || v in living[b]
    decreases n, 0, |fn.blocks[b].instrs| - i
  {
    if i == |fn.blocks[b].instrs| {
      var k :| 0 <= k < |fn.blocks[b].exits| && LeadsTo(fn, b, k)
        && ReadOnPath(fn, v, fn.blocks[b].exits[k], 0, n - 1);
      EntryReadableIsLive(fn, living, v, fn.blocks[b].exits[k], n - 1);
      if fn.blocks[b].exits[k] != b {
        ExitLivingFlows(fn, living, b, k);
      }
    } else {
      var ins := fn.blocks[b].instrs[i];
      assert WellFormedInstr(fn, ins);
      if v !in Uses(fn, ins) {
        ReadableFromHere(fn, living, v, b, i + 1, n);
      }
    }
  }

  /** The living sets are exactly path liveness at block entries. */
  lemma LivingIsReadable(fn: Func, f: Facts, locked0: set<nat>, v: nat, b: nat)
    requires Invariant(fn, f, locked0) && Solved(fn, f, locked0) && b < |fn.blocks|
    ensures v in f.living[b] <==> Readable(fn, v, b, 0)
  {
    if Readable(fn, v, b, 0) {
      var n: nat :| ReadOnPath(fn, v, b, 0, n);
      EntryReadableIsLive(fn, f.living, v, b, n);
    }
  }

  /** There is one solution the passes can end in: the analysis is determined by the graph. */
  lemma SolutionUnique(fn: Func, f: Facts, g: Facts, locked0: set<nat>)
    requires Invariant(fn, f, locked0) && Solved(fn, f, locked0) && Invariant(fn, g, locked0) && Solved(fn, g, locked0)
    ensures f == g
  {
    forall b | 0 <= b < |fn.blocks| ensures f.living[b] == g.living[b] {
      forall v: nat ensures v in f.living[b] <==> v in g.living[b] {
        LivingIsReadable(fn, f, locked0, v, b);
        LivingIsReadable(fn, g, locked0, v, b);
      }
    }
    hide Invariant, Recorded, LockedIn, LiveBefore, Readable, WellFormed;
    assert f.living == g.living;
    SameRecords(fn, f, g, locked0);
  }

  lemma SameRecords(fn: Func, f: Facts, g: Facts, locked0: set<nat>)
    requires Solved(fn, f, locked0) && Solved(fn, g, locked0) && f.living == g.living
    ensures f.alive == g.alive && f.locked == g.locked
  {
    hide Recorded, LockedIn, LiveBefore, WellFormed;
    forall p: (nat, nat) ensures p in f.alive <==> p in g.alive {
      assert p == (p.0, p.1);
    }
    forall v: nat ensures v in f.locked <==> v in g.locked {
    }
  }

  predicate LeadsElsewhere(fn: Func, b: nat, k: nat)
    requires b < |fn.blocks| && k < |fn.blocks[b].exits|
  {
    LeadsTo(fn, b, k) && fn.blocks[b].exits[k] != b
  }

  /** v can be read before it is written from the entry of another successor of b. */
  ghost predicate WantedElsewhere(fn: Func, b: nat, v: nat)
    requires WellFormed(fn) && b < |fn.blocks|
  {
    exists k :: 0 <= k < |fn.blocks[b].exits| && LeadsElsewhere(fn, b, k) && Readable(fn, v, fn.blocks[b].exits[k], 0)
  }

  /** Whatever a block that is its own successor wants at its top is wanted by another successor of it too. */
  ghost predicate SelfLoopsClear(fn: Func)
    requires WellFormed(fn)
  {
    forall b: nat, v: nat :: b < |fn.blocks| && b in fn.blocks[b].exits && Readable(fn, v, b, 0) ==> WantedElsewhere(fn, b, v)
  }

  lemma OutIsWantedElsewhere(fn: Func, f: Facts, locked0: set<nat>, b: nat, v: nat)
    requires Invariant(fn, f, locked0) && Solved(fn, f, locked0) && b < |fn.blocks|
    ensures v in LiveOut(fn, f.living, b) <==> WantedElsewhere(fn, b, v)
  {
    if v in LiveOut(fn, f.living, b) {
      var k :| 0 <= k < |fn.blocks[b].exits| && fn.blocks[b].exits[k] != b && fn.blocks[b].exits[k] < |f.living| && v in f.living[fn.blocks[b].exits[k]];
      assert LeadsElsewhere(fn, b, k) && Readable(fn, v, fn.blocks[b].exits[k], 0);
    }
    if k :| 0 <= k < |fn.blocks[b].exits| && LeadsElsewhere(fn, b, k) && Readable(fn, v, fn.blocks[b].exits[k], 0) {
      LivingIsReadable(fn, f, locked0, v, fn.blocks[b].exits[k]);
    }
  }

  /** What the analysis' result must satisfy is a property of the graph. */
  lemma ClearIsHarmless(fn: Func, f: Facts, locked0: set<nat>)
    requires Invariant(fn, f, locked0) && Solved(fn, f, locked0)
    ensures SelfLoopsClear(fn) <==> SelfLoopsHarmless(fn, f.living)
  {
    forall b: nat, v: nat | b < |fn.blocks|
      ensures v in f.living[b] <==> Readable(fn, v, b, 0)
      ensures v in LiveOut(fn, f.living, b) <==> WantedElsewhere(fn, b, v)
    {
      LivingIsReadable(fn, f, locked0, v, b);
      OutIsWantedElsewhere(fn, f, locked0, b, v);
    }
    hide Invariant, Solved, LiveOut, WantedElsewhere, Readable;
  }

  /** Inside the blocks they are path liveness at every point if and only if the self-loops are clear. */
  lemma LiveEverywhereIff(fn: Func, f: Facts, locked0: set<nat>)
    requires Invariant(fn, f, locked0) && Solved(fn, f, locked0)
    ensures SelfLoopsClear(fn) <==>
      forall v: nat, b: nat, i: nat :: b < |fn.blocks| && i <= |fn.blocks[b].instrs| && Readable(fn, v, b, i) ==>
        v in LiveBefore(fn, f.living, b, i)
  {
    ClearIsHarmless(fn, f, locked0);
    HarmlessIff(fn, f, locked0);
  }

  lemma HarmlessIff(fn: Func, f: Facts, locked0: set<nat>)
    requires Invariant(fn, f, locked0) && Solved(fn, f, locked0)
    ensures SelfLoopsHarmless(fn, f.living) <==>
      forall v: nat, b: nat, i: nat :: b < |fn.blocks| && i <= |fn.blocks[b].instrs| && Readable(fn, v, b, i) ==>
        v in LiveBefore(fn, f.living, b, i)
  {
    if SelfLoopsHarmless(fn, f.living) {
      forall v: nat, b: nat, i: nat | b < |fn.blocks| && i <= |fn.blocks[b].instrs| && Readable(fn, v, b, i)
        ensures v in LiveBefore(fn, f.living, b, i)
      {
        var n: nat :| ReadOnPath(fn, v, b, i, n);
        ReadableIsLive(fn, f.living, v, b, i, n);
      }
    }
    if forall v: nat, b: nat, i: nat :: b < |fn.blocks| && i <= |fn.blocks[b].instrs| && Readable(fn, v, b, i) ==>
        v in LiveBefore(fn, f.living, b, i)
    {
      forall b, v | 0 <= b < |fn.blocks| && b in fn.blocks[b].exits && v in f.living[b]
        ensures v in LiveOut(fn, f.living, b)
      {
        var k :| 0 <= k < |fn.blocks[b].exits| && fn.blocks[b].exits[k] == b;
        var n: nat :| ReadOnPath(fn, v, b, 0, n);
        assert LeadsTo(fn, b, k) && ReadOnPath(fn, v, fn.blocks[b].exits[k], 0, n + 1 - 1);
        assert ReadOnPath(fn, v, b, |fn.blocks[b].instrs|, n + 1);
        assert Readable(fn, v, b, |fn.blocks[b].instrs|);
      }
    }
  }

  lemma {:induction false} ReadableIsLive(fn: Func, living: Living, v: nat, b: nat, i: nat, n: nat)
    requires WellFormed(fn) && |living| == |fn.blocks| && b < |fn.blocks| && i <= |fn.blocks[b].instrs|
    requires forall c :: 0 <= c < |fn.blocks| ==> living[c] == LiveBefore(fn, living, c, 0)
    requires SelfLoopsHarmless(fn, living) && ReadOnPath(fn, v, b, i, n)
    ensures v in LiveBefore(fn, living, b, i)
    decreases |fn.blocks[b].instrs| - i
  {
    if i == |fn.blocks[b].instrs| {
      var k :| 0 <= k < |fn.blocks[b].exits| && LeadsTo(fn, b, k)
        && ReadOnPath(fn, v, fn.blocks[b].exits[k], 0, n - 1);
      EntryReadableIsLive(fn, living, v, fn.blocks[b].exits[k], n - 1);
      ExitLivingFlows(fn, living, b, k);
    } else {
      var ins := fn.blocks[b].instrs[i];
      assert WellFormedInstr(fn, ins);
      if v !in Uses(fn, ins) {
        ReadableIsLive(fn, living, v, b, i + 1, n);
      }
    }
  }

  // ----- lives as the allocator sees them -----

  lemma RecordedIsAlive(fn: Func, f: Facts, locked0: set<nat>, b: nat, v: nat, id: nat)
    requires Solved(fn, f, locked0) && b < |fn.blocks| && Recorded(fn, f.living, b, v, id)
    ensures (v, id) in f.alive
  {
  }

  lemma LiveIsAlive(fn: Func, f: Facts, locked0: set<nat>, b: nat, i: nat, v: nat)
    requires Shape(fn, f) && Solved(fn, f, locked0) && At(fn, b, i)
    requires v in LiveBefore(fn, f.living, b, i) || v in Defs(fn, fn.blocks[b].instrs[i])
    ensures (v, InstrId(fn, b, i)) in f.alive
  {
    hide Solved;
    assert RecordedAt(fn, f.living, b, i, v, InstrId(fn, b, i));
    RecordedIsAlive(fn, f, locked0, b, v, InstrId(fn, b, i));
  }

  lemma EntryIsAlive(fn: Func, f: Facts, locked0: set<nat>, b: nat, v: nat)
    requires Shape(fn, f) && Solved(fn, f, locked0) && b < |fn.blocks| && v in LiveBefore(fn, f.living, b, 0)
    ensures (v, EntryId(fn, b)) in f.alive
  {
    hide Solved, LiveBefore, WellFormed;
    assert Recorded(fn, f.living, b, v, EntryId(fn, b));
    RecordedIsAlive(fn, f, locked0, b, v, EntryId(fn, b));
  }

  /** A value live before an instruction is also alive one id earlier. */
  lemma LiveReachesBack(fn: Func, f: Facts, locked0: set<nat>, b: nat, i: nat, v: nat)
    requires Shape(fn, f) && Solved(fn, f, locked0) && At(fn, b, i) && v in LiveBefore(fn, f.living, b, i)
    ensures (v, InstrId(fn, b, i)) in f.alive && (v, InstrId(fn, b, i) - 1) in f.alive
  {
    hide Solved, WellFormed, LiveBefore, EntryId;
    LiveIsAlive(fn, f, locked0, b, i, v);
    if i == 0 {
      EntryIsAlive(fn, f, locked0, b, v);
    } else {
      LiveEarlier(fn, f, b, i, v);
      LiveIsAlive(fn, f, locked0, b, i - 1, v);
    }
  }

  lemma LiveEarlier(fn: Func, f: Facts, b: nat, i: nat, v: nat)
    requires Shape(fn, f) && i > 0 && At(fn, b, i) && v in LiveBefore(fn, f.living, b, i)
    ensures v in LiveBefore(fn, f.living, b, i - 1) || v in Defs(fn, fn.blocks[b].instrs[i - 1])
  {
  }

  lemma RecordedSomewhere(fn: Func, f: Facts, locked0: set<nat>, v: nat, id: nat) returns (b: nat)
    requires Shape(fn, f) && Solved(fn, f, locked0) && (v, id) in f.alive && (id == 0 ==> v >= fn.nparams)
    ensures b < |fn.blocks| && Recorded(fn, f.living, b, v, id)
  {
    b :| 0 <= b < |fn.blocks| && Recorded(fn, f.living, b, v, id);
  }

  /** A life of v that starts at an id, if it is over right after it or the id is an instruction's, starts with a write. */
  lemma StartIsWrite(fn: Func, f: Facts, locked0: set<nat>, v: nat, id: nat) returns (b: nat, i: nat)
    requires Shape(fn, f) && Solved(fn, f, locked0) && fn.Owned(v) && (v, id) in f.alive
    requires id > 0 ==> (v, id - 1) !in f.alive
    requires id == 0 ==> v >= fn.nparams
    requires (v, id + 1) !in f.alive || !IsEntry(fn, id)
    ensures At(fn, b, i) && id == InstrId(fn, b, i) && v in Defs(fn, fn.blocks[b].instrs[i])
  {
    hide Solved;
    b := RecordedSomewhere(fn, f, locked0, v, id);
    if id == EntryId(fn, b) && v in LiveBefore(fn, f.living, b, 0) {
      LiveSomewhere(fn, f.living, b, 0, v);
      assert IsEntry(fn, id);
      LiveReachesBack(fn, f, locked0, b, 0, v);
      assert false;
    }
    i :| At(fn, b, i) && RecordedAt(fn, f.living, b, i, v, id);
    RecordedStart(fn, f, locked0, v, b, i, id);
  }

  ghost predicate IsEntry(fn: Func, id: nat) {
    exists b :: 0 <= b < |fn.blocks| && EntryId(fn, b) == id
  }

  lemma RecordedStart(fn: Func, f: Facts, locked0: set<nat>, v: nat, b: nat, i: nat, id: nat)
    requires Shape(fn, f) && Solved(fn, f, locked0) && fn.Owned(v) && At(fn, b, i)
    requires RecordedAt(fn, f.living, b, i, v, id) && (id > 0 ==> (v, id - 1) !in f.alive)
    ensures id == InstrId(fn, b, i) && v in Defs(fn, fn.blocks[b].instrs[i])
  {
    hide Solved;
    var ins := fn.blocks[b].instrs[i];
    assert WellFormedInstr(fn, ins);
    if v in Held(ins) {
      HeldAreUsed(fn, ins, v);
    }
    if v in LiveBefore(fn, f.living, b, i) {
      LiveReachesBack(fn, f, locked0, b, i, v);
    }
  }
}
