// The passes themselves, over the objects they update in place: numbering the
// instructions, visiting a block backwards, and iterating until nothing changes.

module LifeAnalysis {
  import opened Ir
  import opened Wrappers
  import opened Liveness
  import opened LifeRanges
  import opened IrValues

  class IrBlock {
    const code: Block
    var entryId: nat
    var eids: seq<nat>
    var living: seq<nat>

    constructor (code: Block)
      ensures this.code == code && living == []
    {
      this.code := code;
      entryId, eids, living := 0, [], [];
    }
  }

  // ----- how the facts move -----

  ghost function Marked(f: Facts, s: set<nat>, id: nat): Facts {
    f.(alive := f.alive + set v | v in s :: (v, id))
  }

  ghost function WithLiving(f: Facts, b: nat, s: set<nat>): Facts
    requires b < |f.living|
  {
    f.(living := f.living[b := s])
  }

  /** The values s die above id. */
  ghost function Killed(f: Facts, b: nat, s: set<nat>, id: nat): Facts
    requires b < |f.living|
  {
    WithLiving(Marked(f, s, id), b, f.living[b] - s)
  }

  lemma KilledNone(f: Facts, b: nat, s: set<nat>, id: nat)
    requires b < |f.living| && s == {}
    ensures Killed(f, b, s, id) == f
  {
    assert f.living[b] - s == f.living[b];
    assert Marked(f, s, id).alive == f.alive;
  }

  lemma KilledMore(f: Facts, b: nat, s: set<nat>, v: nat, id: nat)
    requires b < |f.living|
    ensures Killed(Killed(f, b, s, id), b, {v}, id) == Killed(f, b, s + {v}, id)
  {
    MarkedMore(f, s, v, id);
    assert f.living[b] - s - {v} == f.living[b] - (s + {v});
  }

  lemma MarkedMore(f: Facts, s: set<nat>, v: nat, id: nat)
    ensures Marked(Marked(f, s, id), {v}, id) == Marked(f, s + {v}, id)
  {
    MarkedBoth(f, s, {v}, id);
  }

  lemma MarkedBoth(f: Facts, s: set<nat>, t: set<nat>, id: nat)
    ensures Marked(Marked(f, s, id), t, id) == Marked(f, s + t, id)
  {
    assert Marked(Marked(f, s, id), t, id).alive == Marked(f, s + t, id).alive;
  }

  function HeldAt(ins: Instr, o: nat): set<nat>
    requires o < |ins.ops|
  {
    if ins.ops[o].Some? && Holds(ins.op, o) then {ins.ops[o].value} else {}
  }

  lemma HeldAre(fn: Func, ins: Instr)
    requires WellFormedInstr(fn, ins)
    ensures |ins.ops| == 3 && Held(ins) == HeldAt(ins, 2) + HeldAt(ins, 1)
  {
  }

  lemma MarkedNone(f: Facts, s: set<nat>, id: nat)
    requires s == {}
    ensures Marked(f, s, id) == f
  {
    assert Marked(f, s, id).alive == f.alive;
  }

  function LockedToo(f: Facts, s: set<nat>): Facts {
    f.(locked := f.locked + s)
  }

  lemma LockedMore(f: Facts, s: set<nat>, v: nat)
    ensures LockedToo(LockedToo(f, s), {v}) == LockedToo(f, s + {v})
  {
    assert f.locked + s + {v} == f.locked + (s + {v});
  }

  /** f' has at least the lives and locks of f, and c says whether it has more. */
  ghost predicate Grew(f: Facts, f': Facts, c: bool) {
    && f.alive <= f'.alive && f.locked <= f'.locked
    && (c <==> f.alive != f'.alive || f.locked != f'.locked)
  }

  lemma GrewTransitive(f: Facts, g: Facts, h: Facts, c: bool, d: bool)
    requires Grew(f, g, c) && Grew(g, h, d)
    ensures Grew(f, h, c || d)
  {
    if f.alive == h.alive && f.locked == h.locked {
      assert g.alive == f.alive && g.locked == f.locked;
    }
  }

  /** One instruction of block b, seen from below it. */
  ghost predicate InstrVisited(fn: Func, f: Facts, f': Facts, b: nat, ins: Instr, eid: nat)
    requires b < |f.living| && |ins.ops| == 3
  {
    var kept := f.living[b] - Defs(fn, ins);
    var before := Uses(fn, ins) + kept;
    && f'.living == f.living[b := before]
    && f'.locked == f.locked + (if ins.op.Call? then OpUses(fn, ins) + kept else {})
    && f'.alive == Marked(Marked(Marked(f, Defs(fn, ins), eid), Held(ins), eid + 1), before, eid).alive
  }

  lemma ComposeInstr(fn: Func, b: nat, ins: Instr, eid: nat,
                     f0: Facts, f1: Facts, f2: Facts, f3: Facts, f4: Facts, f5: Facts, f6: Facts)
    requires b < |f0.living| && |ins.ops| == 3
    requires f1 == Killed(f0, b, Defs(fn, ins), eid)
    requires f2 == Marked(f1, Held(ins), eid + 1)
    requires f3 == WithLiving(f2, b, f2.living[b] + OpUses(fn, ins))
    requires f4 == if ins.op.Call? then f3.(locked := f3.locked + f3.living[b]) else f3
    requires f5 == WithLiving(f4, b, f4.living[b] + ParamUses(ins))
    requires f6 == Marked(f5, f5.living[b], eid)
    ensures InstrVisited(fn, f0, f6, b, ins, eid)
  {
    var kept := f0.living[b] - Defs(fn, ins);
    assert f5.living[b] == Uses(fn, ins) + kept;
    assert f3.living[b] == OpUses(fn, ins) + kept;
  }

  lemma LivingCleared(f: Facts, b: nat, s: set<nat>)
    requires b < |f.living|
    ensures Grew(f, WithLiving(f, b, s), false)
  {
  }

  lemma LivingOnly(f: Facts, g: Facts)
    requires f.alive == g.alive && f.locked == g.locked
    ensures Grew(f, g, false)
  {
  }

  /** The instructions of block b from i on have been visited. */
  ghost predicate VisitedFrom(fn: Func, f: Facts, f': Facts, b: nat, i: nat)
    requires Shape(fn, f) && b < |fn.blocks| && i <= |fn.blocks[b].instrs|
  {
    && f'.living == f.living[b := LiveBefore(fn, f.living, b, i)]
    && (forall v: nat, id: nat :: (v, id) in f'.alive <==>
          (v, id) in f.alive || exists k :: i <= k && At(fn, b, k) && RecordedAt(fn, f.living, b, k, v, id))
    && (forall v: nat :: v in f'.locked <==>
          v in f.locked || exists k :: i <= k && At(fn, b, k) && LockedBy(fn, f.living, b, k, v))
  }

  lemma VisitedNone(fn: Func, f: Facts, f': Facts, b: nat)
    requires Shape(fn, f) && b < |fn.blocks| && f' == WithLiving(f, b, LiveOut(fn, f.living, b))
    ensures VisitedFrom(fn, f, f', b, |fn.blocks[b].instrs|)
  {
  }

  lemma LiveAbove(fn: Func, living: Living, b: nat, i: nat)
    requires WellFormed(fn) && |living| == |fn.blocks| && At(fn, b, i) && WellFormedInstr(fn, fn.blocks[b].instrs[i])
    ensures var ins := fn.blocks[b].instrs[i];
      LiveBefore(fn, living, b, i) == Uses(fn, ins) + (LiveBefore(fn, living, b, i + 1) - Defs(fn, ins))
  {
  }

  /** What the visit of one instruction adds. */
  lemma InstrRecords(fn: Func, f: Facts, g: Facts, h: Facts, b: nat, i: nat)
    requires Shape(fn, f) && At(fn, b, i) && WellFormedInstr(fn, fn.blocks[b].instrs[i])
    requires g.living == f.living[b := LiveBefore(fn, f.living, b, i + 1)]
    requires InstrVisited(fn, g, h, b, fn.blocks[b].instrs[i], InstrId(fn, b, i))
    ensures h.living == f.living[b := LiveBefore(fn, f.living, b, i)]
    ensures forall v: nat, id: nat :: (v, id) in h.alive <==> (v, id) in g.alive || RecordedAt(fn, f.living, b, i, v, id)
    ensures forall v: nat :: v in h.locked <==> v in g.locked || LockedBy(fn, f.living, b, i, v)
  {
    LiveAbove(fn, f.living, b, i);
    hide LiveBefore, Defs, Uses, OpUses, Held, InstrId, WellFormed, WellFormedInstr;
    InstrAlive(fn, f.living, g, h, b, i);
    InstrLocks(fn, f.living, g, h, b, i);
  }

  lemma InMarked(f: Facts, s: set<nat>, at: nat, v: nat, id: nat)
    ensures (v, id) in Marked(f, s, at).alive <==> (v, id) in f.alive || (v in s && id == at)
  {
  }

  lemma ThreeMarks(g: Facts, h: Facts, written: set<nat>, held: set<nat>, before: set<nat>, eid: nat)
    requires h.alive == Marked(Marked(Marked(g, written, eid), held, eid + 1), before, eid).alive
    ensures forall v: nat, id: nat :: (v, id) in h.alive <==>
      (v, id) in g.alive || (id == eid && (v in before || v in written)) || (id == eid + 1 && v in held)
  {
    hide Marked;
    forall v: nat, id: nat
      ensures (v, id) in h.alive <==>
        (v, id) in g.alive || (id == eid && (v in before || v in written)) || (id == eid + 1 && v in held)
    {
      InMarked(g, written, eid, v, id);
      InMarked(Marked(g, written, eid), held, eid + 1, v, id);
      InMarked(Marked(Marked(g, written, eid), held, eid + 1), before, eid, v, id);
    }
  }

  lemma VisitMarks(fn: Func, g: Facts, h: Facts, b: nat, ins: Instr, eid: nat)
    requires b < |g.living| && |ins.ops| == 3 && InstrVisited(fn, g, h, b, ins, eid)
    ensures h.alive == Marked(Marked(Marked(g, Defs(fn, ins), eid), Held(ins), eid + 1),
                              Uses(fn, ins) + (g.living[b] - Defs(fn, ins)), eid).alive
  {
    hide Marked, Defs, Uses, OpUses, Held;
  }

  lemma RecordedThere(fn: Func, living: Living, b: nat, i: nat, v: nat, id: nat)
    requires WellFormed(fn) && |living| == |fn.blocks| && At(fn, b, i) && WellFormedInstr(fn, fn.blocks[b].instrs[i])
    ensures var ins, eid := fn.blocks[b].instrs[i], InstrId(fn, b, i);
      RecordedAt(fn, living, b, i, v, id) <==>
        (id == eid && (v in LiveBefore(fn, living, b, i) || v in Defs(fn, ins))) || (id == eid + 1 && v in Held(ins))
  {
    hide LiveBefore, Defs, Held, InstrId;
  }

  lemma InstrAlive(fn: Func, living: Living, g: Facts, h: Facts, b: nat, i: nat)
    requires WellFormed(fn) && |living| == |fn.blocks| && At(fn, b, i) && WellFormedInstr(fn, fn.blocks[b].instrs[i])
    requires g.living == living[b := LiveBefore(fn, living, b, i + 1)]
    requires InstrVisited(fn, g, h, b, fn.blocks[b].instrs[i], InstrId(fn, b, i))
    ensures forall v: nat, id: nat :: (v, id) in h.alive <==> (v, id) in g.alive || RecordedAt(fn, living, b, i, v, id)
  {
    var ins, eid := fn.blocks[b].instrs[i], InstrId(fn, b, i);
    assert |ins.ops| == 3 && b < |g.living|;
    hide *;
    LiveAbove(fn, living, b, i);
    VisitMarks(fn, g, h, b, ins, eid);
    ThreeMarks(g, h, Defs(fn, ins), Held(ins), LiveBefore(fn, living, b, i), eid);
    forall v: nat, id: nat ensures (v, id) in h.alive <==> (v, id) in g.alive || RecordedAt(fn, living, b, i, v, id) {
      RecordedThere(fn, living, b, i, v, id);
    }
  }

  lemma InstrLocks(fn: Func, living: Living, g: Facts, h: Facts, b: nat, i: nat)
    requires WellFormed(fn) && |living| == |fn.blocks| && At(fn, b, i) && WellFormedInstr(fn, fn.blocks[b].instrs[i])
    requires g.living == living[b := LiveBefore(fn, living, b, i + 1)]
    requires InstrVisited(fn, g, h, b, fn.blocks[b].instrs[i], InstrId(fn, b, i))
    ensures forall v: nat :: v in h.locked <==> v in g.locked || LockedBy(fn, living, b, i, v)
  {
    hide LiveBefore, Defs, Uses, OpUses, Held, InstrId, WellFormed, WellFormedInstr, Marked;
  }

  lemma VisitedStep(fn: Func, f: Facts, g: Facts, h: Facts, b: nat, i: nat)
    requires Shape(fn, f) && At(fn, b, i) && VisitedFrom(fn, f, g, b, i + 1)
    requires WellFormedInstr(fn, fn.blocks[b].instrs[i])
    requires InstrVisited(fn, g, h, b, fn.blocks[b].instrs[i], InstrId(fn, b, i))
    ensures VisitedFrom(fn, f, h, b, i)
  {
    InstrRecords(fn, f, g, h, b, i);
    hide LiveBefore, RecordedAt, LockedBy, InstrVisited, InstrId, WellFormed, WellFormedInstr;
    forall v: nat, id: nat
      ensures (v, id) in h.alive <==>
        (v, id) in f.alive || exists k :: i <= k && At(fn, b, k) && RecordedAt(fn, f.living, b, k, v, id)
    {
      if k :| i <= k && At(fn, b, k) && RecordedAt(fn, f.living, b, k, v, id) {
        assert k == i || i + 1 <= k;
      }
    }
    forall v: nat
      ensures v in h.locked <==>
        v in f.locked || exists k :: i <= k && At(fn, b, k) && LockedBy(fn, f.living, b, k, v)
    {
      if k :| i <= k && At(fn, b, k) && LockedBy(fn, f.living, b, k, v) {
        assert k == i || i + 1 <= k;
      }
    }
  }

  lemma VisitedAll(fn: Func, f: Facts, g: Facts, h: Facts, b: nat, entryId: nat)
    requires Shape(fn, f) && b < |fn.blocks| && VisitedFrom(fn, f, g, b, 0)
    requires entryId == EntryId(fn, b) && b < |g.living| && h == Marked(g, g.living[b], entryId)
    ensures Visited(fn, f, h, b)
  {
    hide LiveBefore, RecordedAt, LockedBy, WellFormed, EntryId;
  }

  class IrFunction {
    const fn: Func
    const values: seq<IrValue>
    const blocks: seq<IrBlock>
    // for each value, the instructions that read it and those that write it
    const readSites: seq<seq<(nat, nat)>>
    const writeSites: seq<seq<(nat, nat)>>
    var runId: nat
    // arrays or uninitialized locals: give every local its own slot
    var noLocalTemps: bool
    var allocatedLocals: nat
    var globalTemps: nat
    ghost var facts: Facts

    constructor (fn: Func, values: seq<IrValue>, blocks: seq<IrBlock>,
                 readSites: seq<seq<(nat, nat)>>, writeSites: seq<seq<(nat, nat)>>, hasArrays: bool)
      requires WellFormed(fn) && |values| == |fn.stores| && |blocks| == |fn.blocks|
      requires forall u, v :: 0 <= u < v < |values| ==> values[u] != values[v]
      requires forall b, c :: 0 <= b < c < |blocks| ==> blocks[b] != blocks[c]
      requires forall b :: 0 <= b < |blocks| ==> blocks[b].code == fn.blocks[b] && blocks[b].living == []
      requires forall v :: 0 <= v < |values| ==> values[v].life == []
      ensures this.fn == fn && this.values == values && this.blocks == blocks
      ensures this.readSites == readSites && this.writeSites == writeSites && noLocalTemps == hasArrays
      ensures allocatedLocals == 0 && globalTemps == 0
      ensures Valid() && facts.alive == {} && facts.living == seq(|fn.blocks|, b => {})
    {
      this.fn, this.values, this.blocks, this.readSites, this.writeSites := fn, values, blocks, readSites, writeSites;
      runId, noLocalTemps, allocatedLocals, globalTemps := 0, hasArrays, 0, 0;
      facts := Facts({}, set v | 0 <= v < |values| && values[v].locked, seq(|fn.blocks|, b => {}));
    }

    ghost predicate Built()
    {
      && WellFormed(fn)
      && |values| == |fn.stores| && |blocks| == |fn.blocks|
      && (forall u, v :: 0 <= u < v < |values| ==> values[u] != values[v])
      && (forall b, c :: 0 <= b < c < |blocks| ==> blocks[b] != blocks[c])
      && (forall b :: 0 <= b < |blocks| ==> blocks[b].code == fn.blocks[b])
    }

    ghost predicate ValuesMatch()
      reads this`facts, values`life, values`locked
    {
      && (forall v :: 0 <= v < |values| ==> Canonical(values[v].life))
      && (forall v: nat, id: nat :: (v, id) in facts.alive <==> v < |values| && Alive(values[v].life, id))
      && (forall v: nat :: v in facts.locked <==> v < |values| && values[v].locked)
    }

    /** The living list of a block object holds the living set of block b, each value once. */
    ghost predicate Lists(living: seq<nat>, b: nat)
      requires b < |facts.living|
      reads this`facts
    {
      && (forall v: nat :: v in facts.living[b] <==> v in living)
      && (forall j :: 0 <= j < |living| ==> living[j] < |values|)
      && (forall j, k :: 0 <= j < k < |living| ==> living[j] != living[k])
    }

    ghost predicate BlocksMatch()
      reads this`facts, blocks`living
    {
      |facts.living| == |blocks| && forall b :: 0 <= b < |blocks| ==> Lists(blocks[b].living, b)
    }

    ghost predicate Valid()
      reads this`facts, values`life, values`locked, blocks`living
    {
      Built() && ValuesMatch() && BlocksMatch()
    }

    /** The block carries the numbers of block b. */
    ghost predicate HasNumbers(block: IrBlock, b: nat)
      requires WellFormed(fn) && b < |fn.blocks|
      reads block`entryId, block`eids
    {
      && block.entryId == EntryId(fn, b)
      && |block.eids| == |fn.blocks[b].instrs|
      && forall i :: 0 <= i < |block.eids| ==> block.eids[i] == InstrId(fn, b, i)
    }

    ghost predicate Numbered()
      reads blocks`entryId, blocks`eids
    {
      Built() && forall b :: 0 <= b < |blocks| ==> HasNumbers(blocks[b], b)
    }

    // ----- numbering -----

    method EnumerateBlock(b: nat, eid: nat) returns (next: nat)
      requires Built() && b < |blocks|
      modifies blocks[b]
      ensures blocks[b].entryId == old(blocks[b].entryId) && blocks[b].living == old(blocks[b].living)
      ensures next == eid + |fn.blocks[b].instrs| && |blocks[b].eids| == |fn.blocks[b].instrs|
      ensures forall i :: 0 <= i < |blocks[b].eids| ==> blocks[b].eids[i] == eid + i
    {
      next := eid;
      var eids: seq<nat> := [];
      while |eids| < |blocks[b].code.instrs|
        invariant |eids| <= |fn.blocks[b].instrs| && next == eid + |eids|
        invariant forall i :: 0 <= i < |eids| ==> eids[i] == eid + i
      {
        eids := eids + [next];
        next := next + 1;
      }
      blocks[b].eids := eids;
    }

    method NumberBlock(b: nat, id: nat) returns (next: nat)
      requires Built() && b < |blocks| && id == EntryId(fn, b)
      modifies blocks[b]
      ensures HasNumbers(blocks[b], b) && next == EntryId(fn, b + 1) && blocks[b].living == old(blocks[b].living)
    {
      blocks[b].entryId := id;
      next := EnumerateBlock(b, id + 1);
    }

    lemma BlocksApart()
      requires Built()
      ensures WellFormed(fn) && |blocks| == |fn.blocks| && EntryId(fn, 0) == 0
      ensures forall b, c :: 0 <= b < |blocks| && 0 <= c < |blocks| && b != c ==> blocks[b] != blocks[c]
    {
    }

    lemma NumberedIs()
      requires Built() && WellFormed(fn) && |blocks| == |fn.blocks|
      requires forall b :: 0 <= b < |blocks| ==> HasNumbers(blocks[b], b)
      ensures Numbered()
    {
      hide HasNumbers;
    }

    method Enumerate()
      requires Built()
      modifies blocks
      ensures Numbered()
      ensures forall b :: 0 <= b < |blocks| ==> blocks[b].living == old(blocks[b].living)
    {
      hide *;
      BlocksApart();
      var instructionId := 0;
      var b := 0;
      while b < |blocks|
        invariant 0 <= b <= |blocks| && instructionId == EntryId(fn, b)
        invariant forall c :: 0 <= c < b ==> HasNumbers(blocks[c], c)
        invariant forall c :: 0 <= c < |blocks| ==> blocks[c].living == old(blocks[c].living)
      {
        instructionId := NumberBlock(b, instructionId);
        b := b + 1;
      }
      NumberedIs();
    }

    // ----- the two kinds of elementary step -----

    method MarkAlive(v: nat, id: nat) returns (changed: bool)
      requires Valid() && v < |values|
      modifies {values[v]}`life, this`facts
      ensures Valid() && facts == Marked(old(facts), {v}, id)
      ensures Grew(old(facts), facts, changed)
    {
      hide WellFormed, Canonical, Alive;
      changed := values[v].SetAlive(id);
      facts := Marked(facts, {v}, id);
      assert forall u: nat, i: nat :: (u, i) in facts.alive <==> (u, i) in old(facts.alive) || (u == v && i == id);
      assert !changed ==> facts.alive == old(facts.alive);
    }

    method Find(b: nat, v: nat) returns (found: bool, idx: nat)
      requires b < |blocks|
      ensures found <==> v in blocks[b].living
      ensures found ==> idx < |blocks[b].living| && blocks[b].living[idx] == v
    {
      idx := 0;
      while idx < |blocks[b].living|
        invariant idx <= |blocks[b].living| && v !in blocks[b].living[..idx]
      {
        if blocks[b].living[idx] == v {
          return true, idx;
        }
        idx := idx + 1;
      }
      assert blocks[b].living[..idx] == blocks[b].living;
      found := false;
    }

    /** A block's living list replaced, and its living set with it. */
    method SetLiving(b: nat, now: seq<nat>, ghost next: set<nat>)
      requires Valid() && b < |blocks|
      requires forall v: nat :: v in next <==> v in now
      requires forall j :: 0 <= j < |now| ==> now[j] < |values|
      requires forall j, k :: 0 <= j < k < |now| ==> now[j] != now[k]
      modifies {blocks[b]}`living, this`facts
      ensures Valid() && facts == WithLiving(old(facts), b, next)
    {
      hide WellFormed, Canonical, Alive;
      blocks[b].living := now;
      facts := WithLiving(facts, b, next);
      forall c | 0 <= c < |blocks| ensures Lists(blocks[c].living, c) {
        assert c != b ==> old(Lists(blocks[c].living, c));
      }
    }

    lemma ListedOf(b: nat)
      requires Valid() && b < |blocks|
      ensures b < |facts.living| && Lists(blocks[b].living, b)
    {
    }

    method AddLiving(b: nat, v: nat)
      requires Valid() && b < |blocks| && v < |values|
      modifies {blocks[b]}`living, this`facts
      ensures Valid() && facts == WithLiving(old(facts), b, old(facts).living[b] + {v})
    {
      hide Valid;
      ListedOf(b);
      var found, _ := Find(b, v);
      SetLiving(b, if found then blocks[b].living else blocks[b].living + [v], facts.living[b] + {v});
    }

    method RemoveLiving(b: nat, idx: nat)
      requires Valid() && b < |blocks| && idx < |blocks[b].living|
      modifies {blocks[b]}`living, this`facts
      ensures Valid() && facts == WithLiving(old(facts), b, old(facts).living[b] - {old(blocks[b].living[idx])})
    {
      hide Valid;
      ListedOf(b);
      var was := blocks[b].living;
      ghost var v := was[idx];
      forall u: nat ensures u in was[..idx] + was[idx + 1..] <==> u in was && u != v {
        Without(was, idx, u);
      }
      SetLiving(b, was[..idx] + was[idx + 1..], facts.living[b] - {v});
    }

    // ----- one instruction -----

    /** Writes end a life: the value is alive at the write and not living above it. */
    method VisitWrites(b: nat, ins: Instr, eid: nat) returns (changed: bool)
      requires Valid() && b < |blocks| && b < |facts.living| && WellFormedInstr(fn, ins)
      modifies values`life, {blocks[b]}`living, this`facts
      ensures Valid() && Grew(old(facts), facts, changed)
      ensures facts == Killed(old(facts), b, Defs(fn, ins), eid)
    {
      changed := false;
      KilledNone(facts, b, DefsTo(fn, ins, 0), eid);
      LivingOnly(facts, facts);
      assert |values| == |fn.stores|;
      hide ValuesMatch, BlocksMatch, Grew, Killed;
      for o := 0 to 3
        invariant Valid() && Grew(old(facts), facts, changed)
        invariant facts == Killed(old(facts), b, DefsTo(fn, ins, o), eid)
      {
        if ins.ops[o].Some? && fn.Tracked(ins.ops[o].value) && Writes(ins.op, o) {
          ghost var f := facts;
          assert DefsTo(fn, ins, o + 1) == DefsTo(fn, ins, o) + {ins.ops[o].value};
          KilledMore(old(facts), b, DefsTo(fn, ins, o), ins.ops[o].value, eid);
          var c := Kill(b, ins.ops[o].value, eid);
          GrewTransitive(old(facts), f, facts, changed, c);
          changed := changed || c;
        } else {
          assert DefsTo(fn, ins, o + 1) == DefsTo(fn, ins, o);
        }
      }
    }

    method Kill(b: nat, v: nat, eid: nat) returns (changed: bool)
      requires Valid() && b < |blocks| && v < |values|
      modifies {values[v]}`life, {blocks[b]}`living, this`facts
      ensures Valid() && Grew(old(facts), facts, changed)
      ensures b < |old(facts).living| && facts == Killed(old(facts), b, {v}, eid)
    {
      var inLiving, idx := Find(b, v);
      changed := MarkAlive(v, eid);
      if inLiving {
        RemoveLiving(b, idx);
      } else {
        assert facts.living[b] - {v} == facts.living[b];
        assert facts == WithLiving(facts, b, facts.living[b] - {v});
      }
    }

    method MarkHeld(ins: Instr, o: nat, eid: nat) returns (changed: bool)
      requires Valid() && WellFormedInstr(fn, ins) && o < 3
      modifies values`life, this`facts
      ensures Valid() && Grew(old(facts), facts, changed)
      ensures facts == Marked(old(facts), HeldAt(ins, o), eid + 1)
    {
      hide ValuesMatch, BlocksMatch, Grew, Marked;
      changed := false;
      if Holds(ins.op, o) {
        changed := MarkAlive(ins.ops[o].value, eid + 1);
      } else {
        LivingOnly(facts, facts);
        MarkedNone(facts, HeldAt(ins, o), eid + 1);
      }
    }

    /** Operands the engine may read again stay alive for one more id. */
    method VisitHeld(b: nat, ins: Instr, eid: nat) returns (changed: bool)
      requires Valid() && WellFormedInstr(fn, ins)
      modifies values`life, this`facts
      ensures Valid() && Grew(old(facts), facts, changed)
      ensures facts == Marked(old(facts), Held(ins), eid + 1)
    {
      hide *;
      HeldAre(fn, ins);
      changed := MarkHeld(ins, 2, eid);
      ghost var f := facts;
      var c := MarkHeld(ins, 1, eid);
      GrewTransitive(old(facts), f, facts, changed, c);
      changed := changed || c;
      MarkedBoth(old(facts), HeldAt(ins, 2), HeldAt(ins, 1), eid + 1);
    }

    method VisitReads(b: nat, ins: Instr)
      requires Valid() && b < |blocks| && WellFormedInstr(fn, ins)
      modifies {blocks[b]}`living, this`facts
      ensures Valid() && facts == WithLiving(old(facts), b, old(facts).living[b] + OpUses(fn, ins))
    {
      assert facts.living[b] + OpUsesTo(fn, ins, 0) == facts.living[b] && |values| == |fn.stores|;
      hide ValuesMatch, BlocksMatch, OpUsesTo;
      for o := 0 to 3
        invariant Valid() && facts == WithLiving(old(facts), b, old(facts).living[b] + OpUsesTo(fn, ins, o))
      {
        if ins.ops[o].Some? && fn.Tracked(ins.ops[o].value) && Reads(ins.op, o) {
          OneMoreUse(ins, o);
          AddLiving(b, ins.ops[o].value);
          assert facts.living[b] == old(facts).living[b] + OpUsesTo(fn, ins, o + 1);
        } else {
          OneMoreUse(ins, o);
          assert OpUsesTo(fn, ins, o + 1) == OpUsesTo(fn, ins, o);
        }
      }
    }

    lemma OneMoreUse(ins: Instr, o: nat)
      requires WellFormedInstr(fn, ins) && o < 3
      ensures OpUsesTo(fn, ins, o + 1) == OpUsesTo(fn, ins, o) +
        if ins.ops[o].Some? && fn.Tracked(ins.ops[o].value) && Reads(ins.op, o) then {ins.ops[o].value} else {}
      ensures OpUsesTo(fn, ins, 3) == OpUses(fn, ins)
    {
    }

    method VisitParams(b: nat, ins: Instr)
      requires Valid() && b < |blocks| && WellFormedInstr(fn, ins)
      modifies {blocks[b]}`living, this`facts
      ensures Valid() && facts == WithLiving(old(facts), b, old(facts).living[b] + ParamUses(ins))
    {
      assert facts.living[b] + ParamUsesTo(ins, 0) == facts.living[b];
      for p := 0 to |ins.params|
        invariant Valid() && facts == WithLiving(old(facts), b, old(facts).living[b] + ParamUsesTo(ins, p))
      {
        assert ParamUsesTo(ins, p + 1) == ParamUsesTo(ins, p) + {ins.params[p]};
        AddLiving(b, ins.params[p]);
        assert facts.living[b] == old(facts).living[b] + ParamUsesTo(ins, p + 1);
      }
    }

    /** The elements of a living list, up to position n. */
    static function Elements(s: seq<nat>, n: nat): set<nat>
      requires n <= |s|
    {
      set j | 0 <= j < n :: s[j]
    }

    lemma LivingElements(b: nat)
      requires Valid() && b < |blocks|
      ensures forall k :: 0 <= k < |blocks[b].living| ==> blocks[b].living[k] < |values|
      ensures b < |facts.living| && Elements(blocks[b].living, |blocks[b].living|) == facts.living[b]
    {
      assert forall k :: 0 <= k < |blocks[b].living| ==> blocks[b].living[k] in blocks[b].living;
    }

    method LockValue(v: nat) returns (changed: bool)
      requires Valid() && v < |values|
      modifies {values[v]}`locked, this`facts
      ensures Valid() && values[v].locked && facts == LockedToo(old(facts), {v})
      ensures Grew(old(facts), facts, changed)
    {
      changed := !values[v].locked;
      if !values[v].locked {
        values[v].locked := true;
      }
      facts := LockedToo(facts, {v});
    }

    /** Across a call everything living must keep its place. */
    method LivingLock(b: nat) returns (changed: bool)
      requires Valid() && b < |blocks|
      modifies values`locked, this`facts
      ensures Valid() && Grew(old(facts), facts, changed)
      ensures b < |old(facts).living| && facts == LockedToo(old(facts), old(facts).living[b])
    {
      hide *;
      changed := false;
      LivingElements(b);
      var living := blocks[b].living;
      LivingOnly(facts, facts);
      LockedNone(facts, living);
      for k := 0 to |living|
        invariant Valid() && Grew(old(facts), facts, changed)
        invariant facts == LockedToo(old(facts), Elements(living, k))
      {
        ghost var f := facts;
        OneMoreElement(living, k);
        LockedMore(old(facts), Elements(living, k), living[k]);
        var c := LockValue(living[k]);
        GrewTransitive(old(facts), f, facts, changed, c);
        changed := changed || c;
      }
    }

    static lemma OneMoreElement(living: seq<nat>, k: nat)
      requires k < |living|
      ensures Elements(living, k + 1) == Elements(living, k) + {living[k]}
    {
    }

    static lemma LockedNone(f: Facts, living: seq<nat>)
      ensures f == LockedToo(f, Elements(living, 0))
    {
      assert f.locked + Elements(living, 0) == f.locked;
    }

    method LivingAddInstr(b: nat, eid: nat) returns (changed: bool)
      requires Valid() && b < |blocks| && b < |facts.living|
      modifies values`life, this`facts
      ensures Valid() && Grew(old(facts), facts, changed)
      ensures facts == Marked(old(facts), old(facts).living[b], eid)
    {
      changed := false;
      LivingElements(b);
      LivingOnly(facts, facts);
      var living := blocks[b].living;
      MarkedNone(facts, Elements(living, 0), eid);
      hide Valid, Grew, Marked;
      for k := 0 to |living|
        invariant Valid() && Grew(old(facts), facts, changed)
        invariant facts == Marked(old(facts), Elements(living, k), eid)
      {
        ghost var f := facts;
        assert Elements(living, k + 1) == Elements(living, k) + {living[k]};
        MarkedMore(old(facts), Elements(living, k), living[k], eid);
        var c := MarkAlive(living[k], eid);
        GrewTransitive(old(facts), f, facts, changed, c);
        changed := changed || c;
      }
    }

    method VisitInstr(b: nat, i: nat) returns (changed: bool)
      requires Valid() && Numbered() && At(fn, b, i) && WellFormedInstr(fn, fn.blocks[b].instrs[i])
      modifies values`life, values`locked, {blocks[b]}`living, this`facts
      ensures Valid() && Grew(old(facts), facts, changed)
      ensures b < |old(facts).living| && InstrVisited(fn, old(facts), facts, b, fn.blocks[b].instrs[i], InstrId(fn, b, i))
    {
      assert HasNumbers(blocks[b], b);
      hide ValuesMatch, BlocksMatch, Grew;
      var ins, eid := blocks[b].code.instrs[i], blocks[b].eids[i];
      changed := VisitWrites(b, ins, eid);
      ghost var f1 := facts;
      var c := VisitHeld(b, ins, eid);
      ghost var f2 := facts;
      GrewTransitive(old(facts), f1, f2, changed, c);
      changed := changed || c;
      VisitReads(b, ins);
      ghost var f3 := facts;
      LivingOnly(f2, f3);
      GrewTransitive(old(facts), f2, f3, changed, false);
      if ins.op.Call? {
        c := LivingLock(b);
        GrewTransitive(old(facts), f3, facts, changed, c);
        changed := changed || c;
      }
      ghost var f4 := facts;
      VisitParams(b, ins);
      ghost var f5 := facts;
      LivingOnly(f4, f5);
      GrewTransitive(old(facts), f4, f5, changed, false);
      c := LivingAddInstr(b, eid);
      GrewTransitive(old(facts), f5, facts, changed, c);
      changed := changed || c;
      ComposeInstr(fn, b, ins, eid, old(facts), f1, f2, f3, f4, f5, facts);
    }

    // ----- one block -----

    method ClearLiving(b: nat)
      requires Valid() && b < |blocks|
      modifies {blocks[b]}`living, this`facts
      ensures Valid() && facts == WithLiving(old(facts), b, {})
    {
      blocks[b].living := [];
      facts := WithLiving(facts, b, {});
    }

    method AddAll(b: nat, e: nat)
      requires Valid() && b < |blocks| && e < |blocks|
      modifies {blocks[b]}`living, this`facts
      ensures Valid() && facts == WithLiving(old(facts), b, old(facts).living[b] + old(facts).living[e])
    {
      hide *;
      LivingElements(b);
      LivingElements(e);
      var prev := blocks[e].living;
      NothingMore(facts, b, prev);
      for k := 0 to |prev|
        invariant Valid() && facts == WithLiving(old(facts), b, old(facts).living[b] + Elements(prev, k))
      {
        OneMoreElement(prev, k);
        MoreLiving(old(facts), b, Elements(prev, k), prev[k]);
        AddLiving(b, prev[k]);
      }
    }

    static lemma NothingMore(f: Facts, b: nat, prev: seq<nat>)
      requires b < |f.living|
      ensures f == WithLiving(f, b, f.living[b] + Elements(prev, 0))
    {
      assert f.living[b] + Elements(prev, 0) == f.living[b];
    }

    static lemma MoreLiving(f: Facts, b: nat, s: set<nat>, v: nat)
      requires b < |f.living|
      ensures var g := WithLiving(f, b, f.living[b] + s);
        b < |g.living| && WithLiving(g, b, g.living[b] + {v}) == WithLiving(f, b, f.living[b] + (s + {v}))
    {
      assert f.living[b] + s + {v} == f.living[b] + (s + {v});
    }

    /** What the first n exits want, b's own set taken for empty. */
    ghost function WantedBy(living: Living, b: nat, n: nat): set<nat>
      requires b < |fn.blocks| && n <= |fn.blocks[b].exits|
    {
      var exits := fn.blocks[b].exits;
      set k, v | 0 <= k < n && exits[k] != b && exits[k] < |living| && v in living[exits[k]] :: v
    }

    lemma OneMoreExit(living: Living, b: nat, n: nat)
      requires b < |fn.blocks| == |living| && n < |fn.blocks[b].exits| && fn.blocks[b].exits[n] < |living|
      ensures var e := fn.blocks[b].exits[n];
        WantedBy(living, b, n + 1) == WantedBy(living, b, n) + if e == b then WantedBy(living, b, n) else living[e]
    {
      var exits := fn.blocks[b].exits;
      assert exits[n] != b ==> forall v :: v in living[exits[n]] ==> v in WantedBy(living, b, n + 1);
    }

    lemma AllExits(living: Living, b: nat)
      requires b < |fn.blocks| == |living|
      ensures WantedBy(living, b, 0) == {} && WantedBy(living, b, |fn.blocks[b].exits|) == LiveOut(fn, living, b)
    {
    }

    lemma ExitsOf(b: nat)
      requires Valid() && b < |blocks|
      ensures b < |fn.blocks| == |facts.living| == |blocks| && blocks[b].code == fn.blocks[b]
      ensures forall k :: 0 <= k < |fn.blocks[b].exits| ==> fn.blocks[b].exits[k] < |blocks|
    {
      assert WellFormedBlock(fn, fn.blocks[b]);
    }

    lemma WithMore(f: Facts, b: nat, s: set<nat>, e: nat)
      requires b < |f.living| && e < |f.living|
      ensures b < |WithLiving(f, b, s).living| && e < |WithLiving(f, b, s).living|
      ensures var g := WithLiving(f, b, s);
        WithLiving(g, b, g.living[b] + g.living[e]) == WithLiving(f, b, s + if e == b then s else f.living[e])
    {
    }

    /** Start from what the exits want; the block's own set is cleared before they are read. */
    method GatherExits(b: nat)
      requires Valid() && b < |blocks|
      modifies {blocks[b]}`living, this`facts
      ensures Valid() && facts == WithLiving(old(facts), b, LiveOut(fn, old(facts).living, b))
    {
      hide *;
      ghost var f0 := facts;
      ExitsOf(b);
      AllExits(f0.living, b);
      ClearLiving(b);
      var exits := blocks[b].code.exits;
      for e := 0 to |exits|
        invariant Valid() && facts == WithLiving(f0, b, WantedBy(f0.living, b, e))
      {
        WithMore(f0, b, WantedBy(f0.living, b, e), exits[e]);
        OneMoreExit(f0.living, b, e);
        AddAll(b, exits[e]);
      }
    }

    lemma LengthsAgree(b: nat)
      requires Valid() && b < |blocks|
      ensures Shape(fn, facts) && |blocks| == |fn.blocks| && blocks[b].code == fn.blocks[b]
      ensures forall i :: 0 <= i < |fn.blocks[b].instrs| ==> WellFormedInstr(fn, fn.blocks[b].instrs[i])
    {
      assert WellFormedBlock(fn, fn.blocks[b]);
    }

    method LifePropagate(b: nat) returns (changed: bool)
      requires Valid() && Numbered() && b < |blocks|
      modifies values`life, values`locked, {blocks[b]}`living, this`facts
      ensures Valid() && Numbered() && Visited(fn, old(facts), facts, b)
      ensures Grew(old(facts), facts, changed)
    {
      hide *;
      LengthsAgree(b);
      EntryNumber(b);
      var code, entryId := blocks[b].code, blocks[b].entryId;
      GatherExits(b);
      changed := false;
      VisitedNone(fn, old(facts), facts, b);
      LivingCleared(old(facts), b, LiveOut(fn, old(facts).living, b));
      var i := |code.instrs|;
      while i > 0
        invariant 0 <= i <= |code.instrs| && Valid() && Numbered()
        invariant VisitedFrom(fn, old(facts), facts, b, i) && Grew(old(facts), facts, changed)
      {
        i := i - 1;
        ghost var f := facts;
        Present(b, i);
        var c := VisitInstr(b, i);
        VisitedStep(fn, old(facts), f, facts, b, i);
        GrewTransitive(old(facts), f, facts, changed, c);
        changed := changed || c;
      }
      ghost var g := facts;
      LengthsAgree(b);
      var c := LivingAddInstr(b, entryId);
      VisitedAll(fn, old(facts), g, facts, b, entryId);
      GrewTransitive(old(facts), g, facts, changed, c);
      changed := changed || c;
    }

    lemma EntryNumber(b: nat)
      requires Valid() && Numbered() && b < |blocks|
      ensures b < |fn.blocks| && blocks[b].entryId == EntryId(fn, b)
    {
      assert HasNumbers(blocks[b], b);
    }

    lemma Present(b: nat, i: nat)
      requires b < |fn.blocks| && i < |fn.blocks[b].instrs|
      ensures At(fn, b, i)
    {
    }

    // ----- the iteration -----

    /** Every pair of a value and an id of this function. */
    ghost function Universe(): set<(nat, nat)> {
      set v: nat, id: nat | v < |values| && id <= EntryId(fn, |fn.blocks|) :: (v, id)
    }

    ghost predicate IsValue(v: nat) {
      v < |values|
    }

    ghost function AllValues(): set<nat> {
      set v: nat | v < |values| && IsValue(v)
    }

    lemma AliveInUniverse(locked0: set<nat>)
      requires Valid() && Invariant(fn, facts, locked0)
      ensures facts.alive <= Universe() && facts.locked <= AllValues()
    {
      EntriesGrow(fn, 0, |fn.blocks|);
      forall p | p in facts.alive ensures p in Universe() {
        var (v, id) := p;
        assert v < |values|;
        if b :| 0 <= b < |fn.blocks| && Recorded(fn, facts.living, b, v, id) {
          RecordedInBlock(fn, facts.living, b, v, id);
          EntriesGrow(fn, b, |fn.blocks|);
        }
      }
      assert forall v: nat :: v in facts.locked ==> IsValue(v);
    }

    method SetParamsAlive()
      requires Valid() && forall v: nat, id: nat :: (v, id) !in facts.alive
      modifies values`life, this`facts
      ensures Valid() && facts.locked == old(facts.locked) && facts.living == old(facts.living)
      ensures forall v: nat, id: nat :: (v, id) in facts.alive <==> v < fn.nparams && id == 0
    {
      for i := 0 to fn.nparams
        invariant Valid() && facts.locked == old(facts.locked) && facts.living == old(facts.living)
        invariant forall v: nat, id: nat :: (v, id) in facts.alive <==> v < i && id == 0
      {
        var _ := MarkAlive(i, 0);
      }
    }

    /** One pass over all blocks, last block first. */
    method Pass(ghost locked0: set<nat>) returns (changed: bool)
      requires Valid() && Numbered() && Invariant(fn, facts, locked0)
      modifies values`life, values`locked, blocks`living, this`facts
      ensures Valid() && Numbered() && Invariant(fn, facts, locked0)
      ensures Grew(old(facts), facts, changed)
      ensures !changed ==> Solved(fn, facts, locked0)
    {
      changed := false;
      LivingOnly(facts, facts);
      var k := |blocks|;
      ghost var nblocks := |fn.blocks|;
      BlockCount();
      NoneSettled(facts);
      hide *;
      while k > 0
        invariant 0 <= k <= |blocks| && |blocks| == nblocks == |fn.blocks| && Valid() && Numbered() && Invariant(fn, facts, locked0)
        invariant Grew(old(facts), facts, changed)
        invariant Shape(fn, facts)
        invariant !changed ==> facts == old(facts) && SettledFrom(facts, k)
      {
        k := k - 1;
        ghost var f := facts;
        var c := LifePropagate(k);
        VisitKeeps(fn, f, facts, locked0, k);
        GrewTransitive(old(facts), f, facts, changed, c);
        ShapeKept(f, k, locked0);
        if !c {
          QuietlySettled(f, k, locked0);
          OneMoreSettled(facts, k);
        }
        changed := changed || c;
      }
      if !changed {
        AllSettled(facts, locked0);
      }
    }

    ghost predicate SettledFrom(f: Facts, k: nat)
      requires Shape(fn, f)
    {
      forall c :: k <= c < |fn.blocks| ==> Settled(fn, f, c)
    }

    lemma NoneSettled(f: Facts)
      requires Shape(fn, f)
      ensures SettledFrom(f, |fn.blocks|)
    {
      hide Settled, WellFormed;
    }

    lemma OneMoreSettled(f: Facts, k: nat)
      requires Shape(fn, f) && k < |fn.blocks| && Settled(fn, f, k)
      ensures SettledFrom(f, k + 1) ==> SettledFrom(f, k)
    {
      hide Settled, WellFormed;
    }

    lemma AllSettled(f: Facts, locked0: set<nat>)
      requires Shape(fn, f) && Invariant(fn, f, locked0) && SettledFrom(f, 0)
      ensures Solved(fn, f, locked0)
    {
      SettledSolves(fn, f, locked0);
    }

    lemma BlockCount()
      requires Valid()
      ensures |blocks| == |fn.blocks| && Shape(fn, facts)
    {
    }

    lemma ShapeKept(f: Facts, k: nat, locked0: set<nat>)
      requires Valid() && Invariant(fn, facts, locked0)
      ensures Shape(fn, facts)
    {
    }

    lemma QuietlySettled(f: Facts, k: nat, locked0: set<nat>)
      requires k < |fn.blocks| && Invariant(fn, f, locked0) && Visited(fn, f, facts, k) && Grew(f, facts, false)
      ensures Shape(fn, facts) && facts == f && Settled(fn, facts, k)
    {
      QuietVisit(fn, f, facts, locked0, k);
    }

    /** Parameters live at 0. */
    method StartLives()
      requires Valid() && forall v: nat, id: nat :: (v, id) !in facts.alive
      requires facts.living == seq(|fn.blocks|, b => {})
      modifies values`life, this`facts
      ensures Valid() && Invariant(fn, facts, old(facts.locked))
      ensures facts.alive <= Universe() && facts.locked <= AllValues()
    {
      SetParamsAlive();
      InvariantInitially(fn, facts);
      AliveInUniverse(facts.locked);
    }

    method CalculateLiferanges()
      requires Valid() && Numbered()
      requires forall v: nat, id: nat :: (v, id) !in facts.alive
      requires facts.living == seq(|fn.blocks|, b => {})
      modifies values`life, values`locked, blocks`living, this`facts, this`runId
      ensures Valid() && Numbered()
      ensures Solved(fn, facts, old(facts.locked)) && Invariant(fn, facts, old(facts.locked))
    {
      hide *;
      ghost var locked0 := facts.locked;
      StartLives();
      var changed := true;
      while changed
        invariant Valid() && Numbered() && Invariant(fn, facts, locked0)
        invariant !changed ==> Solved(fn, facts, locked0)
        invariant facts.alive <= Universe() && facts.locked <= AllValues()
        decreases Universe() - facts.alive, AllValues() - facts.locked, changed
      {
        runId := runId + 1;
        changed := Step(locked0);
      }
    }

    /** A local living at the top of the function is read before it is written. */
    ghost predicate HasUninitialized()
      reads this`facts
    {
      |facts.living| > 0 && exists v :: v in facts.living[0] && IsLocal(v)
    }

    predicate IsLocal(v: nat) {
      v < |fn.stores| && fn.stores[v].Local?
    }

    method FlagUninitialized()
      requires Valid()
      modifies this`noLocalTemps
      ensures Valid() && (noLocalTemps <==> old(noLocalTemps) || HasUninitialized())
    {
      BlockCount();
      LivingElements(0);
      var living := blocks[0].living;
      assert forall v: nat :: v in facts.living[0] <==> v in living;
      for k := 0 to |living|
        invariant Valid() && (noLocalTemps <==> old(noLocalTemps) || exists j :: 0 <= j < k && IsLocal(living[j]))
      {
        if IsLocal(living[k]) {
          noLocalTemps := true;
        }
      }
      assert (exists j :: 0 <= j < |living| && IsLocal(living[j])) ==> HasUninitialized() by {
        if j :| 0 <= j < |living| && IsLocal(living[j]) {
          assert living[j] in living;
        }
      }
    }

    /** A pass, and how far it brings the iteration towards its end. */
    method Step(ghost locked0: set<nat>) returns (changed: bool)
      requires Valid() && Numbered() && Invariant(fn, facts, locked0)
      requires facts.alive <= Universe() && facts.locked <= AllValues()
      modifies values`life, values`locked, blocks`living, this`facts
      ensures Valid() && Numbered() && Invariant(fn, facts, locked0)
      ensures !changed ==> Solved(fn, facts, locked0)
      ensures facts.alive <= Universe() && facts.locked <= AllValues()
      ensures Universe() - facts.alive <= Universe() - old(facts.alive)
      ensures AllValues() - facts.locked <= AllValues() - old(facts.locked)
      ensures facts.alive == old(facts.alive) || Universe() - facts.alive < Universe() - old(facts.alive)
      ensures changed && facts.alive == old(facts.alive) ==> AllValues() - facts.locked < AllValues() - old(facts.locked)
    {
      hide Valid, Numbered, Invariant, Solved, Universe, AllValues;
      ghost var f := facts;
      changed := Pass(locked0);
      AliveInUniverse(locked0);
      Shrinks(f.alive, facts.alive, Universe());
      Shrinks(f.locked, facts.locked, AllValues());
    }

    static lemma Shrinks<T>(was: set<T>, now: set<T>, all: set<T>)
      requires was <= now <= all
      ensures all - now <= all - was
      ensures was != now ==> all - now < all - was
    {
      if was != now {
        var x :| x in now && x !in was;
        assert x in all - was && x !in all - now;
      }
    }

    static lemma Without(s: seq<nat>, idx: nat, u: nat)
      requires idx < |s| && forall j, k :: 0 <= j < k < |s| ==> s[j] != s[k]
      ensures u in s[..idx] + s[idx + 1..] <==> u in s && u != s[idx]
    {
      if u in s && u != s[idx] {
        var k :| 0 <= k < |s| && s[k] == u;
        assert k < idx ==> s[..idx][k] == u;
        assert k > idx ==> s[idx + 1..][k - idx - 1] == u;
      }
    }
  }
}
