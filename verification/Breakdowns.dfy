// Two functions that are compiled wrongly: one whose block is its own successor, and one that
// computes the arguments of two calls before it decides which of them to make. The second one is not
// the code of any program: the code of a call always goes on from an argument to the call.

module Breakdowns {
  import opened Ir
  import opened Wrappers
  import opened Liveness
  import opened LifeRanges
  import opened IrValues
  import opened Interference
  import opened Sums
  import opened SlotAllocator
  import opened Placement
  import opened ParkingRule
  import opened SlotMachine
  import opened Parking

  function Setter(v: nat): Instr { Instr(Plain(0), [Some(v), None, None], []) }

  function Tester(c: nat): Instr { Instr(If, [Some(c), None, None], []) }

  function Caller(g: nat, v: nat): Instr { Instr(Call, [None, Some(g), None], [v]) }

  const BACK: Instr := Instr(Return, [None, None, None], [])

  lemma SetterFits(fn: Func, v: nat)
    requires v < |fn.stores|
    ensures WellFormedInstr(fn, Setter(v))
  {
  }

  lemma TesterFits(fn: Func, c: nat)
    requires c < |fn.stores| && !fn.stores[c].ReturnCell?
    ensures WellFormedInstr(fn, Tester(c)) && WellFormedInstr(fn, BACK)
  {
  }

  lemma CallerFits(fn: Func, g: nat, v: nat)
    requires g < |fn.stores| && v < |fn.stores| && !fn.stores[g].ReturnCell? && !fn.stores[v].ReturnCell?
    ensures WellFormedInstr(fn, Caller(g, v))
  {
  }

  lemma SetterSets(fn: Func, v: nat)
    requires fn.Tracked(v)
    ensures Uses(fn, Setter(v)) == {} && Defs(fn, Setter(v)) == {v}
  {
    assert Setter(v).ops[0] == Some(v);
  }

  lemma TesterTests(fn: Func, c: nat)
    requires !fn.Tracked(c)
    ensures Uses(fn, Tester(c)) == {} && Defs(fn, Tester(c)) == {}
    ensures Uses(fn, BACK) == {} && Defs(fn, BACK) == {}
  {
  }

  lemma CallerPasses(fn: Func, g: nat, v: nat)
    requires !fn.Tracked(g)
    ensures OpUses(fn, Caller(g, v)) == {} && Uses(fn, Caller(g, v)) == {v} && Defs(fn, Caller(g, v)) == {}
  {
    assert Caller(g, v).params[0] == v;
    assert ParamUses(Caller(g, v)) == {v};
  }

  const GO: Instr := Instr(Jump, [None, None, None], [])

  /** Instruction i of block b yields b + i + 1, whatever it reads; every branch takes the first exit. */
  function Counting(): Semantics<nat> {
    Semantics((b: nat, i: nat, seen: seq<Content>, w: nat) => ([b + i + 1], w),
              (v: nat, w: nat) => [],
              (b: nat, seen: seq<Content>, w: nat) => 0)
  }

  function Quiet(): nat -> nat -> int {
    (n: nat) => (a: nat) => 0
  }

  // ----- steps of both executions -----

  function After(c: Control<nat>, seen: seq<Content>): Control<nat> {
    Control(c.b, c.i + 1, c.w, c.trace + [Event(c.b, c.i, seen)], false)
  }

  function Jumped(fn: Func, c: Control<nat>, seen: seq<Content>): Control<nat>
    requires c.b < |fn.blocks| && fn.blocks[c.b].exits != []
  {
    Control(fn.blocks[c.b].exits[0], 0, c.w, c.trace + [Event(c.b, c.i, seen)], false)
  }

  predicate Ordinary(fn: Func, c: Control<nat>)
    requires WellFormed(fn)
  {
    && !c.halted && At(fn, c.b, c.i)
    && InstrAt(fn, c.b, c.i).params == [] && !Terminates(InstrAt(fn, c.b, c.i).op) && !IsCall(InstrAt(fn, c.b, c.i).op)
  }

  predicate Jumps(fn: Func, c: Control<nat>)
    requires WellFormed(fn)
  {
    && !c.halted && At(fn, c.b, c.i) && fn.blocks[c.b].exits != []
    && InstrAt(fn, c.b, c.i).params == [] && Terminates(InstrAt(fn, c.b, c.i).op)
    && !InstrAt(fn, c.b, c.i).op.Return? && !InstrAt(fn, c.b, c.i).op.NrCall?
  }

  lemma IdealOrdinary(fn: Func, s: Ideal<nat>)
    requires WellFormed(fn) && Ordinary(fn, s.c)
    ensures var ins := InstrAt(fn, s.c.b, s.c.i);
      var d := Dest(fn, ins);
      IdealStep(fn, Counting(), s) ==
        Ideal(After(s.c, IdealReads(fn, Counting(), s, ReadList(ins))),
              if d.None? || d.value >= |s.env| then s.env else s.env[d.value := Fit([s.c.b + s.c.i + 1], fn.sizes[d.value])])
  {
    hide WellFormed, IdealReads, ReadList, Fit;
  }

  lemma IdealJump(fn: Func, s: Ideal<nat>)
    requires WellFormed(fn) && Jumps(fn, s.c)
    ensures IdealStep(fn, Counting(), s) ==
      Ideal(Jumped(fn, s.c, IdealReads(fn, Counting(), s, ReadList(InstrAt(fn, s.c.b, s.c.i)))), s.env)
  {
    hide WellFormed, IdealReads, ReadList, Fit;
  }

  lemma NoArguments<W>(fn: Func, sem: Semantics<W>, img: Image, w: W, mem: seq<int>, ops: seq<Content>)
    requires |fn.sizes| == |fn.stores|
    ensures Marshal(fn, sem, img, w, mem, [], 0) == mem && ops + Arguments(fn, mem, []) == ops
  {
  }

  lemma MachineOrdinary(fn: Func, img: Image, noise: nat -> int, t: Machine<nat>)
    requires WellFormed(fn) && Ordinary(fn, t.c)
    ensures var ins := InstrAt(fn, t.c.b, t.c.i);
      var d := Dest(fn, ins);
      MachineStep(fn, Counting(), img, noise, t) ==
        Machine(After(t.c, MachineReads(fn, Counting(), img, t.c.w, t.mem, OpList(ins, 3))),
                if d.None? then t.mem else SlotMachine.Store(t.mem, Where(img, d.value), Fit([t.c.b + t.c.i + 1], fn.sizes[d.value])))
  {
    StepMemory(fn, Counting(), img, noise, t);
    QuietBefore(fn, Counting(), img, noise, t.c.w, t.mem, t.c.b, t.c.i);
    NoArguments(fn, Counting(), img, t.c.w, t.mem, MachineReads(fn, Counting(), img, t.c.w, t.mem, OpList(InstrAt(fn, t.c.b, t.c.i), 3)));
    hide WellFormed, MachineStep, BeforeResult, MachineReads, Marshal, Arguments, Fit, SlotMachine.Store, Where, OpList;
  }

  lemma MachineJump(fn: Func, img: Image, noise: nat -> int, t: Machine<nat>)
    requires WellFormed(fn) && Jumps(fn, t.c)
    ensures MachineStep(fn, Counting(), img, noise, t) ==
      Machine(Jumped(fn, t.c, MachineReads(fn, Counting(), img, t.c.w, t.mem, OpList(InstrAt(fn, t.c.b, t.c.i), 3))), t.mem)
  {
    StepMemory(fn, Counting(), img, noise, t);
    QuietBefore(fn, Counting(), img, noise, t.c.w, t.mem, t.c.b, t.c.i);
    NoArguments(fn, Counting(), img, t.c.w, t.mem, MachineReads(fn, Counting(), img, t.c.w, t.mem, OpList(InstrAt(fn, t.c.b, t.c.i), 3)));
    hide WellFormed, MachineStep, BeforeResult, MachineReads, Marshal, Arguments, Fit, SlotMachine.Store, Where, OpList;
  }

  lemma StoreOne(mem: seq<int>, a: nat, x: int)
    requires a < |mem|
    ensures SlotMachine.Store(mem, a, Fit([x], 1)) == mem[a := x]
  {
    assert Fit([x], 1) == [x];
  }

  lemma IdealNext<W>(fn: Func, sem: Semantics<W>, s: Ideal<W>, n: nat)
    requires WellFormed(fn)
    ensures IdealRun(fn, sem, s, 0) == s && IdealRun(fn, sem, s, n + 1) == IdealStep(fn, sem, IdealRun(fn, sem, s, n))
  {
    hide IdealStep, WellFormed;
  }

  lemma MachineNext<W>(fn: Func, sem: Semantics<W>, img: Image, noise: nat -> nat -> int, t: Machine<W>, n: nat)
    requires WellFormed(fn)
    ensures MachineRun(fn, sem, img, noise, t, 0) == t
    ensures MachineRun(fn, sem, img, noise, t, n + 1) == MachineStep(fn, sem, img, noise(n + 1), MachineRun(fn, sem, img, noise, t, n))
  {
    hide MachineStep, WellFormed;
  }

  predicate IsAt(c: Control<nat>, b: nat, i: nat, n: nat) {
    c.b == b && c.i == i && c.w == 0 && |c.trace| == n && !c.halted
  }

  // ----- arguments of two calls on different branches -----

  // t = ...; u = ...; if (c) g(t); else g(u);
  const DIAMOND: Func := Func([Temp, Temp, Global, Global], [1, 1, 1, 1], 0, 0, 2,
    [Block([Setter(0), Setter(1), Tester(3)], [1, 2]),
     Block([Caller(2, 0), BACK], []),
     Block([Caller(2, 1), BACK], [])])

  lemma DiamondInstrs()
    ensures WellFormedInstr(DIAMOND, Setter(0)) && WellFormedInstr(DIAMOND, Setter(1)) && WellFormedInstr(DIAMOND, Tester(3))
    ensures WellFormedInstr(DIAMOND, Caller(2, 0)) && WellFormedInstr(DIAMOND, Caller(2, 1)) && WellFormedInstr(DIAMOND, BACK)
  {
    SetterFits(DIAMOND, 0);
    SetterFits(DIAMOND, 1);
    CallerFits(DIAMOND, 2, 0);
    CallerFits(DIAMOND, 2, 1);
    TesterFits(DIAMOND, 3);
    hide WellFormedInstr;
  }

  lemma DiamondBlocks()
    ensures WellFormedBlock(DIAMOND, DIAMOND.blocks[0])
    ensures WellFormedBlock(DIAMOND, DIAMOND.blocks[1])
    ensures WellFormedBlock(DIAMOND, DIAMOND.blocks[2])
  {
    DiamondInstrs();
    hide WellFormedInstr;
  }

  lemma DiamondShape()
    ensures WellFormed(DIAMOND)
  {
    DiamondBlocks();
    hide WellFormedInstr, WellFormedBlock;
  }

  lemma DiamondParts()
    ensures Uses(DIAMOND, Tester(3)) == {} && Defs(DIAMOND, Tester(3)) == {} && Uses(DIAMOND, BACK) == {} && Defs(DIAMOND, BACK) == {}
    ensures Uses(DIAMOND, Setter(0)) == {} && Defs(DIAMOND, Setter(0)) == {0}
    ensures Uses(DIAMOND, Setter(1)) == {} && Defs(DIAMOND, Setter(1)) == {1}
    ensures Uses(DIAMOND, Caller(2, 0)) == {0} && Defs(DIAMOND, Caller(2, 0)) == {} && OpUses(DIAMOND, Caller(2, 0)) == {}
    ensures Uses(DIAMOND, Caller(2, 1)) == {1} && Defs(DIAMOND, Caller(2, 1)) == {} && OpUses(DIAMOND, Caller(2, 1)) == {}
  {
    hide Uses, Defs, OpUses;
    TesterTests(DIAMOND, 3);
    SetterSets(DIAMOND, 0);
    SetterSets(DIAMOND, 1);
    CallerPasses(DIAMOND, 2, 0);
    CallerPasses(DIAMOND, 2, 1);
  }

  lemma DiamondUses(c: nat, j: nat, v: nat)
    requires WellFormed(DIAMOND) && At(DIAMOND, c, j)
    ensures v in Uses(DIAMOND, InstrAt(DIAMOND, c, j)) <==> j == 0 && ((c == 1 && v == 0) || (c == 2 && v == 1))
    ensures v in Defs(DIAMOND, InstrAt(DIAMOND, c, j)) <==> c == 0 && j == v && v < 2
    ensures OpUses(DIAMOND, InstrAt(DIAMOND, c, j)) == {}
  {
    DiamondParts();
    hide Uses, Defs, OpUses, WellFormed;
    assert InstrAt(DIAMOND, c, j) == DIAMOND.blocks[c].instrs[j];
    assert OpUses(DIAMOND, InstrAt(DIAMOND, c, j)) <= Uses(DIAMOND, InstrAt(DIAMOND, c, j)) by {
      UsesAre(DIAMOND, InstrAt(DIAMOND, c, j));
    }
  }

  lemma UsesAre(fn: Func, ins: Instr)
    requires |ins.ops| == 3
    ensures OpUses(fn, ins) <= Uses(fn, ins)
  {
  }

  lemma DiamondEnds(c: nat, v: nat)
    requires WellFormed(DIAMOND) && (c == 1 || c == 2)
    ensures !Readable(DIAMOND, v, c, 1)
  {
    DiamondUses(c, 1, v);
    hide Uses, Defs, WellFormed;
    assert InstrAt(DIAMOND, c, 1) == DIAMOND.blocks[c].instrs[1];
    forall n: nat ensures !ReadOnPath(DIAMOND, v, c, 1, n) {
      assert !ReadOnPath(DIAMOND, v, c, 2, n);
    }
  }

  lemma DiamondKeepsNothing(v: nat)
    requires WellFormed(DIAMOND)
    ensures !KeptAcross(DIAMOND, v)
  {
    forall b: nat, i: nat | At(DIAMOND, b, i) ensures !AcrossCallAt(DIAMOND, v, b, i) {
      assert InstrAt(DIAMOND, b, i) == DIAMOND.blocks[b].instrs[i];
      DiamondUses(b, i, v);
      hide WellFormed, Uses, Defs, OpUses, Readable;
      if InstrAt(DIAMOND, b, i).op.Call? {
        assert i == 0 && (b == 1 || b == 2);
        DiamondEnds(b, v);
      }
    }
  }

  lemma DiamondSites(v: nat, c: nat, j: nat)
    requires WellFormed(DIAMOND) && v < 2 && At(DIAMOND, c, j)
    ensures v in Uses(DIAMOND, InstrAt(DIAMOND, c, j)) <==> c == v + 1 && j == 0
    ensures WriteCount(InstrAt(DIAMOND, c, j), v) == (if c == 0 && j == v then 1 else 0)
  {
    DiamondUses(c, j, v);
    hide WellFormed, Uses, Defs;
    assert InstrAt(DIAMOND, c, j) == DIAMOND.blocks[c].instrs[j];
  }

  lemma DiamondCallOf(v: nat)
    requires WellFormed(DIAMOND) && v < 2
    ensures At(DIAMOND, 0, v) && At(DIAMOND, v + 1, 0) && DIAMOND.nlocals == 0 && DIAMOND.nvalues == 2
    ensures InstrAt(DIAMOND, v + 1, 0).op.Call? && InstrAt(DIAMOND, v + 1, 0).params == [v]
  {
    hide WellFormed;
    assert InstrAt(DIAMOND, v + 1, 0) == DIAMOND.blocks[v + 1].instrs[0];
  }

  /** v is written at (b, i) only, and read by the call at (c, j) only, whose one argument it is. */
  lemma FitsRule(fn: Func, v: nat, b: nat, i: nat, c: nat, j: nat)
    requires WellFormed(fn) && fn.nlocals <= v < fn.nlocals + fn.nvalues && At(fn, b, i) && At(fn, c, j)
    requires forall d: nat, k: nat :: At(fn, d, k) ==>
      (v in Uses(fn, InstrAt(fn, d, k)) <==> d == c && k == j) && WriteCount(InstrAt(fn, d, k), v) == (if d == b && k == i then 1 else 0)
    requires InstrAt(fn, c, j).op.Call? && InstrAt(fn, c, j).params == [v] && v !in OpUses(fn, InstrAt(fn, c, j))
    ensures Parks(fn, {}, v, 0)
  {
    hide WellFormed, Uses, OpUses, WriteCount, InstrAt, At;
    assert OnlyWrittenAt(fn, v, b, i);
    assert OnlyReadAsArgument(fn, v, c, j, 0);
  }

  lemma DiamondParks(v: nat)
    requires WellFormed(DIAMOND) && v < 2
    ensures Parks(DIAMOND, {}, v, 0)
  {
    hide WellFormed, Uses, Defs, OpUses, WriteCount, InstrAt, At, Parks;
    DiamondCallOf(v);
    DiamondUses(v + 1, 0, v);
    forall c: nat, j: nat | At(DIAMOND, c, j)
      ensures v in Uses(DIAMOND, InstrAt(DIAMOND, c, j)) <==> c == v + 1 && j == 0
      ensures WriteCount(InstrAt(DIAMOND, c, j), v) == (if c == 0 && j == v then 1 else 0)
    {
      DiamondSites(v, c, j);
    }
    FitsRule(DIAMOND, v, 0, v, v + 1, 0);
  }

  /** Both t and u fit the rule for the first argument cell, and u is written while t is still to be passed. */
  lemma ParkingCanDisturb()
    ensures WellFormed(DIAMOND) && (forall v: nat :: !KeptAcross(DIAMOND, v))
    ensures Parks(DIAMOND, {}, 0, 0) && Parks(DIAMOND, {}, 1, 0) && !Undisturbed(DIAMOND, {})
  {
    DiamondShape();
    hide WellFormed, Uses, Defs, OpUses;
    forall v: nat ensures !KeptAcross(DIAMOND, v) {
      DiamondKeepsNothing(v);
    }
    DiamondParks(0);
    DiamondParks(1);
    DiamondUses(0, 1, 1);
    DiamondUses(0, 2, 0);
    DiamondUses(1, 0, 0);
    assert LeadsTo(DIAMOND, 0, 0) && ReadOnPath(DIAMOND, 0, 1, 0, 0);
    assert ReadOnPath(DIAMOND, 0, 0, 3, 1);
    assert ReadOnPath(DIAMOND, 0, 0, 2, 1);
    assert Readable(DIAMOND, 0, 0, 2);
    hide Parks, KeptAcross;
  }

  const DIAMOND_IMAGE := Image(Assignment([AtParm(0), AtParm(0)], [], [], [], []), 28, 28)

  lemma BlankEnv()
    ensures var (s, t) := Blank<nat>(DIAMOND, DIAMOND_IMAGE, 28, 0, 0, 0);
      s.env == [[0], [0]] && s.c == t.c == Control(0, 0, 0, [], false) && t.mem == Zeros(28)
  {
    var mem := Zeros(28);
    assert Cells(mem, 4, 1) == [0];
  }

  // ----- the two runs of the first function -----

  lemma DiamondSets(v: nat, c: Control<nat>)
    requires WellFormed(DIAMOND) && v < 2 && IsAt(c, 0, v, v)
    ensures Ordinary(DIAMOND, c) && InstrAt(DIAMOND, c.b, c.i) == Setter(v) && Dest(DIAMOND, Setter(v)) == Some(v)
    ensures Where(DIAMOND_IMAGE, v) == 4 && DIAMOND.sizes[v] == 1
  {
    hide WellFormed;
    assert DIAMOND.blocks[0].instrs[v] == Setter(v);
  }

  lemma DiamondTests(c: Control<nat>)
    requires WellFormed(DIAMOND) && IsAt(c, 0, 2, 2)
    ensures Jumps(DIAMOND, c) && DIAMOND.blocks[0].exits[0] == 1
  {
    hide WellFormed;
    assert DIAMOND.blocks[0].instrs[2] == Tester(3);
  }

  lemma DiamondIdeal()
    requires WellFormed(DIAMOND)
    ensures var s := IdealRun(DIAMOND, Counting(), Blank<nat>(DIAMOND, DIAMOND_IMAGE, 28, 0, 0, 0).0, 3);
      s.env == [[1], [2]] && IsAt(s.c, 1, 0, 3)
  {
    hide WellFormed, Blank, IdealRun, IdealStep, IdealReads, ReadList, Ordinary, Jumps, Dest;
    var s0 := Blank<nat>(DIAMOND, DIAMOND_IMAGE, 28, 0, 0, 0).0;
    BlankEnv();
    assert Fit([1], 1) == [1] && Fit([2], 1) == [2];
    IdealNext(DIAMOND, Counting(), s0, 0);
    DiamondSets(0, s0.c);
    IdealOrdinary(DIAMOND, s0);
    var s1 := IdealStep(DIAMOND, Counting(), s0);
    assert s1.env == [[1], [0]] && IsAt(s1.c, 0, 1, 1);
    IdealNext(DIAMOND, Counting(), s0, 1);
    DiamondSets(1, s1.c);
    IdealOrdinary(DIAMOND, s1);
    var s2 := IdealStep(DIAMOND, Counting(), s1);
    IdealNext(DIAMOND, Counting(), s0, 2);
    DiamondTests(s2.c);
    IdealJump(DIAMOND, s2);
  }

  lemma DiamondMachine()
    requires WellFormed(DIAMOND)
    ensures var t := MachineRun(DIAMOND, Counting(), DIAMOND_IMAGE, Quiet(), Blank<nat>(DIAMOND, DIAMOND_IMAGE, 28, 0, 0, 0).1, 3);
      |t.mem| == 28 && t.mem[4] == 2 && IsAt(t.c, 1, 0, 3)
  {
    hide WellFormed, Blank, MachineRun, MachineStep, MachineReads, Ordinary, Jumps, Dest, SlotMachine.Store, Fit, Where;
    var img, t0 := DIAMOND_IMAGE, Blank<nat>(DIAMOND, DIAMOND_IMAGE, 28, 0, 0, 0).1;
    BlankEnv();
    MachineNext(DIAMOND, Counting(), img, Quiet(), t0, 0);
    DiamondSets(0, t0.c);
    MachineOrdinary(DIAMOND, img, Quiet()(1), t0);
    StoreOne(t0.mem, 4, 1);
    var t1 := MachineStep(DIAMOND, Counting(), img, Quiet()(1), t0);
    assert |t1.mem| == 28 && IsAt(t1.c, 0, 1, 1);
    DiamondMachineRest(t1);
    MachineNext(DIAMOND, Counting(), img, Quiet(), t0, 1);
    MachineNext(DIAMOND, Counting(), img, Quiet(), t0, 2);
  }

  lemma DiamondMachineRest(t: Machine<nat>)
    requires WellFormed(DIAMOND) && |t.mem| == 28 && IsAt(t.c, 0, 1, 1)
    ensures var u := MachineStep(DIAMOND, Counting(), DIAMOND_IMAGE, Quiet()(3),
                       MachineStep(DIAMOND, Counting(), DIAMOND_IMAGE, Quiet()(2), t));
      |u.mem| == 28 && u.mem[4] == 2 && IsAt(u.c, 1, 0, 3)
  {
    hide WellFormed, Blank, MachineRun, MachineStep, MachineReads, Ordinary, Jumps, Dest, SlotMachine.Store, Fit, Where;
    DiamondSets(1, t.c);
    MachineOrdinary(DIAMOND, DIAMOND_IMAGE, Quiet()(2), t);
    StoreOne(t.mem, 4, 2);
    var t1 := MachineStep(DIAMOND, Counting(), DIAMOND_IMAGE, Quiet()(2), t);
    DiamondTests(t1.c);
    MachineJump(DIAMOND, DIAMOND_IMAGE, Quiet()(3), t1);
  }

  lemma CallReads(s: Ideal<nat>, mem: seq<int>)
    requires WellFormed(DIAMOND) && s.env == [[1], [2]] && |mem| == 28 && mem[4] == 2
    ensures |ReadList(Caller(2, 0))| == |OpList(Caller(2, 0), 3) + [0]| == 2
    ensures IdealReads(DIAMOND, Counting(), s, ReadList(Caller(2, 0)))[1] == [1]
    ensures (MachineReads(DIAMOND, Counting(), DIAMOND_IMAGE, 0, mem, OpList(Caller(2, 0), 3))
             + Arguments(DIAMOND, Marshal(DIAMOND, Counting(), DIAMOND_IMAGE, 0, mem, [0], 1), [0]))[1] == [2]
  {
    assert OpList(Caller(2, 0), 3) == [2];
    assert ReadList(Caller(2, 0)) == [2, 0];
    assert InParm(DIAMOND_IMAGE, 0) && Marshal(DIAMOND, Counting(), DIAMOND_IMAGE, 0, mem, [0], 0) == mem;
    assert Marshal(DIAMOND, Counting(), DIAMOND_IMAGE, 0, mem, [0], 1) == mem;
    assert Cells(mem, 4, 1) == [2];
    hide WellFormed;
  }

  /** The last thing each execution shows. */
  lemma LastEvents<W>(fn: Func, sem: Semantics<W>, img: Image, noise: nat -> nat -> int, s0: Ideal<W>, t0: Machine<W>, n: nat)
    requires WellFormed(fn)
    requires var s, t := IdealRun(fn, sem, s0, n), MachineRun(fn, sem, img, noise, t0, n);
      At(fn, s.c.b, s.c.i) && At(fn, t.c.b, t.c.i) && !s.c.halted && !t.c.halted
    ensures var s, t := IdealRun(fn, sem, s0, n), MachineRun(fn, sem, img, noise, t0, n);
      var i, j := InstrAt(fn, s.c.b, s.c.i), InstrAt(fn, t.c.b, t.c.i);
      && IdealRun(fn, sem, s0, n + 1).c.trace == s.c.trace + [Event(s.c.b, s.c.i, IdealReads(fn, sem, s, ReadList(i)))]
      && MachineRun(fn, sem, img, noise, t0, n + 1).c.trace == t.c.trace + [Event(t.c.b, t.c.i,
           MachineReads(fn, sem, img, t.c.w, t.mem, OpList(j, 3))
           + Arguments(fn, Marshal(fn, sem, img, t.c.w, t.mem, j.params, |j.params|), j.params))]
  {
    hide WellFormed, IdealReads, MachineReads, Arguments, Marshal;
  }

  lemma DiamondCalls()
    requires WellFormed(DIAMOND)
    ensures At(DIAMOND, 1, 0) && InstrAt(DIAMOND, 1, 0) == Caller(2, 0) && Caller(2, 0).params == [0] && |Caller(2, 0).ops| == 3
  {
    hide WellFormed;
  }

  /** With both in the first argument cell, the call is passed the wrong one. */
  lemma DiamondRunsDiffer()
    requires WellFormed(DIAMOND)
    ensures var (s, t) := Blank<nat>(DIAMOND, DIAMOND_IMAGE, 28, 0, 0, 0);
      IdealRun(DIAMOND, Counting(), s, 4).c.trace != MachineRun(DIAMOND, Counting(), DIAMOND_IMAGE, Quiet(), t, 4).c.trace
  {
    hide WellFormed, IdealRun, MachineRun, IdealReads, MachineReads, Arguments, Marshal, Blank, Caller, At, InstrAt, ReadList, OpList, Counting, Quiet, IdealRead, MachineRead;
    DiamondIdeal();
    DiamondMachine();
    var (s0, t0) := Blank<nat>(DIAMOND, DIAMOND_IMAGE, 28, 0, 0, 0);
    var s := IdealRun(DIAMOND, Counting(), s0, 3);
    var t := MachineRun(DIAMOND, Counting(), DIAMOND_IMAGE, Quiet(), t0, 3);
    DiamondCalls();
    CallReads(s, t.mem);
    LastEvents(DIAMOND, Counting(), DIAMOND_IMAGE, Quiet(), s0, t0, 3);
    var e, f := IdealRun(DIAMOND, Counting(), s0, 4).c.trace[3], MachineRun(DIAMOND, Counting(), DIAMOND_IMAGE, Quiet(), t0, 4).c.trace[3];
    assert e.seen[1] == [1] && f.seen[1] == [2];
  }

  // ----- a block that is its own successor -----

  const DOUBLE: Instr := Instr(Plain(1), [Some(1), Some(0), None], [])
  const SHOW: Instr := Instr(Plain(2), [Some(2), Some(1), None], [])

  // x = ...; for (;;) { t = x * 2; g = t + 1; }
  const SPIN: Func := Func([Local, Temp, Global], [1, 1, 1], 0, 1, 1,
    [Block([Setter(0), GO], [1]), Block([DOUBLE, SHOW, GO], [1])])

  const SPIN_FACTS: Facts := Facts({(0, 1), (0, 2), (0, 3), (0, 4), (1, 4), (1, 5)}, {}, [{}, {0}])
  const SPIN_LIVES: seq<Life> := [[Range(1, 4)], [Range(4, 5)], []]
  const SPIN_PLACES := Assignment([InTemps(0), InTemps(0)], [], [], [{0, 1}], [1])
  const SPIN_IMAGE := Image(SPIN_PLACES, 40, 28)

  lemma SpinInstrs()
    ensures WellFormedInstr(SPIN, GO) && WellFormedInstr(SPIN, DOUBLE) && WellFormedInstr(SPIN, SHOW)
  {
  }

  lemma SpinBlock(b: nat)
    requires b < 2
    ensures WellFormedBlock(SPIN, SPIN.blocks[b])
  {
    SetterFits(SPIN, 0);
    SpinInstrs();
    hide WellFormedInstr;
  }

  lemma SpinShape()
    ensures WellFormed(SPIN)
  {
    SpinBlock(0);
    SpinBlock(1);
    hide WellFormedInstr, WellFormedBlock;
  }

  lemma SpinUses()
    ensures Uses(SPIN, Setter(0)) == {} && Defs(SPIN, Setter(0)) == {0} && Uses(SPIN, GO) == {} && Defs(SPIN, GO) == {}
    ensures Uses(SPIN, DOUBLE) == {0} && Defs(SPIN, DOUBLE) == {1} && Uses(SPIN, SHOW) == {1} && Defs(SPIN, SHOW) == {}
  {
    SetterSets(SPIN, 0);
    assert DOUBLE.ops[0] == Some(1) && DOUBLE.ops[1] == Some(0) && 0 in OpUses(SPIN, DOUBLE);
    assert SHOW.ops[1] == Some(1) && 1 in OpUses(SPIN, SHOW);
  }

  lemma LiveBack(fn: Func, living: Living, b: nat, i: nat)
    requires WellFormed(fn) && |living| == |fn.blocks| && At(fn, b, i)
    ensures LiveBefore(fn, living, b, |fn.blocks[b].instrs|) == LiveOut(fn, living, b)
    ensures var ins := InstrAt(fn, b, i);
      LiveBefore(fn, living, b, i) == Uses(fn, ins) + (LiveBefore(fn, living, b, i + 1) - Defs(fn, ins))
  {
  }

  lemma SpinCode(b: nat, i: nat)
    requires WellFormed(SPIN) && At(SPIN, b, i)
    ensures b < 2 && |SPIN.blocks[b].instrs| == b + 2 && i < b + 2
    ensures InstrAt(SPIN, b, i) == if b == 0 then [Setter(0), GO][i] else [DOUBLE, SHOW, GO][i]
  {
    hide WellFormed;
  }

  lemma SpinAt(b: nat, i: nat)
    requires b < 2 && i < b + 2
    ensures At(SPIN, b, i) && |SPIN.blocks| == 2
  {
  }

  lemma SpinOut(living: Living)
    requires living == [{}, {0}]
    ensures LiveOut(SPIN, living, 0) == {0} && LiveOut(SPIN, living, 1) == {}
  {
    assert SPIN.blocks[0].exits[0] == 1 && 0 in living[1];
  }

  lemma SpinLive(living: Living)
    requires WellFormed(SPIN) && living == [{}, {0}]
    ensures LiveBefore(SPIN, living, 0, 0) == {} && LiveBefore(SPIN, living, 0, 1) == {0}
    ensures LiveBefore(SPIN, living, 1, 0) == {0} && LiveBefore(SPIN, living, 1, 1) == {1} && LiveBefore(SPIN, living, 1, 2) == {}
  {
    hide *;
    SpinUses();
    SpinOut(living);
    SpinAt(0, 0);
    SpinAt(0, 1);
    SpinAt(1, 0);
    SpinAt(1, 1);
    SpinAt(1, 2);
    SpinCode(0, 0);
    SpinCode(0, 1);
    SpinCode(1, 0);
    SpinCode(1, 1);
    SpinCode(1, 2);
    LiveBack(SPIN, living, 0, 1);
    LiveBack(SPIN, living, 0, 0);
    LiveBack(SPIN, living, 1, 2);
    LiveBack(SPIN, living, 1, 1);
    LiveBack(SPIN, living, 1, 0);
  }

  lemma SpinIds(b: nat, i: nat)
    requires At(SPIN, b, i)
    ensures EntryId(SPIN, 0) == 0 && EntryId(SPIN, 1) == 3
    ensures InstrId(SPIN, b, i) == if b == 0 then 1 + i else 4 + i
    ensures Held(SPIN.blocks[b].instrs[i]) == {} && !SPIN.blocks[b].instrs[i].op.Call?
  {
  }

  predicate SpinAlive(v: nat, id: nat) {
    (v == 0 && 1 <= id <= 4) || (v == 1 && 4 <= id <= 5)
  }

  lemma RecordedPlain(fn: Func, living: Living, b: nat, i: nat, v: nat, id: nat)
    requires WellFormed(fn) && |living| == |fn.blocks| && At(fn, b, i) && Held(fn.blocks[b].instrs[i]) == {}
    ensures RecordedAt(fn, living, b, i, v, id) <==>
      id == InstrId(fn, b, i) && (v in LiveBefore(fn, living, b, i) || v in Defs(fn, InstrAt(fn, b, i)))
  {
    hide LiveBefore, Defs, Held, InstrId;
  }

  lemma SpinRecords(b: nat, i: nat, v: nat, id: nat)
    requires WellFormed(SPIN) && At(SPIN, b, i)
    ensures RecordedAt(SPIN, [{}, {0}], b, i, v, id) <==>
      (b == 0 && v == 0 && id == i + 1) || (b == 1 && i == 0 && id == 4 && v < 2) || (b == 1 && i == 1 && id == 5 && v == 1)
  {
    hide *;
    SpinCode(b, i);
    SpinConstants();
    SpinLive([{}, {0}]);
    SpinUses();
    SpinIds(b, i);
    RecordedPlain(SPIN, [{}, {0}], b, i, v, id);
  }

  lemma SpinRecordedIn(b: nat, v: nat, id: nat)
    requires WellFormed(SPIN) && b < 2
    ensures Recorded(SPIN, [{}, {0}], b, v, id) <==>
      if b == 0 then v == 0 && 1 <= id <= 2 else (v == 0 && 3 <= id <= 4) || (v == 1 && 4 <= id <= 5)
  {
    hide LiveBefore, WellFormed, EntryId, RecordedAt, InstrId, Held, At, SPIN, InstrAt;
    SpinConstants();
    SpinLive([{}, {0}]);
    SpinAt(b, 0);
    SpinAt(b, 1);
    SpinIds(b, 0);
    forall i: nat | At(SPIN, b, i)
      ensures RecordedAt(SPIN, [{}, {0}], b, i, v, id) <==>
        (b == 0 && v == 0 && id == i + 1) || (b == 1 && i == 0 && id == 4 && v < 2) || (b == 1 && i == 1 && id == 5 && v == 1)
      ensures i < b + 2
    {
      SpinRecords(b, i, v, id);
      SpinCode(b, i);
    }
  }

  lemma SpinRecorded(v: nat, id: nat)
    requires WellFormed(SPIN)
    ensures SpinAlive(v, id) <==> exists b :: 0 <= b < 2 && Recorded(SPIN, [{}, {0}], b, v, id)
  {
    SpinConstants();
    hide Recorded, WellFormed;
    SpinRecordedIn(0, v, id);
    SpinRecordedIn(1, v, id);
  }

  lemma SpinAliveIs(v: nat, id: nat)
    ensures (v, id) in SPIN_FACTS.alive <==> SpinAlive(v, id)
  {
  }

  lemma SpinLocksNothing(b: nat, v: nat)
    requires WellFormed(SPIN) && b < 2
    ensures !LockedIn(SPIN, [{}, {0}], b, v)
  {
    hide WellFormed, AcrossCall, LiveBefore, Held, EntryId;
    forall i: nat | At(SPIN, b, i) ensures !LockedBy(SPIN, [{}, {0}], b, i, v) {
      SpinIds(b, i);
    }
  }

  lemma SolvedFrom(fn: Func, f: Facts)
    requires Shape(fn, f) && f.locked == {} && fn.nparams == 0
    requires forall b :: 0 <= b < |fn.blocks| ==> f.living[b] == LiveBefore(fn, f.living, b, 0)
    requires forall v: nat, id: nat :: (v, id) in f.alive <==> exists b :: 0 <= b < |fn.blocks| && Recorded(fn, f.living, b, v, id)
    requires forall b: nat, v: nat :: b < |fn.blocks| ==> !LockedIn(fn, f.living, b, v)
    ensures Solved(fn, f, {})
  {
    hide LiveBefore, Recorded, LockedIn, WellFormed;
  }

  lemma SpinConstants()
    ensures |SPIN.blocks| == 2 && SPIN.nparams == 0 && SPIN_FACTS.living == [{}, {0}] && SPIN_FACTS.locked == {}
  {
  }

  lemma SpinSolved()
    requires WellFormed(SPIN)
    ensures Solved(SPIN, SPIN_FACTS, {})
  {
    hide WellFormed, LiveBefore, Recorded, LockedIn, SpinAlive, Solved;
    SpinConstants();
    SpinLive([{}, {0}]);
    forall v: nat, id: nat
      ensures (v, id) in SPIN_FACTS.alive <==> exists b :: 0 <= b < 2 && Recorded(SPIN, [{}, {0}], b, v, id)
    {
      SpinAliveIs(v, id);
      SpinRecorded(v, id);
    }
    forall b: nat, v: nat | b < 2 ensures !LockedIn(SPIN, [{}, {0}], b, v) {
      SpinLocksNothing(b, v);
    }
    SolvedFrom(SPIN, SPIN_FACTS);
  }

  lemma SpinLivesAre(v: nat, id: nat)
    ensures SpinAlive(v, id) <==> v < |SPIN_LIVES| && Alive(SPIN_LIVES[v], id)
  {
    assert v == 0 && 1 <= id <= 4 ==> Covers(SPIN_LIVES[0][0], id);
    assert v == 1 && 4 <= id <= 5 ==> Covers(SPIN_LIVES[1][0], id);
  }

  lemma SpinDenotes()
    ensures Denotes(SPIN_FACTS, SPIN_LIVES) && !Overlap(SPIN_LIVES[0], SPIN_LIVES[1])
  {
    assert forall v :: 0 <= v < |SPIN_LIVES| ==> Canonical(SPIN_LIVES[v]);
    hide Canonical, Alive, SpinAlive;
    forall v: nat, id: nat
      ensures (v, id) in SPIN_FACTS.alive <==> v < |SPIN_LIVES| && Alive(SPIN_LIVES[v], id)
    {
      SpinAliveIs(v, id);
      SpinLivesAre(v, id);
    }
  }

  lemma SpinSlots()
    ensures SlotsSafe(SPIN_LIVES, SPIN.sizes, SPIN_PLACES.temps, SPIN_PLACES.tempSizes)
    ensures SlotsSafe(SPIN_LIVES, SPIN.sizes, SPIN_PLACES.locks, SPIN_PLACES.lockSizes)
  {
    SpinDenotes();
    OverlapSymmetric(SPIN_LIVES[1], SPIN_LIVES[0]);
    hide Overlap, Denotes;
    assert SPIN_PLACES.temps[0] == {0, 1};
  }

  lemma SpinPlaces(v: nat)
    requires WellFormed(SPIN) && v < 2
    ensures PlaceSafe(SPIN, {}, SPIN_LIVES, SPIN.sizes, SPIN_PLACES, v)
  {
    hide WellFormed;
    assert SPIN_PLACES.temps[0] == {0, 1};
  }

  lemma SpinSafe()
    requires WellFormed(SPIN)
    ensures Safe(SPIN, {}, SPIN_LIVES, SPIN_PLACES) && RegionsApart(SPIN_PLACES, 40, 28)
    ensures Address(SPIN_PLACES, 40, 28, 0) == Address(SPIN_PLACES, 40, 28, 1) == 28
  {
    SpinSlots();
    SpinPlaces(0);
    SpinPlaces(1);
    hide WellFormed, SlotsSafe, PlaceSafe;
    assert SPIN_PLACES.tempSizes[..0] == [];
  }

  /** x is read again in the next round, but in the second block it is not known to be living after its read. */
  lemma SpinForgets()
    requires WellFormed(SPIN)
    ensures Readable(SPIN, 0, 1, 1) && 0 !in LiveBefore(SPIN, SPIN_FACTS.living, 1, 1) && !SelfLoopsClear(SPIN)
  {
    SpinLive([{}, {0}]);
    SpinUses();
    SpinAt(1, 0);
    SpinAt(1, 1);
    SpinAt(1, 2);
    SpinCode(1, 0);
    SpinCode(1, 1);
    SpinCode(1, 2);
    hide WellFormed, LiveBefore, Uses, Defs;
    assert ReadOnPath(SPIN, 0, 1, 0, 0);
    assert SPIN.blocks[1].exits[0] == 1 && LeadsTo(SPIN, 1, 0);
    assert ReadOnPath(SPIN, 0, 1, 3, 1);
    assert ReadOnPath(SPIN, 0, 1, 2, 1);
    assert ReadOnPath(SPIN, 0, 1, 1, 1);
    assert Readable(SPIN, 0, 1, 0) && 1 in SPIN.blocks[1].exits && !WantedElsewhere(SPIN, 1, 0);
  }

  // ----- the two runs of the second function -----

  lemma BlankSpin()
    ensures var (s, t) := Blank<nat>(SPIN, SPIN_IMAGE, 40, 0, 0, 0);
      s.env == [[0], [0]] && s.c == t.c == Control(0, 0, 0, [], false) && t.mem == Zeros(40)
  {
    var mem := Zeros(40);
    assert SPIN_PLACES.tempSizes[..0] == [];
    assert Cells(mem, 28, 1) == [0];
  }

  lemma SpinGoes(c: Control<nat>)
    requires WellFormed(SPIN) && !c.halted && ((c.b == 0 && c.i == 1) || (c.b == 1 && c.i == 2))
    ensures Jumps(SPIN, c) && SPIN.blocks[c.b].exits[0] == 1
  {
    SpinAt(c.b, c.i);
    SpinCode(c.b, c.i);
    hide WellFormed;
  }

  lemma SpinSets(c: Control<nat>)
    requires WellFormed(SPIN) && !c.halted && ((c.b == 0 && c.i == 0) || (c.b == 1 && c.i < 2))
    ensures Ordinary(SPIN, c)
    ensures Dest(SPIN, InstrAt(SPIN, c.b, c.i)) == if c.b == 0 then Some(0) else if c.i == 0 then Some(1) else None
    ensures Where(SPIN_IMAGE, 0) == Where(SPIN_IMAGE, 1) == 28 && SPIN.sizes[0] == SPIN.sizes[1] == 1
  {
    SpinAt(c.b, c.i);
    SpinCode(c.b, c.i);
    assert SPIN_PLACES.tempSizes[..0] == [];
    hide WellFormed;
  }

  lemma SpinIdeal()
    requires WellFormed(SPIN)
    ensures var s := IdealRun(SPIN, Counting(), Blank<nat>(SPIN, SPIN_IMAGE, 40, 0, 0, 0).0, 5);
      s.env == [[1], [2]] && IsAt(s.c, 1, 0, 5)
  {
    hide WellFormed, Blank, IdealRun, IdealStep, IdealReads, ReadList, Ordinary, Jumps, Dest;
    var s0 := Blank<nat>(SPIN, SPIN_IMAGE, 40, 0, 0, 0).0;
    BlankSpin();
    assert Fit([1], 1) == [1] && Fit([2], 1) == [2];
    IdealNext(SPIN, Counting(), s0, 0);
    SpinSets(s0.c);
    IdealOrdinary(SPIN, s0);
    var s1 := IdealStep(SPIN, Counting(), s0);
    assert s1.env == [[1], [0]] && IsAt(s1.c, 0, 1, 1);
    IdealNext(SPIN, Counting(), s0, 1);
    SpinGoes(s1.c);
    IdealJump(SPIN, s1);
    var s2 := IdealStep(SPIN, Counting(), s1);
    SpinIdealRound(s2);
    IdealNext(SPIN, Counting(), s0, 2);
    IdealNext(SPIN, Counting(), s0, 3);
    IdealNext(SPIN, Counting(), s0, 4);
  }

  lemma SpinIdealRound(s: Ideal<nat>)
    requires WellFormed(SPIN) && s.env == [[1], [0]] && IsAt(s.c, 1, 0, 2)
    ensures var t := IdealStep(SPIN, Counting(), IdealStep(SPIN, Counting(), IdealStep(SPIN, Counting(), s)));
      t.env == [[1], [2]] && IsAt(t.c, 1, 0, 5)
  {
    hide WellFormed, IdealRun, IdealStep, IdealReads, ReadList, Ordinary, Jumps, Dest;
    assert Fit([2], 1) == [2];
    SpinSets(s.c);
    IdealOrdinary(SPIN, s);
    var s1 := IdealStep(SPIN, Counting(), s);
    SpinSets(s1.c);
    IdealOrdinary(SPIN, s1);
    var s2 := IdealStep(SPIN, Counting(), s1);
    SpinGoes(s2.c);
    IdealJump(SPIN, s2);
  }

  lemma SpinMachine()
    requires WellFormed(SPIN)
    ensures var t := MachineRun(SPIN, Counting(), SPIN_IMAGE, Quiet(), Blank<nat>(SPIN, SPIN_IMAGE, 40, 0, 0, 0).1, 5);
      |t.mem| == 40 && t.mem[28] == 2 && IsAt(t.c, 1, 0, 5)
  {
    hide *;
    var img, t0 := SPIN_IMAGE, Blank<nat>(SPIN, SPIN_IMAGE, 40, 0, 0, 0).1;
    SpinMachineStart(t0);
    var t1 := MachineStep(SPIN, Counting(), img, Quiet()(1), t0);
    var t2 := MachineStep(SPIN, Counting(), img, Quiet()(2), t1);
    SpinMachineRound(t2);
    MachineNext(SPIN, Counting(), img, Quiet(), t0, 0);
    MachineNext(SPIN, Counting(), img, Quiet(), t0, 1);
    MachineNext(SPIN, Counting(), img, Quiet(), t0, 2);
    MachineNext(SPIN, Counting(), img, Quiet(), t0, 3);
    MachineNext(SPIN, Counting(), img, Quiet(), t0, 4);
  }

  lemma SpinMachineStart(t: Machine<nat>)
    requires WellFormed(SPIN) && t == Blank<nat>(SPIN, SPIN_IMAGE, 40, 0, 0, 0).1
    ensures var u := MachineStep(SPIN, Counting(), SPIN_IMAGE, Quiet()(2), MachineStep(SPIN, Counting(), SPIN_IMAGE, Quiet()(1), t));
      |u.mem| == 40 && IsAt(u.c, 1, 0, 2)
  {
    hide WellFormed, Blank, MachineRun, MachineStep, MachineReads, Ordinary, Jumps, Dest, SlotMachine.Store, Fit, Where, SPIN, InstrAt, At;
    BlankSpin();
    SpinSets(t.c);
    MachineOrdinary(SPIN, SPIN_IMAGE, Quiet()(1), t);
    StoreOne(t.mem, 28, 1);
    var t1 := MachineStep(SPIN, Counting(), SPIN_IMAGE, Quiet()(1), t);
    assert |t1.mem| == 40 && IsAt(t1.c, 0, 1, 1);
    SpinGoes(t1.c);
    MachineJump(SPIN, SPIN_IMAGE, Quiet()(2), t1);
  }

  lemma SpinMachineRound(t: Machine<nat>)
    requires WellFormed(SPIN) && |t.mem| == 40 && IsAt(t.c, 1, 0, 2)
    ensures var u := MachineStep(SPIN, Counting(), SPIN_IMAGE, Quiet()(5), MachineStep(SPIN, Counting(), SPIN_IMAGE, Quiet()(4),
                       MachineStep(SPIN, Counting(), SPIN_IMAGE, Quiet()(3), t)));
      |u.mem| == 40 && u.mem[28] == 2 && IsAt(u.c, 1, 0, 5)
  {
    hide WellFormed, MachineRun, MachineStep, MachineReads, Ordinary, Jumps, Dest, SlotMachine.Store, Fit, Where;
    SpinSets(t.c);
    MachineOrdinary(SPIN, SPIN_IMAGE, Quiet()(3), t);
    StoreOne(t.mem, 28, 2);
    var t1 := MachineStep(SPIN, Counting(), SPIN_IMAGE, Quiet()(3), t);
    SpinSets(t1.c);
    MachineOrdinary(SPIN, SPIN_IMAGE, Quiet()(4), t1);
    var t2 := MachineStep(SPIN, Counting(), SPIN_IMAGE, Quiet()(4), t1);
    SpinGoes(t2.c);
    MachineJump(SPIN, SPIN_IMAGE, Quiet()(5), t2);
  }

  lemma DoubleReads(s: Ideal<nat>, mem: seq<int>)
    requires WellFormed(SPIN) && s.env == [[1], [2]] && |mem| == 40 && mem[28] == 2
    ensures IdealReads(SPIN, Counting(), s, ReadList(DOUBLE))[0] == [1]
    ensures (MachineReads(SPIN, Counting(), SPIN_IMAGE, 0, mem, OpList(DOUBLE, 3))
             + Arguments(SPIN, Marshal(SPIN, Counting(), SPIN_IMAGE, 0, mem, [], 0), []))[0] == [2]
  {
    assert OpList(DOUBLE, 3) == [0];
    assert ReadList(DOUBLE) == [0];
    assert SPIN_PLACES.tempSizes[..0] == [];
    assert Cells(mem, 28, 1) == [2];
    hide WellFormed;
  }

  /** With t in the slot of x, the second round doubles what the first one left in t. */
  lemma SpinRunsDiffer()
    requires WellFormed(SPIN)
    ensures var (s, t) := Blank<nat>(SPIN, SPIN_IMAGE, 40, 0, 0, 0);
      IdealRun(SPIN, Counting(), s, 6).c.trace != MachineRun(SPIN, Counting(), SPIN_IMAGE, Quiet(), t, 6).c.trace
  {
    hide WellFormed, IdealRun, MachineRun, IdealReads, MachineReads, Arguments, Marshal, Blank;
    SpinIdeal();
    SpinMachine();
    var (s0, t0) := Blank<nat>(SPIN, SPIN_IMAGE, 40, 0, 0, 0);
    var s := IdealRun(SPIN, Counting(), s0, 5);
    var t := MachineRun(SPIN, Counting(), SPIN_IMAGE, Quiet(), t0, 5);
    SpinAt(1, 0);
    SpinCode(1, 0);
    DoubleReads(s, t.mem);
    LastEvents(SPIN, Counting(), SPIN_IMAGE, Quiet(), s0, t0, 5);
    var e, f := IdealRun(SPIN, Counting(), s0, 6).c.trace[5], MachineRun(SPIN, Counting(), SPIN_IMAGE, Quiet(), t0, 6).c.trace[5];
    assert e.seen[0] == [1] && f.seen[0] == [2];
  }

  lemma InvariantFrom(fn: Func, f: Facts)
    requires Solved(fn, f, {}) && fn.nparams == 0
    requires forall b :: 0 <= b < |fn.blocks| ==> Linked(fn, f, b)
    requires forall b, v :: 0 <= b < |fn.blocks| && v in f.living[b] ==> Readable(fn, v, b, 0)
    ensures Invariant(fn, f, {})
  {
    hide LiveBefore, Recorded, LockedIn, WellFormed, Linked, Readable;
  }

  lemma SpinInvariant()
    requires WellFormed(SPIN)
    ensures Invariant(SPIN, SPIN_FACTS, {})
  {
    hide WellFormed, Solved, Readable, Invariant, SpinAlive;
    SpinSolved();
    SpinConstants();
    forall b | 0 <= b < 2 ensures Linked(SPIN, SPIN_FACTS, b) {
      SpinLinked(b);
    }
    assert Readable(SPIN, 0, 1, 0) by {
      SpinWanted();
    }
    InvariantFrom(SPIN, SPIN_FACTS);
  }

  lemma SpinLinked(b: nat)
    requires WellFormed(SPIN) && b < 2
    ensures Linked(SPIN, SPIN_FACTS, b)
  {
    SpinConstants();
    SpinUses();
    SpinAt(b, 0);
    SpinCode(b, 0);
    SpinIds(b, 0);
    hide WellFormed, Uses, Defs, InstrId;
    forall v: nat ensures (v, InstrId(SPIN, b, 0)) in SPIN_FACTS.alive <==> SpinAlive(v, InstrId(SPIN, b, 0)) {
      SpinAliveIs(v, InstrId(SPIN, b, 0));
    }
  }

  lemma SpinWanted()
    requires WellFormed(SPIN)
    ensures Readable(SPIN, 0, 1, 0)
  {
    SpinUses();
    SpinAt(1, 0);
    SpinCode(1, 0);
    hide WellFormed, Uses, Defs;
    assert ReadOnPath(SPIN, 0, 1, 0, 0);
  }

  lemma SpinAnalysis(f: Facts, lives: seq<Life>)
    requires WellFormed(SPIN) && Invariant(SPIN, f, {}) && Solved(SPIN, f, {}) && Denotes(f, lives) && |lives| == 3
    ensures f == SPIN_FACTS && lives == SPIN_LIVES
  {
    hide Invariant, Solved, Denotes;
    SpinSolved();
    SpinInvariant();
    SpinDenotes();
    SolutionUnique(SPIN, f, SPIN_FACTS, {});
    LivesUnique(f, lives, SPIN_LIVES);
  }

  lemma SpinSlot(slot: Life)
    requires UnionOf(SPIN_LIVES, {0}, slot)
    ensures slot == SPIN_LIVES[0]
  {
    assert Canonical(SPIN_LIVES[0]);
    assert SameIds(slot, SPIN_LIVES[0]) by {
      hide Canonical;
      forall id: nat ensures Alive(slot, id) <==> Alive(SPIN_LIVES[0], id) {
        assert 0 in {0};
      }
    }
    CanonicalUnique(slot, SPIN_LIVES[0]);
  }

  lemma SpinTakes()
    ensures (forall v :: 0 <= v < |SPIN_LIVES| ==> Canonical(SPIN_LIVES[v])) && PointsApart(SPIN_LIVES[1], SPIN_LIVES[0])
    ensures Takes(SPIN_LIVES[1], 1, 0, 0, SPIN_LIVES[0], 1, false)
    ensures SPIN.sizes == [1, 1, 1] && SPIN.nparams == 0 && SPIN_PLACES.temps == [{0, 1}] && SPIN_PLACES.tempSizes == [1]
    ensures SPIN_LIVES == [[Range(1, 4)], [Range(4, 5)], []]
  {
    SpinDenotes();
    OverlapSymmetric(SPIN_LIVES[1], SPIN_LIVES[0]);
    hide Overlap;
  }

  lemma FirstSlot(temps: FunctionAllocator)
    requires temps.Valid(SPIN_LIVES, SPIN.sizes) && temps.occupants == [{0}]
    ensures |temps.locals| == 1 && temps.locals[0].life == SPIN_LIVES[0]
  {
    assert SlotHolds(SPIN_LIVES, SPIN.sizes, {0}, temps.locals[0].life, temps.sizes[0], temps.unique[0]);
    SpinSlot(temps.locals[0].life);
  }

  lemma NoSlots(temps: FunctionAllocator)
    requires temps.locals == [] && temps.sizes == [] && temps.unique == [] && temps.occupants == []
    requires forall v :: 0 <= v < |SPIN_LIVES| ==> Canonical(SPIN_LIVES[v])
    ensures temps.Valid(SPIN_LIVES, SPIN.sizes)
  {
    hide Canonical;
  }

  lemma TogetherAre()
    ensures Placed([], 0, 0) == [{0}] && Placed([{0}], 1, 0) == [{0, 1}] && Max(1, 1) == 1
  {
    var both: set<nat> := {0, 1};
    assert {0} + {1} == both;
    assert Placed([{0}], 1, 0) == [both];
  }

  /** The allocator, given x and then t with the lives the analysis finds, puts t into the slot of x. */
  method SpinAllocated() returns (temps: FunctionAllocator)
    ensures temps.Valid(SPIN_LIVES, SPIN.sizes)
    ensures temps.occupants == SPIN_PLACES.temps && temps.sizes == SPIN_PLACES.tempSizes
  {
    hide *;
    SpinTakes();
    TogetherAre();
    temps := new FunctionAllocator();
    NoSlots(temps);
    var x := new IrValue();
    var t := new IrValue();
    x.life, t.life := [Range(1, 4)], [Range(4, 5)];
    var first := temps.Assign(0, x, 1, 0, SPIN_LIVES, SPIN.sizes);
    FirstSlot(temps);
    var second := temps.Assign(1, t, 1, 0, SPIN_LIVES, SPIN.sizes);
    assert second == 0;
  }

  /** The solution of the analysis, the placement of it that the allocator chooses, and two runs that differ. */
  lemma SelfLoopBreaks()
    ensures Solved(SPIN, SPIN_FACTS, {}) && Invariant(SPIN, SPIN_FACTS, {}) && Denotes(SPIN_FACTS, SPIN_LIVES)
    ensures Safe(SPIN, {}, SPIN_LIVES, SPIN_PLACES) && RegionsApart(SPIN_PLACES, 40, 28) && Undisturbed(SPIN, {})
    ensures !SelfLoopsClear(SPIN)
    ensures var (s, t) := Blank<nat>(SPIN, SPIN_IMAGE, 40, 0, 0, 0);
      IdealRun(SPIN, Counting(), s, 6).c.trace != MachineRun(SPIN, Counting(), SPIN_IMAGE, Quiet(), t, 6).c.trace
  {
    hide *;
    SpinShape();
    SpinSolved();
    SpinInvariant();
    SpinDenotes();
    SpinSafe();
    SpinForgets();
    SpinParksNothing();
    SpinRunsDiffer();
  }

  lemma SpinParksNothing()
    requires WellFormed(SPIN)
    ensures Undisturbed(SPIN, {})
  {
    forall b: nat, i: nat, u: nat, d: nat, k: nat
      | At(SPIN, b, i) && d in Defs(SPIN, InstrAt(SPIN, b, i)) && Readable(SPIN, u, b, i + 1) && u != d
      ensures !(Parks(SPIN, {}, u, k) && Parks(SPIN, {}, d, k))
    {
      assert Parks(SPIN, {}, u, k) && Parks(SPIN, {}, d, k) ==> u == d == 1;
    }
  }
}
