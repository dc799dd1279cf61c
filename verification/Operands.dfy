// What an instruction of each kind takes and leaves, said opcode by opcode:
// which of its operands both executions read, that the analysis knows of all
// of them, where its result is stored, and which operands may be read again.

module Operands {
  import opened Wrappers
  import opened Ir
  import opened Liveness
  import opened LifeRanges
  import opened Interference
  import opened SlotAllocator
  import opened Placement
  import opened SlotMachine

  /** An operand that is there. */
  function Given(o: Option<nat>): seq<nat> {
    if o.Some? then [o.value] else []
  }

  lemma OperandList(ins: Instr)
    requires |ins.ops| == 3
    ensures ins.op.Jump? || ins.op.Goto? ==> OpList(ins, 3) == []
    ensures ins.op.If? || ins.op.IfNot? || ins.op.Return? || ins.op.Cond? ==> OpList(ins, 3) == Given(ins.ops[0])
    ensures ins.op.StoreP? ==> OpList(ins, 3) == Given(ins.ops[0]) + Given(ins.ops[1]) + Given(ins.ops[2])
    ensures !ins.op.Jump? && !ins.op.Goto? && !ins.op.If? && !ins.op.IfNot? && !ins.op.Return? && !ins.op.Cond? && !ins.op.StoreP? ==>
      OpList(ins, 3) == Given(ins.ops[1]) + Given(ins.ops[2])
  {
    assert OpList(ins, 3) == OpList(ins, 2) + if ins.ops[2].Some? && Reads(ins.op, 2) then [ins.ops[2].value] else [];
    assert OpList(ins, 2) == OpList(ins, 1) + if ins.ops[1].Some? && Reads(ins.op, 1) then [ins.ops[1].value] else [];
    assert OpList(ins, 1) == if ins.ops[0].Some? && Reads(ins.op, 0) then [ins.ops[0].value] else [];
  }

  /** Jumps read nothing, branches and returns their first operand, stores through a pointer all three, everything else the last two. */
  lemma OperandsRead(ins: Instr)
    requires |ins.ops| == 3
    ensures ins.op.Jump? || ins.op.Goto? ==> ReadList(ins) == ins.params
    ensures ins.op.If? || ins.op.IfNot? || ins.op.Return? || ins.op.Cond? ==> ReadList(ins) == Given(ins.ops[0]) + ins.params
    ensures ins.op.StoreP? ==> ReadList(ins) == Given(ins.ops[0]) + Given(ins.ops[1]) + Given(ins.ops[2]) + ins.params
    ensures !ins.op.Jump? && !ins.op.Goto? && !ins.op.If? && !ins.op.IfNot? && !ins.op.Return? && !ins.op.Cond? && !ins.op.StoreP? ==>
      ReadList(ins) == Given(ins.ops[1]) + Given(ins.ops[2]) + ins.params
  {
    OperandList(ins);
    hide OpList, Given;
  }

  /** Whatever is read is wanted by the analysis: kept in the sets, and so in its cells, up to this instruction. */
  lemma {:induction false} ReadIsWanted(fn: Func, f: Facts, b: nat, i: nat, v: nat)
    requires Shape(fn, f) && At(fn, b, i) && v in ReadList(InstrAt(fn, b, i)) && fn.Tracked(v)
    ensures v in LiveBefore(fn, f.living, b, i)
  {
    var ins := InstrAt(fn, b, i);
    if v in OpList(ins, 3) {
      OpListUses(fn, ins, 3, v);
    } else {
      assert v in ParamUses(ins);
    }
  }

  /** The last two operands of a computing instruction are wanted before it, and so is the one operand of a branch or return. */
  lemma OperandsWanted(fn: Func, f: Facts, b: nat, i: nat, o: nat)
    requires Shape(fn, f) && At(fn, b, i) && o < 3 && InstrAt(fn, b, i).ops[o].Some? && fn.Tracked(InstrAt(fn, b, i).ops[o].value)
    ensures var op := InstrAt(fn, b, i).op;
      o > 0 && !op.Jump? && !op.Goto? && !op.If? && !op.IfNot? && !op.Return? && !op.Cond? ==>
        InstrAt(fn, b, i).ops[o].value in LiveBefore(fn, f.living, b, i)
    ensures var op := InstrAt(fn, b, i).op;
      o == 0 && (op.If? || op.IfNot? || op.Return? || op.Cond? || op.StoreP?) ==>
        InstrAt(fn, b, i).ops[o].value in LiveBefore(fn, f.living, b, i)
  {
    hide LiveBefore, WellFormed, ReadList;
    var ins := InstrAt(fn, b, i);
    OperandsRead(ins);
    var v := ins.ops[o].value;
    assert Given(ins.ops[o]) == [v];
    if v in ReadList(ins) {
      ReadIsWanted(fn, f, b, i, v);
    }
  }

  /** Everything but jumps, branches, returns and stores through a pointer writes its first operand, and nothing else. */
  lemma OperandWritten(fn: Func, ins: Instr)
    requires |ins.ops| == 3
    ensures ins.op.Jump? || ins.op.Goto? || ins.op.If? || ins.op.IfNot? || ins.op.Return? || ins.op.Cond? || ins.op.StoreP? ==>
      Defs(fn, ins) == {} && Dest(fn, ins) == None
    ensures !ins.op.Jump? && !ins.op.Goto? && !ins.op.If? && !ins.op.IfNot? && !ins.op.Return? && !ins.op.Cond? && !ins.op.StoreP? ==>
      ins.ops[0].Some? && fn.Tracked(ins.ops[0].value) ==> Defs(fn, ins) == {ins.ops[0].value} && Dest(fn, ins) == ins.ops[0]
  {
  }

  /** Jumps, branches and returns, and calls that do not come back, end a block; nothing else does. */
  lemma EndsBlock(op: Opcode)
    ensures Terminates(op) == (op.Jump? || op.Goto? || op.If? || op.IfNot? || op.Cond? || op.Return? || op.NrCall?)
  {
  }

  /**
   * What is recorded, and where control goes: to the one exit of a jump, to the exit the branch chooses by what it reads, to no
   * further instruction from a return or a call that does not come back, and from everything else to the next instruction.
   */
  lemma ControlGoes<W>(fn: Func, sem: Semantics<W>, s: Ideal<W>)
    requires WellFormed(fn) && !s.c.halted && At(fn, s.c.b, s.c.i)
    ensures var op, exits := InstrAt(fn, s.c.b, s.c.i).op, fn.blocks[s.c.b].exits;
      var seen := IdealReads(fn, sem, s, ReadList(InstrAt(fn, s.c.b, s.c.i)));
      var c, branch := IdealStep(fn, sem, s).c, sem.branch(s.c.b, seen, s.c.w);
      && c.trace == s.c.trace + [Event(s.c.b, s.c.i, seen)]
      && (op.Return? || op.NrCall? <==> c.halted)
      && (op.Jump? || op.Goto? ==> |exits| == 1 && c.b == exits[0] && c.i == 0)
      && (op.If? || op.IfNot? || op.Cond? ==> |exits| == 2 && c.i == 0 && (branch < 2 ==> c.b == exits[branch]))
      && (!op.Jump? && !op.Goto? && !op.If? && !op.IfNot? && !op.Cond? && !op.Return? && !op.NrCall? ==>
            c.b == s.c.b && c.i == s.c.i + 1 && c.w == sem.effect(s.c.b, s.c.i, seen, s.c.w).1)
  {
    hide IdealReads, ReadList, OpList, Fit, Dest;
    assert WellFormedBlock(fn, fn.blocks[s.c.b]);
  }

  /** One computing instruction with a value of its own: both executions hand it its last two operands and its arguments. */
  lemma Computed<W>(fn: Func, sem: Semantics<W>, img: Image, noise: nat -> int, s: Ideal<W>, t: Machine<W>)
    requires WellFormed(fn) && s.c == t.c && !s.c.halted && At(fn, s.c.b, s.c.i)
    requires var op := InstrAt(fn, s.c.b, s.c.i).op; op.Plain? || op.MulVF? || op.MulFV? || op.LoadV? || op.Cross? || op.BitXor?
                                                     || op.BitAndVF? || op.BitOrVF? || op.BitXorVF? || op.BitXorV?
    requires InstrAt(fn, s.c.b, s.c.i).ops[0].Some? && fn.Tracked(InstrAt(fn, s.c.b, s.c.i).ops[0].value)
    ensures var ins := InstrAt(fn, s.c.b, s.c.i);
      var d, vs := ins.ops[0].value, Given(ins.ops[1]) + Given(ins.ops[2]);
      && (d < |s.env| ==> IdealStep(fn, sem, s).env == s.env[d := Fit(sem.effect(s.c.b, s.c.i, IdealReads(fn, sem, s, vs), s.c.w).0, fn.sizes[d])])
      && MachineStep(fn, sem, img, noise, t).mem
           == SlotMachine.Store(t.mem, Where(img, d), Fit(sem.effect(t.c.b, t.c.i, MachineReads(fn, sem, img, t.c.w, t.mem, vs), t.c.w).0, fn.sizes[d]))
  {
    hide SlotMachine.Store, Fit, Where, IdealReads, MachineReads, OpList;
    var ins := InstrAt(fn, s.c.b, s.c.i);
    assert ins.params == [];
    OperandList(ins);
    OperandWritten(fn, ins);
    var vs := Given(ins.ops[1]) + Given(ins.ops[2]);
    assert ReadList(ins) == OpList(ins, 3) + [] == vs;
    assert vs + [] == vs;
    assert Arguments(fn, t.mem, []) == [];
    assert MachineReads(fn, sem, img, t.c.w, t.mem, vs) + [] == MachineReads(fn, sem, img, t.c.w, t.mem, vs);
  }

  /** What has been computed is what is read next, in both executions. */
  lemma ReadsBack<W>(fn: Func, sem: Semantics<W>, img: Image, noise: nat -> int, s: Ideal<W>, t: Machine<W>)
    requires WellFormed(fn) && s.c == t.c && !s.c.halted && At(fn, s.c.b, s.c.i)
    requires var op := InstrAt(fn, s.c.b, s.c.i).op; op.Plain? || op.MulVF? || op.MulFV? || op.LoadV? || op.Cross? || op.BitXor?
                                                     || op.BitAndVF? || op.BitOrVF? || op.BitXorVF? || op.BitXorV?
    requires var ins := InstrAt(fn, s.c.b, s.c.i);
      ins.ops[0].Some? && fn.Tracked(ins.ops[0].value) && fn.Owned(ins.ops[0].value)
    ensures var ins := InstrAt(fn, s.c.b, s.c.i);
      var d, vs := ins.ops[0].value, Given(ins.ops[1]) + Given(ins.ops[2]);
      && (d < |s.env| ==> IdealRead(fn, sem, IdealStep(fn, sem, s), d)
                            == Fit(sem.effect(s.c.b, s.c.i, IdealReads(fn, sem, s, vs), s.c.w).0, fn.sizes[d]))
      && (Where(img, d) + fn.sizes[d] <= |t.mem| ==>
            MachineRead(fn, sem, img, t.c.w, MachineStep(fn, sem, img, noise, t).mem, d)
              == Fit(sem.effect(t.c.b, t.c.i, MachineReads(fn, sem, img, t.c.w, t.mem, vs), t.c.w).0, fn.sizes[d]))
  {
    hide Fit, Where, IdealReads, MachineReads, IdealStep, MachineStep, SlotMachine.Store, Cells, LiveBefore;
    var ins := InstrAt(fn, s.c.b, s.c.i);
    var d, vs := ins.ops[0].value, Given(ins.ops[1]) + Given(ins.ops[2]);
    Computed(fn, sem, img, noise, s, t);
    var c := Fit(sem.effect(t.c.b, t.c.i, MachineReads(fn, sem, img, t.c.w, t.mem, vs), t.c.w).0, fn.sizes[d]);
    assert |c| == fn.sizes[d];
    if Where(img, d) + fn.sizes[d] <= |t.mem| {
      StoreHere(t.mem, Where(img, d), c);
    }
  }

  /** The same for the result of a call, which gets its arguments as well: in the machine those the argument cells hold. */
  lemma Called<W>(fn: Func, sem: Semantics<W>, img: Image, noise: nat -> int, s: Ideal<W>, t: Machine<W>)
    requires WellFormed(fn) && s.c == t.c && !s.c.halted && At(fn, s.c.b, s.c.i) && InstrAt(fn, s.c.b, s.c.i).op.Call?
    requires var ins := InstrAt(fn, s.c.b, s.c.i);
      ins.ops[0].Some? && fn.Tracked(ins.ops[0].value) && fn.Owned(ins.ops[0].value)
    ensures var ins := InstrAt(fn, s.c.b, s.c.i);
      var d, vs := ins.ops[0].value, Given(ins.ops[1]) + Given(ins.ops[2]);
      && (d < |s.env| ==> IdealRead(fn, sem, IdealStep(fn, sem, s), d)
                            == Fit(sem.effect(s.c.b, s.c.i, IdealReads(fn, sem, s, vs + ins.params), s.c.w).0, fn.sizes[d]))
      && (Where(img, d) + fn.sizes[d] <= |t.mem| ==>
            var passed := Arguments(fn, Marshal(fn, sem, img, t.c.w, t.mem, ins.params, |ins.params|), ins.params);
            MachineRead(fn, sem, img, t.c.w, MachineStep(fn, sem, img, noise, t).mem, d)
              == Fit(sem.effect(t.c.b, t.c.i, MachineReads(fn, sem, img, t.c.w, t.mem, vs) + passed, t.c.w).0, fn.sizes[d]))
  {
    hide Fit, Where, IdealReads, MachineReads, SlotMachine.Store, Cells, LiveBefore, OpList, Marshal, Arguments, Clobber;
    var ins := InstrAt(fn, s.c.b, s.c.i);
    var d, vs := ins.ops[0].value, Given(ins.ops[1]) + Given(ins.ops[2]);
    OperandList(ins);
    OperandWritten(fn, ins);
    var passed := Arguments(fn, Marshal(fn, sem, img, t.c.w, t.mem, ins.params, |ins.params|), ins.params);
    var c := Fit(sem.effect(t.c.b, t.c.i, MachineReads(fn, sem, img, t.c.w, t.mem, vs) + passed, t.c.w).0, fn.sizes[d]);
    StepMemory(fn, sem, img, noise, t);
    var before := BeforeResult(fn, sem, img, noise, t.c.w, t.mem, ins);
    if Where(img, d) + fn.sizes[d] <= |t.mem| {
      assert MachineStep(fn, sem, img, noise, t).mem == SlotMachine.Store(before, Where(img, d), c);
      StoreHere(before, Where(img, d), c);
    }
  }

  /** The operands an instruction that works cell by cell may read again: the second or the third, or both. */
  lemma OperandsHeld(ins: Instr)
    requires |ins.ops| == 3
    ensures ins.op.MulVF? || ins.op.BitAndVF? || ins.op.BitOrVF? ==> Held(ins) == (set v | v in Given(ins.ops[2]))
    ensures ins.op.MulFV? || ins.op.LoadV? ==> Held(ins) == (set v | v in Given(ins.ops[1]))
    ensures ins.op.BitXor? || ins.op.BitXorVF? || ins.op.BitXorV? || ins.op.Cross? ==>
      Held(ins) == (set v | v in Given(ins.ops[1]) + Given(ins.ops[2]))
  {
  }

  /** Such an operand reads the same however much of the result has been written. */
  lemma StillReads(fn: Func, f: Facts, locked0: set<nat>, locked: set<nat>, lives: seq<Life>, img: Image,
                   b: nat, i: nat, o: nat, mem: seq<int>, part: Content)
    requires Compiled(fn, f, locked0, locked, lives, img) && At(fn, b, i) && o < 3
    requires var op := InstrAt(fn, b, i).op;
      || (o == 1 && (op.MulFV? || op.LoadV?))
      || (o == 2 && (op.MulVF? || op.BitAndVF? || op.BitOrVF?))
      || (o > 0 && (op.BitXor? || op.BitXorVF? || op.BitXorV? || op.Cross?))
    requires var ops := InstrAt(fn, b, i).ops;
      && ops[0].Some? && ops[o].Some? && ops[0] != ops[o]
      && fn.Owned(ops[0].value) && fn.Tracked(ops[0].value) && fn.Owned(ops[o].value)
      && |part| <= fn.sizes[ops[0].value]
    ensures var d, u := InstrAt(fn, b, i).ops[0].value, InstrAt(fn, b, i).ops[o].value;
      Cells(SlotMachine.Store(mem, Where(img, d), part), Where(img, u), fn.sizes[u]) == Cells(mem, Where(img, u), fn.sizes[u])
  {
    var ins := InstrAt(fn, b, i);
    var d, u := ins.ops[0].value, ins.ops[o].value;
    OperandsHeld(ins);
    OperandWritten(fn, ins);
    assert u in Held(ins);
    HeldApartFromResult(fn, f, locked0, locked, lives, img, b, i, u, d);
    StoreElsewhere(mem, Where(img, d), part, Where(img, u), fn.sizes[u]);
  }
}
