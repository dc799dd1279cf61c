// The intermediate code of one function: a control-flow graph whose
// instructions name values, and the instruction ids that lives are made of.

module Ir {
  import opened Wrappers

  // Where a value is stored. Only Local, Param and Temp values get a life.
  datatype Store = Global | Local | Param | Temp | ReturnCell

  // Opcodes, told apart as far as the life analysis tells them apart.
  datatype Opcode =
    | Jump | Goto | Return | If | IfNot | Cond
    | StoreP
    | Call | NrCall
    | MulVF | BitAndVF | BitOrVF | BitXor | BitXorVF | BitXorV | Cross | MulFV | LoadV
    | State
    | Plain(code: nat)

  // Three operands, each of them optional, and the arguments of a call.
  datatype Instr = Instr(op: Opcode, ops: seq<Option<nat>>, params: seq<nat>)

  datatype Block = Block(instrs: seq<Instr>, exits: seq<nat>)

  // Values are numbered: first the locals, parameters in front, then the
  // results of operations, then everything the function does not own.
  datatype Func = Func(
    stores: seq<Store>,
    sizes: seq<nat>,
    nparams: nat,
    nlocals: nat,
    nvalues: nat,
    blocks: seq<Block>)
  {
    predicate Tracked(v: nat) {
      v < |stores| && (stores[v].Temp? || stores[v].Local? || stores[v].Param?)
    }

    predicate Owned(v: nat) {
      v < nlocals + nvalues
    }
  }

  predicate Reads(op: Opcode, o: nat) {
    match op
    case Jump | Goto => false
    case If | IfNot | Return | Cond => o == 0
    case StoreP => o < 3
    case _ => o == 1 || o == 2
  }

  predicate Writes(op: Opcode, o: nat) {
    match op
    case Jump | Goto | If | IfNot | Return | Cond | StoreP => false
    case _ => o == 0
  }

  // Operations the engine may compute piecewise, reading operand o again
  // after it has begun to write the result.
  predicate Holds(op: Opcode, o: nat) {
    match op
    case MulVF | BitAndVF | BitOrVF => o == 2
    case MulFV | LoadV => o == 1
    case BitXor | BitXorVF | BitXorV | Cross => o == 1 || o == 2
    case _ => false
  }

  predicate Terminates(op: Opcode) {
    op.Jump? || op.Goto? || op.Return? || op.If? || op.IfNot? || op.Cond? || op.NrCall?
  }

  predicate WellFormedInstr(fn: Func, ins: Instr) {
    && |ins.ops| == 3 && |ins.params| <= 8 && !ins.op.State?
    && (forall o :: 0 <= o < 3 && ins.ops[o].Some? ==> ins.ops[o].value < |fn.stores|)
    && (forall o :: 0 <= o < 3 && Holds(ins.op, o) ==> ins.ops[o].Some?)
    && (forall o :: 0 <= o < 3 && ins.ops[o].Some? && Reads(ins.op, o) ==> fn.stores[ins.ops[o].value] != ReturnCell)
    && (forall p :: 0 <= p < |ins.params| ==> ins.params[p] < |fn.stores| && fn.stores[ins.params[p]] != ReturnCell)
    && (ins.params != [] ==> ins.op.Call? || ins.op.NrCall?)
  }

  /** The block ends with an instruction that ends blocks. */
  predicate Finished(b: Block) {
    b.instrs != [] && Terminates(b.instrs[|b.instrs| - 1].op)
  }

  /** A block that has been left open leads nowhere; it may be empty. */
  predicate WellFormedBlock(fn: Func, b: Block) {
    && (forall i :: 0 <= i < |b.instrs| ==> WellFormedInstr(fn, b.instrs[i]))
    && (forall i :: 0 <= i < |b.instrs| && Terminates(b.instrs[i].op) ==> i == |b.instrs| - 1)
    && (forall k :: 0 <= k < |b.exits| ==> b.exits[k] < |fn.blocks|)
    && if !Finished(b) then b.exits == []
       else match b.instrs[|b.instrs| - 1].op
         case Return | NrCall => b.exits == []
         case Jump | Goto => |b.exits| == 1
         case _ => |b.exits| == 2
  }

  predicate WellFormed(fn: Func) {
    && |fn.sizes| == |fn.stores|
    && fn.nparams <= fn.nlocals && fn.nlocals + fn.nvalues <= |fn.stores|
    && (forall v :: 0 <= v < fn.nparams ==> fn.stores[v] == Param)
    && (forall v :: fn.nparams <= v < fn.nlocals ==> fn.stores[v] == Local)
    && (forall v :: fn.nlocals <= v < fn.nlocals + fn.nvalues ==> fn.stores[v] == Temp || fn.stores[v] == ReturnCell)
    && (forall v :: fn.nlocals + fn.nvalues <= v < |fn.stores| ==> fn.stores[v] == Global)
    && fn.blocks != []
    && forall b :: 0 <= b < |fn.blocks| ==> WellFormedBlock(fn, fn.blocks[b])
  }

  /** A function may keep a block that was left open, and empty. */
  lemma LeftOpen(fn: Func)
    requires WellFormed(fn)
    ensures WellFormed(fn.(blocks := fn.blocks + [Block([], [])]))
  {
    var g := fn.(blocks := fn.blocks + [Block([], [])]);
    forall b | 0 <= b < |g.blocks| ensures WellFormedBlock(g, g.blocks[b]) {
      if b < |fn.blocks| {
        assert WellFormedBlock(fn, fn.blocks[b]);
        forall i | 0 <= i < |fn.blocks[b].instrs| ensures WellFormedInstr(g, fn.blocks[b].instrs[i]) {
          assert WellFormedInstr(fn, fn.blocks[b].instrs[i]);
        }
      }
    }
  }

  // ----- instruction ids -----

  predicate At(fn: Func, b: nat, i: nat) {
    b < |fn.blocks| && i < |fn.blocks[b].instrs|
  }

  /** At an instruction of block b, or behind its last one. */
  predicate Within(fn: Func, b: nat, i: nat) {
    b < |fn.blocks| && i <= |fn.blocks[b].instrs|
  }

  /** Every block takes one id for its entry and then one for each instruction. */
  function EntryId(fn: Func, b: nat): nat
    requires b <= |fn.blocks|
  {
    if b == 0 then 0 else EntryId(fn, b - 1) + 1 + |fn.blocks[b - 1].instrs|
  }

  function InstrId(fn: Func, b: nat, i: nat): nat
    requires b < |fn.blocks|
  {
    EntryId(fn, b) + 1 + i
  }

  lemma {:induction false} EntriesGrow(fn: Func, b: nat, c: nat)
    requires b < c <= |fn.blocks|
    ensures EntryId(fn, b) + 1 + |fn.blocks[b].instrs| <= EntryId(fn, c)
  {
    if b + 1 < c {
      EntriesGrow(fn, b, c - 1);
    }
  }

  /** Ids of different blocks never meet. */
  lemma BlockOfId(fn: Func, b: nat, c: nat, id: nat)
    requires b < |fn.blocks| && c < |fn.blocks|
    requires EntryId(fn, b) <= id <= EntryId(fn, b) + |fn.blocks[b].instrs|
    requires EntryId(fn, c) <= id <= EntryId(fn, c) + |fn.blocks[c].instrs|
    ensures b == c
  {
    if b < c {
      EntriesGrow(fn, b, c);
    } else if c < b {
      EntriesGrow(fn, c, b);
    }
  }

  // ----- what one instruction does to the set of living values -----

  // Each of these sets is built operand by operand, as the analysis meets them.
  function DefsTo(fn: Func, ins: Instr, n: nat): set<nat>
    requires n <= |ins.ops|
  {
    set o | 0 <= o < n && ins.ops[o].Some? && Writes(ins.op, o) && fn.Tracked(ins.ops[o].value)
      :: ins.ops[o].value
  }

  function OpUsesTo(fn: Func, ins: Instr, n: nat): set<nat>
    requires n <= |ins.ops|
  {
    set o | 0 <= o < n && ins.ops[o].Some? && Reads(ins.op, o) && fn.Tracked(ins.ops[o].value)
      :: ins.ops[o].value
  }

  function ParamUsesTo(ins: Instr, n: nat): set<nat>
    requires n <= |ins.params|
  {
    set p | 0 <= p < n :: ins.params[p]
  }

  function Defs(fn: Func, ins: Instr): set<nat>
    requires |ins.ops| == 3
  {
    DefsTo(fn, ins, 3)
  }

  function OpUses(fn: Func, ins: Instr): set<nat>
    requires |ins.ops| == 3
  {
    OpUsesTo(fn, ins, 3)
  }

  function ParamUses(ins: Instr): set<nat> {
    ParamUsesTo(ins, |ins.params|)
  }

  function Uses(fn: Func, ins: Instr): set<nat>
    requires |ins.ops| == 3
  {
    OpUses(fn, ins) + ParamUses(ins)
  }

  function Held(ins: Instr): set<nat>
    requires |ins.ops| == 3
  {
    set o | 0 <= o < 3 && ins.ops[o].Some? && Holds(ins.op, o) :: ins.ops[o].value
  }

  lemma OneDef(fn: Func, ins: Instr, u: nat, v: nat)
    requires |ins.ops| == 3 && u in Defs(fn, ins) && v in Defs(fn, ins)
    ensures u == v && ins.ops[0] == Some(v)
  {
    assert forall o :: 0 <= o < 3 && Writes(ins.op, o) ==> o == 0;
  }

  lemma HeldAreUsed(fn: Func, ins: Instr, v: nat)
    requires WellFormed(fn) && WellFormedInstr(fn, ins) && v in Held(ins) && fn.Owned(v)
    ensures v in OpUses(fn, ins) && fn.Tracked(v)
  {
    var o :| 0 <= o < 3 && ins.ops[o].Some? && Holds(ins.op, o) && ins.ops[o].value == v;
    assert Reads(ins.op, o);
  }

  // ----- living sets -----

  type Living = seq<set<nat>>

  /** The union of the living sets of b's exits; b's own has just been cleared. */
  ghost function LiveOut(fn: Func, living: Living, b: nat): set<nat>
    requires b < |fn.blocks| && |living| == |fn.blocks|
  {
    var exits := fn.blocks[b].exits;
    set k, v | 0 <= k < |exits| && exits[k] != b && exits[k] < |living| && v in living[exits[k]] :: v
  }

  ghost function LiveBefore(fn: Func, living: Living, b: nat, i: nat): set<nat>
    requires WellFormed(fn) && b < |fn.blocks| && |living| == |fn.blocks| && i <= |fn.blocks[b].instrs|
    decreases |fn.blocks[b].instrs| - i
  {
    if i == |fn.blocks[b].instrs| then LiveOut(fn, living, b)
    else
      var ins := fn.blocks[b].instrs[i];
      assert WellFormedInstr(fn, ins);
      Uses(fn, ins) + (LiveBefore(fn, living, b, i + 1) - Defs(fn, ins))
  }

  /** What must survive a call: everything needed afterwards, and the operands just read. */
  ghost function AcrossCall(fn: Func, living: Living, b: nat, i: nat): set<nat>
    requires WellFormed(fn) && |living| == |fn.blocks| && At(fn, b, i)
  {
    var ins := fn.blocks[b].instrs[i];
    assert WellFormedInstr(fn, ins);
    OpUses(fn, ins) + (LiveBefore(fn, living, b, i + 1) - Defs(fn, ins))
  }
}
