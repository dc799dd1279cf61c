// The machine object itself, updated in place statement by statement.

module Vm {
  import opened Calls
  import opened Sums
  import opened Reserved

  lemma PutBackIs(p: Program, globals: seq<int>, localstack: seq<int>, st: Frame)
    requires st.func < |p.functions| && WellFormedFunction(p, p.functions[st.func])
    requires st.localsp + p.functions[st.func].locals <= |localstack|
    ensures var f := p.functions[st.func];
      && f.firstlocal + f.locals <= p.cells
      && PutBack(p, globals, localstack, st) == Restore(f, globals, localstack[st.localsp..st.localsp + f.locals])
  {
    hide Sum;
  }

  class QcProgram<W> {
    const program: Program
    const globals: array<int>
    var localstack: seq<int>
    var stack: seq<Frame>
    var statement: nat          // where the call being made returns to
    var pc: nat
    var world: W
    var status: Status

    constructor (program: Program, globals: array<int>, pc: nat, world: W)
      requires globals.Length == program.cells
      ensures this.program == program && this.globals == globals
      ensures Snapshot() == State(pc, globals[..], [], [], world, Running)
    {
      this.program, this.globals := program, globals;
      localstack, stack, statement, this.pc, this.world, status := [], [], 0, pc, world, Running;
    }

    ghost function Snapshot(): State<W>
      reads this, globals
    {
      State(pc, globals[..], localstack, stack, world, status)
    }

    /** Cell by cell, as the machine copies one parameter. */
    method CopyParameter(from: nat, to: nat, n: nat)
      requires from + n <= globals.Length && to + n <= globals.Length
      modifies globals
      ensures globals[..] == CopyCells(old(globals[..]), from, to, n)
    {
      for s := 0 to n
        invariant globals[..] == CopyCells(old(globals[..]), from, to, s)
      {
        globals[to + s] := globals[from + s];
      }
    }

    method CopyParameters(f: Function)
      requires WellFormedFunction(program, f) && f.entry >= 0 && globals.Length == program.cells >= 28
      modifies globals
      ensures globals[..] == CopyParams(f, old(globals[..]), |f.argsize|)
    {
      hide *;
      var parampos := f.firstlocal;
      NothingCopied(f, globals[..]);
      for p := 0 to |f.argsize|
        invariant parampos == f.firstlocal + Sum(f.argsize[..p])
        invariant globals[..] == CopyParams(f, old(globals[..]), p)
      {
        SumPrefix(f.argsize, p);
        ParamBounds(program, f, p);
        LastParamIs(f, old(globals[..]), p + 1);
        CopyParameter(OFS_PARM0 + 3 * p, parampos, f.argsize[p]);
        parampos := parampos + f.argsize[p];
      }
    }

    /** Back up the window of function i, copy the parameters in, push a frame. */
    method EnterFunction(i: nat) returns (entry: nat)
      requires i < |program.functions| && WellFormedFunction(program, program.functions[i])
      requires globals.Length == program.cells >= 28 && program.functions[i].entry >= 0
      modifies globals, this`localstack, this`stack
      ensures entry == program.functions[i].entry
      ensures localstack == old(localstack) + Window(program.functions[i], old(globals[..]))
      ensures globals[..] == CopyParams(program.functions[i], old(globals[..]), |program.functions[i].argsize|)
      ensures stack == old(stack) + [Frame(statement, |old(localstack)|, i)]
    {
      var f := program.functions[i];
      var st := Frame(statement, |localstack|, i);
      localstack := localstack + globals[f.firstlocal..f.firstlocal + f.locals];
      CopyParameters(f);
      stack := stack + [st];
      entry := f.entry;
    }

    /** Put the backup of the running function's window back, drop it and the frame. */
    method LeaveFunction() returns (next: nat)
      requires stack != [] && stack[|stack| - 1].func < |program.functions|
      requires WellFormedFunction(program, program.functions[stack[|stack| - 1].func]) && globals.Length == program.cells
      requires stack[|stack| - 1].localsp + program.functions[stack[|stack| - 1].func].locals <= |localstack|
      modifies globals, this`localstack, this`stack
      ensures next == old(stack)[|old(stack)| - 1].stmt && stack == old(stack)[..|old(stack)| - 1]
      ensures localstack == old(localstack)[..old(stack)[|old(stack)| - 1].localsp]
      ensures globals[..] == PutBack(program, old(globals[..]), old(localstack), old(stack)[|old(stack)| - 1])
    {
      var st := stack[|stack| - 1];
      var f := program.functions[st.func];
      ghost var g := globals[..];
      PutBackIs(program, g, localstack, st);
      RestoreWindow(f, st.localsp);
      localstack := localstack[..st.localsp];
      stack := stack[..|stack| - 1];
      next := st.stmt;
    }

    method RestoreWindow(f: Function, from: nat)
      requires f.firstlocal + f.locals <= globals.Length && from + f.locals <= |localstack|
      modifies globals
      ensures globals[..] == Restore(f, old(globals[..]), localstack[from..from + f.locals])
    {
      ghost var g := globals[..];
      for k := 0 to f.locals
        invariant forall c :: 0 <= c < |g| ==>
                    globals[c] == if f.firstlocal <= c < f.firstlocal + k then localstack[from + (c - f.firstlocal)] else g[c]
      {
        globals[f.firstlocal + k] := localstack[from + k];
      }
    }

    method StoreResult(target: nat, width: nat, value: nat -> int)
      requires target + width <= globals.Length
      modifies globals
      ensures globals[..] == StoreCells(old(globals[..]), target, width, value)
    {
      for k := 0 to width
        invariant globals[..] == StoreCells(old(globals[..]), target, k, value)
      {
        globals[target + k] := value(target + k);
      }
    }

    method RunBuiltin(value: nat -> int)
      modifies globals
      ensures globals[..] == BuiltinCells(program, old(globals[..]), value)
    {
      for c := 0 to globals.Length
        invariant globals[..c] == BuiltinCells(program, old(globals[..]), value)[..c]
        invariant globals[c..] == old(globals[c..])
      {
        if !InAnyWindow(program, c) {
          globals[c] := value(c);
        }
      }
    }

    method ReturnFrom(value: nat)
      requires status == Running && stack != [] && stack[|stack| - 1].func < |program.functions|
      requires WellFormedFunction(program, program.functions[stack[|stack| - 1].func]) && globals.Length == program.cells >= 28
      requires stack[|stack| - 1].localsp + program.functions[stack[|stack| - 1].func].locals <= |localstack|
      requires value + 3 <= program.cells && pc < |program.code| && program.code[pc] == Return(value)
      modifies globals, this`localstack, this`stack, this`pc, this`status
      ensures forall eng: Engine<W> {:trigger Step(program, eng, old(Snapshot()))} :: Snapshot() == Step(program, eng, old(Snapshot()))
    {
      globals[OFS_RETURN] := globals[value];
      globals[OFS_RETURN + 1] := globals[value + 1];
      globals[OFS_RETURN + 2] := globals[value + 2];
      assert globals[..] == SetReturn(old(globals[..]), value);
      pc := LeaveFunction();
      if stack == [] {
        status := Finished;
      }
    }

    method CallFunction(i: nat)
      requires status == Running && globals.Length == program.cells >= 28
      requires i < |program.functions| && WellFormedFunction(program, program.functions[i]) && program.functions[i].entry >= 0
      modifies globals, this`localstack, this`stack, this`pc, this`statement
      ensures Snapshot() == Enter(program, old(Snapshot()), i)
    {
      statement := pc + 1;
      pc := EnterFunction(i);
    }

    method ExecuteOp(eng: Engine<W>, target: nat, width: nat)
      requires status == Running && pc < |program.code| && program.code[pc] == Op(target, width) && target + width <= globals.Length
      modifies globals, this`pc, this`world
      ensures Snapshot() == Step(program, eng, old(Snapshot()))
    {
      var (value, w) := eng.compute(pc, globals[..], world);
      StoreResult(target, width, value);
      pc, world := pc + 1, w;
    }

    method ExecuteCall(eng: Engine<W>, callee: nat)
      requires status == Running && pc < |program.code| && program.code[pc] == Call(callee) && callee < globals.Length == program.cells
      requires program.cells >= 28 && forall i :: 0 <= i < |program.functions| ==> WellFormedFunction(program, program.functions[i])
      modifies this, globals
      ensures Snapshot() == Step(program, eng, old(Snapshot()))
    {
      hide WellFormedFunction, Enter;
      var i := globals[callee];
      if i <= 0 || i >= |program.functions| {
        status := Failed;
      } else if program.functions[i].entry < 0 {
        statement := pc + 1;
        var (value, w) := eng.builtin(i, globals[..], world);
        RunBuiltin(value);
        pc, world := pc + 1, w;
      } else {
        CallFunction(i);
      }
    }

    /** One turn of the interpreter loop. */
    method Execute(eng: Engine<W>, ghost owner: seq<nat>, ghost from: Caller)
      requires WellFormed(program, owner) && globals.Length == program.cells
      requires status == Running ==> Inside(program, owner, Snapshot(), from)
      modifies this, globals
      ensures Snapshot() == Step(program, eng, old(Snapshot()))
    {
      hide Inside, Unwound, SameWindows, WellFormed, WellFormedFunction, Enter, SetReturn, Leave, Disciplined, InAnyWindow;
      if status != Running {
        return;
      }
      RunningFrame(program, owner, Snapshot(), from);
      Functions(owner);
      Fetched(owner);
      match program.code[pc] {
        case Op(target, width) => ExecuteOp(eng, target, width);
        case Goto(to) =>
          pc := to;
        case Branch(to) =>
          pc := if eng.taken(pc, globals[..], world) then to else pc + 1;
        case Call(callee) => ExecuteCall(eng, callee);
        case Return(value) =>
          ReturnFrom(value);
      }
    }

    lemma Functions(owner: seq<nat>)
      requires WellFormed(program, owner)
      ensures program.cells >= 28 && forall i :: 0 <= i < |program.functions| ==> WellFormedFunction(program, program.functions[i])
    {
    }

    /** What a disciplined program guarantees of the operands of the statement at pc. */
    lemma Fetched(owner: seq<nat>)
      requires pc < |program.code| == |owner| && owner[pc] < |program.functions| && Disciplined(program, owner, pc)
      ensures match program.code[pc]
              case Op(target, width) => target + width <= program.cells
              case Call(callee) => callee < program.cells
              case Return(value) => value + 3 <= program.cells
              case _ => true
    {
    }
  }
}
