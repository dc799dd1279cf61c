# gmqcc, verified in Dafny

gmqcc compiles QuakeC through a syntax tree to a control-flow graph, gives every value of a
function a memory cell, and runs the result on a virtual machine of its own. This project models
the parts of it in which much can go wrong and proves, for all inputs, runs and programs of the
model, that they do what they are for. To verify it, use Dafny 4.11: `dafny verify dfyconfig.toml`.

## The parts

**Lives and slots** (`Life`, `Ir`, `Liveness`, `LifeAnalysis`, `Interference`, `SlotAllocator`,
`Placement`, `FunctionLocals`). The life of a value is a sorted list of instruction ranges, updated
in place. A backward analysis repeats passes over the blocks until no life and no lock changes; it is
shown to terminate and to end in a solution of the dataflow equations, which is compared with an
independent definition of liveness by paths. The allocator then gives every value a slot or parks it
in an argument or the return cell.

**Allocation preserves meaning** (`SlotMachine`, `Operands`, `ParkingRule`, `Parking`, `Breakdowns`,
`Preservation`, `Linkage`). Two executions of the same graph are compared: in one every value has a
cell of its own, in the other values are in the cells the allocator chose, arguments travel through
the argument cells, and every call may overwrite everything but the caller's window. They read the
same, branch the same and end the same, however long they run, for every meaning of the instructions.
`Operands` says opcode by opcode what an instruction takes and leaves, and that the analysis wants all
of what the executions read.
`Preservation.Compile` takes a function the whole way, from its graph through analysis and allocation
to the addresses in its code, and ends in that statement for any memory to start from. All that is
asked is asked of the graph: that no block which is its own successor wants at its top what no other
successor wants, and that arguments parked in their cells do not disturb each other. The second holds
wherever every argument is bound for its call once it has been computed, in the block of the call or
with branches and loops in between. `Linkage` joins all this to the machine below: what a completed
call does there is such an overwriting, and parameters arrive where compiled code reads them.

**Calls** (`Calls`, `Vm`). The machine backs up a callee's window of global cells when it enters it
and puts it back when it leaves. `Vm` is the machine as an object that is updated statement by
statement; `Calls` is what one statement does as a function, and what it keeps over whole runs.

**Control flow** (`Structured`, `LoopForms`, `StatementLaws`, `Defaults`, `FlowGraph`, `Simulation`, `LoopWiring`,
`SwitchWiring`, `Settling`, `Building`, `Lowering`, `Codegen`). `Structured` gives blocks, if, loops,
break n, continue n, return and switch a meaning that knows nothing of basic blocks, and
`StatementLaws` what that meaning must satisfy: loops unroll, a do loop is its body and then a while
loop, a for loop is a while loop, loops end with the test that ends them; `FlowGraph` runs
basic blocks; `Codegen` is the generator, an object with a current block and stacks of targets. What it
builds halts if and only if the body terminates, after exactly the same evaluations in the same order,
and never gets stuck, unless a switch in the body has two defaults.

**Floating point** (`Rounding`, `Significands`, `SoftFloat`, `SubnormalOperands`, `SpecialValues`). Correct rounding
in all four directions and the exceptions of IEEE 754-2008 (sections 4.3, 7.4, 7.5 and 7.6) are
defined on exact fractions, by comparison with all other numbers of the format. The operations are
shown to deliver that, and, where the code does not, exactly for which operands.

**Checksums and strings** (`Crc16`, `CrcPolynomial`, `Texts`, `Chains`, `HashTable`, `StringPool`).
Eight bytes at a time with eight tables is the checksum defined bit by bit, and that is the remainder of
the message after division by x^16 + x^12 + x^5 + 1, with polynomials as sets of exponents. The chained hash table, its nodes relinked
in place, refines a finite map, and the string pool on top of it never hands out an offset that stops
reading back as its string.

## Where the code does not do what it says

Each of these is proved of the model, with the inputs concerned:

- The overlap scan (ir.cpp:1206-1221) misses a pair of overlapping ranges that lies behind a one-point
  range of its first argument: `LifeRanges.ScanMissesBehindPoint`. The lists it is called with have no
  such pair: `Interference.PointsApartFromSlot`.
- A block that is its own successor, as the body of `for (;;)` is, loses what only it wants at its
  top, because its set is cleared before the sets of its exits are read (ir.cpp:2119-2125). The slot of
  such a value can be given away: `Breakdowns.SelfLoopBreaks` is a function whose second round reads a
  temporary in place of a variable, and `Breakdowns.SpinAllocated` gives it the slot. The analysis is
  complete exactly without such values, `Liveness.LiveEverywhereIff`.
- A switch may have two defaults, as the parser does not look for another one (parser.cpp:3182-3230).
  The generator then keeps the last one only and forgets where the case before the first one was to go
  on (ast.cpp:2890-2899): `Defaults.TwoDefaultsLose`, `Lowering.TwoDefaultsStick`. A switch is
  generated as it is written, for all code of its cases, if and only if it has at most one default:
  `Defaults.SwitchRightIff`.
- The shift macro yields one for a shift by nothing (fold.cpp:121-123), which its comment does not say:
  sums and differences of operands whose exponents are zero and one are wrong, and no others
  (`SoftFloat.AddIsRight`, `SoftFloat.SubIsRight`).
- The macro for subnormal operands overwrites the significand before computing the exponent from it
  (fold.cpp:142-143): `Significands.TakenIsValue`, and what becomes of products, quotients and
  negation, `SubnormalOperands.MulRightIff`, `SubnormalOperands.DivRightIff`, `SoftFloat.NegIsRight`.
- With overlapping strings, interning a string again can grow the pool (stat.cpp:163-195):
  `StringPool.Pool.Regrows`, and exactly when, `StringPool.Pool.InternAgainShared`.

Two more things would go wrong, but not for anything that can be written:

- In a loop with both a closing condition and an increment, `continue` would skip the increment
  (ast.cpp:2586-2602, `Structured.BothWaysDiffer`). No loop that can be written has both:
  `LoopForms.WrittenNeverBoth`.
- The rule for parking arguments (ir.cpp:1957-1994) does not ask whether two values with the same
  argument cell are wanted at the same time. For a graph written by hand, `Breakdowns.DiamondRunsDiffer`
  shows two runs that differ, and `Parking.AgreementKeptIff` says when that happens. But the code of a
  call always goes on from an argument it has computed to the call (ast.cpp:3064-3125), and what is
  bound for its call is never disturbed (`ParkingRule.BoundIsUndisturbed`).

## Model

| member | source | states |
|---|---|---|
| IrValues.IrValue.InsertLife | ir.cpp:1031-1035 | a range inserted at a place, everything else as it was |
| IrValues.IrValue.SetAlive | ir.cpp:1037-1098 | the list stays canonical and denotes exactly one id more; true if and only if the id was not alive; unchanged otherwise |
| LifeRanges.AddByEnd | ir.cpp:1053-1083 | growing a range by the id after it, when the next range does not touch, adds just that id |
| LifeRanges.AddByStart | ir.cpp:1089-1094 | growing a range by the id before it adds just that id |
| LifeRanges.AddByBridge | ir.cpp:1069-1078 | an id that closes the gap between two ranges makes one of them and adds just that id |
| LifeRanges.AddByInsert | ir.cpp:1064-1098 | an id that touches no range becomes a range of its own, in order |
| LifeRanges.CanonicalUnique | ir.cpp:1037-1170 | a sorted, disjoint, non-adjacent list is determined by the ids it denotes: no update can leave another one |
| IrValues.IrValue.MergeLife | ir.cpp:1100-1170 | the list stays canonical and denotes the union of both sets of ids, also when both are the same object; the nested loops terminate |
| IrValues.IrValue.MergeRange | ir.cpp:1113-1168 | one range of the other list merged from a given entry on: exactly its ids are added, and no later range can belong before the entry returned |
| IrValues.IrValue.AbsorbSuccessors | ir.cpp:1143-1152 | after an entry has grown it swallows its successors until the next one does not touch |
| LifeRanges.SpliceAlive | ir.cpp:1037-1170 | ranges giving way to one range around them: what the list denotes afterwards |
| LifeRanges.SpliceUnites | ir.cpp:1100-1170 | when that is the union with a given range |
| LifeRanges.InsertUnites | ir.cpp:1120-1127 | a range put where it touches nothing unites |
| LifeRanges.AbsorbDone | ir.cpp:1143-1165 | when nothing more is to be swallowed, either the range is in or the entry was left as it was |
| LifeRanges.NeighboursShareRange | ir.cpp:1037-1170 | two neighbouring live ids lie in one range, which is what non-adjacency is for |
| IrValues.IrValue.Lives | ir.cpp:1037-1098 | whether an id is alive, if and only if some range covers it |
| IrValues.ValuesOverlap | ir.cpp:1172-1224 | the two-pointer scan is true exactly if a pair of ranges clashes in the open sense that is not behind a one-point range starting with it |
| IrValues.AdvanceFirst | ir.cpp:1206-1221 | stepping over a range of the first list passes no pair the scan could report |
| IrValues.AdvanceSecond | ir.cpp:1206-1221 | stepping over a range of the second list, also at equal starts |
| LifeRanges.PointsApartShowsAll | ir.cpp:1172-1224 | without a one-point range of the first list where a range of the second starts, the scan is true exactly if the lists overlap |
| LifeRanges.ScanMissesBehindPoint | ir.cpp:1206-1221 | two canonical lists that overlap and for which the scan says no |
| LifeRanges.OverlapMonotone | ir.cpp:1172-1224 | what clashes with a life clashes with every life that contains it |
| LifeAnalysis.IrFunction.Enumerate | ir.cpp:1801-1828 | every block gets an entry id and its instructions the following ones, in order |
| Ir.BlockOfId | ir.cpp:1812-1828 | ids of different blocks never meet |
| Ir.LeftOpen | ast.cpp:1587-1603 | a function may keep a block that was left open and empty, as after a switch all of whose cases return |
| LifeAnalysis.IrFunction.constructor | ir.cpp:2315-2328 | an analysis starts with no lives and empty living sets |
| LifeAnalysis.IrFunction.MarkAlive | ir.cpp:2092-2098 | one id added to the life of one value; changed exactly if it was new |
| LifeAnalysis.IrFunction.VisitWrites | ir.cpp:2138-2206 | a written value is alive at the write and no longer living above it |
| LifeAnalysis.IrFunction.VisitHeld | ir.cpp:2208-2240 | operands the engine may read again while it writes the result live one id longer |
| LifeAnalysis.IrFunction.VisitReads | ir.cpp:2242-2270 | read operands are living above the instruction |
| LifeAnalysis.IrFunction.LivingLock | ir.cpp:2100-2109 | everything living is locked; changed exactly if something was not |
| LifeAnalysis.IrFunction.VisitParams | ir.cpp:2290-2302 | arguments are read operands too, added after the lock |
| LifeAnalysis.IrFunction.LivingAddInstr | ir.cpp:2092-2098 | everything living is alive at the instruction |
| LifeAnalysis.IrFunction.VisitInstr | ir.cpp:2127-2307 | one instruction seen from below: the facts after it are those before it with kills, holds, reads, locks and lives applied in this order |
| LifeAnalysis.IrFunction.GatherExits | ir.cpp:2119-2125 | the living set becomes the union of those of the exits, the block's own having been cleared |
| LifeAnalysis.IrFunction.LifePropagate | ir.cpp:2111-2313 | the facts after a visit are the lives, locks and living set the dataflow equations give from the facts before it; changed exactly if a life or a lock was added |
| LifeAnalysis.IrFunction.SetParamsAlive | ir.cpp:2315-2320 | parameters, and only they, are alive at 0 |
| LifeAnalysis.IrFunction.Pass | ir.cpp:2322-2328 | a pass over all blocks keeps the invariant, and one that changes nothing ends in a solution |
| LifeAnalysis.IrFunction.Step | ir.cpp:2322-2328 | a pass that changes something adds one of finitely many pairs of value and id, or a lock |
| LifeAnalysis.IrFunction.CalculateLiferanges | ir.cpp:2315-2328 | the iteration terminates, in a solution of the equations: exactly these lives, exactly these locks |
| LifeAnalysis.IrFunction.FlagUninitialized | ir.cpp:2330-2342 | the function is flagged if and only if some local is living at its top |
| Liveness.RecordedMonotone | ir.cpp:2111-2313 | larger living sets record at least the same lives and locks |
| Liveness.VisitKeeps | ir.cpp:2111-2313 | a visit keeps the invariant that every set is justified by a path and every life by a visit |
| Liveness.QuietVisit | ir.cpp:2322-2328 | a visit that adds no life leaves the living sets alone, so stopping when no life changed is right |
| Liveness.SettledSolves | ir.cpp:2322-2328 | when no block has anything to add, lives, locks and sets solve the equations |
| Liveness.SolutionUnique | ir.cpp:2315-2328 | there is only one solution the passes can end in, so lives, locks and sets are determined by the graph |
| Liveness.LivingIsReadable | ir.cpp:2111-2328 | a value is in a block's living set if and only if it can be read before it is written on some path from the block's entry, self-loops or not |
| Liveness.LiveIsReadable | ir.cpp:2111-2313 | what is live at a point can be read on a path from there |
| Liveness.EntryReadableIsLive | ir.cpp:2111-2328 | what can be read on a path from a block's entry is in its set, however long the path |
| Liveness.ClearIsHarmless | ir.cpp:2119-2125 | what the living sets of self-looping blocks must satisfy is a property of the graph: whatever such a block wants at its top, another successor of it wants too |
| Liveness.LiveEverywhereIff | ir.cpp:2119-2125 | inside blocks the sets miss nothing readable if and only if the graph has that property |
| Liveness.LiveIsAlive | ir.cpp:2304-2310 | a life covers every id at which the value is live or written |
| Liveness.LiveReachesBack | ir.cpp:2304-2310 | a value live before an instruction is also alive one id earlier |
| Liveness.StartIsWrite | ir.cpp:2138-2206 | a life that starts at an instruction, or is over at once, starts with a write of the value |
| Interference.LiveAcrossWriteClashes | ir.cpp:1196-1197 | a value wanted after a write of another one clashes with it, although touching ranges do not |
| Interference.LivesUnique | ir.cpp:1037-1170 | and with them the lists the allocator works on |
| Interference.HeldClashesWithResult | ir.cpp:2208-2240 | an operand read again after the result has begun to be written clashes with the result |
| Interference.PointsApartFromSlot | ir.cpp:1871-1913 | a life the analysis produces never has a one-point range where a range of a slot starts, so the scan misses nothing |
| Interference.ApartFromOccupants | ir.cpp:1895-1896 | a value that does not clash with a slot clashes with none of its occupants |
| SlotAllocator.SharedSlotHolds | ir.cpp:1895-1903 | a slot joined by a value that does not clash holds the union of its occupants' lives, no two of which clash, and is as large as the largest |
| SlotAllocator.FunctionAllocator.Alloc | ir.cpp:1846-1869 | a new slot whose only occupant is the value, with the value's life and size |
| SlotAllocator.FunctionAllocator.Join | ir.cpp:1898-1905 | the slot's life becomes the union, its size the maximum; nothing else changes |
| SlotAllocator.FunctionAllocator.Assign | ir.cpp:1871-1913 | the value joins the first slot it may share, or gets a new one if there is none, a value with a unique life always a new one; slots of parameters keep their size |
| SlotAllocator.FunctionAllocator.Layout | ir.cpp:2012-2033 | slots lie one after the other and the total is the sum of their sizes |
| SlotAllocator.SlotsApart | ir.cpp:2015-2033 | two slots never share a cell, and all end below the total |
| Placement.SingleReadIsArgument | ir.cpp:1957-1994 | a value with one read that is found among a call's arguments is used nowhere else, and there once |
| Placement.ClashingCellsApart | ir.cpp:2034-2051 | values whose lives clash have disjoint cells, unless both are parked |
| Placement.CellsInRegion | ir.cpp:3154-3179 | the cells of a value with a life lie in the region its place says |
| FunctionLocals.AllocateOwn | ir.cpp:1926-1939 | parameters get slots of their own, in order and of their own sizes, and are locked; so do all locals if none may be shared |
| FunctionLocals.AllocateLocalsShared | ir.cpp:1940-1947 | every other local with a life gets a slot it fits into, in the allocator its lock demands |
| FunctionLocals.PlaceTemp | ir.cpp:1949-2007 | which place a temporary gets: none without a life; if stores for calls are wanted and it is neither locked nor unique, the argument cell of the only call that reads its only write, else the return cell if its only write is a call; else a slot, preserved or shared by its lock and the option; it fails exactly if the only call that reads its only write calls it instead of passing it |
| Placement.SingleReadIsOnce | ir.cpp:1961-1966 | a list of reads has one element if and only if the value is read once, and then there |
| Placement.SingleWriteIsOnce | ir.cpp:1961-1966 | a list of writes has one element if and only if one instruction writes the value, and then it is that one |
| Placement.ArgumentIsSingleRead | ir.cpp:1961-1966 | a temporary used only as one argument of one call has one read in its list, so the test on the lists misses none |
| FunctionLocals.Park | ir.cpp:1957-2003 | parking changes the value's own fields only and is recorded as its place |
| FunctionLocals.AllocateLocals | ir.cpp:1915-2051 | the whole allocation is safe: no two occupants of a slot clash, parked values are parked for a reason, locked values are in locked slots; sizes of the regions are the reported ones |
| FunctionLocals.TakePositions | ir.cpp:2034-2051 | values and locals learn the positions of their slots |
| FunctionLocals.OutcomeSafe | ir.cpp:1915-2010 | what has been kept from value to value amounts to a safe assignment with the parameters first |
| FunctionLocals.GenerateFunctionLocals | ir.cpp:3138-3179 | every value's code address is the cell its place stands for |
| FunctionLocals.SetAddress | ir.cpp:832-850 | one value's address, with parked values left where they were put |
| FunctionLocals.FinalizeFunction | ir.cpp:695-710 | numbering, analysis and allocation together: solved, safe, and flagged if and only if some local is wanted at the top |
| SlotMachine.ReadsAgree | ir.cpp:1871-2051 | operands and arguments read the same contents in both executions |
| SlotMachine.ArgumentAgrees | ir.cpp:1957-1994 | what a callee finds in an argument cell is the argument, whether it was copied there or parked there |
| SlotMachine.MarshalKeepsCell | ir.cpp:1957-1994 | copying the other arguments leaves the cell of a parked one alone |
| SlotMachine.ResultElsewhere | ir.cpp:1196-1197 | the result of an instruction does not go where a value still wanted is |
| SlotMachine.ReturnsNeverClash | ir.cpp:1995-2002 | two values parked in the return cell are never wanted at the same time |
| SlotMachine.WantedAfterCallIsLocked | ir.cpp:2285-2289 | what is wanted after a call is locked, and its cells lie in the saved window |
| SlotMachine.CallKeeps | ir.cpp:2285-2289 | a value wanted after a call still reads the same after it |
| SlotMachine.InstructionKeeps | ir.cpp:1915-2051 | so it does after any instruction that does not write it, up to the storing of the result |
| SlotMachine.HeldApartFromResult | ir.cpp:2208-2240 | an operand that may be read again shares no cell with the result |
| Operands.OperandsRead | ir.cpp:2058-2090 | what both executions read, opcode by opcode: nothing for jumps, the first operand for branches and returns, all three for stores through a pointer, the last two for everything else, and then the arguments |
| Operands.OperandsWanted | ir.cpp:2058-2090 | each of those operands is wanted by the analysis up to the instruction |
| Operands.OperandWritten | ir.cpp:2058-2090 | jumps, branches, returns and stores through a pointer define nothing, everything else its first operand and nothing else |
| Operands.Computed | exec.cpp:1303-1345 | a computing instruction is handed the contents of its last two operands, and its result is stored where the first one is, in both executions |
| Operands.ReadsBack | exec.cpp:1303-1345 | what has been computed is what is read there next |
| Operands.Called | exec.cpp:1538-1576 | the result of a call is read where it was stored too, and the call is handed its arguments, in the machine those its argument cells hold |
| Operands.ControlGoes | ir.cpp:2675-2720 | where control goes after each kind of instruction, and what is recorded of it |
| Operands.OperandsHeld | ir.cpp:2208-2240 | which operands may be read again, opcode by opcode |
| Operands.StillReads | ir.cpp:2208-2240 | such an operand reads the same however much of the result has been written |
| Preservation.AllocationPreservesMeaning | ir.cpp:1871-2328 | slot allocation preserves meaning: for a solution of the analysis and a safe placement, started in agreement, the execution over slots shows the same instructions, reads, branches and end as the one with a cell per value, after any number of steps and whatever calls overwrite outside the window, if the graph has no self-loop that forgets and, where arguments are parked, none that disturb each other |
| Preservation.Compile | ir.cpp:695-710 | a function the whole way from numbering to emitted addresses: what is emitted is where the values are, and if its graph is sound both executions, started on any memory, run alike; it fails exactly if some temporary finds no place |
| Preservation.OnlyCalledWithoutReturn | ir.cpp:1961-1974 | a temporary without a lock that finds no place is called by a call that never returns, since any other call locks what it calls |
| Preservation.BoundIsSound | ast.cpp:3064-3125 | self-loops apart, a graph is sound if every argument that may be parked is bound for its call once it has been computed |
| Preservation.RuleParksExactly | ir.cpp:1957-1994 | what is parked as an argument is exactly what has a life and fits the rule, as a property of the graph and the locks |
| ParkingRule.BoundIsUndisturbed | ir.cpp:1957-1994 | if parked arguments are bound for their calls, none is written over in its cell before it is passed, wherever they are computed |
| ParkingRule.NeverMeet | ir.cpp:1957-1994 | two parked arguments are never on their way to the same cell at once, since whichever call comes first, the other one is kept across it and so locked |
| ParkingRule.WaitsAcross | ir.cpp:2285-2289 | an argument waiting where another call is made must survive that call |
| ParkingRule.LockedIsKept | ir.cpp:2285-2289 | the analysis locks exactly what is an operand of a call or readable after one |
| Parking.OnItsWayIsUndisturbed | ir.cpp:1957-1994 | so arguments computed in the block of their call, or in front of branches all ways through which lead to it, are undisturbed |
| Parking.StraightIsBound | ir.cpp:1957-1994 | an argument computed in the block of its call is bound for it |
| Parking.EnclosedIsBound | ir.cpp:1957-1994 | so is one with a stretch of blocks before its call that can be left only through the call and entered only from its computation, as in a call whose later arguments hold a branch |
| Parking.ApartIsUndisturbed | ir.cpp:1957-1994 | parked arguments whose lives do not clash are not disturbed |
| Parking.UndisturbedIff | ir.cpp:1957-1994 | the places chosen leave arguments undisturbed if and only if the rule does, on the graph |
| Parking.AgreementKeptIff | ir.cpp:1957-1994 | steps keep the two executions in agreement for all instructions if and only if either nothing is parked or no value that fits the rule is written while another one that fits it for the same cell can still be read |
| Parking.DisturbedIsLost | ir.cpp:1957-1994 | the step and the memory by which a disturbed argument is lost |
| Breakdowns.ParkingCanDisturb | ir.cpp:1957-1994 | a graph in which two values fit the rule for the same cell and disturb each other, although nothing is kept across a call |
| Breakdowns.DiamondRunsDiffer | ir.cpp:1957-1994 | its two runs, in the fourth step of which the call is passed the wrong argument |
| Breakdowns.SelfLoopBreaks | ast.cpp:2696-2708 | a loop without conditions, the solution of the analysis for it and a safe placement in which a temporary shares the slot of a variable, and two runs that differ in the second round |
| Breakdowns.SpinAnalysis | ir.cpp:2315-2328 | the analysis of that loop can have no other result |
| Breakdowns.SpinAllocated | ir.cpp:1871-1913 | the allocator, given the variable and then the temporary, chooses that placement |
| Vm.QcProgram.constructor | exec.cpp:1269-1275 | a machine about to run, with empty stacks |
| Vm.QcProgram.CopyParameter | exec.cpp:488-492 | one parameter copied cell by cell |
| Vm.QcProgram.CopyParameters | exec.cpp:484-493 | the parameters copied one behind the other into the window |
| Calls.CopyParamsCopies | exec.cpp:484-493 | each cell of each parameter arrives behind the parameters before it, whatever was copied before |
| Vm.QcProgram.EnterFunction | exec.cpp:451-498 | the callee's window is appended to the backups, the parameters are copied in, a frame is pushed |
| Vm.QcProgram.RestoreWindow | exec.cpp:520-526 | a window put back from the backups cell by cell |
| Vm.QcProgram.LeaveFunction | exec.cpp:500-531 | the window is put back, backups and frames are cut, control goes to the statement remembered |
| Vm.QcProgram.ReturnFrom | exec.cpp:1290-1301 | the value goes to the return cells before the window is put back; the last return ends the run |
| Vm.QcProgram.CallFunction | exec.cpp:1557-1573 | a call of a function with code remembers the statement after it |
| Vm.QcProgram.ExecuteCall | exec.cpp:1538-1576 | a call fails on a null or unknown function, runs a builtin, or enters a function |
| Vm.QcProgram.Execute | exec.cpp:1269-1301 | one turn of the interpreter loop is one step of the state machine the lemmas are about |
| Calls.NullFits | code.cpp:118-131 | the null function with the statement that is its own meets what is asked of programs |
| Calls.BuiltinFits | ir.cpp:3004-3027 | and a program that does still does with one more builtin, which has no window whatever it is passed |
| Calls.SmallFits | ir.cpp:3004-3027 | a program with all three: null function, function with a parameter and builtin with one |
| Calls.EnterThenPutBack | exec.cpp:451-531 | leaving right after entering is as if nothing had happened |
| Calls.EnterStaysInside | exec.cpp:451-498 | entering a function, also one whose window is already in use, keeps what unwinding would restore |
| Calls.UnwoundForgets | exec.cpp:500-531 | whatever happens in the running function's window, unwinding gives the same windows |
| Calls.LeaveKeepsWindows | exec.cpp:500-531 | leaving peels one layer off, also when windows overlap |
| Calls.StepInside | exec.cpp:1269-1301 | a statement run inside a call stays inside it, completes it properly, or fails |
| Calls.CallsPreserveWindows | exec.cpp:451-531 | from a call on, as long as it has not returned, the machine is inside it; when it returns, every window cell and every backup is as before and control is after the call, for any depth, recursion and overlap |
| Calls.CompletedCall | exec.cpp:1538-1576 | a completed call changes no cell of any window |
| Calls.CallBegins | exec.cpp:1538-1576 | what a call does at once: no such function fails, a builtin goes on behind the call, any other one starts at its entry with the statement behind the call remembered and its own window backed up as it was |
| Calls.OperationStores | exec.cpp:1303-1345 | an operation stores what the engine computes into the cells it names and no others; jumps only move control |
| Calls.ReturnEnds | exec.cpp:1290-1301 | a return goes on behind the call it answers, and the last one ends the run |
| Calls.ReturnDelivers | exec.cpp:1290-1301 | a return leaves the three cells of its operand in cells 1 to 3, whatever is put back afterwards |
| Calls.ReturnedToCaller | exec.cpp:1290-1301 | after a completed call the caller finds there what the operand of the callee's last return held |
| Linkage.ParameterAddress | ir.cpp:3006-3018 | the position at which the machine puts a parameter is the address compiled code reads |
| Linkage.ParametersFitWindow | ir.cpp:3006-3018 | the parameters of a header fit into its window |
| Linkage.ParametersArrive | exec.cpp:484-493 | entering a function puts each of its first eight parameters into the cells compiled code reads it from |
| Linkage.CallOnlyClobbers | exec.cpp:1538-1576 | a completed call of the machine is, to its caller, the overwriting outside the window that allocation was proved against |
| Structured.DefaultOf | ast.cpp:2890-2899 | the default is found wherever it is written |
| Structured.SelectsFirst | ast.cpp:2839-2866 | the case selected is the first whose value equals the operand when it is evaluated, wherever defaults stand; exactly the values up to it are evaluated, in order, or all of them if none is equal |
| Structured.WaysAgree | ast.cpp:2586-2602 | where no loop has both a closing condition and an increment and no switch two defaults, what is generated is what is written |
| Structured.BothWaysDiffer | ast.cpp:2586-2602 | for a loop with both it is not: a continue skips the increment |
| LoopForms.WrittenNeverBoth | parser.cpp:2568-2576 | the loops that can be written, while, do and for, never have both |
| LoopForms.WrittenIsGenerated | parser.cpp:2568-2576 | so what can be written is generated as it is written, two defaults in a switch apart |
| StatementLaws.BranchTaken | ast.cpp:2285-2385 | an expression is evaluated once; an if does its first branch exactly when the condition is not zero |
| StatementLaws.WhileUnrolls | ast.cpp:2507-2753 | a while loop and an if with the body and the loop again end with the same histories and run forever together |
| StatementLaws.DoIsWhile | ast.cpp:2507-2753 | so do a do loop and its body with the while loop behind it, if breaks and continues of the body stay inside it |
| StatementLaws.ForIsWhile | ast.cpp:2507-2753 | and a for loop and its first part with a while loop behind it whose body ends with the increment |
| StatementLaws.WhileEndsTested | ast.cpp:2507-2753 | a while loop whose body does not break out of it ends with its condition as the last thing evaluated, and with the value that ends it, negated or not |
| StatementLaws.DoEndsTested | ast.cpp:2722-2742 | and so does a do loop |
| StatementLaws.WhileRound | ast.cpp:2507-2753 | one round of a while loop for any body: where breaks and continues of one or more levels lead |
| StatementLaws.DoRound | ast.cpp:2722-2742 | one round of a do loop: after a continue its condition is tested too |
| StatementLaws.ForRound | ast.cpp:2507-2753 | one round of a for loop: after a continue its increment is evaluated too |
| StatementLaws.StaysIn | ast.cpp:2755-2785 | what may break out of a statement is bounded by what its breaks and continues name |
| StatementLaws.Enclosed | ast.cpp:2755-2785 | a loop supplies one target for breaks and one for continues, a switch one for breaks |
| StatementLaws.RoomEnough | ast.cpp:2755-2785 | every statement is well-formed inside enough loops |
| StatementLaws.BlockInParts | ast.cpp:1623-1669 | a block is its first part and then, if that ends normally, the rest |
| StatementLaws.SwitchIsBlock | ast.cpp:2839-2906 | a switch is the block of the codes from the selected case on, up to a break |
| StatementLaws.AskedUntilEqual | ast.cpp:2839-2866 | values are evaluated in order until one equals the operand; it is the last one evaluated and its case is selected, and none before it was equal |
| Defaults.NeverLost | ast.cpp:2838-2942 | where no switch has two defaults control never comes to code that is not generated |
| Defaults.SwitchRightIff | ast.cpp:2890-2899 | a switch is generated as it is written, whatever the code of its cases, if and only if it has at most one default |
| Defaults.TwoDefaultsDiffer | ast.cpp:2890-2899 | with more than one default there is code for the cases and a run that differs |
| Defaults.TwoDefaultsLose | parser.cpp:3182-3230 | a switch with two defaults in which control falls out of the case before them into nothing |
| FlowGraph.OnlyEntered | ast.cpp:1587-1601 | control is never in a block without entries other than the one it started in |
| Simulation.SequenceSimulates | ast.cpp:1623-1669 | code of a block followed by code of a statement does what the longer block does |
| Simulation.UnreachableSkipped | ast.cpp:1656-1661 | leaving out what follows a statement that cannot end normally changes nothing |
| Simulation.NeverDone | ast.cpp:1656-1661 | what the generator takes for unable to end normally never does |
| Simulation.LeapSimulates | ast.cpp:2755-2785 | a jump to the block the stack names is the break or continue |
| Simulation.ReturnSimulates | ast.cpp:2027-2060 | leaving the function is the return |
| Simulation.IfSimulates | ast.cpp:2317-2386 | a branch to the codes of both branches, each going to the merge block, is the if |
| Simulation.FoldedSimulates | fold.cpp:1069-1100 | of an if on a literal the code of the branch taken is enough |
| LoopWiring.RoundRuns | ast.cpp:2666-2742 | blocks joined as the generator joins them run a round of the loop and all later ones |
| LoopWiring.LoopSimulates | ast.cpp:2507-2753 | initial expression, opening condition, body, increment and closing condition together are the loop |
| SwitchWiring.SelectRuns | ast.cpp:2839-2866 | the chain of comparisons finds the first equal case, evaluating the values up to it and no others |
| SwitchWiring.FallRuns | ast.cpp:2868-2933 | from the code of a case control falls through in source order, into the default and out of it, until a break |
| SwitchWiring.CasesRun | ast.cpp:2838-2937 | the first equal case, else the default wherever it is written, then falling through |
| SwitchWiring.SwitchSimulates | ast.cpp:2787-2953 | the code of a switch is the switch, for any number of cases |
| Settling.IfSettled | ast.cpp:2317-2386 | the code of an if stays right in every graph this one grows into |
| Settling.LoopSettled | ast.cpp:2547-2742 | and so does that of a loop |
| Settling.SwitchSettled | ast.cpp:2838-2942 | and that of a switch |
| Building.RegularAdded | ast.cpp:2846-2889 | one more case with a value keeps what the generator knows of the cases before it |
| Building.DefaultAdded | ast.cpp:2890-2899 | and so does the default, whose code comes later |
| Building.SwitchFinished | ast.cpp:2902-2937 | when the last ends are led on, comparisons and codes are those of a switch |
| Lowering.LoweringPreservesMeaning | ast.cpp:1500-1604 | the graph halts with a history if and only if the body, as it is generated, terminates with it, runs forever if and only if the body does, and gets stuck if and only if the body comes to code that is never generated |
| Lowering.NeverStuck | ast.cpp:1500-1604 | it never gets stuck if no switch has two defaults |
| Lowering.TwoDefaultsStick | ast.cpp:2890-2899 | for a body that is a switch with two defaults it does, when the case before them is equal |
| Lowering.PlainMeaningPreserved | ast.cpp:1500-1604 | where no loop has both a closing condition and an increment and no switch two defaults, the graph does what is written, round by round |
| Lowering.ReturnedLowers | ast.cpp:1580-1601 | returning at the end of the body what falling off it returns |
| Lowering.AbandonedLowers | ast.cpp:1587-1603 | a last block that nothing enters may stay open |
| Codegen.FunctionBody.constructor | ast.cpp:1546-1550 | an empty entry block and empty stacks |
| Codegen.FunctionBody.CreateBlock | ir.cpp:408-418 | a new open block behind the others |
| Codegen.FunctionBody.CreateJump | ir.cpp:1386-1402 | an exit is refused on a block that has one; otherwise the block jumps and the target knows it |
| Codegen.FunctionBody.CreateIf | ir.cpp:1357-1384 | the same for a branch |
| Codegen.FunctionBody.CreateReturn | ir.cpp:1335-1355 | the same for leaving the function |
| Codegen.FunctionBody.Statement | ast.cpp:1623-1669 | the code of any statement runs from where it was begun to the current point as the statement does; it fails only when warnings are errors |
| Codegen.FunctionBody.ReturnStatement | ast.cpp:2027-2060 | return, with or without an operand |
| Codegen.FunctionBody.BreakContinue | ast.cpp:2755-2785 | break n and continue n find their targets n levels down the stack |
| Codegen.FunctionBody.BlockStatement | ast.cpp:1623-1669 | the statements of a block in order, with those after one that cannot end skipped |
| Codegen.FunctionBody.FoldedIf | fold.cpp:1069-1100 | an if on a literal, with only the branch taken generated in place |
| Codegen.FunctionBody.IfStatement | ast.cpp:2285-2386 | if, with none, one or both of its branches coming out again |
| Codegen.FunctionBody.MergeBranches | ast.cpp:2360-2385 | the merge block, the jumps into it from branches that are still open, and the branch itself |
| Codegen.FunctionBody.PrepareLoop | ast.cpp:2547-2608 | the blocks of a loop, made before its body so that breaks and continues find them |
| Codegen.FunctionBody.LoopBody | ast.cpp:2610-2635 | the body, generated with the loop's targets on top of the stacks, which are as before afterwards |
| Codegen.FunctionBody.JoinLoop | ast.cpp:2663-2742 | the parts of the loop joined in the order of a round |
| Codegen.FunctionBody.LoopStatement | ast.cpp:2507-2753 | for, while and do loops |
| Codegen.FunctionBody.RegularCase | ast.cpp:2846-2883 | one case: comparison, fall-through from the case before, code |
| Codegen.FunctionBody.AllCases | ast.cpp:2838-2900 | all cases in order, the last default remembered together with what falls into it and what it falls into |
| Codegen.FunctionBody.Forget | ast.cpp:2890-2899 | a second default makes the generator lose sight of the end that was to fall into the first one, and of nothing else |
| Codegen.FunctionBody.DefaultCase | ast.cpp:2910-2933 | the default, generated at the end of the comparisons |
| Codegen.FunctionBody.CloseSwitch | ast.cpp:2902-2942 | the ends of the last case, of the default and of the comparisons led out of the switch |
| Codegen.FunctionBody.SwitchStatement | ast.cpp:2787-2953 | switch with fall-through and the default in any position |
| Codegen.FunctionBody.GenerateFunction | ast.cpp:1500-1604 | a whole body: what is built does what the body does, including falling off its end; it fails only when warnings are errors |
| Rounding.UnitsGrow | fold.cpp:156-157 | larger magnitude bits stand for larger numbers |
| Rounding.RoundedUnique | fold.cpp:200-243 | there is only one correctly rounded magnitude in any direction |
| Rounding.ExactRounds | fold.cpp:200-243 | a representable value rounds to itself |
| Rounding.AgreesShifted | fold.cpp:121-126 | the sticky bit left by a shift never changes a comparison that rounding depends on |
| Rounding.PackedIsRounded | fold.cpp:236-242 | adding the increment, dropping seven bits and clearing a tie gives the correctly rounded magnitude, exact if and only if the low bits are zero |
| Rounding.PackedTooLarge | fold.cpp:221-225 | beyond the largest exponent: infinity or the largest finite number, with overflow and inexact |
| Rounding.TinyDetected | fold.cpp:226-234 | the test for tininess is the one of the chosen kind, before or after rounding |
| Rounding.NoOverflow | fold.cpp:221-225 | overflow is due exactly if the rounded magnitude is infinity |
| Significands.ShiftIsSticky | fold.cpp:121-126 | the shift macro shifts with a sticky bit for every count but zero |
| Significands.Subnormalize | fold.cpp:142-143 | the macro for subnormal operands always yields exponent one and a significand with its hidden bit set |
| Significands.TakenIsValue | fold.cpp:142-143 | multiplication and division take an operand for its value if and only if it is not subnormal |
| Significands.Clz | fold.cpp:66-100 | the number of leading zeros normalizes |
| Significands.ProductStands | fold.cpp:429-438 | the upper half of the product of significands with its sticky bit stands for the exact product |
| Significands.QuotientAgrees | fold.cpp:488-491 | looking at the remainder only when the low six bits are zero is enough for rounding |
| Significands.QuotientStands | fold.cpp:481-491 | the quotient of significands stands for the exact quotient, with the dividend halved when it is not the smaller |
| Significands.SumStands | fold.cpp:272-306 | the larger significand plus the shifted smaller one stands for the exact sum |
| Significands.LittleCancels | fold.cpp:342-372 | where the alignment shift has lost bits, at most one leading bit cancels |
| Significands.DifferenceStands | fold.cpp:342-372 | one sticky bit is enough for differences too, wherever the leading bit ends up |
| SoftFloat.FloatState.PackRound | fold.cpp:200-243 | the correctly rounded magnitude under the sign, in all rounding modes and both kinds of tininess, including overflow and gradual underflow, and exactly the exceptions due |
| SoftFloat.FloatState.PackNormal | fold.cpp:254-257 | the same for a significand that is not normalized |
| SoftFloat.FloatState.PropagateNaN | fold.cpp:164-179 | a NaN in, a NaN out, with invalid exactly for a signaling one |
| SoftFloat.FloatState.AddMagnitudes | fold.cpp:263-313 | the rounded sum of magnitudes, for operands of every kind |
| SoftFloat.FloatState.SubMagnitudes | fold.cpp:315-373 | the rounded difference, with the sign turned if the second is larger and a zero signed by the rounding mode |
| SoftFloat.FloatState.Add | fold.cpp:375-380 | sum or difference of magnitudes by the signs, for all 32-bit operands |
| SoftFloat.FloatState.Sub | fold.cpp:382-387 | the other way round |
| SoftFloat.FloatState.Mul | fold.cpp:389-439 | the product of what the operands are taken for, rounded; zeros, infinities and NaNs as IEEE 754-2008 has them |
| SoftFloat.FloatState.Div | fold.cpp:441-492 | the quotient of what the operands are taken for, rounded; division by zero, zeros, infinities and NaNs |
| SoftFloat.FloatState.Neg | fold.cpp:494-498 | the sign turned and nothing else, if and only if the operand is not subnormal |
| SoftFloat.AddIsRight | fold.cpp:375-380 | on finite operands addition is correctly rounded with the right exceptions if the exponents are not zero and one, and only then, unless inexact had been signaled before |
| SoftFloat.SubIsRight | fold.cpp:382-387 | and so is subtraction |
| SoftFloat.MulIsRight | fold.cpp:389-439 | on normal operands multiplication is correctly rounded with the right exceptions |
| SoftFloat.DivIsRight | fold.cpp:441-492 | and so is division |
| SoftFloat.MisalignedSumWrong | fold.cpp:121-126 | with exponents zero and one the sum is never right, unless inexact had been signaled before |
| SoftFloat.NegIsRight | fold.cpp:494-498 | multiplying by minus one is negation if and only if the operand is not subnormal |
| SubnormalOperands.MulRightIff | fold.cpp:389-439 | on finite operands other than zero multiplication is right if neither is subnormal or both the exact product and the computed one are lost below the smallest number in the same way, and only then, unless an exception signaled before hides it |
| SubnormalOperands.DivRightIff | fold.cpp:441-492 | and division if both operands are misjudged by the same factor, or exact and computed quotient both overflow or are both lost, and only then, under the same proviso |
| SubnormalOperands.DeliveredForBoth | fold.cpp:200-243 | of two values one of which is at least twice the other, a result with its exceptions fits both if and only if both overflow or both are lost |
| SubnormalOperands.TooFarApart | fold.cpp:200-243 | no magnitude in between is the rounded one for both |
| SpecialValues.Kinds | fold.cpp:103-142 | not a number, infinite, finite, zero, subnormal and normal by the magnitude bits |
| SpecialValues.SignalingBits | fold.cpp:105-110 | a NaN is signaling if the highest bit of its fraction is not set |
| SpecialValues.NaNResults | fold.cpp:158-179 | a NaN operand gives a NaN, and raises invalid, alone, exactly if an operand is signaling |
| SpecialValues.SpecialQuotients | fold.cpp:441-492 | a number by zero raises division by zero and nothing else; zero by zero and infinity by infinity are a quiet NaN and raise invalid; with the signs of infinite and zero results |
| SpecialValues.SpecialProducts | fold.cpp:389-439 | zero times infinity is a quiet NaN and raises invalid; infinite and zero products with their signs, and no exception |
| SpecialValues.SpecialSums | fold.cpp:375-387 | infinities of opposite signs raise invalid; any other sum with an infinity is that infinity |
| SpecialValues.SpecialDifferences | fold.cpp:375-387 | infinities of the same sign raise invalid; any other difference with an infinity is that one or its opposite |
| SpecialValues.ModesMean | fold.cpp:200-243 | upward the result is never below the exact value, downward never above it, towards zero never farther from zero |
| SpecialValues.ExceptionsMean | fold.cpp:200-243 | which exceptions rounding raises, flag by flag, and that it raises no other |
| SpecialValues.DividedByOne | fold.cpp:441-492 | a normal number divided by 0x3F800000 is itself, exactly |
| SpecialValues.OppositesCancel | fold.cpp:315-373 | a number and its opposite add up to zero, negative exactly when rounding downward, and nothing is raised |
| Crc16.BitsAreShifts | util.cpp:170-175 | bringing a byte in bit by bit is bringing it in at once and shifting |
| Crc16.TableStep | util.cpp:481-484 | one look into the first table brings in a byte |
| Crc16.TableShifts | util.cpp:176-182 | table j holds what a byte has become after j further bytes |
| Crc16.TableLinear | util.cpp:170-182 | the tables are linear under exclusive or |
| Crc16.Superposed | util.cpp:473-510 | what the register held and what the data adds do not mix |
| Crc16.FirstByte | util.cpp:486-500 | the share of a byte is found in the table for the number of bytes after it |
| Crc16.RegisterShare | util.cpp:486-491 | eight bytes' worth of shifts of the register are two looks |
| Crc16.BulkIsEightBytes | util.cpp:489-500 | the eight looks of a bulk step are eight bytes of the bitwise checksum |
| Crc16.ChecksumInParts | util.cpp:473-510 | the checksum of data in parts is the checksum of the whole |
| Crc16.OneByte | util.cpp:481-484 | the loop body for odd bytes |
| Crc16.EightAtOnce | util.cpp:489-500 | the bulk loop body |
| Crc16.Checksum16 | util.cpp:473-510 | for every start value and every length the result is the checksum defined bit by bit |
| Crc16.GenerateTable | util.cpp:169-182 | the generator fills the eight tables, with 0x1021 as the second entry |
| CrcPolynomial.ChecksumIsRemainder | util.cpp:169-182 | for every start value and message: the checksum is the one word that, added to the register and the message raised by sixteen, leaves a multiple of x^16 + x^12 + x^5 + 1, the multiples being carry-less products |
| CrcPolynomial.EntryIsRemainder | util.cpp:169-182 | and so is each entry of each table for its byte with zeros behind it |
| CrcPolynomial.FourWays | util.cpp:172-174 | a product with the generator has x^e exactly if an odd number of four terms does |
| CrcPolynomial.HighTerm | util.cpp:172-174 | a multiple other than zero has degree sixteen at least: there is only one remainder |
| CrcPolynomial.StepDivides | util.cpp:172-174 | one step of the register is multiplication by x with the message bit added, up to a multiple of the generator |
| Crc16.FirstPower | util.cpp:204-207 | the second entry of the first table, and the checksum of the byte 1 from zero, are 0x1021 |
| Texts.CompareZero | stat.cpp:121-125 | comparing gives zero exactly for equal strings |
| Texts.CompareIsLexicographic | stat.cpp:121-125 | a string comes before another if and only if it is a beginning of it or has the smaller byte, unsigned, where they first differ |
| Texts.CompareChains | stat.cpp:121-125 | the order of strings is transitive |
| Chains.StopsRight | stat.cpp:146-156 | in a sorted chain the key is where the search stops or nowhere |
| Chains.InsertedSorted | stat.cpp:114-140 | a chain stays strictly sorted, with one entry for each key |
| Chains.InsertRefines | stat.cpp:114-140 | setting in a chain is setting in the map |
| Chains.DeleteRefines | stat.cpp:225-242 | removing from a chain is removing from the map |
| Chains.LookupRefines | stat.cpp:146-156 | looking where the search stops is looking up in the map |
| Chains.SharedFound | stat.cpp:163-195 | the search for a string sharing its end finds one if and only if there is one not behind a greater string of the wanted length |
| HashTable.Table.constructor | stat.cpp:94-112 | an empty table represents empty maps |
| HashTable.LinkIn | stat.cpp:128-138 | a node linked in at its place, in an empty chain, first, last or between, and every other chain left alone |
| HashTable.Unlink | stat.cpp:225-242 | a node taken out |
| HashTable.Table.Find | stat.cpp:119-122 | the first node whose key does not come before the given one; if any node holds the key it is this one |
| HashTable.Table.SetH | stat.cpp:114-140 | exactly the one key of the one map is set, by overwriting or by one new node |
| HashTable.Table.GetH | stat.cpp:146-156 | the value of a key, or nothing |
| HashTable.Table.RemoveH | stat.cpp:225-242 | exactly the one key is removed |
| HashTable.Table.GetShared | stat.cpp:163-195 | the offset of the string inside a stored string that ends in it, exactly if the search can find one |
| StringPool.ReadsAsOne | code.cpp:146-177 | an offset reads back as one string only |
| StringPool.ReadsEnd | code.cpp:146-177 | the end of a stored string is stored with it |
| StringPool.Pool.constructor | code.cpp:117-137 | a pool holding one zero byte and an empty cache |
| StringPool.Pool.Lookup | code.cpp:161-170 | an offset other than zero reads back as the string, and there is one exactly if the cache will yield it |
| StringPool.Pool.GenString | code.cpp:146-177 | the offset reads back as the string, whatever was interned before |
| StringPool.Pool.Intern | code.cpp:146-177 | the pool only grows, keeps all keys, and grows for a non-empty string exactly if the cache does not yield it |
| StringPool.Pool.InternAll | code.cpp:146-177 | any sequence of calls: every offset handed out still reads back as its string at the end, in both modes |
| StringPool.Pool.InternAgain | code.cpp:146-177 | without overlapping, interning a string again after any other calls gives the same offset and never grows the pool |
| StringPool.Pool.InternAgainShared | code.cpp:146-177 | with overlapping, it grows the pool, by the whole string, if and only if a greater string as long comes in front of every stored string with that end; never if the string was stored itself; both offsets read back in any case |
| StringPool.OvertakenIff | stat.cpp:163-195 | that is exactly when the search for a shared end finds nothing |
| StringPool.Pool.Regrows | stat.cpp:163-195 | with overlapping, four calls after which a string already readable is stored once more |
| StringPool.HiddenBehind | stat.cpp:163-195 | the stored string ends in the wanted one and the search does not get to it |
| StringPool.Pool.StoredIsFindable | stat.cpp:163-195 | a string that is itself a key is found in both modes |

## Left out

- Preservation.AllocationPreservesMeaning: is about graphs; that call code binds each argument it has computed to its call is a property of the code that builds them, which for expressions is not part of this model.
- Preservation.AllocationPreservesMeaning: asks more of self-loops than it must; one that forgets a value does no harm if nothing else gets the slot of that value.
- Parking.AgreementKeptIff: is about single steps from all states that agree, whether or not a run comes to them.
- Preservation.AllocationPreservesMeaning: an execution stops at the end of a block left open. Where control can come to such a block, which takes two defaults in a switch, emitted code would run on into whatever follows.
- Preservation.Compile: the two executions start on the same memory, with every value holding what its cells hold.
- Calls.CallsPreserveWindows: says nothing after an error of the machine, and takes builtins to leave windows alone.
- Linkage.CallOnlyClobbers: that the statements of a function store only into its window or outside of all windows is asked of the program; `Placement.CellsInRegion` says where the values of a function are, but emitted statements are not part of the model.
- Vm.QcProgram.Execute: models the statements that move control, windows or stacks; all other operations are one statement that stores given cells. NRCALL, the limit on jumps, profiling and tracing are left out.
- Vm.QcProgram.ExecuteCall: a negative function number counts as a failure, like zero.
- Codegen.FunctionBody.GenerateFunction: takes the parser's word that breaks and continues name enclosing statements; one body block.
- Structured.WaysAgree: in one direction; a loop with both parts in which no continue is reached does what is written too.
- LoopForms.WrittenNeverBoth: the forms are those of parser.cpp:2301, 2421 and 2575; the loops of intrin.cpp are of the same forms.
- Codegen.FunctionBody.Expression: an expression is one opaque evaluation; expressions that make blocks of their own (ternary, short-circuit) and goto with labels are left out.
- Codegen.FunctionBody.CreateBlock: blocks keep the order of their creation; moving them to the end for a nicer layout, and coverage calls, are left out.
- FunctionLocals.AllocateLocals: values are scalars of a given size; vector members and split vectors are left out, and so are more than eight parameters and variable arguments.
- FunctionLocals.FinalizeFunction: takes the lists of reads and writes kept with each value to be those of its instructions.
- FunctionLocals.GenerateFunctionLocals: the globals section, its growth and 32-bit overflow of offsets are left out.
- LifeAnalysis.IrFunction.VisitWrites: scalar operands only, so neither vector members nor the vectors they belong to; the STATE instruction, whose first operand is classed as written, is left out.
- LifeAnalysis.IrFunction.VisitHeld: scalar operands only; the vector a member belongs to is not held.
- LifeAnalysis.IrFunction.VisitReads: scalar operands only, and no phi operands.
- LifeAnalysis.IrFunction.VisitParams: scalar arguments only.
- LifeAnalysis.IrFunction.VisitInstr: scalar operands only, and no phi operands.
- SoftFloat.FloatState.PropagateNaN: which NaN is returned is left out.
- SoftFloat.MulIsRight: on normal operands; `SubnormalOperands.MulRightIff` is about all finite ones other than zero.
- SoftFloat.DivIsRight: on normal operands; `SubnormalOperands.DivRightIff` is about all finite ones other than zero.
- SoftFloat.AddIsRight: where inexact had been signaled before, a wrong exception cannot be told; only the sufficient half is stated for it, and so for `SoftFloat.SubIsRight`, `SubnormalOperands.MulRightIff` and `SubnormalOperands.DivRightIff`.
- SoftFloat.FloatState.Neg: says nothing about the flags for a NaN.
- Crc16.GenerateTable: produces the tables; that the literal table in the source is the same list of numbers is not compared.
- HashTable.Table.GetH: the bin is given by the caller, so hash values are left out; `StringPool.Pool.BinOf` takes them from an arbitrary function. Freeing a table and failing allocations are left out.
- StringPool.Pool.GenString: offsets do not overflow.
- StringPool.Pool.InternAgain: without overlapping; with it, `StringPool.Pool.InternAgainShared`.
- Emission of statements from blocks with its jump patching (ir.cpp:2472-2924), the order of operands of commutative statements, and file output: execution is modelled on the graph.
- The passes before the analysis: peephole, tail recursion (ir.cpp:575-626) and the removal of phi nodes. The code analysed is what they leave.
- Constant folding of operators against the machine, which differ by design on division by zero.
- Lexer, preprocessor, parser, intrinsics, options, console output and the test driver.
