// The calling discipline of the virtual machine. Functions keep their locals in
// windows of the global cells; entering one backs its window up, leaving it puts
// the backup back. However deep calls nest and however windows overlap, a call
// that returns has changed no cell of any window.

module Calls {
  import opened Sums
  import opened Reserved

  // entry < 0: a builtin. The window is firstlocal .. firstlocal + locals.
  datatype Function = Function(entry: int, firstlocal: nat, locals: nat, argsize: seq<nat>)

  datatype Statement =
    | Op(target: nat, width: nat)                  // any operation; stores `width` cells at `target`
    | Goto(to: nat)
    | Branch(to: nat)                              // IF and IFNOT: to `to`, or on to the next statement
    | Call(callee: nat)                            // the cell that holds the function number
    | Return(value: nat)                           // DONE and RETURN

  datatype Frame = Frame(stmt: nat, localsp: nat, func: nat)

  datatype Program = Program(functions: seq<Function>, code: seq<Statement>, cells: nat)

  datatype Status = Running | Finished | Failed

  datatype State<W> = State(
    pc: nat, globals: seq<int>, localstack: seq<int>, stack: seq<Frame>, world: W, status: Status)

  // What operations, branches and builtins compute, for any further state W.
  datatype Engine<!W> = Engine(
    compute: (nat, seq<int>, W) -> (nat -> int, W),
    taken: (nat, seq<int>, W) -> bool,
    builtin: (nat, seq<int>, W) -> (nat -> int, W))

  // ----- windows -----

  predicate InWindow(f: Function, c: nat) {
    f.firstlocal <= c < f.firstlocal + f.locals
  }

  predicate InAnyWindow(p: Program, c: nat) {
    exists i :: 0 <= i < |p.functions| && InWindow(p.functions[i], c)
  }

  /**
   * What the code generator guarantees of a function header. The null function and builtins have no window, and what
   * a builtin is passed is not copied anywhere.
   */
  predicate WellFormedFunction(p: Program, f: Function) {
    && (f.locals > 0 ==> 28 <= f.firstlocal) && f.firstlocal + f.locals <= p.cells
    && |f.argsize| <= 8 && (f.entry >= 0 ==> Sum(f.argsize) <= f.locals)
    && (forall k :: 0 <= k < |f.argsize| ==> f.argsize[k] <= 3)
    && f.entry < |p.code|
  }

  /** A statement of function i stores only into i's window or outside of all windows, and control stays in i. */
  predicate Disciplined(p: Program, owner: seq<nat>, pc: nat)
    requires pc < |p.code| == |owner| && owner[pc] < |p.functions|
  {
    var i := owner[pc];
    match p.code[pc]
    case Op(target, width) =>
      && target + width <= p.cells && Stays(owner, pc + 1, i)
      && forall c :: target <= c < target + width ==> InWindow(p.functions[i], c) || !InAnyWindow(p, c)
    case Goto(to) => Stays(owner, to, i)
    case Branch(to) => Stays(owner, to, i) && Stays(owner, pc + 1, i)
    case Call(callee) => callee < p.cells && Stays(owner, pc + 1, i)
    case Return(value) => value + 3 <= p.cells
  }

  predicate Stays(owner: seq<nat>, pc: nat, i: nat) {
    pc < |owner| && owner[pc] == i
  }

  predicate WellFormed(p: Program, owner: seq<nat>) {
    && 28 <= p.cells && |owner| == |p.code|
    && (forall i :: 0 <= i < |p.functions| ==> WellFormedFunction(p, p.functions[i]))
    && (forall i :: 0 <= i < |p.functions| && p.functions[i].entry >= 0 ==> Stays(owner, p.functions[i].entry, i))
    && (forall pc :: 0 <= pc < |p.code| ==> owner[pc] < |p.functions| && Disciplined(p, owner, pc))
  }

  // ----- entering and leaving -----

  /** The first n cells of parameter p's copy. */
  function CopyCells(globals: seq<int>, from: nat, to: nat, n: nat): (r: seq<int>)
    ensures |r| == |globals|
  {
    if n == 0 then globals
    else
      var g := CopyCells(globals, from, to, n - 1);
      if from + n - 1 < |g| && to + n - 1 < |g| then g[to + n - 1 := g[from + n - 1]] else g
  }

  /** The first n parameters, one after the other from firstlocal on. */
  function CopyParams(f: Function, globals: seq<int>, n: nat): (r: seq<int>)
    requires n <= |f.argsize|
    ensures |r| == |globals|
  {
    if n == 0 then globals
    else CopyCells(CopyParams(f, globals, n - 1), OFS_PARM0 + 3 * (n - 1),
                   f.firstlocal + Sum(f.argsize[..n - 1]), f.argsize[n - 1])
  }

  function Window(f: Function, globals: seq<int>): seq<int> {
    if f.firstlocal + f.locals <= |globals| then globals[f.firstlocal..f.firstlocal + f.locals] else []
  }

  function Restore(f: Function, globals: seq<int>, saved: seq<int>): (r: seq<int>)
    ensures |r| == |globals|
  {
    if f.firstlocal + |saved| <= |globals|
    then globals[..f.firstlocal] + saved + globals[f.firstlocal + |saved|..] else globals
  }

  function Enter<W>(p: Program, s: State<W>, i: nat): State<W>
    requires i < |p.functions| && p.functions[i].entry >= 0
  {
    var f := p.functions[i];
    s.(pc := f.entry,
       localstack := s.localstack + Window(f, s.globals),
       globals := CopyParams(f, s.globals, |f.argsize|),
       stack := s.stack + [Frame(s.pc + 1, |s.localstack|, i)])
  }

  function Saved(p: Program, localstack: seq<int>, fr: Frame): seq<int> {
    if fr.func < |p.functions| && fr.localsp + p.functions[fr.func].locals <= |localstack|
    then localstack[fr.localsp..fr.localsp + p.functions[fr.func].locals] else []
  }

  /** What leaving the function of frame fr puts back. */
  function PutBack(p: Program, globals: seq<int>, localstack: seq<int>, fr: Frame): (r: seq<int>)
    ensures |r| == |globals|
  {
    if fr.func < |p.functions| then Restore(p.functions[fr.func], globals, Saved(p, localstack, fr)) else globals
  }

  function Leave<W>(p: Program, s: State<W>): State<W>
    requires s.stack != []
  {
    var fr := s.stack[|s.stack| - 1];
    s.(pc := fr.stmt,
       globals := PutBack(p, s.globals, s.localstack, fr),
       localstack := if fr.localsp <= |s.localstack| then s.localstack[..fr.localsp] else s.localstack,
       stack := s.stack[..|s.stack| - 1])
  }

  // ----- one statement -----

  function StoreCells(globals: seq<int>, target: nat, width: nat, value: nat -> int): (r: seq<int>)
    ensures |r| == |globals|
    ensures forall c :: 0 <= c < |globals| ==> r[c] == if target <= c < target + width then value(c) else globals[c]
  {
    seq(|globals|, c requires 0 <= c < |globals| => if target <= c < target + width then value(c) else globals[c])
  }

  /** A builtin may write any cell but those of windows. */
  function BuiltinCells(p: Program, globals: seq<int>, value: nat -> int): (r: seq<int>)
    ensures |r| == |globals|
    ensures forall c :: 0 <= c < |globals| && InAnyWindow(p, c) ==> r[c] == globals[c]
  {
    seq(|globals|, c requires 0 <= c < |globals| => if InAnyWindow(p, c) then globals[c] else value(c))
  }

  function SetReturn(globals: seq<int>, value: nat): (r: seq<int>)
    ensures |r| == |globals|
  {
    if value + 3 <= |globals| && OFS_RETURN + 3 <= |globals| then
      var g1 := globals[OFS_RETURN := globals[value]];
      var g2 := g1[OFS_RETURN + 1 := g1[value + 1]];
      g2[OFS_RETURN + 2 := g2[value + 2]]
    else globals
  }

  function Step<W>(p: Program, eng: Engine<W>, s: State<W>): State<W> {
    if s.status != Running then s
    else if s.pc >= |p.code| then s.(status := Failed)
    else match p.code[s.pc]
      case Op(target, width) =>
        var (value, w) := eng.compute(s.pc, s.globals, s.world);
        s.(pc := s.pc + 1, globals := StoreCells(s.globals, target, width, value), world := w)
      case Goto(to) => s.(pc := to)
      case Branch(to) => s.(pc := if eng.taken(s.pc, s.globals, s.world) then to else s.pc + 1)
      case Call(callee) =>
        if callee >= |s.globals| then s.(status := Failed)
        else
          var i := s.globals[callee];
          // no function, or none of this program
          if i <= 0 || i >= |p.functions| then s.(status := Failed)
          else if p.functions[i].entry < 0 then
            var (value, w) := eng.builtin(i, s.globals, s.world);
            s.(pc := s.pc + 1, globals := BuiltinCells(p, s.globals, value), world := w)
          else Enter(p, s, i)
      case Return(value) =>
        if s.stack == [] then s.(status := Failed)
        else
          var t := Leave(p, s.(globals := SetReturn(s.globals, value)));
          if t.stack == [] then t.(status := Finished) else t
  }

  function Run<W>(p: Program, eng: Engine<W>, s: State<W>, n: nat): State<W> {
    if n == 0 then s else Step(p, eng, Run(p, eng, s, n - 1))
  }

  // ----- unwinding -----

  /** The cells as they will be once every call above depth d has been left. */
  function Unwound(p: Program, globals: seq<int>, localstack: seq<int>, stack: seq<Frame>, d: nat): (r: seq<int>)
    ensures |r| == |globals|
    decreases |stack|
  {
    if |stack| <= d then globals
    else
      var fr := stack[|stack| - 1];
      Unwound(p, PutBack(p, globals, localstack, fr),
              if fr.localsp <= |localstack| then localstack[..fr.localsp] else localstack, stack[..|stack| - 1], d)
  }

  ghost predicate SameWindows(p: Program, a: seq<int>, b: seq<int>) {
    |a| == |b| && forall c :: 0 <= c < |a| && InAnyWindow(p, c) ==> a[c] == b[c]
  }

  lemma {:induction false} UnwoundSame(p: Program, a: seq<int>, b: seq<int>, localstack: seq<int>, stack: seq<Frame>, d: nat)
    requires SameWindows(p, a, b)
    ensures SameWindows(p, Unwound(p, a, localstack, stack, d), Unwound(p, b, localstack, stack, d))
    decreases |stack|
  {
    if |stack| > d {
      var fr := stack[|stack| - 1];
      UnwoundSame(p, PutBack(p, a, localstack, fr), PutBack(p, b, localstack, fr),
                  if fr.localsp <= |localstack| then localstack[..fr.localsp] else localstack, stack[..|stack| - 1], d);
    }
  }

  // ----- what the copy of the parameters touches -----

  lemma {:induction false} CopyCellsWithin(globals: seq<int>, from: nat, to: nat, n: nat, c: nat)
    requires c < |globals| && !(to <= c < to + n)
    ensures CopyCells(globals, from, to, n)[c] == globals[c]
  {
    if n > 0 {
      CopyCellsWithin(globals, from, to, n - 1, c);
    }
  }

  lemma NothingCopied(f: Function, globals: seq<int>)
    ensures CopyParams(f, globals, 0) == globals && Sum(f.argsize[..0]) == 0
  {
  }

  lemma {:induction false} CopyParamsWithin(f: Function, globals: seq<int>, n: nat, c: nat)
    requires n <= |f.argsize| && c < |globals| && !(f.firstlocal <= c < f.firstlocal + Sum(f.argsize[..n]))
    ensures CopyParams(f, globals, n)[c] == globals[c]
  {
    hide Sum, CopyCells, CopyParams;
    if n == 0 {
      NothingCopied(f, globals);
    } else {
      LastParamIs(f, globals, n);
      SumPrefix(f.argsize, n - 1);
      CopyParamsWithin(f, globals, n - 1, c);
      CopyCellsWithin(CopyParams(f, globals, n - 1), OFS_PARM0 + 3 * (n - 1),
                      f.firstlocal + Sum(f.argsize[..n - 1]), f.argsize[n - 1], c);
    }
  }

  lemma {:induction false} CopyCellsCopies(globals: seq<int>, from: nat, to: nat, n: nat, k: nat)
    requires k < n && from + n <= to && to + n <= |globals|
    ensures CopyCells(globals, from, to, n)[to + k] == globals[from + k]
  {
    CopyCellsWithin(globals, from, to, n - 1, from + n - 1);
    if k < n - 1 {
      CopyCellsCopies(globals, from, to, n - 1, k);
    }
  }

  /** Copying one more parameter leaves what lies before it. */
  lemma OneMoreParam(f: Function, globals: seq<int>, n: nat, c: nat)
    requires 0 < n <= |f.argsize| && f.firstlocal + Sum(f.argsize[..n - 1]) + f.argsize[n - 1] <= |globals|
    requires c < f.firstlocal + Sum(f.argsize[..n - 1]) && OFS_PARM0 + 3 * (n - 1) + f.argsize[n - 1] <= f.firstlocal
    ensures CopyParams(f, globals, n)[c] == CopyParams(f, globals, n - 1)[c]
  {
    var g := CopyParams(f, globals, n - 1);
    hide Sum, CopyCells;
    CopyCellsWithin(g, OFS_PARM0 + 3 * (n - 1), f.firstlocal + Sum(f.argsize[..n - 1]), f.argsize[n - 1], c);
  }

  lemma ParamBounds(p: Program, f: Function, n: nat)
    requires WellFormedFunction(p, f) && f.entry >= 0 && 28 <= p.cells && n < |f.argsize|
    ensures f.firstlocal + Sum(f.argsize[..n]) + f.argsize[n] <= p.cells
    ensures OFS_PARM0 + 3 * n + f.argsize[n] <= p.cells
    ensures f.locals > 0 ==> OFS_PARM0 + 3 * n + f.argsize[n] <= f.firstlocal
    ensures f.argsize[n] > 0 ==> f.locals > 0
  {
    SumPrefix(f.argsize, n);
  }

  /** Parameter q arrives behind the parameters before it. */
  lemma {:induction false} CopyParamsCopies(p: Program, f: Function, globals: seq<int>, n: nat, q: nat, k: nat)
    requires WellFormedFunction(p, f) && f.entry >= 0 && |globals| == p.cells >= 28 && q < n <= |f.argsize| && k < f.argsize[q]
    ensures f.firstlocal + Sum(f.argsize[..q]) + k < |globals|
    ensures CopyParams(f, globals, n)[f.firstlocal + Sum(f.argsize[..q]) + k] == globals[4 + 3 * q + k]
    decreases n
  {
    hide *;
    CellNumbers();
    if q == n - 1 {
      LastParamCopied(p, f, globals, n, k);
    } else {
      CopyParamsCopies(p, f, globals, n - 1, q, k);
      SumGrows(f.argsize, q, n - 1);
      ParamBounds(p, f, q);
      ParamBounds(p, f, n - 1);
      OneMoreParam(f, globals, n, f.firstlocal + Sum(f.argsize[..q]) + k);
    }
  }

  lemma LastParamCopied(p: Program, f: Function, globals: seq<int>, n: nat, k: nat)
    requires WellFormedFunction(p, f) && f.entry >= 0 && |globals| == p.cells >= 28 && 0 < n <= |f.argsize| && k < f.argsize[n - 1]
    ensures f.firstlocal + Sum(f.argsize[..n - 1]) + k < |globals|
    ensures CopyParams(f, globals, n)[f.firstlocal + Sum(f.argsize[..n - 1]) + k] == globals[OFS_PARM0 + 3 * (n - 1) + k]
  {
    hide *;
    ParamBounds(p, f, n - 1);
    var to := f.firstlocal + Sum(f.argsize[..n - 1]);
    CopyParamsWithin(f, globals, n - 1, OFS_PARM0 + 3 * (n - 1) + k);
    LastParamIs(f, globals, n);
    CopyCellsCopies(CopyParams(f, globals, n - 1), OFS_PARM0 + 3 * (n - 1), to, f.argsize[n - 1], k);
  }

  lemma LastParamIs(f: Function, globals: seq<int>, n: nat)
    requires 0 < n <= |f.argsize|
    ensures CopyParams(f, globals, n)
         == CopyCells(CopyParams(f, globals, n - 1), OFS_PARM0 + 3 * (n - 1), f.firstlocal + Sum(f.argsize[..n - 1]), f.argsize[n - 1])
  {
    hide CopyCells, Sum;
  }

  /** Leaving right after entering is as if nothing had happened. */
  lemma EnterThenPutBack<W>(p: Program, s: State<W>, i: nat)
    requires i < |p.functions| && p.functions[i].entry >= 0 && WellFormedFunction(p, p.functions[i]) && |s.globals| == p.cells
    ensures var t := Enter(p, s, i);
      && PutBack(p, t.globals, t.localstack, t.stack[|s.stack|]) == s.globals
      && t.localstack[..|s.localstack|] == s.localstack
      && |t.localstack| == |s.localstack| + p.functions[i].locals
  {
    var f := p.functions[i];
    var t := Enter(p, s, i);
    var fr := t.stack[|s.stack|];
    assert Saved(p, t.localstack, fr) == Window(f, s.globals);
    forall c | 0 <= c < |s.globals| ensures PutBack(p, t.globals, t.localstack, fr)[c] == s.globals[c] {
      if !InWindow(f, c) {
        assert f.argsize[..|f.argsize|] == f.argsize;
        CopyParamsWithin(f, s.globals, |f.argsize|, c);
      }
    }
  }

  // ----- one call, from the CALL to its return -----

  // The state a call was made in: cells, backups and frames below it, and where it returns to.
  datatype Caller = Caller(globals: seq<int>, localstack: seq<int>, stack: seq<Frame>, ret: nat)

  predicate FrameGood(p: Program, owner: seq<nat>, s: seq<Frame>, localstack: seq<int>, j: nat)
    requires j < |s|
  {
    && s[j].func < |p.functions|
    && s[j].localsp + p.functions[s[j].func].locals == (if j + 1 < |s| then s[j + 1].localsp else |localstack|)
    && (j + 1 < |s| ==> Stays(owner, s[j + 1].stmt, s[j].func))
  }

  /** Inside the call: everything below is untouched, and unwinding would give the windows back. */
  ghost predicate Inside<W>(p: Program, owner: seq<nat>, s: State<W>, from: Caller) {
    var d := |from.stack|;
    && s.status == Running && |s.globals| == p.cells
    && |s.stack| > d && s.stack[..d] == from.stack
    && s.stack[d].stmt == from.ret && s.stack[d].localsp == |from.localstack| <= |s.localstack|
    && s.localstack[..|from.localstack|] == from.localstack
    && (forall j :: d <= j < |s.stack| ==> FrameGood(p, owner, s.stack, s.localstack, j))
    && Stays(owner, s.pc, s.stack[|s.stack| - 1].func)
    && SameWindows(p, Unwound(p, s.globals, s.localstack, s.stack, d), from.globals)
  }

  /** Back from the call. */
  ghost predicate Returned<W>(p: Program, s: State<W>, from: Caller) {
    && s.status == (if from.stack == [] then Finished else Running)
    && s.pc == from.ret && s.stack == from.stack && s.localstack == from.localstack
    && SameWindows(p, s.globals, from.globals)
  }

  /** What happens inside the running function's window is undone when it is left. */
  lemma PutBackForgets(p: Program, g: seq<int>, h: seq<int>, localstack: seq<int>, fr: Frame)
    requires |g| == |h| && fr.func < |p.functions| && fr.localsp + p.functions[fr.func].locals <= |localstack|
    requires p.functions[fr.func].firstlocal + p.functions[fr.func].locals <= |g|
    requires forall c :: 0 <= c < |g| && InAnyWindow(p, c) && !InWindow(p.functions[fr.func], c) ==> g[c] == h[c]
    ensures SameWindows(p, PutBack(p, g, localstack, fr), PutBack(p, h, localstack, fr))
  {
  }

  lemma UnwoundForgets(p: Program, g: seq<int>, h: seq<int>, localstack: seq<int>, stack: seq<Frame>, d: nat)
    requires |g| == |h| && |stack| > d
    requires var fr := stack[|stack| - 1];
      && fr.func < |p.functions| && fr.localsp + p.functions[fr.func].locals <= |localstack|
      && p.functions[fr.func].firstlocal + p.functions[fr.func].locals <= |g|
      && forall c :: 0 <= c < |g| && InAnyWindow(p, c) && !InWindow(p.functions[fr.func], c) ==> g[c] == h[c]
    ensures SameWindows(p, Unwound(p, g, localstack, stack, d), Unwound(p, h, localstack, stack, d))
  {
    var fr := stack[|stack| - 1];
    PutBackForgets(p, g, h, localstack, fr);
    UnwoundSame(p, PutBack(p, g, localstack, fr), PutBack(p, h, localstack, fr), localstack[..fr.localsp], stack[..|stack| - 1], d);
  }

  lemma RunningFrame<W>(p: Program, owner: seq<nat>, s: State<W>, from: Caller)
    requires WellFormed(p, owner) && Inside(p, owner, s, from)
    ensures |s.stack| > |from.stack| && s.pc < |p.code| == |owner| && owner[s.pc] == s.stack[|s.stack| - 1].func < |p.functions|
    ensures Disciplined(p, owner, s.pc) && WellFormedFunction(p, p.functions[owner[s.pc]])
    ensures s.stack[|s.stack| - 1].localsp + p.functions[owner[s.pc]].locals == |s.localstack|
    ensures SameWindows(p, Unwound(p, s.globals, s.localstack, s.stack, |from.stack|), from.globals)
    ensures |s.globals| == p.cells
  {
    assert Disciplined(p, owner, s.pc) && FrameGood(p, owner, s.stack, s.localstack, |s.stack| - 1);
  }

  lemma OpStaysInside<W>(p: Program, owner: seq<nat>, s: State<W>, from: Caller, value: nat -> int, target: nat, width: nat)
    requires WellFormed(p, owner) && Inside(p, owner, s, from) && s.pc < |p.code| && p.code[s.pc] == Op(target, width)
    ensures SameWindows(p, Unwound(p, StoreCells(s.globals, target, width, value), s.localstack, s.stack, |from.stack|), from.globals)
  {
    hide WellFormed, Inside, Unwound, SameWindows;
    RunningFrame(p, owner, s, from);
    var g := StoreCells(s.globals, target, width, value);
    UnwoundForgets(p, g, s.globals, s.localstack, s.stack, |from.stack|);
    SameTransitive(p, Unwound(p, g, s.localstack, s.stack, |from.stack|),
                   Unwound(p, s.globals, s.localstack, s.stack, |from.stack|), from.globals);
  }

  lemma SameTransitive(p: Program, a: seq<int>, b: seq<int>, c: seq<int>)
    requires SameWindows(p, a, b) && SameWindows(p, b, c)
    ensures SameWindows(p, a, c)
  {
  }

  lemma ReturnValueOutside(p: Program, owner: seq<nat>, globals: seq<int>, value: nat)
    requires WellFormed(p, owner) && |globals| == p.cells
    ensures SameWindows(p, SetReturn(globals, value), globals)
  {
    forall c | 0 <= c < |globals| && InAnyWindow(p, c) ensures SetReturn(globals, value)[c] == globals[c] {
      var i :| 0 <= i < |p.functions| && InWindow(p.functions[i], c);
      assert WellFormedFunction(p, p.functions[i]);
    }
  }

  /** Leaving peels one layer off the unwinding. */
  lemma LeaveUnwinds(p: Program, owner: seq<nat>, globals: seq<int>, localstack: seq<int>, stack: seq<Frame>, value: nat, d: nat)
    requires WellFormed(p, owner) && |globals| == p.cells && |stack| > d
    requires stack[|stack| - 1].localsp <= |localstack|
    ensures var fr := stack[|stack| - 1];
      SameWindows(p, Unwound(p, PutBack(p, SetReturn(globals, value), localstack, fr), localstack[..fr.localsp],
                             stack[..|stack| - 1], d),
                  Unwound(p, globals, localstack, stack, d))
  {
    ReturnValueOutside(p, owner, globals, value);
    UnwoundSame(p, SetReturn(globals, value), globals, localstack, stack, d);
  }

  /** What does not move the stack stays inside if it respects the unwinding. */
  lemma SameStackInside<W>(p: Program, owner: seq<nat>, s: State<W>, t: State<W>, from: Caller)
    requires Inside(p, owner, s, from)
    requires t.stack == s.stack && t.localstack == s.localstack && t.status == Running && |t.globals| == |s.globals|
    requires Stays(owner, t.pc, s.stack[|s.stack| - 1].func)
    requires SameWindows(p, Unwound(p, t.globals, s.localstack, s.stack, |from.stack|), from.globals)
    ensures Inside(p, owner, t, from)
  {
  }

  lemma JumpStaysInside<W>(p: Program, owner: seq<nat>, s: State<W>, from: Caller, to: nat)
    requires WellFormed(p, owner) && Inside(p, owner, s, from) && s.pc < |owner| && Stays(owner, to, owner[s.pc])
    ensures Inside(p, owner, s.(pc := to), from)
  {
    hide WellFormed, Inside, Unwound, SameWindows;
    RunningFrame(p, owner, s, from);
    IsRunning(p, owner, s, from);
    SameStackInside(p, owner, s, s.(pc := to), from);
  }

  lemma IsRunning<W>(p: Program, owner: seq<nat>, s: State<W>, from: Caller)
    requires Inside(p, owner, s, from)
    ensures s.status == Running
  {
  }

  lemma OperationStays<W>(p: Program, owner: seq<nat>, eng: Engine<W>, s: State<W>, from: Caller, target: nat, width: nat)
    requires WellFormed(p, owner) && Inside(p, owner, s, from) && s.pc < |p.code| && p.code[s.pc] == Op(target, width)
    ensures Inside(p, owner, Step(p, eng, s), from)
  {
    hide WellFormed, Inside, Unwound, SameWindows;
    RunningFrame(p, owner, s, from);
    IsRunning(p, owner, s, from);
    var (value, w) := eng.compute(s.pc, s.globals, s.world);
    OpStaysInside(p, owner, s, from, value, target, width);
    SameStackInside(p, owner, s, Step(p, eng, s), from);
  }

  lemma BuiltinStays<W>(p: Program, owner: seq<nat>, s: State<W>, from: Caller, value: nat -> int, w: W)
    requires WellFormed(p, owner) && Inside(p, owner, s, from) && s.pc < |owner| && Stays(owner, s.pc + 1, owner[s.pc])
    ensures Inside(p, owner, s.(pc := s.pc + 1, globals := BuiltinCells(p, s.globals, value), world := w), from)
  {
    var g := BuiltinCells(p, s.globals, value);
    assert SameWindows(p, g, s.globals);
    hide WellFormed, Inside, Unwound, SameWindows;
    RunningFrame(p, owner, s, from);
    IsRunning(p, owner, s, from);
    UnwoundSame(p, g, s.globals, s.localstack, s.stack, |from.stack|);
    SameTransitive(p, Unwound(p, g, s.localstack, s.stack, |from.stack|),
                   Unwound(p, s.globals, s.localstack, s.stack, |from.stack|), from.globals);
    SameStackInside(p, owner, s, s.(pc := s.pc + 1, globals := g, world := w), from);
  }

  lemma CallStaysInside<W>(p: Program, owner: seq<nat>, eng: Engine<W>, s: State<W>, from: Caller, callee: nat)
    requires WellFormed(p, owner) && Inside(p, owner, s, from) && s.pc < |p.code| && p.code[s.pc] == Call(callee)
    ensures var t := Step(p, eng, s);
      t.status == Failed || Inside(p, owner, t, from)
  {
    hide WellFormed, Inside, Unwound, SameWindows, Enter;
    RunningFrame(p, owner, s, from);
    IsRunning(p, owner, s, from);
    var i := s.globals[callee];
    if 0 < i < |p.functions| {
      if p.functions[i].entry < 0 {
        var (value, w) := eng.builtin(i, s.globals, s.world);
        BuiltinStays(p, owner, s, from, value, w);
      } else {
        EnterStaysInside(p, owner, s, from, i);
      }
    }
  }

  lemma PushedFrames(p: Program, owner: seq<nat>, s: seq<Frame>, l: seq<int>, fr: Frame, l2: seq<int>, d: nat)
    requires d < |s| && fr.localsp == |l| && fr.func < |p.functions| && |l2| == |l| + p.functions[fr.func].locals
    requires Stays(owner, fr.stmt, s[|s| - 1].func)
    requires forall j :: d <= j < |s| ==> FrameGood(p, owner, s, l, j)
    ensures forall j :: d <= j < |s| + 1 ==> FrameGood(p, owner, s + [fr], l2, j)
  {
    hide Stays;
    var s2 := s + [fr];
    forall j | d <= j < |s| + 1 ensures FrameGood(p, owner, s2, l2, j) {
      if j < |s| {
        assert FrameGood(p, owner, s, l, j);
      }
    }
  }

  lemma EnterIs<W>(p: Program, owner: seq<nat>, s: State<W>, i: nat)
    requires WellFormed(p, owner) && i < |p.functions| && p.functions[i].entry >= 0 && |s.globals| == p.cells
    requires s.pc < |p.code| && p.code[s.pc].Call? && owner[s.pc] < |p.functions| && Disciplined(p, owner, s.pc)
    ensures var t := Enter(p, s, i);
      && t.status == s.status && |t.globals| == p.cells && t.stack == s.stack + [Frame(s.pc + 1, |s.localstack|, i)]
      && t.stack[..|t.stack| - 1] == s.stack && Stays(owner, t.pc, i) && Stays(owner, s.pc + 1, owner[s.pc])
      && s.localstack <= t.localstack && |t.localstack| == |s.localstack| + p.functions[i].locals
      && t.localstack[..|s.localstack|] == s.localstack
    ensures WellFormedFunction(p, p.functions[i])
  {
    hide CopyParams, PutBack;
    assert WellFormedFunction(p, p.functions[i]);
  }

  lemma UnwindsFirst(p: Program, globals: seq<int>, localstack: seq<int>, stack: seq<Frame>, d: nat)
    requires |stack| > d && stack[|stack| - 1].localsp <= |localstack|
    ensures var fr := stack[|stack| - 1];
      Unwound(p, globals, localstack, stack, d)
        == Unwound(p, PutBack(p, globals, localstack, fr), localstack[..fr.localsp], stack[..|stack| - 1], d)
  {
    hide PutBack;
  }

  lemma InsideParts<W>(p: Program, owner: seq<nat>, s: State<W>, from: Caller)
    requires Inside(p, owner, s, from)
    ensures s.status == Running && |s.globals| == p.cells && |s.stack| > |from.stack| && s.stack[..|from.stack|] == from.stack
    ensures s.stack[|from.stack|].stmt == from.ret && s.stack[|from.stack|].localsp == |from.localstack| <= |s.localstack|
    ensures s.localstack[..|from.localstack|] == from.localstack
    ensures forall j :: |from.stack| <= j < |s.stack| ==> FrameGood(p, owner, s.stack, s.localstack, j)
  {
  }

  lemma InsideIs<W>(p: Program, owner: seq<nat>, s: State<W>, from: Caller)
    requires s.status == Running && |s.globals| == p.cells && |s.stack| > |from.stack| && s.stack[..|from.stack|] == from.stack
    requires s.stack[|from.stack|].stmt == from.ret && s.stack[|from.stack|].localsp == |from.localstack| <= |s.localstack|
    requires s.localstack[..|from.localstack|] == from.localstack
    requires forall j :: |from.stack| <= j < |s.stack| ==> FrameGood(p, owner, s.stack, s.localstack, j)
    requires Stays(owner, s.pc, s.stack[|s.stack| - 1].func)
    requires SameWindows(p, Unwound(p, s.globals, s.localstack, s.stack, |from.stack|), from.globals)
    ensures Inside(p, owner, s, from)
  {
  }

  lemma PrefixKept<T>(a: seq<T>, b: seq<T>, n: nat)
    requires n <= |a| <= |b| && b[..|a|] == a
    ensures b[..n] == a[..n]
  {
    assert b[..n] == b[..|a|][..n];
  }

  lemma EnterStaysInside<W>(p: Program, owner: seq<nat>, s: State<W>, from: Caller, i: nat)
    requires WellFormed(p, owner) && Inside(p, owner, s, from) && s.pc < |p.code| && p.code[s.pc].Call?
    requires i < |p.functions| && p.functions[i].entry >= 0
    ensures Inside(p, owner, Enter(p, s, i), from)
  {
    hide *;
    RunningFrame(p, owner, s, from);
    InsideParts(p, owner, s, from);
    EnterIs(p, owner, s, i);
    EnterThenPutBack(p, s, i);
    var t := Enter(p, s, i);
    UnwindsFirst(p, t.globals, t.localstack, t.stack, |from.stack|);
    PushedFrames(p, owner, s.stack, s.localstack, Frame(s.pc + 1, |s.localstack|, i), t.localstack, |from.stack|);
    PrefixKept(s.localstack, t.localstack, |from.localstack|);
    PrefixKept(s.stack, t.stack, |from.stack|);
    InsideIs(p, owner, t, from);
  }

  /** The frame that a return takes off. */
  lemma TopFrame<W>(p: Program, owner: seq<nat>, s: State<W>, from: Caller, top: Frame)
    requires WellFormed(p, owner) && Inside(p, owner, s, from) && top == s.stack[|s.stack| - 1]
    ensures top.localsp <= |s.localstack| && s.stack[|from.stack|].localsp <= top.localsp
    ensures |s.stack| - 1 > |from.stack| ==> Stays(owner, top.stmt, s.stack[|s.stack| - 2].func)
    ensures |s.stack| - 1 == |from.stack| ==> top.stmt == from.ret && top.localsp == |from.localstack|
    ensures s.localstack[..|from.localstack|] == from.localstack && s.stack[..|from.stack|] == from.stack
  {
    hide WellFormed, Unwound, SameWindows, Stays;
    assert FrameGood(p, owner, s.stack, s.localstack, |s.stack| - 1);
    BackupsGrow(p, owner, s.stack, s.localstack, |from.stack|, |s.stack| - 1);
    if |s.stack| - 1 > |from.stack| {
      assert FrameGood(p, owner, s.stack, s.localstack, |s.stack| - 2);
    }
  }

  lemma LeaveKeepsWindows<W>(p: Program, owner: seq<nat>, s: State<W>, t: State<W>, from: Caller, value: nat)
    requires WellFormed(p, owner) && Inside(p, owner, s, from)
    requires t == Leave(p, s.(globals := SetReturn(s.globals, value)))
    ensures SameWindows(p, Unwound(p, t.globals, t.localstack, t.stack, |from.stack|), from.globals)
  {
    hide Inside, Unwound, SameWindows, WellFormed, PutBack, SetReturn, Disciplined, Stays, WellFormedFunction;
    RunningFrame(p, owner, s, from);
    TopFrame(p, owner, s, from, s.stack[|s.stack| - 1]);
    LeaveUnwinds(p, owner, s.globals, s.localstack, s.stack, value, |from.stack|);
    SameTransitive(p, Unwound(p, t.globals, t.localstack, t.stack, |from.stack|),
                   Unwound(p, s.globals, s.localstack, s.stack, |from.stack|), from.globals);
  }

  lemma ReturnStep<W>(p: Program, eng: Engine<W>, s: State<W>, value: nat)
    requires s.status == Running && s.pc < |p.code| && p.code[s.pc] == Return(value) && s.stack != []
    ensures var t := Leave(p, s.(globals := SetReturn(s.globals, value)));
      && Step(p, eng, s) == (if t.stack == [] then t.(status := Finished) else t)
      && t.stack == s.stack[..|s.stack| - 1] && t.pc == s.stack[|s.stack| - 1].stmt && |t.globals| == |s.globals|
      && t.status == Running
      && (s.stack[|s.stack| - 1].localsp <= |s.localstack| ==> t.localstack == s.localstack[..s.stack[|s.stack| - 1].localsp])
  {
  }

  lemma UnwoundHere(p: Program, globals: seq<int>, localstack: seq<int>, stack: seq<Frame>)
    ensures Unwound(p, globals, localstack, stack, |stack|) == globals
  {
  }

  lemma ReturnLeaves<W>(p: Program, owner: seq<nat>, eng: Engine<W>, s: State<W>, from: Caller, value: nat)
    requires WellFormed(p, owner) && Inside(p, owner, s, from) && s.pc < |p.code| && p.code[s.pc] == Return(value)
    ensures var t := Step(p, eng, s);
      Inside(p, owner, t, from) || Returned(p, t, from)
  {
    hide WellFormed, Inside, SameWindows, Unwound, Leave, SetReturn, Step;
    IsRunning(p, owner, s, from);
    RunningFrame(p, owner, s, from);
    TopFrame(p, owner, s, from, s.stack[|s.stack| - 1]);
    ReturnStep(p, eng, s, value);
    var t := Leave(p, s.(globals := SetReturn(s.globals, value)));
    LeaveKeepsWindows(p, owner, s, t, from, value);
    if |s.stack| - 1 > |from.stack| {
      FramesBelow(p, owner, s, t, from);
      LeftInside(p, owner, s, t, from);
    } else {
      UnwoundHere(p, t.globals, t.localstack, t.stack);
      assert t.stack == from.stack;
    }
  }

  lemma FramesBelow<W>(p: Program, owner: seq<nat>, s: State<W>, t: State<W>, from: Caller)
    requires Inside(p, owner, s, from) && |s.stack| - 1 > |from.stack| && t.stack == s.stack[..|s.stack| - 1]
    requires s.stack[|s.stack| - 1].localsp <= |s.localstack| && t.localstack == s.localstack[..s.stack[|s.stack| - 1].localsp]
    ensures forall j :: |from.stack| <= j < |t.stack| ==> FrameGood(p, owner, t.stack, t.localstack, j)
  {
    forall j | |from.stack| <= j < |t.stack| ensures FrameGood(p, owner, t.stack, t.localstack, j) {
      assert FrameGood(p, owner, s.stack, s.localstack, j);
    }
  }

  lemma {:induction false} BackupsGrow(p: Program, owner: seq<nat>, stack: seq<Frame>, localstack: seq<int>, i: nat, j: nat)
    requires i <= j < |stack| && forall k :: i <= k < |stack| ==> FrameGood(p, owner, stack, localstack, k)
    ensures stack[i].localsp <= stack[j].localsp
    decreases j
  {
    if i < j {
      assert FrameGood(p, owner, stack, localstack, j - 1);
      BackupsGrow(p, owner, stack, localstack, i, j - 1);
    }
  }

  lemma LeftInside<W>(p: Program, owner: seq<nat>, s: State<W>, t: State<W>, from: Caller)
    requires Inside(p, owner, s, from) && |s.stack| - 1 > |from.stack|
    requires t.status == Running && |t.globals| == |s.globals|
    requires t.stack == s.stack[..|s.stack| - 1]
    requires s.stack[|from.stack|].localsp <= s.stack[|s.stack| - 1].localsp <= |s.localstack|
    requires t.localstack == s.localstack[..s.stack[|s.stack| - 1].localsp]
    requires forall j :: |from.stack| <= j < |t.stack| ==> FrameGood(p, owner, t.stack, t.localstack, j)
    requires Stays(owner, t.pc, t.stack[|t.stack| - 1].func)
    requires SameWindows(p, Unwound(p, t.globals, t.localstack, t.stack, |from.stack|), from.globals)
    ensures Inside(p, owner, t, from)
  {
  }

  /** A statement run inside a call stays inside it, ends it properly, or fails. */
  lemma StepInside<W>(p: Program, owner: seq<nat>, eng: Engine<W>, s: State<W>, from: Caller)
    requires WellFormed(p, owner) && Inside(p, owner, s, from)
    ensures var t := Step(p, eng, s);
      t.status == Failed || Inside(p, owner, t, from) || Returned(p, t, from)
  {
    hide WellFormed, Inside, Unwound, SameWindows, Returned;
    RunningFrame(p, owner, s, from);
    IsRunning(p, owner, s, from);
    match p.code[s.pc]
    case Op(target, width) => OperationStays(p, owner, eng, s, from, target, width);
    case Goto(to) => JumpStaysInside(p, owner, s, from, to);
    case Branch(to) => JumpStaysInside(p, owner, s, from, if eng.taken(s.pc, s.globals, s.world) then to else s.pc + 1);
    case Call(callee) => CallStaysInside(p, owner, eng, s, from, callee);
    case Return(value) => ReturnLeaves(p, owner, eng, s, from, value);
  }

  // ----- the whole call -----

  /** The first statement of a call to a function of the program. */
  lemma CallGoesInside<W>(p: Program, owner: seq<nat>, eng: Engine<W>, s: State<W>, callee: nat)
    requires WellFormed(p, owner) && s.status == Running && |s.globals| == p.cells
    requires s.pc < |p.code| && p.code[s.pc] == Call(callee) && callee < |s.globals|
    requires 0 < s.globals[callee] < |p.functions| && p.functions[s.globals[callee]].entry >= 0
    ensures Inside(p, owner, Step(p, eng, s), Caller(s.globals, s.localstack, s.stack, s.pc + 1))
  {
    var i := s.globals[callee];
    assert WellFormedFunction(p, p.functions[i]);
    EnterThenPutBack(p, s, i);
    var t := Enter(p, s, i);
    assert t.stack[..|t.stack| - 1] == s.stack;
    UnwoundHere(p, s.globals, s.localstack, s.stack);
    assert FrameGood(p, owner, t.stack, t.localstack, |s.stack|);
  }

  /** Calls preserve windows. From a call of one of the program's functions on, as long as it has
      not returned the machine is inside it (or has failed); when it returns, every cell of every
      window and all backups are as before the call, and control is at the statement after it. */
  lemma {:induction false} CallsPreserveWindows<W>(p: Program, owner: seq<nat>, eng: Engine<W>, s: State<W>, callee: nat, n: nat)
    requires WellFormed(p, owner) && s.status == Running && |s.globals| == p.cells
    requires s.pc < |p.code| && p.code[s.pc] == Call(callee) && callee < |s.globals|
    requires 0 < s.globals[callee] < |p.functions| && p.functions[s.globals[callee]].entry >= 0
    requires n > 0 && forall m :: 0 < m < n ==> |Run(p, eng, s, m).stack| > |s.stack|
    ensures var t := Run(p, eng, s, n);
      var from := Caller(s.globals, s.localstack, s.stack, s.pc + 1);
      t.status == Failed || Inside(p, owner, t, from) || Returned(p, t, from)
  {
    var from := Caller(s.globals, s.localstack, s.stack, s.pc + 1);
    var t := Run(p, eng, s, n - 1);
    if n == 1 {
      CallGoesInside(p, owner, eng, s, callee);
    } else {
      CallsPreserveWindows(p, owner, eng, s, callee, n - 1);
      if t.status != Failed {
        assert |t.stack| > |s.stack|;
        assert Inside(p, owner, t, from);
        StepInside(p, owner, eng, t, from);
      }
    }
  }

  /** In particular a completed call changes no cell of its caller's window. */
  lemma CompletedCall<W>(p: Program, owner: seq<nat>, eng: Engine<W>, s: State<W>, callee: nat, n: nat, c: nat)
    requires WellFormed(p, owner) && s.status == Running && |s.globals| == p.cells
    requires s.pc < |p.code| && p.code[s.pc] == Call(callee) && callee < |s.globals|
    requires 0 < s.globals[callee] < |p.functions| && p.functions[s.globals[callee]].entry >= 0
    requires n > 0 && forall m :: 0 < m < n ==> |Run(p, eng, s, m).stack| > |s.stack|
    requires |Run(p, eng, s, n).stack| == |s.stack| && Run(p, eng, s, n).status != Failed
    requires InAnyWindow(p, c) && c < |s.globals|
    ensures var t := Run(p, eng, s, n);
      && t.pc == s.pc + 1 && t.stack == s.stack && t.localstack == s.localstack
      && |t.globals| == |s.globals| && t.globals[c] == s.globals[c]
  {
    CallsPreserveWindows(p, owner, eng, s, callee, n);
  }

  // ----- what a function returns -----

  /** What the return cells hold after the operand has been copied there cell by cell. */
  function ReturnedCell(globals: seq<int>, value: nat, k: nat): int
    requires value + 3 <= |globals| && k < 3
  {
    globals[if value == 0 then 0 else value + k]
  }

  lemma ReturnCellsSet(globals: seq<int>, value: nat, k: nat)
    requires value + 3 <= |globals| && OFS_RETURN + 3 <= |globals| && k < 3
    ensures SetReturn(globals, value)[OFS_RETURN + k] == ReturnedCell(globals, value, k)
    ensures value >= OFS_RETURN ==> ReturnedCell(globals, value, k) == globals[value + k]
  {
  }

  /** Putting a window back leaves the cells below all windows alone. */
  lemma PutBackLeaves(p: Program, globals: seq<int>, localstack: seq<int>, fr: Frame, c: nat)
    requires fr.func < |p.functions| && WellFormedFunction(p, p.functions[fr.func]) && |globals| == p.cells && c < 28 <= p.cells
    ensures PutBack(p, globals, localstack, fr)[c] == globals[c]
  {
    hide Sum;
    var f := p.functions[fr.func];
    var saved := Saved(p, localstack, fr);
    assert saved == [] || (|saved| == f.locals && c < f.firstlocal);
    if saved == [] {
      assert f.firstlocal + |saved| <= |globals|;
      assert globals[..f.firstlocal] + saved + globals[f.firstlocal..] == globals;
    }
  }

  /** A function that returns leaves its operand in the return cells, whatever is put back. */
  lemma ReturnDelivers<W>(p: Program, eng: Engine<W>, s: State<W>, value: nat, k: nat)
    requires s.status == Running && s.pc < |p.code| && p.code[s.pc] == Return(value) && s.stack != []
    requires |s.globals| == p.cells >= 28 && value + 3 <= p.cells && k < 3
    requires var fr := s.stack[|s.stack| - 1]; fr.func < |p.functions| && WellFormedFunction(p, p.functions[fr.func])
    ensures var t := Step(p, eng, s);
      && |t.globals| == p.cells && t.globals[1 + k] == ReturnedCell(s.globals, value, k)
      && (value > 0 ==> t.globals[1 + k] == s.globals[value + k])
  {
    ReturnStep(p, eng, s, value);
    ReturnCellsSet(s.globals, value, k);
    PutBackLeaves(p, SetReturn(s.globals, value), s.localstack, s.stack[|s.stack| - 1], OFS_RETURN + k);
    hide WellFormedFunction, Step, SetReturn, PutBack;
  }

  lemma OnlyReturnsLeave<W>(p: Program, eng: Engine<W>, s: State<W>)
    requires s.status == Running && s.pc < |p.code| && |Step(p, eng, s).stack| < |s.stack|
    ensures p.code[s.pc].Return?
  {
  }

  /** The caller finds in the return cells what the operand of the callee's last RETURN held. */
  lemma ReturnedToCaller<W>(p: Program, owner: seq<nat>, eng: Engine<W>, s: State<W>, callee: nat, n: nat, k: nat)
    requires WellFormed(p, owner) && s.status == Running && |s.globals| == p.cells
    requires s.pc < |p.code| && p.code[s.pc] == Call(callee) && callee < |s.globals|
    requires 0 < s.globals[callee] < |p.functions| && p.functions[s.globals[callee]].entry >= 0
    requires n > 0 && forall m :: 0 < m < n ==> |Run(p, eng, s, m).stack| > |s.stack|
    requires |Run(p, eng, s, n).stack| == |s.stack| && Run(p, eng, s, n).status != Failed && k < 3
    ensures var u, t := Run(p, eng, s, n - 1), Run(p, eng, s, n);
      && u.pc < |p.code| && p.code[u.pc].Return? && p.code[u.pc].value + 3 <= |u.globals| && |t.globals| == p.cells
      && t.globals[1 + k] == ReturnedCell(u.globals, p.code[u.pc].value, k)
      && (p.code[u.pc].value > 0 ==> t.globals[1 + k] == u.globals[p.code[u.pc].value + k])
  {
    hide *;
    var from := Caller(s.globals, s.localstack, s.stack, s.pc + 1);
    var u := Run(p, eng, s, n - 1);
    OneMoreStep(p, eng, s, n);
    if n == 1 {
      CallGrows(p, owner, eng, s, callee);
      assert false;
    } else {
      NotReturned(p, u, from);
      CallsPreserveWindows(p, owner, eng, s, callee, n - 1);
      FailedStays(p, eng, u);
      RunningInside(p, owner, u, from);
      OnlyReturnsLeave(p, eng, u);
      ReturnDelivers(p, eng, u, p.code[u.pc].value, k);
    }
  }

  /**
   * What a call does at once. A function number that is none fails; a builtin leaves everything but cells outside the windows and
   * goes on behind the call; any other function starts at its entry, with the statement behind the call remembered and its own
   * window, as it was, behind the backups there were.
   */
  lemma CallBegins<W>(p: Program, eng: Engine<W>, s: State<W>, callee: nat)
    requires s.status == Running && s.pc < |p.code| && p.code[s.pc] == Call(callee) && callee < |s.globals|
    ensures var i, t := s.globals[callee], Step(p, eng, s);
      && (i <= 0 || i >= |p.functions| ==> t.status == Failed)
      && (0 < i < |p.functions| && p.functions[i].entry < 0 ==>
            && t.status == Running && t.pc == s.pc + 1 && t.stack == s.stack && t.localstack == s.localstack
            && SameWindows(p, s.globals, t.globals)
            && t.world == eng.builtin(i, s.globals, s.world).1
            && forall c :: 0 <= c < |t.globals| && !InAnyWindow(p, c) ==> t.globals[c] == eng.builtin(i, s.globals, s.world).0(c))
      && (0 < i < |p.functions| && p.functions[i].entry >= 0 ==>
            && t.status == Running && t.pc == p.functions[i].entry && |t.stack| == |s.stack| + 1
            && t.stack[..|s.stack|] == s.stack && t.stack[|s.stack|] == Frame(s.pc + 1, |s.localstack|, i)
            && t.localstack[..|s.localstack|] == s.localstack
            && (p.functions[i].firstlocal + p.functions[i].locals <= |s.globals| ==>
                  t.localstack[|s.localstack|..]
                    == s.globals[p.functions[i].firstlocal..p.functions[i].firstlocal + p.functions[i].locals]))
  {
    hide CopyParams, InAnyWindow;
  }

  /** What an operation and a jump do: the cells named get what the engine computes for them, and no others change. */
  lemma OperationStores<W>(p: Program, eng: Engine<W>, s: State<W>)
    requires s.status == Running && s.pc < |p.code|
    ensures var t, st := Step(p, eng, s), p.code[s.pc];
      && (st.Op? ==>
            && t.pc == s.pc + 1 && t.world == eng.compute(s.pc, s.globals, s.world).1 && |t.globals| == |s.globals|
            && t.stack == s.stack && t.localstack == s.localstack && t.status == Running
            && (forall c :: st.target <= c < st.target + st.width && c < |t.globals| ==> t.globals[c] == eng.compute(s.pc, s.globals, s.world).0(c))
            && (forall c :: 0 <= c < |t.globals| && !(st.target <= c < st.target + st.width) ==> t.globals[c] == s.globals[c]))
      && (st.Goto? ==> t == s.(pc := st.to))
      && (st.Branch? ==> t == s.(pc := if eng.taken(s.pc, s.globals, s.world) then st.to else s.pc + 1))
  {
  }

  /** What a return does at once, and when the machine is done: when the last function has been left. */
  lemma ReturnEnds<W>(p: Program, eng: Engine<W>, s: State<W>, value: nat)
    requires s.status == Running && s.pc < |p.code| && p.code[s.pc] == Return(value)
    ensures var t := Step(p, eng, s);
      if s.stack == [] then t.status == Failed
      else t.stack == s.stack[..|s.stack| - 1] && t.pc == s.stack[|s.stack| - 1].stmt && (if |s.stack| == 1 then t.status == Finished else t.status == Running)
  {
    hide PutBack, SetReturn;
  }

  lemma OneMoreStep<W>(p: Program, eng: Engine<W>, s: State<W>, n: nat)
    requires n > 0
    ensures Run(p, eng, s, n) == Step(p, eng, Run(p, eng, s, n - 1)) && Run(p, eng, s, 0) == s
  {
    hide Step;
  }

  lemma NotReturned<W>(p: Program, s: State<W>, from: Caller)
    ensures Returned(p, s, from) ==> s.stack == from.stack
  {
  }

  lemma CallGrows<W>(p: Program, owner: seq<nat>, eng: Engine<W>, s: State<W>, callee: nat)
    requires s.status == Running && s.pc < |p.code| && p.code[s.pc] == Call(callee) && callee < |s.globals|
    requires 0 < s.globals[callee] < |p.functions| && p.functions[s.globals[callee]].entry >= 0
    ensures |Step(p, eng, s).stack| == |s.stack| + 1
  {
  }

  lemma FailedStays<W>(p: Program, eng: Engine<W>, s: State<W>)
    ensures s.status == Failed ==> Step(p, eng, s).status == Failed
  {
  }

  lemma RunningInside<W>(p: Program, owner: seq<nat>, s: State<W>, from: Caller)
    requires WellFormed(p, owner) && Inside(p, owner, s, from)
    ensures s.status == Running && s.pc < |p.code| && s.stack != [] && |s.globals| == p.cells >= 28
    ensures p.code[s.pc].Return? ==> p.code[s.pc].value + 3 <= p.cells
    ensures var fr := s.stack[|s.stack| - 1]; fr.func < |p.functions| && WellFormedFunction(p, p.functions[fr.func])
  {
    RunningFrame(p, owner, s, from);
    hide Unwound, SameWindows, WellFormedFunction;
  }

  // ----- what every program file holds besides its functions -----

  // Function 0 is null, and statement 0 belongs to it.
  const NULL_FUNCTION := Function(0, 0, 0, [])

  function Builtin(number: nat, argsize: seq<nat>): Function {
    Function(-1 - number, 0, 0, argsize)
  }

  lemma SameWindowsWithout(p: Program, f: Function, c: nat)
    requires f.locals == 0
    ensures InAnyWindow(p.(functions := p.functions + [f]), c) <==> InAnyWindow(p, c)
  {
    var q := p.(functions := p.functions + [f]);
    if i :| 0 <= i < |p.functions| && InWindow(p.functions[i], c) {
      assert InWindow(q.functions[i], c);
    }
    if i :| 0 <= i < |q.functions| && InWindow(q.functions[i], c) {
      assert q.functions[i] == p.functions[i];
    }
  }

  /** A program stays well-formed with one more builtin, whatever that is passed. */
  lemma BuiltinFits(p: Program, owner: seq<nat>, number: nat, argsize: seq<nat>)
    requires WellFormed(p, owner) && |argsize| <= 8 && forall k :: 0 <= k < |argsize| ==> argsize[k] <= 3
    ensures WellFormed(p.(functions := p.functions + [Builtin(number, argsize)]), owner)
  {
    var q := p.(functions := p.functions + [Builtin(number, argsize)]);
    forall i | 0 <= i < |q.functions| ensures WellFormedFunction(q, q.functions[i]) {
      assert i < |p.functions| ==> WellFormedFunction(p, p.functions[i]);
    }
    forall pc | 0 <= pc < |q.code| ensures owner[pc] < |q.functions| && Disciplined(q, owner, pc) {
      assert Disciplined(p, owner, pc);
      forall c: nat ensures InAnyWindow(q, c) <==> InAnyWindow(p, c) {
        SameWindowsWithout(p, Builtin(number, argsize), c);
      }
      hide InAnyWindow;
    }
  }

  /** A file with nothing in it but the null function and the statement that is its own. */
  lemma NullFits(cells: nat)
    requires cells >= 28
    ensures WellFormed(Program([NULL_FUNCTION], [Return(0)], cells), [0])
  {
  }

  // void f(float x) { g = x; h(x); }, with g in cell 28, h in cell 29 and x in cell 30; h is a builtin.
  const SMALL := Program([NULL_FUNCTION, Function(1, 30, 1, [1]), Builtin(0, [1])],
                         [Return(0), Op(28, 1), Op(4, 1), Call(29), Return(0)], 31)

  /** Null function, a function with a parameter and a builtin with one. */
  lemma SmallFits()
    ensures WellFormed(SMALL, [0, 1, 1, 1, 1])
  {
    assert SMALL.functions[1].argsize == [1] && [1][..0] == [];
    assert Sum([1]) == 1;
    assert forall c: nat :: c < 30 ==> !InAnyWindow(SMALL, c);
  }
}
