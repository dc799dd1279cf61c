// Where compiler and machine meet: parameters arrive where the compiler put
// them, and what the compiler locks is what the machine backs up.

module Linkage {
  import opened Ir
  import opened Sums
  import opened Reserved
  import opened Placement
  import opened SlotMachine
  import opened Calls

  /** The header emitted for a compiled function: its window and the sizes of its first eight parameters. */
  predicate HeaderOf(fn: Func, img: Image, f: Function)
    requires fn.nparams <= |fn.sizes|
  {
    && f.firstlocal == img.firstlocal && f.locals == Sum(img.asg.lockSizes)
    && f.argsize == fn.sizes[..if fn.nparams > 8 then 8 else fn.nparams]
  }

  lemma ParamPositions(fn: Func, img: Image, q: nat)
    requires ParamsFirst(fn, img.asg) && q <= fn.nparams
    ensures img.asg.lockSizes[..q] == fn.sizes[..q]
  {
  }

  /** The machine's idea of a parameter's position is the address in the compiled code. */
  lemma ParameterAddress(fn: Func, img: Image, f: Function, q: nat)
    requires ParamsFirst(fn, img.asg) && HeaderOf(fn, img, f) && q < |f.argsize|
    ensures Where(img, q) == f.firstlocal + Sum(f.argsize[..q])
  {
    ParamPositions(fn, img, q);
    assert f.argsize[..q] == fn.sizes[..q];
  }

  /** The copy of the parameters stays inside the window. */
  lemma {:induction false} ParametersFitWindow(fn: Func, img: Image, f: Function)
    requires ParamsFirst(fn, img.asg) && HeaderOf(fn, img, f)
    ensures Sum(f.argsize) <= f.locals
  {
    var n := |f.argsize|;
    ParamPositions(fn, img, n);
    assert img.asg.lockSizes[..n] == f.argsize;
    if n < |img.asg.lockSizes| {
      SumPrefix(img.asg.lockSizes, n);
    } else {
      assert img.asg.lockSizes[..n] == img.asg.lockSizes;
    }
  }

  lemma CellsMoved(a: seq<int>, at: nat, b: seq<int>, start: nat, size: nat)
    requires at + size <= |a| && start + size <= |b|
    requires forall c :: at <= c < at + size ==> a[c] == b[c - at + start]
    ensures Cells(a, at, size) == Cells(b, start, size)
  {
    var x, y := Cells(a, at, size), Cells(b, start, size);
    forall k | 0 <= k < size ensures x[k] == y[k] {
      assert x[k] == a[at + k];
    }
  }

  lemma ParameterFits(p: Program, f: Function, q: nat)
    requires WellFormedFunction(p, f) && f.entry >= 0 && 28 <= p.cells && q < |f.argsize|
    ensures OFS_PARM0 + 3 * q + f.argsize[q] <= p.cells
    ensures f.firstlocal + Sum(f.argsize[..q]) + f.argsize[q] <= p.cells
  {
    ParamBounds(p, f, q);
  }

  lemma SizeAgrees(fn: Func, img: Image, f: Function, q: nat)
    requires ParamsFirst(fn, img.asg) && HeaderOf(fn, img, f) && q < |f.argsize|
    ensures fn.sizes[q] == f.argsize[q]
  {
  }

  lemma CellArrives(p: Program, f: Function, globals: seq<int>, q: nat, c: nat)
    requires WellFormedFunction(p, f) && f.entry >= 0 && |globals| == p.cells >= 28 && q < |f.argsize|
    requires f.firstlocal + Sum(f.argsize[..q]) <= c < f.firstlocal + Sum(f.argsize[..q]) + f.argsize[q]
    ensures c < p.cells && OFS_PARM0 + 3 * q + (c - (f.firstlocal + Sum(f.argsize[..q]))) < p.cells
    ensures CopyParams(f, globals, |f.argsize|)[c]
         == globals[OFS_PARM0 + 3 * q + (c - (f.firstlocal + Sum(f.argsize[..q])))]
  {
    hide *;
    CellNumbers();
    ParameterFits(p, f, q);
    var k := c - (f.firstlocal + Sum(f.argsize[..q]));
    CopyParamsCopies(p, f, globals, |f.argsize|, q, k);
    assert f.firstlocal + Sum(f.argsize[..q]) + k == c;
  }

  lemma CellsArrive(p: Program, f: Function, globals: seq<int>, q: nat)
    requires WellFormedFunction(p, f) && f.entry >= 0 && |globals| == p.cells >= 28 && q < |f.argsize|
    ensures Cells(CopyParams(f, globals, |f.argsize|), f.firstlocal + Sum(f.argsize[..q]), f.argsize[q])
         == Cells(globals, OFS_PARM0 + 3 * q, f.argsize[q])
  {
    hide *;
    ParameterFits(p, f, q);
    var g, at, size := CopyParams(f, globals, |f.argsize|), f.firstlocal + Sum(f.argsize[..q]), f.argsize[q];
    var start := OFS_PARM0 + 3 * q;
    forall c | at <= c < at + size ensures g[c] == globals[c - at + start] {
      CellArrives(p, f, globals, q, c);
      assert OFS_PARM0 + 3 * q + (c - at) == c - at + start;
    }
    CellsMoved(g, at, globals, start, size);
  }

  /** Entering a function puts each of its first eight parameters where its code reads it. */
  lemma ParametersArrive(p: Program, fn: Func, img: Image, f: Function, globals: seq<int>, q: nat)
    requires ParamsFirst(fn, img.asg) && HeaderOf(fn, img, f) && WellFormedFunction(p, f) && f.entry >= 0
    requires |globals| == p.cells >= 28 && q < |f.argsize|
    ensures Cells(CopyParams(f, globals, |f.argsize|), Where(img, q), fn.sizes[q])
         == Cells(globals, 4 + 3 * q, fn.sizes[q])
  {
    hide *;
    CellNumbers();
    ParameterAddress(fn, img, f, q);
    ParameterFits(p, f, q);
    SizeAgrees(fn, img, f, q);
    CellsArrive(p, f, globals, q);
  }

  /** A completed call looks to its caller like the clobbering the simulation allows: nothing in its window moved. */
  lemma CallOnlyClobbers<W>(p: Program, owner: seq<nat>, eng: Engine<W>, s: State<W>, callee: nat, n: nat, i: nat) returns (noise: nat -> int)
    requires Calls.WellFormed(p, owner) && s.status == Running && |s.globals| == p.cells
    requires s.pc < |p.code| && p.code[s.pc] == Statement.Call(callee) && callee < |s.globals|
    requires 0 < s.globals[callee] < |p.functions| && p.functions[s.globals[callee]].entry >= 0
    requires n > 0 && forall m :: 0 < m < n ==> |Run(p, eng, s, m).stack| > |s.stack|
    requires |Run(p, eng, s, n).stack| == |s.stack| && Run(p, eng, s, n).status != Failed
    requires i < |p.functions|
    ensures var f := p.functions[i];
      Run(p, eng, s, n).globals == Clobber(s.globals, noise, f.firstlocal, f.firstlocal + f.locals)
  {
    CallsPreserveWindows(p, owner, eng, s, callee, n);
    var t := Run(p, eng, s, n).globals;
    noise := a => if 0 <= a < |t| then t[a] else 0;
    var f := p.functions[i];
    var c := Clobber(s.globals, noise, f.firstlocal, f.firstlocal + f.locals);
    forall a | 0 <= a < |t| ensures t[a] == c[a] {
      if f.firstlocal <= a < f.firstlocal + f.locals {
        assert InWindow(f, a) && InAnyWindow(p, a);
      }
    }
  }
}
