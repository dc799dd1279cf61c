// Two executions of the same code. In one every value has a cell of its own;
// in the other values live in the cells the allocation gave them, arguments
// travel through the argument cells, and a call overwrites everything but the
// window of the calling function. They cannot be told apart.

module SlotMachine {
  import opened Ir
  import opened Wrappers
  import opened Liveness
  import opened LifeRanges
  import opened Interference
  import opened SlotAllocator
  import opened Sums
  import opened Reserved
  import opened Placement

  type Content = seq<int>

  // What instructions compute, for any state W of the rest of the program.
  type Effect<!W> = (nat, nat, seq<Content>, W) -> (Content, W)

  datatype Semantics<!W> = Semantics(
    effect: Effect<W>,
    outside: (nat, W) -> Content,
    branch: (nat, seq<Content>, W) -> nat)

  // What an execution shows: the instruction and the contents it read.
  datatype Event = Event(b: nat, i: nat, seen: seq<Content>)

  datatype Control<W> = Control(b: nat, i: nat, w: W, trace: seq<Event>, halted: bool)

  function Fit(c: Content, n: nat): (r: Content)
    ensures |r| == n
  {
    seq(n, (k: nat) => if k < |c| then c[k] else 0)
  }

  /** The values an instruction reads, operands first. */
  function ReadList(ins: Instr): seq<nat>
    requires |ins.ops| == 3
  {
    OpList(ins, 3) + ins.params
  }

  function OpList(ins: Instr, n: nat): seq<nat>
    requires n <= |ins.ops|
  {
    if n == 0 then []
    else OpList(ins, n - 1) + if ins.ops[n - 1].Some? && Reads(ins.op, n - 1) then [ins.ops[n - 1].value] else []
  }

  function Dest(fn: Func, ins: Instr): Option<nat>
    requires |ins.ops| == 3
  {
    if ins.ops[0].Some? && Writes(ins.op, 0) && fn.Tracked(ins.ops[0].value) then ins.ops[0] else None
  }

  /** Where control goes and what becomes of the rest of the program, given what was read. */
  function Advance<W>(fn: Func, sem: Semantics<W>, c: Control<W>, seen: seq<Content>): (Control<W>, Content)
    requires WellFormed(fn) && At(fn, c.b, c.i)
  {
    var ins := InstrAt(fn, c.b, c.i);
    var trace := c.trace + [Event(c.b, c.i, seen)];
    if ins.op.Return? || ins.op.NrCall? then (c.(trace := trace, halted := true), [])
    else if Terminates(ins.op) then
      var exits := fn.blocks[c.b].exits;
      assert WellFormedBlock(fn, fn.blocks[c.b]);
      var k := sem.branch(c.b, seen, c.w);
      (c.(b := exits[if k < |exits| then k else 0], i := 0, trace := trace), [])
    else
      var (r, w) := sem.effect(c.b, c.i, seen, c.w);
      (c.(i := c.i + 1, w := w, trace := trace), r)
  }

  // ----- one cell per value -----

  datatype Ideal<W> = Ideal(c: Control<W>, env: seq<Content>)

  function IdealRead<W>(fn: Func, sem: Semantics<W>, s: Ideal<W>, v: nat): Content
    requires |fn.sizes| == |fn.stores|
  {
    if v < |s.env| && fn.Owned(v) then s.env[v]
    else if v < |fn.sizes| then Fit(sem.outside(v, s.c.w), fn.sizes[v]) else []
  }

  function IdealReads<W>(fn: Func, sem: Semantics<W>, s: Ideal<W>, vs: seq<nat>): (r: seq<Content>)
    requires |fn.sizes| == |fn.stores|
    ensures |r| == |vs| && forall k :: 0 <= k < |vs| ==> r[k] == IdealRead(fn, sem, s, vs[k])
  {
    if vs == [] then [] else IdealReads(fn, sem, s, vs[..|vs| - 1]) + [IdealRead(fn, sem, s, vs[|vs| - 1])]
  }

  function IdealStep<W>(fn: Func, sem: Semantics<W>, s: Ideal<W>): Ideal<W>
    requires WellFormed(fn)
  {
    if s.c.halted || !At(fn, s.c.b, s.c.i) then s
    else
      var ins := InstrAt(fn, s.c.b, s.c.i);
      var (c, r) := Advance(fn, sem, s.c, IdealReads(fn, sem, s, ReadList(ins)));
      var d := Dest(fn, ins);
      Ideal(c, if Terminates(ins.op) || d.None? || d.value >= |s.env| then s.env
               else s.env[d.value := Fit(r, fn.sizes[d.value])])
  }

  function IdealRun<W>(fn: Func, sem: Semantics<W>, s: Ideal<W>, n: nat): Ideal<W>
    requires WellFormed(fn)
  {
    if n == 0 then s else IdealStep(fn, sem, IdealRun(fn, sem, s, n - 1))
  }

  // ----- cells shared as allocated -----

  // The function's code as placed in memory.
  datatype Image = Image(asg: Assignment, firstlocal: nat, firstglobal: nat)

  datatype Machine<W> = Machine(c: Control<W>, mem: seq<int>)

  function Cells(mem: seq<int>, a: nat, n: nat): Content {
    if a + n <= |mem| then mem[a..a + n] else []
  }

  function Store(mem: seq<int>, a: nat, c: Content): (r: seq<int>)
    ensures |r| == |mem|
  {
    if a + |c| <= |mem| then mem[..a] + c + mem[a + |c|..] else mem
  }

  function Where(img: Image, v: nat): nat {
    if v < |img.asg.places| then Address(img.asg, img.firstlocal, img.firstglobal, v) else 0
  }

  function MachineRead<W>(fn: Func, sem: Semantics<W>, img: Image, w: W, mem: seq<int>, v: nat): Content
    requires |fn.sizes| == |fn.stores|
  {
    if fn.Owned(v) && v < |fn.sizes| then Cells(mem, Where(img, v), fn.sizes[v])
    else if v < |fn.sizes| then Fit(sem.outside(v, w), fn.sizes[v]) else []
  }

  function MachineReads<W>(fn: Func, sem: Semantics<W>, img: Image, w: W, mem: seq<int>, vs: seq<nat>): (r: seq<Content>)
    requires |fn.sizes| == |fn.stores|
    ensures |r| == |vs| && forall k :: 0 <= k < |vs| ==> r[k] == MachineRead(fn, sem, img, w, mem, vs[k])
  {
    if vs == [] then []
    else MachineReads(fn, sem, img, w, mem, vs[..|vs| - 1]) + [MachineRead(fn, sem, img, w, mem, vs[|vs| - 1])]
  }

  predicate InParm(img: Image, v: nat) {
    v < |img.asg.places| && img.asg.places[v].AtParm?
  }

  /** Copy the first n arguments that are not there yet into their cells. */
  function Marshal<W>(fn: Func, sem: Semantics<W>, img: Image, w: W, mem: seq<int>, params: seq<nat>, n: nat): (r: seq<int>)
    requires |fn.sizes| == |fn.stores| && n <= |params|
    ensures |r| == |mem|
  {
    if n == 0 then mem
    else
      var m := Marshal(fn, sem, img, w, mem, params, n - 1);
      if InParm(img, params[n - 1]) then m
      else Store(m, OFS_PARM0 + 3 * (n - 1), MachineRead(fn, sem, img, w, m, params[n - 1]))
  }

  /** What the callee finds in the argument cells. */
  function Arguments(fn: Func, mem: seq<int>, params: seq<nat>): (r: seq<Content>)
    ensures |r| == |params|
    ensures forall p :: 0 <= p < |params| ==>
      r[p] == Cells(mem, OFS_PARM0 + 3 * p, if params[p] < |fn.sizes| then fn.sizes[params[p]] else 0)
  {
    seq(|params|, p requires 0 <= p < |params| =>
      Cells(mem, OFS_PARM0 + 3 * p, if params[p] < |fn.sizes| then fn.sizes[params[p]] else 0))
  }

  /** A call may leave anything anywhere but in the window of its caller. */
  function Clobber(mem: seq<int>, noise: nat -> int, lo: nat, hi: nat): (r: seq<int>)
    ensures |r| == |mem|
    ensures forall a :: lo <= a < hi && a < |mem| ==> r[a] == mem[a]
  {
    seq(|mem|, a requires 0 <= a < |mem| => if lo <= a < hi then mem[a] else noise(a))
  }

  function MachineStep<W>(fn: Func, sem: Semantics<W>, img: Image, noise: nat -> int, s: Machine<W>): Machine<W>
    requires WellFormed(fn)
  {
    if s.c.halted || !At(fn, s.c.b, s.c.i) then s
    else
      var ins := InstrAt(fn, s.c.b, s.c.i);
      var ops := MachineReads(fn, sem, img, s.c.w, s.mem, OpList(ins, 3));
      var marshalled := Marshal(fn, sem, img, s.c.w, s.mem, ins.params, |ins.params|);
      var (c, r) := Advance(fn, sem, s.c, ops + Arguments(fn, marshalled, ins.params));
      var d := Dest(fn, ins);
      var mem := if ins.op.Call?
                 then Clobber(marshalled, noise, img.firstlocal, img.firstlocal + Sum(img.asg.lockSizes))
                 else marshalled;
      Machine(c, if Terminates(ins.op) || d.None? then mem
                 else Store(mem, Where(img, d.value), Fit(r, fn.sizes[d.value])))
  }

  function MachineRun<W>(fn: Func, sem: Semantics<W>, img: Image, noise: nat -> nat -> int, s: Machine<W>, n: nat): Machine<W>
    requires WellFormed(fn)
  {
    if n == 0 then s else MachineStep(fn, sem, img, noise(n), MachineRun(fn, sem, img, noise, s, n - 1))
  }

  // ----- when the two agree -----

  predicate SameParm(asg: Assignment, u: nat, v: nat) {
    && u != v && u < |asg.places| && v < |asg.places|
    && asg.places[u].AtParm? && asg.places[u] == asg.places[v]
  }

  /** No argument is written into the cell of another one that is still to be passed. */
  ghost predicate ParkedUndisturbed(fn: Func, f: Facts, asg: Assignment)
    requires Shape(fn, f)
  {
    forall b: nat, i: nat, u: nat, d: nat ::
      At(fn, b, i) && d in Defs(fn, InstrAt(fn, b, i)) && u in LiveBefore(fn, f.living, b, i + 1) ==> !SameParm(asg, u, d)
  }

  /** All that the theorem asks of a compiled function. */
  ghost predicate Compiled(fn: Func, f: Facts, locked0: set<nat>, locked: set<nat>, lives: seq<Life>, img: Image) {
    && Shape(fn, f) && Solved(fn, f, locked0) && Denotes(f, lives)
    && SelfLoopsHarmless(fn, f.living)
    && f.locked <= locked && Safe(fn, locked, lives, img.asg)
    && RegionsApart(img.asg, img.firstlocal, img.firstglobal)
    && ParkedUndisturbed(fn, f, img.asg)
    && (forall v :: 0 <= v < |fn.sizes| ==> fn.sizes[v] <= 3)
  }

  predicate Fits(fn: Func, img: Image, size: nat) {
    && 28 <= size
    && img.firstlocal + Sum(img.asg.lockSizes) <= size
    && img.firstglobal + Sum(img.asg.tempSizes) <= size
  }

  ghost predicate InPlace(fn: Func, img: Image, env: seq<Content>, mem: seq<int>, v: nat) {
    v < |env| && v < |fn.sizes| && Cells(mem, Where(img, v), fn.sizes[v]) == env[v]
  }

  /** Same control, and every living value is where the allocation says. */
  ghost predicate Agree<W>(fn: Func, f: Facts, img: Image, s: Ideal<W>, t: Machine<W>)
    requires Shape(fn, f)
  {
    && s.c == t.c && |s.env| == fn.nlocals + fn.nvalues && Fits(fn, img, |t.mem|)
    && Within(fn, s.c.b, s.c.i)
    && (!s.c.halted ==> forall v :: v in LiveBefore(fn, f.living, s.c.b, s.c.i) && fn.Owned(v) ==>
          InPlace(fn, img, s.env, t.mem, v))
  }

  // ----- memory -----

  lemma StoreElsewhere(mem: seq<int>, a: nat, c: Content, at: nat, n: nat)
    requires Apart(a, |c|, at, n)
    ensures Cells(Store(mem, a, c), at, n) == Cells(mem, at, n)
  {
    if a + |c| <= |mem| && at + n <= |mem| {
      var m := Store(mem, a, c);
      assert forall k :: at <= k < at + n ==> m[k] == mem[k];
    }
  }

  lemma StoreHere(mem: seq<int>, a: nat, c: Content)
    requires a + |c| <= |mem|
    ensures Cells(Store(mem, a, c), a, |c|) == c
  {
  }

  lemma ClobberKeeps(mem: seq<int>, noise: nat -> int, lo: nat, hi: nat, a: nat, n: nat)
    requires lo <= a && a + n <= hi <= |mem|
    ensures Cells(Clobber(mem, noise, lo, hi), a, n) == Cells(mem, a, n)
  {
    var m := Clobber(mem, noise, lo, hi);
    assert forall k :: a <= k < a + n ==> m[k] == mem[k];
  }

  // ----- where values are -----

  /** A value with a life has cells inside the memory, none of them reserved unless it is parked. */
  lemma PlacedInside(fn: Func, f: Facts, locked0: set<nat>, locked: set<nat>, lives: seq<Life>, img: Image, size: nat, v: nat)
    requires Compiled(fn, f, locked0, locked, lives, img) && Fits(fn, img, size)
    requires fn.Owned(v) && v < |lives| && lives[v] != []
    ensures v < |img.asg.places| && v < |fn.sizes| && Where(img, v) + fn.sizes[v] <= size
    ensures img.asg.places[v].InLock? || img.asg.places[v].InTemps? ==> 28 <= Where(img, v)
    ensures img.asg.places[v].AtParm? ==> img.asg.places[v].k < 8 && Where(img, v) == OFS_PARM0 + 3 * img.asg.places[v].k
    ensures img.asg.places[v].AtReturn? ==> Where(img, v) == OFS_RETURN
    ensures img.asg.places[v].InLock? ==>
      img.firstlocal <= Where(img, v) && Where(img, v) + fn.sizes[v] <= img.firstlocal + Sum(img.asg.lockSizes)
    ensures !img.asg.places[v].Nowhere?
  {
    CellsInRegion(fn, locked, lives, img.asg, img.firstlocal, img.firstglobal, v);
  }

  lemma UsedIsLive(fn: Func, f: Facts, b: nat, i: nat, v: nat)
    requires Shape(fn, f) && At(fn, b, i) && v in Uses(fn, InstrAt(fn, b, i))
    ensures v in LiveBefore(fn, f.living, b, i)
  {
  }

  lemma LiveHasLife(fn: Func, f: Facts, locked0: set<nat>, lives: seq<Life>, b: nat, i: nat, v: nat)
    requires Shape(fn, f) && Solved(fn, f, locked0) && Denotes(f, lives) && At(fn, b, i)
    requires v in LiveBefore(fn, f.living, b, i) || v in Defs(fn, fn.blocks[b].instrs[i])
    ensures v < |lives| && lives[v] != []
  {
    LiveIsAlive(fn, f, locked0, b, i, v);
    assert Alive(lives[v], InstrId(fn, b, i));
  }

  lemma {:induction false} OpListUses(fn: Func, ins: Instr, n: nat, v: nat)
    requires n <= |ins.ops| == 3 && v in OpList(ins, n) && fn.Tracked(v)
    ensures v in OpUses(fn, ins)
  {
    if v in OpList(ins, n - 1) {
      OpListUses(fn, ins, n - 1, v);
    }
  }

  lemma {:induction false} OpListOwned(fn: Func, ins: Instr, n: nat, v: nat)
    requires WellFormed(fn) && WellFormedInstr(fn, ins) && n <= 3 && v in OpList(ins, n) && fn.Owned(v)
    ensures fn.Tracked(v)
  {
    if v in OpList(ins, n - 1) {
      OpListOwned(fn, ins, n - 1, v);
    }
  }

  lemma DestIsDef(fn: Func, ins: Instr)
    requires |ins.ops| == 3
    ensures Dest(fn, ins).Some? ==> Dest(fn, ins).value in Defs(fn, ins)
    ensures forall v :: v in Defs(fn, ins) ==> Dest(fn, ins) == Some(v)
  {
    forall v | v in Defs(fn, ins) ensures Dest(fn, ins) == Some(v) {
      OneDef(fn, ins, v, v);
    }
  }

  // ----- a call's arguments -----

  lemma ReadIsShort<W>(fn: Func, sem: Semantics<W>, img: Image, w: W, mem: seq<int>, v: nat)
    requires |fn.sizes| == |fn.stores| && forall v :: 0 <= v < |fn.sizes| ==> fn.sizes[v] <= 3
    ensures |MachineRead(fn, sem, img, w, mem, v)| <= 3
  {
  }

  /** Cells below the argument cells, and those from the nth on, are left alone. */
  lemma {:induction false} MarshalLeaves<W>(fn: Func, sem: Semantics<W>, img: Image, w: W, mem: seq<int>, params: seq<nat>, n: nat,
                                            a: nat, size: nat)
    requires |fn.sizes| == |fn.stores| && n <= |params| <= 8
    requires forall v :: 0 <= v < |fn.sizes| ==> fn.sizes[v] <= 3
    requires a + size <= OFS_PARM0 || OFS_PARM0 + 3 * n <= a
    ensures Cells(Marshal(fn, sem, img, w, mem, params, n), a, size) == Cells(mem, a, size)
    decreases n
  {
    hide Cells, Store, MachineRead, Marshal, InParm;
    if n > 0 {
      var m := Marshal(fn, sem, img, w, mem, params, n - 1);
      var c := MachineRead(fn, sem, img, w, m, params[n - 1]);
      MarshalOneMore(fn, sem, img, w, mem, params, n);
      MarshalLeaves(fn, sem, img, w, mem, params, n - 1, a, size);
      ReadIsShort(fn, sem, img, w, m, params[n - 1]);
      assert Apart(OFS_PARM0 + 3 * (n - 1), |c|, a, size);
      StoreElsewhere(m, OFS_PARM0 + 3 * (n - 1), c, a, size);
    } else {
      MarshalNone(fn, sem, img, w, mem, params);
    }
  }

  /** The argument cell p keeps what was put there, and what was parked there. */
  lemma {:induction false} MarshalKeepsCell<W>(fn: Func, sem: Semantics<W>, img: Image, w: W, mem: seq<int>, params: seq<nat>,
                                               p: nat, n: nat, size: nat)
    requires |fn.sizes| == |fn.stores| && p <= n <= |params| <= 8 && size <= 3
    requires forall v :: 0 <= v < |fn.sizes| ==> fn.sizes[v] <= 3
    requires p < n ==> InParm(img, params[p])
    ensures Cells(Marshal(fn, sem, img, w, mem, params, n), OFS_PARM0 + 3 * p, size) == Cells(mem, OFS_PARM0 + 3 * p, size)
    decreases n
  {
    hide Cells, Store, MachineRead, Marshal;
    if p < n {
      var m := Marshal(fn, sem, img, w, mem, params, n - 1);
      MarshalOneMore(fn, sem, img, w, mem, params, n);
      MarshalKeepsCell(fn, sem, img, w, mem, params, p, n - 1, size);
      if p < n - 1 {
        var c := MachineRead(fn, sem, img, w, m, params[n - 1]);
        ReadIsShort(fn, sem, img, w, m, params[n - 1]);
        assert Apart(OFS_PARM0 + 3 * (n - 1), |c|, OFS_PARM0 + 3 * p, size);
        StoreElsewhere(m, OFS_PARM0 + 3 * (n - 1), c, OFS_PARM0 + 3 * p, size);
      }
    } else {
      MarshalLeaves(fn, sem, img, w, mem, params, n, OFS_PARM0 + 3 * p, size);
    }
  }

  lemma MarshalNone<W>(fn: Func, sem: Semantics<W>, img: Image, w: W, mem: seq<int>, params: seq<nat>)
    requires |fn.sizes| == |fn.stores|
    ensures Marshal(fn, sem, img, w, mem, params, 0) == mem
  {
  }

  lemma MarshalOneMore<W>(fn: Func, sem: Semantics<W>, img: Image, w: W, mem: seq<int>, params: seq<nat>, n: nat)
    requires |fn.sizes| == |fn.stores| && 0 < n <= |params|
    ensures var m := Marshal(fn, sem, img, w, mem, params, n - 1);
      Marshal(fn, sem, img, w, mem, params, n) == if InParm(img, params[n - 1]) then m
        else Store(m, OFS_PARM0 + 3 * (n - 1), MachineRead(fn, sem, img, w, m, params[n - 1]))
  {
  }

  lemma ArgumentCellsApart(p: nat, q: nat, c: Content, size: nat)
    requires p < q && |c| <= 3 && size <= 3
    ensures Apart(OFS_PARM0 + 3 * q, |c|, OFS_PARM0 + 3 * p, size)
  {
  }

  lemma ArgumentFits(mem: seq<int>, p: nat, c: Content)
    requires p < 8 && |mem| >= 28 && |c| <= 3
    ensures OFS_PARM0 + 3 * p + |c| <= |mem|
  {
  }

  lemma {:induction false} MarshalPuts<W>(fn: Func, sem: Semantics<W>, img: Image, w: W, mem: seq<int>, params: seq<nat>, p: nat, n: nat)
    requires |fn.sizes| == |fn.stores| && p < n <= |params| <= 8 && |mem| >= 28
    requires forall v :: 0 <= v < |fn.sizes| ==> fn.sizes[v] <= 3
    requires params[p] < |fn.sizes| && !InParm(img, params[p])
    requires |MachineRead(fn, sem, img, w, mem, params[p])| == fn.sizes[params[p]]
    requires fn.Owned(params[p]) ==> 28 <= Where(img, params[p]) || Where(img, params[p]) == OFS_RETURN
    ensures Cells(Marshal(fn, sem, img, w, mem, params, n), OFS_PARM0 + 3 * p, fn.sizes[params[p]])
         == MachineRead(fn, sem, img, w, mem, params[p])
    decreases n
  {
    hide *;
    var m := Marshal(fn, sem, img, w, mem, params, n - 1);
    ReadIsShort(fn, sem, img, w, m, params[n - 1]);
    MarshalOneMore(fn, sem, img, w, mem, params, n);
    if p == n - 1 {
      ArgumentFits(m, p, MachineRead(fn, sem, img, w, m, params[p]));
      MarshalReads(fn, sem, img, w, mem, params, n - 1, params[p]);
      StoreHere(m, OFS_PARM0 + 3 * p, MachineRead(fn, sem, img, w, m, params[p]));
    } else {
      MarshalPuts(fn, sem, img, w, mem, params, p, n - 1);
      ArgumentCellsApart(p, n - 1, MachineRead(fn, sem, img, w, m, params[n - 1]), fn.sizes[params[p]]);
      StoreElsewhere(m, OFS_PARM0 + 3 * (n - 1), MachineRead(fn, sem, img, w, m, params[n - 1]),
                     OFS_PARM0 + 3 * p, fn.sizes[params[p]]);
    }
  }

  /** Filling argument cells does not change what a value outside of them reads as. */
  lemma MarshalReads<W>(fn: Func, sem: Semantics<W>, img: Image, w: W, mem: seq<int>, params: seq<nat>, n: nat, v: nat)
    requires |fn.sizes| == |fn.stores| && n <= |params| <= 8
    requires forall v :: 0 <= v < |fn.sizes| ==> fn.sizes[v] <= 3
    requires v < |fn.sizes| && (fn.Owned(v) ==> 28 <= Where(img, v) || Where(img, v) == OFS_RETURN)
    ensures MachineRead(fn, sem, img, w, Marshal(fn, sem, img, w, mem, params, n), v) == MachineRead(fn, sem, img, w, mem, v)
  {
    if fn.Owned(v) {
      MarshalLeaves(fn, sem, img, w, mem, params, n, Where(img, v), fn.sizes[v]);
    }
  }

  // ----- one step -----

  lemma LiveInPlace<W>(fn: Func, f: Facts, img: Image, s: Ideal<W>, t: Machine<W>, v: nat)
    requires Shape(fn, f) && Agree(fn, f, img, s, t) && !s.c.halted && fn.Owned(v)
    requires v in LiveBefore(fn, f.living, s.c.b, s.c.i)
    ensures v < |s.env| && v < |fn.sizes| && Cells(t.mem, Where(img, v), fn.sizes[v]) == s.env[v]
  {
    assert InPlace(fn, img, s.env, t.mem, v);
  }

  lemma OperandAgrees<W>(fn: Func, f: Facts, img: Image, sem: Semantics<W>, s: Ideal<W>, t: Machine<W>, v: nat)
    requires Shape(fn, f) && Agree(fn, f, img, s, t) && !s.c.halted
    requires At(fn, s.c.b, s.c.i) && v in OpList(InstrAt(fn, s.c.b, s.c.i), 3)
    ensures IdealRead(fn, sem, s, v) == MachineRead(fn, sem, img, t.c.w, t.mem, v)
  {
    if fn.Owned(v) {
      var ins := InstrAt(fn, s.c.b, s.c.i);
      OpListOwned(fn, ins, 3, v);
      OpListUses(fn, ins, 3, v);
      UsedIsLive(fn, f, s.c.b, s.c.i, v);
      LiveInPlace(fn, f, img, s, t, v);
    }
  }

  /** A parked argument is parked in the cell of its own position. */
  lemma ParkedWhereRead(fn: Func, locked: set<nat>, lives: seq<Life>, asg: Assignment, b: nat, i: nat, p: nat)
    requires Safe(fn, locked, lives, asg) && At(fn, b, i) && p < |InstrAt(fn, b, i).params|
    requires var v := InstrAt(fn, b, i).params[p]; v < |asg.places| && asg.places[v].AtParm?
    ensures asg.places[InstrAt(fn, b, i).params[p]].k == p
  {
    var v := InstrAt(fn, b, i).params[p];
    var k := asg.places[v].k;
    assert PlaceSafe(fn, locked, lives, fn.sizes, asg, v);
    var c: nat, j: nat :| OnlyReadAsArgument(fn, v, c, j, k);
    assert v in Uses(fn, InstrAt(fn, b, i));
  }

  /** What the callee finds in argument cell p is what the ideal execution passes. */
  lemma ArgumentAgrees<W>(fn: Func, f: Facts, locked0: set<nat>, locked: set<nat>, lives: seq<Life>, img: Image,
                          sem: Semantics<W>, s: Ideal<W>, t: Machine<W>, params: seq<nat>, p: nat)
    requires Compiled(fn, f, locked0, locked, lives, img) && Agree(fn, f, img, s, t) && !s.c.halted
    requires At(fn, s.c.b, s.c.i) && params == InstrAt(fn, s.c.b, s.c.i).params && p < |params|
    ensures params[p] < |fn.sizes|
    ensures IdealRead(fn, sem, s, params[p])
         == Cells(Marshal(fn, sem, img, t.c.w, t.mem, params, |params|), 4 + 3 * p, fn.sizes[params[p]])
  {
    var v := params[p];
    if !fn.Owned(v) {
      MarshalPuts(fn, sem, img, t.c.w, t.mem, params, p, |params|);
    } else {
      UsedIsLive(fn, f, s.c.b, s.c.i, v);
      LiveInPlace(fn, f, img, s, t, v);
      LiveHasLife(fn, f, locked0, lives, s.c.b, s.c.i, v);
      OwnedArgumentAgrees(fn, f, locked0, locked, lives, img, sem, t, s.c.b, s.c.i, p, s.env[v]);
    }
  }

  lemma OwnedArgumentAgrees<W>(fn: Func, f: Facts, locked0: set<nat>, locked: set<nat>, lives: seq<Life>, img: Image,
                               sem: Semantics<W>, t: Machine<W>, b: nat, i: nat, p: nat, c: Content)
    requires Compiled(fn, f, locked0, locked, lives, img) && Fits(fn, img, |t.mem|) && At(fn, b, i)
    requires p < |InstrAt(fn, b, i).params|
    requires var v := InstrAt(fn, b, i).params[p];
             fn.Owned(v) && v < |lives| && lives[v] != [] && v < |fn.sizes| && Cells(t.mem, Where(img, v), fn.sizes[v]) == c
    ensures var params := InstrAt(fn, b, i).params;
            Cells(Marshal(fn, sem, img, t.c.w, t.mem, params, |params|), OFS_PARM0 + 3 * p, fn.sizes[params[p]]) == c
  {
    hide Marshal, Solved, Denotes, SelfLoopsHarmless, ParkedUndisturbed, LiveBefore, Sum;
    var params := InstrAt(fn, b, i).params;
    var v := params[p];
    PlacedInside(fn, f, locked0, locked, lives, img, |t.mem|, v);
    if InParm(img, v) {
      ParkedWhereRead(fn, locked, lives, img.asg, b, i, p);
      MarshalKeepsCell(fn, sem, img, t.c.w, t.mem, params, p, |params|, fn.sizes[v]);
    } else {
      MarshalPuts(fn, sem, img, t.c.w, t.mem, params, p, |params|);
    }
  }

  lemma IdealReadsConcat<W>(fn: Func, sem: Semantics<W>, s: Ideal<W>, vs: seq<nat>, us: seq<nat>)
    requires |fn.sizes| == |fn.stores|
    ensures IdealReads(fn, sem, s, vs + us) == IdealReads(fn, sem, s, vs) + IdealReads(fn, sem, s, us)
  {
  }

  lemma OperandsAgree<W>(fn: Func, f: Facts, img: Image, sem: Semantics<W>, s: Ideal<W>, t: Machine<W>)
    requires Shape(fn, f) && Agree(fn, f, img, s, t) && !s.c.halted && At(fn, s.c.b, s.c.i)
    ensures var ops := OpList(InstrAt(fn, s.c.b, s.c.i), 3);
      IdealReads(fn, sem, s, ops) == MachineReads(fn, sem, img, t.c.w, t.mem, ops)
  {
    var ops := OpList(InstrAt(fn, s.c.b, s.c.i), 3);
    forall k | 0 <= k < |ops| ensures IdealRead(fn, sem, s, ops[k]) == MachineRead(fn, sem, img, t.c.w, t.mem, ops[k]) {
      OperandAgrees(fn, f, img, sem, s, t, ops[k]);
    }
  }

  lemma ArgumentsAgree<W>(fn: Func, f: Facts, locked0: set<nat>, locked: set<nat>, lives: seq<Life>, img: Image,
                          sem: Semantics<W>, s: Ideal<W>, t: Machine<W>, params: seq<nat>)
    requires Compiled(fn, f, locked0, locked, lives, img) && Agree(fn, f, img, s, t) && !s.c.halted
    requires At(fn, s.c.b, s.c.i) && params == InstrAt(fn, s.c.b, s.c.i).params
    ensures IdealReads(fn, sem, s, params)
         == Arguments(fn, Marshal(fn, sem, img, t.c.w, t.mem, params, |params|), params)
  {
    var marshalled := Marshal(fn, sem, img, t.c.w, t.mem, params, |params|);
    forall p | 0 <= p < |params|
      ensures IdealReads(fn, sem, s, params)[p] == Arguments(fn, marshalled, params)[p]
    {
      ArgumentAgrees(fn, f, locked0, locked, lives, img, sem, s, t, params, p);
    }
  }

  /** Both executions read the same. */
  lemma ReadsAgree<W>(fn: Func, f: Facts, locked0: set<nat>, locked: set<nat>, lives: seq<Life>, img: Image,
                      sem: Semantics<W>, s: Ideal<W>, t: Machine<W>, ins: Instr)
    requires Compiled(fn, f, locked0, locked, lives, img) && Agree(fn, f, img, s, t) && !s.c.halted
    requires At(fn, s.c.b, s.c.i) && ins == InstrAt(fn, s.c.b, s.c.i)
    ensures IdealReads(fn, sem, s, ReadList(ins))
         == MachineReads(fn, sem, img, t.c.w, t.mem, OpList(ins, 3))
          + Arguments(fn, Marshal(fn, sem, img, t.c.w, t.mem, ins.params, |ins.params|), ins.params)
  {
    IdealReadsConcat(fn, sem, s, OpList(ins, 3), ins.params);
    OperandsAgree(fn, f, img, sem, s, t);
    ArgumentsAgree(fn, f, locked0, locked, lives, img, sem, s, t, ins.params);
  }

  // ----- what an instruction leaves alone -----

  /** The result of an instruction does not go where a value still wanted is. */
  lemma ResultElsewhere(fn: Func, f: Facts, locked0: set<nat>, locked: set<nat>, lives: seq<Life>, img: Image,
                        b: nat, i: nat, u: nat, d: nat)
    requires Compiled(fn, f, locked0, locked, lives, img) && At(fn, b, i)
    requires d in Defs(fn, InstrAt(fn, b, i)) && fn.Owned(d) && fn.Owned(u) && u != d
    requires u in LiveBefore(fn, f.living, b, i + 1)
    ensures u < |fn.sizes| && d < |fn.sizes| && Apart(Where(img, d), fn.sizes[d], Where(img, u), fn.sizes[u])
  {
    LiveAcrossWriteClashes(fn, f, locked0, lives, b, i, u, d);
    assert lives[u] != [] && lives[d] != [];
    PlacedInside(fn, f, locked0, locked, lives, img, 28 + img.firstlocal + Sum(img.asg.lockSizes) + img.firstglobal + Sum(img.asg.tempSizes), u);
    PlacedInside(fn, f, locked0, locked, lives, img, 28 + img.firstlocal + Sum(img.asg.lockSizes) + img.firstglobal + Sum(img.asg.tempSizes), d);
    var pu, pd := img.asg.places[u], img.asg.places[d];
    if pu.InLock? || pu.InTemps? || pd.InLock? || pd.InTemps? {
      ClashingCellsApart(fn, locked, lives, img.asg, img.firstlocal, img.firstglobal, u, d);
    } else if pu.AtReturn? && pd.AtReturn? {
      ReturnsNeverClash(fn, f, locked, lives, img, b, i, u, d);
    } else {
      assert !SameParm(img.asg, u, d);
    }
  }

  /** A value parked where results are returned is never wanted across a call. */
  lemma ReturnsNeverClash(fn: Func, f: Facts, locked: set<nat>, lives: seq<Life>, img: Image, b: nat, i: nat, u: nat, d: nat)
    requires Shape(fn, f) && At(fn, b, i) && Safe(fn, locked, lives, img.asg)
    requires forall v: nat :: LockedIn(fn, f.living, b, v) ==> v in locked
    requires d in Defs(fn, InstrAt(fn, b, i)) && u != d && u in LiveBefore(fn, f.living, b, i + 1)
    requires u < |img.asg.places| && d < |img.asg.places| && img.asg.places[d].AtReturn?
    ensures !img.asg.places[u].AtReturn?
  {
    var ins := InstrAt(fn, b, i);
    assert PlaceSafe(fn, locked, lives, fn.sizes, img.asg, d) && PlaceSafe(fn, locked, lives, fn.sizes, img.asg, u);
    if u in Defs(fn, ins) {
      OneDef(fn, ins, u, d);
    }
    assert LockedBy(fn, f.living, b, i, u);
  }

  /** What is wanted after a call is locked, so it lies in the window. */
  lemma WantedAfterCallIsLocked(fn: Func, f: Facts, locked0: set<nat>, locked: set<nat>, lives: seq<Life>, img: Image, b: nat, i: nat, u: nat)
    requires Compiled(fn, f, locked0, locked, lives, img) && At(fn, b, i)
    requires InstrAt(fn, b, i).op.Call? && fn.Owned(u)
    requires u in LiveBefore(fn, f.living, b, i + 1) && u !in Defs(fn, InstrAt(fn, b, i))
    ensures u in f.locked && u < |img.asg.places| && u < |fn.sizes| && img.asg.places[u].InLock?
    ensures 28 <= img.firstlocal <= Where(img, u)
    ensures Where(img, u) + fn.sizes[u] <= img.firstlocal + Sum(img.asg.lockSizes)
  {
    var ins := InstrAt(fn, b, i);
    LiveHasLife(fn, f, locked0, lives, b, i, u);
    assert LockedBy(fn, f.living, b, i, u) && LockedIn(fn, f.living, b, u);
    assert PlaceSafe(fn, locked, lives, fn.sizes, img.asg, u);
    CellsInRegion(fn, locked, lives, img.asg, img.firstlocal, img.firstglobal, u);
  }

  /** Nothing wanted after a call is lost in it. */
  lemma CallKeeps<W>(fn: Func, f: Facts, locked0: set<nat>, locked: set<nat>, lives: seq<Life>, img: Image,
                     sem: Semantics<W>, noise: nat -> int, w: W, mem: seq<int>, b: nat, i: nat, u: nat, marshalled: seq<int>)
    requires Compiled(fn, f, locked0, locked, lives, img) && At(fn, b, i) && Fits(fn, img, |mem|)
    requires InstrAt(fn, b, i).op.Call? && fn.Owned(u) && u < |fn.sizes|
    requires u in LiveBefore(fn, f.living, b, i + 1) && u !in Defs(fn, InstrAt(fn, b, i))
    requires |fn.sizes| == |fn.stores|
    requires marshalled == Marshal(fn, sem, img, w, mem, InstrAt(fn, b, i).params, |InstrAt(fn, b, i).params|)
    ensures Cells(Clobber(marshalled, noise, img.firstlocal, img.firstlocal + Sum(img.asg.lockSizes)), Where(img, u), fn.sizes[u])
         == Cells(mem, Where(img, u), fn.sizes[u])
  {
    hide Cells, Clobber, Marshal, Solved, Denotes, Safe, SelfLoopsHarmless, ParkedUndisturbed, LiveBefore, Defs, WellFormed;
    WantedAfterCallIsLocked(fn, f, locked0, locked, lives, img, b, i, u);
    MarshalLeaves(fn, sem, img, w, mem, InstrAt(fn, b, i).params, |InstrAt(fn, b, i).params|, Where(img, u), fn.sizes[u]);
    ClobberKeeps(marshalled, noise, img.firstlocal, img.firstlocal + Sum(img.asg.lockSizes), Where(img, u), fn.sizes[u]);
  }

  /** Memory just before the result of an instruction is stored. */
  function BeforeResult<W>(fn: Func, sem: Semantics<W>, img: Image, noise: nat -> int, w: W, mem: seq<int>, ins: Instr): (m: seq<int>)
    requires |fn.sizes| == |fn.stores|
    ensures |m| == |mem|
  {
    var marshalled := Marshal(fn, sem, img, w, mem, ins.params, |ins.params|);
    if ins.op.Call? then Clobber(marshalled, noise, img.firstlocal, img.firstlocal + Sum(img.asg.lockSizes)) else marshalled
  }

  lemma QuietBefore<W>(fn: Func, sem: Semantics<W>, img: Image, noise: nat -> int, w: W, mem: seq<int>, b: nat, i: nat)
    requires WellFormed(fn) && At(fn, b, i) && !IsCall(InstrAt(fn, b, i).op) && |fn.sizes| == |fn.stores|
    ensures BeforeResult(fn, sem, img, noise, w, mem, InstrAt(fn, b, i)) == mem
  {
    assert InstrAt(fn, b, i).params == [];
  }

  lemma CompiledShape(fn: Func, f: Facts, locked0: set<nat>, locked: set<nat>, lives: seq<Life>, img: Image)
    requires Compiled(fn, f, locked0, locked, lives, img)
    ensures WellFormed(fn) && Shape(fn, f)
  {
  }

  lemma BeforeResultIs<W>(fn: Func, sem: Semantics<W>, img: Image, noise: nat -> int, w: W, mem: seq<int>, ins: Instr)
    requires |fn.sizes| == |fn.stores|
    ensures var marshalled := Marshal(fn, sem, img, w, mem, ins.params, |ins.params|);
      BeforeResult(fn, sem, img, noise, w, mem, ins)
        == if ins.op.Call? then Clobber(marshalled, noise, img.firstlocal, img.firstlocal + Sum(img.asg.lockSizes)) else marshalled
  {
  }

  lemma InstructionKeeps<W>(fn: Func, f: Facts, locked0: set<nat>, locked: set<nat>, lives: seq<Life>, img: Image,
                            sem: Semantics<W>, noise: nat -> int, w: W, mem: seq<int>, b: nat, i: nat, u: nat, before: seq<int>)
    requires Compiled(fn, f, locked0, locked, lives, img) && At(fn, b, i) && Fits(fn, img, |mem|)
    requires !Terminates(InstrAt(fn, b, i).op) && fn.Owned(u) && u < |fn.sizes| == |fn.stores|
    requires u in LiveBefore(fn, f.living, b, i + 1) && u !in Defs(fn, InstrAt(fn, b, i))
    requires before == BeforeResult(fn, sem, img, noise, w, mem, InstrAt(fn, b, i))
    ensures Cells(before, Where(img, u), fn.sizes[u]) == Cells(mem, Where(img, u), fn.sizes[u])
  {
    hide LiveBefore, Defs, Cells, Clobber, Marshal, Where, Compiled, Fits, WellFormed, BeforeResult;
    CompiledShape(fn, f, locked0, locked, lives, img);
    var ins := InstrAt(fn, b, i);
    BeforeResultIs(fn, sem, img, noise, w, mem, ins);
    if ins.op.Call? {
      CallKeeps(fn, f, locked0, locked, lives, img, sem, noise, w, mem, b, i, u,
                Marshal(fn, sem, img, w, mem, ins.params, |ins.params|));
    } else {
      QuietBefore(fn, sem, img, noise, w, mem, b, i);
    }
  }

  // ----- the simulation -----

  /** After a jump, what the target wants was live before the jump. */
  lemma JumpAgrees(fn: Func, f: Facts, locked0: set<nat>, b: nat, i: nat, k: nat, v: nat)
    requires Shape(fn, f) && Solved(fn, f, locked0) && SelfLoopsHarmless(fn, f.living)
    requires At(fn, b, i) && Terminates(InstrAt(fn, b, i).op) && k < |fn.blocks[b].exits|
    requires fn.blocks[b].exits[k] < |fn.blocks| && v in LiveBefore(fn, f.living, fn.blocks[b].exits[k], 0)
    ensures v in LiveBefore(fn, f.living, b, i)
  {
    assert WellFormedBlock(fn, fn.blocks[b]);
    ExitLivingFlows(fn, f.living, b, k);
    hide WellFormed, WellFormedInstr, LiveOut, SelfLoopsHarmless, OpUses, ParamUses;
    var ins := InstrAt(fn, b, i);
    if v in Defs(fn, ins) {
      OneDef(fn, ins, v, v);
    }
    assert v in LiveBefore(fn, f.living, b, i + 1);
  }

  /** The machine's step, with its memory named. */
  lemma StepMemory<W>(fn: Func, sem: Semantics<W>, img: Image, noise: nat -> int, t: Machine<W>)
    requires WellFormed(fn) && !t.c.halted && At(fn, t.c.b, t.c.i)
    ensures var ins := InstrAt(fn, t.c.b, t.c.i);
      var seen := MachineReads(fn, sem, img, t.c.w, t.mem, OpList(ins, 3))
                + Arguments(fn, Marshal(fn, sem, img, t.c.w, t.mem, ins.params, |ins.params|), ins.params);
      var (c, r) := Advance(fn, sem, t.c, seen);
      var d := Dest(fn, ins);
      var before := BeforeResult(fn, sem, img, noise, t.c.w, t.mem, ins);
      MachineStep(fn, sem, img, noise, t) ==
        Machine(c, if Terminates(ins.op) || d.None? then before
                   else Store(before, Where(img, d.value), Fit(r, fn.sizes[d.value])))
  {
  }

  /** A value wanted after an instruction is in place after it: left alone, or just put there. */
  lemma NextInPlace<W>(fn: Func, f: Facts, locked0: set<nat>, locked: set<nat>, lives: seq<Life>, img: Image,
                       sem: Semantics<W>, noise: nat -> int, w: W, env: seq<Content>, mem: seq<int>, b: nat, i: nat, r: Content, u: nat)
    requires Compiled(fn, f, locked0, locked, lives, img) && At(fn, b, i) && Fits(fn, img, |mem|)
    requires !Terminates(InstrAt(fn, b, i).op) && fn.Owned(u) && u < |fn.sizes| == |fn.stores| && |env| == fn.nlocals + fn.nvalues
    requires u in LiveBefore(fn, f.living, b, i + 1)
    requires u !in Defs(fn, InstrAt(fn, b, i)) ==> InPlace(fn, img, env, mem, u)
    ensures var d := Dest(fn, InstrAt(fn, b, i));
      var before := BeforeResult(fn, sem, img, noise, w, mem, InstrAt(fn, b, i));
      InPlace(fn, img,
              if d.None? || d.value >= |env| then env else env[d.value := Fit(r, fn.sizes[d.value])],
              if d.None? then before else Store(before, Where(img, d.value), Fit(r, fn.sizes[d.value])), u)
  {
    var ins := InstrAt(fn, b, i);
    var d := Dest(fn, ins);
    DestIsDef(fn, ins);
    var before := BeforeResult(fn, sem, img, noise, w, mem, ins);
    if d.Some? {
      assert fn.Owned(d.value);
      LiveHasLife(fn, f, locked0, lives, b, i, d.value);
      PlacedInside(fn, f, locked0, locked, lives, img, |mem|, d.value);
    }
    if d == Some(u) {
      StoreHere(before, Where(img, u), Fit(r, fn.sizes[u]));
    } else {
      InstructionKeeps(fn, f, locked0, locked, lives, img, sem, noise, w, mem, b, i, u, before);
      if d.Some? {
        ResultElsewhere(fn, f, locked0, locked, lives, img, b, i, u, d.value);
        StoreElsewhere(before, Where(img, d.value), Fit(r, fn.sizes[d.value]), Where(img, u), fn.sizes[u]);
      }
    }
  }

  lemma TerminatorAgrees<W>(fn: Func, f: Facts, locked0: set<nat>, locked: set<nat>, lives: seq<Life>, img: Image,
                            sem: Semantics<W>, s: Ideal<W>, t: Machine<W>, seen: seq<Content>, mem: seq<int>)
    requires Compiled(fn, f, locked0, locked, lives, img) && Agree(fn, f, img, s, t) && !s.c.halted
    requires At(fn, s.c.b, s.c.i) && Terminates(InstrAt(fn, s.c.b, s.c.i).op) && |mem| == |t.mem|
    requires !IsCall(InstrAt(fn, s.c.b, s.c.i).op) ==> mem == t.mem
    ensures var c := Advance(fn, sem, s.c, seen).0;
      Agree(fn, f, img, Ideal(c, s.env), Machine(c, mem))
  {
    var c := Advance(fn, sem, s.c, seen).0;
    if !c.halted {
      assert WellFormedBlock(fn, fn.blocks[s.c.b]);
      var exits := fn.blocks[s.c.b].exits;
      var k := sem.branch(s.c.b, seen, s.c.w);
      var j := if k < |exits| then k else 0;
      assert c.b == exits[j] && c.i == 0;
      forall v | v in LiveBefore(fn, f.living, c.b, 0) && fn.Owned(v) ensures InPlace(fn, img, s.env, mem, v) {
        JumpAgrees(fn, f, locked0, s.c.b, s.c.i, j, v);
        assert InPlace(fn, img, s.env, t.mem, v);
      }
    }
  }

  lemma NextInstruction<W>(fn: Func, sem: Semantics<W>, c: Control<W>, seen: seq<Content>)
    requires WellFormed(fn) && At(fn, c.b, c.i) && !Terminates(InstrAt(fn, c.b, c.i).op)
    ensures var c2 := Advance(fn, sem, c, seen).0;
      c2.b == c.b && c2.i == c.i + 1 && c2.halted == c.halted && Within(fn, c2.b, c2.i)
  {
    assert WellFormedBlock(fn, fn.blocks[c.b]);
  }

  lemma LiveAfterOrWritten(fn: Func, living: Living, b: nat, i: nat, v: nat)
    requires WellFormed(fn) && |living| == |fn.blocks| && At(fn, b, i) && v in LiveBefore(fn, living, b, i + 1)
    ensures v in Defs(fn, InstrAt(fn, b, i)) || v in LiveBefore(fn, living, b, i)
  {
  }

  lemma AgreeParts<W>(fn: Func, f: Facts, img: Image, s: Ideal<W>, t: Machine<W>)
    requires Shape(fn, f) && Agree(fn, f, img, s, t)
    ensures s.c == t.c && Within(fn, s.c.b, s.c.i) && |s.env| == fn.nlocals + fn.nvalues <= |fn.sizes| == |fn.stores|
    ensures Fits(fn, img, |t.mem|) && forall v: nat :: fn.Owned(v) <==> v < |s.env|
  {
    assert WellFormed(fn);
  }

  lemma AgreeFrom<W>(fn: Func, f: Facts, img: Image, s: Ideal<W>, t: Machine<W>)
    requires Shape(fn, f) && s.c == t.c && |s.env| == fn.nlocals + fn.nvalues && Fits(fn, img, |t.mem|) && Within(fn, s.c.b, s.c.i)
    requires forall v :: v in LiveBefore(fn, f.living, s.c.b, s.c.i) && fn.Owned(v) ==> InPlace(fn, img, s.env, t.mem, v)
    ensures Agree(fn, f, img, s, t)
  {
    hide LiveBefore, InPlace, Fits, WellFormed;
  }

  lemma OrdinaryAgrees<W>(fn: Func, f: Facts, locked0: set<nat>, locked: set<nat>, lives: seq<Life>, img: Image,
                          sem: Semantics<W>, noise: nat -> int, s: Ideal<W>, t: Machine<W>, seen: seq<Content>)
    requires Compiled(fn, f, locked0, locked, lives, img) && Agree(fn, f, img, s, t) && !s.c.halted
    requires At(fn, s.c.b, s.c.i) && !Terminates(InstrAt(fn, s.c.b, s.c.i).op)
    ensures var ins := InstrAt(fn, s.c.b, s.c.i);
      var (c, r) := Advance(fn, sem, s.c, seen);
      var d := Dest(fn, ins);
      var before := BeforeResult(fn, sem, img, noise, t.c.w, t.mem, ins);
      (d.Some? ==> d.value < |fn.sizes|) &&
      Agree(fn, f, img,
            Ideal(c, if d.None? || d.value >= |s.env| then s.env else s.env[d.value := Fit(r, fn.sizes[d.value])]),
            Machine(c, if d.None? then before else Store(before, Where(img, d.value), Fit(r, fn.sizes[d.value]))))
  {
    hide Compiled, Agree, Advance, BeforeResult, Store, Fit, Where, Dest, Defs, InPlace, LiveBefore, WellFormed, At, Within, InstrAt, Fits, Func.Owned;
    CompiledShape(fn, f, locked0, locked, lives, img);
    AgreeParts(fn, f, img, s, t);
    var ins := InstrAt(fn, s.c.b, s.c.i);
    var (c, r) := Advance(fn, sem, s.c, seen);
    NextInstruction(fn, sem, s.c, seen);
    DestInside(fn, s.c.b, s.c.i);
    var d := Dest(fn, ins);
    var before := BeforeResult(fn, sem, img, noise, t.c.w, t.mem, ins);
    var env := if d.None? || d.value >= |s.env| then s.env else s.env[d.value := Fit(r, fn.sizes[d.value])];
    var mem := if d.None? then before else Store(before, Where(img, d.value), Fit(r, fn.sizes[d.value]));
    forall v | v in LiveBefore(fn, f.living, c.b, c.i) && fn.Owned(v) ensures InPlace(fn, img, env, mem, v) {
      LiveAfterOrWritten(fn, f.living, s.c.b, s.c.i, v);
      if v !in Defs(fn, ins) {
        LiveInPlace(fn, f, img, s, t, v);
        IsInPlace(fn, img, s.env, t.mem, v);
      }
      NextInPlace(fn, f, locked0, locked, lives, img, sem, noise, t.c.w, s.env, t.mem, s.c.b, s.c.i, r, v);
    }
    AgreeFrom(fn, f, img, Ideal(c, env), Machine(c, mem));
  }

  lemma IsInPlace(fn: Func, img: Image, env: seq<Content>, mem: seq<int>, v: nat)
    requires v < |env| && v < |fn.sizes| && Cells(mem, Where(img, v), fn.sizes[v]) == env[v]
    ensures InPlace(fn, img, env, mem, v)
  {
  }

  lemma DestInside(fn: Func, b: nat, i: nat)
    requires WellFormed(fn) && At(fn, b, i)
    ensures |InstrAt(fn, b, i).ops| == 3 && var d := Dest(fn, InstrAt(fn, b, i)); d.Some? ==> d.value < |fn.stores|
  {
  }

  lemma IdealNames<W>(fn: Func, sem: Semantics<W>, s: Ideal<W>)
    requires WellFormed(fn) && !s.c.halted && At(fn, s.c.b, s.c.i)
    ensures var ins := InstrAt(fn, s.c.b, s.c.i);
      var (c, r) := Advance(fn, sem, s.c, IdealReads(fn, sem, s, ReadList(ins)));
      var d := Dest(fn, ins);
      IdealStep(fn, sem, s) ==
        Ideal(c, if Terminates(ins.op) || d.None? || d.value >= |s.env| then s.env
                 else s.env[d.value := Fit(r, fn.sizes[d.value])])
  {
  }

  /** An execution that has ended, or has come to the end of a block left open, stays as it is. */
  lemma StoppedStays<W>(fn: Func, sem: Semantics<W>, img: Image, noise: nat -> int, s: Ideal<W>, t: Machine<W>)
    requires WellFormed(fn)
    ensures s.c.halted || !At(fn, s.c.b, s.c.i) ==> IdealStep(fn, sem, s) == s
    ensures t.c.halted || !At(fn, t.c.b, t.c.i) ==> MachineStep(fn, sem, img, noise, t) == t
  {
  }

  lemma StepAgrees<W>(fn: Func, f: Facts, locked0: set<nat>, locked: set<nat>, lives: seq<Life>, img: Image,
                      sem: Semantics<W>, noise: nat -> int, s: Ideal<W>, t: Machine<W>)
    requires Compiled(fn, f, locked0, locked, lives, img) && Agree(fn, f, img, s, t)
    ensures Agree(fn, f, img, IdealStep(fn, sem, s), MachineStep(fn, sem, img, noise, t))
  {
    hide Agree, Compiled, IdealStep, MachineStep, BeforeResult, Store, Fit, Advance, WellFormed, IdealReads, MachineReads, Arguments,
         Marshal, ReadList, OpList, Dest, Where, At, Within, InstrAt;
    CompiledShape(fn, f, locked0, locked, lives, img);
    AgreeParts(fn, f, img, s, t);
    StoppedStays(fn, sem, img, noise, s, t);
    if !s.c.halted && At(fn, s.c.b, s.c.i) {
      var ins := InstrAt(fn, s.c.b, s.c.i);
      DestInside(fn, s.c.b, s.c.i);
      var seen := IdealReads(fn, sem, s, ReadList(ins));
      ReadsAgree(fn, f, locked0, locked, lives, img, sem, s, t, ins);
      IdealNames(fn, sem, s);
      StepMemory(fn, sem, img, noise, t);
      if Terminates(ins.op) {
        var before := BeforeResult(fn, sem, img, noise, t.c.w, t.mem, ins);
        if !IsCall(ins.op) {
          QuietBefore(fn, sem, img, noise, t.c.w, t.mem, t.c.b, t.c.i);
        }
        TerminatorAgrees(fn, f, locked0, locked, lives, img, sem, s, t, seen, before);
      } else {
        OrdinaryAgrees(fn, f, locked0, locked, lives, img, sem, noise, s, t, seen);
      }
    }
  }

  /** However long they run, they agree. */
  lemma {:induction false} RunAgrees<W>(fn: Func, f: Facts, locked0: set<nat>, locked: set<nat>, lives: seq<Life>, img: Image,
                                        sem: Semantics<W>, noise: nat -> nat -> int, s: Ideal<W>, t: Machine<W>, n: nat)
    requires Compiled(fn, f, locked0, locked, lives, img) && Agree(fn, f, img, s, t)
    ensures Agree(fn, f, img, IdealRun(fn, sem, s, n), MachineRun(fn, sem, img, noise, t, n))
  {
    hide Compiled, Agree, IdealStep, MachineStep;
    if n > 0 {
      CompiledShape(fn, f, locked0, locked, lives, img);
      RunAgrees(fn, f, locked0, locked, lives, img, sem, noise, s, t, n - 1);
      StepAgrees(fn, f, locked0, locked, lives, img, sem, noise(n), IdealRun(fn, sem, s, n - 1),
                 MachineRun(fn, sem, img, noise, t, n - 1));
    }
  }

  /** Both executions started on the same memory: every value is what the cells given to it hold. */
  function Loaded<W>(fn: Func, img: Image, mem: seq<int>, w: W, b: nat, i: nat): (Ideal<W>, Machine<W>) {
    var env := seq(fn.nlocals + fn.nvalues, (v: nat) => Cells(mem, Where(img, v), if v < |fn.sizes| then fn.sizes[v] else 0));
    (Ideal(Control(b, i, w, [], false), env), Machine(Control(b, i, w, [], false), mem))
  }

  lemma LoadedAgrees<W>(fn: Func, f: Facts, img: Image, mem: seq<int>, w: W, b: nat, i: nat)
    requires Shape(fn, f) && Fits(fn, img, |mem|) && Within(fn, b, i)
    ensures var (s, t) := Loaded(fn, img, mem, w, b, i);
      Agree(fn, f, img, s, t)
  {
    hide LiveBefore, Fits, Where, Cells;
    assert |fn.sizes| == |fn.stores| >= fn.nlocals + fn.nvalues by {
      assert WellFormed(fn);
    }
  }

  /** An operand the engine may read again while writing the result does not share cells with it. */
  lemma HeldApartFromResult(fn: Func, f: Facts, locked0: set<nat>, locked: set<nat>, lives: seq<Life>, img: Image,
                            b: nat, i: nat, u: nat, d: nat)
    requires Compiled(fn, f, locked0, locked, lives, img) && At(fn, b, i)
    requires d in Defs(fn, InstrAt(fn, b, i)) && u in Held(InstrAt(fn, b, i)) && fn.Owned(u) && fn.Owned(d) && u != d
    ensures u < |fn.sizes| && d < |fn.sizes| && Apart(Where(img, d), fn.sizes[d], Where(img, u), fn.sizes[u])
  {
    var ins := InstrAt(fn, b, i);
    HeldAreUsed(fn, ins, u);
    HeldClashesWithResult(fn, f, locked0, lives, b, i, u, d);
    HeldIsNotParked(fn, locked, lives, img.asg, b, i, u, d);
    assert lives[u] != [] && lives[d] != [];
    assert PlaceSafe(fn, locked, lives, fn.sizes, img.asg, u) && PlaceSafe(fn, locked, lives, fn.sizes, img.asg, d);
    if img.asg.places[u].AtReturn? {
      CellsInRegion(fn, locked, lives, img.asg, img.firstlocal, img.firstglobal, d);
    } else {
      ClashingCellsApart(fn, locked, lives, img.asg, img.firstlocal, img.firstglobal, d, u);
    }
  }

  lemma HeldIsNotParked(fn: Func, locked: set<nat>, lives: seq<Life>, asg: Assignment, b: nat, i: nat, u: nat, d: nat)
    requires Safe(fn, locked, lives, asg) && At(fn, b, i) && u < |asg.places| && d < |asg.places|
    requires d in Defs(fn, InstrAt(fn, b, i)) && u in Held(InstrAt(fn, b, i)) && u in OpUses(fn, InstrAt(fn, b, i))
    ensures !asg.places[u].AtParm? && !asg.places[d].AtReturn?
  {
    OperandIsNoArgument(fn, u, b, i);
    hide OnlyPassedAs, WrittenOnce;
    assert PlaceSafe(fn, locked, lives, fn.sizes, asg, u) && PlaceSafe(fn, locked, lives, fn.sizes, asg, d);
  }

  lemma OperandIsNoArgument(fn: Func, v: nat, b: nat, i: nat)
    requires WellFormed(fn) && At(fn, b, i) && v in OpUses(fn, InstrAt(fn, b, i))
    ensures forall k: nat :: !OnlyPassedAs(fn, v, k)
  {
    forall k: nat, c: nat, j: nat ensures !OnlyReadAsArgument(fn, v, c, j, k) {
      assert v in Uses(fn, InstrAt(fn, b, i));
    }
  }
}
