// The whole way of a function, from its graph to the addresses in its code, and what that code does.

module Preservation {
  import opened Ir
  import opened Wrappers
  import opened Liveness
  import opened LifeRanges
  import opened IrValues
  import opened LifeAnalysis
  import opened Interference
  import opened SlotAllocator
  import opened Sums
  import opened Placement
  import opened ParkingRule
  import opened FunctionLocals
  import opened SlotMachine
  import opened Parking

  /** What is asked of the code, and nothing is asked of the result of compiling it. */
  ghost predicate Sound(fn: Func, callStores: bool, locked0: set<nat>)
    requires WellFormed(fn)
  {
    SelfLoopsClear(fn) && (callStores ==> Undisturbed(fn, locked0 + Kept(fn)))
  }

  /** What the compiler has made of it. */
  ghost predicate Allocated(fn: Func, f: Facts, locked0: set<nat>, locked: set<nat>, lives: seq<Life>, img: Image, callStores: bool) {
    && Invariant(fn, f, locked0) && Solved(fn, f, locked0) && Denotes(f, lives)
    && f.locked <= locked && Safe(fn, locked, lives, img.asg)
    && RegionsApart(img.asg, img.firstlocal, img.firstglobal)
    && (!callStores ==> NoneParked(img.asg))
    && (forall v :: 0 <= v < |fn.sizes| ==> fn.sizes[v] <= 3)
  }

  /** The more is locked, the less is parked. */
  lemma FewerParked(fn: Func, a: set<nat>, b: set<nat>)
    requires WellFormed(fn) && Undisturbed(fn, a)
    requires forall v: nat :: v < fn.nlocals + fn.nvalues && v in a ==> v in b
    ensures Undisturbed(fn, b)
  {
    forall c: nat, i: nat, u: nat, d: nat, k: nat
      | At(fn, c, i) && d in Defs(fn, InstrAt(fn, c, i)) && Readable(fn, u, c, i + 1) && u != d
      ensures !(Parks(fn, b, u, k) && Parks(fn, b, d, k))
    {
      assert !(Parks(fn, a, u, k) && Parks(fn, a, d, k));
      hide WellFormed, WrittenOnce, OnlyPassedAs, Readable, Defs;
    }
  }

  lemma KeptIsLocked(fn: Func, f: Facts, locked0: set<nat>, locked: set<nat>)
    requires Invariant(fn, f, locked0) && Solved(fn, f, locked0) && SelfLoopsClear(fn) && f.locked <= locked
    requires Undisturbed(fn, locked0 + Kept(fn))
    ensures Undisturbed(fn, locked)
  {
    hide Invariant, Solved, SelfLoopsClear, Undisturbed, KeptAcross;
    AnalysedShape(fn, f, locked0);
    forall v: nat | v in locked0 + Kept(fn) ensures v in locked {
      LockedIsKept(fn, f, locked0, v);
    }
    FewerParked(fn, locked0 + Kept(fn), locked);
  }

  lemma SoundIsCompiled(fn: Func, f: Facts, locked0: set<nat>, locked: set<nat>, lives: seq<Life>, img: Image, callStores: bool)
    requires Allocated(fn, f, locked0, locked, lives, img, callStores) && Sound(fn, callStores, locked0)
    ensures Compiled(fn, f, locked0, locked, lives, img)
  {
    hide Invariant, Solved, Denotes, Safe, RegionsApart, SelfLoopsClear, SelfLoopsHarmless, Undisturbed, ParkedUndisturbed, NoneParked;
    AnalysedShape(fn, f, locked0);
    ClearIsHarmless(fn, f, locked0);
    if callStores {
      KeptIsLocked(fn, f, locked0, locked);
      RuleUndisturbed(fn, f, locked0, locked, lives, img.asg);
    } else {
      UnparkedUndisturbed(fn, f, img.asg);
    }
  }

  lemma AnalysedShape(fn: Func, f: Facts, locked0: set<nat>)
    requires Solved(fn, f, locked0)
    ensures Shape(fn, f) && WellFormed(fn)
  {
  }

  /** Slot allocation preserves meaning: the allocated code and the code with a cell
      per value show the same, branch the same and end the same, however long they run
      and whatever calls leave behind outside the window. */
  lemma AllocationPreservesMeaning<W>(fn: Func, f: Facts, locked0: set<nat>, locked: set<nat>, lives: seq<Life>, img: Image, callStores: bool,
                                      sem: Semantics<W>, noise: nat -> nat -> int, s: Ideal<W>, t: Machine<W>, n: nat)
    requires Allocated(fn, f, locked0, locked, lives, img, callStores) && Sound(fn, callStores, locked0)
    requires Shape(fn, f) && Agree(fn, f, img, s, t)
    ensures IdealRun(fn, sem, s, n).c == MachineRun(fn, sem, img, noise, t, n).c
  {
    SoundIsCompiled(fn, f, locked0, locked, lives, img, callStores);
    hide Allocated, Sound, Compiled, IdealRun, MachineRun, LiveBefore, InPlace;
    RunAgrees(fn, f, locked0, locked, lives, img, sem, noise, s, t, n);
  }

  /** Self-loops apart, it is enough that arguments that may be parked are bound for their calls, wherever they are computed. */
  lemma BoundIsSound(fn: Func, callStores: bool, locked0: set<nat>)
    requires WellFormed(fn) && SelfLoopsClear(fn)
    requires forall v: nat, k: nat :: Parks(fn, locked0 + Kept(fn), v, k) ==> BoundForCall(fn, v)
    ensures Sound(fn, callStores, locked0)
  {
    hide KeptAcross, Parks, BoundForCall, Undisturbed, SelfLoopsClear;
    BoundIsUndisturbed(fn, locked0 + Kept(fn));
  }

  // ----- from the graph to the addresses -----

  /** Started on any memory with room for the function, in any surroundings, both executions show the same. */
  ghost predicate MeaningKept<W(!new)>(fn: Func, img: Image)
    requires WellFormed(fn)
  {
    forall sem: Semantics<W>, noise: nat -> nat -> int, mem: seq<int>, w: W, n: nat :: SlotMachine.Fits(fn, img, |mem|) ==>
      SameRuns(fn, sem, img, noise, mem, w, n)
  }

  ghost predicate SameRuns<W>(fn: Func, sem: Semantics<W>, img: Image, noise: nat -> nat -> int, mem: seq<int>, w: W, n: nat)
    requires WellFormed(fn)
  {
    var (s, t) := Loaded(fn, img, mem, w, 0, 0);
    IdealRun(fn, sem, s, n).c == MachineRun(fn, sem, img, noise, t, n).c
  }

  lemma AllocatedKeepsMeaning<W(!new)>(fn: Func, f: Facts, locked0: set<nat>, locked: set<nat>, lives: seq<Life>, img: Image, callStores: bool)
    requires Allocated(fn, f, locked0, locked, lives, img, callStores) && WellFormed(fn) && Sound(fn, callStores, locked0)
    ensures MeaningKept<W>(fn, img)
  {
    hide Allocated, Sound, IdealRun, MachineRun, Loaded, Agree, SlotMachine.Fits, WellFormed;
    AllocatedShape(fn, f, locked0, locked, lives, img, callStores);
    forall sem: Semantics<W>, noise: nat -> nat -> int, mem: seq<int>, w: W, n: nat | SlotMachine.Fits(fn, img, |mem|)
      ensures SameRuns(fn, sem, img, noise, mem, w, n)
    {
      var (s, t) := Loaded(fn, img, mem, w, 0, 0);
      LoadedAgrees(fn, f, img, mem, w, 0, 0);
      AllocationPreservesMeaning(fn, f, locked0, locked, lives, img, callStores, sem, noise, s, t, n);
    }
  }

  lemma AllocatedShape(fn: Func, f: Facts, locked0: set<nat>, locked: set<nat>, lives: seq<Life>, img: Image, callStores: bool)
    requires Allocated(fn, f, locked0, locked, lives, img, callStores)
    ensures Shape(fn, f) && WellFormed(fn) && Within(fn, 0, 0)
  {
  }

  /** The shared temporaries are reserved behind the fixed cells, and the locals of all functions behind those. */
  predicate Reserved(firsttemp: nat, temps: nat, commonLocal: nat, nglobals: nat) {
    28 <= firsttemp && firsttemp + temps <= commonLocal <= nglobals
  }

  /** The value is addressed in the code where the image says. */
  ghost predicate EmittedAs(f: IrFunction, img: Image)
    reads f.values`inReturn, f.values`codeAddress
  {
    |img.asg.places| <= |f.values| &&
    forall v :: 0 <= v < |img.asg.places| && img.asg.places[v] != Nowhere ==> CodeAddress(f.values[v]) == Where(img, v)
  }

  lemma AddressedIsEmitted(f: IrFunction, img: Image)
    requires |img.asg.places| <= |f.values|
    requires forall v :: 0 <= v < |img.asg.places| ==> Addressed(f.values[v], img.asg, img.firstlocal, img.firstglobal, v)
    ensures EmittedAs(f, img)
  {
  }

  lemma NothingParkedUnasked(f: IrFunction, lives: seq<Life>, asg: Assignment, opts: Options)
    requires WellFormed(f.fn) && TempsByRule(f.fn, f.values, lives, asg.places, opts) && InSlots(asg.places, f.fn.nlocals)
    requires !opts.callStores
    ensures NoneParked(asg)
  {
    forall v | 0 <= v < |asg.places| ensures !asg.places[v].AtParm? {
      assert v >= f.fn.nlocals ==> ByRule(f.fn, f.values[v], v, lives[v], asg.places[v], opts);
    }
  }

  lemma ArgumentUnique(fn: Func, v: nat, k: nat, l: nat)
    requires WellFormed(fn) && OnlyPassedAs(fn, v, k) && OnlyPassedAs(fn, v, l)
    ensures k == l
  {
    var b: nat, i: nat :| OnlyReadAsArgument(fn, v, b, i, k);
    var c: nat, j: nat :| OnlyReadAsArgument(fn, v, c, j, l);
    assert v in Uses(fn, InstrAt(fn, c, j)) by {
      assert InstrAt(fn, c, j).params[l] == v;
    }
    assert c == b && j == i;
  }

  lemma ParkedIffRule(f: IrFunction, v: nat, k: nat, life: Life, place: Place, opts: Options)
    requires f.Valid() && WellFormed(f.fn) && f.fn.nlocals <= v < f.fn.nlocals + f.fn.nvalues && v < |f.values|
    requires ByRule(f.fn, f.values[v], v, life, place, opts) && !f.values[v].uniqueLife
    ensures place == AtParm(k) <==> opts.callStores && life != [] && Parks(f.fn, f.facts.locked, v, k)
  {
    hide WellFormed, WrittenOnce, OnlyPassedAs, WrittenByOneCall;
    if place.AtParm? && Parks(f.fn, f.facts.locked, v, k) {
      ArgumentUnique(f.fn, v, k, place.k);
    }
    assert v in f.facts.locked <==> f.values[v].locked;
    assert Parks(f.fn, f.facts.locked, v, k) ==> ParkedArgument(f.fn, v, k);
  }

  /** The rule in the code parks exactly what fits the rule on the graph. */
  lemma RuleParksExactly(f: IrFunction, lives: seq<Life>, asg: Assignment, opts: Options)
    requires f.Valid() && WellFormed(f.fn) && NoUniqueTemps(f) && InSlots(asg.places, f.fn.nlocals)
    requires |asg.places| == f.fn.nlocals + f.fn.nvalues <= |f.values| && TempsByRule(f.fn, f.values, lives, asg.places, opts)
    ensures ParkedExactly(f.fn, opts.callStores, f.facts.locked, lives, asg)
  {
    forall v: nat, k: nat | v < |asg.places|
      ensures asg.places[v] == AtParm(k) <==> opts.callStores && lives[v] != [] && Parks(f.fn, f.facts.locked, v, k)
    {
      if v >= f.fn.nlocals {
        ParkedIffRule(f, v, k, lives[v], asg.places[v], opts);
      }
      hide WellFormed, WrittenOnce, OnlyPassedAs, WrittenByOneCall, ByRule;
    }
  }

  lemma ReservedApart(asg: Assignment, opts: Options, firsttemp: nat, commonLocal: nat, nglobals: nat, firstlocal: nat, firstglobal: nat)
    requires Reserved(firsttemp, Sum(asg.tempSizes), commonLocal, nglobals)
    requires firstlocal == commonLocal || firstlocal == nglobals
    requires firstglobal == (if opts.globalTemps then firsttemp else firstlocal) && (!opts.globalTemps ==> asg.tempSizes == [])
    ensures RegionsApart(asg, firstlocal, firstglobal)
  {
  }

  /**
   * A function through the whole of it. If its code is sound, the code with the addresses emitted for it means what
   * the code with a cell for each value means.
   */
  method Compile<W(!new)>(f: IrFunction, opts: Options, overlapLocals: bool, firsttemp: nat, commonLocal: nat, nglobals: nat)
    returns (ok: bool, ghost facts: Facts, ghost lives: seq<Life>, ghost img: Image)
    requires Unfinished(f) && WellFormed(f.fn) && forall v :: 0 <= v < |f.fn.sizes| ==> f.fn.sizes[v] <= 3
    modifies f.blocks, f.values, f`facts, f`runId, f`noLocalTemps, f`allocatedLocals, f`globalTemps
    ensures ok <==> AllPlaceable(f.fn, f.values, lives, opts)
    ensures facts.locked <= f.facts.locked && Solved(f.fn, facts, old(f.facts.locked)) && Denotes(facts, lives)
    ensures ok ==> EmittedAs(f, img)
    ensures ok ==> Safe(f.fn, f.facts.locked, lives, img.asg)
    ensures ok && old(NoUniqueTemps(f)) ==> ParkedExactly(f.fn, opts.callStores, f.facts.locked, lives, img.asg)
    ensures ok && Reserved(firsttemp, f.globalTemps, commonLocal, nglobals) ==>
      Allocated(f.fn, facts, old(f.facts.locked), f.facts.locked, lives, img, opts.callStores)
    ensures ok && Reserved(firsttemp, f.globalTemps, commonLocal, nglobals) && Sound(f.fn, opts.callStores, old(f.facts.locked)) ==>
      MeaningKept<W>(f.fn, img)
  {
    hide *;
    ghost var locked0 := f.facts.locked;
    ghost var asg;
    ok, facts, lives, asg := FinalizeFunction(f, opts);
    img := Image(asg, 0, 0);
    if !ok {
      return;
    }
    FunctionShape(f);
    PlacesCount(f, lives, asg);
    if NoUniqueTemps(f) {
      RuleParksExactly(f, lives, asg, opts);
    }
    if !opts.callStores {
      NothingParkedUnasked(f, lives, asg, opts);
    }
    FirstInSlots(asg, f.fn.nlocals);
    var firstlocal, firstglobal := GenerateFunctionLocals(f, opts, overlapLocals, commonLocal, firsttemp, nglobals, asg);
    img := Image(asg, firstlocal, firstglobal);
    AddressedIsEmitted(f, img);
    if Reserved(firsttemp, f.globalTemps, commonLocal, nglobals) {
      ReservedApart(asg, opts, firsttemp, commonLocal, nglobals, firstlocal, firstglobal);
      AllocatedFrom(f.fn, facts, locked0, f.facts.locked, lives, img, opts.callStores);
      if Sound(f.fn, opts.callStores, locked0) {
        AllocatedKeepsMeaning<W>(f.fn, facts, locked0, f.facts.locked, lives, img, opts.callStores);
      }
    }
  }

  lemma CalledIsRead(fn: Func, v: nat, b: nat, i: nat)
    requires WellFormed(fn) && OnlyCalledAt(fn, v, b, i) && fn.nlocals <= v < fn.nlocals + fn.nvalues
    ensures v in OpUses(fn, InstrAt(fn, b, i))
  {
    var ins := InstrAt(fn, b, i);
    ArgNotCounted(ins.params, v);
    if v !in OpUses(fn, ins) {
      OpNotCounted(fn, ins, v, 3);
    }
  }

  lemma OperandOfCallIsLocked(fn: Func, f: Facts, locked0: set<nat>, v: nat, b: nat, i: nat)
    requires Solved(fn, f, locked0) && WellFormed(fn) && At(fn, b, i) && InstrAt(fn, b, i).op.Call?
    requires v in OpUses(fn, InstrAt(fn, b, i))
    ensures v in f.locked
  {
    assert LockedBy(fn, f.living, b, i, v);
    assert LockedIn(fn, f.living, b, v);
  }

  /** What finds no place is called by a call that never returns: other calls lock the function they call. */
  lemma OnlyCalledWithoutReturn(fn: Func, f: Facts, locked0: set<nat>, v: nat)
    requires Solved(fn, f, locked0) && WellFormed(fn) && fn.nlocals <= v < fn.nlocals + fn.nvalues && v !in f.locked
    ensures OnlyCalled(fn, v) ==> exists b: nat, i: nat :: OnlyCalledAt(fn, v, b, i) && InstrAt(fn, b, i).op.NrCall?
  {
    if b: nat, i: nat :| OnlyCalledAt(fn, v, b, i) {
      CalledIsRead(fn, v, b, i);
      if InstrAt(fn, b, i).op.Call? {
        OperandOfCallIsLocked(fn, f, locked0, v, b, i);
      }
    }
  }

  lemma PlacesCount(f: IrFunction, lives: seq<Life>, asg: Assignment)
    requires Safe(f.fn, f.facts.locked, lives, asg)
    ensures |asg.places| == f.fn.nlocals + f.fn.nvalues
  {
  }

  lemma FirstInSlots(asg: Assignment, n: nat)
    requires InSlots(asg.places, n)
    ensures n <= |asg.places| && forall v :: 0 <= v < n ==> !asg.places[v].AtParm? && !asg.places[v].AtReturn?
  {
  }

  lemma AllocatedFrom(fn: Func, f: Facts, locked0: set<nat>, locked: set<nat>, lives: seq<Life>, img: Image, callStores: bool)
    requires Invariant(fn, f, locked0) && Solved(fn, f, locked0) && Denotes(f, lives)
    requires f.locked <= locked && Safe(fn, locked, lives, img.asg)
    requires RegionsApart(img.asg, img.firstlocal, img.firstglobal)
    requires !callStores ==> NoneParked(img.asg)
    requires forall v :: 0 <= v < |fn.sizes| ==> fn.sizes[v] <= 3
    ensures Allocated(fn, f, locked0, locked, lives, img, callStores)
  {
  }
}
