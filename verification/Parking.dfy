// Arguments written straight into the cell they are passed in: exactly when that is safe.

module Parking {
  import opened Ir
  import opened Wrappers
  import opened Liveness
  import opened LifeRanges
  import opened Interference
  import opened Placement
  import opened ParkingRule
  import opened SlotMachine

  /** Lives that do not clash are enough. */
  lemma ApartIsUndisturbed(fn: Func, f: Facts, locked0: set<nat>, lives: seq<Life>, asg: Assignment)
    requires Shape(fn, f) && Solved(fn, f, locked0) && Denotes(f, lives)
    requires forall u, v :: 0 <= u < |lives| && 0 <= v < |lives| && SameParm(asg, u, v) ==> !Overlap(lives[u], lives[v])
    ensures ParkedUndisturbed(fn, f, asg)
  {
    forall b: nat, i: nat, u: nat, d: nat
      | At(fn, b, i) && d in Defs(fn, InstrAt(fn, b, i)) && u in LiveBefore(fn, f.living, b, i + 1)
      ensures !SameParm(asg, u, d)
    {
      if u != d {
        LiveAcrossWriteClashes(fn, f, locked0, lives, b, i, u, d);
      }
    }
  }

  // ----- the condition is exact -----

  /** What the theorem asks of a compiled function, leaving out that parked arguments are undisturbed. */
  ghost predicate SafelyPlaced(fn: Func, f: Facts, locked0: set<nat>, locked: set<nat>, lives: seq<Life>, img: Image) {
    && Solved(fn, f, locked0) && Invariant(fn, f, locked0) && Denotes(f, lives)
    && SelfLoopsClear(fn)
    && f.locked <= locked && Safe(fn, locked, lives, img.asg)
    && RegionsApart(img.asg, img.firstlocal, img.firstglobal)
    && (forall v :: 0 <= v < |fn.sizes| ==> 1 <= fn.sizes[v] <= 3)
  }

  /** Each step of the allocated code keeps agreeing with the code that has a cell per value. */
  ghost predicate StepsKeepAgreement<W(!new)>(fn: Func, f: Facts, img: Image)
    requires Shape(fn, f)
  {
    forall sem: Semantics<W>, noise: nat -> int, s: Ideal<W>, t: Machine<W> :: Agree(fn, f, img, s, t) ==>
      Agree(fn, f, img, IdealStep(fn, sem, s), MachineStep(fn, sem, img, noise, t))
  }

  /** Instructions that compute nothing but ones. */
  function Ones<W>(): Semantics<W> {
    Semantics((b: nat, i: nat, seen: seq<Content>, w: W) => ([1, 1, 1], w),
              (v: nat, w: W) => [],
              (b: nat, seen: seq<Content>, w: W) => 0)
  }

  /** Memory of zeros only. */
  function Blank<W>(fn: Func, img: Image, size: nat, w: W, b: nat, i: nat): (Ideal<W>, Machine<W>) {
    Loaded(fn, img, Zeros(size), w, b, i)
  }

  function Zeros(size: nat): (mem: seq<int>)
    ensures |mem| == size && forall a :: 0 <= a < size ==> mem[a] == 0
  {
    seq(size, (a: nat) => 0)
  }

  lemma OneCell(fn: Func, locked: set<nat>, lives: seq<Life>, img: Image, u: nat, d: nat)
    requires Safe(fn, locked, lives, img.asg) && SameParm(img.asg, u, d)
    ensures Where(img, u) == Where(img, d) <= 25
    ensures u < fn.nlocals + fn.nvalues <= |fn.sizes| == |fn.stores| && d < fn.nlocals + fn.nvalues
  {
    assert PlaceSafe(fn, locked, lives, fn.sizes, img.asg, u);
    assert ParkedArgument(fn, u, img.asg.places[u].k);
    hide SlotsSafe, WellFormed;
  }

  lemma NotTheLast(fn: Func, f: Facts, b: nat, i: nat, u: nat, d: nat)
    requires Shape(fn, f) && At(fn, b, i) && d in Defs(fn, InstrAt(fn, b, i)) && u in LiveBefore(fn, f.living, b, i + 1)
    ensures !Terminates(InstrAt(fn, b, i).op) && At(fn, b, i + 1) && |InstrAt(fn, b, i).ops| == 3
  {
    assert WellFormedBlock(fn, fn.blocks[b]);
    NothingAfterLastWrite(fn, f.living, b, i, d);
  }

  lemma BlankCell<W>(fn: Func, img: Image, size: nat, w: W, b: nat, i: nat, u: nat)
    requires u < fn.nlocals + fn.nvalues <= |fn.sizes| && 1 <= fn.sizes[u] <= 3 && Where(img, u) + 3 <= size
    ensures var (s, t) := Blank(fn, img, size, w, b, i);
      |s.env| == fn.nlocals + fn.nvalues && |s.env[u]| == fn.sizes[u] && s.env[u][0] == 0 && |t.mem| == size
  {
    hide Where;
  }

  lemma FirstOne(n: nat)
    requires n >= 1
    ensures |Fit([1, 1, 1], n)| == n && Fit([1, 1, 1], n)[0] == 1
  {
  }

  lemma OnesStep<W>(fn: Func, img: Image, size: nat, w: W, noise: nat -> int, b: nat, i: nat, d: nat) returns (before: seq<int>)
    requires WellFormed(fn) && At(fn, b, i) && At(fn, b, i + 1) && !Terminates(InstrAt(fn, b, i).op)
    requires Dest(fn, InstrAt(fn, b, i)) == Some(d) && d < fn.nlocals + fn.nvalues <= |fn.sizes| == |fn.stores|
    ensures var (s, t) := Blank(fn, img, size, w, b, i);
      var (s2, t2) := (IdealStep(fn, Ones(), s), MachineStep(fn, Ones(), img, noise, t));
      && |before| == size && s2.c.b == b && s2.c.i == i + 1 && !s2.c.halted
      && d < |s.env| && s2.env == s.env[d := Fit([1, 1, 1], fn.sizes[d])]
      && t2.mem == SlotMachine.Store(before, Where(img, d), Fit([1, 1, 1], fn.sizes[d]))
  {
    var (s, t) := Blank(fn, img, size, w, b, i);
    StepMemory(fn, Ones(), img, noise, t);
    before := BeforeResult(fn, Ones(), img, noise, w, t.mem, InstrAt(fn, b, i));
    hide WellFormed, BeforeResult, MachineStep, Where, MachineReads, IdealReads, Arguments, Marshal, Cells, SlotMachine.Store, Fit;
  }

  /** The step that writes d into the cell of u, from blank memory. */
  lemma DisturbedIsLost<W>(fn: Func, f: Facts, locked: set<nat>, lives: seq<Life>, img: Image,
                           size: nat, w: W, noise: nat -> int, b: nat, i: nat, u: nat, d: nat)
    requires Shape(fn, f) && WellFormed(fn) && Safe(fn, locked, lives, img.asg) && 28 <= size && At(fn, b, i)
    requires forall v :: 0 <= v < |fn.sizes| ==> 1 <= fn.sizes[v] <= 3
    requires d in Defs(fn, InstrAt(fn, b, i)) && u in LiveBefore(fn, f.living, b, i + 1) && SameParm(img.asg, u, d) && u != d
    ensures var (s, t) := Blank(fn, img, size, w, b, i);
      !Agree(fn, f, img, IdealStep(fn, Ones(), s), MachineStep(fn, Ones(), img, noise, t))
  {
    hide *;
    var (s, t) := Blank(fn, img, size, w, b, i);
    NotTheLast(fn, f, b, i, u, d);
    DestIsDef(fn, InstrAt(fn, b, i));
    OneCell(fn, locked, lives, img, u, d);
    var before := OnesStep(fn, img, size, w, noise, b, i, d);
    BlankCell(fn, img, size, w, b, i, u);
    FirstOne(fn.sizes[d]);
    var s2, t2 := IdealStep(fn, Ones(), s), MachineStep(fn, Ones(), img, noise, t);
    StoreHere(before, Where(img, d), Fit([1, 1, 1], fn.sizes[d]));
    if Agree(fn, f, img, s2, t2) {
      OwnedIs(fn, u);
      LiveInPlace(fn, f, img, s2, t2, u);
      FirstCell(t2.mem, Where(img, u), fn.sizes[d], fn.sizes[u]);
    }
  }

  lemma OwnedIs(fn: Func, u: nat)
    ensures fn.Owned(u) <==> u < fn.nlocals + fn.nvalues
  {
  }

  lemma FirstCell(mem: seq<int>, a: nat, m: nat, n: nat)
    requires m > 0 && n > 0 && a + m <= |mem| && a + n <= |mem|
    ensures |Cells(mem, a, m)| == m && |Cells(mem, a, n)| == n && Cells(mem, a, m)[0] == Cells(mem, a, n)[0]
  {
  }

  /** Exactly the values that fit the rule are parked as arguments, if that is wanted and they have a life. */
  ghost predicate ParkedExactly(fn: Func, callStores: bool, locked: set<nat>, lives: seq<Life>, asg: Assignment)
    requires WellFormed(fn)
  {
    |asg.places| <= |lives| &&
    forall v: nat, k: nat :: v < |asg.places| ==>
      (asg.places[v] == AtParm(k) <==> callStores && lives[v] != [] && Parks(fn, locked, v, k))
  }

  /** What is parked fits the rule. */
  lemma ParkedByRule(fn: Func, locked: set<nat>, lives: seq<Life>, asg: Assignment, v: nat, k: nat)
    requires Safe(fn, locked, lives, asg) && v < |asg.places| && asg.places[v] == AtParm(k)
    ensures Parks(fn, locked, v, k)
  {
    assert PlaceSafe(fn, locked, lives, fn.sizes, asg, v);
  }

  lemma WantedIsReadable(fn: Func, f: Facts, locked0: set<nat>, b: nat, i: nat, v: nat)
    requires Invariant(fn, f, locked0) && Solved(fn, f, locked0) && At(fn, b, i) && v in LiveBefore(fn, f.living, b, i + 1)
    ensures Readable(fn, v, b, i + 1)
  {
    LiveIsReadable(fn, f.living, b, i + 1, v);
  }

  lemma RuleUndisturbed(fn: Func, f: Facts, locked0: set<nat>, locked: set<nat>, lives: seq<Life>, asg: Assignment)
    requires Invariant(fn, f, locked0) && Solved(fn, f, locked0) && Safe(fn, locked, lives, asg) && Undisturbed(fn, locked)
    ensures ParkedUndisturbed(fn, f, asg)
  {
    forall b: nat, i: nat, u: nat, d: nat
      | At(fn, b, i) && d in Defs(fn, InstrAt(fn, b, i)) && u in LiveBefore(fn, f.living, b, i + 1)
      ensures !SameParm(asg, u, d)
    {
      if SameParm(asg, u, d) {
        var k := asg.places[u].k;
        ParkedByRule(fn, locked, lives, asg, u, k);
        ParkedByRule(fn, locked, lives, asg, d, k);
        WantedIsReadable(fn, f, locked0, b, i, u);
      }
    }
  }

  lemma ReadableHasLife(fn: Func, f: Facts, locked0: set<nat>, lives: seq<Life>, b: nat, i: nat, v: nat)
    requires Invariant(fn, f, locked0) && Solved(fn, f, locked0) && Denotes(f, lives) && SelfLoopsClear(fn)
    requires At(fn, b, i) && At(fn, b, i + 1) && Readable(fn, v, b, i + 1)
    ensures v in LiveBefore(fn, f.living, b, i + 1) && v < |lives| && lives[v] != []
  {
    LiveAfterIs(fn, f, locked0, b, i, v);
    hide Readable, SelfLoopsClear, Invariant;
    LiveHasLife(fn, f, locked0, lives, b, i + 1, v);
  }

  /** Where the rule decides what is parked, what it parks is undisturbed if and only if the places chosen are. */
  lemma UndisturbedIff(fn: Func, f: Facts, locked0: set<nat>, locked: set<nat>, lives: seq<Life>, asg: Assignment, callStores: bool)
    requires Invariant(fn, f, locked0) && Solved(fn, f, locked0) && Denotes(f, lives) && SelfLoopsClear(fn)
    requires Safe(fn, locked, lives, asg) && ParkedExactly(fn, callStores, locked, lives, asg)
    ensures ParkedUndisturbed(fn, f, asg) <==> (callStores ==> Undisturbed(fn, locked))
  {
    if !callStores {
      NothingParked(fn, locked, lives, asg);
      UnparkedUndisturbed(fn, f, asg);
    } else {
      if Undisturbed(fn, locked) {
        RuleUndisturbed(fn, f, locked0, locked, lives, asg);
      }
      if ParkedUndisturbed(fn, f, asg) {
        forall b: nat, i: nat, u: nat, d: nat, k: nat
          | At(fn, b, i) && d in Defs(fn, InstrAt(fn, b, i)) && Readable(fn, u, b, i + 1) && u != d
          ensures !(Parks(fn, locked, u, k) && Parks(fn, locked, d, k))
        {
          if Parks(fn, locked, u, k) && Parks(fn, locked, d, k) {
            NotLastIfReadable(fn, u, b, i, d);
            ReadableHasLife(fn, f, locked0, lives, b, i, u);
            LiveHasLife(fn, f, locked0, lives, b, i, d);
            ParksOwned(fn, locked, lives, asg, u, k);
            ParksOwned(fn, locked, lives, asg, d, k);
            assert asg.places[u] == AtParm(k) && asg.places[d] == AtParm(k);
            assert SameParm(asg, u, d);
          }
        }
      }
    }
  }

  lemma ParksOwned(fn: Func, locked: set<nat>, lives: seq<Life>, asg: Assignment, v: nat, k: nat)
    requires Safe(fn, locked, lives, asg) && Parks(fn, locked, v, k)
    ensures v < |asg.places|
  {
  }

  predicate NoneParked(asg: Assignment) {
    forall v :: 0 <= v < |asg.places| ==> !asg.places[v].AtParm?
  }

  lemma UnparkedUndisturbed(fn: Func, f: Facts, asg: Assignment)
    requires Shape(fn, f) && NoneParked(asg)
    ensures ParkedUndisturbed(fn, f, asg)
  {
  }

  lemma NothingParked(fn: Func, locked: set<nat>, lives: seq<Life>, asg: Assignment)
    requires WellFormed(fn) && ParkedExactly(fn, false, locked, lives, asg)
    ensures NoneParked(asg)
  {
    assert forall v: nat, k: nat :: v < |asg.places| ==> asg.places[v] != AtParm(k);
  }

  lemma NotLastIfReadable(fn: Func, u: nat, b: nat, i: nat, d: nat)
    requires WellFormed(fn) && At(fn, b, i) && d in Defs(fn, InstrAt(fn, b, i)) && Readable(fn, u, b, i + 1)
    ensures At(fn, b, i + 1)
  {
    assert WellFormedBlock(fn, fn.blocks[b]);
    OneDef(fn, InstrAt(fn, b, i), d, d);
    if i + 1 == |fn.blocks[b].instrs| {
      assert Terminates(InstrAt(fn, b, i).op);
      NothingAfterLastCall(fn, u, b, i);
    }
  }

  lemma PlacedIsCompiled(fn: Func, f: Facts, locked0: set<nat>, locked: set<nat>, lives: seq<Life>, img: Image)
    requires SafelyPlaced(fn, f, locked0, locked, lives, img)
    ensures WellFormed(fn) && Shape(fn, f) && Safe(fn, locked, lives, img.asg)
    ensures ParkedUndisturbed(fn, f, img.asg) ==> Compiled(fn, f, locked0, locked, lives, img)
    ensures forall v :: 0 <= v < |fn.sizes| ==> 1 <= fn.sizes[v] <= 3
  {
    ClearIsHarmless(fn, f, locked0);
    hide Solved, Denotes, SelfLoopsHarmless, SelfLoopsClear, RegionsApart, ParkedUndisturbed, Safe, WellFormed, Readable, LiveBefore;
  }

  lemma FitsIsEnough(fn: Func, img: Image, size: nat)
    requires SlotMachine.Fits(fn, img, size)
    ensures 28 <= size
  {
  }

  lemma DisturbedSomewhere(fn: Func, f: Facts, asg: Assignment) returns (b: nat, i: nat, u: nat, d: nat)
    requires Shape(fn, f) && !ParkedUndisturbed(fn, f, asg)
    ensures At(fn, b, i) && d in Defs(fn, InstrAt(fn, b, i)) && u in LiveBefore(fn, f.living, b, i + 1) && SameParm(asg, u, d) && u != d
  {
    b, i, u, d :| At(fn, b, i) && d in Defs(fn, InstrAt(fn, b, i)) && u in LiveBefore(fn, f.living, b, i + 1) && SameParm(asg, u, d);
  }

  lemma KeepsIff<W(!new)>(fn: Func, f: Facts, locked0: set<nat>, locked: set<nat>, lives: seq<Life>, img: Image, size: nat, w: W)
    requires SafelyPlaced(fn, f, locked0, locked, lives, img) && Shape(fn, f) && SlotMachine.Fits(fn, img, size)
    ensures StepsKeepAgreement<W>(fn, f, img) <==> ParkedUndisturbed(fn, f, img.asg)
  {
    hide SafelyPlaced, ParkedUndisturbed, Compiled, Shape, SlotMachine.Fits, Agree, IdealStep, MachineStep, Loaded, WellFormed, Safe, Defs,
         LiveBefore, SameParm;
    PlacedIsCompiled(fn, f, locked0, locked, lives, img);
    if ParkedUndisturbed(fn, f, img.asg) {
      forall sem: Semantics<W>, noise: nat -> int, s: Ideal<W>, t: Machine<W> | Agree(fn, f, img, s, t)
        ensures Agree(fn, f, img, IdealStep(fn, sem, s), MachineStep(fn, sem, img, noise, t))
      {
        StepAgrees(fn, f, locked0, locked, lives, img, sem, noise, s, t);
      }
    } else {
      var b, i, u, d := DisturbedSomewhere(fn, f, img.asg);
      var (s, t) := Blank(fn, img, size, w, b, i);
      FitsIsEnough(fn, img, size);
      LoadedAgrees(fn, f, img, Zeros(size), w, b, i);
      DisturbedIsLost(fn, f, locked, lives, img, size, w, (a: nat) => 0, b, i, u, d);
    }
  }

  /**
   * Steps keep agreeing, whatever instructions compute, if and only if no two values that fit the rule
   * are written and wanted in turn: if the rule is applied at all.
   */
  lemma AgreementKeptIff<W(!new)>(fn: Func, f: Facts, locked0: set<nat>, locked: set<nat>, lives: seq<Life>, img: Image,
                                  callStores: bool, size: nat, w: W)
    requires SafelyPlaced(fn, f, locked0, locked, lives, img) && SlotMachine.Fits(fn, img, size)
    requires ParkedExactly(fn, callStores, locked, lives, img.asg)
    ensures StepsKeepAgreement<W>(fn, f, img) <==> (callStores ==> Undisturbed(fn, locked))
  {
    hide StepsKeepAgreement, ParkedUndisturbed, Undisturbed, ParkedExactly;
    UndisturbedIff(fn, f, locked0, locked, lives, img.asg, callStores);
    PlacedIsCompiled(fn, f, locked0, locked, lives, img);
    KeepsIff(fn, f, locked0, locked, lives, img, size, w);
  }

  // ----- arguments computed in the block of their call -----

  /** v is written only at (b, w) and read only at (b, r), further down in the same block. */
  ghost predicate Straight(fn: Func, v: nat, b: nat, w: nat, r: nat)
    requires WellFormed(fn)
  {
    && w < r && At(fn, b, r) && v in Uses(fn, InstrAt(fn, b, r))
    && (forall c: nat, j: nat :: At(fn, c, j) && v in Uses(fn, InstrAt(fn, c, j)) ==> c == b && j == r)
    && v in Defs(fn, InstrAt(fn, b, w))
    && (forall c: nat, j: nat :: At(fn, c, j) && v in Defs(fn, InstrAt(fn, c, j)) ==> c == b && j == w)
  }

  lemma {:induction false} NeverReadableFromEntry(fn: Func, v: nat, b: nat, w: nat, r: nat, c: nat, i: nat, n: nat)
    requires WellFormed(fn) && Straight(fn, v, b, w, r) && c < |fn.blocks| && i <= |fn.blocks[c].instrs|
    requires c == b ==> i <= w || i > r
    ensures !ReadOnPath(fn, v, c, i, n)
    decreases n, |fn.blocks[c].instrs| - i
  {
    hide Uses, Defs, WellFormedInstr, WellFormedBlock;
    if i == |fn.blocks[c].instrs| {
      if n > 0 {
        forall k | 0 <= k < |fn.blocks[c].exits| && LeadsTo(fn, c, k)
          ensures !ReadOnPath(fn, v, fn.blocks[c].exits[k], 0, n - 1)
        {
          NeverReadableFromEntry(fn, v, b, w, r, fn.blocks[c].exits[k], 0, n - 1);
        }
      }
    } else {
      assert At(fn, c, i) && InstrAt(fn, c, i) == fn.blocks[c].instrs[i];
      if !(c == b && i == w) {
        NeverReadableFromEntry(fn, v, b, w, r, c, i + 1, n);
      }
    }
  }

  lemma {:induction false} StraightStaysReadable(fn: Func, v: nat, b: nat, w: nat, r: nat, i: nat)
    requires WellFormed(fn) && Straight(fn, v, b, w, r) && w < i <= r
    ensures ReadOnPath(fn, v, b, i, 0)
    decreases r - i
  {
    hide Uses, Defs, WellFormedInstr, WellFormedBlock;
    assert At(fn, b, i) && InstrAt(fn, b, i) == fn.blocks[b].instrs[i];
    if i < r {
      StraightStaysReadable(fn, v, b, w, r, i + 1);
    }
  }

  /** Such an argument is bound for its call. */
  lemma StraightIsBound(fn: Func, v: nat, b: nat, w: nat, r: nat)
    requires WellFormed(fn) && Straight(fn, v, b, w, r)
    ensures BoundForCall(fn, v)
  {
    hide Uses, Defs, WellFormed, ReadOnPath;
    forall c: nat, i: nat | At(fn, c, i) && v in Defs(fn, InstrAt(fn, c, i)) ensures Readable(fn, v, c, i + 1) {
      StraightStaysReadable(fn, v, b, w, r, w + 1);
    }
    forall c: nat | c < |fn.blocks| ensures !Readable(fn, v, c, |fn.blocks[c].instrs|) {
      if n: nat :| ReadOnPath(fn, v, c, |fn.blocks[c].instrs|, n) {
        NeverReadableFromEntry(fn, v, b, w, r, c, |fn.blocks[c].instrs|, n);
      }
    }
  }

  // ----- arguments computed before a branch -----

  // The blocks between the write of an argument at (b, w) and the call that reads it at (c, r).
  datatype Stretch = Stretch(b: nat, w: nat, c: nat, r: nat, between: set<nat>, rank: map<nat, nat>)

  /** All ways from b stay in between until they reach c, nothing else leads there, and c is never out of reach. */
  ghost predicate Enclosed(fn: Func, v: nat, s: Stretch)
    requires WellFormed(fn)
  {
    && At(fn, s.b, s.w) && At(fn, s.c, s.r) && s.b !in s.between && s.c in s.between
    && v in Defs(fn, InstrAt(fn, s.b, s.w)) && v in Uses(fn, InstrAt(fn, s.c, s.r))
    && (forall e: nat, j: nat :: At(fn, e, j) && v in Defs(fn, InstrAt(fn, e, j)) ==> e == s.b && j == s.w)
    && (forall e: nat, j: nat :: At(fn, e, j) && v in Uses(fn, InstrAt(fn, e, j)) ==> e == s.c && j == s.r)
    && (forall e: nat, k: nat :: e < |fn.blocks| && k < |fn.blocks[e].exits| && LeadsTo(fn, e, k) ==>
          (fn.blocks[e].exits[k] in s.between <==> e == s.b || (e in s.between && e != s.c)))
    && s.between <= s.rank.Keys
    && (forall e: nat :: (e == s.b || (e in s.between && e != s.c)) ==> e < |fn.blocks| && GetsCloser(fn, s, e))
  }

  ghost predicate GetsCloser(fn: Func, s: Stretch, e: nat)
    requires e < |fn.blocks| && s.between <= s.rank.Keys
  {
    exists k: nat :: k < |fn.blocks[e].exits| && LeadsTo(fn, e, k) && fn.blocks[e].exits[k] in s.between
      && (e in s.between ==> s.rank[fn.blocks[e].exits[k]] < s.rank[e])
  }

  lemma {:induction false} NotYetRead(fn: Func, v: nat, e: nat, i: nat, n: nat)
    requires WellFormed(fn) && e < |fn.blocks| && i <= |fn.blocks[e].instrs|
    requires forall j: nat :: i <= j && At(fn, e, j) ==> v !in Defs(fn, InstrAt(fn, e, j))
    requires ReadOnPath(fn, v, e, |fn.blocks[e].instrs|, n)
    ensures ReadOnPath(fn, v, e, i, n)
    decreases |fn.blocks[e].instrs| - i
  {
    hide Uses, Defs, WellFormedInstr, WellFormedBlock;
    if i < |fn.blocks[e].instrs| {
      assert At(fn, e, i) && InstrAt(fn, e, i) == fn.blocks[e].instrs[i];
      NotYetRead(fn, v, e, i + 1, n);
    }
  }

  lemma {:induction false} ReadInBlock(fn: Func, v: nat, e: nat, i: nat, r: nat)
    requires WellFormed(fn) && At(fn, e, r) && i <= r && v in Uses(fn, InstrAt(fn, e, r))
    requires forall j: nat :: i <= j && At(fn, e, j) ==> v !in Defs(fn, InstrAt(fn, e, j))
    ensures ReadOnPath(fn, v, e, i, 0)
    decreases r - i
  {
    hide Uses, Defs, WellFormedInstr, WellFormedBlock;
    assert At(fn, e, i) && InstrAt(fn, e, i) == fn.blocks[e].instrs[i];
    if i < r {
      ReadInBlock(fn, v, e, i + 1, r);
    }
  }

  lemma EndReads(fn: Func, v: nat, e: nat, k: nat)
    requires WellFormed(fn) && e < |fn.blocks| && k < |fn.blocks[e].exits| && LeadsTo(fn, e, k) && Readable(fn, v, fn.blocks[e].exits[k], 0)
    ensures Readable(fn, v, e, |fn.blocks[e].instrs|)
  {
    var n: nat :| ReadOnPath(fn, v, fn.blocks[e].exits[k], 0, n);
    assert ReadOnPath(fn, v, fn.blocks[e].exits[k], 0, n + 1 - 1);
    assert ReadOnPath(fn, v, e, |fn.blocks[e].instrs|, n + 1);
  }

  /** From all blocks in between, the call is still to come. */
  lemma {:induction false} StillToCome(fn: Func, v: nat, s: Stretch, e: nat)
    requires WellFormed(fn) && Enclosed(fn, v, s) && e in s.between
    ensures e < |fn.blocks| && Readable(fn, v, e, 0)
    decreases s.rank[e]
  {
    hide Uses, Defs, WellFormed, ReadOnPath;
    if e == s.c {
      ReadInBlock(fn, v, e, 0, s.r);
    } else {
      assert GetsCloser(fn, s, e);
      var k: nat :| k < |fn.blocks[e].exits| && LeadsTo(fn, e, k) && fn.blocks[e].exits[k] in s.between
        && s.rank[fn.blocks[e].exits[k]] < s.rank[e];
      StillToCome(fn, v, s, fn.blocks[e].exits[k]);
      EndReads(fn, v, e, k);
      var n: nat :| ReadOnPath(fn, v, e, |fn.blocks[e].instrs|, n);
      NotYetRead(fn, v, e, 0, n);
    }
  }

  lemma AfterWriteReads(fn: Func, v: nat, s: Stretch)
    requires WellFormed(fn) && Enclosed(fn, v, s)
    ensures Readable(fn, v, s.b, s.w + 1)
  {
    hide Uses, Defs, WellFormed, ReadOnPath;
    assert GetsCloser(fn, s, s.b);
    var k: nat :| k < |fn.blocks[s.b].exits| && LeadsTo(fn, s.b, k) && fn.blocks[s.b].exits[k] in s.between;
    StillToCome(fn, v, s, fn.blocks[s.b].exits[k]);
    EndReads(fn, v, s.b, k);
    var n: nat :| ReadOnPath(fn, v, s.b, |fn.blocks[s.b].instrs|, n);
    NotYetRead(fn, v, s.b, s.w + 1, n);
  }

  lemma {:induction false} NeverReadOutside(fn: Func, v: nat, s: Stretch, e: nat, i: nat, n: nat)
    requires WellFormed(fn) && Enclosed(fn, v, s) && e < |fn.blocks| && i <= |fn.blocks[e].instrs|
    requires (e !in s.between && (e == s.b ==> i <= s.w)) || (e == s.c && i > s.r)
    ensures !ReadOnPath(fn, v, e, i, n)
    decreases n, |fn.blocks[e].instrs| - i
  {
    hide Uses, Defs, WellFormedInstr, WellFormedBlock, GetsCloser;
    if i == |fn.blocks[e].instrs| {
      if n > 0 {
        forall k | 0 <= k < |fn.blocks[e].exits| && LeadsTo(fn, e, k)
          ensures !ReadOnPath(fn, v, fn.blocks[e].exits[k], 0, n - 1)
        {
          NeverReadOutside(fn, v, s, fn.blocks[e].exits[k], 0, n - 1);
        }
      }
    } else {
      assert At(fn, e, i) && InstrAt(fn, e, i) == fn.blocks[e].instrs[i];
      if !(e == s.b && i == s.w) {
        NeverReadOutside(fn, v, s, e, i + 1, n);
      }
    }
  }

  /** Such an argument is bound for its call too, as in a call whose later arguments hold a branch. */
  lemma EnclosedIsBound(fn: Func, v: nat, s: Stretch)
    requires WellFormed(fn) && Enclosed(fn, v, s)
    ensures BoundForCall(fn, v)
  {
    hide Uses, Defs, WellFormed, ReadOnPath, GetsCloser;
    AfterWriteReads(fn, v, s);
    forall b: nat, k: nat
      | b < |fn.blocks| && Readable(fn, v, b, |fn.blocks[b].instrs|) && k < |fn.blocks[b].exits| && LeadsTo(fn, b, k)
      ensures Readable(fn, v, fn.blocks[b].exits[k], 0)
    {
      if b == s.b || (b in s.between && b != s.c) {
        StillToCome(fn, v, s, fn.blocks[b].exits[k]);
      } else {
        var n: nat :| ReadOnPath(fn, v, b, |fn.blocks[b].instrs|, n);
        NeverReadOutside(fn, v, s, b, |fn.blocks[b].instrs|, n);
      }
    }
  }

  /** v is computed once and passed once, straight away or with branches in between. */
  ghost predicate OnItsWay(fn: Func, v: nat)
    requires WellFormed(fn)
  {
    (exists b: nat, w: nat, r: nat :: Straight(fn, v, b, w, r)) || exists s: Stretch :: Enclosed(fn, v, s)
  }

  /** So such arguments never disturb each other. */
  lemma OnItsWayIsUndisturbed(fn: Func, locked: set<nat>)
    requires WellFormed(fn) && Kept(fn) <= locked
    requires forall v: nat, k: nat :: Parks(fn, locked, v, k) ==> OnItsWay(fn, v)
    ensures Undisturbed(fn, locked)
  {
    hide Parks, BoundForCall, KeptAcross, Undisturbed, Straight, Enclosed, Kept;
    forall v: nat, k: nat | Parks(fn, locked, v, k) ensures BoundForCall(fn, v) {
      if b: nat, w: nat, r: nat :| Straight(fn, v, b, w, r) {
        StraightIsBound(fn, v, b, w, r);
      } else {
        var s: Stretch :| Enclosed(fn, v, s);
        EnclosedIsBound(fn, v, s);
      }
    }
    BoundIsUndisturbed(fn, locked);
  }
}
