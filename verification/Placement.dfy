// Where each value of a function ends up, and what makes such a placement safe.

module Placement {
  import opened Ir
  import opened Wrappers
  import opened Liveness
  import opened LifeRanges
  import opened Interference
  import opened SlotAllocator
  import opened Sums
  import opened Reserved

  // The optimizations that decide between the kinds of place.
  datatype Options = Options(globalTemps: bool, localTemps: bool, callStores: bool)

  // A slot saved across calls, a slot of the shared temporaries, the cell of
  // argument k, the cell of call results, or no place because there is no life.
  datatype Place = Nowhere | InLock(slot: nat) | InTemps(slot: nat) | AtParm(k: nat) | AtReturn

  // The outcome of the allocation: every value's place, and the slots of both allocators.
  datatype Assignment = Assignment(
    places: seq<Place>,
    locks: seq<set<nat>>, lockSizes: seq<nat>,
    temps: seq<set<nat>>, tempSizes: seq<nat>)

  // ----- where a value is read and written -----

  type Sites = seq<(nat, nat)>

  function OpCount(ins: Instr, v: nat, n: nat): nat
    requires n <= |ins.ops|
  {
    if n == 0 then 0
    else OpCount(ins, v, n - 1) + if Reads(ins.op, n - 1) && ins.ops[n - 1] == Some(v) then 1 else 0
  }

  function ArgCount(params: seq<nat>, v: nat): nat {
    if params == [] then 0 else ArgCount(params[..|params| - 1], v) + if params[|params| - 1] == v then 1 else 0
  }

  function ReadCount(ins: Instr, v: nat): nat
    requires |ins.ops| == 3
  {
    OpCount(ins, v, 3) + ArgCount(ins.params, v)
  }

  function WriteCount(ins: Instr, v: nat): nat
    requires |ins.ops| == 3
  {
    if Writes(ins.op, 0) && ins.ops[0] == Some(v) then 1 else 0
  }

  /** The reads the value object lists are its reads in the code, each as often as it occurs. */
  ghost predicate ListsReads(fn: Func, v: nat, sites: Sites)
    requires WellFormed(fn)
  {
    && (forall s :: s in sites ==> At(fn, s.0, s.1))
    && forall b: nat, i: nat :: At(fn, b, i) ==> multiset(sites)[(b, i)] == ReadCount(InstrAt(fn, b, i), v)
  }

  ghost predicate ListsWrites(fn: Func, v: nat, sites: Sites)
    requires WellFormed(fn)
  {
    && (forall s :: s in sites ==> At(fn, s.0, s.1))
    && forall b: nat, i: nat :: At(fn, b, i) ==> multiset(sites)[(b, i)] == WriteCount(InstrAt(fn, b, i), v)
  }

  function InstrAt(fn: Func, b: nat, i: nat): (ins: Instr)
    requires WellFormed(fn) && At(fn, b, i)
    ensures WellFormedInstr(fn, ins)
  {
    assert WellFormedBlock(fn, fn.blocks[b]);
    fn.blocks[b].instrs[i]
  }

  predicate IsCall(op: Opcode) {
    op.Call? || op.NrCall?
  }

  /** v is written by the instruction at (b, i) and by no other. */
  ghost predicate OnlyWrittenAt(fn: Func, v: nat, b: nat, i: nat)
    requires WellFormed(fn)
  {
    && At(fn, b, i) && WriteCount(InstrAt(fn, b, i), v) == 1
    && forall c: nat, j: nat :: At(fn, c, j) && WriteCount(InstrAt(fn, c, j), v) > 0 ==> c == b && j == i
  }

  ghost predicate WrittenOnce(fn: Func, v: nat)
    requires WellFormed(fn)
  {
    exists b: nat, i: nat :: OnlyWrittenAt(fn, v, b, i)
  }

  /** v is read by the instruction at (b, i), once, and by no other. */
  ghost predicate OnlyReadAt(fn: Func, v: nat, b: nat, i: nat)
    requires WellFormed(fn)
  {
    && At(fn, b, i) && ReadCount(InstrAt(fn, b, i), v) == 1
    && forall c: nat, j: nat :: At(fn, c, j) && ReadCount(InstrAt(fn, c, j), v) > 0 ==> c == b && j == i
  }

  /** A call reads v, and nothing else does, but not as an argument: v is the function called. */
  ghost predicate OnlyCalled(fn: Func, v: nat)
    requires WellFormed(fn)
  {
    exists b: nat, i: nat :: OnlyCalledAt(fn, v, b, i)
  }

  ghost predicate OnlyCalledAt(fn: Func, v: nat, b: nat, i: nat)
    requires WellFormed(fn)
  {
    OnlyReadAt(fn, v, b, i) && IsCall(InstrAt(fn, b, i).op) && v !in InstrAt(fn, b, i).params
  }

  ghost predicate OnlyPassedAs(fn: Func, v: nat, k: nat)
    requires WellFormed(fn)
  {
    exists b: nat, i: nat :: OnlyReadAsArgument(fn, v, b, i, k)
  }

  /** The single read of v is argument k of the call at (b, i). */
  ghost predicate OnlyReadAsArgument(fn: Func, v: nat, b: nat, i: nat, k: nat)
    requires WellFormed(fn)
  {
    && At(fn, b, i) && IsCall(InstrAt(fn, b, i).op)
    && k < |InstrAt(fn, b, i).params|
    && (forall c: nat, j: nat :: At(fn, c, j) && v in Uses(fn, InstrAt(fn, c, j)) ==> c == b && j == i)
    && v !in OpUses(fn, InstrAt(fn, b, i))
    && forall p :: 0 <= p < |InstrAt(fn, b, i).params| ==> (InstrAt(fn, b, i).params[p] == v <==> p == k)
  }

  ghost predicate OnlyWrittenByCalls(fn: Func, v: nat)
    requires WellFormed(fn)
  {
    forall b: nat, i: nat :: At(fn, b, i) && v in Defs(fn, InstrAt(fn, b, i)) ==> InstrAt(fn, b, i).op.Call?
  }

  lemma {:induction false} OpCounted(fn: Func, ins: Instr, v: nat, n: nat)
    requires n <= |ins.ops| && OpCount(ins, v, n) == 0
    ensures v !in OpUsesTo(fn, ins, n)
  {
    if n > 0 {
      OpCounted(fn, ins, v, n - 1);
    }
  }

  lemma {:induction false} ArgCounted(params: seq<nat>, v: nat, k: nat)
    requires k < |params| && params[k] == v
    ensures ArgCount(params, v) >= 1
    ensures ArgCount(params, v) == 1 ==> forall p :: 0 <= p < |params| && p != k ==> params[p] != v
  {
    var front := params[..|params| - 1];
    if k < |front| {
      ArgCounted(front, v, k);
    } else if p :| 0 <= p < |front| && front[p] == v {
      ArgCounted(front, v, p);
    }
    assert forall p :: 0 <= p < |front| ==> params[p] == front[p];
  }

  /** What a one-element list of reads says, once that read is found among a call's arguments. */
  lemma SingleReadIsArgument(fn: Func, v: nat, sites: Sites, k: nat)
    requires WellFormed(fn) && ListsReads(fn, v, sites) && |sites| == 1
    requires IsCall(InstrAt(fn, sites[0].0, sites[0].1).op)
    requires k < |InstrAt(fn, sites[0].0, sites[0].1).params| && InstrAt(fn, sites[0].0, sites[0].1).params[k] == v
    ensures OnlyReadAsArgument(fn, v, sites[0].0, sites[0].1, k)
  {
    var (b, i) := sites[0];
    var ins := InstrAt(fn, b, i);
    assert sites == [sites[0]];
    assert multiset(sites)[(b, i)] == 1;
    ArgCounted(ins.params, v, k);
    OpCounted(fn, ins, v, 3);
    forall c: nat, j: nat | At(fn, c, j) && v in Uses(fn, InstrAt(fn, c, j)) ensures c == b && j == i {
      UsedIsCounted(fn, InstrAt(fn, c, j), v);
      assert multiset(sites)[(c, j)] >= 1;
    }
  }

  lemma UsedIsCounted(fn: Func, ins: Instr, v: nat)
    requires |ins.ops| == 3 && v in Uses(fn, ins)
    ensures ReadCount(ins, v) >= 1
  {
    if OpCount(ins, v, 3) == 0 {
      OpCounted(fn, ins, v, 3);
      var p :| 0 <= p < |ins.params| && ins.params[p] == v;
      ArgCounted(ins.params, v, p);
    }
  }

  lemma SingleSite(sites: Sites, b: nat, i: nat)
    requires multiset(sites)[(b, i)] == 1 && forall s :: s in sites ==> s == (b, i)
    ensures sites == [(b, i)]
  {
    forall s ensures multiset(sites)[s] == multiset{(b, i)}[s] {
      if s in multiset(sites) {
        assert s in sites;
      }
    }
    assert multiset(sites) == multiset{(b, i)};
    assert |multiset(sites)| == |sites|;
  }

  /** A list of writes has one element if and only if there is one write. */
  lemma SingleWriteIsOnce(fn: Func, v: nat, sites: Sites)
    requires WellFormed(fn) && ListsWrites(fn, v, sites)
    ensures |sites| == 1 <==> WrittenOnce(fn, v)
    ensures forall b: nat, i: nat :: OnlyWrittenAt(fn, v, b, i) ==> sites == [(b, i)]
  {
    if |sites| == 1 {
      var (b, i) := sites[0];
      assert sites == [sites[0]];
      assert multiset(sites)[(b, i)] == 1;
      assert OnlyWrittenAt(fn, v, b, i);
    }
    forall b: nat, i: nat | OnlyWrittenAt(fn, v, b, i) ensures sites == [(b, i)] {
      forall s | s in sites ensures s == (b, i) {
        assert multiset(sites)[(s.0, s.1)] > 0;
      }
      SingleSite(sites, b, i);
    }
  }

  /** And a list of reads has one element if and only if there is one read. */
  lemma SingleReadIsOnce(fn: Func, v: nat, sites: Sites)
    requires WellFormed(fn) && ListsReads(fn, v, sites)
    ensures |sites| == 1 ==> OnlyReadAt(fn, v, sites[0].0, sites[0].1)
    ensures forall b: nat, i: nat :: OnlyReadAt(fn, v, b, i) ==> sites == [(b, i)]
  {
    hide ReadCount, WellFormed;
    if |sites| == 1 {
      var (b, i) := sites[0];
      assert sites == [sites[0]];
      assert multiset(sites)[(b, i)] == 1;
    }
    forall b: nat, i: nat | OnlyReadAt(fn, v, b, i) ensures sites == [(b, i)] {
      forall s | s in sites ensures s == (b, i) {
        assert multiset(sites)[(s.0, s.1)] > 0;
      }
      SingleSite(sites, b, i);
    }
  }

  lemma {:induction false} OpNotCounted(fn: Func, ins: Instr, v: nat, n: nat)
    requires WellFormedInstr(fn, ins) && n <= 3 && v !in OpUses(fn, ins) && v < |fn.stores| && (fn.Tracked(v) || fn.stores[v].ReturnCell?)
    ensures OpCount(ins, v, n) == 0
  {
    if n > 0 {
      OpNotCounted(fn, ins, v, n - 1);
    }
  }

  lemma {:induction false} ArgNotCounted(params: seq<nat>, v: nat)
    requires v !in params
    ensures ArgCount(params, v) == 0
  {
    if params != [] {
      ArgNotCounted(params[..|params| - 1], v);
    }
  }

  lemma {:induction false} ArgCountedOnce(params: seq<nat>, v: nat, k: nat)
    requires k < |params| && forall p :: 0 <= p < |params| ==> (params[p] == v <==> p == k)
    ensures ArgCount(params, v) == 1
  {
    if k == |params| - 1 {
      ArgNotCounted(params[..k], v);
    } else {
      ArgCountedOnce(params[..|params| - 1], v, k);
    }
  }

  /** The other way round: a temporary that is read only as an argument has one read in its list. */
  lemma ArgumentIsSingleRead(fn: Func, v: nat, sites: Sites, b: nat, i: nat, k: nat)
    requires WellFormed(fn) && ListsReads(fn, v, sites) && fn.nlocals <= v < fn.nlocals + fn.nvalues
    requires OnlyReadAsArgument(fn, v, b, i, k)
    ensures sites == [(b, i)]
  {
    ArgCountedOnce(InstrAt(fn, b, i).params, v, k);
    OpNotCounted(fn, InstrAt(fn, b, i), v, 3);
    forall s | s in sites ensures s == (b, i) {
      var ins := InstrAt(fn, s.0, s.1);
      assert multiset(sites)[(s.0, s.1)] > 0;
      if v !in Uses(fn, ins) {
        OpNotCounted(fn, ins, v, 3);
        ArgNotCounted(ins.params, v);
      }
    }
    SingleSite(sites, b, i);
  }

  lemma SingleWriteIsCall(fn: Func, v: nat, sites: Sites)
    requires WellFormed(fn) && ListsWrites(fn, v, sites) && |sites| == 1
    requires InstrAt(fn, sites[0].0, sites[0].1).op.Call?
    ensures OnlyWrittenByCalls(fn, v)
  {
    forall b: nat, i: nat | At(fn, b, i) && v in Defs(fn, InstrAt(fn, b, i)) ensures InstrAt(fn, b, i).op.Call? {
      OneDef(fn, InstrAt(fn, b, i), v, v);
      assert multiset(sites)[(b, i)] == 1;
      assert sites == [sites[0]];
    }
  }

  // ----- what a placement must satisfy -----

  ghost predicate ParkedArgument(fn: Func, v: nat, k: nat)
    requires WellFormed(fn)
  {
    fn.nlocals <= v && k < 8 && WrittenOnce(fn, v) && OnlyPassedAs(fn, v, k)
  }

  ghost predicate PlaceSafe(fn: Func, locked: set<nat>, lives: seq<Life>, need: seq<nat>, asg: Assignment, v: nat)
    requires WellFormed(fn) && v < |asg.places| && v < |lives|
  {
    match asg.places[v]
    case Nowhere => lives[v] == []
    case InLock(a) => a < |asg.locks| && v in asg.locks[a]
    case InTemps(a) => a < |asg.temps| && v in asg.temps[a] && v !in locked
    case AtParm(k) => v !in locked && ParkedArgument(fn, v, k)
    case AtReturn => v !in locked && OnlyWrittenByCalls(fn, v)
  }

  /** No two occupants of a slot clash, and each fits into it. */
  ghost predicate SlotsSafe(lives: seq<Life>, need: seq<nat>, slots: seq<set<nat>>, sizes: seq<nat>) {
    && |slots| == |sizes| && |need| == |lives|
    && (forall a, u :: 0 <= a < |slots| && u in slots[a] ==> u < |lives| && need[u] <= sizes[a])
    && forall a, u, w :: 0 <= a < |slots| && u in slots[a] && w in slots[a] && u != w ==>
         u < |lives| && w < |lives| && !Overlap(lives[u], lives[w])
  }

  ghost predicate Safe(fn: Func, locked: set<nat>, lives: seq<Life>, asg: Assignment) {
    && WellFormed(fn)
    && |asg.places| == fn.nlocals + fn.nvalues <= |lives| == |fn.sizes|
    && SlotsSafe(lives, fn.sizes, asg.locks, asg.lockSizes)
    && SlotsSafe(lives, fn.sizes, asg.temps, asg.tempSizes)
    && forall v :: 0 <= v < |asg.places| ==> PlaceSafe(fn, locked, lives, fn.sizes, asg, v)
  }

  /** Parameter slots come first and keep their own size. */
  ghost predicate ParamsFirst(fn: Func, asg: Assignment) {
    && fn.nparams <= |asg.places| && fn.nparams <= |asg.lockSizes| && fn.nparams <= |fn.sizes|
    && forall p :: 0 <= p < fn.nparams ==> asg.places[p] == InLock(p) && asg.lockSizes[p] == fn.sizes[p]
  }

  // ----- addresses -----

  function Address(asg: Assignment, firstlocal: nat, firstglobal: nat, v: nat): nat
    requires v < |asg.places|
  {
    match asg.places[v]
    case InLock(a) => if a <= |asg.lockSizes| then firstlocal + Sum(asg.lockSizes[..a]) else 0
    case InTemps(a) => if a <= |asg.tempSizes| then firstglobal + Sum(asg.tempSizes[..a]) else 0
    case AtParm(k) => OFS_PARM0 + 3 * k
    case AtReturn => OFS_RETURN
    case Nowhere => 0
  }

  predicate Apart(a: nat, m: nat, c: nat, n: nat) {
    a + m <= c || c + n <= a
  }

  /** The reserved cells, the shared temporaries and the function's window do not meet. */
  predicate RegionsApart(asg: Assignment, firstlocal: nat, firstglobal: nat) {
    && 28 <= firstglobal && 28 <= firstlocal
    && Apart(firstglobal, Sum(asg.tempSizes), firstlocal, Sum(asg.lockSizes))
  }

  lemma PrefixFits(sizes: seq<nat>, a: nat)
    requires a < |sizes|
    ensures Sum(sizes[..a]) + sizes[a] <= Sum(sizes)
  {
    SumGrows(sizes, a, |sizes|);
    assert sizes[..|sizes|] == sizes;
  }

  lemma PrefixesApart(sizes: seq<nat>, a: nat, c: nat)
    requires a < |sizes| && c < |sizes| && a != c
    ensures Apart(Sum(sizes[..a]), sizes[a], Sum(sizes[..c]), sizes[c])
  {
    if a < c {
      SumGrows(sizes, a, c);
    } else {
      SumGrows(sizes, c, a);
    }
  }

  /** Values that clash have disjoint cells, unless both are parked. */
  lemma ClashingCellsApart(fn: Func, locked: set<nat>, lives: seq<Life>, asg: Assignment, firstlocal: nat, firstglobal: nat,
                           u: nat, v: nat)
    requires Safe(fn, locked, lives, asg) && RegionsApart(asg, firstlocal, firstglobal)
    requires u < |asg.places| && v < |asg.places| && u != v && Overlap(lives[u], lives[v])
    requires asg.places[u].InLock? || asg.places[u].InTemps? || asg.places[v].InLock? || asg.places[v].InTemps?
    requires fn.sizes[u] <= 3 && fn.sizes[v] <= 3
    ensures Apart(Address(asg, firstlocal, firstglobal, u), fn.sizes[u], Address(asg, firstlocal, firstglobal, v), fn.sizes[v])
  {
    assert PlaceSafe(fn, locked, lives, fn.sizes, asg, u) && PlaceSafe(fn, locked, lives, fn.sizes, asg, v);
    CellsInRegion(fn, locked, lives, asg, firstlocal, firstglobal, u);
    CellsInRegion(fn, locked, lives, asg, firstlocal, firstglobal, v);
    match (asg.places[u], asg.places[v])
    case (InLock(a), InLock(c)) =>
      assert a != c;
      PrefixesApart(asg.lockSizes, a, c);
    case (InTemps(a), InTemps(c)) =>
      assert a != c;
      PrefixesApart(asg.tempSizes, a, c);
    case _ =>
  }

  lemma CellsInRegion(fn: Func, locked: set<nat>, lives: seq<Life>, asg: Assignment, firstlocal: nat, firstglobal: nat, v: nat)
    requires Safe(fn, locked, lives, asg) && v < |asg.places| && lives[v] != []
    ensures var addr := Address(asg, firstlocal, firstglobal, v);
            match asg.places[v]
            case InLock(_) => firstlocal <= addr && addr + fn.sizes[v] <= firstlocal + Sum(asg.lockSizes)
            case InTemps(_) => firstglobal <= addr && addr + fn.sizes[v] <= firstglobal + Sum(asg.tempSizes)
            case AtParm(k) => addr == OFS_PARM0 + 3 * k && k < 8
            case AtReturn => addr == OFS_RETURN
            case Nowhere => false
  {
    assert PlaceSafe(fn, locked, lives, fn.sizes, asg, v);
    match asg.places[v]
    case InLock(a) => PrefixFits(asg.lockSizes, a);
    case InTemps(a) => PrefixFits(asg.tempSizes, a);
    case _ =>
  }
}
