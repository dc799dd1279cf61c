// Giving every value of a function its place: parameters, locals, temporaries.

module FunctionLocals {
  import opened Ir
  import opened Liveness
  import opened LifeRanges
  import opened IrValues
  import opened LifeAnalysis
  import opened Interference
  import opened SlotAllocator
  import opened Sums
  import opened Reserved
  import opened Placement

  ghost function Lives(values: seq<IrValue>): (lives: seq<Life>)
    reads values`life
    ensures |lives| == |values| && forall v :: 0 <= v < |values| ==> lives[v] == values[v].life
  {
    if values == [] then [] else Lives(values[..|values| - 1]) + [values[|values| - 1].life]
  }

  lemma LivesDenote(f: IrFunction)
    requires f.Valid()
    ensures Denotes(f.facts, Lives(f.values))
  {
  }

  /** The value object agrees with the place recorded for it. */
  ghost predicate Tied(value: IrValue, v: nat, place: Place, lock: seq<set<nat>>, temps: seq<set<nat>>)
    reads value`local, value`callParam, value`inReturn, value`codeAddress, value`life, value`locked
  {
    match place
    case Nowhere => !value.callParam && !value.inReturn && value.local == 0 && value.life == []
    case InLock(a) => !value.callParam && !value.inReturn && value.local == a && a < |lock| && v in lock[a]
    case InTemps(a) => !value.callParam && !value.inReturn && value.local == a && a < |temps| && v in temps[a] && !value.locked
    case AtParm(k) => value.callParam && !value.inReturn && value.local == 0 && !value.locked && value.codeAddress == OFS_PARM0 + 3 * k
    case AtReturn => value.inReturn && !value.callParam && value.local == 0 && !value.locked
  }

  ghost predicate Filed(slots: seq<set<nat>>, places: seq<Place>, lock: bool) {
    forall a: nat, u: nat {:trigger u in slots[a]} :: a < |slots| && u in slots[a] ==> u < |places| && places[u] == SlotPlace(lock, a)
  }

  function SlotPlace(lock: bool, a: nat): Place {
    if lock then InLock(a) else InTemps(a)
  }

  /** Two allocators whose slots are objects of their own. */
  ghost predicate Pair(f: IrFunction, a: FunctionAllocator, c: FunctionAllocator, lives: seq<Life>)
    reads a`locals, a`sizes, a`unique, a`occupants, c`locals, c`sizes, c`unique, c`occupants, a.locals`life, c.locals`life
  {
    && a != c
    && a.Valid(lives, f.fn.sizes) && c.Valid(lives, f.fn.sizes)
    && (forall i :: 0 <= i < |a.locals| ==> a.locals[i] !in f.values && a.locals[i] !in c.locals)
    && (forall i :: 0 <= i < |c.locals| ==> c.locals[i] !in f.values)
  }

  lemma PlacedFiled(slots: seq<set<nat>>, places: seq<Place>, lock: bool, v: nat, a: nat)
    requires Filed(slots, places, lock) && v == |places| && a <= |slots|
    ensures Filed(Placed(slots, v, a), places + [SlotPlace(lock, a)], lock)
    ensures a < |Placed(slots, v, a)| && v in Placed(slots, v, a)[a]
    ensures |slots| <= |Placed(slots, v, a)| && forall c :: 0 <= c < |slots| ==> slots[c] <= Placed(slots, v, a)[c]
  {
    var slots', places' := Placed(slots, v, a), places + [SlotPlace(lock, a)];
    forall c: nat, u: nat | c < |slots'| && u in slots'[c]
      ensures u < |places'| && places'[u] == SlotPlace(lock, c)
    {
      if c < |slots| && u in slots[c] {
        assert places'[u] == places[u];
      } else {
        assert u == v && c == a;
      }
    }
  }

  lemma OthersFiled(slots: seq<set<nat>>, places: seq<Place>, lock: bool, other: Place)
    requires Filed(slots, places, lock)
    ensures Filed(slots, places + [other], lock)
  {
    forall c: nat, u: nat | c < |slots| && u in slots[c]
      ensures u < |places + [other]| && (places + [other])[u] == SlotPlace(lock, c)
    {
      assert (places + [other])[u] == places[u];
    }
  }

  lemma FiledBelow(slots: seq<set<nat>>, places: seq<Place>, lock: bool)
    requires Filed(slots, places, lock)
    ensures forall a, u :: 0 <= a < |slots| && u in slots[a] ==> u < |places|
    ensures forall a :: 0 <= a < |slots| ==> |places| !in slots[a]
  {
  }

  lemma SlotsPointsApart(f: IrFunction, alloc: FunctionAllocator, v: nat,
                         lives: seq<Life>, facts: Facts, locked0: set<nat>)
    requires f.Built() && v < f.fn.nlocals + f.fn.nvalues && |lives| == |f.values| && alloc.Valid(lives, f.fn.sizes)
    requires forall a, u :: 0 <= a < |alloc.occupants| && u in alloc.occupants[a] ==> u < v
    requires v >= f.fn.nparams && Solved(f.fn, facts, locked0) && Denotes(facts, lives)
    ensures forall a :: 0 <= a < |alloc.locals| ==> PointsApart(lives[v], alloc.locals[a].life)
  {
    forall a | 0 <= a < |alloc.locals| ensures PointsApart(lives[v], alloc.locals[a].life) {
      assert SlotHolds(lives, f.fn.sizes, alloc.occupants[a], alloc.locals[a].life, alloc.sizes[a], alloc.unique[a]);
      PointsApartFromSlot(f.fn, facts, locked0, lives, v, alloc.occupants[a], alloc.locals[a].life);
    }
  }

  lemma PairParts(f: IrFunction, a: FunctionAllocator, c: FunctionAllocator, lives: seq<Life>, v: nat)
    requires Pair(f, a, c, lives) && f.Valid() && lives == Lives(f.values) && v < f.fn.nlocals + f.fn.nvalues
    requires forall i, u :: 0 <= i < |a.occupants| && u in a.occupants[i] ==> u < v
    ensures a != c && a.Valid(lives, f.fn.sizes) && c.Valid(lives, f.fn.sizes)
    ensures forall i :: 0 <= i < |a.locals| ==> a.locals[i] !in f.values && a.locals[i] !in c.locals
    ensures forall i :: 0 <= i < |c.locals| ==> c.locals[i] !in f.values
    ensures f.Built() && v < |lives| == |f.values| == |f.fn.sizes| && f.values[v].life == lives[v] && f.values[v] !in a.locals
    ensures forall i :: 0 <= i < |a.occupants| ==> v !in a.occupants[i]
    ensures |a.sizes| == |a.occupants| == |a.locals|
  {
  }

  lemma PairFrom(f: IrFunction, a: FunctionAllocator, c: FunctionAllocator, lives: seq<Life>, was: seq<IrValue>)
    requires a != c && a.Valid(lives, f.fn.sizes) && c.Valid(lives, f.fn.sizes)
    requires |was| <= |a.locals| && a.locals[..|was|] == was
    requires forall i :: 0 <= i < |was| ==> was[i] !in f.values && was[i] !in c.locals
    requires forall i :: |was| <= i < |a.locals| ==> a.locals[i] !in f.values && a.locals[i] !in c.locals
    requires forall i :: 0 <= i < |c.locals| ==> c.locals[i] !in f.values
    ensures Pair(f, a, c, lives) && |a.sizes| == |a.occupants|
  {
    assert forall i :: 0 <= i < |was| ==> a.locals[i] == was[i];
  }

  /** A slot of its own for v. */
  method PutOwn(f: IrFunction, alloc: FunctionAllocator, other: FunctionAllocator, v: nat, ghost lives: seq<Life>)
    returns (at: nat)
    requires f.Valid() && v < f.fn.nlocals + f.fn.nvalues && lives == Lives(f.values)
    requires Pair(f, alloc, other, lives)
    requires forall a, u :: 0 <= a < |alloc.occupants| && u in alloc.occupants[a] ==> u < v
    modifies alloc`locals, alloc`sizes, alloc`unique, alloc`occupants
    ensures f.Valid() && Pair(f, alloc, other, lives) && lives == Lives(f.values)
    ensures at == |old(alloc.occupants)| && alloc.occupants == Placed(old(alloc.occupants), v, at)
    ensures |f.fn.sizes| == |f.values| && alloc.sizes == old(alloc.sizes) + [f.fn.sizes[v]]
    ensures |alloc.sizes| == |alloc.occupants| && |old(alloc.sizes)| == |old(alloc.occupants)|
    ensures forall i :: |old(alloc.locals)| <= i < |alloc.locals| ==> fresh(alloc.locals[i])
    ensures |old(alloc.locals)| <= |alloc.locals| && alloc.locals[..|old(alloc.locals)|] == old(alloc.locals)
  {
    hide *;
    ghost var was, occupants := alloc.locals, alloc.occupants;
    PairParts(f, alloc, other, lives, v);
    at := alloc.Alloc(v, f.values[v], f.fn.sizes[v], lives, f.fn.sizes);
    PairFrom(f, alloc, other, lives, was);
    PlacedNew(occupants, v, at);
  }

  lemma PlacedNew(slots: seq<set<nat>>, v: nat, a: nat)
    requires a == |slots|
    ensures Placed(slots, v, a) == slots + [{v}]
  {
  }

  /** The first slot v fits into, or a new one. */
  method PutFitting(f: IrFunction, alloc: FunctionAllocator, other: FunctionAllocator, v: nat,
                    ghost lives: seq<Life>, ghost facts: Facts, ghost locked0: set<nat>)
    returns (at: nat)
    requires f.Valid() && v < f.fn.nlocals + f.fn.nvalues && lives == Lives(f.values)
    requires Pair(f, alloc, other, lives)
    requires forall a, u :: 0 <= a < |alloc.occupants| && u in alloc.occupants[a] ==> u < v
    requires v >= f.fn.nparams && Solved(f.fn, facts, locked0) && Denotes(facts, lives)
    modifies alloc`locals, alloc`sizes, alloc`unique, alloc`occupants, alloc.locals`life
    ensures f.Valid() && Pair(f, alloc, other, lives) && lives == Lives(f.values)
    ensures at <= |old(alloc.occupants)| && alloc.occupants == Placed(old(alloc.occupants), v, at)
    ensures |alloc.sizes| == |alloc.occupants| && |old(alloc.sizes)| == |old(alloc.occupants)| <= |alloc.sizes|
    ensures forall a :: 0 <= a < |old(alloc.sizes)| && a < f.fn.nparams ==> alloc.sizes[a] == old(alloc.sizes)[a]
    ensures forall i :: |old(alloc.locals)| <= i < |alloc.locals| ==> fresh(alloc.locals[i])
    ensures |old(alloc.locals)| <= |alloc.locals| && alloc.locals[..|old(alloc.locals)|] == old(alloc.locals)
  {
    hide *;
    ghost var was, occupants := alloc.locals, alloc.occupants;
    PairParts(f, alloc, other, lives, v);
    SlotsPointsApart(f, alloc, v, lives, facts, locked0);
    at := alloc.Assign(v, f.values[v], f.fn.sizes[v], f.fn.nparams, lives, f.fn.sizes);
    PairFrom(f, alloc, other, lives, was);
    PlacedLength(occupants, v, at);
  }

  lemma PlacedLength(slots: seq<set<nat>>, v: nat, a: nat)
    ensures |slots| <= |Placed(slots, v, a)|
  {
  }

  ghost predicate AllTied(values: seq<IrValue>, places: seq<Place>, lock: seq<set<nat>>, temps: seq<set<nat>>)
    reads set v | 0 <= v < |places| && v < |values| :: values[v]
  {
    |places| <= |values| && forall v :: 0 <= v < |places| ==> Tied(values[v], v, places[v], lock, temps)
  }

  ghost predicate Untouched(values: seq<IrValue>, n: nat)
    reads values`callParam, values`inReturn, values`local
  {
    forall v :: n <= v < |values| ==> !values[v].callParam && !values[v].inReturn && values[v].local == 0
  }

  /** The first |places| values have their places. */
  ghost predicate Progress(f: IrFunction, lock: FunctionAllocator, temps: FunctionAllocator, lives: seq<Life>, places: seq<Place>)
    reads f.values, lock, temps, lock.locals`life, temps.locals`life
  {
    && f.Built() && lives == Lives(f.values)
    && Pair(f, lock, temps, lives)
    && Filed(lock.occupants, places, true) && Filed(temps.occupants, places, false)
    && AllTied(f.values, places, lock.occupants, temps.occupants)
    && Untouched(f.values, |places|)
  }

  /** One more slot for v keeps the values already placed where they are. */
  lemma AllTiedStays(values: seq<IrValue>, places: seq<Place>, place: Place,
                     lock: seq<set<nat>>, temps: seq<set<nat>>, lock': seq<set<nat>>, temps': seq<set<nat>>)
    requires AllTied(values, places, lock, temps)
    requires |lock| <= |lock'| && forall c :: 0 <= c < |lock| ==> lock[c] <= lock'[c]
    requires |temps| <= |temps'| && forall c :: 0 <= c < |temps| ==> temps[c] <= temps'[c]
    requires |places| < |values| && Tied(values[|places|], |places|, place, lock', temps')
    ensures AllTied(values, places + [place], lock', temps')
  {
    forall v | 0 <= v < |places + [place]| ensures Tied(values[v], v, (places + [place])[v], lock', temps') {
      if v < |places| {
        assert Tied(values[v], v, places[v], lock, temps);
      }
    }
  }

  lemma PairSymmetric(f: IrFunction, a: FunctionAllocator, c: FunctionAllocator, lives: seq<Life>)
    requires Pair(f, a, c, lives)
    ensures Pair(f, c, a, lives)
  {
  }

  method SetLocal(f: IrFunction, v: nat, at: nat, ghost places: seq<Place>, ghost lock: seq<set<nat>>, ghost temps: seq<set<nat>>,
                  ghost lives: seq<Life>)
    requires f.Built() && v == |places| < |f.values|
    requires AllTied(f.values, places, lock, temps) && Untouched(f.values, v) && lives == Lives(f.values)
    modifies {f.values[v]}`local
    ensures AllTied(f.values, places, lock, temps) && Untouched(f.values, v + 1) && lives == Lives(f.values)
    ensures f.values[v].local == at && !f.values[v].callParam && !f.values[v].inReturn
  {
    f.values[v].local := at;
  }

  /** What changes when value v goes into slot at of the locked slots. */
  lemma LockedProgress(f: IrFunction, lock: FunctionAllocator, temps: FunctionAllocator, lives: seq<Life>, places: seq<Place>,
                       l: seq<set<nat>>, at: nat)
    requires f.Built() && lives == Lives(f.values) && Pair(f, lock, temps, lives) && |places| < |f.values|
    requires Filed(l, places, true) && at <= |l| && lock.occupants == Placed(l, |places|, at)
    requires Filed(temps.occupants, places, false)
    requires AllTied(f.values, places, l, temps.occupants) && Untouched(f.values, |places| + 1)
    requires f.values[|places|].local == at && !f.values[|places|].callParam && !f.values[|places|].inReturn
    ensures Progress(f, lock, temps, lives, places + [InLock(at)])
  {
    PlacedFiled(l, places, true, |places|, at);
    OthersFiled(temps.occupants, places, false, InLock(at));
    AllTiedStays(f.values, places, InLock(at), l, temps.occupants, lock.occupants, temps.occupants);
  }

  lemma TempProgress(f: IrFunction, lock: FunctionAllocator, temps: FunctionAllocator, lives: seq<Life>, places: seq<Place>,
                     t: seq<set<nat>>, at: nat)
    requires f.Built() && lives == Lives(f.values) && Pair(f, lock, temps, lives) && |places| < |f.values|
    requires Filed(lock.occupants, places, true)
    requires Filed(t, places, false) && at <= |t| && temps.occupants == Placed(t, |places|, at)
    requires AllTied(f.values, places, lock.occupants, t) && Untouched(f.values, |places| + 1)
    requires f.values[|places|].local == at && !f.values[|places|].callParam && !f.values[|places|].inReturn
    requires !f.values[|places|].locked
    ensures Progress(f, lock, temps, lives, places + [InTemps(at)])
  {
    PlacedFiled(t, places, false, |places|, at);
    OthersFiled(lock.occupants, places, true, InTemps(at));
    AllTiedStays(f.values, places, InTemps(at), lock.occupants, t, lock.occupants, temps.occupants);
  }

  ghost predicate ParkSafe(fn: Func, v: nat, place: Place)
    requires WellFormed(fn)
  {
    match place
    case AtParm(k) => ParkedArgument(fn, v, k)
    case AtReturn => OnlyWrittenByCalls(fn, v)
    case _ => true
  }

  /** Parked values are parked for a reason. */
  ghost predicate ParksSafe(fn: Func, places: seq<Place>)
    requires WellFormed(fn)
  {
    forall v :: 0 <= v < |places| ==> ParkSafe(fn, v, places[v])
  }

  /** The parameters' slots are the first ones, of the parameters' own sizes. */
  ghost predicate ParamSlots(fn: Func, places: seq<Place>, lockSizes: seq<nat>) {
    && |fn.sizes| == |fn.stores| && fn.nparams <= |fn.stores|
    && forall p :: 0 <= p < fn.nparams && p < |places| ==> SlotOfParam(fn, places, lockSizes, p)
  }

  ghost predicate SlotOfParam(fn: Func, places: seq<Place>, lockSizes: seq<nat>, p: nat)
    requires p < |places| && p < |fn.sizes|
  {
    p < |lockSizes| && places[p] == InLock(p) && lockSizes[p] == fn.sizes[p]
  }

  /** Everything the allocation keeps from one value to the next. */
  ghost predicate Allocating(f: IrFunction, lock: FunctionAllocator, temps: FunctionAllocator, lives: seq<Life>, places: seq<Place>)
    reads f`facts, f.values, f.blocks`living, lock, temps, lock.locals`life, temps.locals`life
  {
    && f.Valid() && Progress(f, lock, temps, lives, places)
    && ParksSafe(f.fn, places) && ParamSlots(f.fn, places, lock.sizes)
  }

  lemma AllocatingParts(f: IrFunction, lock: FunctionAllocator, temps: FunctionAllocator, lives: seq<Life>, places: seq<Place>)
    requires Allocating(f, lock, temps, lives, places)
    ensures lock != temps && f.Built() && WellFormed(f.fn) && f.Valid() && Progress(f, lock, temps, lives, places)
    ensures AllTied(f.values, places, lock.occupants, temps.occupants) && Untouched(f.values, |places|)
    ensures lives == Lives(f.values) && Pair(f, lock, temps, lives)
    ensures Filed(lock.occupants, places, true) && Filed(temps.occupants, places, false)
    ensures ParksSafe(f.fn, places) && ParamSlots(f.fn, places, lock.sizes)
  {
  }

  lemma AllocatingFrom(f: IrFunction, lock: FunctionAllocator, temps: FunctionAllocator, lives: seq<Life>, places: seq<Place>)
    requires f.Valid()
    requires AllTied(f.values, places, lock.occupants, temps.occupants) && Untouched(f.values, |places|)
    requires lives == Lives(f.values) && Pair(f, lock, temps, lives)
    requires Filed(lock.occupants, places, true) && Filed(temps.occupants, places, false)
    requires ParksSafe(f.fn, places) && ParamSlots(f.fn, places, lock.sizes)
    ensures Allocating(f, lock, temps, lives, places)
  {
  }

  lemma Distinct(f: IrFunction, v: nat, places: seq<Place>)
    requires f.Built() && v == |places| < |f.values|
    ensures f.values[v] !in set u | 0 <= u < |places| && u < |f.values| :: f.values[u]
  {
  }

  /** No temporary is flagged to have a slot to itself; nothing flags one. */
  ghost predicate NoUniqueTemps(f: IrFunction)
    reads f.values`uniqueLife
  {
    forall v :: f.fn.nlocals <= v < |f.values| ==> !f.values[v].uniqueLife
  }

  method SetUnique(f: IrFunction, v: nat, own: bool)
    requires f.Built() && v < |f.values| && v < f.fn.nlocals
    modifies {f.values[v]}`uniqueLife
    ensures old(NoUniqueTemps(f)) ==> NoUniqueTemps(f)
  {
    f.values[v].uniqueLife := f.values[v].uniqueLife || own;
  }

  method LockOne(f: IrFunction, v: nat, ghost places: seq<Place>)
    requires f.Valid() && v < |f.values|
    modifies {f.values[v]}`locked, f`facts
    ensures f.Valid() && f.values[v].locked && f.facts == LockedToo(old(f.facts), {v})
    ensures old(LockedSoFar(f.values, places)) ==> LockedSoFar(f.values, places)
  {
    var _ := f.LockValue(v);
    hide IrFunction.Valid;
  }

  method LockOwn(f: IrFunction, lock: FunctionAllocator, temps: FunctionAllocator, own: bool,
                 ghost lives: seq<Life>, ghost places: seq<Place>, v: nat)
    requires Allocating(f, lock, temps, lives, places) && v == |places| < |f.values| && v < f.fn.nlocals
    modifies {f.values[v]}`locked, {f.values[v]}`uniqueLife, f`facts
    ensures old(NoUniqueTemps(f)) ==> NoUniqueTemps(f)
    ensures Allocating(f, lock, temps, lives, places)
    ensures f.values[v].locked && f.facts == LockedToo(old(f.facts), {v})
    ensures old(LockedSoFar(f.values, places)) ==> LockedSoFar(f.values, places)
  {
    hide *;
    AllocatingParts(f, lock, temps, lives, places);
    Distinct(f, v, places);
    SetUnique(f, v, own);
    LockOne(f, v, places);
    AllocatingFrom(f, lock, temps, lives, places);
  }

  lemma MoreParks(fn: Func, places: seq<Place>, place: Place)
    requires WellFormed(fn) && ParksSafe(fn, places) && ParkSafe(fn, |places|, place)
    ensures ParksSafe(fn, places + [place])
  {
  }

  lemma MoreSlots(fn: Func, places: seq<Place>, place: Place, sizes: seq<nat>, sizes': seq<nat>)
    requires ParamSlots(fn, places, sizes) && |sizes| <= |sizes'|
    requires forall a :: 0 <= a < |sizes| && a < fn.nparams ==> sizes'[a] == sizes[a]
    requires |places| < fn.nparams ==>
      place == InLock(|places|) && |places| < |sizes'| && sizes'[|places|] == fn.sizes[|places|]
    ensures ParamSlots(fn, places + [place], sizes')
  {
    var all := places + [place];
    forall p | 0 <= p < fn.nparams && p < |all| ensures SlotOfParam(fn, all, sizes', p) {
      assert p < |places| ==> all[p] == places[p] && SlotOfParam(fn, places, sizes, p);
    }
  }

  lemma OwnSlotNumber(f: IrFunction, lock: FunctionAllocator, temps: FunctionAllocator, lives: seq<Life>, places: seq<Place>)
    requires Allocating(f, lock, temps, lives, places)
    ensures |lock.sizes| == |lock.occupants|
  {
  }

  /** Value number v goes into a slot that calls preserve. */
  method PutLocked(f: IrFunction, lock: FunctionAllocator, temps: FunctionAllocator, own: bool,
                   ghost lives: seq<Life>, ghost facts: Facts, ghost locked0: set<nat>, ghost places: seq<Place>, v: nat)
    requires Allocating(f, lock, temps, lives, places) && v == |places| < f.fn.nlocals + f.fn.nvalues <= |f.values|
    requires own || (v >= f.fn.nparams && Solved(f.fn, facts, locked0) && Denotes(facts, lives))
    requires v < f.fn.nparams ==> own && |lock.sizes| == v < |f.fn.sizes|
    modifies lock`locals, lock`sizes, lock`unique, lock`occupants, lock.locals`life, {f.values[v]}`local
    ensures Allocating(f, lock, temps, lives, places + [InLock(f.values[v].local)])
    ensures own ==> |lock.sizes| == |old(lock.sizes)| + 1
    ensures f.facts == old(f.facts)
    ensures forall i :: |old(lock.locals)| <= i < |lock.locals| ==> fresh(lock.locals[i])
    ensures |old(lock.locals)| <= |lock.locals| && lock.locals[..|old(lock.locals)|] == old(lock.locals)
  {
    hide *;
    ghost var l, s := lock.occupants, lock.sizes;
    AllocatingParts(f, lock, temps, lives, places);
    FiledBelow(l, places, true);
    OwnSlotNumber(f, lock, temps, lives, places);
    var at;
    if own {
      at := PutOwn(f, lock, temps, v, lives);
    } else {
      at := PutFitting(f, lock, temps, v, lives, facts, locked0);
    }
    SetLocal(f, v, at, places, l, temps.occupants, lives);
    LockedProgress(f, lock, temps, lives, places, l, at);
    ParkedNot(f.fn, v, at);
    MoreParks(f.fn, places, InLock(at));
    MoreSlots(f.fn, places, InLock(at), s, lock.sizes);
    AllocatingFromProgress(f, lock, temps, lives, places + [InLock(at)]);
  }

  lemma ParkedNot(fn: Func, v: nat, at: nat)
    requires WellFormed(fn)
    ensures ParkSafe(fn, v, InLock(at)) && ParkSafe(fn, v, InTemps(at)) && ParkSafe(fn, v, Nowhere)
  {
  }

  lemma AllocatingFromProgress(f: IrFunction, lock: FunctionAllocator, temps: FunctionAllocator, lives: seq<Life>, places: seq<Place>)
    requires f.Valid() && Progress(f, lock, temps, lives, places)
    requires ParksSafe(f.fn, places) && ParamSlots(f.fn, places, lock.sizes)
    ensures Allocating(f, lock, temps, lives, places)
  {
  }

  /** Value number v goes into a slot of the shared temporaries. */
  method PutTemp(f: IrFunction, lock: FunctionAllocator, temps: FunctionAllocator,
                 ghost lives: seq<Life>, ghost facts: Facts, ghost locked0: set<nat>, ghost places: seq<Place>, v: nat)
    requires Allocating(f, lock, temps, lives, places) && v == |places| < f.fn.nlocals + f.fn.nvalues <= |f.values|
    requires v >= f.fn.nparams && Solved(f.fn, facts, locked0) && Denotes(facts, lives)
    requires !f.values[v].locked
    modifies temps`locals, temps`sizes, temps`unique, temps`occupants, temps.locals`life, {f.values[v]}`local
    ensures Allocating(f, lock, temps, lives, places + [InTemps(f.values[v].local)])
    ensures f.facts == old(f.facts)
    ensures forall i :: |old(temps.locals)| <= i < |temps.locals| ==> fresh(temps.locals[i])
    ensures |old(temps.locals)| <= |temps.locals| && temps.locals[..|old(temps.locals)|] == old(temps.locals)
  {
    hide *;
    ghost var t := temps.occupants;
    AllocatingParts(f, lock, temps, lives, places);
    FiledBelow(t, places, false);
    PairSymmetric(f, lock, temps, lives);
    var at := PutFitting(f, temps, lock, v, lives, facts, locked0);
    SetLocal(f, v, at, places, lock.occupants, t, lives);
    PairSymmetric(f, temps, lock, lives);
    TempProgress(f, lock, temps, lives, places, t, at);
    ParkedNot(f.fn, v, at);
    MoreParks(f.fn, places, InTemps(at));
    MoreSlots(f.fn, places, InTemps(at), lock.sizes, lock.sizes);
    AllocatingFromProgress(f, lock, temps, lives, places + [InTemps(at)]);
  }

  lemma NowhereTied(f: IrFunction, lock: FunctionAllocator, temps: FunctionAllocator, lives: seq<Life>, places: seq<Place>)
    requires Allocating(f, lock, temps, lives, places) && |places| < |f.values| && f.values[|places|].life == []
    requires |places| >= f.fn.nparams
    ensures Allocating(f, lock, temps, lives, places + [Nowhere])
  {
    OthersFiled(lock.occupants, places, true, Nowhere);
    OthersFiled(temps.occupants, places, false, Nowhere);
    AllTiedStays(f.values, places, Nowhere, lock.occupants, temps.occupants, lock.occupants, temps.occupants);
    MoreParks(f.fn, places, Nowhere);
    MoreSlots(f.fn, places, Nowhere, lock.sizes, lock.sizes);
  }

  lemma SlotPlaces(a: nat)
    ensures SlotPlace(true, a) == InLock(a) && SlotPlace(false, a) == InTemps(a)
  {
  }

  /** The slots of v's kind: calls preserve those of locked values; without shared temporaries all are of that kind. */
  method PutShared(f: IrFunction, lock: FunctionAllocator, temps: FunctionAllocator, opts: Options,
                   ghost lives: seq<Life>, ghost facts: Facts, ghost locked0: set<nat>, ghost places: seq<Place>, v: nat)
    returns (ghost place: Place)
    requires Allocating(f, lock, temps, lives, places) && v == |places| < f.fn.nlocals + f.fn.nvalues <= |f.values|
    requires v >= f.fn.nparams && Solved(f.fn, facts, locked0) && Denotes(facts, lives)
    modifies lock`locals, lock`sizes, lock`unique, lock`occupants, lock.locals`life, {f.values[v]}`local
    modifies temps`locals, temps`sizes, temps`unique, temps`occupants, temps.locals`life
    ensures Allocating(f, lock, temps, lives, places + [place]) && f.facts == old(f.facts)
    ensures place == SlotPlace(f.values[v].locked || !opts.globalTemps, f.values[v].local)
    ensures !opts.globalTemps ==> temps.locals == old(temps.locals)
    ensures forall i :: |old(lock.locals)| <= i < |lock.locals| ==> fresh(lock.locals[i])
    ensures |old(lock.locals)| <= |lock.locals| && lock.locals[..|old(lock.locals)|] == old(lock.locals)
    ensures forall i :: |old(temps.locals)| <= i < |temps.locals| ==> fresh(temps.locals[i])
    ensures |old(temps.locals)| <= |temps.locals| && temps.locals[..|old(temps.locals)|] == old(temps.locals)
  {
    hide *;
    AllocatingParts(f, lock, temps, lives, places);
    if f.values[v].locked || !opts.globalTemps {
      PutLocked(f, lock, temps, false, lives, facts, locked0, places, v);
      place := InLock(f.values[v].local);
    } else {
      PutTemp(f, lock, temps, lives, facts, locked0, places, v);
      place := InTemps(f.values[v].local);
    }
    SlotPlaces(f.values[v].local);
  }

  /** The allocator a slot is in can be told from the value's lock. */
  ghost predicate OfKind(value: IrValue, place: Place, opts: Options)
    reads value`locked
  {
    && (place.InLock? ==> value.locked || !opts.globalTemps)
    && (place.InTemps? ==> !value.locked && opts.globalTemps)
  }

  ghost predicate LockedSoFar(values: seq<IrValue>, places: seq<Place>)
    reads values`locked
  {
    |places| <= |values| && forall u :: 0 <= u < |places| ==> places[u].InLock? && values[u].locked
  }

  lemma NoneLockedYet(values: seq<IrValue>)
    ensures LockedSoFar(values, [])
  {
  }

  lemma OneMoreLocked(values: seq<IrValue>, places: seq<Place>, a: nat)
    requires LockedSoFar(values, places) && |places| < |values| && values[|places|].locked
    ensures LockedSoFar(values, places + [InLock(a)])
  {
  }

  lemma AllLocked(f: IrFunction, places: seq<Place>, opts: Options)
    requires LockedSoFar(f.values, places)
    ensures forall u :: 0 <= u < |places| ==> OfKind(f.values[u], places[u], opts)
    ensures InSlots(places, |places|)
  {
  }

  lemma LocksGrow(f: Facts, g: Facts, s: set<nat>, h: Facts)
    requires g == f.(locked := g.locked) && f.locked <= g.locked && h == LockedToo(g, s)
    ensures h == f.(locked := h.locked) && f.locked <= h.locked
  {
  }

  /** A slot of its own for local v, which is locked first. */
  method PutOwnLocked(f: IrFunction, lock: FunctionAllocator, temps: FunctionAllocator, own: bool,
                      ghost lives: seq<Life>, ghost places: seq<Place>, v: nat)
    requires Allocating(f, lock, temps, lives, places) && v == |places| == |lock.sizes| < f.fn.nlocals
    requires f.fn.nlocals <= f.fn.nlocals + f.fn.nvalues <= |f.values| == |f.fn.sizes|
    modifies {f.values[v]}`locked, {f.values[v]}`uniqueLife, {f.values[v]}`local, f`facts
    modifies lock`locals, lock`sizes, lock`unique, lock`occupants, lock.locals`life
    ensures Allocating(f, lock, temps, lives, places + [InLock(f.values[v].local)]) && f.values[v].locked
    ensures |lock.sizes| == v + 1 && temps.locals == old(temps.locals) && (old(NoUniqueTemps(f)) ==> NoUniqueTemps(f))
    ensures old(LockedSoFar(f.values, places)) ==> LockedSoFar(f.values, places + [InLock(f.values[v].local)])
    ensures f.facts == LockedToo(old(f.facts), {v})
    ensures forall i :: |old(lock.locals)| <= i < |lock.locals| ==> fresh(lock.locals[i])
    ensures |old(lock.locals)| <= |lock.locals| && lock.locals[..|old(lock.locals)|] == old(lock.locals)
  {
    hide *;
    AllocatingParts(f, lock, temps, lives, places);
    LockOwn(f, lock, temps, own, lives, places, v);
    // locked by now, so the slot is among those that calls preserve
    PutLocked(f, lock, temps, true, lives, f.facts, {}, places, v);
    if old(LockedSoFar(f.values, places)) {
      OneMoreLocked(f.values, places, f.values[v].local);
    }
  }

  /** Parameters, and every other local too if none may be shared, get slots of their own. */
  method AllocateOwn(f: IrFunction, lock: FunctionAllocator, temps: FunctionAllocator, opts: Options, ghost lives: seq<Life>)
    returns (i: nat, ghost places: seq<Place>)
    requires Allocating(f, lock, temps, lives, []) && lock.locals == [] && lock.sizes == [] && temps.locals == []
    requires f.fn.nparams <= f.fn.nlocals <= f.fn.nlocals + f.fn.nvalues <= |f.values| && |f.fn.sizes| == |f.values|
    modifies f.values`locked, f.values`uniqueLife, f.values`local, f`facts
    modifies lock`locals, lock`sizes, lock`unique, lock`occupants
    ensures temps.locals == []
    ensures Allocating(f, lock, temps, lives, places) && |places| == i && f.fn.nparams <= i <= f.fn.nlocals
    ensures f.noLocalTemps || !opts.localTemps ==> i == f.fn.nlocals
    ensures forall u :: 0 <= u < i ==> OfKind(f.values[u], places[u], opts)
    ensures InSlots(places, i)
    ensures old(NoUniqueTemps(f)) ==> NoUniqueTemps(f)
    ensures forall a :: 0 <= a < |lock.locals| ==> fresh(lock.locals[a])
    ensures f.facts == old(f.facts).(locked := f.facts.locked) && old(f.facts).locked <= f.facts.locked
  {
    hide *;
    AllocatingParts(f, lock, temps, lives, []);
    ghost var was := f.facts;
    i, places := 0, [];
    NoneLockedYet(f.values);
    while i < f.fn.nlocals
      invariant Allocating(f, lock, temps, lives, places) && |places| == i <= f.fn.nlocals && |lock.sizes| == i
      invariant forall a :: 0 <= a < |lock.locals| ==> fresh(lock.locals[a])
      invariant lock != temps && temps.locals == [] && (old(NoUniqueTemps(f)) ==> NoUniqueTemps(f))
      invariant LockedSoFar(f.values, places)
      invariant i < f.fn.nparams || f.noLocalTemps || !opts.localTemps || i == f.fn.nparams
      invariant f.facts == old(f.facts).(locked := f.facts.locked) && old(f.facts).locked <= f.facts.locked
    {
      ghost var lockedWas := f.facts;
      if f.noLocalTemps || !opts.localTemps {
        PutOwnLocked(f, lock, temps, true, lives, places, i);
      } else if i >= f.fn.nparams {
        break;
      } else {
        PutOwnLocked(f, lock, temps, false, lives, places, i);
      }
      LocksGrow(was, lockedWas, {i}, f.facts);
      places := places + [InLock(f.values[i].local)];
      i := i + 1;
    }
    AllLocked(f, places, opts);
  }

  // ----- the temporaries -----

  method FindParam(params: seq<nat>, v: nat) returns (found: bool, idx: nat)
    ensures found <==> v in params
    ensures found ==> idx < |params| && params[idx] == v
  {
    idx := 0;
    while idx < |params|
      invariant idx <= |params| && v !in params[..idx]
    {
      if params[idx] == v {
        return true, idx;
      }
      idx := idx + 1;
    }
    assert params[..idx] == params;
    found := false;
  }

  ghost predicate SitesListed(f: IrFunction)
    requires f.Built()
  {
    && |f.readSites| == |f.writeSites| == |f.values|
    && forall v :: 0 <= v < |f.values| ==>
         ListsReads(f.fn, v, f.readSites[v]) && ListsWrites(f.fn, v, f.writeSites[v])
  }

  lemma ParkedTied(f: IrFunction, lock: FunctionAllocator, temps: FunctionAllocator, lives: seq<Life>, places: seq<Place>, place: Place)
    requires f.Valid() && |places| < |f.values| && lives == Lives(f.values) && Pair(f, lock, temps, lives)
    requires AllTied(f.values, places, lock.occupants, temps.occupants)
    requires Filed(lock.occupants, places, true) && Filed(temps.occupants, places, false)
    requires Untouched(f.values, |places| + 1)
    requires Tied(f.values[|places|], |places|, place, lock.occupants, temps.occupants)
    requires place.AtParm? || place.AtReturn?
    requires ParksSafe(f.fn, places) && ParkSafe(f.fn, |places|, place)
    requires ParamSlots(f.fn, places, lock.sizes) && |places| >= f.fn.nparams
    ensures Allocating(f, lock, temps, lives, places + [place])
  {
    OthersFiled(lock.occupants, places, true, place);
    OthersFiled(temps.occupants, places, false, place);
    AllTiedStays(f.values, places, place, lock.occupants, temps.occupants, lock.occupants, temps.occupants);
    MoreParks(f.fn, places, place);
    MoreSlots(f.fn, places, place, lock.sizes, lock.sizes);
  }

  method SetParked(f: IrFunction, v: nat, place: Place, ghost places: seq<Place>, ghost lock: seq<set<nat>>, ghost temps: seq<set<nat>>)
    requires f.Built() && v == |places| < |f.values| && (place.AtParm? || place.AtReturn?) && !f.values[v].locked
    requires AllTied(f.values, places, lock, temps) && Untouched(f.values, v)
    modifies {f.values[v]}`callParam, {f.values[v]}`inReturn, {f.values[v]}`codeAddress
    ensures AllTied(f.values, places, lock, temps) && Untouched(f.values, v + 1)
    ensures Tied(f.values[v], v, place, lock, temps)
  {
    if place.AtParm? {
      f.values[v].callParam := true;
      f.values[v].codeAddress := OFS_PARM0 + 3 * place.k;
    } else {
      f.values[v].inReturn := true;
    }
  }

  method Park(f: IrFunction, lock: FunctionAllocator, temps: FunctionAllocator, ghost lives: seq<Life>, ghost places: seq<Place>,
              v: nat, place: Place)
    requires Allocating(f, lock, temps, lives, places) && v == |places| < |f.values| && v >= f.fn.nparams
    requires f.Built() && ParkSafe(f.fn, v, place) && (place.AtParm? || place.AtReturn?) && !f.values[v].locked
    modifies {f.values[v]}`callParam, {f.values[v]}`inReturn, {f.values[v]}`codeAddress
    ensures Allocating(f, lock, temps, lives, places + [place])
  {
    hide *;
    AllocatingParts(f, lock, temps, lives, places);
    SetParked(f, v, place, places, lock.occupants, temps.occupants);
    ParkedTied(f, lock, temps, lives, places, place);
  }

  /** A value that is not a local: no place without a life, else parked at its call if it may be, else a slot. */
  method PlaceTemp(f: IrFunction, lock: FunctionAllocator, temps: FunctionAllocator, opts: Options,
                   ghost lives: seq<Life>, ghost facts: Facts, ghost locked0: set<nat>, ghost places: seq<Place>, v: nat)
    returns (ok: bool, ghost place: Place)
    requires Allocating(f, lock, temps, lives, places) && v == |places| < f.fn.nlocals + f.fn.nvalues <= |f.values|
    requires v >= f.fn.nparams && Solved(f.fn, facts, locked0) && Denotes(facts, lives)
    requires f.Built() && SitesListed(f) && v >= f.fn.nlocals
    modifies lock`locals, lock`sizes, lock`unique, lock`occupants, lock.locals`life
    modifies temps`locals, temps`sizes, temps`unique, temps`occupants, temps.locals`life
    modifies {f.values[v]}`local, {f.values[v]}`callParam, {f.values[v]}`inReturn, {f.values[v]}`codeAddress
    ensures ok ==> Allocating(f, lock, temps, lives, places + [place]) && OfKind(f.values[v], place, opts)
    ensures ok ==> v < |lives| && ByRule(f.fn, f.values[v], v, lives[v], place, opts)
    ensures v < |lives| && (ok <==> Placeable(f.fn, f.values[v], v, lives[v], opts))
    ensures !opts.globalTemps ==> temps.locals == old(temps.locals)
    ensures f.facts == old(f.facts)
    ensures forall i :: |old(lock.locals)| <= i < |lock.locals| ==> fresh(lock.locals[i])
    ensures |old(lock.locals)| <= |lock.locals| && lock.locals[..|old(lock.locals)|] == old(lock.locals)
    ensures forall i :: |old(temps.locals)| <= i < |temps.locals| ==> fresh(temps.locals[i])
    ensures |old(temps.locals)| <= |temps.locals| && temps.locals[..|old(temps.locals)|] == old(temps.locals)
  {
    hide *;
    ok, place := true, Nowhere;
    SitesOf(f, v);
    LifeIs(f, lock, temps, lives, places, v);
    PlaceableIs(f.fn, f.values[v], v, lives[v], opts);
    if f.values[v].life == [] {
      NowhereTied(f, lock, temps, lives, places);
      KindOf(f.values[v], Nowhere, opts, 0);
      NowhereByRule(f, v, lives[v], opts);
      return;
    }
    ListsAre(f, v, opts);
    CalledIsListed(f, v);
    if opts.callStores && !f.values[v].locked && !f.values[v].uniqueLife {
      if |f.readSites[v]| == 1 && |f.writeSites[v]| == 1 {
        var (b, i) := f.readSites[v][0];
        if IsCall(InstrAt(f.fn, b, i).op) {
          var found, param := FindParam(InstrAt(f.fn, b, i).params, v);
          if !found {
            // read as the function to call: an unlocked parameter that is none
            return false, place;
          }
          ParkAtArgument(f, v, b, i, param);
          ArgumentByRule(f, v, lives[v], param, opts);
          place := AtParm(param);
          Park(f, lock, temps, lives, places, v, AtParm(param));
          KindOf(f.values[v], place, opts, 0);
          return;
        }
      }
      if |f.writeSites[v]| == 1 {
        var (b, i) := f.writeSites[v][0];
        if InstrAt(f.fn, b, i).op.Call? {
          ParkAtReturn(f, v, b, i);
          ReturnByRule(f, v, lives[v], opts);
          place := AtReturn;
          Park(f, lock, temps, lives, places, v, AtReturn);
          KindOf(f.values[v], place, opts, 0);
          return;
        }
      }
    }
    place := PutShared(f, lock, temps, opts, lives, facts, locked0, places, v);
    KindOf(f.values[v], place, opts, f.values[v].local);
    SlotByRule(f, v, lives[v], f.values[v].local, opts);
  }

  // ----- which place it is -----

  ghost predicate MayPark(value: IrValue, opts: Options)
    reads value`locked, value`uniqueLife
  {
    opts.callStores && !value.locked && !value.uniqueLife
  }

  ghost predicate IsArgument(fn: Func, v: nat)
    requires WellFormed(fn)
  {
    exists k: nat :: ParkedArgument(fn, v, k)
  }

  ghost predicate WrittenByOneCall(fn: Func, v: nat)
    requires WellFormed(fn)
  {
    exists b: nat, i: nat :: OnlyWrittenAt(fn, v, b, i) && InstrAt(fn, b, i).op.Call?
  }

  /**
   * The place a temporary gets: none without a life; if it may be parked, the cell of the only argument that reads
   * its only write, or else the cell of results if its only write is a call; otherwise a slot of its kind.
   */
  ghost predicate ByRule(fn: Func, value: IrValue, v: nat, life: Life, place: Place, opts: Options)
    requires WellFormed(fn)
    reads value`locked, value`uniqueLife
  {
    if life == [] then place == Nowhere
    else if MayPark(value, opts) && IsArgument(fn, v) then place.AtParm? && ParkedArgument(fn, v, place.k)
    else if MayPark(value, opts) && WrittenByOneCall(fn, v) then place == AtReturn
    else if value.locked || !opts.globalTemps then place.InLock?
    else place.InTemps?
  }

  /** A temporary finds no place if it is to be parked as an argument of the call that reads it, and is none. */
  ghost predicate Placeable(fn: Func, value: IrValue, v: nat, life: Life, opts: Options)
    requires WellFormed(fn)
    reads value`locked, value`uniqueLife
  {
    life == [] || !MayPark(value, opts) || !WrittenOnce(fn, v) || !OnlyCalled(fn, v)
  }

  lemma PlaceableIs(fn: Func, value: IrValue, v: nat, life: Life, opts: Options)
    requires WellFormed(fn)
    ensures Placeable(fn, value, v, life, opts) <==> life == [] || !MayPark(value, opts) || !(WrittenOnce(fn, v) && OnlyCalled(fn, v))
  {
  }

  ghost predicate AllPlaceable(fn: Func, values: seq<IrValue>, lives: seq<Life>, opts: Options)
    requires WellFormed(fn)
    reads values`locked, values`uniqueLife
  {
    |lives| == |values| &&
    forall v :: fn.nlocals <= v < fn.nlocals + fn.nvalues && v < |values| ==> Placeable(fn, values[v], v, lives[v], opts)
  }

  lemma CalledIsListed(f: IrFunction, v: nat)
    requires f.Built() && SitesListed(f) && v < |f.values|
    ensures WellFormed(f.fn)
    ensures WrittenOnce(f.fn, v) && OnlyCalled(f.fn, v) <==>
      ListsArgument(f, v) && v !in InstrAt(f.fn, f.readSites[v][0].0, f.readSites[v][0].1).params
  {
    SingleReadIsOnce(f.fn, v, f.readSites[v]);
    SingleWriteIsOnce(f.fn, v, f.writeSites[v]);
    hide ListsReads, ListsWrites, WellFormed, OnlyReadAt, WrittenOnce;
    if OnlyCalled(f.fn, v) {
      var b: nat, i: nat :| OnlyCalledAt(f.fn, v, b, i);
      assert f.readSites[v] == [(b, i)];
    }
    if ListsArgument(f, v) && v !in InstrAt(f.fn, f.readSites[v][0].0, f.readSites[v][0].1).params {
      assert OnlyCalledAt(f.fn, v, f.readSites[v][0].0, f.readSites[v][0].1);
    }
  }

  lemma LifeIs(f: IrFunction, lock: FunctionAllocator, temps: FunctionAllocator, lives: seq<Life>, places: seq<Place>, v: nat)
    requires Allocating(f, lock, temps, lives, places) && v < |f.values|
    ensures v < |lives| && lives[v] == f.values[v].life
  {
  }

  /** What the code asks of the lists of reads and writes before it parks a value as an argument. */
  ghost predicate ListsArgument(f: IrFunction, v: nat)
    requires f.Built() && SitesListed(f) && v < |f.values|
  {
    && |f.readSites[v]| == 1 && |f.writeSites[v]| == 1
    && IsCall(InstrAt(f.fn, f.readSites[v][0].0, f.readSites[v][0].1).op)
  }

  ghost predicate ListsResult(f: IrFunction, v: nat)
    requires f.Built() && SitesListed(f) && v < |f.values|
  {
    |f.writeSites[v]| == 1 && InstrAt(f.fn, f.writeSites[v][0].0, f.writeSites[v][0].1).op.Call?
  }

  lemma ListsAre(f: IrFunction, v: nat, opts: Options)
    requires f.Built() && SitesListed(f) && v < |f.values|
    ensures WellFormed(f.fn) && |f.readSites| == |f.writeSites| == |f.values|
    ensures MayPark(f.values[v], opts) <==> opts.callStores && !f.values[v].locked && !f.values[v].uniqueLife
    ensures ListsArgument(f, v) <==>
      |f.readSites[v]| == 1 && |f.writeSites[v]| == 1 && At(f.fn, f.readSites[v][0].0, f.readSites[v][0].1)
      && IsCall(InstrAt(f.fn, f.readSites[v][0].0, f.readSites[v][0].1).op)
    ensures ListsResult(f, v) <==>
      |f.writeSites[v]| == 1 && At(f.fn, f.writeSites[v][0].0, f.writeSites[v][0].1)
      && InstrAt(f.fn, f.writeSites[v][0].0, f.writeSites[v][0].1).op.Call?
  {
  }

  lemma ArgumentIsListed(f: IrFunction, v: nat)
    requires f.Built() && SitesListed(f) && f.fn.nlocals <= v < f.fn.nlocals + f.fn.nvalues <= |f.values|
    ensures IsArgument(f.fn, v) ==> ListsArgument(f, v)
  {
    if k: nat :| ParkedArgument(f.fn, v, k) {
      var b: nat, i: nat :| OnlyReadAsArgument(f.fn, v, b, i, k);
      ArgumentIsSingleRead(f.fn, v, f.readSites[v], b, i, k);
      SingleWriteIsOnce(f.fn, v, f.writeSites[v]);
    }
  }

  lemma ResultIsListed(f: IrFunction, v: nat)
    requires f.Built() && SitesListed(f) && v < |f.values|
    ensures WrittenByOneCall(f.fn, v) <==> ListsResult(f, v)
  {
    SingleWriteIsOnce(f.fn, v, f.writeSites[v]);
    if |f.writeSites[v]| == 1 {
      var b: nat, i: nat :| OnlyWrittenAt(f.fn, v, b, i);
      assert f.writeSites[v] == [(b, i)];
    }
    hide ListsWrites, ListsReads, WellFormed;
  }

  lemma NowhereByRule(f: IrFunction, v: nat, life: Life, opts: Options)
    requires f.Built() && WellFormed(f.fn) && v < |f.values| && life == []
    ensures ByRule(f.fn, f.values[v], v, life, Nowhere, opts)
  {
  }

  lemma ArgumentByRule(f: IrFunction, v: nat, life: Life, k: nat, opts: Options)
    requires f.Built() && WellFormed(f.fn) && v < |f.values| && life != []
    requires MayPark(f.values[v], opts) && ParkSafe(f.fn, v, AtParm(k))
    ensures ByRule(f.fn, f.values[v], v, life, AtParm(k), opts)
  {
  }

  lemma ReturnByRule(f: IrFunction, v: nat, life: Life, opts: Options)
    requires f.Built() && SitesListed(f) && f.fn.nlocals <= v < f.fn.nlocals + f.fn.nvalues <= |f.values| && life != []
    requires WellFormed(f.fn) && MayPark(f.values[v], opts) && !ListsArgument(f, v) && ListsResult(f, v)
    ensures ByRule(f.fn, f.values[v], v, life, AtReturn, opts)
  {
    ArgumentIsListed(f, v);
    ResultIsListed(f, v);
  }

  lemma SlotByRule(f: IrFunction, v: nat, life: Life, a: nat, opts: Options)
    requires f.Built() && SitesListed(f) && f.fn.nlocals <= v < f.fn.nlocals + f.fn.nvalues <= |f.values| && life != []
    requires WellFormed(f.fn) && (MayPark(f.values[v], opts) ==> !ListsArgument(f, v) && !ListsResult(f, v))
    ensures ByRule(f.fn, f.values[v], v, life, SlotPlace(f.values[v].locked || !opts.globalTemps, a), opts)
  {
    ArgumentIsListed(f, v);
    ResultIsListed(f, v);
  }

  lemma KindOf(value: IrValue, place: Place, opts: Options, a: nat)
    requires place == SlotPlace(value.locked || !opts.globalTemps, a) || place.AtParm? || place.AtReturn? || place.Nowhere?
    ensures OfKind(value, place, opts)
  {
  }

  lemma SitesOf(f: IrFunction, v: nat)
    requires f.Built() && SitesListed(f) && v < |f.values|
    ensures WellFormed(f.fn) && |f.readSites| == |f.writeSites| == |f.values|
    ensures forall s :: s in f.readSites[v] ==> At(f.fn, s.0, s.1)
    ensures forall s :: s in f.writeSites[v] ==> At(f.fn, s.0, s.1)
  {
  }

  lemma ParkAtArgument(f: IrFunction, v: nat, b: nat, i: nat, k: nat)
    requires f.Built() && SitesListed(f) && f.fn.nlocals <= v < |f.values|
    requires f.readSites[v] == [(b, i)] && |f.writeSites[v]| == 1
    requires WellFormed(f.fn) && At(f.fn, b, i) && IsCall(InstrAt(f.fn, b, i).op)
    requires k < |InstrAt(f.fn, b, i).params| && InstrAt(f.fn, b, i).params[k] == v
    ensures ParkSafe(f.fn, v, AtParm(k))
  {
    SingleReadIsArgument(f.fn, v, f.readSites[v], k);
    SingleWriteIsOnce(f.fn, v, f.writeSites[v]);
    assert OnlyReadAsArgument(f.fn, v, b, i, k);
  }

  lemma ParkAtReturn(f: IrFunction, v: nat, b: nat, i: nat)
    requires f.Built() && SitesListed(f) && v < |f.values| && f.writeSites[v] == [(b, i)]
    requires WellFormed(f.fn) && At(f.fn, b, i) && InstrAt(f.fn, b, i).op.Call?
    ensures ParkSafe(f.fn, v, AtReturn)
  {
    SingleWriteIsCall(f.fn, v, f.writeSites[v]);
  }

  ghost predicate AllOfKind(values: seq<IrValue>, places: seq<Place>, opts: Options)
    reads values`locked
  {
    |places| <= |values| && forall u :: 0 <= u < |places| ==> OfKind(values[u], places[u], opts)
  }

  lemma OneMoreOfKind(values: seq<IrValue>, places: seq<Place>, place: Place, opts: Options)
    requires AllOfKind(values, places, opts) && |places| < |values| && OfKind(values[|places|], place, opts)
    ensures AllOfKind(values, places + [place], opts)
  {
  }

  /** The first n values are not parked. */
  predicate InSlots(places: seq<Place>, n: nat) {
    n <= |places| && forall v :: 0 <= v < n ==> !places[v].AtParm? && !places[v].AtReturn?
  }

  lemma OneMoreInSlots(places: seq<Place>, place: Place, lock: bool, a: nat)
    requires place == Nowhere || place == SlotPlace(lock, a)
    ensures InSlots(places, |places|) ==> InSlots(places + [place], |places| + 1)
  {
  }

  lemma SlotsPrefix(places: seq<Place>, more: seq<Place>, n: nat)
    requires InSlots(places, n) && places <= more
    ensures InSlots(more, n)
  {
  }

  /** The locals that may share slots; those without a life need none. */
  method AllocateLocalsShared(f: IrFunction, lock: FunctionAllocator, temps: FunctionAllocator, opts: Options, start: nat,
                              ghost lives: seq<Life>, ghost facts: Facts, ghost locked0: set<nat>, ghost places0: seq<Place>)
    returns (ghost places: seq<Place>)
    requires Allocating(f, lock, temps, lives, places0) && AllOfKind(f.values, places0, opts)
    requires |places0| == start && f.fn.nparams <= start <= f.fn.nlocals <= f.fn.nlocals + f.fn.nvalues <= |f.values|
    requires Solved(f.fn, facts, locked0) && Denotes(facts, lives)
    modifies lock`locals, lock`sizes, lock`unique, lock`occupants, lock.locals`life
    modifies temps`locals, temps`sizes, temps`unique, temps`occupants, temps.locals`life, f.values`local
    ensures Allocating(f, lock, temps, lives, places) && AllOfKind(f.values, places, opts)
    ensures |places| == f.fn.nlocals && f.facts == old(f.facts)
    ensures InSlots(places0, start) ==> InSlots(places, f.fn.nlocals)
    ensures !opts.globalTemps ==> temps.locals == old(temps.locals)
    ensures forall i :: |old(lock.locals)| <= i < |lock.locals| ==> fresh(lock.locals[i])
    ensures |old(lock.locals)| <= |lock.locals| && lock.locals[..|old(lock.locals)|] == old(lock.locals)
    ensures forall i :: |old(temps.locals)| <= i < |temps.locals| ==> fresh(temps.locals[i])
    ensures |old(temps.locals)| <= |temps.locals| && temps.locals[..|old(temps.locals)|] == old(temps.locals)
  {
    hide *;
    places := places0;
    for v := start to f.fn.nlocals
      invariant InSlots(places0, start) ==> InSlots(places, v)
      invariant !opts.globalTemps ==> temps.locals == old(temps.locals)
      invariant Allocating(f, lock, temps, lives, places) && AllOfKind(f.values, places, opts) && |places| == v
      invariant f.facts == old(f.facts)
      invariant forall i :: |old(lock.locals)| <= i < |lock.locals| ==> fresh(lock.locals[i])
      invariant |old(lock.locals)| <= |lock.locals| && lock.locals[..|old(lock.locals)|] == old(lock.locals)
      invariant forall i :: |old(temps.locals)| <= i < |temps.locals| ==> fresh(temps.locals[i])
      invariant |old(temps.locals)| <= |temps.locals| && temps.locals[..|old(temps.locals)|] == old(temps.locals)
    {
      ghost var place := Nowhere;
      if f.values[v].life == [] {
        NowhereTied(f, lock, temps, lives, places);
        KindOf(f.values[v], Nowhere, opts, 0);
      } else {
        place := PutShared(f, lock, temps, opts, lives, facts, locked0, places, v);
        KindOf(f.values[v], place, opts, f.values[v].local);
      }
      OneMoreOfKind(f.values, places, place, opts);
      OneMoreInSlots(places, place, f.values[v].locked || !opts.globalTemps, f.values[v].local);
      places := places + [place];
    }
  }

  /** Each of the temporaries among the values placed so far is where the rule says. */
  ghost predicate TempsByRule(fn: Func, values: seq<IrValue>, lives: seq<Life>, places: seq<Place>, opts: Options)
    requires WellFormed(fn)
    reads values`locked, values`uniqueLife
  {
    |places| <= |values| && |places| <= |lives| &&
    forall v :: fn.nlocals <= v < |places| ==> ByRule(fn, values[v], v, lives[v], places[v], opts)
  }

  lemma OneMoreByRule(fn: Func, values: seq<IrValue>, lives: seq<Life>, places: seq<Place>, place: Place, opts: Options)
    requires WellFormed(fn) && TempsByRule(fn, values, lives, places, opts) && |places| < |values| && |places| < |lives|
    requires ByRule(fn, values[|places|], |places|, lives[|places|], place, opts)
    ensures TempsByRule(fn, values, lives, places + [place], opts)
  {
    hide ByRule, WellFormed;
    forall v | fn.nlocals <= v < |places + [place]| ensures ByRule(fn, values[v], v, lives[v], (places + [place])[v], opts) {
      if v < |places| {
        assert (places + [place])[v] == places[v];
      }
    }
  }

  ghost predicate PlaceableTo(fn: Func, values: seq<IrValue>, lives: seq<Life>, opts: Options, n: nat)
    requires WellFormed(fn)
    reads values`locked, values`uniqueLife
  {
    |lives| == |values| && forall v :: fn.nlocals <= v < n && v < |values| ==> Placeable(fn, values[v], v, lives[v], opts)
  }

  lemma NonePlacedYet(f: IrFunction, lock: FunctionAllocator, temps: FunctionAllocator, lives: seq<Life>, places: seq<Place>, opts: Options)
    requires Allocating(f, lock, temps, lives, places)
    ensures WellFormed(f.fn) && PlaceableTo(f.fn, f.values, lives, opts, f.fn.nlocals)
  {
  }

  lemma OneMorePlaceable(fn: Func, values: seq<IrValue>, lives: seq<Life>, opts: Options, n: nat)
    requires WellFormed(fn) && PlaceableTo(fn, values, lives, opts, n) && n < |values| && n < |lives|
    requires Placeable(fn, values[n], n, lives[n], opts)
    ensures PlaceableTo(fn, values, lives, opts, n + 1)
  {
    hide Placeable, WellFormed;
  }

  lemma AllPlaceableNow(fn: Func, values: seq<IrValue>, lives: seq<Life>, opts: Options)
    requires WellFormed(fn) && PlaceableTo(fn, values, lives, opts, fn.nlocals + fn.nvalues)
    ensures AllPlaceable(fn, values, lives, opts)
  {
    hide Placeable, WellFormed;
  }

  lemma NotAllPlaceable(fn: Func, values: seq<IrValue>, lives: seq<Life>, opts: Options, v: nat)
    requires WellFormed(fn) && fn.nlocals <= v < fn.nlocals + fn.nvalues && v < |values| && v < |lives|
    requires !Placeable(fn, values[v], v, lives[v], opts)
    ensures !AllPlaceable(fn, values, lives, opts)
  {
    hide Placeable, WellFormed;
  }

  lemma NoTempsYet(f: IrFunction, lock: FunctionAllocator, temps: FunctionAllocator, lives: seq<Life>, places: seq<Place>, opts: Options)
    requires Allocating(f, lock, temps, lives, places) && |places| == f.fn.nlocals
    ensures WellFormed(f.fn) && TempsByRule(f.fn, f.values, lives, places, opts)
  {
  }

  /** A place for any value that still exists. */
  method AllocateTemps(f: IrFunction, lock: FunctionAllocator, temps: FunctionAllocator, opts: Options,
                       ghost lives: seq<Life>, ghost facts: Facts, ghost locked0: set<nat>, ghost places0: seq<Place>)
    returns (ok: bool, ghost places: seq<Place>)
    requires Allocating(f, lock, temps, lives, places0) && AllOfKind(f.values, places0, opts)
    requires |places0| == f.fn.nlocals && f.fn.nparams <= f.fn.nlocals <= f.fn.nlocals + f.fn.nvalues <= |f.values|
    requires Solved(f.fn, facts, locked0) && Denotes(facts, lives)
    requires f.Built() && SitesListed(f)
    modifies lock`locals, lock`sizes, lock`unique, lock`occupants, lock.locals`life
    modifies temps`locals, temps`sizes, temps`unique, temps`occupants, temps.locals`life
    modifies f.values`local, f.values`callParam, f.values`inReturn, f.values`codeAddress
    ensures ok ==> Allocating(f, lock, temps, lives, places) && AllOfKind(f.values, places, opts)
    ensures ok ==> |places| == f.fn.nlocals + f.fn.nvalues && places0 <= places
    ensures WellFormed(f.fn) && (ok <==> AllPlaceable(f.fn, f.values, lives, opts))
    ensures ok ==> WellFormed(f.fn) && TempsByRule(f.fn, f.values, lives, places, opts)
    ensures !opts.globalTemps ==> temps.locals == old(temps.locals)
    ensures f.facts == old(f.facts)
  {
    hide *;
    ok, places := true, places0;
    NoTempsYet(f, lock, temps, lives, places, opts);
    NonePlacedYet(f, lock, temps, lives, places, opts);
    for v := f.fn.nlocals to f.fn.nlocals + f.fn.nvalues
      invariant places0 <= places && TempsByRule(f.fn, f.values, lives, places, opts)
      invariant PlaceableTo(f.fn, f.values, lives, opts, v)
      invariant !opts.globalTemps ==> temps.locals == old(temps.locals)
      invariant Allocating(f, lock, temps, lives, places) && AllOfKind(f.values, places, opts) && |places| == v && ok
      invariant f.facts == old(f.facts)
      invariant forall i :: |old(lock.locals)| <= i < |lock.locals| ==> fresh(lock.locals[i])
      invariant |old(lock.locals)| <= |lock.locals| && lock.locals[..|old(lock.locals)|] == old(lock.locals)
      invariant forall i :: |old(temps.locals)| <= i < |temps.locals| ==> fresh(temps.locals[i])
      invariant |old(temps.locals)| <= |temps.locals| && temps.locals[..|old(temps.locals)|] == old(temps.locals)
    {
      ghost var place;
      ok, place := PlaceTemp(f, lock, temps, opts, lives, facts, locked0, places, v);
      if !ok {
        NotAllPlaceable(f.fn, f.values, lives, opts, v);
        return;
      }
      OneMorePlaceable(f.fn, f.values, lives, opts, v);
      OneMoreOfKind(f.values, places, place, opts);
      OneMoreByRule(f.fn, f.values, lives, places, place, opts);
      places := places + [place];
    }
    AllPlaceableNow(f.fn, f.values, lives, opts);
  }

  // ----- from slots to positions -----

  ghost function Outcome(places: seq<Place>, lock: FunctionAllocator, temps: FunctionAllocator): Assignment
    reads lock`occupants, lock`sizes, temps`occupants, temps`sizes
  {
    Assignment(places, lock.occupants, lock.sizes, temps.occupants, temps.sizes)
  }

  lemma SlotsAreSafe(a: FunctionAllocator, lives: seq<Life>, need: seq<nat>)
    requires a.Valid(lives, need) && |need| == |lives|
    ensures SlotsSafe(lives, need, a.occupants, a.sizes)
  {
    forall c, u, w | 0 <= c < |a.occupants| && u in a.occupants[c] && w in a.occupants[c] && u != w
      ensures u < |lives| && w < |lives| && !Overlap(lives[u], lives[w])
    {
      assert SlotHolds(lives, need, a.occupants[c], a.locals[c].life, a.sizes[c], a.unique[c]);
    }
    forall c, u | 0 <= c < |a.occupants| && u in a.occupants[c] ensures u < |lives| && need[u] <= a.sizes[c] {
      assert SlotHolds(lives, need, a.occupants[c], a.locals[c].life, a.sizes[c], a.unique[c]);
    }
  }

  lemma ParamsAreFirst(fn: Func, asg: Assignment)
    requires ParamSlots(fn, asg.places, asg.lockSizes) && fn.nparams <= |asg.places|
    ensures ParamsFirst(fn, asg)
  {
    assert fn.nparams > 0 ==> SlotOfParam(fn, asg.places, asg.lockSizes, fn.nparams - 1);
    forall p | 0 <= p < fn.nparams ensures p < |asg.lockSizes| && asg.places[p] == InLock(p) && asg.lockSizes[p] == fn.sizes[p] {
      assert SlotOfParam(fn, asg.places, asg.lockSizes, p);
    }
  }

  lemma ValuesPlaced(f: IrFunction, lives: seq<Life>, asg: Assignment)
    requires f.Valid() && lives == Lives(f.values) && |asg.places| <= |f.values|
    requires AllTied(f.values, asg.places, asg.locks, asg.temps) && ParksSafe(f.fn, asg.places)
    ensures forall v :: 0 <= v < |asg.places| ==> PlaceSafe(f.fn, f.facts.locked, lives, f.fn.sizes, asg, v)
  {
    forall v | 0 <= v < |asg.places| ensures PlaceSafe(f.fn, f.facts.locked, lives, f.fn.sizes, asg, v) {
      assert Tied(f.values[v], v, asg.places[v], asg.locks, asg.temps) && ParkSafe(f.fn, v, asg.places[v]);
      assert f.values[v].life == lives[v];
      hide WellFormed, WrittenOnce, OnlyPassedAs, OnlyWrittenByCalls;
    }
  }

  /** What the allocation has established once every value has its place. */
  lemma OutcomeSafe(f: IrFunction, lock: FunctionAllocator, temps: FunctionAllocator, lives: seq<Life>, places: seq<Place>)
    requires Allocating(f, lock, temps, lives, places) && |places| == f.fn.nlocals + f.fn.nvalues
    ensures Safe(f.fn, f.facts.locked, lives, Outcome(places, lock, temps))
    ensures ParamsFirst(f.fn, Outcome(places, lock, temps))
  {
    hide SlotsSafe, PlaceSafe, ParksSafe, AllTied, Untouched, Filed, ParamSlots, ParamsFirst, Progress, Allocating;
    AllocatingParts(f, lock, temps, lives, places);
    FunctionShape(f);
    SlotsAreSafe(lock, lives, f.fn.sizes);
    SlotsAreSafe(temps, lives, f.fn.sizes);
    ParamsAreFirst(f.fn, Outcome(places, lock, temps));
    ValuesPlaced(f, lives, Outcome(places, lock, temps));
  }

  /** Where the code generator will find value v, before the addresses of the two regions are known. */
  ghost predicate Positioned(value: IrValue, asg: Assignment, v: nat)
    requires v < |asg.places|
    reads value`local, value`callParam, value`inReturn, value`codeAddress, value`locked
  {
    match asg.places[v]
    case InLock(a) => a <= |asg.lockSizes| && value.local == Sum(asg.lockSizes[..a]) && !value.callParam && !value.inReturn
    case InTemps(a) => a <= |asg.tempSizes| && value.local == Sum(asg.tempSizes[..a]) && !value.callParam && !value.inReturn
                       && !value.locked
    case AtParm(k) => value.callParam && !value.inReturn && value.codeAddress == OFS_PARM0 + 3 * k
    case AtReturn => value.inReturn && !value.callParam
    case Nowhere => !value.callParam && !value.inReturn
  }

  lemma PositionIsTied(value: IrValue, v: nat, place: Place, opts: Options,
                       lock: seq<set<nat>>, temps: seq<set<nat>>, lockSizes: seq<nat>, tempSizes: seq<nat>,
                       lockPos: seq<nat>, tempPos: seq<nat>)
    requires Tied(value, v, place, lock, temps) && OfKind(value, place, opts)
    requires |lock| == |lockSizes| <= |lockPos| && |temps| == |tempSizes| <= |tempPos| && lockPos != [] && tempPos != []
    requires LaidOut(lockPos[..|lockSizes|], lockSizes) && LaidOut(tempPos[..|tempSizes|], tempSizes)
    ensures var pos := if value.locked || !opts.globalTemps then lockPos else tempPos;
            && value.local < |pos|
            && (place.InLock? ==> place.slot <= |lockSizes| && pos[value.local] == Sum(lockSizes[..place.slot]))
            && (place.InTemps? ==> place.slot <= |tempSizes| && pos[value.local] == Sum(tempSizes[..place.slot]))
  {
    match place
    case InLock(a) => assert lockPos[..|lockSizes|][a] == Sum(lockSizes[..a]);
    case InTemps(a) => assert tempPos[..|tempSizes|][a] == Sum(tempSizes[..a]);
    case _ =>
  }

  method TakePosition(value: IrValue, lock: FunctionAllocator, temps: FunctionAllocator, opts: Options, ghost v: nat, ghost asg: Assignment)
    requires v < |asg.places| && |lock.occupants| == |lock.sizes| && |temps.occupants| == |temps.sizes|
    requires asg == Outcome(asg.places, lock, temps)
    requires Tied(value, v, asg.places[v], lock.occupants, temps.occupants) && OfKind(value, asg.places[v], opts)
    requires |lock.sizes| <= |lock.positions| && lock.positions != [] && LaidOut(lock.positions[..|lock.sizes|], lock.sizes)
    requires |temps.sizes| <= |temps.positions| && temps.positions != [] && LaidOut(temps.positions[..|temps.sizes|], temps.sizes)
    modifies value`local
    ensures Positioned(value, asg, v)
  {
    PositionIsTied(value, v, asg.places[v], opts, lock.occupants, temps.occupants, lock.sizes, temps.sizes,
                   lock.positions, temps.positions);
    value.local := if value.locked || !opts.globalTemps then lock.positions[value.local] else temps.positions[value.local];
  }

  ghost predicate AllPositioned(values: seq<IrValue>, asg: Assignment, n: nat)
    reads values
  {
    n <= |asg.places| <= |values| && forall v :: 0 <= v < n ==> Positioned(values[v], asg, v)
  }

  /** Take over the actual slot positions, on locals and on values. */
  method TakePositions(f: IrFunction, lock: FunctionAllocator, temps: FunctionAllocator, opts: Options, ghost asg: Assignment)
    requires f.Built() && |asg.places| == f.fn.nlocals + f.fn.nvalues <= |f.values|
    requires |lock.occupants| == |lock.sizes| && |temps.occupants| == |temps.sizes| && asg == Outcome(asg.places, lock, temps)
    requires AllTied(f.values, asg.places, lock.occupants, temps.occupants) && AllOfKind(f.values, asg.places, opts)
    requires |lock.sizes| <= |lock.positions| && lock.positions != [] && LaidOut(lock.positions[..|lock.sizes|], lock.sizes)
    requires |temps.sizes| <= |temps.positions| && temps.positions != [] && LaidOut(temps.positions[..|temps.sizes|], temps.sizes)
    modifies f.values`local
    ensures AllPositioned(f.values, asg, |asg.places|)
  {
    hide LaidOut, Sum, Tied, OfKind, Positioned;
    for v := 0 to f.fn.nlocals + f.fn.nvalues
      invariant forall u :: 0 <= u < v ==> Positioned(f.values[u], asg, u)
      invariant forall u :: v <= u < |asg.places| ==> Tied(f.values[u], u, asg.places[u], lock.occupants, temps.occupants)
      invariant AllOfKind(f.values, asg.places, opts)
    {
      TakePosition(f.values[v], lock, temps, opts, v, asg);
    }
  }

  // ----- the whole allocation -----

  method NewAllocators(f: IrFunction, ghost lives: seq<Life>) returns (lock: FunctionAllocator, temps: FunctionAllocator)
    requires f.Valid() && lives == Lives(f.values) && Untouched(f.values, 0)
    ensures fresh(lock) && fresh(temps) && lock != temps
    ensures lock.locals == [] && lock.sizes == [] && lock.positions == []
    ensures temps.locals == [] && temps.sizes == [] && temps.positions == []
    ensures Allocating(f, lock, temps, lives, [])
  {
    lock := new FunctionAllocator();
    temps := new FunctionAllocator();
  }

  lemma FunctionShape(f: IrFunction)
    requires f.Valid()
    ensures f.Built() && WellFormed(f.fn) && |f.values| == |f.fn.sizes| == |f.fn.stores|
    ensures f.fn.nparams <= f.fn.nlocals <= f.fn.nlocals + f.fn.nvalues <= |f.values|
  {
  }

  lemma OutcomeParts(f: IrFunction, lock: FunctionAllocator, temps: FunctionAllocator, lives: seq<Life>, places: seq<Place>)
    requires Allocating(f, lock, temps, lives, places)
    ensures |lock.occupants| == |lock.sizes| && |temps.occupants| == |temps.sizes|
    ensures var asg := Outcome(places, lock, temps);
            asg.places == places && asg.lockSizes == lock.sizes && asg.tempSizes == temps.sizes
    ensures AllTied(f.values, places, lock.occupants, temps.occupants)
    ensures Outcome(places, lock, temps) == Outcome(Outcome(places, lock, temps).places, lock, temps)
  {
  }

  lemma NoSlotsNoSizes(f: IrFunction, lock: FunctionAllocator, temps: FunctionAllocator, lives: seq<Life>, places: seq<Place>)
    requires Allocating(f, lock, temps, lives, places)
    ensures temps.locals == [] ==> temps.sizes == []
  {
  }

  /** Parameters first, then the other locals. */
  method PlaceLocals(f: IrFunction, opts: Options, ghost lives: seq<Life>, ghost locked0: set<nat>)
    returns (lock: FunctionAllocator, temps: FunctionAllocator, ghost places: seq<Place>)
    requires f.Valid() && Solved(f.fn, f.facts, locked0) && lives == Lives(f.values) && Untouched(f.values, 0)
    modifies f.values`locked, f.values`uniqueLife, f.values`local, f`facts
    ensures fresh(lock) && fresh(temps) && lock != temps && lock.positions == temps.positions == []
    ensures fresh(lock.locals) && fresh(temps.locals) && (!opts.globalTemps ==> temps.locals == [])
    ensures Allocating(f, lock, temps, lives, places) && AllOfKind(f.values, places, opts)
    ensures |places| == f.fn.nlocals && InSlots(places, f.fn.nlocals)
    ensures old(NoUniqueTemps(f)) ==> NoUniqueTemps(f)
    ensures f.facts == old(f.facts).(locked := f.facts.locked) && old(f.facts).locked <= f.facts.locked
  {
    hide *;
    ghost var facts := f.facts;
    FunctionShape(f);
    LivesDenote(f);
    lock, temps := NewAllocators(f, lives);
    var i;
    i, places := AllocateOwn(f, lock, temps, opts, lives);
    GatherKinds(f, places, opts);
    places := AllocateLocalsShared(f, lock, temps, opts, i, lives, facts, locked0, places);
  }

  /** The locals first, then the temporaries. */
  method PlaceAll(f: IrFunction, opts: Options, ghost lives: seq<Life>, ghost locked0: set<nat>)
    returns (ok: bool, lock: FunctionAllocator, temps: FunctionAllocator, ghost places: seq<Place>)
    requires f.Valid() && Solved(f.fn, f.facts, locked0) && lives == Lives(f.values)
    requires Untouched(f.values, 0) && f.Built() && SitesListed(f)
    modifies f.values`locked, f.values`uniqueLife, f.values`local, f.values`callParam, f.values`inReturn, f.values`codeAddress
    modifies f`facts
    ensures fresh(lock) && fresh(temps) && lock != temps && lock.positions == temps.positions == []
    ensures ok ==> Allocating(f, lock, temps, lives, places) && AllOfKind(f.values, places, opts)
    ensures ok ==> |places| == f.fn.nlocals + f.fn.nvalues <= |f.values| && InSlots(places, f.fn.nlocals)
    ensures ok ==> WellFormed(f.fn) && TempsByRule(f.fn, f.values, lives, places, opts)
    ensures ok && !opts.globalTemps ==> temps.sizes == []
    ensures WellFormed(f.fn) && (ok <==> AllPlaceable(f.fn, f.values, lives, opts))
    ensures old(NoUniqueTemps(f)) ==> NoUniqueTemps(f)
    ensures f.facts == old(f.facts).(locked := f.facts.locked) && old(f.facts).locked <= f.facts.locked
  {
    hide *;
    ghost var facts := f.facts;
    FunctionShape(f);
    LivesDenote(f);
    lock, temps, places := PlaceLocals(f, opts, lives, locked0);
    ghost var locals := places;
    ok, places := AllocateTemps(f, lock, temps, opts, lives, facts, locked0, places);
    if ok {
      SlotsPrefix(locals, places, f.fn.nlocals);
      NoSlotsNoSizes(f, lock, temps, lives, places);
    }
  }

  method AllocateLocals(f: IrFunction, opts: Options, ghost lives: seq<Life>, ghost locked0: set<nat>)
    returns (ok: bool, ghost asg: Assignment)
    requires f.Valid() && Solved(f.fn, f.facts, locked0) && lives == Lives(f.values)
    requires Untouched(f.values, 0) && f.Built() && SitesListed(f)
    modifies f.values`locked, f.values`uniqueLife, f.values`local, f.values`callParam, f.values`inReturn, f.values`codeAddress
    modifies f`facts, f`allocatedLocals, f`globalTemps
    ensures old(NoUniqueTemps(f)) ==> NoUniqueTemps(f)
    ensures ok ==> f.Valid() && lives == Lives(f.values)
    ensures ok ==> Safe(f.fn, f.facts.locked, lives, asg) && ParamsFirst(f.fn, asg) && InSlots(asg.places, f.fn.nlocals)
    ensures ok ==> AllPositioned(f.values, asg, |asg.places|) && AllOfKind(f.values, asg.places, opts)
    ensures ok ==> TempsByRule(f.fn, f.values, lives, asg.places, opts) && (!opts.globalTemps ==> asg.tempSizes == [])
    ensures WellFormed(f.fn) && (ok <==> AllPlaceable(f.fn, f.values, lives, opts))
    ensures ok ==> f.allocatedLocals == Sum(asg.lockSizes) && f.globalTemps == Sum(asg.tempSizes)
    ensures f.facts == old(f.facts).(locked := f.facts.locked) && old(f.facts).locked <= f.facts.locked
  {
    hide *;
    var lock, temps;
    ghost var places;
    ok, lock, temps, places := PlaceAll(f, opts, lives, locked0);
    asg := Outcome(places, lock, temps);
    if ok {
      OutcomeSafe(f, lock, temps, lives, places);
      OutcomeParts(f, lock, temps, lives, places);
      AllocatingParts(f, lock, temps, lives, places);
      AdjustPositions(f, lock, temps, opts, asg);
    }
  }

  /** The slots of each allocator one behind the other, and each value told where its slot starts. */
  method AdjustPositions(f: IrFunction, lock: FunctionAllocator, temps: FunctionAllocator, opts: Options, ghost asg: Assignment)
    requires f.Built() && |asg.places| == f.fn.nlocals + f.fn.nvalues <= |f.values|
    requires lock != temps && lock.positions == temps.positions == []
    requires |lock.occupants| == |lock.sizes| && |temps.occupants| == |temps.sizes| && asg == Outcome(asg.places, lock, temps)
    requires asg.lockSizes == lock.sizes && asg.tempSizes == temps.sizes
    requires AllTied(f.values, asg.places, lock.occupants, temps.occupants) && AllOfKind(f.values, asg.places, opts)
    modifies lock`positions, temps`positions, f`allocatedLocals, f`globalTemps, f.values`local
    ensures AllPositioned(f.values, asg, |asg.places|) && AllOfKind(f.values, asg.places, opts)
    ensures f.allocatedLocals == Sum(asg.lockSizes) && f.globalTemps == Sum(asg.tempSizes)
  {
    hide *;
    f.allocatedLocals := lock.Layout();
    f.globalTemps := temps.Layout();
    TakePositions(f, lock, temps, opts, asg);
  }

  lemma GatherKinds(f: IrFunction, places: seq<Place>, opts: Options)
    requires |places| <= |f.values| && forall u :: 0 <= u < |places| ==> OfKind(f.values[u], places[u], opts)
    ensures AllOfKind(f.values, places, opts)
  {
  }

  // ----- addresses -----

  /** The address the code generator emits for a value. */
  function CodeAddress(value: IrValue): nat
    reads value`inReturn, value`codeAddress
  {
    if value.inReturn then OFS_RETURN else value.codeAddress
  }

  ghost predicate Addressed(value: IrValue, asg: Assignment, firstlocal: nat, firstglobal: nat, v: nat)
    requires v < |asg.places|
    reads value`inReturn, value`codeAddress
  {
    asg.places[v] != Nowhere ==> CodeAddress(value) == Address(asg, firstlocal, firstglobal, v)
  }

  method SetAddress(value: IrValue, local: bool, opts: Options, firstlocal: nat, firstglobal: nat, ghost asg: Assignment, ghost v: nat)
    requires v < |asg.places| && Positioned(value, asg, v) && OfKind(value, asg.places[v], opts)
    requires local ==> !asg.places[v].AtParm? && !asg.places[v].AtReturn?
    requires !opts.globalTemps ==> firstglobal == firstlocal
    modifies value`codeAddress
    ensures Addressed(value, asg, firstlocal, firstglobal, v)
  {
    if local {
      if value.locked || !opts.globalTemps {
        value.codeAddress := firstlocal + value.local;
      } else {
        value.codeAddress := firstglobal + value.local;
      }
    } else if !value.callParam {
      if value.locked {
        value.codeAddress := firstlocal + value.local;
      } else {
        value.codeAddress := firstglobal + value.local;
      }
    }
  }

  ghost predicate Waiting(values: seq<IrValue>, asg: Assignment, v: nat)
    reads values
  {
    |asg.places| <= |values| && forall u :: v <= u < |asg.places| ==> Positioned(values[u], asg, u)
  }

  ghost predicate HaveAddresses(values: seq<IrValue>, asg: Assignment, firstlocal: nat, firstglobal: nat, v: nat)
    reads values`inReturn, values`codeAddress
  {
    v <= |asg.places| <= |values| && forall u :: 0 <= u < v ==> Addressed(values[u], asg, firstlocal, firstglobal, u)
  }

  method AddressNext(f: IrFunction, v: nat, local: bool, opts: Options, firstlocal: nat, firstglobal: nat, ghost asg: Assignment)
    requires f.Built() && v < |asg.places| && AllOfKind(f.values, asg.places, opts)
    requires Waiting(f.values, asg, v) && HaveAddresses(f.values, asg, firstlocal, firstglobal, v)
    requires local ==> !asg.places[v].AtParm? && !asg.places[v].AtReturn?
    requires !opts.globalTemps ==> firstglobal == firstlocal
    modifies {f.values[v]}`codeAddress
    ensures Waiting(f.values, asg, v + 1) && HaveAddresses(f.values, asg, firstlocal, firstglobal, v + 1)
  {
    hide Addressed, Positioned, OfKind, Address, WellFormed;
    SetAddress(f.values[v], local, opts, firstlocal, firstglobal, asg, v);
  }

  /** Give the values of a function their final addresses: its own region, or the one it shares with others. */
  method GenerateFunctionLocals(f: IrFunction, opts: Options, overlapLocals: bool, commonLocal: nat, commonTemps: nat, nglobals: nat,
                                ghost asg: Assignment)
    returns (firstlocal: nat, firstglobal: nat)
    requires f.Built() && AllPositioned(f.values, asg, |asg.places|) && AllOfKind(f.values, asg.places, opts)
    requires |asg.places| == f.fn.nlocals + f.fn.nvalues
    requires forall v :: 0 <= v < f.fn.nlocals ==> !asg.places[v].AtParm? && !asg.places[v].AtReturn?
    modifies f.values`codeAddress
    ensures firstlocal == if overlapLocals && !f.noLocalTemps then commonLocal else nglobals
    ensures firstglobal == if opts.globalTemps then commonTemps else firstlocal
    ensures forall v :: 0 <= v < |asg.places| ==> Addressed(f.values[v], asg, firstlocal, firstglobal, v)
  {
    firstlocal := if overlapLocals && !f.noLocalTemps then commonLocal else nglobals;
    firstglobal := if opts.globalTemps then commonTemps else firstlocal;
    hide Addressed, Positioned, AllOfKind, Address, WellFormed;
    for v := 0 to f.fn.nlocals + f.fn.nvalues
      invariant Waiting(f.values, asg, v) && HaveAddresses(f.values, asg, firstlocal, firstglobal, v)
      invariant AllOfKind(f.values, asg.places, opts)
    {
      AddressNext(f, v, v < f.fn.nlocals, opts, firstlocal, firstglobal, asg);
    }
  }

  // ----- everything a function goes through -----

  ghost predicate Unfinished(f: IrFunction)
    reads f`facts, f.values, f.blocks`living
  {
    && f.Valid() && Untouched(f.values, 0) && SitesListed(f)
    && f.facts.alive == {} && f.facts.living == seq(|f.fn.blocks|, b => {})
  }

  lemma UnfinishedParts(f: IrFunction)
    requires Unfinished(f)
    ensures f.Valid() && f.Built() && Untouched(f.values, 0) && SitesListed(f)
    ensures (forall v: nat, id: nat :: (v, id) !in f.facts.alive) && f.facts.living == seq(|f.fn.blocks|, b => {})
  {
  }

  /** Number the instructions, compute the lives, give every value its place. */
  method FinalizeFunction(f: IrFunction, opts: Options)
    returns (ok: bool, ghost facts: Facts, ghost lives: seq<Life>, ghost asg: Assignment)
    requires Unfinished(f)
    modifies f.blocks, f.values, f`facts, f`runId, f`noLocalTemps, f`allocatedLocals, f`globalTemps
    ensures Solved(f.fn, facts, old(f.facts.locked)) && Invariant(f.fn, facts, old(f.facts.locked)) && Denotes(facts, lives)
    ensures f.noLocalTemps <==> old(f.noLocalTemps) || Uninitialized(f.fn, facts)
    ensures facts.locked <= f.facts.locked
    ensures old(NoUniqueTemps(f)) ==> NoUniqueTemps(f)
    ensures ok ==> f.Valid() && lives == Lives(f.values)
    ensures ok ==> Safe(f.fn, f.facts.locked, lives, asg) && ParamsFirst(f.fn, asg) && InSlots(asg.places, f.fn.nlocals)
    ensures ok ==> AllPositioned(f.values, asg, |asg.places|) && AllOfKind(f.values, asg.places, opts)
    ensures ok ==> TempsByRule(f.fn, f.values, lives, asg.places, opts) && (!opts.globalTemps ==> asg.tempSizes == [])
    ensures WellFormed(f.fn) && (ok <==> AllPlaceable(f.fn, f.values, lives, opts))
    ensures ok ==> f.allocatedLocals == Sum(asg.lockSizes) && f.globalTemps == Sum(asg.tempSizes)
  {
    hide *;
    UnfinishedParts(f);
    ghost var locked0 := f.facts.locked;
    f.Enumerate();
    f.CalculateLiferanges();
    FlaggedWhen(f);
    f.FlagUninitialized();
    facts, lives := f.facts, Lives(f.values);
    LivesDenote(f);
    ok, asg := AllocateLocals(f, opts, lives, locked0);
  }

  /** Some local variable may be read before it is written. */
  ghost predicate Uninitialized(fn: Func, f: Facts) {
    |f.living| > 0 && exists v :: v in f.living[0] && v < |fn.stores| && fn.stores[v].Local?
  }

  lemma FlaggedWhen(f: IrFunction)
    ensures f.HasUninitialized() <==> Uninitialized(f.fn, f.facts)
  {
    if f.HasUninitialized() {
      var v :| v in f.facts.living[0] && f.IsLocal(v);
    }
    if Uninitialized(f.fn, f.facts) {
      var v :| v in f.facts.living[0] && v < |f.fn.stores| && f.fn.stores[v].Local?;
      assert f.IsLocal(v);
    }
  }
}
