// Which arguments are parked in the cell they are passed in, and when they can stay there.

module ParkingRule {
  import opened Ir
  import opened Wrappers
  import opened Liveness
  import opened Placement

  /** v must survive a call: it is an operand of it, or can be read after it before it is written. */
  ghost predicate KeptAcross(fn: Func, v: nat)
    requires WellFormed(fn)
  {
    exists b: nat, i: nat :: At(fn, b, i) && AcrossCallAt(fn, v, b, i)
  }

  /** The function's own values that must survive a call. */
  ghost function Kept(fn: Func): set<nat>
    requires WellFormed(fn)
  {
    set v | 0 <= v < fn.nlocals + fn.nvalues && KeptAcross(fn, v)
  }

  ghost predicate AcrossCallAt(fn: Func, v: nat, b: nat, i: nat)
    requires WellFormed(fn) && At(fn, b, i)
  {
    var ins := InstrAt(fn, b, i);
    ins.op.Call? && (v in OpUses(fn, ins) || (v !in Defs(fn, ins) && Readable(fn, v, b, i + 1)))
  }

  /** The rule: a temporary that is not locked, has one write, and has one read, which is argument k of a call. */
  ghost predicate Parks(fn: Func, locked: set<nat>, v: nat, k: nat)
    requires WellFormed(fn)
  {
    fn.nlocals <= v < fn.nlocals + fn.nvalues && v !in locked && k < 8 && WrittenOnce(fn, v) && OnlyPassedAs(fn, v, k)
  }

  /** No argument is written into the cell of another one that is still to be passed. */
  ghost predicate Undisturbed(fn: Func, locked: set<nat>)
    requires WellFormed(fn)
  {
    forall b: nat, i: nat, u: nat, d: nat, k: nat ::
      At(fn, b, i) && d in Defs(fn, InstrAt(fn, b, i)) && Readable(fn, u, b, i + 1) && u != d ==>
        !(Parks(fn, locked, u, k) && Parks(fn, locked, d, k))
  }

  /** Once v has been computed, control is bound for the call it is passed in: every way out of a block leads on to it. */
  ghost predicate BoundForCall(fn: Func, v: nat)
    requires WellFormed(fn)
  {
    && (forall b: nat, i: nat :: At(fn, b, i) && v in Defs(fn, InstrAt(fn, b, i)) ==> Readable(fn, v, b, i + 1))
    && (forall b: nat, k: nat :: b < |fn.blocks| && Readable(fn, v, b, |fn.blocks[b].instrs|) && k < |fn.blocks[b].exits| && LeadsTo(fn, b, k) ==>
          Readable(fn, v, fn.blocks[b].exits[k], 0))
  }

  lemma NotReadHere(fn: Func, v: nat, b: nat, i: nat)
    requires WellFormed(fn) && At(fn, b, i) && Readable(fn, v, b, i) && v !in Uses(fn, InstrAt(fn, b, i))
    ensures v !in Defs(fn, InstrAt(fn, b, i)) && Readable(fn, v, b, i + 1)
  {
    var n: nat :| ReadOnPath(fn, v, b, i, n);
    assert ReadOnPath(fn, v, b, i + 1, n);
  }

  lemma NothingAfterLastCall(fn: Func, v: nat, b: nat, i: nat)
    requires WellFormed(fn) && At(fn, b, i) && InstrAt(fn, b, i).op.NrCall?
    ensures !Readable(fn, v, b, i + 1)
  {
    assert WellFormedBlock(fn, fn.blocks[b]) && Terminates(InstrAt(fn, b, i).op);
  }

  /** An argument of another call, waiting where a call is made, is kept across it. */
  lemma WaitsAcross(fn: Func, v: nat, b: nat, i: nat)
    requires WellFormed(fn) && At(fn, b, i) && IsCall(InstrAt(fn, b, i).op)
    requires Readable(fn, v, b, i) && v !in Uses(fn, InstrAt(fn, b, i))
    ensures KeptAcross(fn, v)
  {
    NotReadHere(fn, v, b, i);
    if InstrAt(fn, b, i).op.NrCall? {
      NothingAfterLastCall(fn, v, b, i);
    } else {
      assert AcrossCallAt(fn, v, b, i);
    }
  }

  /** Two values passed as argument k of calls are not passed in the same call. */
  lemma NotBoth(fn: Func, locked: set<nat>, u: nat, d: nat, k: nat, b: nat, i: nat)
    requires WellFormed(fn) && At(fn, b, i) && u != d && Parks(fn, locked, u, k) && Parks(fn, locked, d, k)
    requires u in Uses(fn, InstrAt(fn, b, i))
    ensures IsCall(InstrAt(fn, b, i).op) && d !in Uses(fn, InstrAt(fn, b, i))
  {
    var c: nat, j: nat :| OnlyReadAsArgument(fn, u, c, j, k);
    var e: nat, l: nat :| OnlyReadAsArgument(fn, d, e, l, k);
    assert c == b && j == i;
    hide Uses, OpUses, Readable, WrittenOnce;
  }

  lemma OnTheWay(fn: Func, v: nat, b: nat, e: nat)
    requires WellFormed(fn) && b < |fn.blocks| && e < |fn.blocks[b].exits| && LeadsTo(fn, b, e)
    requires BoundForCall(fn, v) && Readable(fn, v, b, |fn.blocks[b].instrs|)
    ensures Readable(fn, v, fn.blocks[b].exits[e], 0)
  {
  }

  lemma ParkedIsNotKept(fn: Func, locked: set<nat>, v: nat, k: nat)
    requires WellFormed(fn) && Parks(fn, locked, v, k) && Kept(fn) <= locked
    ensures !KeptAcross(fn, v)
  {
  }

  /** Two parked arguments are never on their way to the same cell at once: whichever call comes first, the other is kept across it. */
  lemma {:induction false} NeverMeet(fn: Func, locked: set<nat>, u: nat, d: nat, k: nat, b: nat, i: nat, n: nat)
    requires WellFormed(fn) && b < |fn.blocks| && i <= |fn.blocks[b].instrs| && u != d
    requires Parks(fn, locked, u, k) && Parks(fn, locked, d, k) && BoundForCall(fn, d)
    requires Kept(fn) <= locked
    requires ReadOnPath(fn, u, b, i, n) && Readable(fn, d, b, i)
    ensures false
    decreases n, |fn.blocks[b].instrs| - i
  {
    hide Parks, BoundForCall, KeptAcross, Uses, Defs, WellFormed;
    if i == |fn.blocks[b].instrs| {
      var e :| 0 <= e < |fn.blocks[b].exits| && LeadsTo(fn, b, e) && ReadOnPath(fn, u, fn.blocks[b].exits[e], 0, n - 1);
      OnTheWay(fn, d, b, e);
      NeverMeet(fn, locked, u, d, k, fn.blocks[b].exits[e], 0, n - 1);
    } else {
      var ins := InstrAt(fn, b, i);
      assert Readable(fn, u, b, i);
      if u in Uses(fn, ins) {
        NotBoth(fn, locked, u, d, k, b, i);
        WaitsAcross(fn, d, b, i);
        ParkedIsNotKept(fn, locked, d, k);
      } else if d in Uses(fn, ins) {
        NotBoth(fn, locked, d, u, k, b, i);
        WaitsAcross(fn, u, b, i);
        ParkedIsNotKept(fn, locked, u, k);
      } else {
        NotReadHere(fn, d, b, i);
        NeverMeet(fn, locked, u, d, k, b, i + 1, n);
      }
    }
  }

  /** If all parked arguments are bound for their calls, none is disturbed, wherever they are computed. */
  lemma BoundIsUndisturbed(fn: Func, locked: set<nat>)
    requires WellFormed(fn) && Kept(fn) <= locked
    requires forall v: nat, k: nat :: Parks(fn, locked, v, k) ==> BoundForCall(fn, v)
    ensures Undisturbed(fn, locked)
  {
    forall b: nat, i: nat, u: nat, d: nat, k: nat
      | At(fn, b, i) && d in Defs(fn, InstrAt(fn, b, i)) && Readable(fn, u, b, i + 1) && u != d
      ensures !(Parks(fn, locked, u, k) && Parks(fn, locked, d, k))
    {
      if Parks(fn, locked, u, k) && Parks(fn, locked, d, k) {
        var n: nat :| ReadOnPath(fn, u, b, i + 1, n);
        NeverMeet(fn, locked, u, d, k, b, i + 1, n);
      }
    }
  }

  /** The analysis locks exactly what must survive a call. */
  lemma LockedIsKept(fn: Func, f: Facts, locked0: set<nat>, v: nat)
    requires Invariant(fn, f, locked0) && Solved(fn, f, locked0) && SelfLoopsClear(fn)
    ensures v in f.locked <==> v in locked0 || KeptAcross(fn, v)
  {
    forall b: nat, i: nat | At(fn, b, i)
      ensures LockedBy(fn, f.living, b, i, v) <==> AcrossCallAt(fn, v, b, i)
    {
      LiveAfterIs(fn, f, locked0, b, i, v);
      hide LiveBefore, Readable, Defs, OpUses, Solved, Invariant, SelfLoopsClear;
    }
    hide LockedBy, AcrossCallAt, SelfLoopsClear, Invariant;
    if b: nat, i: nat :| At(fn, b, i) && AcrossCallAt(fn, v, b, i) {
      assert LockedIn(fn, f.living, b, v);
    }
  }

  lemma LiveAfterIs(fn: Func, f: Facts, locked0: set<nat>, b: nat, i: nat, v: nat)
    requires Invariant(fn, f, locked0) && Solved(fn, f, locked0) && SelfLoopsClear(fn) && At(fn, b, i)
    ensures v in LiveBefore(fn, f.living, b, i + 1) <==> Readable(fn, v, b, i + 1)
  {
    LiveEverywhereIff(fn, f, locked0);
    if v in LiveBefore(fn, f.living, b, i + 1) {
      LiveIsReadable(fn, f.living, b, i + 1, v);
    }
  }
}
