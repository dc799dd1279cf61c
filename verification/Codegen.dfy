// Generating the flow graph of a function body, statement by statement, the
// way the syntax tree does it: one current block, and stacks of the blocks
// that breaks and continues lead to.

module Codegen {
  import opened Wrappers
  import opened Structured
  import opened FlowGraph
  import opened Simulation
  import opened LoopWiring
  import opened SwitchWiring
  import opened Settling
  import opened Building
  import opened Lowering

  class FunctionBody {
    var blocks: Graph
    var cur: nat
    var breaks: seq<nat>
    var continues: seq<nat>
    var temps: nat
    // Whether branches on literals are folded away, and whether warnings are errors.
    const folds: bool
    const strict: bool

    constructor (folds: bool, strict: bool)
      ensures Valid() && blocks == [BasicBlock([], Open, [])] && cur == 0 && breaks == [] && continues == []
      ensures this.folds == folds && this.strict == strict
    {
      this.folds, this.strict := folds, strict;
      blocks, cur, breaks, continues, temps := [BasicBlock([], Open, [])], 0, [], [], 0;
    }

    ghost predicate Valid()
      reads this
    {
      && cur < |blocks| && Entered(blocks)
      && (forall k :: 0 <= k < |breaks| ==> breaks[k] < |blocks|)
      && (forall k :: 0 <= k < |continues| ==> continues[k] < |blocks|)
    }

    /** Where the next instruction goes. */
    ghost function Here(): Point
      reads this
    {
      EndOf(blocks, cur)
    }

    /** Since g, where b was current, statement s has been generated: it runs from p to here. */
    ghost predicate Generated(g: Graph, b: nat, s: Stmt, p: Point)
      reads this
    {
      && Valid() && Kept(g, blocks, b) && (cur == b || |g| <= cur)
      && (blocks[cur].exit.Open? <==> Completes(s, folds))
      && Settled(blocks, s, p, Here(), breaks, continues)
    }

    /** Blocks are identified by the order of their creation. */
    method CreateBlock() returns (b: nat)
      requires Valid()
      modifies this`blocks
      ensures Valid() && b == old(|blocks|) && blocks == old(blocks) + [BasicBlock([], Open, [])]
      ensures forall c :: 0 <= c < b ==> Kept(old(blocks), blocks, c)
    {
      b := |blocks|;
      blocks := blocks + [BasicBlock([], Open, [])];
      assert forall c :: 0 <= c < b ==> blocks[c] == old(blocks)[c] && EntersKnown(old(blocks), c);
    }

    /** Adds an instruction to the current block. */
    method Emit(i: Instr)
      requires Valid() && blocks[cur].exit.Open?
      modifies this`blocks
      ensures Valid() && Kept(old(blocks), blocks, cur) && |blocks| == old(|blocks|)
      ensures blocks[cur].code == old(blocks[cur].code) + [i] && blocks[cur].exit == Open
    {
      blocks := blocks[cur := blocks[cur].(code := blocks[cur].code + [i])];
      assert EntersKnown(old(blocks), cur);
      StillEntered(old(blocks), blocks, cur);
    }

    method Enter(b: nat)
      requires Valid() && b < |blocks|
      modifies this`cur
      ensures Valid() && cur == b && Here() == Point(b, |blocks[b].code|)
    {
      cur := b;
    }

    method FreshTemp() returns (t: nat)
      modifies this`temps
      ensures t == old(temps) && temps == t + 1
    {
      t := temps;
      temps := temps + 1;
    }

    /** An expression: one instruction whose result is a new temporary. */
    method Expression(e: nat) returns (t: nat)
      requires Valid() && blocks[cur].exit.Open?
      modifies this`blocks, this`temps
      ensures Valid() && Kept(old(blocks), blocks, cur) && |blocks| == old(|blocks|) && t == old(temps) && temps == t + 1
      ensures blocks[cur].code == old(blocks[cur].code) + [Eval(t, e)] && blocks[cur].exit == Open
    {
      t := FreshTemp();
      Emit(Eval(t, e));
    }

    method Condition(c: Cond) returns (t: nat)
      requires Valid() && blocks[cur].exit.Open?
      modifies this`blocks, this`temps
      ensures Valid() && Kept(old(blocks), blocks, cur) && |blocks| == old(|blocks|) && t == old(temps) && temps == t + 1
      ensures blocks[cur].code == old(blocks[cur].code) + [CondInstr(c, t)] && blocks[cur].exit == Open
    {
      t := FreshTemp();
      Emit(CondInstr(c, t));
    }

    /** Every exit is refused on a block that already has one. */
    method CreateJump(b: nat, to: nat) returns (ok: bool)
      requires Valid() && b < |blocks| && to < |blocks|
      modifies this`blocks
      ensures ok == old(blocks[b].exit.Open?) && (!ok ==> blocks == old(blocks))
      ensures ok ==> Valid() && Kept(old(blocks), blocks, b) && |blocks| == old(|blocks|) && Passes(blocks, EndOf(old(blocks), b), to)
    {
      ok := blocks[b].exit.Open?;
      if ok {
        blocks := blocks[b := blocks[b].(exit := Jump(to))];
        blocks := blocks[to := blocks[to].(entries := blocks[to].entries + [b])];
        StillEntered(old(blocks), blocks, b);
      }
    }

    method CreateIf(b: nat, t: nat, yes: nat, no: nat) returns (ok: bool)
      requires Valid() && b < |blocks| && yes < |blocks| && no < |blocks|
      modifies this`blocks
      ensures ok == old(blocks[b].exit.Open?) && (!ok ==> blocks == old(blocks))
      ensures ok ==> Valid() && Kept(old(blocks), blocks, b) && |blocks| == old(|blocks|)
      ensures ok ==> blocks[b].code == old(blocks[b].code) && blocks[b].exit == Branch(t, yes, no)
    {
      ok := blocks[b].exit.Open?;
      if ok {
        blocks := blocks[b := blocks[b].(exit := Branch(t, yes, no))];
        blocks := blocks[yes := blocks[yes].(entries := blocks[yes].entries + [b])];
        blocks := blocks[no := blocks[no].(entries := blocks[no].entries + [b])];
        StillEntered(old(blocks), blocks, b);
      }
    }

    method CreateReturn(b: nat) returns (ok: bool)
      requires Valid() && b < |blocks|
      modifies this`blocks
      ensures ok == old(blocks[b].exit.Open?) && (!ok ==> blocks == old(blocks))
      ensures ok ==> Valid() && Kept(old(blocks), blocks, b) && |blocks| == old(|blocks|)
      ensures ok ==> blocks[b].code == old(blocks[b].code) && blocks[b].exit == Leave
    {
      ok := blocks[b].exit.Open?;
      if ok {
        blocks := blocks[b := blocks[b].(exit := Leave)];
        StillEntered(old(blocks), blocks, b);
      }
    }

    /** Generates a statement at the current point; warnings are the only reason to give up. */
    method Statement(s: Stmt) returns (ok: bool)
      requires Valid() && WellFormed(s, |breaks|, |continues|) && blocks[cur].exit.Open?
      modifies this`blocks, this`cur, this`breaks, this`continues, this`temps
      ensures !ok ==> strict
      ensures ok ==> breaks == old(breaks) && continues == old(continues) && temps >= old(temps)
      ensures ok ==> Generated(old(blocks), old(cur), s, old(Here()))
      decreases s, 3
    {
      hide *;
      match s
      case Effect(e) => EffectStatement(e); ok := true;
      case Block(_) => ok := BlockStatement(s);
      case If(_, _, _) => ok := IfStatement(s);
      case Loop(_, _, _, _, _, _, _) => ok := LoopStatement(s);
      case Break(_) => ok := BreakContinue(s);
      case Continue(_) => ok := BreakContinue(s);
      case Return(_) => ok := ReturnStatement(s);
      case Switch(_, _) => ok := SwitchStatement(s);
    }

    method EffectStatement(e: nat)
      requires Valid() && blocks[cur].exit.Open?
      modifies this`blocks, this`temps
      ensures Generated(old(blocks), old(cur), Effect(e), old(Here())) && temps >= old(temps)
    {
      var t := Expression(e);
      hide Settled, Entered;
      EffectSettled(blocks, e, t, old(Here()), Here(), breaks, continues);
    }

    method ReturnStatement(s: Stmt) returns (ok: bool)
      requires Valid() && s.Return? && blocks[cur].exit.Open?
      modifies this`blocks, this`temps
      ensures ok && temps >= old(temps) && Generated(old(blocks), old(cur), s, old(Here()))
    {
      ghost var t := temps;
      if s.operand.Some? {
        var _ := Expression(s.operand.value);
      }
      ghost var g := blocks;
      ok := CreateReturn(cur);
      hide Settled, Entered;
      if s.operand.Some? {
        KeptOn(old(blocks), g, blocks, cur, cur);
      }
      ReturnSettled(blocks, s.operand, t, old(Here()), Here(), breaks, continues);
    }

    /** The target is found by counting levels down from the innermost enclosing statement. */
    method BreakContinue(s: Stmt) returns (ok: bool)
      requires Valid() && (s.Break? || s.Continue?) && WellFormed(s, |breaks|, |continues|) && blocks[cur].exit.Open?
      modifies this`blocks
      ensures ok && Generated(old(blocks), old(cur), s, old(Here()))
    {
      var target := if s.Continue? then continues[|continues| - 1 - s.levels] else breaks[|breaks| - 1 - s.levels];
      ok := CreateJump(cur, target);
      hide Settled, Entered;
      LeapSettled(blocks, s, old(Here()), Here(), target, breaks, continues);
    }

    /** Statements after one that cannot end normally are skipped, with a warning. */
    method BlockStatement(s: Stmt) returns (ok: bool)
      requires Valid() && s.Block? && WellFormed(s, |breaks|, |continues|) && blocks[cur].exit.Open?
      modifies this`blocks, this`cur, this`breaks, this`continues, this`temps
      ensures !ok ==> strict
      ensures ok ==> breaks == old(breaks) && continues == old(continues) && temps >= old(temps)
      ensures ok ==> Generated(old(blocks), old(cur), s, old(Here()))
      decreases s, 0
    {
      ghost var g, b, p := blocks, cur, Here();
      EmptySettled(blocks, p, breaks, continues);
      var i := 0;
      assert s.body[..0] == [];
      while i < |s.body|
        invariant i <= |s.body|
        invariant breaks == old(breaks) && continues == old(continues) && temps >= old(temps)
        invariant Generated(g, b, Block(s.body[..i]), p)
      {
        hide *;
        ExtractGenerated(g, b, Block(s.body[..i]), p);
        assert s.body[..i + 1] == s.body[..i] + [s.body[i]];
        if !blocks[cur].exit.Open? {
          if strict {
            return false;
          }
          SkipNext(g, b, s.body[..i], s.body[i], p);
        } else {
          ghost var mid, at, m := blocks, cur, Here();
          PartFits(s, i, |breaks|, |continues|);
          ok := Statement(s.body[i]);
          if !ok {
            return;
          }
          AddNext(g, b, mid, at, s.body[..i], s.body[i], p, m);
        }
        i := i + 1;
      }
      assert s.body[..i] == s.body;
      ok := true;
    }

    lemma ExtractGenerated(g: Graph, b: nat, s: Stmt, p: Point)
      requires Generated(g, b, s, p)
      ensures Valid() && Kept(g, blocks, b) && (cur == b || |g| <= cur) && b < |g| <= |blocks| && cur < |blocks|
      ensures blocks[cur].exit.Open? <==> Completes(s, folds)
      ensures Settled(blocks, s, p, Here(), breaks, continues)
      ensures Extends(g, blocks)
    {
    }

    lemma SkipNext(g: Graph, b: nat, body: seq<Stmt>, x: Stmt, p: Point)
      requires Generated(g, b, Block(body), p) && cur < |blocks| && !blocks[cur].exit.Open?
      ensures Generated(g, b, Block(body + [x]), p)
    {
      hide Settled, Kept, Entered, Completes;
      IncompleteNeverEnds(Block(body), folds);
      CompletesThen(body, x, folds);
      UnreachableSettled(blocks, body, x, p, Here(), breaks, continues);
    }

    /** One more statement, generated from where the previous ones ended. */
    lemma AddNext(g: Graph, b: nat, mid: Graph, at: nat, body: seq<Stmt>, x: Stmt, p: Point, m: Point)
      requires b < |g| && at < |mid| && (at == b || |g| <= at) && mid[at].exit.Open? && Kept(g, mid, b)
      requires Completes(Block(body), folds) && Settled(mid, Block(body), p, m, breaks, continues)
      requires Generated(mid, at, x, m)
      ensures Generated(g, b, Block(body + [x]), p)
    {
      assert |g| <= |mid|;
      hide Settled, Entered, Completes;
      KeptExtends(mid, blocks, at);
      KeptOn(g, mid, blocks, b, at);
      StaysSettled(mid, blocks, Block(body), p, m, breaks, continues);
      SequenceSettled(blocks, body, x, p, m, Here(), breaks, continues);
      CompletesThen(body, x, folds);
    }

    /** A branch in a block of its own, which becomes the current block. */
    method BranchStatement(s: Stmt) returns (ok: bool, start: nat, end: nat)
      requires Valid() && WellFormed(s, |breaks|, |continues|)
      modifies this`blocks, this`cur, this`breaks, this`continues, this`temps
      ensures !ok ==> strict
      ensures ok ==> breaks == old(breaks) && continues == old(continues) && temps >= old(temps)
      ensures ok ==> Valid() && Grew(old(blocks), blocks) && start == |old(blocks)| && old(|blocks|) <= end == cur < |blocks|
      ensures ok ==> BranchBuilt(blocks, Some(s), start, EndOf(blocks, end), folds, breaks, continues)
      decreases s, 4
    {
      hide *;
      start := CreateBlock();
      ghost var g := blocks;
      Enter(start);
      ok := Statement(s);
      end := cur;
      if ok {
        BranchIsBuilt(old(blocks), g, s, start);
      }
    }

    lemma BranchIsBuilt(g: Graph, mid: Graph, s: Stmt, start: nat)
      requires start == |g| && mid == g + [BasicBlock([], Open, [])] && Generated(mid, start, s, Point(start, 0))
      ensures Valid() && Grew(g, blocks) && |g| <= cur < |blocks|
      ensures BranchBuilt(blocks, Some(s), start, EndOf(blocks, cur), folds, breaks, continues)
    {
      hide Settled, Entered, Completes;
      assert forall c :: 0 <= c < |g| ==> mid[c] == g[c];
    }

    /** Leads the end of a branch to the merge block if control can get there. */
    method JoinBranch(s: Option<Stmt>, start: nat, end: nat, merge: nat)
      requires Valid() && merge < |blocks|
      requires s.Some? ==> BranchBuilt(blocks, s, start, EndOf(blocks, end), folds, breaks, continues)
      modifies this`blocks
      ensures Valid() && |blocks| == old(|blocks|)
      ensures s.Some? ==> end < |old(blocks)| && Kept(old(blocks), blocks, end)
      ensures s.None? ==> blocks == old(blocks)
      ensures BranchSettled(blocks, s, if s.Some? then start else merge, EndOf(old(blocks), end), merge, breaks, continues)
    {
      hide Settled, Entered, Completes;
      if s.Some? {
        if blocks[end].exit.Open? {
          var ok := CreateJump(end, merge);
          KeptExtends(old(blocks), blocks, end);
          StaysSettled(old(blocks), blocks, s.value, Point(start, 0), EndOf(old(blocks), end), breaks, continues);
        } else {
          IncompleteNeverEnds(s.value, folds);
        }
      }
    }

    /** Of an if on a literal only the branch taken is generated, at the current point. */
    method FoldedIf(s: Stmt) returns (ok: bool)
      requires Valid() && s.If? && WellFormed(s, |breaks|, |continues|) && blocks[cur].exit.Open? && folds && s.cond.Literal?
      modifies this`blocks, this`cur, this`breaks, this`continues, this`temps
      ensures !ok ==> strict
      ensures ok ==> breaks == old(breaks) && continues == old(continues) && temps >= old(temps)
      ensures ok ==> Generated(old(blocks), old(cur), s, old(Here()))
      decreases s, 0
    {
      hide Settled, Entered;
      var taken := if s.cond.value != 0 then s.onTrue else s.onFalse;
      ok := true;
      if taken.Some? {
        ok := Statement(taken.value);
      }
      if ok {
        if taken.None? {
          assert Kept(old(blocks), blocks, cur);
        }
        FoldedSettled(blocks, s, old(Here()), Here(), breaks, continues);
      }
    }

    /** An if whose condition is a literal can be folded; otherwise a merge block is made unless neither branch comes out. */
    method IfStatement(s: Stmt) returns (ok: bool)
      requires Valid() && s.If? && WellFormed(s, |breaks|, |continues|) && blocks[cur].exit.Open?
      modifies this`blocks, this`cur, this`breaks, this`continues, this`temps
      ensures !ok ==> strict
      ensures ok ==> breaks == old(breaks) && continues == old(continues) && temps >= old(temps)
      ensures ok ==> Generated(old(blocks), old(cur), s, old(Here()))
      decreases s, 1
    {
      hide *;
      if folds && s.cond.Literal? {
        ok := FoldedIf(s);
        return;
      }
      BranchesFit(s, |breaks|, |continues|);
      ghost var g, p := blocks, Here();
      HereIsKnown();
      var t := Condition(s.cond);
      var cond := cur;
      ghost var g1 := blocks;
      var yes, yesEnd, no, noEnd := 0, 0, 0, 0;
      if s.onTrue.Some? {
        ok, yes, yesEnd := BranchStatement(s.onTrue.value);
        if !ok {
          return;
        }
      } else {
        GrewSame(blocks);
      }
      ghost var g2 := blocks;
      if s.onFalse.Some? {
        ok, no, noEnd := BranchStatement(s.onFalse.value);
        if !ok {
          return;
        }
        if s.onTrue.Some? {
          BuiltStays(g2, blocks, s.onTrue, yes, yesEnd, folds, breaks, continues);
        }
      } else {
        GrewSame(blocks);
      }
      ghost var g3 := blocks;
      GrewOn(g1, g2, g3);
      BranchesBuilt(g, g1, g3, s, p, t, yes, yesEnd, no, noEnd, folds, breaks, continues);
      if s.onTrue.None? || s.onFalse.None? || blocks[yesEnd].exit.Open? || blocks[noEnd].exit.Open? {
        IfCompletes(s, folds);
        ok := MergeBranches(g, s, p, t, cond, yes, yesEnd, no, noEnd);
      } else {
        ok := CreateIf(cond, t, yes, no);
        NoMerge(g, g3, s, p, t, cond, yes, yesEnd, no, noEnd);
      }
    }

    /** The merge block, the jumps into it, and last of all the branch itself. */
    method MergeBranches(ghost g: Graph, s: Stmt, ghost p: Point, t: nat, cond: nat, yes: nat, yesEnd: nat, no: nat, noEnd: nat) returns (ok: bool)
      requires Valid() && s.If? && cond < |g| && Kept(g, blocks, cond) && CondAt(blocks, p, cond, s.cond, t)
      requires BranchBuilt(blocks, s.onTrue, yes, EndOf(blocks, yesEnd), folds, breaks, continues)
      requires BranchBuilt(blocks, s.onFalse, no, EndOf(blocks, noEnd), folds, breaks, continues)
      requires s.onTrue.Some? ==> |g| <= yesEnd && |g| <= yes < |blocks|
      requires s.onFalse.Some? ==> |g| <= noEnd && |g| <= no < |blocks|
      requires s.onTrue.Some? && s.onFalse.Some? ==> yesEnd != noEnd
      requires Completes(s, folds)
      modifies this`blocks, this`cur
      ensures ok && Generated(g, cond, s, p)
    {
      hide *;
      ghost var g3 := blocks;
      var merge := CreateBlock();
      ghost var g4, te := blocks, EndOf(blocks, yesEnd);
      NewBlockFacts(g, g3, s, p, t, cond, yes, yesEnd, no, noEnd);
      JoinBranch(s.onTrue, yes, yesEnd, merge);
      ghost var g5, fe := blocks, EndOf(blocks, noEnd);
      FirstJoined(g, g4, g5, s, p, t, cond, yes, yesEnd, no, noEnd, merge);
      JoinBranch(s.onFalse, no, noEnd, merge);
      ghost var g6 := blocks;
      SecondJoined(g, g5, g6, s, p, t, cond, yes, te, noEnd, merge);
      Enter(merge);
      ok := CreateIf(cond, t, if s.onTrue.Some? then yes else merge, if s.onFalse.Some? then no else merge);
      Merged(g, g6, s, p, t, cond, if s.onTrue.Some? then yes else merge, te, if s.onFalse.Some? then no else merge, fe);
    }

    lemma NewBlockFacts(g: Graph, g3: Graph, s: Stmt, p: Point, t: nat, cond: nat, yes: nat, yesEnd: nat, no: nat, noEnd: nat)
      requires Valid() && s.If? && cond < |g| && Kept(g, g3, cond) && CondAt(g3, p, cond, s.cond, t)
      requires blocks == g3 + [BasicBlock([], Open, [])]
      requires BranchBuilt(g3, s.onTrue, yes, EndOf(g3, yesEnd), folds, breaks, continues)
      requires BranchBuilt(g3, s.onFalse, no, EndOf(g3, noEnd), folds, breaks, continues)
      ensures Kept(g, blocks, cond) && CondAt(blocks, p, cond, s.cond, t)
      ensures cond < |g| <= |g3| < |blocks| && blocks[|g3|] == BasicBlock([], Open, [])
      ensures BranchBuilt(blocks, s.onTrue, yes, EndOf(blocks, yesEnd), folds, breaks, continues)
      ensures BranchBuilt(blocks, s.onFalse, no, EndOf(blocks, noEnd), folds, breaks, continues)
      ensures s.onTrue.Some? ==> yesEnd < |g3|
      ensures s.onFalse.Some? ==> noEnd < |g3|
    {
      hide Settled, Entered, Completes;
      KeptExtends(g3, blocks, cond);
      BuiltStays(g3, blocks, s.onTrue, yes, yesEnd, folds, breaks, continues);
      BuiltStays(g3, blocks, s.onFalse, no, noEnd, folds, breaks, continues);
    }

    lemma FirstJoined(g: Graph, g4: Graph, g5: Graph, s: Stmt, p: Point, t: nat, cond: nat, yes: nat, yesEnd: nat, no: nat, noEnd: nat, merge: nat)
      requires s.If? && cond < |g| && Kept(g, g4, cond) && CondAt(g4, p, cond, s.cond, t) && |g5| == |g4|
      requires if s.onTrue.Some? then Kept(g4, g5, yesEnd) && |g| <= yesEnd else g5 == g4
      requires s.onTrue.Some? && s.onFalse.Some? ==> yesEnd != noEnd
      requires BranchBuilt(g4, s.onFalse, no, EndOf(g4, noEnd), folds, breaks, continues)
      requires merge < |g4| && g4[merge].code == [] && g4[merge].exit == Open && (s.onTrue.Some? ==> yesEnd != merge)
      ensures Kept(g, g5, cond) && CondAt(g5, p, cond, s.cond, t)
      ensures BranchBuilt(g5, s.onFalse, no, EndOf(g5, noEnd), folds, breaks, continues)
      ensures g5[merge].code == [] && g5[merge].exit == Open && g5[cond].exit.Open?
    {
      hide Settled, Entered, Completes;
      if s.onTrue.Some? {
        KeptOn(g, g4, g5, cond, yesEnd);
        KeptExtends(g4, g5, yesEnd);
        if s.onFalse.Some? {
          StaysSettled(g4, g5, s.onFalse.value, Point(no, 0), EndOf(g4, noEnd), breaks, continues);
        }
      }
    }

    lemma SecondJoined(g: Graph, g5: Graph, g6: Graph, s: Stmt, p: Point, t: nat, cond: nat, yes: nat, te: Point, noEnd: nat, merge: nat)
      requires s.If? && cond < |g| && Kept(g, g5, cond) && CondAt(g5, p, cond, s.cond, t) && |g6| == |g5|
      requires if s.onFalse.Some? then Kept(g5, g6, noEnd) && |g| <= noEnd else g6 == g5
      requires merge < |g5| && g5[merge].code == [] && g5[merge].exit == Open && (s.onFalse.Some? ==> noEnd != merge)
      requires BranchSettled(g5, s.onTrue, if s.onTrue.Some? then yes else merge, te, merge, breaks, continues)
      ensures Kept(g, g6, cond) && CondAt(g6, p, cond, s.cond, t)
      ensures BranchSettled(g6, s.onTrue, if s.onTrue.Some? then yes else merge, te, merge, breaks, continues)
      ensures g6[merge].code == [] && g6[merge].exit == Open && g6[cond].exit.Open?
    {
      hide Settled, EndPasses, Entered, Completes;
      if s.onFalse.Some? {
        KeptOn(g, g5, g6, cond, noEnd);
        KeptExtends(g5, g6, noEnd);
        BranchStays(g5, g6, s.onTrue, if s.onTrue.Some? then yes else merge, te, merge, breaks, continues);
      }
    }

    lemma Merged(g: Graph, g6: Graph, s: Stmt, p: Point, t: nat, cond: nat, yes: nat, te: Point, no: nat, fe: Point)
      requires Valid() && s.If? && cond < |g| <= cur < |g6| && Kept(g, g6, cond) && CondAt(g6, p, cond, s.cond, t)
      requires Kept(g6, blocks, cond) && blocks[cond].code == g6[cond].code && blocks[cond].exit == Branch(t, yes, no)
      requires g6[cur].code == [] && g6[cur].exit == Open && Completes(s, folds)
      requires BranchSettled(g6, s.onTrue, yes, te, cur, breaks, continues)
      requires BranchSettled(g6, s.onFalse, no, fe, cur, breaks, continues)
      ensures Generated(g, cond, s, p)
    {
      hide Settled, EndPasses, Entered, Completes;
      KeptOn(g, g6, blocks, cond, cond);
      KeptExtends(g6, blocks, cond);
      BranchStays(g6, blocks, s.onTrue, yes, te, cur, breaks, continues);
      BranchStays(g6, blocks, s.onFalse, no, fe, cur, breaks, continues);
      IfSettled(blocks, s, t, p, yes, te, no, fe, cur, breaks, continues);
    }

    lemma NoMerge(g: Graph, g3: Graph, s: Stmt, p: Point, t: nat, cond: nat, yes: nat, yesEnd: nat, no: nat, noEnd: nat)
      requires Valid() && s.If? && cond < |g| && Kept(g, g3, cond) && CondAt(g3, p, cond, s.cond, t)
      requires s.onTrue.Some? && s.onFalse.Some? && !(folds && s.cond.Literal?)
      requires Kept(g3, blocks, cond) && blocks[cond].code == g3[cond].code && blocks[cond].exit == Branch(t, yes, no)
      requires BranchBuilt(g3, s.onTrue, yes, EndOf(g3, yesEnd), folds, breaks, continues)
      requires BranchBuilt(g3, s.onFalse, no, EndOf(g3, noEnd), folds, breaks, continues)
      requires cur < |g3| && |g| <= cur == noEnd && yesEnd < |g3| && !g3[yesEnd].exit.Open? && !g3[noEnd].exit.Open?
      ensures Generated(g, cond, s, p)
    {
      hide Settled, EndPasses, Entered, NeverEnds;
      KeptOn(g, g3, blocks, cond, cond);
      KeptExtends(g3, blocks, cond);
      var te, fe := EndOf(g3, yesEnd), EndOf(g3, noEnd);
      IncompleteNeverEnds(s.onTrue.value, folds);
      IncompleteNeverEnds(s.onFalse.value, folds);
      IncompleteNeverEnds(s, folds);
      StaysSettled(g3, blocks, s.onTrue.value, Point(yes, 0), te, breaks, continues);
      StaysSettled(g3, blocks, s.onFalse.value, Point(no, 0), fe, breaks, continues);
      NeverPasses(blocks, s.onTrue.value, te, 0);
      NeverPasses(blocks, s.onFalse.value, fe, 0);
      IfSettled(blocks, s, t, p, yes, te, no, fe, 0, breaks, continues);
      EndsAnywhere(blocks, s, p, Point(0, 0), Here(), breaks, continues);
    }

    /** The initial expression has no block of its own. */
    method InitialPart(s: Stmt) returns (ghost t: nat)
      requires Valid() && s.Loop? && blocks[cur].exit.Open?
      modifies this`blocks, this`temps
      ensures Valid() && Kept(old(blocks), blocks, cur) && temps >= old(temps) && EntryPrepared(blocks, s, old(Here()), t)
      ensures old(Here()).block == cur < |old(blocks)|
    {
      hide Entered;
      t := temps;
      if s.init.Some? {
        var _ := Expression(s.init.value);
      }
    }

    /** The opening condition has one, because every round comes back to it. */
    method OpeningBlock(pre: Option<Cond>) returns (b: nat, t: nat)
      requires Valid()
      modifies this`blocks, this`cur, this`temps
      ensures Valid() && temps >= old(temps) && Grew(old(blocks), blocks)
      ensures pre.Some? ==> b == |old(blocks)| && |blocks| == b + 1 && OpenWith(blocks, b, [CondInstr(pre.value, t)])
      ensures pre.None? ==> blocks == old(blocks)
    {
      hide Entered;
      b, t := 0, 0;
      if pre.Some? {
        b := CreateBlock();
        Enter(b);
        ghost var mid := blocks;
        t := Condition(pre.value);
        assert forall c :: 0 <= c < b ==> mid[c] == old(blocks)[c];
      }
    }

    method OptionalBlock(wanted: bool) returns (b: nat)
      requires Valid()
      modifies this`blocks
      ensures Valid() && Grew(old(blocks), blocks)
      ensures wanted ==> b == |old(blocks)| && |blocks| == b + 1 && OpenWith(blocks, b, [])
      ensures !wanted ==> blocks == old(blocks)
    {
      hide Entered;
      b := 0;
      if wanted {
        b := CreateBlock();
      }
    }

    /** The blocks of a loop are made before its body is, so that breaks and continues find them. */
    method PrepareLoop(s: Stmt) returns (l: LoopSites, ghost t: nat)
      requires Valid() && s.Loop? && blocks[cur].exit.Open?
      modifies this`blocks, this`cur, this`temps
      ensures Valid() && Kept(old(blocks), blocks, old(cur)) && temps >= old(temps)
      ensures LoopPrepared(old(|blocks|), blocks, s, l, old(Here()), t) && OpenWith(blocks, l.body, [])
    {
      hide *;
      ghost var g, b, p := blocks, cur, Here();
      t := InitialPart(s);
      ghost var g1 := blocks;
      var pre, preTemp := OpeningBlock(s.pre);
      ghost var g2 := blocks;
      var increment := OptionalBlock(s.increment.Some?);
      ghost var g3 := blocks;
      var post := OptionalBlock(s.post.Some?);
      ghost var g4 := blocks;
      var out := OptionalBlock(true);
      ghost var g5 := blocks;
      var body := OptionalBlock(true);
      l := LoopSites(pre, preTemp, post, 0, increment, 0, out, body, Point(body, 0));
      GrewOn(g4, g5, blocks);
      GrewOn(g3, g4, blocks);
      GrewOn(g2, g3, blocks);
      GrewOn(g1, g2, blocks);
      KeptGrew(g, g1, blocks, b);
      OpenStays(g5, blocks, out, []);
      if s.post.Some? {
        OpenStays(g4, blocks, post, []);
      }
      if s.increment.Some? {
        OpenStays(g3, blocks, increment, []);
      }
      if s.pre.Some? {
        OpenStays(g2, blocks, pre, [CondInstr(s.pre.value, preTemp)]);
      }
      EntryStays(g1, blocks, s, p, t);
      LoopIsPrepared(g, g1, g2, g3, g4, g5, blocks, s, l, p, t);
    }

    method PushLoop(l: LoopSites, target: nat)
      requires Valid() && l.body < |blocks| && l.out < |blocks| && target < |blocks|
      modifies this`cur, this`breaks, this`continues
      ensures Valid() && cur == l.body && Here() == EndOf(blocks, l.body)
      ensures breaks == old(breaks) + [l.out] && continues == old(continues) + [target]
    {
      cur := l.body;
      breaks := breaks + [l.out];
      continues := continues + [target];
    }

    method PopLoop()
      requires Valid() && breaks != [] && continues != []
      modifies this`breaks, this`continues
      ensures Valid() && breaks == old(breaks[..|breaks| - 1]) && continues == old(continues[..|continues| - 1])
    {
      breaks := breaks[..|breaks| - 1];
      continues := continues[..|continues| - 1];
    }

    /** The body, with the block after the loop and the place to continue at on top of the stacks. */
    method LoopBody(s: Stmt, l: LoopSites, ghost n: nat, ghost p: Point, ghost t: nat) returns (ok: bool, end: nat)
      requires Valid() && s.Loop? && WellFormed(s, |breaks|, |continues|)
      requires LoopPrepared(n, blocks, s, l, p, t) && OpenWith(blocks, l.body, [])
      modifies this`blocks, this`cur, this`breaks, this`continues, this`temps
      ensures !ok ==> strict
      ensures ok ==> Valid() && breaks == old(breaks) && continues == old(continues) && temps >= old(temps)
      ensures ok ==> Kept(old(blocks), blocks, l.body) && LoopPrepared(n, blocks, s, l, p, t)
      ensures ok ==> BodyBuilt(blocks, s, l.(end := EndOf(blocks, end)), folds, breaks, continues)
      decreases s, 0
    {
      hide *;
      PlacesKnown(n, blocks, s, l, p, t);
      ghost var g := blocks;
      PushLoop(l, ContinueAt(s, l));
      ok := true;
      if s.inside.Some? {
        BodyFits(s, |old(breaks)|, |old(continues)|);
        ok := Statement(s.inside.value);
        if !ok {
          return false, 0;
        }
        BodyIsBuilt(n, g, s, l, p, t, old(breaks), old(continues));
      } else {
        NoBody(n, s, l, p, t, old(breaks), old(continues));
      }
      end := cur;
      PopLoop();
    }

    lemma NoBody(n: nat, s: Stmt, l: LoopSites, p: Point, t: nat, outer: seq<nat>, around: seq<nat>)
      requires LoopPrepared(n, blocks, s, l, p, t) && OpenWith(blocks, l.body, []) && cur == l.body && s.inside.None?
      requires Valid() && breaks == outer + [l.out] && continues == around + [ContinueAt(s, l)]
      ensures Kept(blocks, blocks, l.body)
      ensures BodyBuilt(blocks, s, l.(end := EndOf(blocks, cur)), folds, outer, around)
    {
    }

    lemma BodyIsBuilt(n: nat, g: Graph, s: Stmt, l: LoopSites, p: Point, t: nat, outer: seq<nat>, around: seq<nat>)
      requires LoopPrepared(n, g, s, l, p, t) && OpenWith(g, l.body, []) && s.inside.Some? && l.body < |g|
      requires Generated(g, l.body, s.inside.value, EndOf(g, l.body))
      requires breaks == outer + [l.out] && continues == around + [ContinueAt(s, l)]
      ensures Valid() && Kept(g, blocks, l.body) && LoopPrepared(n, blocks, s, l, p, t)
      ensures BodyBuilt(blocks, s, l.(end := EndOf(blocks, cur)), folds, outer, around)
    {
      hide Settled, Entered, Completes;
    }

    /** The closing condition, in the block made for it. */
    method FillPost(s: Stmt, l0: LoopSites, ghost g: Graph, ghost p: Point, ghost t: nat) returns (l: LoopSites)
      requires Valid() && LoopPrepared(|g|, blocks, s, l0, p, t) && BodyBuilt(blocks, s, l0, folds, breaks, continues)
      requires p.block < |g| && Kept(g, blocks, p.block)
      modifies this`blocks, this`cur, this`temps
      ensures Valid() && temps >= old(temps) && Kept(g, blocks, p.block) && l == l0.(postTemp := l.postTemp)
      ensures PostFilled(|g|, blocks, s, l, p, t) && BodyBuilt(blocks, s, l, folds, breaks, continues)
    {
      hide Settled, Entered, Completes;
      l := l0;
      if s.post.Some? {
        Enter(l.post);
        var u := Condition(s.post.value);
        l := l.(postTemp := u);
        KeptOn(g, old(blocks), blocks, p.block, l.post);
        BodyStays(old(blocks), blocks, s, l0, l, l.post, folds, breaks, continues);
      }
    }

    /** The increment, in the block made for it; after that the loop is left behind. */
    method FillIncrement(s: Stmt, l0: LoopSites, ghost g: Graph, ghost p: Point, ghost t: nat) returns (l: LoopSites)
      requires Valid() && PostFilled(|g|, blocks, s, l0, p, t) && BodyBuilt(blocks, s, l0, folds, breaks, continues)
      requires p.block < |g| && Kept(g, blocks, p.block)
      modifies this`blocks, this`cur, this`temps
      ensures Valid() && temps >= old(temps) && Kept(g, blocks, p.block) && l == l0.(incrementTemp := l.incrementTemp) && cur == l.out
      ensures LoopFilled(|g|, blocks, s, l, p, t) && BodyBuilt(blocks, s, l, folds, breaks, continues)
    {
      hide Settled, Entered, Completes;
      l := l0;
      if s.increment.Some? {
        Enter(l.increment);
        var u := Expression(s.increment.value);
        l := l.(incrementTemp := u);
        KeptOn(g, old(blocks), blocks, p.block, l.increment);
        BodyStays(old(blocks), blocks, s, l0, l, l.increment, folds, breaks, continues);
      }
      Enter(l.out);
    }

    method JoinEntry(s: Stmt, l: LoopSites, ghost p: Point, ghost t: nat, bin: nat)
      requires Valid() && EntryPrepared(blocks, s, p, t) && bin == p.block && Top(s, l) < |blocks|
      modifies this`blocks
      ensures Valid() && |blocks| == |old(blocks)| && Kept(old(blocks), blocks, bin) && EntryWired(blocks, s, l, p, t)
    {
      hide Entered;
      var ok := CreateJump(bin, Top(s, l));
    }

    method JoinPre(s: Stmt, l: LoopSites)
      requires Valid() && s.Loop? && l.out < |blocks| && l.body < |blocks|
      requires s.pre.Some? ==> OpenWith(blocks, l.pre, [CondInstr(s.pre.value, l.preTemp)])
      modifies this`blocks
      ensures Valid() && |blocks| == |old(blocks)| && KeptIf(old(blocks), blocks, s.pre.Some?, l.pre) && PreWired(blocks, s, l)
    {
      hide Entered;
      if s.pre.Some? {
        var ok := CreateIf(l.pre, l.preTemp, if s.preNot then l.out else l.body, if s.preNot then l.body else l.out);
      }
    }

    /** The end of the body goes on to what comes next, if control can get there. */
    method JoinBody(s: Stmt, l: LoopSites)
      requires Valid() && BodyBuilt(blocks, s, l, folds, breaks, continues) && AfterBody(s, l) < |blocks|
      modifies this`blocks
      ensures Valid() && |blocks| == |old(blocks)| && KeptIf(old(blocks), blocks, old(blocks[l.end.block].exit.Open?), l.end.block)
      ensures BodySettled(blocks, s, l, breaks, continues)
    {
      hide Settled, Entered, Completes, NeverEnds;
      if blocks[l.end.block].exit.Open? {
        var ok := CreateJump(l.end.block, AfterBody(s, l));
        KeptExtends(old(blocks), blocks, l.end.block);
        if s.inside.Some? {
          StaysSettled(old(blocks), blocks, s.inside.value, Point(l.body, 0), l.end, breaks + [l.out], continues + [ContinueAt(s, l)]);
        }
      } else {
        IncompleteNeverEnds(s.inside.value, folds);
      }
    }

    method JoinIncrement(s: Stmt, l: LoopSites)
      requires Valid() && s.Loop? && Closing(s, l) < |blocks|
      requires s.increment.Some? ==> OpenWith(blocks, l.increment, [Eval(l.incrementTemp, s.increment.value)])
      modifies this`blocks
      ensures Valid() && |blocks| == |old(blocks)| && KeptIf(old(blocks), blocks, s.increment.Some?, l.increment)
      ensures IncrementWired(blocks, s, l)
    {
      hide Entered;
      if s.increment.Some? {
        var ok := CreateJump(l.increment, Closing(s, l));
      }
    }

    method JoinPost(s: Stmt, l: LoopSites)
      requires Valid() && s.Loop? && l.out < |blocks| && Top(s, l) < |blocks|
      requires s.post.Some? ==> OpenWith(blocks, l.post, [CondInstr(s.post.value, l.postTemp)])
      modifies this`blocks
      ensures Valid() && |blocks| == |old(blocks)| && KeptIf(old(blocks), blocks, s.post.Some?, l.post) && PostWired(blocks, s, l)
    {
      hide Entered;
      if s.post.Some? {
        var ok := CreateIf(l.post, l.postTemp, if s.postNot then l.out else Top(s, l), if s.postNot then Top(s, l) else l.out);
      }
    }

    /** When all blocks are in place, they are joined: entry, opening condition, body, increment, closing condition. */
    method JoinLoop(s: Stmt, l: LoopSites, ghost g: Graph, ghost p: Point, ghost t: nat, bin: nat)
      requires Valid() && LoopFilled(|g|, blocks, s, l, p, t) && BodyBuilt(blocks, s, l, folds, breaks, continues)
      requires bin == p.block < |g| && Kept(g, blocks, p.block) && cur == l.out
      modifies this`blocks
      ensures Generated(g, p.block, s, p)
    {
      hide *;
      ghost var g0 := blocks;
      FilledPlaces(|g|, g0, s, l, p, t);
      JoinEntry(s, l, p, t, bin);
      ghost var g1 := blocks;
      EntryJoined(g, g0, g1, s, l, p, t, folds, breaks, continues);
      JoinPre(s, l);
      ghost var g2 := blocks;
      PreJoined(g, g1, g2, s, l, p, t, folds, breaks, continues);
      JoinBody(s, l);
      ghost var g3 := blocks;
      BodyJoined(g, g2, g3, s, l, p, t, breaks, continues);
      JoinIncrement(s, l);
      ghost var g4 := blocks;
      IncrementJoined(g, g3, g4, s, l, p, t, breaks, continues);
      JoinPost(s, l);
      LoopJoined(g, g4, s, l, p, t);
    }

    lemma LoopJoined(g: Graph, g4: Graph, s: Stmt, l: LoopSites, p: Point, t: nat)
      requires Valid() && s.Loop? && p.block < |g| <= l.out == cur && Kept(g, g4, p.block) && OpenWith(g4, l.out, [])
      requires EntryWired(g4, s, l, p, t) && PreWired(g4, s, l) && BodySettled(g4, s, l, breaks, continues) && IncrementWired(g4, s, l)
      requires KeptIf(g4, blocks, s.post.Some?, l.post) && |blocks| == |g4| && PostWired(blocks, s, l)
      requires s.post.Some? ==> |g| <= l.post < l.out
      ensures Generated(g, p.block, s, p)
    {
      hide Settled, Entered, Simulates, BodySettled;
      if s.post.Some? {
        KeptOn(g, g4, blocks, p.block, l.post);
        KeptExtends(g4, blocks, l.post);
        WiredStays(g4, blocks, s, l, p, t);
        BodySettledStays(g4, blocks, s, l, breaks, continues);
      }
      LoopSettled(blocks, s, l, t, p, breaks, continues);
    }

    method LoopStatement(s: Stmt) returns (ok: bool)
      requires Valid() && s.Loop? && WellFormed(s, |breaks|, |continues|) && blocks[cur].exit.Open?
      modifies this`blocks, this`cur, this`breaks, this`continues, this`temps
      ensures !ok ==> strict
      ensures ok ==> breaks == old(breaks) && continues == old(continues) && temps >= old(temps)
      ensures ok ==> Generated(old(blocks), old(cur), s, old(Here()))
      decreases s, 1
    {
      hide *;
      ghost var g, p := blocks, Here();
      var bin := cur;
      assert p.block == bin < |g| by { HereIsKnown(); }
      var l0, t := PrepareLoop(s);
      ghost var mid := blocks;
      var end;
      ok, end := LoopBody(s, l0, |g|, p, t);
      if !ok {
        return;
      }
      ghost var e := EndOf(blocks, end);
      LoopStarted(g, mid, blocks, s, l0, e, p, t);
      var l := FillPost(s, l0.(end := EndOf(blocks, end)), g, p, t);
      l := FillIncrement(s, l, g, p, t);
      JoinLoop(s, l, g, p, t, bin);
    }

    lemma HereIsKnown()
      requires Valid()
      ensures Here() == EndOf(blocks, cur) && Here().block == cur < |blocks|
    {
    }

    /** Compares the subject with the value of a case, and makes the case's block and the one for going on. */
    method CompareCase(subject: nat, e: nat) returns (t: nat, r: nat, bcase: nat, bnot: nat)
      requires Valid() && blocks[cur].exit.Open? && subject < temps
      modifies this`blocks, this`temps
      ensures Valid() && Kept(old(blocks), blocks, cur) && temps >= old(temps)
      ensures bcase == |old(blocks)| && bnot == bcase + 1 && |blocks| == bnot + 1
      ensures OpenWith(blocks, bcase, []) && OpenWith(blocks, bnot, [])
      ensures Compares(blocks, old(Here()), subject, e, t, r, bcase, bnot)
    {
      hide Entered;
      t := Expression(e);
      r := FreshTemp();
      ghost var g1 := blocks;
      Emit(Equal(r, subject, t));
      KeptOn(old(blocks), g1, blocks, cur, cur);
      ghost var g2 := blocks;
      bcase := CreateBlock();
      bnot := CreateBlock();
      ghost var g3 := blocks;
      assert Kept(g2, g3, cur);
      KeptOn(old(blocks), g2, g3, cur, cur);
      var ok := CreateIf(cur, r, bcase, bnot);
      KeptOn(old(blocks), g3, blocks, cur, cur);
    }

    /** Lets the end of earlier code fall through, if there is such code and control can get to its end. */
    method FallInto(end: Option<nat>, target: nat)
      requires Valid() && target < |blocks| && (end.Some? ==> end.value < |blocks|)
      modifies this`blocks
      ensures Valid() && |blocks| == |old(blocks)|
      ensures KeptIf(old(blocks), blocks, end.Some? && old(blocks[end.value].exit.Open?), if end.Some? then end.value else 0)
      ensures end.Some? && old(blocks[end.value].exit.Open?) ==> Passes(blocks, EndOf(old(blocks), end.value), target)
    {
      hide Entered;
      if end.Some? && blocks[end.value].exit.Open? {
        var ok := CreateJump(end.value, target);
      }
    }

    /** One case with a value: the comparison, the fall-through from the case before it, and its code. */
    method RegularCase(s: Stmt, k: nat, subject: nat, fall: Option<nat>) returns (ok: bool, start: nat, end: nat, ghost site: CaseSite)
      requires Valid() && s.Switch? && k < |s.cases| && s.cases[k].value.Some? && WellFormed(s.cases[k].code, |breaks|, |continues|)
      requires blocks[cur].exit.Open? && subject < temps && (fall.Some? ==> fall.value < |blocks| && fall.value != cur)
      modifies this`blocks, this`cur, this`breaks, this`continues, this`temps
      ensures !ok ==> strict
      ensures ok ==> Valid() && breaks == old(breaks) && continues == old(continues) && temps >= old(temps)
      ensures ok ==> Kept2(old(blocks), blocks, old(cur), fall) && Extends(old(blocks), blocks) && OpenWith(blocks, cur, [])
      ensures ok ==> site.test == old(Here()) && site.start == Point(site.start.block, 0) && site.end == EndOf(blocks, end) && end != cur
      ensures ok ==> |old(blocks)| <= start == site.start.block < |blocks| && |old(blocks)| <= end < |blocks| && |old(blocks)| <= cur
      ensures ok ==> Compares(blocks, site.test, subject, s.cases[k].value.value, site.valueTemp, site.equalTemp, site.start.block, cur)
      ensures ok ==> Settled(blocks, s.cases[k].code, site.start, site.end, breaks, continues)
      ensures ok ==> PendingEnd(blocks, s.cases[k].code, site.end, folds)
      ensures ok && fall.Some? && old(blocks[fall.value].exit.Open?) ==> Passes(blocks, EndOf(old(blocks), fall.value), site.start.block)
      decreases s, 0
    {
      hide *;
      ghost var g0 := blocks;
      ghost var p, b := Here(), cur;
      var t, r, bcase, bnot := CompareCase(subject, s.cases[k].value.value);
      start := bcase;
      ghost var g1 := blocks;
      FallStillOpen(g0, g1, b, fall);
      FallInto(fall, bcase);
      ghost var g2 := blocks;
      CaseReady(g0, g1, g2, b, fall, bcase, bnot, p, subject, s.cases[k].value.value, t, r);
      Enter(bcase);
      CaseOpen(bcase);
      ok := Statement(s.cases[k].code);
      end := cur;
      site := CaseSite(p, t, r, Point(bcase, 0), EndOf(blocks, end));
      if ok {
        CaseBuilt(g0, g1, g2, b, fall, bcase, bnot, p, subject, s.cases[k].value.value, t, r, s.cases[k].code);
        Enter(bnot);
      }
    }

    lemma CaseOpen(bcase: nat)
      requires OpenWith(blocks, bcase, []) && cur == bcase
      ensures blocks[cur].exit.Open? && Here() == Point(bcase, 0)
    {
    }

    lemma CaseBuilt(g0: Graph, g1: Graph, g2: Graph, b: nat, fall: Option<nat>, bcase: nat, bnot: nat, p: Point, subject: nat, e: nat,
                    t: nat, r: nat, code: Stmt)
      requires Generated(g2, bcase, code, Point(bcase, 0)) && b < |g0| && |g0| == bcase && bnot == bcase + 1 && |g2| == bnot + 1
      requires Kept2(g0, g2, b, fall) && Extends(g0, g2) && OpenWith(g2, bnot, [])
      requires Compares(g2, p, subject, e, t, r, bcase, bnot)
      requires fall.Some? ==> fall.value < |g0| && (g0[fall.value].exit.Open? ==> Passes(g2, EndOf(g0, fall.value), bcase))
      ensures Valid() && Kept2(g0, blocks, b, fall) && Extends(g0, blocks) && OpenWith(blocks, bnot, []) && cur != bnot
      ensures bcase < |blocks| && |g0| <= cur < |blocks| && bnot < |blocks|
      ensures Compares(blocks, p, subject, e, t, r, bcase, bnot)
      ensures Settled(blocks, code, Point(bcase, 0), EndOf(blocks, cur), breaks, continues)
      ensures PendingEnd(blocks, code, EndOf(blocks, cur), folds)
      ensures fall.Some? && g0[fall.value].exit.Open? ==> Passes(blocks, EndOf(g0, fall.value), bcase)
    {
      hide Settled, Entered, Completes;
      KeptExtends(g2, blocks, bcase);
      ExtendsOn(g0, g2, blocks);
      ComparesStays(g2, blocks, p, subject, e, t, r, bcase, bnot);
      if fall.Some? && g0[fall.value].exit.Open? {
        PassesStays(g2, blocks, EndOf(g0, fall.value), bcase);
      }
    }

    /** In the middle of a switch: the cases of sites have been generated, and the chain of comparisons goes on here. */
    ghost predicate SwitchGoing(g: Graph, s: Stmt, p: Point, subject: nat, out: nat, sites: seq<CaseSite>,
                                fall: Option<nat>, defFall: Option<nat>, outer: seq<nat>)
      reads this
    {
      && Valid() && s.Switch? && |sites| <= |s.cases| && blocks[cur].exit.Open?
      && p.block < |g| && Kept(g, blocks, p.block) && (cur == p.block || |g| <= cur)
      && breaks == outer + [out] && OpenWith(blocks, out, []) && |g| <= out && out != cur && subject < temps
      && AllBuilt(blocks, s, subject, sites, Here(), folds, breaks, continues)
      && Evaluates(blocks, p, subject, s.subject) && ChainAt(sites, Here(), 0) == Point(p.block, p.pos + 1)
      && fall == LastFall(s, sites) && defFall == DefaultFall(s, sites)
      && PendingApart(|g|, blocks, cur, out, fall, defFall)
    }

    method PushSwitch(s: Stmt, subject: nat, ghost g: Graph, ghost p: Point) returns (out: nat)
      requires Valid() && s.Switch? && Kept(g, blocks, cur) && |blocks| == |g| && subject < temps && blocks[cur].exit.Open?
      requires p.block == cur && Evaluates(blocks, p, subject, s.subject) && Here() == Point(cur, p.pos + 1)
      modifies this`blocks, this`breaks
      ensures SwitchGoing(g, s, p, subject, out, [], None, None, old(breaks)) && cur == old(cur) && continues == old(continues)
    {
      hide Entered;
      out := CreateBlock();
      breaks := breaks + [out];
      EvaluatesStays(old(blocks), blocks, p, subject, s.subject);
      KeptOn(g, old(blocks), blocks, cur, cur);
    }

    method PopBreak()
      requires Valid() && breaks != []
      modifies this`breaks
      ensures Valid() && breaks == old(breaks[..|breaks| - 1])
    {
      breaks := breaks[..|breaks| - 1];
    }

    lemma GoingFacts(g: Graph, s: Stmt, p: Point, subject: nat, out: nat, sites: seq<CaseSite>, fall: Option<nat>, defFall: Option<nat>, outer: seq<nat>)
      requires SwitchGoing(g, s, p, subject, out, sites, fall, defFall, outer)
      ensures Valid() && blocks[cur].exit.Open? && breaks == outer + [out] && out < |blocks| && subject < temps && s.Switch? && |sites| <= |s.cases|
      ensures Here() == EndOf(blocks, cur) && Here().block == cur < |blocks| && fall == LastFall(s, sites) && defFall == DefaultFall(s, sites)
      ensures PendingApart(|g|, blocks, cur, out, fall, defFall)
      ensures p.block < |g| && Kept(g, blocks, p.block) && (cur == p.block || |g| <= cur) && OpenWith(blocks, out, []) && |g| <= out && out != cur
      ensures AllBuilt(blocks, s, subject, sites, Here(), folds, breaks, continues)
      ensures Evaluates(blocks, p, subject, s.subject) && ChainAt(sites, Here(), 0) == Point(p.block, p.pos + 1)
      ensures fall.Some? ==> fall.value < |blocks| && fall.value != cur && EndOf(blocks, fall.value) == sites[|sites| - 1].end
      ensures defFall.Some? ==> defFall.value < |blocks| && defFall.value != cur && |g| <= defFall.value && defFall.value != out
      ensures defFall.Some? ==>
                var i := BeforeDefault(s, |sites|);
                i.Some? && EndOf(blocks, defFall.value) == sites[i.value].end && sites[i.value].end.block == defFall.value
    {
      hide Entered, AllBuilt, DefaultBefore;
      PendingEnds(blocks, s, subject, sites, Here(), folds, breaks, continues);
    }

    lemma KeptByCase(g: Graph, before: Graph, now: Graph, start: nat, b: nat, fall: Option<nat>)
      requires start < |g| && Kept(g, before, start) && Kept2(before, now, b, fall) && Extends(before, now)
      requires (b == start || |g| <= b) && (fall.Some? ==> |g| <= fall.value)
      ensures Kept(g, now, start)
    {
      assert Grown(g[start], before[start]) && Grown(before[start], now[start]);
    }

    /** The state of the switch after one more case with a value. */
    lemma AfterRegular(g: Graph, before: Graph, b: nat, s: Stmt, p: Point, subject: nat, out: nat, sites: seq<CaseSite>, site: CaseSite, rest: Point,
                       fall: Option<nat>, defFall: Option<nat>, outer: seq<nat>, end: nat)
      requires s.Switch? && |sites| < |s.cases| && s.cases[|sites|].value.Some? && b < |before|
      requires rest == site.test == EndOf(before, b) && (b == p.block || |g| <= b)
      requires p.block < |g| && Kept(g, before, p.block) && OpenWith(before, out, []) && |g| <= out && out != b
      requires AllBuilt(before, s, subject, sites, rest, folds, breaks, continues)
      requires Evaluates(before, p, subject, s.subject) && ChainAt(sites, rest, 0) == Point(p.block, p.pos + 1)
      requires fall == LastFall(s, sites) && defFall == DefaultFall(s, sites) && PendingApart(|g|, before, b, out, fall, defFall)
      requires fall.Some? ==> EndOf(before, fall.value) == sites[|sites| - 1].end
      requires Valid() && breaks == outer + [out] && subject < temps
      requires Kept2(before, blocks, b, fall) && Extends(before, blocks) && OpenWith(blocks, cur, [])
      requires site.start == Point(site.start.block, 0) && site.end == EndOf(blocks, end) && end != cur
      requires |before| <= site.start.block < |blocks| && |before| <= end < |blocks| && |before| <= cur
      requires Compares(blocks, site.test, subject, s.cases[|sites|].value.value, site.valueTemp, site.equalTemp, site.start.block, cur)
      requires Settled(blocks, s.cases[|sites|].code, site.start, site.end, breaks, continues)
      requires PendingEnd(blocks, s.cases[|sites|].code, site.end, folds)
      requires fall.Some? && before[fall.value].exit.Open? ==> Passes(blocks, EndOf(before, fall.value), site.start.block)
      ensures SwitchGoing(g, s, p, subject, out, sites + [site], Some(end), defFall, outer)
    {
      hide Entered, AllBuilt, DefaultBefore, Settled, Compares, PendingEnd;
      KeptByCase(g, before, blocks, p.block, b, fall);
      hide Kept;
      EvaluatesStays(before, blocks, p, subject, s.subject);
      DefaultTracked(s, sites, site);
      assert fall.Some? ==> LedTo(before, blocks, sites[|sites| - 1].end, site.start.block);
      hide Extends, Kept2;
      RegularAdded(before, blocks, s, subject, sites, rest, site, Point(cur, 0), b, folds, breaks, continues);
    }

    /** The state of the switch after one more default, with the end before the default it takes the place of lost sight of. */
    lemma AfterDefault(g: Graph, before: Graph, s: Stmt, p: Point, subject: nat, out: nat, sites: seq<CaseSite>, site: CaseSite,
                       fall: Option<nat>, defFall: Option<nat>, outer: seq<nat>)
      requires s.Switch? && |sites| < |s.cases| && s.cases[|sites|].value.None? && site.test == Here() == EndOf(before, cur)
      requires Valid() && blocks == Without(before, defFall) && cur < |before| && before[cur].exit.Open?
      requires p.block < |g| && Kept(g, before, p.block) && (cur == p.block || |g| <= cur)
      requires breaks == outer + [out] && OpenWith(before, out, []) && |g| <= out && out != cur && subject < temps
      requires AllBuilt(before, s, subject, sites, Here(), folds, breaks, continues)
      requires Evaluates(before, p, subject, s.subject) && ChainAt(sites, Here(), 0) == Point(p.block, p.pos + 1)
      requires fall == LastFall(s, sites) && defFall == DefaultFall(s, sites) && PendingApart(|g|, before, cur, out, fall, defFall)
      ensures SwitchGoing(g, s, p, subject, out, sites + [site], None, fall, outer)
    {
      hide Entered, AllBuilt, DefaultBefore, Settled;
      DefaultTracked(s, sites, site);
      WithoutKeeps(before, defFall);
      KeptWithout(g, before, p.block, defFall);
      hide Without, Kept, Extends, Evaluates, LastFall, DefaultFall;
      EvaluatesStays(before, blocks, p, subject, s.subject);
      DefaultAdded(before, s, subject, sites, Here(), site, folds, breaks, continues);
    }

    /**
     * Loses sight of a block's end. Nothing is done for this in the compiler, where such a block cannot
     * be told from one that is still to be joined; the mark says that it never will be.
     */
    method Forget(end: Option<nat>)
      requires Valid() && (end.Some? ==> end.value != cur)
      modifies this`blocks
      ensures Valid() && blocks == Without(old(blocks), end)
    {
      WithoutKeeps(blocks, end);
      if end.Some? && end.value < |blocks| && blocks[end.value].exit.Open? {
        blocks := blocks[end.value := blocks[end.value].(exit := Abandoned)];
      }
    }

    /** Remembers the last default and generates the other cases in order. */
    method AllCases(s: Stmt, subject: nat, out: nat, ghost g: Graph, ghost p: Point, ghost outer: seq<nat>)
        returns (ok: bool, defCase: Option<nat>, defFall: Option<nat>, defFallTo: Option<nat>, fall: Option<nat>, ghost sites: seq<CaseSite>)
      requires s.Switch? && SwitchGoing(g, s, p, subject, out, [], None, None, outer) && WellFormed(s, |outer|, |continues|)
      modifies this`blocks, this`cur, this`breaks, this`continues, this`temps
      ensures !ok ==> strict
      ensures ok ==> |sites| == |s.cases| && SwitchGoing(g, s, p, subject, out, sites, fall, defFall, outer)
      ensures ok ==> continues == old(continues) && temps >= old(temps)
      ensures ok ==> defCase == DefaultBefore(s.cases, |s.cases|) && defFallTo == DefaultNext(s, sites)
      decreases s, 1
    {
      hide *;
      defCase, defFall, defFallTo, fall, sites := None, None, None, None, [];
      var setDefFallTo := false;
      NothingYet(s);
      var k := 0;
      while k < |s.cases|
        invariant k == |sites| <= |s.cases| && continues == old(continues) && temps >= old(temps)
        invariant SwitchGoing(g, s, p, subject, out, sites, fall, defFall, outer)
        invariant defCase == DefaultBefore(s.cases, k) && (setDefFallTo <==> k > 0 && s.cases[k - 1].value.None?)
        invariant defFallTo == DefaultNext(s, sites)
      {
        GoingFacts(g, s, p, subject, out, sites, fall, defFall, outer);
        CaseFits(s, k, |outer|, |continues|);
        ghost var before, b, rest := blocks, cur, Here();
        if s.cases[k].value.Some? {
          ghost var site;
          var start, end;
          ok, start, end, site := RegularCase(s, k, subject, fall);
          if !ok {
            return;
          }
          if setDefFallTo {
            setDefFallTo := false;
            defFallTo := Some(start);
          }
          DefaultTracked(s, sites, site);
          AfterRegular(g, before, b, s, p, subject, out, sites, site, rest, fall, defFall, outer, end);
          fall := Some(end);
          sites := sites + [site];
        } else {
          ghost var site := CaseSite(rest, 0, 0, rest, rest);
          Forget(defFall);
          ForgetKeepsHere(before, defFall);
          DefaultTracked(s, sites, site);
          AfterDefault(g, before, s, p, subject, out, sites, site, fall, defFall, outer);
          sites := sites + [site];
          defFall := fall;
          fall := None;
          defCase := Some(k);
          setDefFallTo := true;
        }
        k := k + 1;
      }
      ok := true;
    }

    lemma ForgetKeepsHere(before: Graph, end: Option<nat>)
      requires Valid() && blocks == Without(before, end) && cur < |before|
      ensures Here() == EndOf(before, cur)
    {
      WithoutKeeps(before, end);
    }

    /** Lets the end of the last case fall out of the switch. */
    method LeaveLastCase(s: Stmt, subject: nat, out: nat, fall: Option<nat>, ghost defFall: Option<nat>, ghost g: Graph, ghost p: Point,
                         ghost outer: seq<nat>, ghost sites: seq<CaseSite>)
      requires SwitchGoing(g, s, p, subject, out, sites, fall, defFall, outer) && |sites| == |s.cases|
      modifies this`blocks
      ensures Valid() && Extends(old(blocks), blocks) && |blocks| == |old(blocks)| && Kept(g, blocks, p.block) && OpenWith(blocks, out, [])
      ensures Here() == old(Here()) && blocks[cur].exit.Open?
      ensures fall == LastFall(s, sites) && (fall.Some? ==> LedTo(old(blocks), blocks, sites[|sites| - 1].end, out))
      ensures defFall.Some? ==>
                var i := BeforeDefault(s, |sites|);
                defFall.value < |blocks| && i.Some? && EndOf(blocks, defFall.value) == sites[i.value].end
                && blocks[defFall.value].exit == old(blocks[defFall.value].exit)
    {
      GoingFacts(g, s, p, subject, out, sites, fall, defFall, outer);
      hide AllBuilt, Entered, SwitchGoing, DefaultBefore, DefaultFall, Evaluates, ChainAt;
      ghost var was := blocks;
      FallInto(fall, out);
      if fall.Some? && was[fall.value].exit.Open? {
        KeptOn(g, was, blocks, p.block, fall.value);
        KeptExtends(was, blocks, fall.value);
      }
    }

    /** The default is generated where the comparisons end, with the case before it falling in and its own end falling on. */
    method DefaultCase(s: Stmt, k: nat, defFall: Option<nat>, defFallTo: Option<nat>) returns (ok: bool, ghost e: Point)
      requires Valid() && s.Switch? && k < |s.cases| && WellFormed(s.cases[k].code, |breaks|, |continues|) && blocks[cur].exit.Open?
      requires (defFall.Some? ==> defFall.value < |blocks| && defFall.value != cur) && (defFallTo.Some? ==> defFallTo.value < |blocks|)
      modifies this`blocks, this`cur, this`breaks, this`continues, this`temps
      ensures !ok ==> strict
      ensures ok ==> Valid() && breaks == old(breaks) && continues == old(continues) && temps >= old(temps)
      ensures ok ==> Kept2(old(blocks), blocks, old(cur), defFall) && Extends(old(blocks), blocks) && (cur == old(cur) || |old(blocks)| <= cur)
      ensures ok ==> defFall.Some? ==> LedTo(old(blocks), blocks, EndOf(old(blocks), defFall.value), old(cur))
      ensures ok ==> Settled(blocks, s.cases[k].code, old(Here()), e, breaks, continues)
      ensures ok && defFallTo.Some? ==> EndPasses(blocks, s.cases[k].code, e, defFallTo.value) && !blocks[cur].exit.Open?
      ensures ok && defFallTo.None? ==> PendingEnd(blocks, s.cases[k].code, e, folds) && e == Here()
      decreases s, 0
    {
      hide *;
      ghost var g0, b, m := blocks, cur, Here();
      HereIsKnown();
      e := m;
      FallInto(defFall, cur);
      ghost var g1 := blocks;
      DefaultOpen(g0, b, defFall, b);
      ok := Statement(s.cases[k].code);
      if ok {
        ghost var g2 := blocks;
        e := Here();
        DefaultBuilt(g0, g1, b, defFall, m, s.cases[k].code);
        if defFallTo.Some? {
          if blocks[cur].exit.Open? {
            var _ := CreateJump(cur, defFallTo.value);
          }
          DefaultLed(g0, g2, b, defFall, m, s.cases[k].code, e, defFallTo.value);
        }
      }
    }

    lemma DefaultOpen(g0: Graph, b: nat, defFall: Option<nat>, target: nat)
      requires b < |g0| == |blocks| && g0[b].exit.Open? && cur == b && (defFall.Some? ==> defFall.value < |g0| && defFall.value != b)
      requires KeptIf(g0, blocks, defFall.Some? && g0[defFall.value].exit.Open?, if defFall.Some? then defFall.value else 0)
      requires defFall.Some? && g0[defFall.value].exit.Open? ==> Passes(blocks, EndOf(g0, defFall.value), target)
      ensures blocks[cur].exit.Open? && Here() == EndOf(g0, b)
      ensures Kept2(g0, blocks, b, defFall) && Extends(g0, blocks)
      ensures defFall.Some? ==> LedTo(g0, blocks, EndOf(g0, defFall.value), target)
    {
    }

    lemma DefaultBuilt(g0: Graph, g1: Graph, b: nat, defFall: Option<nat>, m: Point, code: Stmt)
      requires Generated(g1, b, code, m) && b < |g0| == |g1| && Kept2(g0, g1, b, defFall) && Extends(g0, g1)
      requires defFall.Some? ==> LedTo(g0, g1, EndOf(g0, defFall.value), b)
      ensures Valid() && Kept2(g0, blocks, b, defFall) && Extends(g0, blocks) && (cur == b || |g0| <= cur) && cur < |blocks| && |g0| <= |blocks|
      ensures Settled(blocks, code, m, Here(), breaks, continues) && PendingEnd(blocks, code, Here(), folds)
      ensures defFall.Some? ==> LedTo(g0, blocks, EndOf(g0, defFall.value), b)
      ensures Here() == EndOf(blocks, cur) && Here().block == cur
    {
      hide Settled, Completes, Entered;
      KeptExtends(g1, blocks, b);
      ExtendsOn(g0, g1, blocks);
      if defFall.Some? {
        LedToLater(g0, g1, blocks, EndOf(g0, defFall.value), b);
      }
    }

    lemma DefaultLed(g0: Graph, g2: Graph, b: nat, defFall: Option<nat>, m: Point, code: Stmt, e: Point, target: nat)
      requires b < |g0| <= |g2| && cur < |g2| && e == EndOf(g2, cur) && (cur == b || |g0| <= cur)
      requires Kept2(g0, g2, b, defFall) && Extends(g0, g2) && Settled(g2, code, m, e, breaks, continues) && PendingEnd(g2, code, e, folds)
      requires if g2[cur].exit.Open? then Kept(g2, blocks, cur) && Passes(blocks, e, target) else blocks == g2
      requires defFall.Some? ==> LedTo(g0, g2, EndOf(g0, defFall.value), b)
      ensures Kept2(g0, blocks, b, defFall) && Extends(g0, blocks) && cur < |blocks| && !blocks[cur].exit.Open?
      ensures Settled(blocks, code, m, e, breaks, continues) && EndPasses(blocks, code, e, target)
      ensures defFall.Some? ==> LedTo(g0, blocks, EndOf(g0, defFall.value), b)
    {
      hide Settled, Completes, EndPasses;
      NowPasses(g2, blocks, code, e, target, folds);
      if g2[cur].exit.Open? {
        KeptExtends(g2, blocks, cur);
        ExtendsOn(g0, g2, blocks);
        StaysSettled(g2, blocks, code, m, e, breaks, continues);
        if defFall.Some? {
          LedToLater(g0, g2, blocks, EndOf(g0, defFall.value), b);
        }
      }
    }

    /** The ends of the last case, of the default and of the comparisons. */
    method CloseSwitch(s: Stmt, subject: nat, out: nat, fall: Option<nat>, defCase: Option<nat>, defFall: Option<nat>, defFallTo: Option<nat>,
                       ghost g: Graph, ghost p: Point, ghost outer: seq<nat>, ghost sites: seq<CaseSite>) returns (ok: bool)
      requires SwitchGoing(g, s, p, subject, out, sites, fall, defFall, outer) && |sites| == |s.cases| && s.cases != []
      requires WellFormed(s, |outer|, |continues|)
      requires defCase == DefaultBefore(s.cases, |s.cases|) && defFallTo == DefaultNext(s, sites)
      modifies this`blocks, this`cur, this`breaks, this`continues, this`temps
      ensures !ok ==> strict
      ensures ok ==> Valid() && breaks == old(breaks) && continues == old(continues) && temps >= old(temps)
      ensures ok ==> Kept(g, blocks, p.block) && OpenWith(blocks, out, []) && p.block < |g| <= out < |blocks|
      ensures ok ==> Settled(blocks, s, p, Point(out, 0), outer, continues)
      decreases s, 1
    {
      hide *;
      GoingFacts(g, s, p, subject, out, sites, fall, defFall, outer);
      ghost var g0, b, rest, e := blocks, cur, Here(), Here();
      FollowerKnown(s, subject, sites);
      LeaveLastCase(s, subject, out, fall, defFall, g, p, outer, sites);
      ghost var g1 := blocks;
      ExtendsSelf(g1);
      if defCase.Some? {
        DefaultIsCase(s);
        CaseFits(s, defCase.value, |outer|, |continues|);
        ok, e := DefaultCase(s, defCase.value, defFall, defFallTo);
        if !ok {
          return;
        }
        DefaultKept(g, g1, blocks, p.block, b, defFall, out);
      }
      ghost var g2, at := blocks, cur;
      HereIsKnown();
      if blocks[cur].exit.Open? {
        var _ := CreateJump(cur, out);
      }
      ok := true;
      LastJump(g, g2, blocks, p.block, at, out);
      LedByJump(g2, blocks, at, out);
      DefaultFallKnown(s, sites);
      SwitchClosed(g0, g1, g2, blocks, s, subject, sites, rest, e, out, p, folds, outer, continues);
    }

    lemma DefaultIsCase(s: Stmt)
      requires s.Switch? && DefaultBefore(s.cases, |s.cases|).Some?
      ensures DefaultBefore(s.cases, |s.cases|).value < |s.cases|
    {
    }

    lemma DefaultFallKnown(s: Stmt, sites: seq<CaseSite>)
      requires s.Switch? && |sites| == |s.cases|
      ensures DefaultFall(s, sites).Some? <==> BeforeDefault(s, |sites|).Some?
      ensures BeforeDefault(s, |sites|).Some? ==> DefaultBefore(s.cases, |s.cases|).Some?
    {
    }

    lemma FollowerKnown(s: Stmt, subject: nat, sites: seq<CaseSite>)
      requires Valid() && s.Switch? && |sites| == |s.cases| && AllBuilt(blocks, s, subject, sites, Here(), folds, breaks, continues)
      ensures DefaultNext(s, sites).Some? ==> DefaultNext(s, sites).value < |blocks|
    {
      NextKnown(blocks, s, subject, sites, Here(), folds, breaks, continues);
    }

    method SwitchStatement(s: Stmt) returns (ok: bool)
      requires Valid() && s.Switch? && WellFormed(s, |breaks|, |continues|) && blocks[cur].exit.Open?
      modifies this`blocks, this`cur, this`breaks, this`continues, this`temps
      ensures !ok ==> strict
      ensures ok ==> breaks == old(breaks) && continues == old(continues) && temps >= old(temps)
      ensures ok ==> Generated(old(blocks), old(cur), s, old(Here()))
      decreases s, 2
    {
      hide *;
      ghost var g, p := blocks, Here();
      HereIsKnown();
      var subject := Expression(s.subject);
      ghost var g1 := blocks;
      SubjectThere(g, p, subject, s.subject);
      if s.cases == [] {
        ok := true;
        NoCases(g, s, p, subject);
        return;
      }
      var out := PushSwitch(s, subject, g, p);
      var defCase, defFall, defFallTo, fall;
      ghost var sites;
      ok, defCase, defFall, defFallTo, fall, sites := AllCases(s, subject, out, g, p, old(breaks));
      if !ok {
        return;
      }
      GoingFacts(g, s, p, subject, out, sites, fall, defFall, old(breaks));
      ok := CloseSwitch(s, subject, out, fall, defCase, defFall, defFallTo, g, p, old(breaks), sites);
      if ok {
        Enter(out);
        PopBreak();
        SwitchGenerated(g, s, p, out);
      }
    }

    lemma SubjectThere(g: Graph, p: Point, t: nat, e: nat)
      requires Valid() && p == EndOf(g, cur) && cur < |g| == |blocks| && blocks[cur].code == g[cur].code + [Eval(t, e)]
      ensures Evaluates(blocks, p, t, e) && Here() == Point(cur, p.pos + 1) && p.block == cur
    {
    }

    lemma NoCases(g: Graph, s: Stmt, p: Point, t: nat)
      requires Valid() && s.Switch? && s.cases == [] && Kept(g, blocks, cur) && blocks[cur].exit == Open
      requires Evaluates(blocks, p, t, s.subject) && Here() == Point(cur, p.pos + 1) && p.block == cur
      ensures Generated(g, cur, s, p)
    {
      hide Settled, Entered;
      EmptySwitchSettled(blocks, s, t, p, Here(), breaks, continues);
    }

    lemma SwitchGenerated(g: Graph, s: Stmt, p: Point, out: nat)
      requires Valid() && s.Switch? && p.block < |g| <= out == cur && Kept(g, blocks, p.block) && OpenWith(blocks, out, [])
      requires Settled(blocks, s, p, Point(out, 0), breaks, continues)
      ensures Generated(g, p.block, s, p)
    {
      hide Settled, Entered;
    }

    /**
     * The body, and what happens when control comes out at its end: a function that returns nothing
     * returns, one that returns something returns its return variable or, with a warning, nothing in
     * particular; but a last block that nothing enters is left as it is.
     */
    method GenerateFunction(body: Stmt, kind: Result) returns (ok: bool)
      requires Valid() && blocks == [BasicBlock([], Open, [])] && cur == 0 && breaks == [] && continues == []
      requires body.Block? && WellFormed(body, 0, 0)
      modifies this`blocks, this`cur, this`breaks, this`continues, this`temps
      ensures !ok ==> strict
      ensures ok ==> Lowers(blocks, body, kind)
    {
      ghost var g := blocks;
      hide *;
      EntryOpen();
      ok := Statement(body);
      if !ok {
        return;
      }
      BodyStands(g, body);
      if !blocks[cur].exit.Open? {
        DeadEndLowers(g, body, kind);
      } else if kind.Nothing? {
        ghost var was, q := blocks, Here();
        ok := CreateReturn(cur);
        ReturnLowers(was, body, kind, q, 0);
      } else if blocks[cur].entries != [] || cur == 0 {
        if kind.local.None? && strict {
          return false;
        }
        ghost var was, q := blocks, Here();
        var t := 0;
        if kind.local.Some? {
          t := Expression(kind.local.value);
        }
        ghost var mid := blocks;
        ok := CreateReturn(cur);
        LocalReturned(was, mid, body, kind, q, t);
      } else {
        NotEnteredLowers(g, body, kind);
      }
    }

    lemma EntryOpen()
      requires Valid() && blocks == [BasicBlock([], Open, [])] && cur == 0
      ensures blocks[cur].exit.Open? && Here() == Point(0, 0)
    {
    }

    lemma BodyStands(g: Graph, body: Stmt)
      requires Generated(g, 0, body, Point(0, 0))
      ensures Valid() && cur < |blocks| && Here() == EndOf(blocks, cur) && Settled(blocks, body, Point(0, 0), Here(), breaks, continues)
    {
    }

    lemma DeadEndLowers(g: Graph, body: Stmt, kind: Result)
      requires Generated(g, 0, body, Point(0, 0)) && breaks == [] && continues == [] && !blocks[cur].exit.Open?
      ensures Lowers(blocks, body, kind)
    {
      hide Simulates, Completes, NeverEnds;
      IncompleteNeverEnds(body, folds);
      ExtendsSelf(blocks);
      ReturnedLowers(blocks, blocks, body, kind, Here(), 0);
    }

    lemma ReturnLowers(was: Graph, body: Stmt, kind: Result, q: Point, t: nat)
      requires Settled(was, body, Point(0, 0), q, [], []) && cur < |was| && q == EndOf(was, cur) && kind.Nothing?
      requires Kept(was, blocks, cur) && blocks[cur].code == was[cur].code && blocks[cur].exit == Leave
      ensures Lowers(blocks, body, kind)
    {
      hide Simulates, Lowers;
      KeptExtends(was, blocks, cur);
      ReturnedLowers(was, blocks, body, kind, q, t);
    }

    lemma LocalReturned(was: Graph, mid: Graph, body: Stmt, kind: Result, q: Point, t: nat)
      requires Settled(was, body, Point(0, 0), q, [], []) && cur < |was| && q == EndOf(was, cur) && kind.Something?
      requires if kind.local.Some? then Kept(was, mid, cur) && mid[cur].code == was[cur].code + [Eval(t, kind.local.value)] else mid == was
      requires Kept(mid, blocks, cur) && blocks[cur].code == mid[cur].code && blocks[cur].exit == Leave
      ensures Lowers(blocks, body, kind)
    {
      hide Simulates, Lowers;
      KeptExtends(mid, blocks, cur);
      if kind.local.Some? {
        KeptExtends(was, mid, cur);
        ExtendsOn(was, mid, blocks);
      }
      ReturnedLowers(was, blocks, body, kind, q, t);
    }

    lemma NotEnteredLowers(g: Graph, body: Stmt, kind: Result)
      requires Generated(g, 0, body, Point(0, 0)) && breaks == [] && continues == [] && blocks[cur].entries == [] && cur != 0
      ensures Lowers(blocks, body, kind)
    {
      hide Simulates, Completes, Lowers;
      ExtendsSelf(blocks);
      AbandonedLowers(blocks, body, kind, Here());
    }
  }
}
