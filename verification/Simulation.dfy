// When a piece of the graph does what a statement does, construct by
// construct, and whatever is added to the graph afterwards.

module Simulation {
  import opened Wrappers
  import opened Structured
  import opened FlowGraph

  /**
   * From c the machine ends up as the outcome says: at q, at the target of the break or continue,
   * halted, still going after at least fuel steps, or at the end of a block that will never get an
   * exit. The history is the same throughout.
   */
  ghost predicate Matches(w: World, g: Graph, c: Config, out: Outcome, fuel: nat, q: Point, breaks: seq<nat>, continues: seq<nat>) {
    match out
    case Done(h) => Reaches(w, g, c, 0, q.block, q.pos, h)
    case Broke(n, h) => n < |breaks| && Reaches(w, g, c, 1, breaks[|breaks| - 1 - n], 0, h)
    case Continued(n, h) => n < |continues| && Reaches(w, g, c, 1, continues[|continues| - 1 - n], 0, h)
    case Returned(h) => Halts(w, g, c, h)
    case Cut(h) => Lasts(w, g, c, fuel, h)
    case Lost(h) => GetsLost(w, g, c, h)
  }

  ghost predicate Follows(w: World, g: Graph, s: Stmt, h: History, temps: map<nat, int>, fuel: nat,
                          p: Point, q: Point, breaks: seq<nat>, continues: seq<nat>) {
    Matches(w, g, At(p.block, p.pos, temps, h), Exec(w, true, s, h, fuel), fuel, q, breaks, continues)
  }

  /** The code from p to q does what s does, in every world, from every history and for any number of rounds. */
  ghost predicate Simulates(g: Graph, s: Stmt, p: Point, q: Point, breaks: seq<nat>, continues: seq<nat>) {
    forall w: World, h, temps, fuel :: Follows(w, g, s, h, temps, fuel, p, q, breaks, continues)
  }

  /** It does so now and in every graph this one may grow into. */
  ghost predicate Settled(g: Graph, s: Stmt, p: Point, q: Point, breaks: seq<nat>, continues: seq<nat>) {
    forall later: Graph :: Extends(g, later) ==> Simulates(later, s, p, q, breaks, continues)
  }

  lemma StaysSettled(g: Graph, g2: Graph, s: Stmt, p: Point, q: Point, breaks: seq<nat>, continues: seq<nat>)
    requires Settled(g, s, p, q, breaks, continues) && Extends(g, g2)
    ensures Settled(g2, s, p, q, breaks, continues)
  {
    forall later: Graph | Extends(g2, later) ensures Simulates(later, s, p, q, breaks, continues) {
      ExtendsOn(g, g2, later);
    }
  }

  lemma Prepend(w: World, g: Graph, c: Config, n: nat, out: Outcome, f: nat, fuel: nat, q: Point, breaks: seq<nat>, continues: seq<nat>)
    requires Matches(w, g, Run(w, g, c, n), out, f, q, breaks, continues) && n + f >= fuel
    ensures Matches(w, g, c, out, fuel, q, breaks, continues)
  {
    var d := Run(w, g, c, n);
    match out
    case Done(h) => PrependReach(w, g, c, n, 0, q.block, q.pos, h);
    case Broke(k, h) => PrependReach(w, g, c, n, 1, breaks[|breaks| - 1 - k], 0, h);
    case Continued(k, h) => PrependReach(w, g, c, n, 1, continues[|continues| - 1 - k], 0, h);
    case Returned(h) =>
      var m: nat :| Run(w, g, d, m) == Halted(h);
      RunAdds(w, g, c, n, m);
    case Cut(h) =>
      var m: nat :| m >= f && Going(w, g, d, m, h);
      RunAdds(w, g, c, n, m);
      assert Going(w, g, c, n + m, h);
    case Lost(h) =>
      var m: nat :| Strays(w, g, d, m, h);
      RunAdds(w, g, c, n, m);
      assert Strays(w, g, c, n + m, h);
  }

  lemma PrependReach(w: World, g: Graph, c: Config, n: nat, least: nat, b: nat, i: nat, h: History)
    requires Reaches(w, g, Run(w, g, c, n), least, b, i, h)
    ensures Reaches(w, g, c, least, b, i, h)
  {
    var m: nat :| m >= least && Leads(w, g, Run(w, g, c, n), m, b, i, h);
    RunAdds(w, g, c, n, m);
    assert Leads(w, g, c, n + m, b, i, h);
  }

  /** Where a run has got to, as a configuration to go on from. */
  lemma Arrive(w: World, g: Graph, c: Config, least: nat, b: nat, i: nat, h: History) returns (n: nat, temps: map<nat, int>)
    requires Reaches(w, g, c, least, b, i, h)
    ensures n >= least && Run(w, g, c, n) == At(b, i, temps, h)
  {
    n :| n >= least && Leads(w, g, c, n, b, i, h);
    temps := Run(w, g, c, n).temps;
  }

  lemma Here(w: World, g: Graph, b: nat, i: nat, temps: map<nat, int>, h: History)
    ensures Reaches(w, g, At(b, i, temps, h), 0, b, i, h)
  {
    assert Leads(w, g, At(b, i, temps, h), 0, b, i, h);
  }

  // ---- Pieces of wiring ----

  /** The block of p ends at p with a jump. */
  predicate Passes(g: Graph, p: Point, target: nat) {
    p.block < |g| && |g[p.block].code| == p.pos && g[p.block].exit == Jump(target)
  }

  function CondInstr(c: Cond, t: nat): Instr {
    match c
    case Literal(v) => Constant(t, v)
    case Computed(e) => Eval(t, e)
  }

  /** The block of p ends with the condition at p and a branch on it. */
  predicate Tests(g: Graph, p: Point, c: Cond, t: nat, yes: nat, no: nat) {
    && p.block < |g| && |g[p.block].code| == p.pos + 1 && g[p.block].code[p.pos] == CondInstr(c, t)
    && g[p.block].exit == Branch(t, yes, no)
  }

  /** At p, the expression is evaluated. */
  predicate Evaluates(g: Graph, p: Point, t: nat, e: nat) {
    p.block < |g| && p.pos < |g[p.block].code| && g[p.block].code[p.pos] == Eval(t, e)
  }

  /** The block of p ends with a comparison of v with the value of e. */
  predicate Compares(g: Graph, p: Point, v: nat, e: nat, t: nat, r: nat, yes: nat, no: nat) {
    && p.block < |g| && |g[p.block].code| == p.pos + 2 && v != t && v != r
    && g[p.block].code[p.pos] == Eval(t, e) && g[p.block].code[p.pos + 1] == Equal(r, v, t)
    && g[p.block].exit == Branch(r, yes, no)
  }

  lemma Passed(w: World, g: Graph, p: Point, target: nat, temps: map<nat, int>, h: History)
    requires Passes(g, p, target)
    ensures Run(w, g, At(p.block, p.pos, temps, h), 1) == At(target, 0, temps, h)
  {
    assert Run(w, g, Step(w, g, At(p.block, p.pos, temps, h)), 0) == At(target, 0, temps, h);
  }

  lemma EvaluatedAt(w: World, g: Graph, p: Point, t: nat, e: nat, temps: map<nat, int>, h: History) returns (after: map<nat, int>)
    requires Evaluates(g, p, t, e)
    ensures Run(w, g, At(p.block, p.pos, temps, h), 1) == At(p.block, p.pos + 1, after, Evaluated(w, h, e))
    ensures Read(after, t) == w(h, e)
  {
    after := temps[t := w(h, e)];
    assert Run(w, g, Step(w, g, At(p.block, p.pos, temps, h)), 0) == At(p.block, p.pos + 1, after, Evaluated(w, h, e));
  }

  lemma TestedAt(w: World, g: Graph, p: Point, c: Cond, t: nat, yes: nat, no: nat, temps: map<nat, int>, h: History) returns (after: map<nat, int>)
    requires Tests(g, p, c, t, yes, no)
    ensures Run(w, g, At(p.block, p.pos, temps, h), 2) == At(if Truth(w, h, c) then yes else no, 0, after, Tested(w, h, c))
  {
    var start := At(p.block, p.pos, temps, h);
    var next := Step(w, g, start);
    after := next.temps;
    assert Read(after, t) != 0 <==> Truth(w, h, c);
    assert Run(w, g, start, 2) == Run(w, g, next, 1) == Run(w, g, Step(w, g, next), 0);
  }

  lemma ComparedAt(w: World, g: Graph, p: Point, v: nat, e: nat, t: nat, r: nat, yes: nat, no: nat, temps: map<nat, int>, h: History)
      returns (after: map<nat, int>)
    requires Compares(g, p, v, e, t, r, yes, no)
    ensures Run(w, g, At(p.block, p.pos, temps, h), 3) == At(if Read(temps, v) == w(h, e) then yes else no, 0, after, Evaluated(w, h, e))
    ensures Read(after, v) == Read(temps, v)
  {
    var start := At(p.block, p.pos, temps, h);
    var one := Step(w, g, start);
    var two := Step(w, g, one);
    after := two.temps;
    assert one == At(p.block, p.pos + 1, temps[t := w(h, e)], Evaluated(w, h, e));
    assert Read(one.temps, v) == Read(temps, v) && Read(one.temps, t) == w(h, e);
    assert Read(after, r) == if Read(temps, v) == w(h, e) then 1 else 0;
    assert Run(w, g, start, 3) == Run(w, g, one, 2) == Run(w, g, two, 1) == Run(w, g, Step(w, g, two), 0);
  }

  // ---- Which statements can end normally ----

  /** Whether control can come out at the end of a statement, as far as the generator can see. */
  predicate Completes(s: Stmt, folds: bool)
    decreases s
  {
    match s
    case Block(body) => forall k :: 0 <= k < |body| ==> Completes(body[k], folds)
    case If(c, a, b) =>
      if folds && c.Literal? then
        var taken := if c.value != 0 then a else b;
        taken.Some? ==> Completes(taken.value, folds)
      else a.None? || b.None? || Completes(a.value, folds) || Completes(b.value, folds)
    case Break(_) => false
    case Continue(_) => false
    case Return(_) => false
    case _ => true
  }

  lemma {:induction false} NeverDone(w: World, s: Stmt, h: History, fuel: nat, folds: bool)
    requires !Completes(s, folds)
    ensures !Exec(w, true, s, h, fuel).Done?
    decreases s
  {
    match s
    case Block(body) =>
      var k :| 0 <= k < |body| && !Completes(body[k], folds);
      StopsBefore(w, s, k, |body|, h, fuel, folds);
    case If(c, a, b) =>
      var taken := if Truth(w, h, c) then a else b;
      NeverDone(w, taken.value, Tested(w, h, c), fuel, folds);
    case _ =>
  }

  lemma {:induction false} StopsBefore(w: World, s: Stmt, k: nat, n: nat, h: History, fuel: nat, folds: bool)
    requires s.Block? && k < n <= |s.body| && !Completes(s.body[k], folds)
    ensures !ExecFirst(w, true, s, n, h, fuel).Done?
    decreases s, n
  {
    if k + 1 < n {
      StopsBefore(w, s, k, n - 1, h, fuel, folds);
    } else {
      var out := ExecFirst(w, true, s, k, h, fuel);
      if out.Done? {
        NeverDone(w, s.body[k], out.history, fuel, folds);
      }
    }
  }

  ghost predicate NeverEnds(s: Stmt) {
    forall w: World, h, fuel :: !Exec(w, true, s, h, fuel).Done?
  }

  lemma IncompleteNeverEnds(s: Stmt, folds: bool)
    requires !Completes(s, folds)
    ensures NeverEnds(s)
  {
    forall w: World, h, fuel ensures !Exec(w, true, s, h, fuel).Done? {
      NeverDone(w, s, h, fuel, folds);
    }
  }

  /** Where the end of s matters, it jumps to the target. */
  ghost predicate EndPasses(g: Graph, s: Stmt, e: Point, target: nat) {
    NeverEnds(s) || Passes(g, e, target)
  }

  /** Where the end of s matters, it is the end of an abandoned block. */
  ghost predicate EndStrays(g: Graph, s: Stmt, e: Point) {
    NeverEnds(s) || (e.block < |g| && e.pos == |g[e.block].code| && g[e.block].exit.Abandoned?)
  }

  lemma EndStraysStays(g: Graph, later: Graph, s: Stmt, e: Point)
    requires Extends(g, later) && EndStrays(g, s, e)
    ensures EndStrays(later, s, e)
  {
    if !NeverEnds(s) {
      assert Grown(g[e.block], later[e.block]);
    }
  }

  // ---- Single statements ----

  lemma EffectSimulates(g: Graph, e: nat, t: nat, p: Point, q: Point, breaks: seq<nat>, continues: seq<nat>)
    requires Evaluates(g, p, t, e) && q == Point(p.block, p.pos + 1)
    ensures Simulates(g, Effect(e), p, q, breaks, continues)
  {
    forall w: World, h, temps, fuel ensures Follows(w, g, Effect(e), h, temps, fuel, p, q, breaks, continues) {
      var after := EvaluatedAt(w, g, p, t, e, temps, h);
      assert Leads(w, g, At(p.block, p.pos, temps, h), 1, q.block, q.pos, Evaluated(w, h, e));
    }
  }

  lemma LeapSimulates(g: Graph, s: Stmt, p: Point, q: Point, target: nat, breaks: seq<nat>, continues: seq<nat>)
    requires Passes(g, p, target)
    requires match s
      case Break(n) => n < |breaks| && target == breaks[|breaks| - 1 - n]
      case Continue(n) => n < |continues| && target == continues[|continues| - 1 - n]
      case _ => false
    ensures Simulates(g, s, p, q, breaks, continues)
  {
    forall w: World, h, temps, fuel ensures Follows(w, g, s, h, temps, fuel, p, q, breaks, continues) {
      Passed(w, g, p, target, temps, h);
      assert Leads(w, g, At(p.block, p.pos, temps, h), 1, target, 0, h);
    }
  }

  predicate Leaves(g: Graph, p: Point, operand: Option<nat>, t: nat) {
    && p.block < |g| && g[p.block].exit == Leave
    && |g[p.block].code| == p.pos + (if operand.Some? then 1 else 0)
    && (operand.Some? ==> g[p.block].code[p.pos] == Eval(t, operand.value))
  }

  lemma LeavingHalts(w: World, g: Graph, p: Point, operand: Option<nat>, t: nat, temps: map<nat, int>, h: History)
    requires Leaves(g, p, operand, t)
    ensures Halts(w, g, At(p.block, p.pos, temps, h), MaybeEvaluated(w, h, operand))
  {
    var c := At(p.block, p.pos, temps, h);
    var d := Step(w, g, c);
    assert Run(w, g, c, 1) == Run(w, g, d, 0);
    if operand.Some? {
      assert Run(w, g, c, 2) == Run(w, g, d, 1) == Run(w, g, Step(w, g, d), 0) == Halted(MaybeEvaluated(w, h, operand));
    } else {
      assert Run(w, g, c, 1) == Halted(MaybeEvaluated(w, h, operand));
    }
  }

  lemma ReturnSimulates(g: Graph, operand: Option<nat>, t: nat, p: Point, q: Point, breaks: seq<nat>, continues: seq<nat>)
    requires Leaves(g, p, operand, t)
    ensures Simulates(g, Return(operand), p, q, breaks, continues)
  {
    forall w: World, h, temps, fuel ensures Follows(w, g, Return(operand), h, temps, fuel, p, q, breaks, continues) {
      LeavingHalts(w, g, p, operand, t, temps, h);
    }
  }

  // ---- Sequences ----

  lemma EmptySimulates(g: Graph, p: Point, breaks: seq<nat>, continues: seq<nat>)
    ensures Simulates(g, Block([]), p, p, breaks, continues)
  {
    forall w: World, h, temps, fuel ensures Follows(w, g, Block([]), h, temps, fuel, p, p, breaks, continues) {
      Here(w, g, p.block, p.pos, temps, h);
    }
  }

  lemma {:induction false} FirstOfLonger(w: World, s: Stmt, longer: Stmt, k: nat, h: History, fuel: nat)
    requires s.Block? && longer.Block? && s.body <= longer.body && k <= |s.body|
    ensures ExecFirst(w, true, longer, k, h, fuel) == ExecFirst(w, true, s, k, h, fuel)
    decreases k
  {
    if k > 0 {
      FirstOfLonger(w, s, longer, k - 1, h, fuel);
    }
  }

  lemma BlockThen(w: World, body: seq<Stmt>, x: Stmt, h: History, fuel: nat)
    ensures var out := Exec(w, true, Block(body), h, fuel);
      Exec(w, true, Block(body + [x]), h, fuel) == if out.Done? then Exec(w, true, x, out.history, fuel) else out
  {
    FirstOfLonger(w, Block(body), Block(body + [x]), |body|, h, fuel);
  }

  lemma SequenceSimulates(g: Graph, body: seq<Stmt>, x: Stmt, p: Point, m: Point, q: Point, breaks: seq<nat>, continues: seq<nat>)
    requires Simulates(g, Block(body), p, m, breaks, continues) && Simulates(g, x, m, q, breaks, continues)
    ensures Simulates(g, Block(body + [x]), p, q, breaks, continues)
  {
    forall w: World, h, temps, fuel ensures Follows(w, g, Block(body + [x]), h, temps, fuel, p, q, breaks, continues) {
      hide Exec;
      BlockThen(w, body, x, h, fuel);
      var out := Exec(w, true, Block(body), h, fuel);
      assert Follows(w, g, Block(body), h, temps, fuel, p, m, breaks, continues);
      if out.Done? {
        var n, after := Arrive(w, g, At(p.block, p.pos, temps, h), 0, m.block, m.pos, out.history);
        assert Follows(w, g, x, out.history, after, fuel, m, q, breaks, continues);
        Prepend(w, g, At(p.block, p.pos, temps, h), n, Exec(w, true, x, out.history, fuel), fuel, fuel, q, breaks, continues);
      }
    }
  }

  /** What follows a statement that cannot end normally is not run, so leaving it out changes nothing. */
  lemma UnreachableSkipped(g: Graph, body: seq<Stmt>, x: Stmt, p: Point, q: Point, breaks: seq<nat>, continues: seq<nat>)
    requires Simulates(g, Block(body), p, q, breaks, continues) && NeverEnds(Block(body))
    ensures Simulates(g, Block(body + [x]), p, q, breaks, continues)
  {
    forall w: World, h, temps, fuel ensures Follows(w, g, Block(body + [x]), h, temps, fuel, p, q, breaks, continues) {
      hide Exec;
      BlockThen(w, body, x, h, fuel);
      assert Follows(w, g, Block(body), h, temps, fuel, p, q, breaks, continues);
    }
  }

  lemma CompletesThen(body: seq<Stmt>, x: Stmt, folds: bool)
    ensures Completes(Block(body + [x]), folds) <==> Completes(Block(body), folds) && Completes(x, folds)
  {
    var longer := body + [x];
    assert longer[|body|] == x;
    assert forall k :: 0 <= k < |body| ==> longer[k] == body[k];
  }

  // ---- Branches ----

  /** A statement whose end jumps to q runs to q. */
  lemma Through(g: Graph, s: Stmt, p: Point, e: Point, q: Point, breaks: seq<nat>, continues: seq<nat>)
    requires Simulates(g, s, p, e, breaks, continues) && EndPasses(g, s, e, q.block) && q.pos == 0
    ensures Simulates(g, s, p, q, breaks, continues)
  {
    forall w: World, h, temps, fuel ensures Follows(w, g, s, h, temps, fuel, p, q, breaks, continues) {
      hide Exec, Passes;
      var out := Exec(w, true, s, h, fuel);
      assert Follows(w, g, s, h, temps, fuel, p, e, breaks, continues);
      if out.Done? {
        var c := At(p.block, p.pos, temps, h);
        EndReaches(w, g, c, e, q.block, out.history);
        var n :| n >= 1 && Leads(w, g, c, n, q.block, 0, out.history);
        assert Leads(w, g, c, n, q.block, q.pos, out.history);
      }
    }
  }

  /** Passing the end of a statement takes a step. */
  lemma EndReaches(w: World, g: Graph, c: Config, e: Point, target: nat, h: History)
    requires Reaches(w, g, c, 0, e.block, e.pos, h) && Passes(g, e, target)
    ensures Reaches(w, g, c, 1, target, 0, h)
  {
    var n, after := Arrive(w, g, c, 0, e.block, e.pos, h);
    Passed(w, g, e, target, after, h);
    RunAdds(w, g, c, n, 1);
    assert Leads(w, g, c, n + 1, target, 0, h);
  }

  ghost predicate BranchGoes(g: Graph, s: Option<Stmt>, b: nat, q: Point, breaks: seq<nat>, continues: seq<nat>) {
    if s.Some? then Simulates(g, s.value, Point(b, 0), q, breaks, continues) else b == q.block && q.pos == 0
  }

  lemma IfSimulates(g: Graph, s: Stmt, t: nat, p: Point, yes: nat, no: nat, q: Point, breaks: seq<nat>, continues: seq<nat>)
    requires s.If? && Tests(g, p, s.cond, t, yes, no)
    requires BranchGoes(g, s.onTrue, yes, q, breaks, continues) && BranchGoes(g, s.onFalse, no, q, breaks, continues)
    ensures Simulates(g, s, p, q, breaks, continues)
  {
    forall w: World, h, temps, fuel ensures Follows(w, g, s, h, temps, fuel, p, q, breaks, continues) {
      var c := At(p.block, p.pos, temps, h);
      var after := TestedAt(w, g, p, s.cond, t, yes, no, temps, h);
      hide Tests;
      var truth, h1 := Truth(w, h, s.cond), Tested(w, h, s.cond);
      var b, taken := if truth then yes else no, if truth then s.onTrue else s.onFalse;
      var out := Exec(w, true, s, h, fuel);
      if taken.Some? {
        assert out == Exec(w, true, taken.value, h1, fuel);
        hide Exec;
        assert Follows(w, g, taken.value, h1, after, fuel, Point(b, 0), q, breaks, continues);
      } else {
        assert out == Done(h1);
        Here(w, g, b, 0, after, h1);
      }
      Prepend(w, g, c, 2, out, fuel, fuel, q, breaks, continues);
    }
  }

  /** A condition known beforehand is not evaluated, and of the two branches only the taken one is generated. */
  lemma FoldedSimulates(g: Graph, s: Stmt, p: Point, q: Point, breaks: seq<nat>, continues: seq<nat>)
    requires s.If? && s.cond.Literal?
    requires var taken := if s.cond.value != 0 then s.onTrue else s.onFalse;
      if taken.Some? then Simulates(g, taken.value, p, q, breaks, continues) else p == q
    ensures Simulates(g, s, p, q, breaks, continues)
  {
    var taken := if s.cond.value != 0 then s.onTrue else s.onFalse;
    forall w: World, h, temps, fuel ensures Follows(w, g, s, h, temps, fuel, p, q, breaks, continues) {
      assert Truth(w, h, s.cond) <==> s.cond.value != 0;
      if taken.Some? {
        assert Follows(w, g, taken.value, h, temps, fuel, p, q, breaks, continues);
      } else {
        Here(w, g, p.block, p.pos, temps, h);
      }
    }
  }
}
