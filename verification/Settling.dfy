// What a piece of the graph does, it goes on doing while the graph grows
// around it: the constructs once more, for a graph that is still being built.

module Settling {
  import opened Wrappers
  import opened Structured
  import opened FlowGraph
  import opened Simulation
  import opened LoopWiring
  import opened SwitchWiring

  /** From g to later nothing changed but block b, which may have grown, who enters a block, and blocks added. */
  ghost predicate Kept(g: Graph, later: Graph, b: nat) {
    && b < |g| <= |later| && Grown(g[b], later[b])
    && forall c :: 0 <= c < |g| && c != b ==> later[c].code == g[c].code && later[c].exit == g[c].exit
  }

  lemma KeptExtends(g: Graph, later: Graph, b: nat)
    requires Kept(g, later, b)
    ensures Extends(g, later)
  {
  }

  lemma KeptOn(g: Graph, mid: Graph, later: Graph, b: nat, c: nat)
    requires Kept(g, mid, b) && Kept(mid, later, c) && (c == b || |g| <= c)
    ensures Kept(g, later, b)
  {
    assert Grown(g[b], mid[b]) && Grown(mid[b], later[b]);
  }

  /** The point where the next instruction of an open block will be. */
  function EndOf(g: Graph, b: nat): Point {
    Point(b, if b < |g| then |g[b].code| else 0)
  }

  /** Wiring that ends in a final block is there for good. */
  lemma PassesStays(g: Graph, later: Graph, p: Point, target: nat)
    requires Extends(g, later) && Passes(g, p, target)
    ensures Passes(later, p, target)
  {
    assert Grown(g[p.block], later[p.block]);
  }

  lemma TestsStays(g: Graph, later: Graph, p: Point, c: Cond, t: nat, yes: nat, no: nat)
    requires Extends(g, later) && Tests(g, p, c, t, yes, no)
    ensures Tests(later, p, c, t, yes, no)
  {
    assert Grown(g[p.block], later[p.block]);
  }

  lemma EvaluatesStays(g: Graph, later: Graph, p: Point, t: nat, e: nat)
    requires Extends(g, later) && Evaluates(g, p, t, e)
    ensures Evaluates(later, p, t, e)
  {
    assert Grown(g[p.block], later[p.block]);
  }

  lemma ComparesStays(g: Graph, later: Graph, p: Point, v: nat, e: nat, t: nat, r: nat, yes: nat, no: nat)
    requires Extends(g, later) && Compares(g, p, v, e, t, r, yes, no)
    ensures Compares(later, p, v, e, t, r, yes, no)
  {
    assert Grown(g[p.block], later[p.block]);
  }

  lemma EndPassesStays(g: Graph, later: Graph, s: Stmt, e: Point, target: nat)
    requires Extends(g, later) && EndPasses(g, s, e, target)
    ensures EndPasses(later, s, e, target)
  {
    if Passes(g, e, target) {
      PassesStays(g, later, e, target);
    }
  }

  // ---- The constructs, settled ----

  lemma EffectSettled(g: Graph, e: nat, t: nat, p: Point, q: Point, breaks: seq<nat>, continues: seq<nat>)
    requires Evaluates(g, p, t, e) && q == Point(p.block, p.pos + 1)
    ensures Settled(g, Effect(e), p, q, breaks, continues)
  {
    forall later | Extends(g, later) ensures Simulates(later, Effect(e), p, q, breaks, continues) {
      EvaluatesStays(g, later, p, t, e);
      EffectSimulates(later, e, t, p, q, breaks, continues);
    }
  }

  lemma LeapSettled(g: Graph, s: Stmt, p: Point, q: Point, target: nat, breaks: seq<nat>, continues: seq<nat>)
    requires Passes(g, p, target)
    requires match s
      case Break(n) => n < |breaks| && target == breaks[|breaks| - 1 - n]
      case Continue(n) => n < |continues| && target == continues[|continues| - 1 - n]
      case _ => false
    ensures Settled(g, s, p, q, breaks, continues)
  {
    forall later | Extends(g, later) ensures Simulates(later, s, p, q, breaks, continues) {
      PassesStays(g, later, p, target);
      LeapSimulates(later, s, p, q, target, breaks, continues);
    }
  }

  lemma ReturnSettled(g: Graph, operand: Option<nat>, t: nat, p: Point, q: Point, breaks: seq<nat>, continues: seq<nat>)
    requires Leaves(g, p, operand, t)
    ensures Settled(g, Return(operand), p, q, breaks, continues)
  {
    forall later | Extends(g, later) ensures Simulates(later, Return(operand), p, q, breaks, continues) {
      assert Grown(g[p.block], later[p.block]);
      ReturnSimulates(later, operand, t, p, q, breaks, continues);
    }
  }

  lemma EmptySettled(g: Graph, p: Point, breaks: seq<nat>, continues: seq<nat>)
    ensures Settled(g, Block([]), p, p, breaks, continues)
  {
    forall later | Extends(g, later) ensures Simulates(later, Block([]), p, p, breaks, continues) {
      EmptySimulates(later, p, breaks, continues);
    }
  }

  lemma SequenceSettled(g: Graph, body: seq<Stmt>, x: Stmt, p: Point, m: Point, q: Point, breaks: seq<nat>, continues: seq<nat>)
    requires Settled(g, Block(body), p, m, breaks, continues) && Settled(g, x, m, q, breaks, continues)
    ensures Settled(g, Block(body + [x]), p, q, breaks, continues)
  {
    forall later | Extends(g, later) ensures Simulates(later, Block(body + [x]), p, q, breaks, continues) {
      SequenceSimulates(later, body, x, p, m, q, breaks, continues);
    }
  }

  lemma UnreachableSettled(g: Graph, body: seq<Stmt>, x: Stmt, p: Point, q: Point, breaks: seq<nat>, continues: seq<nat>)
    requires Settled(g, Block(body), p, q, breaks, continues) && NeverEnds(Block(body))
    ensures Settled(g, Block(body + [x]), p, q, breaks, continues)
  {
    forall later | Extends(g, later) ensures Simulates(later, Block(body + [x]), p, q, breaks, continues) {
      UnreachableSkipped(later, body, x, p, q, breaks, continues);
    }
  }

  /** A branch of an if: it starts in its own block and its end, if it has one, goes to the merge block. */
  ghost predicate BranchSettled(g: Graph, s: Option<Stmt>, b: nat, e: Point, merge: nat, breaks: seq<nat>, continues: seq<nat>) {
    if s.Some? then Settled(g, s.value, Point(b, 0), e, breaks, continues) && EndPasses(g, s.value, e, merge) else b == merge
  }

  lemma BranchGoesLater(g: Graph, later: Graph, s: Option<Stmt>, b: nat, e: Point, merge: nat, breaks: seq<nat>, continues: seq<nat>)
    requires BranchSettled(g, s, b, e, merge, breaks, continues) && Extends(g, later)
    ensures BranchGoes(later, s, b, Point(merge, 0), breaks, continues)
  {
    if s.Some? {
      EndPassesStays(g, later, s.value, e, merge);
      Through(later, s.value, Point(b, 0), e, Point(merge, 0), breaks, continues);
    }
  }

  lemma IfSettled(g: Graph, s: Stmt, t: nat, p: Point, yes: nat, yesEnd: Point, no: nat, noEnd: Point, merge: nat,
                  breaks: seq<nat>, continues: seq<nat>)
    requires s.If? && Tests(g, p, s.cond, t, yes, no)
    requires BranchSettled(g, s.onTrue, yes, yesEnd, merge, breaks, continues)
    requires BranchSettled(g, s.onFalse, no, noEnd, merge, breaks, continues)
    ensures Settled(g, s, p, Point(merge, 0), breaks, continues)
  {
    var q := Point(merge, 0);
    forall later | Extends(g, later) ensures Simulates(later, s, p, q, breaks, continues) {
      hide *;
      TestsStays(g, later, p, s.cond, t, yes, no);
      BranchGoesLater(g, later, s.onTrue, yes, yesEnd, merge, breaks, continues);
      BranchGoesLater(g, later, s.onFalse, no, noEnd, merge, breaks, continues);
      IfSimulates(later, s, t, p, yes, no, q, breaks, continues);
    }
  }

  /** What never ends normally may be said to end anywhere. */
  lemma EndsAnywhere(g: Graph, s: Stmt, p: Point, q: Point, other: Point, breaks: seq<nat>, continues: seq<nat>)
    requires Settled(g, s, p, q, breaks, continues) && NeverEnds(s)
    ensures Settled(g, s, p, other, breaks, continues)
  {
    forall later | Extends(g, later) ensures Simulates(later, s, p, other, breaks, continues) {
      forall w: World, h, temps, fuel ensures Follows(w, later, s, h, temps, fuel, p, other, breaks, continues) {
        assert Follows(w, later, s, h, temps, fuel, p, q, breaks, continues);
      }
    }
  }

  lemma FoldedSettled(g: Graph, s: Stmt, p: Point, q: Point, breaks: seq<nat>, continues: seq<nat>)
    requires s.If? && s.cond.Literal?
    requires var taken := if s.cond.value != 0 then s.onTrue else s.onFalse;
      if taken.Some? then Settled(g, taken.value, p, q, breaks, continues) else p == q
    ensures Settled(g, s, p, q, breaks, continues)
  {
    forall later | Extends(g, later) ensures Simulates(later, s, p, q, breaks, continues) {
      FoldedSimulates(later, s, p, q, breaks, continues);
    }
  }

  ghost predicate BodySettled(g: Graph, s: Stmt, l: LoopSites, breaks: seq<nat>, continues: seq<nat>)
    requires s.Loop?
  {
    if s.inside.Some? then
      && Settled(g, s.inside.value, Point(l.body, 0), l.end, breaks + [l.out], continues + [ContinueAt(s, l)])
      && EndPasses(g, s.inside.value, l.end, AfterBody(s, l))
    else
      Passes(g, Point(l.body, 0), AfterBody(s, l))
  }

  lemma LoopWiredLater(g: Graph, later: Graph, s: Stmt, l: LoopSites, breaks: seq<nat>, continues: seq<nat>)
    requires s.Loop? && PreWired(g, s, l) && PostWired(g, s, l) && IncrementWired(g, s, l) && BodySettled(g, s, l, breaks, continues)
    requires Extends(g, later)
    ensures LoopWired(later, s, l, breaks, continues)
  {
    if s.inside.Some? {
      EndPassesStays(g, later, s.inside.value, l.end, AfterBody(s, l));
    } else {
      PassesStays(g, later, Point(l.body, 0), AfterBody(s, l));
    }
    hide Simulates, Settled, EndPasses;
    assert BodyGoes(later, s, l, breaks, continues);
    hide BodyGoes, BodySettled;
    assert PreWired(later, s, l) by {
      assert s.pre.Some? ==> Grown(g[l.pre], later[l.pre]);
    }
    assert PostWired(later, s, l) by {
      assert s.post.Some? ==> Grown(g[l.post], later[l.post]);
    }
    assert IncrementWired(later, s, l) by {
      assert s.increment.Some? ==> Grown(g[l.increment], later[l.increment]);
    }
  }

  lemma LoopSettled(g: Graph, s: Stmt, l: LoopSites, t: nat, p: Point, breaks: seq<nat>, continues: seq<nat>)
    requires s.Loop? && EntryWired(g, s, l, p, t)
    requires PreWired(g, s, l) && PostWired(g, s, l) && IncrementWired(g, s, l) && BodySettled(g, s, l, breaks, continues)
    ensures Settled(g, s, p, Point(l.out, 0), breaks, continues)
  {
    var q := Point(l.out, 0);
    forall later | Extends(g, later) ensures Simulates(later, s, p, q, breaks, continues) {
      assert EntryWired(later, s, l, p, t) by {
        assert Grown(g[p.block], later[p.block]);
      }
      hide *;
      LoopWiredLater(g, later, s, l, breaks, continues);
      LoopSimulates(later, s, l, t, p, breaks, continues);
    }
  }

  ghost predicate CaseSettled(g: Graph, s: Stmt, sites: seq<CaseSite>, out: nat, k: nat, breaks: seq<nat>, continues: seq<nat>)
    requires s.Switch? && k < |s.cases| == |sites|
  {
    Dropped(s.cases, k) || (
      && Settled(g, s.cases[k].code, sites[k].start, sites[k].end, breaks + [out], continues)
      && (if s.cases[k].value.Some? && Dropped(s.cases, k + 1) then EndStrays(g, s.cases[k].code, sites[k].end)
          else EndPasses(g, s.cases[k].code, sites[k].end, NextBlock(s.cases, sites, out, k)))
      && (s.cases[k].value.Some? || (k > 0 && s.cases[k - 1].value.Some?) ==> sites[k].start.pos == 0))
  }

  ghost predicate CasesSettled(g: Graph, s: Stmt, subject: nat, sites: seq<CaseSite>, rest: Point, out: nat,
                               breaks: seq<nat>, continues: seq<nat>)
    requires s.Switch?
  {
    && |sites| == |s.cases|
    && (forall k :: 0 <= k < |sites| ==> CaseCompared(g, s, subject, sites, rest, k))
    && (forall k :: 0 <= k < |sites| ==> CaseSettled(g, s, sites, out, k, breaks, continues))
    && (DefaultBefore(s.cases, |s.cases|).None? ==> Passes(g, rest, out))
  }

  lemma CaseComparedStays(g: Graph, later: Graph, s: Stmt, subject: nat, sites: seq<CaseSite>, rest: Point, k: nat)
    requires s.Switch? && k < |s.cases| == |sites| && CaseCompared(g, s, subject, sites, rest, k) && Extends(g, later)
    ensures CaseCompared(later, s, subject, sites, rest, k)
  {
    assert s.cases[k].value.Some? ==> Grown(g[sites[k].test.block], later[sites[k].test.block]);
  }

  lemma CaseGoesLater(g: Graph, later: Graph, s: Stmt, sites: seq<CaseSite>, out: nat, k: nat, breaks: seq<nat>, continues: seq<nat>)
    requires s.Switch? && k < |s.cases| == |sites| && CaseSettled(g, s, sites, out, k, breaks, continues) && Extends(g, later)
    ensures CaseGoes(later, s, sites, out, k, breaks, continues)
  {
    if !Dropped(s.cases, k) {
      if s.cases[k].value.Some? && Dropped(s.cases, k + 1) {
        EndStraysStays(g, later, s.cases[k].code, sites[k].end);
      } else {
        EndPassesStays(g, later, s.cases[k].code, sites[k].end, NextBlock(s.cases, sites, out, k));
      }
    }
  }

  lemma SwitchSettled(g: Graph, s: Stmt, subject: nat, sites: seq<CaseSite>, rest: Point, out: nat, p: Point,
                      breaks: seq<nat>, continues: seq<nat>)
    requires s.Switch? && s.cases != [] && Evaluates(g, p, subject, s.subject)
    requires CasesSettled(g, s, subject, sites, rest, out, breaks, continues) && sites[0].test == Point(p.block, p.pos + 1)
    ensures Settled(g, s, p, Point(out, 0), breaks, continues)
  {
    var q := Point(out, 0);
    forall later | Extends(g, later) ensures Simulates(later, s, p, q, breaks, continues) {
      hide CaseCompared, CaseSettled, CaseGoes, Extends, Simulates;
      EvaluatesStays(g, later, p, subject, s.subject);
      forall k | 0 <= k < |sites| ensures CaseCompared(later, s, subject, sites, rest, k) && CaseGoes(later, s, sites, out, k, breaks, continues) {
        CaseComparedStays(g, later, s, subject, sites, rest, k);
        CaseGoesLater(g, later, s, sites, out, k, breaks, continues);
      }
      if DefaultBefore(s.cases, |s.cases|).None? {
        PassesStays(g, later, rest, out);
      }
      SwitchSimulates(later, s, subject, sites, rest, out, p, breaks, continues);
    }
  }

  lemma EmptySwitchSettled(g: Graph, s: Stmt, t: nat, p: Point, q: Point, breaks: seq<nat>, continues: seq<nat>)
    requires s.Switch? && s.cases == [] && Evaluates(g, p, t, s.subject) && q == Point(p.block, p.pos + 1)
    ensures Settled(g, s, p, q, breaks, continues)
  {
    forall later | Extends(g, later) ensures Simulates(later, s, p, q, breaks, continues) {
      EvaluatesStays(g, later, p, t, s.subject);
      EmptySwitchSimulates(later, s, t, p, breaks, continues);
    }
  }
}
