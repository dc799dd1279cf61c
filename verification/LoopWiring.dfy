// The blocks of a loop, and why running around them is running the loop.

module LoopWiring {
  import opened Wrappers
  import opened Structured
  import opened FlowGraph
  import opened Simulation

  // Blocks of parts a loop does not have are not used.
  datatype LoopSites = LoopSites(pre: nat, preTemp: nat, post: nat, postTemp: nat, increment: nat, incrementTemp: nat,
                                 out: nat, body: nat, end: Point)

  function Top(s: Stmt, l: LoopSites): nat
    requires s.Loop?
  {
    if s.pre.Some? then l.pre else l.body
  }

  /** Where a round goes when its increment is done. */
  function Closing(s: Stmt, l: LoopSites): nat
    requires s.Loop?
  {
    if s.post.Some? then l.post else Top(s, l)
  }

  function AfterBody(s: Stmt, l: LoopSites): nat
    requires s.Loop?
  {
    if s.increment.Some? then l.increment else Closing(s, l)
  }

  function ContinueAt(s: Stmt, l: LoopSites): nat
    requires s.Loop?
  {
    if s.post.Some? then l.post else if s.increment.Some? then l.increment else Top(s, l)
  }

  predicate PreWired(g: Graph, s: Stmt, l: LoopSites)
    requires s.Loop?
  {
    s.pre.Some? ==> Tests(g, Point(l.pre, 0), s.pre.value, l.preTemp, if s.preNot then l.out else l.body, if s.preNot then l.body else l.out)
  }

  predicate PostWired(g: Graph, s: Stmt, l: LoopSites)
    requires s.Loop?
  {
    s.post.Some? ==> Tests(g, Point(l.post, 0), s.post.value, l.postTemp,
                           if s.postNot then l.out else Top(s, l), if s.postNot then Top(s, l) else l.out)
  }

  predicate IncrementWired(g: Graph, s: Stmt, l: LoopSites)
    requires s.Loop?
  {
    s.increment.Some? ==>
      && Evaluates(g, Point(l.increment, 0), l.incrementTemp, s.increment.value)
      && Passes(g, Point(l.increment, 1), Closing(s, l))
  }

  /** The body runs from its block to the part that comes after it; its breaks and continues lead where they should. */
  ghost predicate BodyGoes(g: Graph, s: Stmt, l: LoopSites, breaks: seq<nat>, continues: seq<nat>)
    requires s.Loop?
  {
    if s.inside.Some? then
      && Simulates(g, s.inside.value, Point(l.body, 0), l.end, breaks + [l.out], continues + [ContinueAt(s, l)])
      && EndPasses(g, s.inside.value, l.end, AfterBody(s, l))
    else
      Passes(g, Point(l.body, 0), AfterBody(s, l))
  }

  ghost predicate LoopWired(g: Graph, s: Stmt, l: LoopSites, breaks: seq<nat>, continues: seq<nat>)
    requires s.Loop?
  {
    PreWired(g, s, l) && PostWired(g, s, l) && IncrementWired(g, s, l) && BodyGoes(g, s, l, breaks, continues)
  }

  ghost predicate RoundMatches(w: World, g: Graph, s: Stmt, l: LoopSites, h: History, temps: map<nat, int>, fuel: nat,
                               breaks: seq<nat>, continues: seq<nat>)
    requires s.Loop?
  {
    Matches(w, g, At(Top(s, l), 0, temps, h), Round(w, true, s, h, fuel), fuel, Point(l.out, 0), breaks, continues)
  }

  /** A round spends at least one step, so the part from its closing condition on may count one round less. */
  ghost predicate CloseMatches(w: World, g: Graph, s: Stmt, l: LoopSites, h: History, c: Config, fuel: nat,
                               breaks: seq<nat>, continues: seq<nat>)
    requires s.Loop?
  {
    Matches(w, g, c, Close(w, true, s, h, fuel), if fuel == 0 then 0 else fuel - 1, Point(l.out, 0), breaks, continues)
  }

  lemma {:induction false} ClosingRuns(w: World, g: Graph, s: Stmt, l: LoopSites, h: History, temps: map<nat, int>, fuel: nat,
                                       breaks: seq<nat>, continues: seq<nat>)
    requires s.Loop? && LoopWired(g, s, l, breaks, continues)
    ensures CloseMatches(w, g, s, l, h, At(Closing(s, l), 0, temps, h), fuel, breaks, continues)
    decreases fuel, 0
  {
    var c := At(Closing(s, l), 0, temps, h);
    var h1 := if s.post.Some? then Tested(w, h, s.post.value) else h;
    var leaves := s.post.Some? && Truth(w, h, s.post.value) == s.postNot;
    var after, n := temps, 0;
    if s.post.Some? {
      after := TestedAt(w, g, Point(l.post, 0), s.post.value, l.postTemp,
                        if s.postNot then l.out else Top(s, l), if s.postNot then Top(s, l) else l.out, temps, h);
      n := 2;
    }
    assert Run(w, g, c, n) == At(if leaves then l.out else Top(s, l), 0, after, h1);
    var out := Close(w, true, s, h, fuel);
    var f := if fuel == 0 then 0 else fuel - 1;
    if leaves {
      Here(w, g, l.out, 0, after, h1);
      Prepend(w, g, c, n, out, f, f, Point(l.out, 0), breaks, continues);
    } else if fuel == 0 {
      assert Going(w, g, c, n, h1);
    } else {
      RoundRuns(w, g, s, l, h1, after, fuel - 1, breaks, continues);
      Prepend(w, g, c, n, out, f, f, Point(l.out, 0), breaks, continues);
    }
  }

  /** From where the body ends, with the increment if there is one. */
  lemma {:induction false} AfterBodyRuns(w: World, g: Graph, s: Stmt, l: LoopSites, h: History, temps: map<nat, int>, fuel: nat,
                                         breaks: seq<nat>, continues: seq<nat>)
    requires s.Loop? && LoopWired(g, s, l, breaks, continues)
    ensures CloseMatches(w, g, s, l, MaybeEvaluated(w, h, s.increment), At(AfterBody(s, l), 0, temps, h), fuel, breaks, continues)
    decreases fuel, 1
  {
    if s.increment.Some? {
      var c, p := At(l.increment, 0, temps, h), Point(l.increment, 0);
      var h1 := Evaluated(w, h, s.increment.value);
      var after := EvaluatedAt(w, g, p, l.incrementTemp, s.increment.value, temps, h);
      Passed(w, g, Point(l.increment, 1), Closing(s, l), after, h1);
      RunAdds(w, g, c, 1, 1);
      ClosingRuns(w, g, s, l, h1, after, fuel, breaks, continues);
      hide Close;
      var f := if fuel == 0 then 0 else fuel - 1;
      Prepend(w, g, c, 2, Close(w, true, s, h1, fuel), f, f, Point(l.out, 0), breaks, continues);
    } else {
      ClosingRuns(w, g, s, l, h, temps, fuel, breaks, continues);
    }
  }

  /** The outcome of a round whose body has ended as given. */
  function RoundAfter(w: World, s: Stmt, out: Outcome, fuel: nat): Outcome
    requires s.Loop?
  {
    match out
    case Done(h) => Close(w, true, s, MaybeEvaluated(w, h, s.increment), fuel)
    case Broke(n, h) => if n == 0 then Done(h) else Broke(n - 1, h)
    case Continued(n, h) =>
      if n > 0 then Continued(n - 1, h)
      else Close(w, true, s, if s.post.Some? then h else MaybeEvaluated(w, h, s.increment), fuel)
    case _ => out
  }

  /** A round goes on from its body the way the body ended. */
  lemma {:induction false} FromBody(w: World, g: Graph, s: Stmt, l: LoopSites, c: Config, out: Outcome, fuel: nat,
                                    breaks: seq<nat>, continues: seq<nat>)
    requires s.Loop? && LoopWired(g, s, l, breaks, continues)
    requires match out
      case Done(h) => Reaches(w, g, c, 1, AfterBody(s, l), 0, h)
      case _ => Matches(w, g, c, out, fuel, l.end, breaks + [l.out], continues + [ContinueAt(s, l)])
    ensures Matches(w, g, c, RoundAfter(w, s, out, fuel), fuel, Point(l.out, 0), breaks, continues)
    decreases fuel, 2
  {
    hide LoopWired, Close;
    var f := if fuel == 0 then 0 else fuel - 1;
    match out
    case Done(h) =>
      var n, after := Arrive(w, g, c, 1, AfterBody(s, l), 0, h);
      AfterBodyRuns(w, g, s, l, h, after, fuel, breaks, continues);
      Prepend(w, g, c, n, RoundAfter(w, s, out, fuel), f, fuel, Point(l.out, 0), breaks, continues);
    case Broke(k, h) =>
      if k == 0 {
        var n, after := Arrive(w, g, c, 1, l.out, 0, h);
        assert Leads(w, g, c, n, l.out, 0, h);
      }
    case Continued(k, h) =>
      if k == 0 {
        var n, after := Arrive(w, g, c, 1, ContinueAt(s, l), 0, h);
        if s.post.Some? {
          ClosingRuns(w, g, s, l, h, after, fuel, breaks, continues);
        } else {
          AfterBodyRuns(w, g, s, l, h, after, fuel, breaks, continues);
        }
        Prepend(w, g, c, n, RoundAfter(w, s, out, fuel), f, fuel, Point(l.out, 0), breaks, continues);
      }
    case _ =>
  }

  /** The start of a round: either the loop is over or control is in the body. */
  lemma PreRuns(w: World, g: Graph, s: Stmt, l: LoopSites, h: History, temps: map<nat, int>) returns (n: nat, after: map<nat, int>)
    requires s.Loop? && PreWired(g, s, l)
    ensures var leaves := s.pre.Some? && Truth(w, h, s.pre.value) == s.preNot;
      Run(w, g, At(Top(s, l), 0, temps, h), n)
        == At(if leaves then l.out else l.body, 0, after, if s.pre.Some? then Tested(w, h, s.pre.value) else h)
  {
    n, after := 0, temps;
    if s.pre.Some? {
      after := TestedAt(w, g, Point(l.pre, 0), s.pre.value, l.preTemp,
                        if s.preNot then l.out else l.body, if s.preNot then l.body else l.out, temps, h);
      n := 2;
    }
  }

  /** From the start of the body to the end of the round and all later ones. */
  lemma {:induction false} BodyRuns(w: World, g: Graph, s: Stmt, l: LoopSites, h: History, temps: map<nat, int>, fuel: nat,
                                    breaks: seq<nat>, continues: seq<nat>)
    requires s.Loop? && LoopWired(g, s, l, breaks, continues)
    ensures var out := if s.inside.Some? then Exec(w, true, s.inside.value, h, fuel) else Done(h);
      Matches(w, g, At(l.body, 0, temps, h), RoundAfter(w, s, out, fuel), fuel, Point(l.out, 0), breaks, continues)
    decreases fuel, 3
  {
    var c := At(l.body, 0, temps, h);
    if s.inside.None? {
      Passed(w, g, Point(l.body, 0), AfterBody(s, l), temps, h);
      assert Leads(w, g, c, 1, AfterBody(s, l), 0, h);
      FromBody(w, g, s, l, c, Done(h), fuel, breaks, continues);
    } else {
      assert Follows(w, g, s.inside.value, h, temps, fuel, Point(l.body, 0), l.end, breaks + [l.out], continues + [ContinueAt(s, l)]);
      var out := Exec(w, true, s.inside.value, h, fuel);
      if out.Done? {
        EndReaches(w, g, c, l.end, AfterBody(s, l), out.history);
      }
      FromBody(w, g, s, l, c, out, fuel, breaks, continues);
    }
  }

  lemma {:induction false} RoundRuns(w: World, g: Graph, s: Stmt, l: LoopSites, h: History, temps: map<nat, int>, fuel: nat,
                                     breaks: seq<nat>, continues: seq<nat>)
    requires s.Loop? && LoopWired(g, s, l, breaks, continues)
    ensures RoundMatches(w, g, s, l, h, temps, fuel, breaks, continues)
    decreases fuel, 4
  {
    var c := At(Top(s, l), 0, temps, h);
    var n, after := PreRuns(w, g, s, l, h, temps);
    var h1 := if s.pre.Some? then Tested(w, h, s.pre.value) else h;
    var out := Round(w, true, s, h, fuel);
    if s.pre.Some? && Truth(w, h, s.pre.value) == s.preNot {
      Here(w, g, l.out, 0, after, h1);
    } else {
      BodyRuns(w, g, s, l, h1, after, fuel, breaks, continues);
    }
    Prepend(w, g, c, n, out, fuel, fuel, Point(l.out, 0), breaks, continues);
  }

  /** The part before the first round: the initial expression, and a jump to the top. */
  predicate EntryWired(g: Graph, s: Stmt, l: LoopSites, p: Point, t: nat)
    requires s.Loop?
  {
    if s.init.Some? then Evaluates(g, p, t, s.init.value) && Passes(g, Point(p.block, p.pos + 1), Top(s, l))
    else Passes(g, p, Top(s, l))
  }

  lemma LoopSimulates(g: Graph, s: Stmt, l: LoopSites, t: nat, p: Point, breaks: seq<nat>, continues: seq<nat>)
    requires s.Loop? && EntryWired(g, s, l, p, t) && LoopWired(g, s, l, breaks, continues)
    ensures Simulates(g, s, p, Point(l.out, 0), breaks, continues)
  {
    forall w: World, h, temps, fuel ensures Follows(w, g, s, h, temps, fuel, p, Point(l.out, 0), breaks, continues) {
      hide LoopWired, Round;
      var c := At(p.block, p.pos, temps, h);
      var h1 := MaybeEvaluated(w, h, s.init);
      var after, n := temps, 1;
      if s.init.Some? {
        after := EvaluatedAt(w, g, p, t, s.init.value, temps, h);
        Passed(w, g, Point(p.block, p.pos + 1), Top(s, l), after, h1);
        RunAdds(w, g, c, 1, 1);
        n := 2;
      } else {
        Passed(w, g, p, Top(s, l), temps, h);
      }
      RoundRuns(w, g, s, l, h1, after, fuel, breaks, continues);
      Prepend(w, g, c, n, Exec(w, true, s, h, fuel), fuel, fuel, Point(l.out, 0), breaks, continues);
    }
  }
}
