// What it means for the flow graph of a whole function to do what the
// function's body says, and what follows from it.

module Lowering {
  import opened Wrappers
  import opened Structured
  import opened FlowGraph
  import opened Simulation
  import opened Defaults

  /** Whether a function returns something, and if so whether it has a variable holding what falling off its end returns. */
  datatype Result = Nothing | Something(local: Option<nat>)

  /** What is still evaluated when control comes out at the end of the body. */
  function AtTheEnd(w: World, h: History, kind: Result): History {
    if kind.Something? then MaybeEvaluated(w, h, kind.local) else h
  }

  function Start(temps: map<nat, int>, h: History): Config {
    At(0, 0, temps, h)
  }

  /** The history a terminated body leaves behind. */
  function Final(w: World, out: Outcome, kind: Result): Option<History> {
    match out
    case Done(h) => Some(AtTheEnd(w, h, kind))
    case Returned(h) => Some(h)
    case _ => None
  }

  ghost predicate Answers(w: World, g: Graph, body: Stmt, kind: Result, temps: map<nat, int>, h: History, fuel: nat) {
    var out := Exec(w, true, body, h, fuel);
    match Final(w, out, kind)
    case Some(last) => Halts(w, g, Start(temps, h), last)
    case None => if out.Lost? then GetsLost(w, g, Start(temps, h), out.history) else out.Cut? && Lasts(w, g, Start(temps, h), fuel, out.history)
  }

  /** Whatever the world, the machine started in the first block answers to the body. */
  ghost predicate Lowers(g: Graph, body: Stmt, kind: Result) {
    forall w: World, temps, h, fuel :: Answers(w, g, body, kind, temps, h, fuel)
  }

  /** When the machine has stopped, the body has come to its end or got lost, after as many rounds. */
  lemma StoppedIsFinal(w: World, g: Graph, body: Stmt, kind: Result, temps: map<nat, int>, h: History, n: nat)
    requires Lowers(g, body, kind) && !Run(w, g, Start(temps, h), n).At?
    ensures var out := Exec(w, true, body, h, n);
      match Final(w, out, kind)
      case Some(last) => Run(w, g, Start(temps, h), n) == Halted(last)
      case None => out.Lost? && Run(w, g, Start(temps, h), n) == Stuck
  {
    var c := Start(temps, h);
    assert Answers(w, g, body, kind, temps, h, n);
    var out := Exec(w, true, body, h, n);
    if out.Cut? {
      var m: nat :| m >= n && Going(w, g, c, m, out.history);
      RunAdds(w, g, c, n, m - n);
      EndsForGood(w, g, Run(w, g, c, n), m - n);
    } else if out.Lost? {
      var m: nat :| Strays(w, g, c, m, out.history);
      StraysStuck(w, g, c, m, out.history);
      StopsOnce(w, g, c, n, m + 1);
    } else {
      var last := Final(w, out, kind).value;
      var m: nat :| Run(w, g, c, m) == Halted(last);
      StopsOnce(w, g, c, n, m);
    }
  }

  ghost predicate Finishes(w: World, body: Stmt, kind: Result, h: History, last: History) {
    exists fuel: nat :: Final(w, Exec(w, true, body, h, fuel), kind) == Some(last)
  }

  ghost predicate LosesItself(w: World, body: Stmt, h: History) {
    exists fuel: nat :: Exec(w, true, body, h, fuel).Lost?
  }

  ghost predicate Sticks(w: World, g: Graph, c: Config) {
    exists n: nat :: Run(w, g, c, n) == Stuck
  }

  /**
   * The graph halts after exactly the evaluations of the body: it halts if and only if the body
   * terminates, runs forever if and only if the body does, and gets stuck if and only if the body
   * comes to code that is never generated.
   */
  lemma LoweringPreservesMeaning(w: World, g: Graph, body: Stmt, kind: Result, temps: map<nat, int>, h: History, last: History)
    requires Lowers(g, body, kind)
    ensures Halts(w, g, Start(temps, h), last) <==> Finishes(w, body, kind, h, last)
    ensures (forall n: nat :: Run(w, g, Start(temps, h), n).At?) <==> forall fuel: nat :: Exec(w, true, body, h, fuel).Cut?
    ensures Sticks(w, g, Start(temps, h)) <==> LosesItself(w, body, h)
  {
    var c := Start(temps, h);
    if Halts(w, g, c, last) {
      var n: nat :| Run(w, g, c, n) == Halted(last);
      StoppedIsFinal(w, g, body, kind, temps, h, n);
      assert Final(w, Exec(w, true, body, h, n), kind) == Some(last);
    }
    if Finishes(w, body, kind, h, last) {
      var fuel: nat :| Final(w, Exec(w, true, body, h, fuel), kind) == Some(last);
      assert Answers(w, g, body, kind, temps, h, fuel);
    }
    RunsForever(w, g, body, kind, temps, h);
    StuckIsLost(w, g, body, kind, temps, h);
  }

  lemma StuckIsLost(w: World, g: Graph, body: Stmt, kind: Result, temps: map<nat, int>, h: History)
    requires Lowers(g, body, kind)
    ensures Sticks(w, g, Start(temps, h)) <==> LosesItself(w, body, h)
  {
    var c := Start(temps, h);
    if n: nat :| Run(w, g, c, n) == Stuck {
      StoppedIsFinal(w, g, body, kind, temps, h, n);
    }
    if fuel: nat :| Exec(w, true, body, h, fuel).Lost? {
      assert Answers(w, g, body, kind, temps, h, fuel);
      var last := Exec(w, true, body, h, fuel).history;
      var n: nat :| Strays(w, g, c, n, last);
      StraysStuck(w, g, c, n, last);
    }
  }

  lemma RunsForever(w: World, g: Graph, body: Stmt, kind: Result, temps: map<nat, int>, h: History)
    requires Lowers(g, body, kind)
    ensures (forall n: nat :: Run(w, g, Start(temps, h), n).At?) <==> forall fuel: nat :: Exec(w, true, body, h, fuel).Cut?
  {
    var c := Start(temps, h);
    if n: nat :| !Run(w, g, c, n).At? {
      StoppedIsFinal(w, g, body, kind, temps, h, n);
      assert !Exec(w, true, body, h, n).Cut?;
    } else {
      forall fuel: nat ensures Exec(w, true, body, h, fuel).Cut? {
        if !Exec(w, true, body, h, fuel).Cut? {
          FinalStops(w, g, body, kind, temps, h, fuel);
        }
      }
    }
  }

  lemma FinalStops(w: World, g: Graph, body: Stmt, kind: Result, temps: map<nat, int>, h: History, fuel: nat)
    requires Lowers(g, body, kind) && !Exec(w, true, body, h, fuel).Cut?
    ensures exists n: nat :: !Run(w, g, Start(temps, h), n).At?
  {
    assert Answers(w, g, body, kind, temps, h, fuel);
    var out := Exec(w, true, body, h, fuel);
    if out.Lost? {
      var n: nat :| Strays(w, g, Start(temps, h), n, out.history);
      StraysStuck(w, g, Start(temps, h), n, out.history);
      assert !Run(w, g, Start(temps, h), n + 1).At?;
    } else {
      var last := Final(w, out, kind).value;
      var n: nat :| Run(w, g, Start(temps, h), n) == Halted(last);
      assert !Run(w, g, Start(temps, h), n).At?;
    }
  }

  /** Where no loop has both an increment and a closing condition and no switch has two defaults, what is written is preserved. */
  lemma PlainMeaningPreserved(w: World, g: Graph, body: Stmt, kind: Result, temps: map<nat, int>, h: History, fuel: nat)
    requires Lowers(g, body, kind) && NeverBoth(body) && NeverTwo(body)
    ensures match Final(w, Exec(w, false, body, h, fuel), kind)
      case Some(last) => Halts(w, g, Start(temps, h), last)
      case None => Lasts(w, g, Start(temps, h), fuel, Exec(w, false, body, h, fuel).history)
  {
    WaysAgree(w, body, h, fuel);
    NeverLost(w, true, body, h, fuel);
    assert Answers(w, g, body, kind, temps, h, fuel);
  }

  /** Where no switch has two defaults, the machine never gets stuck. */
  lemma NeverStuck(w: World, g: Graph, body: Stmt, kind: Result, temps: map<nat, int>, h: History)
    requires Lowers(g, body, kind) && NeverTwo(body)
    ensures !Sticks(w, g, Start(temps, h))
  {
    StuckIsLost(w, g, body, kind, temps, h);
    forall fuel: nat ensures !Exec(w, true, body, h, fuel).Lost? {
      NeverLost(w, true, body, h, fuel);
    }
  }

  /** A function whose body is a switch with two defaults, when the case before them is equal. */
  lemma TwoDefaultsStick(w: World, g: Graph, kind: Result, temps: map<nat, int>, h: History)
    requires Lowers(g, Block([TWO_DEFAULTS]), kind) && w(h, 0) == w(Evaluated(w, h, 0), 1)
    ensures Sticks(w, g, Start(temps, h))
  {
    var body := Block([TWO_DEFAULTS]);
    TwoDefaultsLose(w, h);
    assert ExecFirst(w, true, body, 1, h, 0) == Exec(w, true, TWO_DEFAULTS, h, 0);
    assert Exec(w, true, body, h, 0).Lost?;
    StuckIsLost(w, g, body, kind, temps, h);
  }

  // ---- The end of a function ----

  /** The last block returns, evaluating what the function returns when control comes out of its body. */
  lemma ReturnedLowers(g: Graph, later: Graph, body: Stmt, kind: Result, q: Point, t: nat)
    requires Simulates(later, body, Point(0, 0), q, [], [])
    requires NeverEnds(body) || Leaves(later, q, if kind.Something? then kind.local else None, t)
    ensures Lowers(later, body, kind)
  {
    forall w: World, temps, h, fuel ensures Answers(w, later, body, kind, temps, h, fuel) {
      assert Follows(w, later, body, h, temps, fuel, Point(0, 0), q, [], []);
      var out := Exec(w, true, body, h, fuel);
      if out.Done? {
        var n, after := Arrive(w, later, Start(temps, h), 0, q.block, q.pos, out.history);
        LeavingHalts(w, later, q, if kind.Something? then kind.local else None, t, after, out.history);
        var m: nat :| Run(w, later, At(q.block, q.pos, after, out.history), m) == Halted(AtTheEnd(w, out.history, kind));
        RunAdds(w, later, Start(temps, h), n, m);
      }
    }
  }

  /** A last block that nothing enters may stay open: control never gets there. */
  lemma AbandonedLowers(g: Graph, body: Stmt, kind: Result, q: Point)
    requires Simulates(g, body, Point(0, 0), q, [], []) && Entered(g)
    requires 0 < q.block < |g| && g[q.block].entries == []
    ensures Lowers(g, body, kind)
  {
    forall w: World, temps, h, fuel ensures Answers(w, g, body, kind, temps, h, fuel) {
      assert Follows(w, g, body, h, temps, fuel, Point(0, 0), q, [], []);
      var out := Exec(w, true, body, h, fuel);
      if out.Done? {
        var n, after := Arrive(w, g, Start(temps, h), 0, q.block, q.pos, out.history);
        OnlyEntered(w, g, Start(temps, h), n);
      }
    }
  }
}
