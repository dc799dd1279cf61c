// The chain of comparisons and the case blocks of a switch, and why running
// through them is running the switch.

module SwitchWiring {
  import opened Wrappers
  import opened Structured
  import opened FlowGraph
  import opened Simulation

  /** Where a case is compared, and where its code starts and ends. The default is not compared: test is where the chain stands. */
  datatype CaseSite = CaseSite(test: Point, valueTemp: nat, equalTemp: nat, start: Point, end: Point)

  /** Where the chain of comparisons stands when k cases have been passed; rest is its end. */
  function ChainAt(sites: seq<CaseSite>, rest: Point, k: nat): Point {
    if k < |sites| then sites[k].test else rest
  }

  /** Where the code before case k falls through to. */
  function FallTo(sites: seq<CaseSite>, out: nat, k: nat): nat {
    if k < |sites| then sites[k].start.block else out
  }

  /** Where the code of case k goes on to. */
  function NextBlock(cases: seq<Case>, sites: seq<CaseSite>, out: nat, k: nat): nat
    requires k < |cases| == |sites|
  {
    var f := FollowerBefore(cases, |cases|);
    if cases[k].value.Some? then FallTo(sites, out, k + 1)
    else if f.Some? then sites[f.value].start.block else out
  }

  /** A failed comparison goes on with the chain; the last default waits at the end of the chain. */
  predicate CaseCompared(g: Graph, s: Stmt, subject: nat, sites: seq<CaseSite>, rest: Point, k: nat)
    requires s.Switch? && k < |s.cases| == |sites|
  {
    var c, site, next := s.cases[k], sites[k], ChainAt(sites, rest, k + 1);
    if c.value.Some? then
      && site.start.pos == 0 && next.pos == 0
      && Compares(g, site.test, subject, c.value.value, site.valueTemp, site.equalTemp, site.start.block, next.block)
    else
      next == site.test && (DefaultBefore(s.cases, |s.cases|) == Some(k) ==> site.start == rest)
  }

  /** The code of a case is there, unless it is a default that is not the last, and goes on where it should. */
  ghost predicate CaseGoes(g: Graph, s: Stmt, sites: seq<CaseSite>, out: nat, k: nat, breaks: seq<nat>, continues: seq<nat>)
    requires s.Switch? && k < |s.cases| == |sites|
  {
    Dropped(s.cases, k) || (
      && Simulates(g, s.cases[k].code, sites[k].start, sites[k].end, breaks + [out], continues)
      && (if s.cases[k].value.Some? && Dropped(s.cases, k + 1) then EndStrays(g, s.cases[k].code, sites[k].end)
          else EndPasses(g, s.cases[k].code, sites[k].end, NextBlock(s.cases, sites, out, k)))
      && (s.cases[k].value.Some? || (k > 0 && s.cases[k - 1].value.Some?) ==> sites[k].start.pos == 0))
  }

  ghost predicate SwitchWired(g: Graph, s: Stmt, subject: nat, sites: seq<CaseSite>, rest: Point, out: nat,
                              breaks: seq<nat>, continues: seq<nat>)
    requires s.Switch?
  {
    && |sites| == |s.cases|
    && (forall k :: 0 <= k < |sites| ==> CaseCompared(g, s, subject, sites, rest, k))
    && (forall k :: 0 <= k < |sites| ==> CaseGoes(g, s, sites, out, k, breaks, continues))
    && (DefaultBefore(s.cases, |s.cases|).None? ==> Passes(g, rest, out))
  }

  /** The comparisons find the first equal case, evaluating the values up to it and no others. */
  lemma {:induction false} SelectRuns(w: World, g: Graph, s: Stmt, subject: nat, sites: seq<CaseSite>, rest: Point, k: nat, v: int,
                                      temps: map<nat, int>, h: History) returns (n: nat, after: map<nat, int>)
    requires s.Switch? && k <= |s.cases| == |sites| && Read(temps, subject) == v
    requires forall j :: 0 <= j < |sites| ==> CaseCompared(g, s, subject, sites, rest, j)
    ensures var (found, h2) := Select(w, s.cases, k, v, h);
      var p := ChainAt(sites, rest, k);
      var q := if found < |sites| then sites[found].start else rest;
      Run(w, g, At(p.block, p.pos, temps, h), n) == At(q.block, q.pos, after, h2)
    decreases |sites| - k
  {
    n, after := 0, temps;
    if k < |sites| {
      assert CaseCompared(g, s, subject, sites, rest, k);
      var site, value, next := sites[k], s.cases[k].value, ChainAt(sites, rest, k + 1);
      if value.None? {
        n, after := SelectRuns(w, g, s, subject, sites, rest, k + 1, v, temps, h);
      } else {
        var start := At(site.test.block, site.test.pos, temps, h);
        var h1 := Evaluated(w, h, value.value);
        after := ComparedAt(w, g, site.test, subject, value.value, site.valueTemp, site.equalTemp, site.start.block, next.block, temps, h);
        n := 3;
        if v != w(h, value.value) {
          var m, later := SelectRuns(w, g, s, subject, sites, rest, k + 1, v, after, h1);
          RunAdds(w, g, start, 3, m);
          n, after := 3 + m, later;
        }
      }
    }
  }

  /** From the end of a case's code on: into the next case, out of the switch, back to an earlier case, or lost. */
  function FallAfter(w: World, s: Stmt, k: nat, one: Outcome, fuel: nat): Outcome
    requires s.Switch? && k < |s.cases|
  {
    var f := FollowerBefore(s.cases, |s.cases|);
    if !one.Done? then one
    else if s.cases[k].value.Some? then Fall(w, true, s, k + 1, one.history, fuel)
    else if f.None? then one
    else if f.value > k then Fall(w, true, s, f.value, one.history, fuel)
    else if fuel == 0 then Cut(one.history)
    else Fall(w, true, s, f.value, one.history, fuel - 1)
  }

  /** From the code of case k, falling through in source order, out of the switch. */
  lemma {:induction false} FallRuns(w: World, g: Graph, s: Stmt, sites: seq<CaseSite>, out: nat, k: nat, h: History, temps: map<nat, int>, fuel: nat,
                                    breaks: seq<nat>, continues: seq<nat>)
    requires s.Switch? && k < |s.cases| == |sites| && !Dropped(s.cases, k)
    requires forall j :: 0 <= j < |sites| ==> CaseGoes(g, s, sites, out, j, breaks, continues)
    ensures Matches(w, g, At(sites[k].start.block, sites[k].start.pos, temps, h), Fall(w, true, s, k, h, fuel), fuel,
                    Point(out, 0), breaks + [out], continues)
    decreases fuel, |sites| - k, 1
  {
    var site, code := sites[k], s.cases[k].code;
    var c := At(site.start.block, site.start.pos, temps, h);
    assert CaseGoes(g, s, sites, out, k, breaks, continues);
    assert Follows(w, g, code, h, temps, fuel, site.start, site.end, breaks + [out], continues);
    var one := Exec(w, true, code, h, fuel);
    assert Fall(w, true, s, k, h, fuel) == FallAfter(w, s, k, one, fuel);
    if one.Done? {
      assert !NeverEnds(code);
      if s.cases[k].value.Some? && Dropped(s.cases, k + 1) {
        EndLost(w, g, c, site.end, one.history);
      } else {
        hide Exec, Fall;
        EndReaches(w, g, c, site.end, NextBlock(s.cases, sites, out, k), one.history);
        FallOn(w, g, s, sites, out, k, c, one, fuel, breaks, continues);
      }
    }
  }

  lemma EndLost(w: World, g: Graph, c: Config, e: Point, h: History)
    requires Reaches(w, g, c, 0, e.block, e.pos, h) && e.block < |g| && e.pos == |g[e.block].code| && g[e.block].exit.Abandoned?
    ensures GetsLost(w, g, c, h)
  {
    var n, temps := Arrive(w, g, c, 0, e.block, e.pos, h);
    assert Strays(w, g, c, n, h);
  }

  lemma {:induction false} FallOn(w: World, g: Graph, s: Stmt, sites: seq<CaseSite>, out: nat, k: nat, c: Config, one: Outcome, fuel: nat,
                                  breaks: seq<nat>, continues: seq<nat>)
    requires s.Switch? && k < |s.cases| == |sites| && one.Done? && !(s.cases[k].value.Some? && Dropped(s.cases, k + 1))
    requires forall j :: 0 <= j < |sites| ==> CaseGoes(g, s, sites, out, j, breaks, continues)
    requires Reaches(w, g, c, 1, NextBlock(s.cases, sites, out, k), 0, one.history)
    ensures Matches(w, g, c, FallAfter(w, s, k, one, fuel), fuel, Point(out, 0), breaks + [out], continues)
    decreases fuel, |sites| - k, 0
  {
    var h := one.history;
    var n, after := Arrive(w, g, c, 1, NextBlock(s.cases, sites, out, k), 0, h);
    var next := if s.cases[k].value.Some? then k + 1
      else if FollowerBefore(s.cases, |s.cases|).Some? then FollowerBefore(s.cases, |s.cases|).value else |s.cases|;
    hide Exec;
    if next == |s.cases| {
      assert Leads(w, g, c, n, out, 0, h);
    } else if next <= k && fuel == 0 {
      assert Going(w, g, c, n, h);
    } else {
      assert CaseGoes(g, s, sites, out, next, breaks, continues);
      var left := if next > k then fuel else fuel - 1;
      hide Fall;
      FallRuns(w, g, s, sites, out, next, h, after, left, breaks, continues);
      Prepend(w, g, c, n, Fall(w, true, s, next, h, left), left, fuel, Point(out, 0), breaks + [out], continues);
    }
  }

  lemma LeavingSwitch(w: World, g: Graph, c: Config, o: Outcome, out: nat, fuel: nat, breaks: seq<nat>, continues: seq<nat>)
    requires Matches(w, g, c, o, fuel, Point(out, 0), breaks + [out], continues)
    ensures Matches(w, g, c, LeaveSwitch(o), fuel, Point(out, 0), breaks, continues)
  {
    match o
    case Broke(n, h) =>
      if n == 0 {
        var m, after := Arrive(w, g, c, 1, out, 0, h);
        assert Leads(w, g, c, m, out, 0, h);
      }
    case _ =>
  }

  /** From the first comparison on. */
  lemma CasesRun(w: World, g: Graph, s: Stmt, subject: nat, sites: seq<CaseSite>, rest: Point, out: nat, v: int, temps: map<nat, int>,
                 h: History, fuel: nat, breaks: seq<nat>, continues: seq<nat>)
    requires s.Switch? && SwitchWired(g, s, subject, sites, rest, out, breaks, continues)
    requires Read(temps, subject) == v && s.cases != []
    ensures var (found, h2) := Select(w, s.cases, 0, v, h);
      var k := if found < |s.cases| then found else DefaultFor(true, s.cases);
      Matches(w, g, At(sites[0].test.block, sites[0].test.pos, temps, h), LeaveSwitch(Fall(w, true, s, k, h2, fuel)), fuel,
              Point(out, 0), breaks, continues)
  {
    var (found, h2) := Select(w, s.cases, 0, v, h);
    var k := if found < |s.cases| then found else DefaultFor(true, s.cases);
    var c := At(sites[0].test.block, sites[0].test.pos, temps, h);
    var n, after := SelectRuns(w, g, s, subject, sites, rest, 0, v, temps, h);
    var o := Fall(w, true, s, k, h2, fuel);
    if k < |sites| {
      assert CaseCompared(g, s, subject, sites, rest, k);
      hide CaseCompared, CaseGoes;
      FallRuns(w, g, s, sites, out, k, h2, after, fuel, breaks, continues);
      LeavingSwitch(w, g, Run(w, g, c, n), o, out, fuel, breaks, continues);
      Prepend(w, g, c, n, LeaveSwitch(o), fuel, fuel, Point(out, 0), breaks, continues);
    } else {
      hide CaseCompared, CaseGoes;
      Passed(w, g, rest, out, after, h2);
      RunAdds(w, g, c, n, 1);
      assert Leads(w, g, c, n + 1, out, 0, h2);
    }
  }

  lemma SwitchSimulates(g: Graph, s: Stmt, subject: nat, sites: seq<CaseSite>, rest: Point, out: nat, p: Point,
                        breaks: seq<nat>, continues: seq<nat>)
    requires s.Switch? && s.cases != [] && Evaluates(g, p, subject, s.subject)
    requires SwitchWired(g, s, subject, sites, rest, out, breaks, continues) && sites[0].test == Point(p.block, p.pos + 1)
    ensures Simulates(g, s, p, Point(out, 0), breaks, continues)
  {
    forall w: World, h, temps, fuel ensures Follows(w, g, s, h, temps, fuel, p, Point(out, 0), breaks, continues) {
      hide SwitchWired, Fall, Select;
      var after := EvaluatedAt(w, g, p, subject, s.subject, temps, h);
      CasesRun(w, g, s, subject, sites, rest, out, w(h, s.subject), after, Evaluated(w, h, s.subject), fuel, breaks, continues);
      Prepend(w, g, At(p.block, p.pos, temps, h), 1, Exec(w, true, s, h, fuel), fuel, fuel, Point(out, 0), breaks, continues);
    }
  }

  /** A switch without cases only evaluates its operand. */
  lemma EmptySwitchSimulates(g: Graph, s: Stmt, t: nat, p: Point, breaks: seq<nat>, continues: seq<nat>)
    requires s.Switch? && s.cases == [] && Evaluates(g, p, t, s.subject)
    ensures Simulates(g, s, p, Point(p.block, p.pos + 1), breaks, continues)
  {
    var q := Point(p.block, p.pos + 1);
    EffectSimulates(g, s.subject, t, p, q, breaks, continues);
    forall w: World, h, temps, fuel ensures Follows(w, g, s, h, temps, fuel, p, q, breaks, continues) {
      assert Follows(w, g, Effect(s.subject), h, temps, fuel, p, q, breaks, continues);
      assert Exec(w, true, s, h, fuel) == Exec(w, true, Effect(s.subject), h, fuel);
    }
  }
}
