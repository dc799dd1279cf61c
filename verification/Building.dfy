// Parts of a flow graph in the making: what is known of branches, loops and
// switches between the moment their blocks exist and the moment their exits do.

module Building {
  import opened Wrappers
  import opened Structured
  import opened FlowGraph
  import opened Simulation
  import opened LoopWiring
  import opened SwitchWiring
  import opened Settling

  /** Changing one block and adding entries keeps the entries complete if the changed block's own exits are listed. */
  lemma StillEntered(g: Graph, later: Graph, b: nat)
    requires Entered(g) && b < |g| == |later| && EntersKnown(later, b)
    requires forall c :: 0 <= c < |g| ==> g[c].entries <= later[c].entries
    requires forall c :: 0 <= c < |g| && c != b ==> later[c].exit == g[c].exit
    ensures Entered(later)
  {
    forall c | 0 <= c < |later| ensures EntersKnown(later, c) {
      assert c != b ==> EntersKnown(g, c);
    }
  }

  /** Nothing that was there changed, but for who enters it. */
  ghost predicate Grew(g: Graph, later: Graph) {
    |g| <= |later| && forall c :: 0 <= c < |g| ==> later[c].code == g[c].code && later[c].exit == g[c].exit
  }

  lemma GrewOn(g: Graph, mid: Graph, later: Graph)
    requires Grew(g, mid) && Grew(mid, later)
    ensures Grew(g, later) && |g| <= |mid| <= |later|
  {
  }

  lemma GrewSame(g: Graph)
    ensures Grew(g, g)
  {
  }

  /** A branch as it was generated: open at its end exactly if control can come out there. */
  ghost predicate BranchBuilt(g: Graph, s: Option<Stmt>, start: nat, e: Point, folds: bool, breaks: seq<nat>, continues: seq<nat>) {
    s.Some? ==>
      && start < |g| && e.block < |g| && e.pos == |g[e.block].code|
      && (g[e.block].exit.Open? <==> Completes(s.value, folds))
      && Settled(g, s.value, Point(start, 0), e, breaks, continues)
  }

  lemma BuiltStays(g: Graph, later: Graph, s: Option<Stmt>, start: nat, end: nat, folds: bool, breaks: seq<nat>, continues: seq<nat>)
    requires BranchBuilt(g, s, start, EndOf(g, end), folds, breaks, continues) && Grew(g, later)
    ensures BranchBuilt(later, s, start, EndOf(later, end), folds, breaks, continues)
    ensures s.Some? ==> EndOf(later, end) == EndOf(g, end)
  {
    hide Settled, Completes;
    if s.Some? {
      assert Extends(g, later);
      StaysSettled(g, later, s.value, Point(start, 0), EndOf(g, end), breaks, continues);
    }
  }

  lemma BranchStays(g: Graph, later: Graph, s: Option<Stmt>, b: nat, e: Point, merge: nat, breaks: seq<nat>, continues: seq<nat>)
    requires BranchSettled(g, s, b, e, merge, breaks, continues) && Extends(g, later)
    ensures BranchSettled(later, s, b, e, merge, breaks, continues)
  {
    hide Settled, EndPasses;
    if s.Some? {
      StaysSettled(g, later, s.value, Point(b, 0), e, breaks, continues);
      EndPassesStays(g, later, s.value, e, merge);
    }
  }

  lemma NeverPasses(g: Graph, s: Stmt, e: Point, target: nat)
    requires NeverEnds(s)
    ensures EndPasses(g, s, e, target)
  {
  }

  /** Block b is still open and its last instruction is the condition at p. */
  predicate CondAt(g: Graph, p: Point, b: nat, c: Cond, t: nat) {
    && p.block == b < |g| && g[b].exit.Open? && |g[b].code| == p.pos + 1 && g[b].code[p.pos] == CondInstr(c, t)
  }

  predicate OpenWith(g: Graph, b: nat, code: seq<Instr>) {
    b < |g| && g[b].exit.Open? && g[b].code == code
  }

  predicate EntryPrepared(g: Graph, s: Stmt, p: Point, t: nat) {
    && s.Loop? && p.block < |g| && g[p.block].exit.Open?
    && |g[p.block].code| == p.pos + (if s.init.Some? then 1 else 0)
    && (s.init.Some? ==> g[p.block].code[p.pos] == Eval(t, s.init.value))
  }

  /**
   * The parts of a loop before they are joined, in a graph that had n blocks before: the block of p
   * ends with the initial expression, the opening condition is in its block, and the other blocks
   * are empty. The body is not looked at.
   */
  predicate LoopPrepared(n: nat, g: Graph, s: Stmt, l: LoopSites, p: Point, t: nat) {
    && EntryPrepared(g, s, p, t) && p.block < n
    && n <= l.out < l.body < |g| && OpenWith(g, l.out, [])
    && (s.pre.Some? ==> n <= l.pre < l.out && OpenWith(g, l.pre, [CondInstr(s.pre.value, l.preTemp)]))
    && (s.increment.Some? ==> n <= l.increment < l.out && OpenWith(g, l.increment, []))
    && (s.post.Some? ==> n <= l.post < l.out && OpenWith(g, l.post, []))
    && SitesApart(s, l)
  }

  /** The same parts with everything in them that there will be, but not yet joined. */
  predicate LoopFilled(n: nat, g: Graph, s: Stmt, l: LoopSites, p: Point, t: nat) {
    && EntryPrepared(g, s, p, t) && p.block < n
    && n <= l.out < l.body < |g| && OpenWith(g, l.out, [])
    && (s.pre.Some? ==> n <= l.pre < l.out && OpenWith(g, l.pre, [CondInstr(s.pre.value, l.preTemp)]))
    && (s.increment.Some? ==> n <= l.increment < l.out && OpenWith(g, l.increment, [Eval(l.incrementTemp, s.increment.value)]))
    && (s.post.Some? ==> n <= l.post < l.out && OpenWith(g, l.post, [CondInstr(s.post.value, l.postTemp)]))
    && SitesApart(s, l)
  }

  /** In between: the closing condition is there, the increment not yet. */
  predicate PostFilled(n: nat, g: Graph, s: Stmt, l: LoopSites, p: Point, t: nat) {
    && EntryPrepared(g, s, p, t) && p.block < n
    && n <= l.out < l.body < |g| && OpenWith(g, l.out, [])
    && (s.pre.Some? ==> n <= l.pre < l.out && OpenWith(g, l.pre, [CondInstr(s.pre.value, l.preTemp)]))
    && (s.increment.Some? ==> n <= l.increment < l.out && OpenWith(g, l.increment, []))
    && (s.post.Some? ==> n <= l.post < l.out && OpenWith(g, l.post, [CondInstr(s.post.value, l.postTemp)]))
    && SitesApart(s, l)
  }

  ghost predicate KeptIf(g: Graph, later: Graph, changed: bool, b: nat) {
    if changed then Kept(g, later, b) else later == g
  }

  predicate SitesApart(s: Stmt, l: LoopSites)
    requires s.Loop?
  {
    && (s.pre.Some? && s.increment.Some? ==> l.pre != l.increment)
    && (s.pre.Some? && s.post.Some? ==> l.pre != l.post)
    && (s.increment.Some? && s.post.Some? ==> l.increment != l.post)
  }

  lemma OpenStays(g: Graph, later: Graph, b: nat, code: seq<Instr>)
    requires OpenWith(g, b, code) && Grew(g, later)
    ensures OpenWith(later, b, code)
  {
  }

  lemma EntryStays(g: Graph, later: Graph, s: Stmt, p: Point, t: nat)
    requires EntryPrepared(g, s, p, t) && Grew(g, later)
    ensures EntryPrepared(later, s, p, t)
  {
  }

  lemma KeptGrew(g: Graph, mid: Graph, later: Graph, b: nat)
    requires Kept(g, mid, b) && Grew(mid, later)
    ensures Kept(g, later, b) && |g| <= |mid|
  {
  }

  lemma LoopIsPrepared(g: Graph, g1: Graph, g2: Graph, g3: Graph, g4: Graph, g5: Graph, last: Graph, s: Stmt, l: LoopSites, p: Point, t: nat)
    requires s.Loop? && p.block < |g| <= |g1| && EntryPrepared(last, s, p, t)
    requires |g1| <= |g2| <= |g3| <= |g4| && l.out == |g4| && |g5| == l.out + 1 && l.body == |g5| && |last| == l.body + 1
    requires OpenWith(last, l.out, [])
    requires s.pre.Some? ==> l.pre == |g1| && |g2| == l.pre + 1 && OpenWith(last, l.pre, [CondInstr(s.pre.value, l.preTemp)])
    requires s.increment.Some? ==> l.increment == |g2| && |g3| == l.increment + 1 && OpenWith(last, l.increment, [])
    requires s.post.Some? ==> l.post == |g3| && |g4| == l.post + 1 && OpenWith(last, l.post, [])
    ensures LoopPrepared(|g|, last, s, l, p, t)
  {
    hide OpenWith, EntryPrepared;
  }

  /** The body as it was generated. */
  ghost predicate BodyBuilt(g: Graph, s: Stmt, l: LoopSites, folds: bool, breaks: seq<nat>, continues: seq<nat>) {
    && s.Loop? && l.end.block < |g| && l.end.pos == |g[l.end.block].code| && l.body <= l.end.block
    && if s.inside.Some? then
        && (g[l.end.block].exit.Open? <==> Completes(s.inside.value, folds))
        && Settled(g, s.inside.value, Point(l.body, 0), l.end, breaks + [l.out], continues + [ContinueAt(s, l)])
      else
        OpenWith(g, l.body, []) && l.end == Point(l.body, 0)
  }

  lemma BodyStays(g: Graph, later: Graph, s: Stmt, l: LoopSites, l2: LoopSites, b: nat, folds: bool, breaks: seq<nat>, continues: seq<nat>)
    requires BodyBuilt(g, s, l, folds, breaks, continues) && Kept(g, later, b) && b < l.body
    requires l2 == l.(preTemp := l2.preTemp, postTemp := l2.postTemp, incrementTemp := l2.incrementTemp)
    ensures BodyBuilt(later, s, l2, folds, breaks, continues)
  {
    hide Settled, Completes;
    KeptExtends(g, later, b);
    if s.inside.Some? {
      StaysSettled(g, later, s.inside.value, Point(l.body, 0), l.end, breaks + [l.out], continues + [ContinueAt(s, l)]);
    }
  }

  lemma FilledPlaces(n: nat, g: Graph, s: Stmt, l: LoopSites, p: Point, t: nat)
    requires LoopFilled(n, g, s, l, p, t)
    ensures EntryPrepared(g, s, p, t) && l.out < |g| && l.body < |g| && Top(s, l) < |g| && Closing(s, l) < |g| && AfterBody(s, l) < |g|
  {
  }

  lemma WiredStays(g: Graph, later: Graph, s: Stmt, l: LoopSites, p: Point, t: nat)
    requires s.Loop? && Extends(g, later)
    ensures EntryWired(g, s, l, p, t) ==> EntryWired(later, s, l, p, t)
    ensures PreWired(g, s, l) ==> PreWired(later, s, l)
    ensures IncrementWired(g, s, l) ==> IncrementWired(later, s, l)
  {
    assert p.block < |g| ==> Grown(g[p.block], later[p.block]);
    assert l.pre < |g| ==> Grown(g[l.pre], later[l.pre]);
    assert l.increment < |g| ==> Grown(g[l.increment], later[l.increment]);
  }

  lemma BodySettledStays(g: Graph, later: Graph, s: Stmt, l: LoopSites, breaks: seq<nat>, continues: seq<nat>)
    requires s.Loop? && Extends(g, later) && BodySettled(g, s, l, breaks, continues)
    ensures BodySettled(later, s, l, breaks, continues)
  {
    if s.inside.Some? {
      EndPassesStays(g, later, s.inside.value, l.end, AfterBody(s, l));
      StaysSettled(g, later, s.inside.value, Point(l.body, 0), l.end, breaks + [l.out], continues + [ContinueAt(s, l)]);
    } else {
      PassesStays(g, later, Point(l.body, 0), AfterBody(s, l));
    }
  }

  lemma LoopStarted(g: Graph, mid: Graph, now: Graph, s: Stmt, l: LoopSites, e: Point, p: Point, t: nat)
    requires p.block < |g| && Kept(g, mid, p.block) && Kept(mid, now, l.body) && LoopPrepared(|g|, now, s, l, p, t)
    ensures Kept(g, now, p.block) && LoopPrepared(|g|, now, s, l.(end := e), p, t)
  {
    KeptOn(g, mid, now, p.block, l.body);
  }

  /** The parts of a loop that are still to be joined after the entry, and what stays behind. */
  predicate RestOpen(n: nat, g: Graph, s: Stmt, l: LoopSites) {
    && s.Loop? && n <= l.out < l.body < |g| && OpenWith(g, l.out, []) && SitesApart(s, l)
    && (s.increment.Some? ==> n <= l.increment < l.out && OpenWith(g, l.increment, [Eval(l.incrementTemp, s.increment.value)]))
    && (s.post.Some? ==> n <= l.post < l.out && OpenWith(g, l.post, [CondInstr(s.post.value, l.postTemp)]))
  }

  lemma EntryJoined(g: Graph, g0: Graph, g1: Graph, s: Stmt, l: LoopSites, p: Point, t: nat, folds: bool, breaks: seq<nat>, continues: seq<nat>)
    requires LoopFilled(|g|, g0, s, l, p, t) && BodyBuilt(g0, s, l, folds, breaks, continues) && p.block < |g| && Kept(g, g0, p.block)
    requires Kept(g0, g1, p.block) && |g1| == |g0|
    ensures Kept(g, g1, p.block) && RestOpen(|g|, g1, s, l) && BodyBuilt(g1, s, l, folds, breaks, continues)
    ensures s.pre.Some? ==> |g| <= l.pre < l.out && OpenWith(g1, l.pre, [CondInstr(s.pre.value, l.preTemp)])
    ensures l.out < |g1| && l.body < |g1|
  {
    hide Settled, Completes;
    KeptOn(g, g0, g1, p.block, p.block);
    BodyStays(g0, g1, s, l, l, p.block, folds, breaks, continues);
  }

  lemma PreJoined(g: Graph, g1: Graph, g2: Graph, s: Stmt, l: LoopSites, p: Point, t: nat, folds: bool, breaks: seq<nat>, continues: seq<nat>)
    requires RestOpen(|g|, g1, s, l) && BodyBuilt(g1, s, l, folds, breaks, continues) && p.block < |g| && Kept(g, g1, p.block)
    requires KeptIf(g1, g2, s.pre.Some?, l.pre) && |g2| == |g1| && (s.pre.Some? ==> |g| <= l.pre < l.out)
    requires EntryWired(g1, s, l, p, t)
    ensures Kept(g, g2, p.block) && RestOpen(|g|, g2, s, l) && BodyBuilt(g2, s, l, folds, breaks, continues)
    ensures EntryWired(g2, s, l, p, t)
    ensures AfterBody(s, l) < |g2| && l.body <= l.end.block < |g2|
  {
    hide Settled, Completes;
    if s.pre.Some? {
      KeptOn(g, g1, g2, p.block, l.pre);
      KeptExtends(g1, g2, l.pre);
      WiredStays(g1, g2, s, l, p, t);
      BodyStays(g1, g2, s, l, l, l.pre, folds, breaks, continues);
    }
  }

  lemma BodyJoined(g: Graph, g2: Graph, g3: Graph, s: Stmt, l: LoopSites, p: Point, t: nat, breaks: seq<nat>, continues: seq<nat>)
    requires RestOpen(|g|, g2, s, l) && l.body <= l.end.block < |g2| && p.block < |g| && Kept(g, g2, p.block)
    requires KeptIf(g2, g3, g2[l.end.block].exit.Open?, l.end.block) && |g3| == |g2|
    requires EntryWired(g2, s, l, p, t) && PreWired(g2, s, l)
    ensures Kept(g, g3, p.block) && RestOpen(|g|, g3, s, l) && EntryWired(g3, s, l, p, t) && PreWired(g3, s, l)
    ensures Closing(s, l) < |g3|
  {
    if g2[l.end.block].exit.Open? {
      KeptOn(g, g2, g3, p.block, l.end.block);
      KeptExtends(g2, g3, l.end.block);
      WiredStays(g2, g3, s, l, p, t);
    }
  }

  lemma IncrementJoined(g: Graph, g3: Graph, g4: Graph, s: Stmt, l: LoopSites, p: Point, t: nat, breaks: seq<nat>, continues: seq<nat>)
    requires RestOpen(|g|, g3, s, l) && p.block < |g| && Kept(g, g3, p.block)
    requires KeptIf(g3, g4, s.increment.Some?, l.increment) && |g4| == |g3|
    requires EntryWired(g3, s, l, p, t) && PreWired(g3, s, l) && BodySettled(g3, s, l, breaks, continues)
    ensures Kept(g, g4, p.block) && OpenWith(g4, l.out, []) && (s.post.Some? ==> |g| <= l.post < l.out && OpenWith(g4, l.post, [CondInstr(s.post.value, l.postTemp)]))
    ensures EntryWired(g4, s, l, p, t) && PreWired(g4, s, l) && BodySettled(g4, s, l, breaks, continues)
    ensures l.out < |g4| && Top(s, l) < |g4| && p.block < |g| <= l.out
  {
    hide BodySettled;
    if s.increment.Some? {
      KeptOn(g, g3, g4, p.block, l.increment);
      KeptExtends(g3, g4, l.increment);
      WiredStays(g3, g4, s, l, p, t);
      BodySettledStays(g3, g4, s, l, breaks, continues);
    }
  }

  /** The end of code that has been generated but not yet joined: open exactly if control can come out there. */
  predicate PendingEnd(g: Graph, code: Stmt, e: Point, folds: bool) {
    && e.block < |g| && e.pos == |g[e.block].code|
    && (g[e.block].exit.Open? <==> Completes(code, folds))
  }

  /** Nothing but the blocks b and fall changed, where fall may be missing. */
  ghost predicate Kept2(g: Graph, later: Graph, b: nat, fall: Option<nat>) {
    && |g| <= |later|
    && forall c :: 0 <= c < |g| && c != b && fall != Some(c) ==> later[c].code == g[c].code && later[c].exit == g[c].exit
  }

  lemma FallStillOpen(g0: Graph, g1: Graph, b: nat, fall: Option<nat>)
    requires Kept(g0, g1, b) && (fall.Some? ==> fall.value < |g0| && fall.value != b)
    ensures fall.Some? ==> fall.value < |g1| && EndOf(g1, fall.value) == EndOf(g0, fall.value)
    ensures fall.Some? ==> g1[fall.value].exit == g0[fall.value].exit
  {
  }

  lemma CaseReady(g0: Graph, g1: Graph, g2: Graph, b: nat, fall: Option<nat>, bcase: nat, bnot: nat, p: Point, subject: nat, e: nat, t: nat, r: nat)
    requires Kept(g0, g1, b) && |g0| == bcase && bnot == bcase + 1 && |g1| == |g2| == bnot + 1
    requires OpenWith(g1, bcase, []) && OpenWith(g1, bnot, []) && Compares(g1, p, subject, e, t, r, bcase, bnot)
    requires fall.Some? ==> fall.value < |g0| && fall.value != b && g1[fall.value].exit == g0[fall.value].exit
    requires KeptIf(g1, g2, fall.Some? && g1[fall.value].exit.Open?, if fall.Some? then fall.value else 0)
    ensures Kept2(g0, g2, b, fall) && Extends(g0, g2) && OpenWith(g2, bcase, []) && OpenWith(g2, bnot, [])
    ensures Compares(g2, p, subject, e, t, r, bcase, bnot) && b < |g0|
  {
    KeptExtends(g0, g1, b);
    if fall.Some? && g1[fall.value].exit.Open? {
      KeptExtends(g1, g2, fall.value);
      ExtendsOn(g0, g1, g2);
      ComparesStays(g1, g2, p, subject, e, t, r, bcase, bnot);
    }
  }

  // ---- Switches under construction ----

  /** The end of the last case, unless that is a default: it is to fall through to whatever comes next. */
  function LastFall(s: Stmt, sites: seq<CaseSite>): Option<nat>
    requires s.Switch? && |sites| <= |s.cases|
  {
    if sites == [] || s.cases[|sites| - 1].value.None? then None else Some(sites[|sites| - 1].end.block)
  }

  /** The case before the last default so far, unless that is a default too. */
  function BeforeDefault(s: Stmt, n: nat): Option<nat>
    requires s.Switch? && n <= |s.cases|
    ensures var j := BeforeDefault(s, n); j.Some? ==> j.value + 1 < n && s.cases[j.value].value.Some?
  {
    var d := DefaultBefore(s.cases, n);
    if d.Some? && d.value > 0 && s.cases[d.value - 1].value.Some? then Some(d.value - 1) else None
  }

  /** The end of that case. */
  function DefaultFall(s: Stmt, sites: seq<CaseSite>): Option<nat>
    requires s.Switch? && |sites| <= |s.cases|
  {
    var j := BeforeDefault(s, |sites|);
    if j.Some? then Some(sites[j.value].end.block) else None
  }

  /** The start of the last case so far that comes right after a default. */
  function DefaultNext(s: Stmt, sites: seq<CaseSite>): Option<nat>
    requires s.Switch? && |sites| <= |s.cases|
  {
    var f := FollowerBefore(s.cases, |sites|);
    if f.Some? then Some(sites[f.value].start.block) else None
  }

  /**
   * The end of case j when only the cases of sites have been generated: it falls through to the case
   * after it unless that is still to come or is a default. The last default is generated last of all;
   * what would fall into an earlier one has nowhere to go.
   */
  ghost predicate EndBuilt(g: Graph, s: Stmt, sites: seq<CaseSite>, j: nat, folds: bool)
    requires s.Switch? && j < |sites| <= |s.cases|
  {
    var code, e := s.cases[j].code, sites[j].end;
    if j + 1 == |sites| || DefaultBefore(s.cases, |sites|) == Some(j + 1) then PendingEnd(g, code, e, folds)
    else if s.cases[j + 1].value.Some? then EndPasses(g, code, e, sites[j + 1].start.block)
    else EndStrays(g, code, e)
  }

  /** Case j when the chain of comparisons stands at rest: it is compared and its code runs. */
  ghost predicate SiteBuilt(g: Graph, s: Stmt, subject: nat, sites: seq<CaseSite>, rest: Point, j: nat, folds: bool,
                            breaks: seq<nat>, continues: seq<nat>)
    requires s.Switch? && j < |sites| <= |s.cases|
  {
    var site, next := sites[j], ChainAt(sites, rest, j + 1);
    if s.cases[j].value.None? then next == site.test else
    && site.start.pos == 0 && next.pos == 0
    && Compares(g, site.test, subject, s.cases[j].value.value, site.valueTemp, site.equalTemp, site.start.block, next.block)
    && Settled(g, s.cases[j].code, site.start, site.end, breaks, continues)
    && EndBuilt(g, s, sites, j, folds)
  }

  ghost predicate AllBuilt(g: Graph, s: Stmt, subject: nat, sites: seq<CaseSite>, rest: Point, folds: bool,
                           breaks: seq<nat>, continues: seq<nat>)
    requires s.Switch? && |sites| <= |s.cases|
  {
    forall j :: 0 <= j < |sites| ==> SiteBuilt(g, s, subject, sites, rest, j, folds, breaks, continues)
  }

  /** If its block was open, e now jumps to the target. */
  predicate LedTo(g: Graph, later: Graph, e: Point, target: nat) {
    e.block < |g| && (g[e.block].exit.Open? ==> Passes(later, e, target))
  }

  lemma NowPasses(g: Graph, later: Graph, code: Stmt, e: Point, target: nat, folds: bool)
    requires PendingEnd(g, code, e, folds) && LedTo(g, later, e, target)
    ensures EndPasses(later, code, e, target)
  {
    if !Completes(code, folds) {
      IncompleteNeverEnds(code, folds);
    }
  }

  lemma DefaultCounted(cases: seq<Case>, n: nat)
    requires n < |cases|
    ensures DefaultBefore(cases, n + 1) == if cases[n].value.None? then Some(n) else DefaultBefore(cases, n)
  {
  }

  lemma PendingKept(g: Graph, later: Graph, code: Stmt, e: Point, b: nat, fall: Option<nat>, folds: bool)
    requires PendingEnd(g, code, e, folds) && Kept2(g, later, b, fall) && e.block != b && fall != Some(e.block)
    ensures PendingEnd(later, code, e, folds)
  {
  }

  lemma EndAfterRegular(g: Graph, later: Graph, s: Stmt, sites: seq<CaseSite>, site: CaseSite, j: nat, b: nat, folds: bool)
    requires s.Switch? && j < |sites| < |s.cases| && s.cases[|sites|].value.Some? && s.cases[j].value.Some?
    requires EndBuilt(g, s, sites, j, folds) && Extends(g, later) && Kept2(g, later, b, LastFall(s, sites))
    requires DefaultFall(s, sites).Some? ==> DefaultFall(s, sites).value != b && DefaultFall(s, sites) != LastFall(s, sites)
    requires LastFall(s, sites).Some? ==> LedTo(g, later, sites[|sites| - 1].end, site.start.block)
    ensures EndBuilt(later, s, sites + [site], j, folds)
  {
    hide DefaultBefore, NeverEnds, Passes, Completes, PendingEnd, EndPasses, EndStrays, Extends, Kept2, LedTo;
    var code, e := s.cases[j].code, sites[j].end;
    DefaultCounted(s.cases, |sites|);
    if j + 1 == |sites| {
      NowPasses(g, later, code, e, site.start.block, folds);
    } else if DefaultBefore(s.cases, |sites|) == Some(j + 1) {
      PendingKept(g, later, code, e, b, LastFall(s, sites), folds);
    } else if s.cases[j + 1].value.Some? {
      EndPassesStays(g, later, code, e, sites[j + 1].start.block);
    } else {
      EndStraysStays(g, later, code, e);
    }
  }

  lemma SiteAfterRegular(g: Graph, later: Graph, s: Stmt, subject: nat, sites: seq<CaseSite>, rest: Point, site: CaseSite, rest2: Point, j: nat,
                         b: nat, folds: bool, breaks: seq<nat>, continues: seq<nat>)
    requires s.Switch? && j < |sites| < |s.cases| && s.cases[|sites|].value.Some?
    requires SiteBuilt(g, s, subject, sites, rest, j, folds, breaks, continues) && site.test == rest
    requires Extends(g, later) && Kept2(g, later, b, LastFall(s, sites))
    requires DefaultFall(s, sites).Some? ==> DefaultFall(s, sites).value != b && DefaultFall(s, sites) != LastFall(s, sites)
    requires LastFall(s, sites).Some? ==> LedTo(g, later, sites[|sites| - 1].end, site.start.block)
    ensures SiteBuilt(later, s, subject, sites + [site], rest2, j, folds, breaks, continues)
  {
    hide EndBuilt, Extends, Kept2, LastFall, DefaultFall, LedTo, Settled, Compares;
    var x := sites[j];
    assert ChainAt(sites + [site], rest2, j + 1) == ChainAt(sites, rest, j + 1);
    if s.cases[j].value.Some? {
      ComparesStays(g, later, x.test, subject, s.cases[j].value.value, x.valueTemp, x.equalTemp, x.start.block, ChainAt(sites, rest, j + 1).block);
      StaysSettled(g, later, s.cases[j].code, x.start, x.end, breaks, continues);
      EndAfterRegular(g, later, s, sites, site, j, b, folds);
    }
  }

  lemma RegularAdded(g: Graph, later: Graph, s: Stmt, subject: nat, sites: seq<CaseSite>, rest: Point, site: CaseSite, rest2: Point,
                     b: nat, folds: bool, breaks: seq<nat>, continues: seq<nat>)
    requires s.Switch? && |sites| < |s.cases| && s.cases[|sites|].value.Some?
    requires AllBuilt(g, s, subject, sites, rest, folds, breaks, continues) && site.test == rest
    requires Extends(g, later) && Kept2(g, later, b, LastFall(s, sites))
    requires DefaultFall(s, sites).Some? ==> DefaultFall(s, sites).value != b && DefaultFall(s, sites) != LastFall(s, sites)
    requires LastFall(s, sites).Some? ==> LedTo(g, later, sites[|sites| - 1].end, site.start.block)
    requires site.start.pos == 0 && rest2.pos == 0
    requires Compares(later, rest, subject, s.cases[|sites|].value.value, site.valueTemp, site.equalTemp, site.start.block, rest2.block)
    requires Settled(later, s.cases[|sites|].code, site.start, site.end, breaks, continues)
    requires PendingEnd(later, s.cases[|sites|].code, site.end, folds)
    ensures AllBuilt(later, s, subject, sites + [site], rest2, folds, breaks, continues)
  {
    hide Settled, Completes, Extends, EndPasses, EndStrays, DefaultBefore, Kept2;
    var k, longer := |sites|, sites + [site];
    forall j | 0 <= j <= k ensures SiteBuilt(later, s, subject, longer, rest2, j, folds, breaks, continues) {
      if j < k {
        hide *;
        BuiltSite(g, s, subject, sites, rest, j, folds, breaks, continues);
        SiteAfterRegular(g, later, s, subject, sites, rest, site, rest2, j, b, folds, breaks, continues);
      }
    }
  }

  lemma BuiltSite(g: Graph, s: Stmt, subject: nat, sites: seq<CaseSite>, rest: Point, j: nat, folds: bool, breaks: seq<nat>, continues: seq<nat>)
    requires s.Switch? && j < |sites| <= |s.cases| && AllBuilt(g, s, subject, sites, rest, folds, breaks, continues)
    ensures SiteBuilt(g, s, subject, sites, rest, j, folds, breaks, continues)
  {
  }

  /** The graph once an end is lost sight of. */
  function Without(g: Graph, end: Option<nat>): Graph {
    if end.Some? && end.value < |g| && g[end.value].exit.Open? then g[end.value := g[end.value].(exit := Abandoned)] else g
  }

  lemma WithoutKeeps(g: Graph, end: Option<nat>)
    ensures Extends(g, Without(g, end)) && |Without(g, end)| == |g|
    ensures Entered(g) ==> Entered(Without(g, end))
    ensures forall c :: 0 <= c < |g| && end != Some(c) ==> Without(g, end)[c] == g[c]
    ensures forall c :: 0 <= c < |g| ==> Without(g, end)[c].code == g[c].code
  {
    if Entered(g) {
      forall b | 0 <= b < |g| ensures EntersKnown(Without(g, end), b) {
        assert EntersKnown(g, b);
      }
    }
  }

  lemma EndForgotten(g: Graph, code: Stmt, e: Point, folds: bool)
    requires PendingEnd(g, code, e, folds)
    ensures EndStrays(Without(g, Some(e.block)), code, e)
  {
    if !Completes(code, folds) {
      IncompleteNeverEnds(code, folds);
    }
  }

  lemma PendingNotForgotten(g: Graph, code: Stmt, e: Point, end: Option<nat>, folds: bool)
    requires PendingEnd(g, code, e, folds) && end != Some(e.block)
    ensures PendingEnd(Without(g, end), code, e, folds)
  {
  }

  lemma EndAfterDefault(g: Graph, s: Stmt, sites: seq<CaseSite>, site: CaseSite, j: nat, folds: bool)
    requires s.Switch? && j < |sites| < |s.cases| && s.cases[|sites|].value.None? && s.cases[j].value.Some?
    requires EndBuilt(g, s, sites, j, folds) && (DefaultFall(s, sites).Some? ==> DefaultFall(s, sites) != LastFall(s, sites))
    ensures EndBuilt(Without(g, DefaultFall(s, sites)), s, sites + [site], j, folds)
  {
    hide DefaultBefore, NeverEnds, Passes, Completes, PendingEnd, EndPasses, EndStrays, Extends, Without;
    var code, e, later := s.cases[j].code, sites[j].end, Without(g, DefaultFall(s, sites));
    WithoutKeeps(g, DefaultFall(s, sites));
    DefaultCounted(s.cases, |sites|);
    if j + 1 == |sites| {
      PendingNotForgotten(g, code, e, DefaultFall(s, sites), folds);
    } else if DefaultBefore(s.cases, |sites|) == Some(j + 1) {
      assert BeforeDefault(s, |sites|) == Some(j);
      EndForgotten(g, code, e, folds);
    } else if s.cases[j + 1].value.Some? {
      EndPassesStays(g, later, code, e, sites[j + 1].start.block);
    } else {
      EndStraysStays(g, later, code, e);
    }
  }

  lemma KeptWithout(g: Graph, before: Graph, b: nat, end: Option<nat>)
    requires Kept(g, before, b) && (end.Some? ==> |g| <= end.value)
    ensures Kept(g, Without(before, end), b)
  {
  }

  lemma SiteAfterDefault(g: Graph, s: Stmt, subject: nat, sites: seq<CaseSite>, rest: Point, site: CaseSite, j: nat, folds: bool,
                         breaks: seq<nat>, continues: seq<nat>)
    requires s.Switch? && j < |sites| < |s.cases| && s.cases[|sites|].value.None? && site.test == rest
    requires SiteBuilt(g, s, subject, sites, rest, j, folds, breaks, continues)
    requires DefaultFall(s, sites).Some? ==> DefaultFall(s, sites) != LastFall(s, sites)
    ensures SiteBuilt(Without(g, DefaultFall(s, sites)), s, subject, sites + [site], rest, j, folds, breaks, continues)
  {
    hide EndBuilt, LastFall, DefaultFall, Without, Settled, Compares, Extends;
    var x, later := sites[j], Without(g, DefaultFall(s, sites));
    WithoutKeeps(g, DefaultFall(s, sites));
    assert ChainAt(sites + [site], rest, j + 1) == ChainAt(sites, rest, j + 1);
    if s.cases[j].value.Some? {
      ComparesStays(g, later, x.test, subject, s.cases[j].value.value, x.valueTemp, x.equalTemp, x.start.block, ChainAt(sites, rest, j + 1).block);
      StaysSettled(g, later, s.cases[j].code, x.start, x.end, breaks, continues);
      EndAfterDefault(g, s, sites, site, j, folds);
    }
  }

  lemma DefaultAdded(g: Graph, s: Stmt, subject: nat, sites: seq<CaseSite>, rest: Point, site: CaseSite, folds: bool,
                     breaks: seq<nat>, continues: seq<nat>)
    requires s.Switch? && |sites| < |s.cases| && s.cases[|sites|].value.None? && site.test == rest
    requires AllBuilt(g, s, subject, sites, rest, folds, breaks, continues)
    requires DefaultFall(s, sites).Some? ==> DefaultFall(s, sites) != LastFall(s, sites)
    ensures AllBuilt(Without(g, DefaultFall(s, sites)), s, subject, sites + [site], rest, folds, breaks, continues)
  {
    hide Settled, PendingEnd, EndPasses, EndStrays, Compares, Without, DefaultFall, LastFall, DefaultBefore;
    var later := Without(g, DefaultFall(s, sites));
    forall j | 0 <= j <= |sites| ensures SiteBuilt(later, s, subject, sites + [site], rest, j, folds, breaks, continues) {
      if j < |sites| {
        BuiltSite(g, s, subject, sites, rest, j, folds, breaks, continues);
        hide *;
        SiteAfterDefault(g, s, subject, sites, rest, site, j, folds, breaks, continues);
      }
    }
  }

  lemma BranchesFit(s: Stmt, breaks: nat, continues: nat)
    requires s.If? && WellFormed(s, breaks, continues)
    ensures s.onTrue.Some? ==> WellFormed(s.onTrue.value, breaks, continues) && s.onTrue.value < s
    ensures s.onFalse.Some? ==> WellFormed(s.onFalse.value, breaks, continues) && s.onFalse.value < s
  {
  }

  /** What is known of a graph in which the condition and both branches have been generated. */
  lemma BranchesBuilt(g: Graph, g1: Graph, g3: Graph, s: Stmt, p: Point, t: nat, yes: nat, yesEnd: nat, no: nat, noEnd: nat,
                      folds: bool, breaks: seq<nat>, continues: seq<nat>)
    requires s.If? && p.block < |g| && p == EndOf(g, p.block) && Kept(g, g1, p.block) && |g1| == |g|
    requires g1[p.block].code == g[p.block].code + [CondInstr(s.cond, t)] && g1[p.block].exit == Open && Grew(g1, g3)
    requires s.onTrue.Some? ==> BranchBuilt(g3, s.onTrue, yes, EndOf(g3, yesEnd), folds, breaks, continues)
    requires s.onFalse.Some? ==> BranchBuilt(g3, s.onFalse, no, EndOf(g3, noEnd), folds, breaks, continues)
    ensures BranchBuilt(g3, s.onTrue, yes, EndOf(g3, yesEnd), folds, breaks, continues)
    ensures BranchBuilt(g3, s.onFalse, no, EndOf(g3, noEnd), folds, breaks, continues)
    ensures Kept(g, g3, p.block) && CondAt(g3, p, p.block, s.cond, t)
    ensures s.onTrue.Some? ==> yes < |g3| && yesEnd < |g3| && (g3[yesEnd].exit.Open? <==> Completes(s.onTrue.value, folds))
    ensures s.onFalse.Some? ==> no < |g3| && noEnd < |g3| && (g3[noEnd].exit.Open? <==> Completes(s.onFalse.value, folds))
  {
    hide Settled, Completes;
    assert Kept(g1, g3, p.block);
    KeptOn(g, g1, g3, p.block, p.block);
  }

  lemma IfCompletes(s: Stmt, folds: bool)
    requires s.If? && !(folds && s.cond.Literal?)
    ensures Completes(s, folds) <==> s.onTrue.None? || s.onFalse.None? || Completes(s.onTrue.value, folds) || Completes(s.onFalse.value, folds)
  {
  }

  lemma PlacesKnown(n: nat, g: Graph, s: Stmt, l: LoopSites, p: Point, t: nat)
    requires LoopPrepared(n, g, s, l, p, t) && OpenWith(g, l.body, [])
    ensures l.body < |g| && l.out < |g| && ContinueAt(s, l) < |g| && g[l.body].exit.Open?
  {
  }

  lemma BodyFits(s: Stmt, breaks: nat, continues: nat)
    requires s.Loop? && s.inside.Some? && WellFormed(s, breaks, continues)
    ensures WellFormed(s.inside.value, breaks + 1, continues + 1)
  {
  }

  lemma PartFits(s: Stmt, i: nat, breaks: nat, continues: nat)
    requires s.Block? && i < |s.body| && WellFormed(s, breaks, continues)
    ensures WellFormed(s.body[i], breaks, continues)
  {
  }

  lemma SiteFinished(g: Graph, later: Graph, s: Stmt, subject: nat, sites: seq<CaseSite>, whole: seq<CaseSite>, rest: Point, out: nat, j: nat,
                     folds: bool, breaks: seq<nat>, continues: seq<nat>)
    requires s.Switch? && j < |sites| == |s.cases| && DefaultBefore(s.cases, |s.cases|) != Some(j) && Extends(g, later)
    requires AllBuilt(g, s, subject, sites, rest, folds, breaks + [out], continues)
    requires DefaultCompleted(s, sites, whole, rest)
    requires LastFall(s, sites).Some? ==> LedTo(g, later, sites[|sites| - 1].end, out)
    requires var i := BeforeDefault(s, |sites|); i.Some? ==> LedTo(g, later, sites[i.value].end, rest.block)
    ensures CaseCompared(later, s, subject, whole, rest, j) && CaseSettled(later, s, whole, out, j, breaks, continues)
  {
    hide DefaultBefore, FollowerBefore, Extends, AllBuilt, Compares, Settled, NeverEnds, LedTo, EndPasses, EndStrays, PendingEnd;
    var d, code, x := DefaultBefore(s.cases, |s.cases|), s.cases[j].code, sites[j];
    BuiltSite(g, s, subject, sites, rest, j, folds, breaks + [out], continues);
    assert whole[j] == x;
    assert ChainAt(whole, rest, j + 1) == ChainAt(sites, rest, j + 1);
    if s.cases[j].value.Some? {
      ComparesStays(g, later, x.test, subject, s.cases[j].value.value, x.valueTemp, x.equalTemp, x.start.block, ChainAt(sites, rest, j + 1).block);
      StaysSettled(g, later, code, x.start, x.end, breaks + [out], continues);
      if j + 1 == |sites| {
        NowPasses(g, later, code, x.end, out, folds);
      } else if d == Some(j + 1) {
        NowPasses(g, later, code, x.end, rest.block, folds);
      } else if s.cases[j + 1].value.Some? {
        EndPassesStays(g, later, code, x.end, sites[j + 1].start.block);
      } else {
        EndStraysStays(g, later, code, x.end);
      }
    }
  }

  /** The sites with the last default, if there is one, put at the end of the chain. */
  predicate DefaultCompleted(s: Stmt, sites: seq<CaseSite>, whole: seq<CaseSite>, rest: Point)
    requires s.Switch?
  {
    var d := DefaultBefore(s.cases, |s.cases|);
    && |whole| == |sites| == |s.cases|
    && (forall j :: 0 <= j < |sites| && d != Some(j) ==> whole[j] == sites[j])
    && (d.Some? ==> whole[d.value].test == sites[d.value].test && whole[d.value].start == rest)
  }

  /** Where a case comes before the last default, the end of the chain is the start of a block. */
  lemma RestIsStart(g: Graph, s: Stmt, subject: nat, sites: seq<CaseSite>, rest: Point, folds: bool, breaks: seq<nat>, continues: seq<nat>)
    requires s.Switch? && |sites| == |s.cases| && AllBuilt(g, s, subject, sites, rest, folds, breaks, continues)
    requires BeforeDefault(s, |sites|).Some?
    ensures rest.pos == 0
  {
    var d := DefaultBefore(s.cases, |s.cases|).value;
    hide DefaultBefore, Settled, Compares, EndPasses, EndStrays, PendingEnd;
    BuiltSite(g, s, subject, sites, rest, |sites| - 1, folds, breaks, continues);
    BuiltSite(g, s, subject, sites, rest, d - 1, folds, breaks, continues);
  }

  lemma DefaultSettled(g: Graph, later: Graph, s: Stmt, subject: nat, sites: seq<CaseSite>, whole: seq<CaseSite>, rest: Point, out: nat, d: nat,
                       folds: bool, breaks: seq<nat>, continues: seq<nat>)
    requires s.Switch? && d < |sites| == |s.cases| && DefaultBefore(s.cases, |s.cases|) == Some(d)
    requires AllBuilt(g, s, subject, sites, rest, folds, breaks + [out], continues) && DefaultCompleted(s, sites, whole, rest)
    requires Settled(later, s.cases[d].code, rest, whole[d].end, breaks + [out], continues)
    requires EndPasses(later, s.cases[d].code, whole[d].end, if DefaultNext(s, sites).Some? then DefaultNext(s, sites).value else out)
    ensures CaseCompared(later, s, subject, whole, rest, d) && CaseSettled(later, s, whole, out, d, breaks, continues)
  {
    hide Settled, EndPasses, DefaultBefore, FollowerBefore;
    if BeforeDefault(s, |sites|).Some? {
      RestIsStart(g, s, subject, sites, rest, folds, breaks + [out], continues);
    }
    BuiltSite(g, s, subject, sites, rest, d, folds, breaks + [out], continues);
    hide AllBuilt;
    assert ChainAt(whole, rest, d + 1) == ChainAt(sites, rest, d + 1);
  }

  lemma SwitchFinished(g: Graph, later: Graph, s: Stmt, subject: nat, sites: seq<CaseSite>, rest: Point, defEnd: Point, out: nat, p: Point,
                       folds: bool, breaks: seq<nat>, continues: seq<nat>)
    requires s.Switch? && |sites| == |s.cases| && s.cases != [] && Extends(g, later)
    requires AllBuilt(g, s, subject, sites, rest, folds, breaks + [out], continues)
    requires LastFall(s, sites).Some? ==> LedTo(g, later, sites[|sites| - 1].end, out)
    requires var i := BeforeDefault(s, |sites|); i.Some? ==> LedTo(g, later, sites[i.value].end, rest.block)
    requires var d := DefaultBefore(s.cases, |s.cases|);
      if d.Some? then
        && Settled(later, s.cases[d.value].code, rest, defEnd, breaks + [out], continues)
        && EndPasses(later, s.cases[d.value].code, defEnd, if DefaultNext(s, sites).Some? then DefaultNext(s, sites).value else out)
      else Passes(later, rest, out)
    requires Evaluates(later, p, subject, s.subject) && ChainAt(sites, rest, 0) == Point(p.block, p.pos + 1)
    ensures Settled(later, s, p, Point(out, 0), breaks, continues)
  {
    var d := DefaultBefore(s.cases, |s.cases|);
    var whole := if d.Some? then sites[d.value := sites[d.value].(start := rest, end := defEnd)] else sites;
    assert DefaultCompleted(s, sites, whole, rest);
    hide Settled, EndPasses, Extends, Passes, DefaultBefore, AllBuilt, CaseCompared, CaseSettled, DefaultCompleted, BeforeDefault, LastFall, DefaultNext, LedTo;
    forall j | 0 <= j < |sites| ensures CaseCompared(later, s, subject, whole, rest, j) && CaseSettled(later, s, whole, out, j, breaks, continues) {
      if d == Some(j) {
        DefaultSettled(g, later, s, subject, sites, whole, rest, out, j, folds, breaks, continues);
      } else {
        SiteFinished(g, later, s, subject, sites, whole, rest, out, j, folds, breaks, continues);
      }
    }
    assert CasesSettled(later, s, subject, whole, rest, out, breaks, continues);
    assert whole[0].test == sites[0].test;
    SwitchSettled(later, s, subject, whole, rest, out, p, breaks, continues);
  }

  /** Ends still waiting to be joined are neither the current block, nor the one after the switch, nor each other. */
  predicate PendingApart(n: nat, g: Graph, cur: nat, out: nat, fall: Option<nat>, defFall: Option<nat>) {
    && (fall.Some? ==> n <= fall.value < |g| && fall.value != cur && fall.value != out)
    && (defFall.Some? ==> n <= defFall.value < |g| && defFall.value != cur && defFall.value != out)
    && (fall.Some? && defFall.Some? ==> fall != defFall)
  }

  lemma PendingEnds(g: Graph, s: Stmt, subject: nat, sites: seq<CaseSite>, rest: Point, folds: bool, breaks: seq<nat>, continues: seq<nat>)
    requires s.Switch? && |sites| <= |s.cases| && AllBuilt(g, s, subject, sites, rest, folds, breaks, continues)
    ensures LastFall(s, sites).Some? ==> var e := sites[|sites| - 1].end; e.block < |g| && e == EndOf(g, e.block)
    ensures var i := BeforeDefault(s, |sites|); i.Some? ==> var e := sites[i.value].end; e.block < |g| && e == EndOf(g, e.block)
  {
    hide DefaultBefore, Settled, Compares, EndPasses, EndStrays;
    if LastFall(s, sites).Some? {
      BuiltSite(g, s, subject, sites, rest, |sites| - 1, folds, breaks, continues);
    }
    if BeforeDefault(s, |sites|).Some? {
      BuiltSite(g, s, subject, sites, rest, BeforeDefault(s, |sites|).value, folds, breaks, continues);
    }
  }

  lemma CaseFits(s: Stmt, k: nat, breaks: nat, continues: nat)
    requires s.Switch? && k < |s.cases| && WellFormed(s, breaks, continues)
    ensures WellFormed(s.cases[k].code, breaks + 1, continues) && s.cases[k].code < s
  {
  }

  lemma DefaultTracked(s: Stmt, sites: seq<CaseSite>, site: CaseSite)
    requires s.Switch? && |sites| < |s.cases|
    ensures var longer, k := sites + [site], |sites|;
      if s.cases[k].value.None? then
        && LastFall(s, longer).None? && DefaultFall(s, longer) == LastFall(s, sites) && DefaultNext(s, longer) == DefaultNext(s, sites)
        && DefaultBefore(s.cases, k + 1) == Some(k)
      else
        && LastFall(s, longer) == Some(site.end.block) && DefaultFall(s, longer) == DefaultFall(s, sites)
        && DefaultNext(s, longer) == (if k > 0 && s.cases[k - 1].value.None? then Some(site.start.block) else DefaultNext(s, sites))
        && DefaultBefore(s.cases, k + 1) == DefaultBefore(s.cases, k)
  {
  }

  lemma NothingYet(s: Stmt)
    requires s.Switch?
    ensures DefaultNext(s, []) == None && DefaultBefore(s.cases, 0) == None && LastFall(s, []) == None && DefaultFall(s, []) == None
  {
  }

  lemma LedToLater(g: Graph, mid: Graph, later: Graph, e: Point, target: nat)
    requires LedTo(g, mid, e, target) && Extends(mid, later)
    ensures LedTo(g, later, e, target)
  {
    if Passes(mid, e, target) {
      PassesStays(mid, later, e, target);
    }
  }

  lemma EvaluatesLater(g: Graph, mid: Graph, later: Graph, p: Point, t: nat, e: nat)
    requires Evaluates(g, p, t, e) && Extends(g, mid) && Extends(mid, later)
    ensures Evaluates(later, p, t, e) && Extends(g, later)
  {
    ExtendsOn(g, mid, later);
    EvaluatesStays(g, later, p, t, e);
  }

  lemma NextKnown(g: Graph, s: Stmt, subject: nat, sites: seq<CaseSite>, rest: Point, folds: bool, breaks: seq<nat>, continues: seq<nat>)
    requires s.Switch? && |sites| == |s.cases| && Entered(g) && AllBuilt(g, s, subject, sites, rest, folds, breaks, continues)
    ensures DefaultNext(s, sites).Some? ==> DefaultNext(s, sites).value < |g|
  {
    var f := FollowerBefore(s.cases, |s.cases|);
    hide FollowerBefore, Settled, PendingEnd, EndPasses, EndStrays;
    if f.Some? {
      BuiltSite(g, s, subject, sites, rest, f.value, folds, breaks, continues);
      assert EntersKnown(g, sites[f.value].test.block);
    }
  }

  /** The default part touched only what it may. */
  lemma DefaultKept(g: Graph, g1: Graph, g2: Graph, b: nat, at: nat, defFall: Option<nat>, out: nat)
    requires b < |g| && Kept(g, g1, b) && Kept2(g1, g2, at, defFall) && Extends(g1, g2) && (at == b || |g| <= at) && at != out
    requires defFall.Some? ==> |g| <= defFall.value && defFall.value != out
    requires OpenWith(g1, out, [])
    ensures Kept(g, g2, b) && OpenWith(g2, out, [])
  {
    KeptExtends(g, g1, b);
    ExtendsOn(g, g1, g2);
    assert Grown(g[b], g2[b]);
  }

  /** And the last jump of the switch. */
  lemma LastJump(g: Graph, g2: Graph, later: Graph, b: nat, at: nat, out: nat)
    requires b < |g| && Kept(g, g2, b) && OpenWith(g2, out, []) && at < |g2| && at != out && (at == b || |g| <= at)
    requires if g2[at].exit.Open? then Kept(g2, later, at) else later == g2
    ensures Kept(g, later, b) && OpenWith(later, out, []) && Extends(g2, later)
  {
    if g2[at].exit.Open? {
      KeptOn(g, g2, later, b, at);
      KeptExtends(g2, later, at);
    }
  }

  lemma SwitchClosed(g0: Graph, g1: Graph, g2: Graph, later: Graph, s: Stmt, subject: nat, sites: seq<CaseSite>, rest: Point, e: Point,
                     out: nat, p: Point, folds: bool, breaks: seq<nat>, continues: seq<nat>)
    requires s.Switch? && |sites| == |s.cases| && s.cases != []
    requires Extends(g0, g1) && Extends(g1, g2) && Extends(g2, later)
    requires AllBuilt(g0, s, subject, sites, rest, folds, breaks + [out], continues)
    requires LastFall(s, sites).Some? ==> LedTo(g0, g1, sites[|sites| - 1].end, out)
    requires var i := BeforeDefault(s, |sites|); i.Some? ==>
               var end := sites[i.value].end;
               LedTo(g1, g2, end, rest.block) && end.block < |g0| && g1[end.block].exit == g0[end.block].exit
    requires var d := DefaultBefore(s.cases, |s.cases|);
      if d.Some? then
        && Settled(g2, s.cases[d.value].code, rest, e, breaks + [out], continues)
        && if DefaultNext(s, sites).Some? then EndPasses(g2, s.cases[d.value].code, e, DefaultNext(s, sites).value)
           else PendingEnd(g2, s.cases[d.value].code, e, folds) && LedTo(g2, later, e, out)
      else Passes(later, rest, out)
    requires Evaluates(g0, p, subject, s.subject) && ChainAt(sites, rest, 0) == Point(p.block, p.pos + 1)
    ensures Settled(later, s, p, Point(out, 0), breaks, continues)
  {
    var d := DefaultBefore(s.cases, |s.cases|);
    if d.Some? {
      StaysSettled(g2, later, s.cases[d.value].code, rest, e, breaks + [out], continues);
      if DefaultNext(s, sites).Some? {
        EndPassesStays(g2, later, s.cases[d.value].code, e, DefaultNext(s, sites).value);
      } else {
        NowPasses(g2, later, s.cases[d.value].code, e, out, folds);
      }
    }
    hide AllBuilt, Settled, Completes, DefaultBefore, BeforeDefault, DefaultNext, LastFall, EndPasses, PendingEnd;
    EvaluatesLater(g0, g1, g2, p, subject, s.subject);
    EvaluatesLater(g0, g2, later, p, subject, s.subject);
    ExtendsOn(g1, g2, later);
    hide Extends, Evaluates;
    if LastFall(s, sites).Some? {
      LedToLater(g0, g1, later, sites[|sites| - 1].end, out);
    }
    if BeforeDefault(s, |sites|).Some? {
      LedToLater(g1, g2, later, sites[BeforeDefault(s, |sites|).value].end, rest.block);
    }
    SwitchFinished(g0, later, s, subject, sites, rest, e, out, p, folds, breaks, continues);
  }

  lemma LedByJump(g: Graph, later: Graph, at: nat, target: nat)
    requires at < |g| && (g[at].exit.Open? ==> Passes(later, EndOf(g, at), target))
    ensures LedTo(g, later, EndOf(g, at), target)
  {
  }

  lemma ExtendsSelf(g: Graph)
    ensures Extends(g, g)
  {
  }
}
