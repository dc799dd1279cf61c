// What statements mean, said of whole statements: loops round by round, by unrolling and in terms of
// each other, blocks in parts, and a switch in terms of the block of what it runs.

module StatementLaws {
  import opened Wrappers
  import opened Structured
  import opened LoopForms

  // ---- More rounds granted change nothing that has come to an end ----

  lemma {:induction false} MoreFuel(w: World, direct: bool, s: Stmt, h: History, fuel: nat)
    requires !Exec(w, direct, s, h, fuel).Cut?
    ensures Exec(w, direct, s, h, fuel + 1) == Exec(w, direct, s, h, fuel)
    decreases fuel, s, Width(s) + 2
  {
    match s
    case Block(body) => FirstMoreFuel(w, direct, s, |body|, h, fuel);
    case If(c, a, b) =>
      var taken := if Truth(w, h, c) then a else b;
      if taken.Some? {
        MoreFuel(w, direct, taken.value, Tested(w, h, c), fuel);
      }
    case Loop(init, _, _, _, _, _, _) => RoundMoreFuel(w, direct, s, MaybeEvaluated(w, h, init), fuel);
    case Switch(e, cases) =>
      if cases != [] {
        var (found, h2) := Select(w, cases, 0, w(h, e), Evaluated(w, h, e));
        FallMoreFuel(w, direct, s, if found < |cases| then found else DefaultFor(direct, cases), h2, fuel);
      }
    case _ =>
  }

  lemma {:induction false} FirstMoreFuel(w: World, direct: bool, s: Stmt, k: nat, h: History, fuel: nat)
    requires s.Block? && k <= |s.body| && !ExecFirst(w, direct, s, k, h, fuel).Cut?
    ensures ExecFirst(w, direct, s, k, h, fuel + 1) == ExecFirst(w, direct, s, k, h, fuel)
    decreases fuel, s, k
  {
    if k > 0 {
      FirstMoreFuel(w, direct, s, k - 1, h, fuel);
      var out := ExecFirst(w, direct, s, k - 1, h, fuel);
      if out.Done? {
        MoreFuel(w, direct, s.body[k - 1], out.history, fuel);
      }
    }
  }

  lemma {:induction false} RoundMoreFuel(w: World, direct: bool, s: Stmt, h: History, fuel: nat)
    requires s.Loop? && !Round(w, direct, s, h, fuel).Cut?
    ensures Round(w, direct, s, h, fuel + 1) == Round(w, direct, s, h, fuel)
    decreases fuel, s, 1
  {
    var h1 := if s.pre.Some? then Tested(w, h, s.pre.value) else h;
    if !(s.pre.Some? && Truth(w, h, s.pre.value) == s.preNot) {
      var out := if s.inside.Some? then Exec(w, direct, s.inside.value, h1, fuel) else Done(h1);
      if s.inside.Some? {
        MoreFuel(w, direct, s.inside.value, h1, fuel);
      }
      match out
      case Done(h2) => CloseMoreFuel(w, direct, s, MaybeEvaluated(w, h2, s.increment), fuel);
      case Continued(n, h2) =>
        if n == 0 {
          CloseMoreFuel(w, direct, s, if direct && s.post.Some? then h2 else MaybeEvaluated(w, h2, s.increment), fuel);
        }
      case _ =>
    }
  }

  lemma {:induction false} CloseMoreFuel(w: World, direct: bool, s: Stmt, h: History, fuel: nat)
    requires s.Loop? && !Close(w, direct, s, h, fuel).Cut?
    ensures Close(w, direct, s, h, fuel + 1) == Close(w, direct, s, h, fuel)
    decreases fuel, s, 0
  {
    if !(s.post.Some? && Truth(w, h, s.post.value) == s.postNot) {
      RoundMoreFuel(w, direct, s, if s.post.Some? then Tested(w, h, s.post.value) else h, fuel - 1);
    }
  }

  lemma {:induction false} FallMoreFuel(w: World, direct: bool, s: Stmt, k: nat, h: History, fuel: nat)
    requires s.Switch? && k <= |s.cases| && !Fall(w, direct, s, k, h, fuel).Cut?
    ensures Fall(w, direct, s, k, h, fuel + 1) == Fall(w, direct, s, k, h, fuel)
    decreases fuel, s, |s.cases| - k
  {
    if k < |s.cases| && !(direct && Dropped(s.cases, k)) {
      var out := Exec(w, direct, s.cases[k].code, h, fuel);
      MoreFuel(w, direct, s.cases[k].code, h, fuel);
      if out.Done? {
        if direct && s.cases[k].value.None? {
          match FollowerBefore(s.cases, |s.cases|)
          case None =>
          case Some(j) =>
            if j > k {
              FallMoreFuel(w, direct, s, j, out.history, fuel);
            } else {
              FallMoreFuel(w, direct, s, j, out.history, fuel - 1);
            }
        } else {
          FallMoreFuel(w, direct, s, k + 1, out.history, fuel);
        }
      }
    }
  }

  lemma {:induction false} EnoughFuel(w: World, direct: bool, s: Stmt, h: History, fuel: nat, more: nat)
    requires fuel <= more && !Exec(w, direct, s, h, fuel).Cut?
    ensures Exec(w, direct, s, h, more) == Exec(w, direct, s, h, fuel)
    decreases more
  {
    if fuel < more {
      EnoughFuel(w, direct, s, h, fuel, more - 1);
      MoreFuel(w, direct, s, h, more - 1);
    }
  }

  // ---- One round ----

  function Inside(w: World, direct: bool, body: Option<Stmt>, h: History, fuel: nat): Outcome {
    if body.Some? then Exec(w, direct, body.value, h, fuel) else Done(h)
  }

  /** The loop once more, if there are rounds left. */
  function Again(w: World, direct: bool, loop: Stmt, h: History, fuel: nat): Outcome {
    if fuel == 0 then Cut(h) else Exec(w, direct, loop, h, fuel - 1)
  }

  /** Where a loop goes on after its body: after a normal end, or a continue of its own. */
  function GoesOn(out: Outcome): Option<History> {
    match out
    case Done(h) => Some(h)
    case Continued(n, h) => if n == 0 then Some(h) else None
    case _ => None
  }

  /** What else becomes of the loop: a break of its own ends it, others have one statement less to leave. */
  function Leaves(out: Outcome): Outcome {
    match out
    case Broke(n, h) => if n == 0 then Done(h) else Broke(n - 1, h)
    case Continued(n, h) => if n == 0 then out else Continued(n - 1, h)
    case _ => out
  }

  /** A while loop tests, and unless that ends it does its body and is itself again. */
  lemma WhileRound(w: World, direct: bool, c: Cond, ifNot: bool, body: Option<Stmt>, h: History, fuel: nat)
    ensures var loop, h1 := WhileLoop(c, ifNot, body), Tested(w, h, c);
      var out := Inside(w, direct, body, h1, fuel);
      Exec(w, direct, loop, h, fuel) ==
        if Truth(w, h, c) == ifNot then Done(h1)
        else if GoesOn(out).Some? then Again(w, direct, loop, GoesOn(out).value, fuel) else Leaves(out)
  {
    var loop, out := WhileLoop(c, ifNot, body), Inside(w, direct, body, Tested(w, h, c), fuel);
    LoopIs(w, direct, loop, h, fuel);
    RoundIs(w, direct, loop, h, fuel);
    if GoesOn(out).Some? {
      CloseIs(w, direct, loop, GoesOn(out).value, fuel);
      if fuel > 0 {
        LoopIs(w, direct, loop, GoesOn(out).value, fuel - 1);
      }
    }
    hide Exec, Round, Close;
  }

  /** A do loop does its body first, and unless its test then ends it is itself again. */
  lemma DoRound(w: World, direct: bool, c: Cond, ifNot: bool, body: Option<Stmt>, h: History, fuel: nat)
    ensures var loop, out := DoLoop(c, ifNot, body), Inside(w, direct, body, h, fuel);
      Exec(w, direct, loop, h, fuel) ==
        if GoesOn(out).None? then Leaves(out)
        else
          var h2 := GoesOn(out).value;
          if Truth(w, h2, c) == ifNot then Done(Tested(w, h2, c)) else Again(w, direct, loop, Tested(w, h2, c), fuel)
  {
    var loop, out := DoLoop(c, ifNot, body), Inside(w, direct, body, h, fuel);
    LoopIs(w, direct, loop, h, fuel);
    RoundIs(w, direct, loop, h, fuel);
    if GoesOn(out).Some? {
      var h2 := GoesOn(out).value;
      CloseIs(w, direct, loop, h2, fuel);
      if fuel > 0 {
        LoopIs(w, direct, loop, Tested(w, h2, c), fuel - 1);
      }
    }
    hide Exec, Round, Close;
  }

  lemma LoopIs(w: World, direct: bool, s: Stmt, h: History, fuel: nat)
    requires s.Loop?
    ensures Exec(w, direct, s, h, fuel) == Round(w, direct, s, MaybeEvaluated(w, h, s.init), fuel)
  {
    hide Round;
  }

  lemma RoundIs(w: World, direct: bool, s: Stmt, h: History, fuel: nat)
    requires s.Loop?
    ensures var h1 := if s.pre.Some? then Tested(w, h, s.pre.value) else h;
      var out := Inside(w, direct, s.inside, h1, fuel);
      Round(w, direct, s, h, fuel) ==
        if s.pre.Some? && Truth(w, h, s.pre.value) == s.preNot then Done(h1)
        else if GoesOn(out).None? then Leaves(out)
        else
          var skips := direct && s.post.Some? && out.Continued?;
          Close(w, direct, s, if skips then GoesOn(out).value else MaybeEvaluated(w, GoesOn(out).value, s.increment), fuel)
  {
    hide Exec, Close;
  }

  lemma CloseIs(w: World, direct: bool, s: Stmt, h: History, fuel: nat)
    requires s.Loop?
    ensures var h1 := if s.post.Some? then Tested(w, h, s.post.value) else h;
      Close(w, direct, s, h, fuel) ==
        if s.post.Some? && Truth(w, h, s.post.value) == s.postNot then Done(h1)
        else if fuel == 0 then Cut(h1) else Round(w, direct, s, h1, fuel - 1)
  {
    hide Exec, Round;
  }

  /** A for loop is a while loop with a part before it and one that comes after each round, also after a continue. */
  lemma ForRound(w: World, direct: bool, init: Option<nat>, c: Option<Cond>, ifNot: bool, increment: Option<nat>, body: Option<Stmt>,
                 h: History, fuel: nat)
    ensures var rest, h0 := ForLoop(None, c, ifNot, increment, body), MaybeEvaluated(w, h, init);
      var h1 := if c.Some? then Tested(w, h0, c.value) else h0;
      var out := Inside(w, direct, body, h1, fuel);
      Exec(w, direct, ForLoop(init, c, ifNot, increment, body), h, fuel) ==
        if c.Some? && Truth(w, h0, c.value) == ifNot then Done(h1)
        else if GoesOn(out).Some? then Again(w, direct, rest, MaybeEvaluated(w, GoesOn(out).value, increment), fuel) else Leaves(out)
  {
    var s, t := ForLoop(init, c, ifNot, increment, body), ForLoop(None, c, ifNot, increment, body);
    var h0 := MaybeEvaluated(w, h, init);
    LoopIs(w, direct, s, h, fuel);
    SameRounds(w, direct, s, t, h0, fuel);
    RoundIs(w, direct, t, h0, fuel);
    var out := Inside(w, direct, body, if c.Some? then Tested(w, h0, c.value) else h0, fuel);
    if GoesOn(out).Some? {
      var h2 := MaybeEvaluated(w, GoesOn(out).value, increment);
      CloseIs(w, direct, t, h2, fuel);
      if fuel > 0 {
        LoopIs(w, direct, t, h2, fuel - 1);
      }
    }
    hide Exec, Round, Close;
  }

  lemma {:induction false} SameRounds(w: World, direct: bool, s: Stmt, t: Stmt, h: History, fuel: nat)
    requires s.Loop? && t == s.(init := None)
    ensures Round(w, direct, s, h, fuel) == Round(w, direct, t, h, fuel)
    decreases fuel
  {
    hide Exec, Round, Close;
    RoundIs(w, direct, s, h, fuel);
    RoundIs(w, direct, t, h, fuel);
    var out := Inside(w, direct, s.inside, if s.pre.Some? then Tested(w, h, s.pre.value) else h, fuel);
    if GoesOn(out).Some? {
      var skips := direct && s.post.Some? && out.Continued?;
      var h2 := if skips then GoesOn(out).value else MaybeEvaluated(w, GoesOn(out).value, s.increment);
      CloseIs(w, direct, s, h2, fuel);
      CloseIs(w, direct, t, h2, fuel);
      if fuel > 0 {
        SameRounds(w, direct, s, t, if s.post.Some? then Tested(w, h2, s.post.value) else h2, fuel - 1);
      }
    }
  }

  // ---- Bodies whose breaks and continues stay inside them ----

  /** No break or continue gets further out than the statements around it allow. */
  lemma {:induction false} StaysIn(w: World, direct: bool, s: Stmt, breaks: nat, continues: nat, h: History, fuel: nat)
    requires WellFormed(s, breaks, continues)
    ensures Inner(Exec(w, direct, s, h, fuel), breaks, continues)
    decreases fuel, s, Width(s) + 2
  {
    match s
    case Block(body) => FirstStaysIn(w, direct, s, |body|, breaks, continues, h, fuel);
    case If(c, a, b) =>
      var taken := if Truth(w, h, c) then a else b;
      if taken.Some? {
        StaysIn(w, direct, taken.value, breaks, continues, Tested(w, h, c), fuel);
      }
    case Loop(init, _, _, _, _, _, _) => RoundStaysIn(w, direct, s, breaks, continues, MaybeEvaluated(w, h, init), fuel);
    case Switch(e, cases) =>
      if cases != [] {
        var (found, h2) := Select(w, cases, 0, w(h, e), Evaluated(w, h, e));
        FallStaysIn(w, direct, s, if found < |cases| then found else DefaultFor(direct, cases), breaks, continues, h2, fuel);
      }
    case _ =>
  }

  predicate Inner(out: Outcome, breaks: nat, continues: nat) {
    (out.Broke? ==> out.levels < breaks) && (out.Continued? ==> out.levels < continues)
  }

  lemma {:induction false} FirstStaysIn(w: World, direct: bool, s: Stmt, k: nat, breaks: nat, continues: nat, h: History, fuel: nat)
    requires s.Block? && k <= |s.body| && WellFormed(s, breaks, continues)
    ensures Inner(ExecFirst(w, direct, s, k, h, fuel), breaks, continues)
    decreases fuel, s, k
  {
    if k > 0 {
      FirstStaysIn(w, direct, s, k - 1, breaks, continues, h, fuel);
      var out := ExecFirst(w, direct, s, k - 1, h, fuel);
      if out.Done? {
        StaysIn(w, direct, s.body[k - 1], breaks, continues, out.history, fuel);
      }
    }
  }

  lemma {:induction false} RoundStaysIn(w: World, direct: bool, s: Stmt, breaks: nat, continues: nat, h: History, fuel: nat)
    requires s.Loop? && WellFormed(s, breaks, continues)
    ensures Inner(Round(w, direct, s, h, fuel), breaks, continues)
    decreases fuel, s, 1
  {
    var h1 := if s.pre.Some? then Tested(w, h, s.pre.value) else h;
    if s.inside.Some? {
      StaysIn(w, direct, s.inside.value, breaks + 1, continues + 1, h1, fuel);
    }
    RoundIs(w, direct, s, h, fuel);
    var out := Inside(w, direct, s.inside, h1, fuel);
    if GoesOn(out).Some? {
      var skips := direct && s.post.Some? && out.Continued?;
      var h2 := if skips then GoesOn(out).value else MaybeEvaluated(w, GoesOn(out).value, s.increment);
      CloseIs(w, direct, s, h2, fuel);
      if fuel > 0 {
        RoundStaysIn(w, direct, s, breaks, continues, if s.post.Some? then Tested(w, h2, s.post.value) else h2, fuel - 1);
      }
    }
    hide Exec, Round, Close;
  }

  lemma {:induction false} FallStaysIn(w: World, direct: bool, s: Stmt, k: nat, breaks: nat, continues: nat, h: History, fuel: nat)
    requires s.Switch? && k <= |s.cases| && WellFormed(s, breaks, continues)
    ensures Inner(Fall(w, direct, s, k, h, fuel), breaks + 1, continues)
    decreases fuel, s, |s.cases| - k
  {
    if k < |s.cases| && !(direct && Dropped(s.cases, k)) {
      var out := Exec(w, direct, s.cases[k].code, h, fuel);
      StaysIn(w, direct, s.cases[k].code, breaks + 1, continues, h, fuel);
      if out.Done? {
        if direct && s.cases[k].value.None? {
          match FollowerBefore(s.cases, |s.cases|)
          case None =>
          case Some(j) =>
            if j > k {
              FallStaysIn(w, direct, s, j, breaks, continues, out.history, fuel);
            } else if fuel > 0 {
              FallStaysIn(w, direct, s, j, breaks, continues, out.history, fuel - 1);
            }
        } else {
          FallStaysIn(w, direct, s, k + 1, breaks, continues, out.history, fuel);
        }
      }
    }
  }

  // ---- Loops in terms of each other ----

  /** The statement comes to this end, however many rounds it takes. */
  ghost predicate Ends(w: World, direct: bool, s: Stmt, h: History, out: Outcome) {
    !out.Cut? && exists fuel: nat :: Exec(w, direct, s, h, fuel) == out
  }

  ghost predicate Forever(w: World, direct: bool, s: Stmt, h: History) {
    forall fuel: nat :: Exec(w, direct, s, h, fuel).Cut?
  }

  /** Both statements come to the same end with the same history, or both run forever. */
  ghost predicate SameMeaning(a: Stmt, b: Stmt) {
    forall w: World, direct, h :: SameEnds(w, direct, a, b, h)
  }

  ghost predicate SameEnds(w: World, direct: bool, a: Stmt, b: Stmt, h: History) {
    (forall out :: Ends(w, direct, a, h, out) <==> Ends(w, direct, b, h, out)) && (Forever(w, direct, a, h) <==> Forever(w, direct, b, h))
  }

  ghost predicate Covers(w: World, direct: bool, a: Stmt, b: Stmt, h: History) {
    forall fuel: nat :: !Exec(w, direct, a, h, fuel).Cut? ==> Ends(w, direct, b, h, Exec(w, direct, a, h, fuel))
  }

  lemma SameFromCovers(w: World, direct: bool, a: Stmt, b: Stmt, h: History)
    requires Covers(w, direct, a, b, h) && Covers(w, direct, b, a, h)
    ensures SameEnds(w, direct, a, b, h)
  {
    hide Exec;
    OneCovers(w, direct, a, b, h);
    OneCovers(w, direct, b, a, h);
  }

  lemma OneCovers(w: World, direct: bool, a: Stmt, b: Stmt, h: History)
    requires Covers(w, direct, a, b, h)
    ensures forall out :: Ends(w, direct, a, h, out) ==> Ends(w, direct, b, h, out)
    ensures Forever(w, direct, b, h) ==> Forever(w, direct, a, h)
  {
    hide Exec;
    forall fuel: nat | !Exec(w, direct, a, h, fuel).Cut? ensures !Forever(w, direct, b, h) {
      var more: nat :| Exec(w, direct, b, h, more) == Exec(w, direct, a, h, fuel);
    }
  }

  lemma TwoInBlock(w: World, direct: bool, a: Stmt, b: Stmt, h: History, fuel: nat)
    ensures Exec(w, direct, Block([a, b]), h, fuel) ==
      var out := Exec(w, direct, a, h, fuel);
      if out.Done? then Exec(w, direct, b, out.history, fuel) else out
  {
    var s := Block([a, b]);
    assert ExecFirst(w, direct, s, 1, h, fuel) == Exec(w, direct, a, h, fuel) by {
      assert ExecFirst(w, direct, s, 0, h, fuel) == Done(h);
    }
    assert Exec(w, direct, s, h, fuel) == ExecFirst(w, direct, s, 2, h, fuel);
  }

  // A body none of whose breaks and continues get out of it.
  predicate Contained(s: Stmt) {
    WellFormed(s, 0, 0)
  }

  /** Unless it ends normally, the loop ends as its contained body does. */
  lemma ContainedBody(w: World, direct: bool, s: Stmt, h: History, fuel: nat)
    requires Contained(s)
    ensures var out := Exec(w, direct, s, h, fuel);
      out == Inside(w, direct, Some(s), h, fuel) && Leaves(out) == out && GoesOn(out) == if out.Done? then Some(out.history) else None
  {
    StaysIn(w, direct, s, 0, 0, h, fuel);
    hide Exec;
  }

  /** What a do loop does once its body has ended. */
  function Tail(w: World, direct: bool, c: Cond, ifNot: bool, s: Stmt, h: History, fuel: nat): Outcome {
    if Truth(w, h, c) == ifNot then Done(Tested(w, h, c)) else Again(w, direct, DoLoop(c, ifNot, Some(s)), Tested(w, h, c), fuel)
  }

  lemma DoWithTail(w: World, direct: bool, c: Cond, ifNot: bool, s: Stmt, h: History, fuel: nat)
    requires Contained(s)
    ensures var out := Exec(w, direct, s, h, fuel);
      Exec(w, direct, DoLoop(c, ifNot, Some(s)), h, fuel) ==
        if out.Done? then Tail(w, direct, c, ifNot, s, out.history, fuel) else out
  {
    DoRound(w, direct, c, ifNot, Some(s), h, fuel);
    ContainedBody(w, direct, s, h, fuel);
    hide Exec, DoLoop;
  }

  lemma WhileWith(w: World, direct: bool, c: Cond, ifNot: bool, s: Stmt, h: History, fuel: nat)
    requires Contained(s)
    ensures var loop, h1 := WhileLoop(c, ifNot, Some(s)), Tested(w, h, c);
      var out := Exec(w, direct, s, h1, fuel);
      Exec(w, direct, loop, h, fuel) ==
        if Truth(w, h, c) == ifNot then Done(h1)
        else if out.Done? then Again(w, direct, loop, out.history, fuel) else out
  {
    WhileRound(w, direct, c, ifNot, Some(s), h, fuel);
    ContainedBody(w, direct, s, Tested(w, h, c), fuel);
    hide Exec, WhileLoop;
  }

  lemma {:induction false} TailIsWhile(w: World, direct: bool, c: Cond, ifNot: bool, s: Stmt, h: History, fuel: nat)
    requires Contained(s) && !Tail(w, direct, c, ifNot, s, h, fuel).Cut?
    ensures Exec(w, direct, WhileLoop(c, ifNot, Some(s)), h, fuel) == Tail(w, direct, c, ifNot, s, h, fuel)
    decreases fuel
  {
    hide Exec, WhileLoop, DoLoop;
    WhileWith(w, direct, c, ifNot, s, h, fuel);
    if Truth(w, h, c) != ifNot {
      var h1 := Tested(w, h, c);
      DoWithTail(w, direct, c, ifNot, s, h1, fuel - 1);
      MoreFuel(w, direct, s, h1, fuel - 1);
      var out := Exec(w, direct, s, h1, fuel - 1);
      if out.Done? {
        TailIsWhile(w, direct, c, ifNot, s, out.history, fuel - 1);
      }
    }
  }

  lemma {:induction false} WhileIsTail(w: World, direct: bool, c: Cond, ifNot: bool, s: Stmt, h: History, fuel: nat)
    requires Contained(s) && !Exec(w, direct, WhileLoop(c, ifNot, Some(s)), h, fuel).Cut?
    ensures Tail(w, direct, c, ifNot, s, h, fuel + 1) == Exec(w, direct, WhileLoop(c, ifNot, Some(s)), h, fuel)
    decreases fuel
  {
    hide Exec, WhileLoop, DoLoop;
    WhileWith(w, direct, c, ifNot, s, h, fuel);
    if Truth(w, h, c) != ifNot {
      var h1 := Tested(w, h, c);
      DoWithTail(w, direct, c, ifNot, s, h1, fuel);
      var out := Exec(w, direct, s, h1, fuel);
      if out.Done? {
        WhileIsTail(w, direct, c, ifNot, s, out.history, fuel - 1);
      }
    }
  }

  /** A do loop is its body and then a while loop. */
  lemma DoIsWhile(c: Cond, ifNot: bool, s: Stmt)
    requires Contained(s)
    ensures SameMeaning(DoLoop(c, ifNot, Some(s)), Block([s, WhileLoop(c, ifNot, Some(s))]))
  {
    var a, loop := DoLoop(c, ifNot, Some(s)), WhileLoop(c, ifNot, Some(s));
    var b := Block([s, loop]);
    hide Exec, WhileLoop, DoLoop;
    forall w: World, direct, h ensures SameEnds(w, direct, a, b, h) {
      forall fuel: nat | !Exec(w, direct, a, h, fuel).Cut? ensures Ends(w, direct, b, h, Exec(w, direct, a, h, fuel)) {
        DoWithTail(w, direct, c, ifNot, s, h, fuel);
        TwoInBlock(w, direct, s, loop, h, fuel);
        var out := Exec(w, direct, s, h, fuel);
        if out.Done? {
          TailIsWhile(w, direct, c, ifNot, s, out.history, fuel);
        }
      }
      forall fuel: nat | !Exec(w, direct, b, h, fuel).Cut? ensures Ends(w, direct, a, h, Exec(w, direct, b, h, fuel)) {
        TwoInBlock(w, direct, s, loop, h, fuel);
        MoreFuel(w, direct, s, h, fuel);
        DoWithTail(w, direct, c, ifNot, s, h, fuel + 1);
        var out := Exec(w, direct, s, h, fuel);
        if out.Done? {
          WhileIsTail(w, direct, c, ifNot, s, out.history, fuel);
        }
        assert Exec(w, direct, a, h, fuel + 1) == Exec(w, direct, b, h, fuel);
      }
      SameFromCovers(w, direct, a, b, h);
    }
  }

  function Unless(c: Cond, ifNot: bool, s: Stmt): Stmt {
    if ifNot then If(c, None, Some(s)) else If(c, Some(s), None)
  }

  lemma UnlessIs(w: World, direct: bool, c: Cond, ifNot: bool, s: Stmt, h: History, fuel: nat)
    ensures Exec(w, direct, Unless(c, ifNot, s), h, fuel) ==
      if Truth(w, h, c) == ifNot then Done(Tested(w, h, c)) else Exec(w, direct, s, Tested(w, h, c), fuel)
  {
  }

  /** A while loop is a test, and behind it the body and the loop again. */
  lemma WhileUnrolls(c: Cond, ifNot: bool, s: Stmt)
    requires Contained(s)
    ensures var loop := WhileLoop(c, ifNot, Some(s)); SameMeaning(loop, Unless(c, ifNot, Block([s, loop])))
  {
    var loop := WhileLoop(c, ifNot, Some(s));
    var b := Unless(c, ifNot, Block([s, loop]));
    hide Exec, WhileLoop, Unless;
    forall w: World, direct, h ensures SameEnds(w, direct, loop, b, h) {
      var h1 := Tested(w, h, c);
      forall fuel: nat | !Exec(w, direct, loop, h, fuel).Cut? ensures Ends(w, direct, b, h, Exec(w, direct, loop, h, fuel)) {
        WhileWith(w, direct, c, ifNot, s, h, fuel);
        UnlessIs(w, direct, c, ifNot, Block([s, loop]), h, fuel);
        TwoInBlock(w, direct, s, loop, h1, fuel);
        var out := Exec(w, direct, s, h1, fuel);
        if Truth(w, h, c) != ifNot && out.Done? {
          MoreFuel(w, direct, loop, out.history, fuel - 1);
        }
      }
      forall fuel: nat | !Exec(w, direct, b, h, fuel).Cut? ensures Ends(w, direct, loop, h, Exec(w, direct, b, h, fuel)) {
        WhileWith(w, direct, c, ifNot, s, h, fuel + 1);
        UnlessIs(w, direct, c, ifNot, Block([s, loop]), h, fuel);
        TwoInBlock(w, direct, s, loop, h1, fuel);
        if Truth(w, h, c) != ifNot {
          MoreFuel(w, direct, s, h1, fuel);
        }
        assert Exec(w, direct, loop, h, fuel + 1) == Exec(w, direct, b, h, fuel);
      }
      SameFromCovers(w, direct, loop, b, h);
    }
  }

  function Followed(s: Stmt, increment: Option<nat>): Stmt {
    if increment.Some? then Block([s, Effect(increment.value)]) else s
  }

  lemma FollowedIs(w: World, direct: bool, s: Stmt, increment: Option<nat>, h: History, fuel: nat)
    ensures var out := Exec(w, direct, s, h, fuel);
      Exec(w, direct, Followed(s, increment), h, fuel) == if out.Done? then Done(MaybeEvaluated(w, out.history, increment)) else out
  {
    if increment.Some? {
      TwoInBlock(w, direct, s, Effect(increment.value), h, fuel);
    }
  }

  /** The while loop a for loop stands for; without a condition it never ends by itself. */
  function AsWhile(c: Option<Cond>, ifNot: bool, increment: Option<nat>, s: Stmt): Stmt {
    if c.Some? then WhileLoop(c.value, ifNot, Some(Followed(s, increment))) else WhileLoop(Literal(1), false, Some(Followed(s, increment)))
  }

  lemma {:induction false} RestIsWhile(w: World, direct: bool, c: Option<Cond>, ifNot: bool, increment: Option<nat>, s: Stmt, h: History, fuel: nat)
    requires Contained(s)
    ensures Exec(w, direct, ForLoop(None, c, ifNot, increment, Some(s)), h, fuel) == Exec(w, direct, AsWhile(c, ifNot, increment, s), h, fuel)
    decreases fuel
  {
    var h1 := if c.Some? then Tested(w, h, c.value) else h;
    ForRound(w, direct, None, c, ifNot, increment, Some(s), h, fuel);
    WhileRound(w, direct, if c.Some? then c.value else Literal(1), if c.Some? then ifNot else false, Some(Followed(s, increment)), h, fuel);
    ContainedBody(w, direct, s, h1, fuel);
    FollowedIs(w, direct, s, increment, h1, fuel);
    hide Exec, WhileLoop, ForLoop, Followed;
    var out := Exec(w, direct, s, h1, fuel);
    if out.Done? && fuel > 0 {
      RestIsWhile(w, direct, c, ifNot, increment, s, MaybeEvaluated(w, out.history, increment), fuel - 1);
    }
  }

  /** A for loop is its first part and then a while loop over the body and the increment. */
  lemma ForIsWhile(w: World, direct: bool, init: nat, c: Option<Cond>, ifNot: bool, increment: Option<nat>, s: Stmt, h: History, fuel: nat)
    requires Contained(s)
    ensures Exec(w, direct, ForLoop(Some(init), c, ifNot, increment, Some(s)), h, fuel)
         == Exec(w, direct, Block([Effect(init), AsWhile(c, ifNot, increment, s)]), h, fuel)
    ensures Exec(w, direct, ForLoop(None, c, ifNot, increment, Some(s)), h, fuel) == Exec(w, direct, AsWhile(c, ifNot, increment, s), h, fuel)
  {
    var h0 := Evaluated(w, h, init);
    RestIsWhile(w, direct, c, ifNot, increment, s, h, fuel);
    RestIsWhile(w, direct, c, ifNot, increment, s, h0, fuel);
    ForRound(w, direct, Some(init), c, ifNot, increment, Some(s), h, fuel);
    ForRound(w, direct, None, c, ifNot, increment, Some(s), h0, fuel);
    TwoInBlock(w, direct, Effect(init), AsWhile(c, ifNot, increment, s), h, fuel);
    assert Exec(w, direct, Effect(init), h, fuel) == Done(h0);
    hide Exec, ForLoop, AsWhile;
  }

  // ---- How loops end ----

  /** The last thing evaluated is the condition, with the value that ends the loop. */
  predicate JustTested(c: Cond, ifNot: bool, h: History) {
    match c
    case Literal(value) => (value != 0) == ifNot
    case Computed(e) => h != [] && h[|h| - 1].expr == e && (h[|h| - 1].value != 0) == ifNot
  }

  lemma TestedIs(w: World, c: Cond, h: History)
    ensures JustTested(c, Truth(w, h, c), Tested(w, h, c))
  {
  }

  /** A while loop that ends without a break has just tested its condition. */
  lemma {:induction false} WhileEndsTested(w: World, direct: bool, c: Cond, ifNot: bool, s: Stmt, h: History, fuel: nat)
    requires Contained(s)
    ensures var out := Exec(w, direct, WhileLoop(c, ifNot, Some(s)), h, fuel); out.Done? ==> JustTested(c, ifNot, out.history)
    decreases fuel
  {
    WhileWith(w, direct, c, ifNot, s, h, fuel);
    TestedIs(w, c, h);
    hide Exec, WhileLoop, JustTested;
    var out := Exec(w, direct, s, Tested(w, h, c), fuel);
    if out.Done? && fuel > 0 {
      WhileEndsTested(w, direct, c, ifNot, s, out.history, fuel - 1);
    }
  }

  /** And so has a do loop. */
  lemma {:induction false} DoEndsTested(w: World, direct: bool, c: Cond, ifNot: bool, s: Stmt, h: History, fuel: nat)
    requires Contained(s)
    ensures var out := Exec(w, direct, DoLoop(c, ifNot, Some(s)), h, fuel); out.Done? ==> JustTested(c, ifNot, out.history)
    decreases fuel
  {
    DoWithTail(w, direct, c, ifNot, s, h, fuel);
    hide Exec, DoLoop, JustTested;
    var out := Exec(w, direct, s, h, fuel);
    if out.Done? {
      TestedIs(w, c, out.history);
      if fuel > 0 {
        DoEndsTested(w, direct, c, ifNot, s, Tested(w, out.history, c), fuel - 1);
      }
    }
  }

  // ---- Blocks and switches ----

  lemma {:induction false} FirstOfParts(w: World, direct: bool, a: seq<Stmt>, b: seq<Stmt>, k: nat, h: History, fuel: nat)
    requires k <= |b|
    ensures ExecFirst(w, direct, Block(a + b), |a| + k, h, fuel) ==
      var out := Exec(w, direct, Block(a), h, fuel);
      if out.Done? then ExecFirst(w, direct, Block(b), k, out.history, fuel) else out
    decreases k
  {
    hide Exec;
    if k == 0 {
      BlockIs(w, direct, a, h, fuel);
      SameFirst(w, direct, a, b, |a|, h, fuel);
    } else {
      FirstOfParts(w, direct, a, b, k - 1, h, fuel);
      assert (a + b)[|a| + k - 1] == b[k - 1];
    }
  }

  lemma BlockIs(w: World, direct: bool, a: seq<Stmt>, h: History, fuel: nat)
    ensures Exec(w, direct, Block(a), h, fuel) == ExecFirst(w, direct, Block(a), |a|, h, fuel)
  {
    hide ExecFirst;
  }

  lemma {:induction false} SameFirst(w: World, direct: bool, a: seq<Stmt>, b: seq<Stmt>, k: nat, h: History, fuel: nat)
    requires k <= |a|
    ensures ExecFirst(w, direct, Block(a + b), k, h, fuel) == ExecFirst(w, direct, Block(a), k, h, fuel)
    decreases k
  {
    hide Exec;
    if k > 0 {
      SameFirst(w, direct, a, b, k - 1, h, fuel);
      assert (a + b)[k - 1] == a[k - 1];
    }
  }

  /** A block is its first part and then, if that ends normally, its second. */
  lemma BlockInParts(w: World, direct: bool, a: seq<Stmt>, b: seq<Stmt>, h: History, fuel: nat)
    ensures Exec(w, direct, Block(a + b), h, fuel) ==
      var out := Exec(w, direct, Block(a), h, fuel);
      if out.Done? then Exec(w, direct, Block(b), out.history, fuel) else out
    ensures Exec(w, direct, Block([]), h, fuel) == Done(h)
  {
    FirstOfParts(w, direct, a, b, |b|, h, fuel);
    BlockIs(w, direct, a + b, h, fuel);
    var out := Exec(w, direct, Block(a), h, fuel);
    BlockIs(w, direct, b, if out.Done? then out.history else h, fuel);
    hide Exec;
    BlockIs(w, direct, [], h, fuel);
  }

  lemma OneInBlock(w: World, direct: bool, s: Stmt, h: History, fuel: nat)
    ensures Exec(w, direct, Block([s]), h, fuel) == Exec(w, direct, s, h, fuel)
  {
    assert ExecFirst(w, direct, Block([s]), 0, h, fuel) == Done(h);
    assert ExecFirst(w, direct, Block([s]), 1, h, fuel) == Exec(w, direct, s, h, fuel);
  }

  /** The code of the cases from k on. */
  function CodesFrom(cases: seq<Case>, k: nat): (codes: seq<Stmt>)
    requires k <= |cases|
    ensures |codes| == |cases| - k && forall j :: 0 <= j < |codes| ==> codes[j] == cases[k + j].code
    decreases |cases| - k
  {
    if k == |cases| then [] else [cases[k].code] + CodesFrom(cases, k + 1)
  }

  lemma {:induction false} FallIsBlock(w: World, s: Stmt, k: nat, h: History, fuel: nat)
    requires s.Switch? && k <= |s.cases|
    ensures Fall(w, false, s, k, h, fuel) == Exec(w, false, Block(CodesFrom(s.cases, k)), h, fuel)
    decreases |s.cases| - k
  {
    if k == |s.cases| {
      BlockInParts(w, false, [], [], h, fuel);
    } else {
      var c := s.cases[k].code;
      BlockInParts(w, false, [c], CodesFrom(s.cases, k + 1), h, fuel);
      OneInBlock(w, false, c, h, fuel);
      var out := Exec(w, false, c, h, fuel);
      if out.Done? {
        FallIsBlock(w, s, k + 1, out.history, fuel);
      }
      hide Exec;
    }
  }

  /** A switch does what the block of the codes from the selected case on does, and a break in it ends that. */
  lemma SwitchIsBlock(w: World, e: nat, cases: seq<Case>, h: History, fuel: nat)
    requires cases != []
    ensures var (found, h2) := Select(w, cases, 0, w(h, e), Evaluated(w, h, e));
      var k := if found < |cases| then found else DefaultOf(cases);
      var out := Exec(w, false, Block(CodesFrom(cases, k)), h2, fuel);
      Exec(w, false, Switch(e, cases), h, fuel) ==
        if out.Broke? then (if out.levels == 0 then Done(out.history) else Broke(out.levels - 1, out.history)) else out
  {
    var (found, h2) := Select(w, cases, 0, w(h, e), Evaluated(w, h, e));
    FallIsBlock(w, Switch(e, cases), if found < |cases| then found else DefaultOf(cases), h2, fuel);
    hide Fall, CodesFrom, Select, DefaultOf, ExecFirst;
  }

  // ---- What is evaluated, and what is taken ----

  /** Expressions are evaluated once, and of an if the branch taken is the first one exactly when the condition is not zero. */
  lemma BranchTaken(w: World, direct: bool, e: nat, a: Stmt, b: Option<Stmt>, h: History, fuel: nat)
    ensures var v := w(h, e); var h1 := h + [Event(e, v)];
      && Exec(w, direct, Effect(e), h, fuel) == Done(h1) && Exec(w, direct, Return(Some(e)), h, fuel) == Returned(h1)
      && (v != 0 ==> Exec(w, direct, If(Computed(e), Some(a), b), h, fuel) == Exec(w, direct, a, h1, fuel))
      && (v == 0 ==> Exec(w, direct, If(Computed(e), b, Some(a)), h, fuel) == Exec(w, direct, a, h1, fuel))
      && (v == 0 ==> Exec(w, direct, If(Computed(e), Some(a), None), h, fuel) == Done(h1))
  {
  }

  /** None of the events from n to m - 1 yielded v. */
  predicate Unequal(h: History, n: nat, m: nat, v: int) {
    n <= m <= |h| && forall i :: n <= i < m ==> h[i].value != v
  }

  /** Of a switch, values are asked for until one equals the operand: that is the last thing evaluated, and it is its case that is selected. */
  lemma {:induction false} AskedUntilEqual(w: World, cases: seq<Case>, k: nat, v: int, h: History)
    requires k <= |cases|
    ensures var (found, h2) := Select(w, cases, k, v, h);
      && |h| <= |h2| && h2[..|h|] == h
      && (found < |cases| ==> |h| < |h2| && cases[found].value.Some? && h2[|h2| - 1] == Event(cases[found].value.value, v))
      && Unequal(h2, |h|, if found < |cases| then |h2| - 1 else |h2|, v)
    decreases |cases| - k
  {
    if k < |cases| {
      var e := cases[k].value;
      var h1 := if e.Some? then Evaluated(w, h, e.value) else h;
      if e.None? || v != w(h, e.value) {
        AskedUntilEqual(w, cases, k + 1, v, h1);
        var (found, h2) := Select(w, cases, k + 1, v, h1);
        assert Select(w, cases, k, v, h) == (found, h2);
        hide Select;
        assert h2[..|h|] == h1[..|h|] == h;
        if e.Some? {
          assert h2[|h|] == h1[|h|] == Event(e.value, w(h, e.value));
        }
      }
    }
  }

  // ---- Which statements are well-formed ----

  lemma {:induction false} MoreRoom(s: Stmt, breaks: nat, continues: nat, moreBreaks: nat, moreContinues: nat)
    requires WellFormed(s, breaks, continues) && breaks <= moreBreaks && continues <= moreContinues
    ensures WellFormed(s, moreBreaks, moreContinues)
    decreases s
  {
    match s
    case Block(body) =>
      forall k | 0 <= k < |body| ensures WellFormed(body[k], moreBreaks, moreContinues) {
        MoreRoom(body[k], breaks, continues, moreBreaks, moreContinues);
      }
    case If(_, a, b) =>
      if a.Some? { MoreRoom(a.value, breaks, continues, moreBreaks, moreContinues); }
      if b.Some? { MoreRoom(b.value, breaks, continues, moreBreaks, moreContinues); }
    case Loop(_, _, _, _, _, _, inside) =>
      if inside.Some? { MoreRoom(inside.value, breaks + 1, continues + 1, moreBreaks + 1, moreContinues + 1); }
    case Switch(_, cases) =>
      forall k | 0 <= k < |cases| ensures WellFormed(cases[k].code, moreBreaks + 1, moreContinues) {
        MoreRoom(cases[k].code, breaks + 1, continues, moreBreaks + 1, moreContinues);
      }
    case _ =>
  }

  function Bigger(a: nat, b: nat): nat {
    if a < b then b else a
  }

  /** Every statement is well-formed inside enough others. */
  lemma {:induction false} RoomEnough(s: Stmt) returns (n: nat)
    ensures WellFormed(s, n, n)
    decreases s
  {
    n := 0;
    match s
    case Block(body) =>
      for k := 0 to |body|
        invariant forall j :: 0 <= j < k ==> WellFormed(body[j], n, n)
      {
        var m := RoomEnough(body[k]);
        forall j | 0 <= j <= k ensures WellFormed(body[j], Bigger(n, m), Bigger(n, m)) {
          if j < k { MoreRoom(body[j], n, n, Bigger(n, m), Bigger(n, m)); } else { MoreRoom(body[k], m, m, Bigger(n, m), Bigger(n, m)); }
        }
        n := Bigger(n, m);
      }
    case If(_, a, b) =>
      var m, o := 0, 0;
      if a.Some? { m := RoomEnough(a.value); }
      if b.Some? { o := RoomEnough(b.value); }
      n := Bigger(m, o);
      if a.Some? { MoreRoom(a.value, m, m, n, n); }
      if b.Some? { MoreRoom(b.value, o, o, n, n); }
    case Loop(_, _, _, _, _, _, inside) =>
      if inside.Some? {
        n := RoomEnough(inside.value);
        MoreRoom(inside.value, n, n, n + 1, n + 1);
      }
    case Switch(_, cases) =>
      for k := 0 to |cases|
        invariant forall j :: 0 <= j < k ==> WellFormed(cases[j].code, n + 1, n)
      {
        var m := RoomEnough(cases[k].code);
        forall j | 0 <= j <= k ensures WellFormed(cases[j].code, Bigger(n, m) + 1, Bigger(n, m)) {
          if j < k {
            MoreRoom(cases[j].code, n + 1, n, Bigger(n, m) + 1, Bigger(n, m));
          } else {
            MoreRoom(cases[k].code, m, m, Bigger(n, m) + 1, Bigger(n, m));
          }
        }
        n := Bigger(n, m);
      }
    case Break(levels) => n := levels + 1;
    case Continue(levels) => n := levels + 1;
    case _ =>
  }

  /** A loop supplies one more target for the breaks and continues of its body, a switch one for the breaks. */
  lemma Enclosed(c: Cond, ifNot: bool, e: nat, s: Stmt, breaks: nat, continues: nat)
    ensures WellFormed(WhileLoop(c, ifNot, Some(s)), breaks, continues) <==> WellFormed(s, breaks + 1, continues + 1)
    ensures WellFormed(DoLoop(c, ifNot, Some(s)), breaks, continues) <==> WellFormed(s, breaks + 1, continues + 1)
    ensures WellFormed(ForLoop(None, Some(c), ifNot, None, Some(s)), breaks, continues) <==> WellFormed(s, breaks + 1, continues + 1)
    ensures WellFormed(Switch(e, [Case(None, s)]), breaks, continues) <==> WellFormed(s, breaks + 1, continues)
  {
    assert [Case(None, s)][0].code == s;
  }
}
