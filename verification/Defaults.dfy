// Switches with more than one default: of these only the last one has code, and
// what should fall into another gets lost.

module Defaults {
  import opened Wrappers
  import opened Structured

  /** Where no switch has two defaults, nothing gets lost. */
  lemma {:induction false} NeverLost(w: World, direct: bool, s: Stmt, h: History, fuel: nat)
    requires NeverTwo(s)
    ensures !Exec(w, direct, s, h, fuel).Lost?
    decreases fuel, s, Width(s) + 2
  {
    match s
    case Block(body) => FirstNeverLost(w, direct, s, |body|, h, fuel);
    case If(c, a, b) =>
      var taken := if Truth(w, h, c) then a else b;
      if taken.Some? {
        NeverLost(w, direct, taken.value, Tested(w, h, c), fuel);
      }
    case Loop(init, _, _, _, _, _, _) => RoundNeverLost(w, direct, s, MaybeEvaluated(w, h, init), fuel);
    case Switch(e, cases) =>
      if cases != [] {
        var (found, h2) := Select(w, cases, 0, w(h, e), Evaluated(w, h, e));
        FallNeverLost(w, direct, s, if found < |cases| then found else DefaultFor(direct, cases), h2, fuel);
      }
    case _ =>
  }

  lemma {:induction false} FirstNeverLost(w: World, direct: bool, s: Stmt, k: nat, h: History, fuel: nat)
    requires s.Block? && NeverTwo(s) && k <= |s.body|
    ensures !ExecFirst(w, direct, s, k, h, fuel).Lost?
    decreases fuel, s, k
  {
    if k > 0 {
      FirstNeverLost(w, direct, s, k - 1, h, fuel);
      var out := ExecFirst(w, direct, s, k - 1, h, fuel);
      if out.Done? {
        NeverLost(w, direct, s.body[k - 1], out.history, fuel);
      }
    }
  }

  lemma {:induction false} RoundNeverLost(w: World, direct: bool, s: Stmt, h: History, fuel: nat)
    requires s.Loop? && NeverTwo(s)
    ensures !Round(w, direct, s, h, fuel).Lost?
    decreases fuel, s, 1
  {
    var h1 := if s.pre.Some? then Tested(w, h, s.pre.value) else h;
    if s.inside.Some? {
      NeverLost(w, direct, s.inside.value, h1, fuel);
    }
    var out := if s.inside.Some? then Exec(w, direct, s.inside.value, h1, fuel) else Done(h1);
    CloseNeverLost(w, direct, s, MaybeEvaluated(w, out.history, s.increment), fuel);
    CloseNeverLost(w, direct, s, out.history, fuel);
  }

  lemma {:induction false} CloseNeverLost(w: World, direct: bool, s: Stmt, h: History, fuel: nat)
    requires s.Loop? && NeverTwo(s)
    ensures !Close(w, direct, s, h, fuel).Lost?
    decreases fuel, s, 0
  {
    if fuel > 0 {
      RoundNeverLost(w, direct, s, if s.post.Some? then Tested(w, h, s.post.value) else h, fuel - 1);
    }
  }

  lemma {:induction false} FallNeverLost(w: World, direct: bool, s: Stmt, k: nat, h: History, fuel: nat)
    requires s.Switch? && NeverTwo(s) && k <= |s.cases|
    ensures !Fall(w, direct, s, k, h, fuel).Lost?
    decreases fuel, s, |s.cases| - k
  {
    if k < |s.cases| {
      OneDefault(s.cases);
      NeverLost(w, direct, s.cases[k].code, h, fuel);
      var out := Exec(w, direct, s.cases[k].code, h, fuel);
      if out.Done? {
        FallNeverLost(w, direct, s, k + 1, out.history, fuel);
      }
    }
  }

  // ---- When a switch is generated as it is written ----

  /** A switch made of the values of its cases, where a default has none, and their code. */
  function Made(subject: nat, values: seq<Option<nat>>, codes: seq<Stmt>): Stmt
    requires |values| == |codes|
  {
    Switch(subject, seq(|values|, (k: nat) requires k < |values| => Case(values[k], codes[k])))
  }

  predicate OneDefaultAmong(values: seq<Option<nat>>) {
    forall j, k :: 0 <= j < k < |values| && values[j].None? ==> values[k].Some?
  }

  /** Whatever the code of its cases, the switch does what is written. */
  ghost predicate AlwaysRight(subject: nat, values: seq<Option<nat>>) {
    forall codes: seq<Stmt>, w: World, h, fuel ::
      |codes| == |values| && (forall c :: c in codes ==> NeverBoth(c) && NeverTwo(c)) ==>
        Exec(w, true, Made(subject, values, codes), h, fuel) == Exec(w, false, Made(subject, values, codes), h, fuel)
  }

  /** The code of case k evaluates expression k and does nothing else. */
  function Telling(n: nat): (codes: seq<Stmt>)
    ensures |codes| == n && forall k :: 0 <= k < n ==> codes[k] == Effect(k)
  {
    seq(n, (k: nat) => Effect(k))
  }

  /** The first expression evaluated yields zero and all others one. */
  function OnesAfterZero(): World {
    (h: History, e: nat) => if h == [] then 0 else 1
  }

  lemma {:induction false} NothingSelected(cases: seq<Case>, k: nat, h: History)
    requires k <= |cases| && h != []
    ensures Select(OnesAfterZero(), cases, k, 0, h).0 == |cases|
    decreases |cases| - k
  {
    if k < |cases| {
      NothingSelected(cases, k + 1, if cases[k].value.None? then h else Evaluated(OnesAfterZero(), h, cases[k].value.value));
    }
  }

  /** From case k on, the first thing evaluated is expression k. */
  lemma {:induction false} FallTells(w: World, direct: bool, s: Stmt, k: nat, h: History, fuel: nat)
    requires s.Switch? && k <= |s.cases| && forall j :: 0 <= j < |s.cases| ==> s.cases[j].code == Effect(j)
    ensures var out := Fall(w, direct, s, k, h, fuel);
      && h <= out.history && !out.Broke?
      && (k < |s.cases| && !(direct && Dropped(s.cases, k)) ==> |out.history| > |h| && out.history[|h|].expr == k)
    decreases fuel, |s.cases| - k
  {
    if k < |s.cases| && !(direct && Dropped(s.cases, k)) {
      var h1 := Evaluated(w, h, k);
      var f := FollowerBefore(s.cases, |s.cases|);
      if direct && s.cases[k].value.None? {
        if f.Some? && f.value > k {
          FallTells(w, direct, s, f.value, h1, fuel);
        } else if f.Some? && fuel > 0 {
          FallTells(w, direct, s, f.value, h1, fuel - 1);
        }
      } else {
        FallTells(w, direct, s, k + 1, h1, fuel);
      }
    }
  }

  lemma FirstIsNotLast(cases: seq<Case>)
    requires !AtMostOneDefault(cases)
    ensures DefaultFor(false, cases) < DefaultFor(true, cases) < |cases| && !Dropped(cases, DefaultFor(true, cases))
  {
    var j, k :| 0 <= j < k < |cases| && cases[j].value.None? && cases[k].value.None?;
    assert DefaultOf(cases) <= j;
    DefaultBeforeIsLast(cases, |cases|, k);
  }

  lemma SameDefaults(values: seq<Option<nat>>, cases: seq<Case>)
    requires |cases| == |values| && forall k :: 0 <= k < |values| ==> cases[k].value == values[k]
    ensures AtMostOneDefault(cases) <==> OneDefaultAmong(values)
  {
    if j, k :| 0 <= j < k < |cases| && cases[j].value.None? && cases[k].value.None? {
      assert values[j].None? && values[k].None?;
    }
    if j, k :| 0 <= j < k < |values| && values[j].None? && values[k].None? {
      assert cases[j].value.None? && cases[k].value.None?;
    }
  }

  /** A switch whose subject equals no case runs its default. */
  lemma RunsDefault(direct: bool, s: Stmt)
    requires s.Switch? && s.cases != []
    ensures var h1 := Evaluated(OnesAfterZero(), [], s.subject);
      var h2 := Select(OnesAfterZero(), s.cases, 0, 0, h1).1;
      Exec(OnesAfterZero(), direct, s, [], 0) == LeaveSwitch(Fall(OnesAfterZero(), direct, s, DefaultFor(direct, s.cases), h2, 0))
  {
    hide Fall, DefaultFor;
    NothingSelected(s.cases, 0, Evaluated(OnesAfterZero(), [], s.subject));
  }

  lemma FirstDiffers(s: Stmt)
    requires s.Switch? && !AtMostOneDefault(s.cases) && forall j :: 0 <= j < |s.cases| ==> s.cases[j].code == Effect(j)
    ensures Exec(OnesAfterZero(), true, s, [], 0) != Exec(OnesAfterZero(), false, s, [], 0)
  {
    FirstIsNotLast(s.cases);
    hide *;
    var w := OnesAfterZero();
    var h2 := Select(w, s.cases, 0, 0, Evaluated(w, [], s.subject)).1;
    RunsDefault(true, s);
    RunsDefault(false, s);
    var a, b := Fall(w, true, s, DefaultFor(true, s.cases), h2, 0), Fall(w, false, s, DefaultFor(false, s.cases), h2, 0);
    FallTells(w, true, s, DefaultFor(true, s.cases), h2, 0);
    FallTells(w, false, s, DefaultFor(false, s.cases), h2, 0);
    LeavesHistory(a);
    LeavesHistory(b);
  }

  lemma LeavesHistory(o: Outcome)
    ensures LeaveSwitch(o).history == o.history
  {
  }

  lemma TwoDefaultsDiffer(subject: nat, values: seq<Option<nat>>)
    requires !OneDefaultAmong(values)
    ensures !AlwaysRight(subject, values)
  {
    var w, codes := OnesAfterZero(), Telling(|values|);
    var s := Made(subject, values, codes);
    assert forall k :: 0 <= k < |values| ==> s.cases[k].value == values[k] && s.cases[k].code == Effect(k);
    assert forall c :: c in codes ==> NeverBoth(c) && NeverTwo(c);
    hide Exec, OnesAfterZero, Telling;
    SameDefaults(values, s.cases);
    FirstDiffers(s);
  }

  /** A switch is generated as it is written, whatever the code of its cases, if and only if it has at most one default. */
  lemma SwitchRightIff(subject: nat, values: seq<Option<nat>>)
    ensures AlwaysRight(subject, values) <==> OneDefaultAmong(values)
  {
    if OneDefaultAmong(values) {
      forall codes: seq<Stmt>, w: World, h, fuel | |codes| == |values| && forall c :: c in codes ==> NeverBoth(c) && NeverTwo(c)
        ensures Exec(w, true, Made(subject, values, codes), h, fuel) == Exec(w, false, Made(subject, values, codes), h, fuel)
      {
        WaysAgree(w, Made(subject, values, codes), h, fuel);
      }
    } else {
      TwoDefaultsDiffer(subject, values);
    }
  }

  /** Case 1 evaluates expression 11, and two defaults evaluate 12 and 13. */
  const TWO_DEFAULTS := Switch(0, [Case(Some(1), Effect(11)), Case(None, Effect(12)), Case(None, Effect(13))])

  /** What is written falls through both defaults; what is generated gets lost after the code of case 1. */
  lemma TwoDefaultsLose(w: World, h: History)
    requires w(h, 0) == w(Evaluated(w, h, 0), 1)
    ensures var h2 := Evaluated(w, Evaluated(w, h, 0), 1);
      var h3 := Evaluated(w, h2, 11);
      && Exec(w, false, TWO_DEFAULTS, h, 0) == Done(Evaluated(w, Evaluated(w, h3, 12), 13))
      && Exec(w, true, TWO_DEFAULTS, h, 0) == Lost(h3)
  {
    var s, h2 := TWO_DEFAULTS, Evaluated(w, Evaluated(w, h, 0), 1);
    var h3 := Evaluated(w, h2, 11);
    assert Select(w, s.cases, 0, w(h, 0), Evaluated(w, h, 0)) == (0, h2);
    assert DefaultBefore(s.cases, 3) == Some(2) && Dropped(s.cases, 1);
    assert Fall(w, true, s, 1, h3, 0) == Lost(h3);
    assert Fall(w, false, s, 2, Evaluated(w, h3, 12), 0) == Done(Evaluated(w, Evaluated(w, h3, 12), 13));
    assert Fall(w, false, s, 1, h3, 0) == Done(Evaluated(w, Evaluated(w, h3, 12), 13));
  }
}
