// The statements of a function body and what running them means, with no
// reference to basic blocks.

module Structured {
  import opened Wrappers

  /** Expressions are opaque: all that is known of one is what it yielded, and in which order they were evaluated. */
  datatype Event = Event(expr: nat, value: int)

  type History = seq<Event>

  /** What an expression yields may depend on everything evaluated before it. */
  type World = (History, nat) -> int

  datatype Cond = Literal(value: int) | Computed(expr: nat)

  datatype Stmt =
    | Effect(expr: nat)
    | Block(body: seq<Stmt>)
    | If(cond: Cond, onTrue: Option<Stmt>, onFalse: Option<Stmt>)
    | Loop(init: Option<nat>, pre: Option<Cond>, preNot: bool, post: Option<Cond>, postNot: bool,
           increment: Option<nat>, inside: Option<Stmt>)
    | Break(levels: nat)
    | Continue(levels: nat)
    | Return(operand: Option<nat>)
    | Switch(subject: nat, cases: seq<Case>)

  /** A case without a value is the default. */
  datatype Case = Case(value: Option<nat>, code: Stmt)

  /**
   * How a statement ends; Cut says that a loop ran out of the rounds it was granted, Lost that
   * control came to code that is never generated.
   */
  datatype Outcome =
    | Done(history: History)
    | Broke(levels: nat, history: History)
    | Continued(levels: nat, history: History)
    | Returned(history: History)
    | Cut(history: History)
    | Lost(history: History)

  function Evaluated(w: World, h: History, e: nat): History {
    h + [Event(e, w(h, e))]
  }

  function MaybeEvaluated(w: World, h: History, e: Option<nat>): History {
    if e.Some? then Evaluated(w, h, e.value) else h
  }

  predicate Truth(w: World, h: History, c: Cond) {
    match c
    case Literal(value) => value != 0
    case Computed(e) => w(h, e) != 0
  }

  function Tested(w: World, h: History, c: Cond): History {
    match c
    case Literal(_) => h
    case Computed(e) => Evaluated(w, h, e)
  }

  function Width(s: Stmt): nat {
    match s
    case Block(body) => |body|
    case Switch(_, cases) => |cases|
    case _ => 0
  }

  /** A switch ends the innermost break, and lets every continue pass. */
  function LeaveSwitch(out: Outcome): Outcome {
    match out
    case Broke(n, h) => if n == 0 then Done(h) else Broke(n - 1, h)
    case _ => out
  }

  /**
   * The meaning of a statement, with fuel bounding the rounds of every loop: as it is written or,
   * when direct is set, as it is generated. As it is generated, a continue in a loop that has a
   * closing condition goes straight to that condition and skips the increment, and of several
   * defaults of a switch only the last one has code.
   */
  function Exec(w: World, direct: bool, s: Stmt, h: History, fuel: nat): Outcome
    decreases fuel, s, Width(s) + 2
  {
    match s
    case Effect(e) => Done(Evaluated(w, h, e))
    case Block(body) => ExecFirst(w, direct, s, |body|, h, fuel)
    case If(c, a, b) =>
      var h1 := Tested(w, h, c);
      var taken := if Truth(w, h, c) then a else b;
      if taken.Some? then Exec(w, direct, taken.value, h1, fuel) else Done(h1)
    case Loop(init, _, _, _, _, _, _) => Round(w, direct, s, MaybeEvaluated(w, h, init), fuel)
    case Break(n) => Broke(n, h)
    case Continue(n) => Continued(n, h)
    case Return(e) => Returned(MaybeEvaluated(w, h, e))
    case Switch(e, cases) =>
      var h1 := Evaluated(w, h, e);
      if cases == [] then Done(h1) else
      var (found, h2) := Select(w, cases, 0, w(h, e), h1);
      var k := if found < |cases| then found else DefaultFor(direct, cases);
      LeaveSwitch(Fall(w, direct, s, k, h2, fuel))
  }

  /** The first k statements of a block, in order, until one of them does not end normally. */
  function ExecFirst(w: World, direct: bool, s: Stmt, k: nat, h: History, fuel: nat): Outcome
    requires s.Block? && k <= |s.body|
    decreases fuel, s, k
  {
    if k == 0 then Done(h) else
    var out := ExecFirst(w, direct, s, k - 1, h, fuel);
    if out.Done? then Exec(w, direct, s.body[k - 1], out.history, fuel) else out
  }

  /** One round of a loop and those after it. */
  function Round(w: World, direct: bool, s: Stmt, h: History, fuel: nat): Outcome
    requires s.Loop?
    decreases fuel, s, 1
  {
    var h1 := if s.pre.Some? then Tested(w, h, s.pre.value) else h;
    if s.pre.Some? && Truth(w, h, s.pre.value) == s.preNot then Done(h1) else
    var out := if s.inside.Some? then Exec(w, direct, s.inside.value, h1, fuel) else Done(h1);
    match out
    case Done(h2) => Close(w, direct, s, MaybeEvaluated(w, h2, s.increment), fuel)
    case Broke(n, h2) => if n == 0 then Done(h2) else Broke(n - 1, h2)
    case Continued(n, h2) =>
      if n > 0 then Continued(n - 1, h2)
      else Close(w, direct, s, if direct && s.post.Some? then h2 else MaybeEvaluated(w, h2, s.increment), fuel)
    case _ => out
  }

  /** The closing condition, and the next round if there is to be one. */
  function Close(w: World, direct: bool, s: Stmt, h: History, fuel: nat): Outcome
    requires s.Loop?
    decreases fuel, s, 0
  {
    var h1 := if s.post.Some? then Tested(w, h, s.post.value) else h;
    if s.post.Some? && Truth(w, h, s.post.value) == s.postNot then Done(h1)
    else if fuel == 0 then Cut(h1)
    else Round(w, direct, s, h1, fuel - 1)
  }

  /** The first case from k on whose value equals v, or the number of cases; later values are not evaluated. */
  function Select(w: World, cases: seq<Case>, k: nat, v: int, h: History): (r: (nat, History))
    requires k <= |cases|
    ensures k <= r.0 <= |cases| && (r.0 < |cases| ==> cases[r.0].value.Some?)
    decreases |cases| - k
  {
    if k == |cases| then (k, h)
    else if cases[k].value.None? then Select(w, cases, k + 1, v, h)
    else
      var e := cases[k].value.value;
      var h1 := Evaluated(w, h, e);
      if v == w(h, e) then (k, h1) else Select(w, cases, k + 1, v, h1)
  }

  /** The history once the values of cases k to n - 1 have been evaluated, one after the other. */
  function Asked(w: World, cases: seq<Case>, k: nat, n: nat, h: History): History
    requires k <= n <= |cases|
    decreases n
  {
    if n == k then h
    else
      var h1 := Asked(w, cases, k, n - 1, h);
      if cases[n - 1].value.None? then h1 else Evaluated(w, h1, cases[n - 1].value.value)
  }

  lemma {:induction false} AskedFront(w: World, cases: seq<Case>, k: nat, n: nat, h: History)
    requires k < n <= |cases|
    ensures Asked(w, cases, k, n, h) == Asked(w, cases, k + 1, n, Asked(w, cases, k, k + 1, h))
    decreases n
  {
    if k + 1 < n {
      AskedFront(w, cases, k, n - 1, h);
    }
  }

  /** Case j has a value, and when it is that value's turn it is v. */
  predicate Meets(w: World, cases: seq<Case>, k: nat, j: nat, v: int, h: History)
    requires k <= j < |cases|
  {
    cases[j].value.Some? && v == w(Asked(w, cases, k, j, h), cases[j].value.value)
  }

  lemma MeetsFront(w: World, cases: seq<Case>, k: nat, j: nat, v: int, h: History)
    requires k < j < |cases|
    ensures Meets(w, cases, k, j, v, h) <==> Meets(w, cases, k + 1, j, v, Asked(w, cases, k, k + 1, h))
  {
    AskedFront(w, cases, k, j, h);
  }

  /** The case selected is the first that meets v, wherever defaults stand, and nothing behind it is evaluated. */
  lemma {:induction false} SelectsFirst(w: World, cases: seq<Case>, k: nat, v: int, h: History)
    requires k <= |cases|
    ensures var (found, h2) := Select(w, cases, k, v, h);
      && (forall j :: k <= j < found ==> !Meets(w, cases, k, j, v, h))
      && (if found < |cases| then Meets(w, cases, k, found, v, h) && h2 == Asked(w, cases, k, found + 1, h)
          else h2 == Asked(w, cases, k, |cases|, h))
    decreases |cases| - k
  {
    if k < |cases| && !Meets(w, cases, k, k, v, h) {
      var h1 := Asked(w, cases, k, k + 1, h);
      assert Asked(w, cases, k, k, h) == h;
      SelectsFirst(w, cases, k + 1, v, h1);
      var (found, h2) := Select(w, cases, k, v, h);
      assert (found, h2) == Select(w, cases, k + 1, v, h1);
      forall j | k <= j < found ensures !Meets(w, cases, k, j, v, h) {
        if j > k {
          MeetsFront(w, cases, k, j, v, h);
        }
      }
      if found < |cases| {
        MeetsFront(w, cases, k, found, v, h);
        AskedFront(w, cases, k, found + 1, h);
      } else {
        AskedFront(w, cases, k, |cases|, h);
      }
    }
  }

  /** The position of the first default, or the number of cases. */
  function DefaultOf(cases: seq<Case>): (k: nat)
    ensures k <= |cases| && (k < |cases| ==> cases[k].value.None?)
    ensures forall j :: 0 <= j < k ==> cases[j].value.Some?
  {
    if cases == [] || cases[0].value.None? then 0 else 1 + DefaultOf(cases[1..])
  }

  /** The position of the last default among the first n cases. */
  function DefaultBefore(cases: seq<Case>, n: nat): (d: Option<nat>)
    requires n <= |cases|
    ensures d.Some? ==> d.value < n && cases[d.value].value.None?
  {
    if n == 0 then None else if cases[n - 1].value.None? then Some(n - 1) else DefaultBefore(cases, n - 1)
  }

  /** The last of the first n cases that has a value and comes right after a default. */
  function FollowerBefore(cases: seq<Case>, n: nat): (f: Option<nat>)
    requires n <= |cases|
    ensures f.Some? ==> 0 < f.value < n && cases[f.value].value.Some? && cases[f.value - 1].value.None?
  {
    if n <= 1 then None
    else if cases[n - 1].value.Some? && cases[n - 2].value.None? then Some(n - 1)
    else FollowerBefore(cases, n - 1)
  }

  lemma {:induction false} DefaultBeforeIsLast(cases: seq<Case>, n: nat, j: nat)
    requires j < n <= |cases| && cases[j].value.None?
    ensures DefaultBefore(cases, n).Some? && DefaultBefore(cases, n).value >= j
    decreases n
  {
    if j < n - 1 {
      DefaultBeforeIsLast(cases, n - 1, j);
    }
  }

  lemma {:induction false} FollowerBeforeIsLast(cases: seq<Case>, n: nat, j: nat)
    requires 0 < j < n <= |cases| && cases[j].value.Some? && cases[j - 1].value.None?
    ensures FollowerBefore(cases, n).Some? && FollowerBefore(cases, n).value >= j
    decreases n
  {
    if j < n - 1 {
      FollowerBeforeIsLast(cases, n - 1, j);
    }
  }

  /** Where control goes when no case is equal, or the number of cases. */
  function DefaultFor(direct: bool, cases: seq<Case>): (k: nat)
    ensures k <= |cases| && (k < |cases| ==> cases[k].value.None?)
  {
    if direct then
      var d := DefaultBefore(cases, |cases|);
      if d.Some? then d.value else |cases|
    else DefaultOf(cases)
  }

  /** A default that is not the last one. */
  predicate Dropped(cases: seq<Case>, k: nat) {
    k < |cases| && cases[k].value.None? && DefaultBefore(cases, |cases|) != Some(k)
  }

  /**
   * The code of the cases from k on, falling through from one to the next in source order. As it is
   * generated, the code of the last default falls into the case remembered last as following a
   * default, wherever that is.
   */
  function Fall(w: World, direct: bool, s: Stmt, k: nat, h: History, fuel: nat): Outcome
    requires s.Switch? && k <= |s.cases|
    decreases fuel, s, |s.cases| - k
  {
    if k == |s.cases| then Done(h)
    else if direct && Dropped(s.cases, k) then Lost(h)
    else
      var out := Exec(w, direct, s.cases[k].code, h, fuel);
      if !out.Done? then out
      else if direct && s.cases[k].value.None? then
        match FollowerBefore(s.cases, |s.cases|)
        case None => out
        case Some(j) =>
          if j > k then Fall(w, direct, s, j, out.history, fuel)
          else if fuel == 0 then Cut(out.history)
          else Fall(w, direct, s, j, out.history, fuel - 1)
      else Fall(w, direct, s, k + 1, out.history, fuel)
  }

  /** Breaks and continues stay inside the given numbers of enclosing statements. */
  predicate WellFormed(s: Stmt, breaks: nat, continues: nat)
    decreases s
  {
    match s
    case Effect(_) => true
    case Block(body) => forall k :: 0 <= k < |body| ==> WellFormed(body[k], breaks, continues)
    case If(_, a, b) => (a.Some? ==> WellFormed(a.value, breaks, continues)) && (b.Some? ==> WellFormed(b.value, breaks, continues))
    case Loop(_, _, _, _, _, _, inside) => inside.Some? ==> WellFormed(inside.value, breaks + 1, continues + 1)
    case Break(n) => n < breaks
    case Continue(n) => n < continues
    case Return(_) => true
    case Switch(_, cases) => forall k :: 0 <= k < |cases| ==> WellFormed(cases[k].code, breaks + 1, continues)
  }

  /** No loop has both a closing condition and an increment. */
  predicate NeverBoth(s: Stmt)
    decreases s
  {
    match s
    case Block(body) => forall k :: 0 <= k < |body| ==> NeverBoth(body[k])
    case If(_, a, b) => (a.Some? ==> NeverBoth(a.value)) && (b.Some? ==> NeverBoth(b.value))
    case Loop(_, _, _, post, _, increment, inside) => (post.None? || increment.None?) && (inside.Some? ==> NeverBoth(inside.value))
    case Switch(_, cases) => forall k :: 0 <= k < |cases| ==> NeverBoth(cases[k].code)
    case _ => true
  }

  predicate AtMostOneDefault(cases: seq<Case>) {
    forall j, k :: 0 <= j < k < |cases| && cases[j].value.None? ==> cases[k].value.Some?
  }

  /** No switch has two defaults. */
  predicate NeverTwo(s: Stmt)
    decreases s
  {
    match s
    case Block(body) => forall k :: 0 <= k < |body| ==> NeverTwo(body[k])
    case If(_, a, b) => (a.Some? ==> NeverTwo(a.value)) && (b.Some? ==> NeverTwo(b.value))
    case Loop(_, _, _, _, _, _, inside) => inside.Some? ==> NeverTwo(inside.value)
    case Switch(_, cases) => AtMostOneDefault(cases) && forall k :: 0 <= k < |cases| ==> NeverTwo(cases[k].code)
    case _ => true
  }

  lemma OnlyDefault(cases: seq<Case>, k: nat)
    requires AtMostOneDefault(cases) && k < |cases| && cases[k].value.None?
    ensures k == DefaultOf(cases)
  {
  }

  lemma OneDefaultIsLast(cases: seq<Case>)
    requires AtMostOneDefault(cases)
    ensures var d := DefaultOf(cases); DefaultBefore(cases, |cases|) == if d < |cases| then Some(d) else None
  {
    var d, b := DefaultOf(cases), DefaultBefore(cases, |cases|);
    if d < |cases| {
      DefaultBeforeIsLast(cases, |cases|, d);
    }
    hide DefaultOf, DefaultBefore;
    if b.Some? {
      OnlyDefault(cases, b.value);
    }
  }

  lemma OneFollower(cases: seq<Case>)
    requires AtMostOneDefault(cases)
    ensures var d := DefaultOf(cases); FollowerBefore(cases, |cases|) == if d + 1 < |cases| then Some(d + 1) else None
  {
    var d, f := DefaultOf(cases), FollowerBefore(cases, |cases|);
    if d + 1 < |cases| {
      assert cases[d + 1].value.Some?;
      FollowerBeforeIsLast(cases, |cases|, d + 1);
    }
    hide DefaultOf, FollowerBefore;
    if f.Some? {
      OnlyDefault(cases, f.value - 1);
    }
  }

  lemma OneDefault(cases: seq<Case>)
    requires AtMostOneDefault(cases)
    ensures DefaultFor(true, cases) == DefaultFor(false, cases) && forall k: nat :: !Dropped(cases, k)
    ensures FollowerBefore(cases, |cases|) == if DefaultOf(cases) + 1 < |cases| then Some(DefaultOf(cases) + 1) else None
  {
    OneDefaultIsLast(cases);
    OneFollower(cases);
    hide FollowerBefore, DefaultBefore, DefaultOf;
    forall k: nat | k < |cases| && cases[k].value.None? ensures k == DefaultOf(cases) {
      OnlyDefault(cases, k);
    }
  }

  /** Where no loop has both and no switch has two defaults, statements mean what is written. */
  lemma {:induction false} WaysAgree(w: World, s: Stmt, h: History, fuel: nat)
    requires NeverBoth(s) && NeverTwo(s)
    ensures Exec(w, true, s, h, fuel) == Exec(w, false, s, h, fuel)
    decreases fuel, s, Width(s) + 2
  {
    match s
    case Block(body) => FirstWaysAgree(w, s, |body|, h, fuel);
    case If(c, a, b) =>
      var taken := if Truth(w, h, c) then a else b;
      if taken.Some? {
        WaysAgree(w, taken.value, Tested(w, h, c), fuel);
      }
    case Loop(init, _, _, _, _, _, _) => RoundWaysAgree(w, s, MaybeEvaluated(w, h, init), fuel);
    case Switch(e, cases) =>
      if cases != [] {
        var (found, h2) := Select(w, cases, 0, w(h, e), Evaluated(w, h, e));
        OneDefault(cases);
        FallWaysAgree(w, s, if found < |cases| then found else DefaultOf(cases), h2, fuel);
      }
    case _ =>
  }

  lemma {:induction false} FirstWaysAgree(w: World, s: Stmt, k: nat, h: History, fuel: nat)
    requires s.Block? && NeverBoth(s) && NeverTwo(s) && k <= |s.body|
    ensures ExecFirst(w, true, s, k, h, fuel) == ExecFirst(w, false, s, k, h, fuel)
    decreases fuel, s, k
  {
    if k > 0 {
      FirstWaysAgree(w, s, k - 1, h, fuel);
      var out := ExecFirst(w, true, s, k - 1, h, fuel);
      if out.Done? {
        WaysAgree(w, s.body[k - 1], out.history, fuel);
      }
    }
  }

  lemma {:induction false} RoundWaysAgree(w: World, s: Stmt, h: History, fuel: nat)
    requires s.Loop? && NeverBoth(s) && NeverTwo(s)
    ensures Round(w, true, s, h, fuel) == Round(w, false, s, h, fuel)
    decreases fuel, s, 1
  {
    var h1 := if s.pre.Some? then Tested(w, h, s.pre.value) else h;
    if s.inside.Some? {
      WaysAgree(w, s.inside.value, h1, fuel);
    }
    var out := if s.inside.Some? then Exec(w, true, s.inside.value, h1, fuel) else Done(h1);
    CloseWaysAgree(w, s, MaybeEvaluated(w, out.history, s.increment), fuel);
    CloseWaysAgree(w, s, out.history, fuel);
  }

  lemma {:induction false} CloseWaysAgree(w: World, s: Stmt, h: History, fuel: nat)
    requires s.Loop? && NeverBoth(s) && NeverTwo(s)
    ensures Close(w, true, s, h, fuel) == Close(w, false, s, h, fuel)
    decreases fuel, s, 0
  {
    if fuel > 0 {
      RoundWaysAgree(w, s, if s.post.Some? then Tested(w, h, s.post.value) else h, fuel - 1);
    }
  }

  lemma {:induction false} FallWaysAgree(w: World, s: Stmt, k: nat, h: History, fuel: nat)
    requires s.Switch? && NeverBoth(s) && NeverTwo(s) && k <= |s.cases|
    ensures Fall(w, true, s, k, h, fuel) == Fall(w, false, s, k, h, fuel)
    decreases fuel, s, |s.cases| - k
  {
    if k < |s.cases| {
      OneDefault(s.cases);
      WaysAgree(w, s.cases[k].code, h, fuel);
      var out := Exec(w, true, s.cases[k].code, h, fuel);
      if out.Done? {
        FallWaysAgree(w, s, k + 1, out.history, fuel);
      }
    }
  }

  /** A loop with both, and a continue inside: the increment is lost on the direct way. */
  lemma BothWaysDiffer(w: World)
    requires w([], 1) == 0 && w([Event(2, w([], 2))], 1) == 0
    ensures var s := Loop(None, None, false, Some(Computed(1)), false, Some(2), Some(Continue(0)));
      && Exec(w, true, s, [], 0) == Done([Event(1, 0)])
      && Exec(w, false, s, [], 0) == Done([Event(2, w([], 2)), Event(1, 0)])
  {
    var s := Loop(None, None, false, Some(Computed(1)), false, Some(2), Some(Continue(0)));
    assert Exec(w, true, Continue(0), [], 0) == Continued(0, []) == Exec(w, false, Continue(0), [], 0);
    var h := Evaluated(w, [], 2);
    assert h == [Event(2, w([], 2))];
    assert Tested(w, h, Computed(1)) == [Event(2, w([], 2)), Event(1, 0)];
    assert Tested(w, [], Computed(1)) == [Event(1, 0)];
    assert MaybeEvaluated(w, [], s.init) == [];
    assert Close(w, true, s, [], 0) == Done([Event(1, 0)]);
  }
}
