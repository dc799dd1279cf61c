// The loops that can be written: while and until, do-while, and for.

module LoopForms {
  import opened Wrappers
  import opened Structured

  function WhileLoop(cond: Cond, ifNot: bool, body: Option<Stmt>): Stmt {
    Loop(None, Some(cond), ifNot, None, false, None, body)
  }

  function DoLoop(cond: Cond, ifNot: bool, body: Option<Stmt>): Stmt {
    Loop(None, None, false, Some(cond), ifNot, None, body)
  }

  /** Each of the three parts may be missing. */
  function ForLoop(init: Option<nat>, cond: Option<Cond>, ifNot: bool, increment: Option<nat>, body: Option<Stmt>): Stmt {
    Loop(init, cond, ifNot, None, false, increment, body)
  }

  /** The loop is of one of the three forms. */
  predicate WrittenLoop(s: Stmt)
    requires s.Loop?
  {
    || (s.pre.Some? && s == WhileLoop(s.pre.value, s.preNot, s.inside))
    || (s.post.Some? && s == DoLoop(s.post.value, s.postNot, s.inside))
    || s == ForLoop(s.init, s.pre, s.preNot, s.increment, s.inside)
  }

  /** A statement that can be written. */
  predicate Written(s: Stmt)
    decreases s
  {
    match s
    case Block(body) => forall k :: 0 <= k < |body| ==> Written(body[k])
    case If(_, a, b) => (a.Some? ==> Written(a.value)) && (b.Some? ==> Written(b.value))
    case Loop(_, _, _, _, _, _, inside) => WrittenLoop(s) && (inside.Some? ==> Written(inside.value))
    case Switch(_, cases) => forall k :: 0 <= k < |cases| ==> Written(cases[k].code)
    case _ => true
  }

  /** No loop that can be written has both a closing condition and an increment. */
  lemma {:induction false} WrittenNeverBoth(s: Stmt)
    requires Written(s)
    ensures NeverBoth(s)
    decreases s
  {
    match s
    case Block(body) =>
      forall k | 0 <= k < |body| ensures NeverBoth(body[k]) {
        WrittenNeverBoth(body[k]);
      }
    case If(_, a, b) =>
      if a.Some? {
        WrittenNeverBoth(a.value);
      }
      if b.Some? {
        WrittenNeverBoth(b.value);
      }
    case Loop(_, _, _, _, _, _, inside) =>
      if inside.Some? {
        WrittenNeverBoth(inside.value);
      }
    case Switch(_, cases) =>
      forall k | 0 <= k < |cases| ensures NeverBoth(cases[k].code) {
        WrittenNeverBoth(cases[k].code);
      }
    case _ =>
  }

  /** So such a statement is generated as it is written, unless a switch in it has two defaults. */
  lemma WrittenIsGenerated(w: World, s: Stmt, h: History, fuel: nat)
    requires Written(s) && NeverTwo(s)
    ensures Exec(w, true, s, h, fuel) == Exec(w, false, s, h, fuel)
  {
    WrittenNeverBoth(s);
    WaysAgree(w, s, h, fuel);
  }
}
