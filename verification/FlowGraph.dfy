// Basic blocks, the graph they form while it is being built, and a machine
// that runs it.

module FlowGraph {
  import opened Structured

  // Every temporary is written by one instruction of the graph.
  datatype Instr =
    | Eval(dest: nat, expr: nat)
    | Constant(dest: nat, value: int)
    | Equal(dest: nat, left: nat, right: nat)

  // A block is final once it has an exit. Abandoned is no exit: it marks an open block that the
  // generator has lost sight of, and that will therefore never get one.
  datatype Exit = Open | Abandoned | Jump(to: nat) | Branch(temp: nat, yes: nat, no: nat) | Leave

  datatype BasicBlock = BasicBlock(code: seq<Instr>, exit: Exit, entries: seq<nat>)

  type Graph = seq<BasicBlock>

  datatype Point = Point(block: nat, pos: nat)

  datatype Config =
    | At(block: nat, pos: nat, temps: map<nat, int>, history: History)
    | Halted(history: History)
    | Stuck

  function Read(temps: map<nat, int>, t: nat): int {
    if t in temps then temps[t] else 0
  }

  function Perform(w: World, i: Instr, c: Config): Config
    requires c.At?
  {
    match i
    case Eval(t, e) => At(c.block, c.pos + 1, c.temps[t := w(c.history, e)], Evaluated(w, c.history, e))
    case Constant(t, v) => At(c.block, c.pos + 1, c.temps[t := v], c.history)
    case Equal(t, a, b) => At(c.block, c.pos + 1, c.temps[t := if Read(c.temps, a) == Read(c.temps, b) then 1 else 0], c.history)
  }

  /** One instruction or one exit. Running off an open block gets the machine stuck. */
  function Step(w: World, g: Graph, c: Config): Config {
    if !c.At? then c
    else if c.block >= |g| then Stuck
    else if c.pos < |g[c.block].code| then Perform(w, g[c.block].code[c.pos], c)
    else match g[c.block].exit
      case Open | Abandoned => Stuck
      case Jump(t) => At(t, 0, c.temps, c.history)
      case Branch(t, yes, no) => At(if Read(c.temps, t) != 0 then yes else no, 0, c.temps, c.history)
      case Leave => Halted(c.history)
  }

  function Run(w: World, g: Graph, c: Config, n: nat): Config
    decreases n
  {
    if n == 0 then c else Run(w, g, Step(w, g, c), n - 1)
  }

  lemma {:induction false} RunAdds(w: World, g: Graph, c: Config, n: nat, m: nat)
    ensures Run(w, g, c, n + m) == Run(w, g, Run(w, g, c, n), m)
    decreases n
  {
    if n > 0 {
      RunAdds(w, g, Step(w, g, c), n - 1, m);
    }
  }

  lemma {:induction false} EndsForGood(w: World, g: Graph, c: Config, n: nat)
    requires !c.At?
    ensures Run(w, g, c, n) == c
    decreases n
  {
    if n > 0 {
      EndsForGood(w, g, Step(w, g, c), n - 1);
    }
  }

  /** What has stopped after n steps looks the same after any larger number. */
  lemma StopsOnce(w: World, g: Graph, c: Config, n: nat, m: nat)
    requires !Run(w, g, c, n).At? && !Run(w, g, c, m).At?
    ensures Run(w, g, c, n) == Run(w, g, c, m)
  {
    if n <= m {
      RunAdds(w, g, c, n, m - n);
      EndsForGood(w, g, Run(w, g, c, n), m - n);
    } else {
      RunAdds(w, g, c, m, n - m);
      EndsForGood(w, g, Run(w, g, c, m), n - m);
    }
  }

  predicate Leads(w: World, g: Graph, c: Config, n: nat, b: nat, i: nat, h: History) {
    var d := Run(w, g, c, n);
    d.At? && d.block == b && d.pos == i && d.history == h
  }

  ghost predicate Reaches(w: World, g: Graph, c: Config, least: nat, b: nat, i: nat, h: History) {
    exists n: nat :: n >= least && Leads(w, g, c, n, b, i, h)
  }

  ghost predicate Halts(w: World, g: Graph, c: Config, h: History) {
    exists n: nat :: Run(w, g, c, n) == Halted(h)
  }

  predicate Going(w: World, g: Graph, c: Config, n: nat, h: History) {
    var d := Run(w, g, c, n);
    d.At? && d.history == h
  }

  ghost predicate Lasts(w: World, g: Graph, c: Config, fuel: nat, h: History) {
    exists n: nat :: n >= fuel && Going(w, g, c, n, h)
  }

  /** The machine has come to the end of an abandoned block. */
  predicate Strays(w: World, g: Graph, c: Config, n: nat, h: History) {
    var d := Run(w, g, c, n);
    d.At? && d.block < |g| && d.pos == |g[d.block].code| && g[d.block].exit.Abandoned? && d.history == h
  }

  ghost predicate GetsLost(w: World, g: Graph, c: Config, h: History) {
    exists n: nat :: Strays(w, g, c, n, h)
  }

  lemma StraysStuck(w: World, g: Graph, c: Config, n: nat, h: History)
    requires Strays(w, g, c, n, h)
    ensures Run(w, g, c, n + 1) == Stuck
  {
    RunAdds(w, g, c, n, 1);
    var d := Run(w, g, c, n);
    assert Run(w, g, d, 1) == Run(w, g, Step(w, g, d), 0);
  }

  /** A block may still grow until it has its exit; who enters it may be added at any time. */
  predicate Grown(x: BasicBlock, y: BasicBlock) {
    if x.exit.Open? then x.code <= y.code else y.code == x.code && y.exit == x.exit
  }

  ghost predicate Extends(g: Graph, later: Graph) {
    |g| <= |later| && forall b :: 0 <= b < |g| ==> Grown(g[b], later[b])
  }

  lemma ExtendsOn(a: Graph, b: Graph, c: Graph)
    requires Extends(a, b) && Extends(b, c)
    ensures Extends(a, c)
  {
    forall k | 0 <= k < |a| ensures Grown(a[k], c[k]) {
      assert Grown(a[k], b[k]) && Grown(b[k], c[k]);
    }
  }

  /** Every exit leads to a block of the graph that lists it among its entries. */
  predicate EntersKnown(g: Graph, b: nat)
    requires b < |g|
  {
    match g[b].exit
    case Jump(t) => t < |g| && b in g[t].entries
    case Branch(_, y, n) => y < |g| && n < |g| && b in g[y].entries && b in g[n].entries
    case _ => true
  }

  predicate Entered(g: Graph) {
    forall b :: 0 <= b < |g| ==> EntersKnown(g, b)
  }

  /** Control is only ever in a block that was there at the start or that has entries. */
  lemma {:induction false} OnlyEntered(w: World, g: Graph, c: Config, n: nat)
    requires Entered(g) && c.At?
    ensures var d := Run(w, g, c, n); d.At? ==> d.block == c.block || (d.block < |g| && g[d.block].entries != [])
    decreases n
  {
    if n > 0 {
      RunAdds(w, g, c, n - 1, 1);
      var d := Run(w, g, c, n - 1);
      assert Run(w, g, d, 1) == Step(w, g, d);
      OnlyEntered(w, g, c, n - 1);
      if d.At? && d.block < |g| {
        assert EntersKnown(g, d.block);
      }
    }
  }
}
