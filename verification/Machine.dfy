/** Control-flow graphs and the way generated code takes through one.  A block
  * holds statements; the branch at its end is chosen from its successor list
  * and its last statement alone.  Expressions have the values of `Ast.Eval`.
  */
module Machine {
  import opened Wrappers
  import opened Ast

  datatype Block = Block(stmts: seq<Stmt>, succs: seq<nat>, preds: seq<nat>)

  const EMPTY_BLOCK := Block([], [], [])

  predicate EndsWithControlFlow(stmts: seq<Stmt>) {
    stmts != [] && match stmts[|stmts| - 1] {
      case Return => true
      case Break => true
      case Loop => true
      case Endcase => true
      case ConditionalBranch(_, _) => true
      case _ => false
    }
  }

  /** Where control goes at the end of a block. */
  datatype Exit = Goto(target: nat) | Leave | FallOff | Throw

  function Pick(succs: seq<nat>, k: nat): Exit {
    if k < |succs| then Goto(succs[k]) else Throw
  }

  function SwitchExit(cases: seq<Case>, hasDefault: bool, succs: seq<nat>, v: Word): Exit {
    var k := FirstCase(cases, v);
    if k < |cases| || hasDefault then Pick(succs, k)
    else if succs == [] then Throw
    else Goto(succs[|succs| - 1])
  }

  function BlockExit(b: Block, s: Store): Exit {
    if b.succs == [] then
      if EndsWithControlFlow(b.stmts) then FallOff else Leave
    else if |b.succs| == 1 then Goto(b.succs[0])
    else if b.stmts == [] then Throw
    else match b.stmts[|b.stmts| - 1] {
      case If(c, _) =>
        if |b.succs| != 2 then Throw
        else if Eval(c, s) == 0 then Goto(b.succs[1]) else Goto(b.succs[0])
      case ConditionalBranch(code, c) =>
        if |b.succs| != 2 then Throw
        else if (Eval(c, s) == 0) == code.EQ? then Goto(b.succs[1]) else Goto(b.succs[0])
      case For(x, _, end, _, _) =>
        if |b.succs| != 2 then Throw
        else if Lookup(s, x) > Eval(end, s) then Goto(b.succs[1]) else Goto(b.succs[0])
      case Switchon(e, cases, d) => SwitchExit(cases, d.Some?, b.succs, Eval(e, s))
      case _ => Throw
    }
  }

  /** A branch on EQ leaves the first successor when the value is zero, one on NE when it is not. */
  lemma ConditionalBranches(e: Expr, taken: nat, other: nat, preds: seq<nat>, s: Store)
    ensures BlockExit(Block([ConditionalBranch(EQ, e)], [other, taken], preds), s) == Goto(if Eval(e, s) == 0 then taken else other)
    ensures BlockExit(Block([ConditionalBranch(NE, e)], [other, taken], preds), s) == Goto(if Eval(e, s) == 0 then other else taken)
  {
    hide Eval;
  }

  datatype Config =
    | At(block: nat, pos: nat, store: Store)
    | Done(store: Store)
    | Fell(store: Store)
    | Threw

  /** The code emitted for one statement inside a block; branching statements emit nothing here. */
  function Effect(c: Stmt, s: Store): Store {
    match c
    case Assign(xs, es) => StoreAll(s, xs, EvalAll(es, s))
    case Let(xs, es) => StoreAll(s, xs, EvalAll(es, s))
    case _ => s
  }

  function Follow(x: Exit, s: Store): Config {
    match x
    case Goto(t) => At(t, 0, s)
    case Leave => Done(s)
    case FallOff => Fell(s)
    case Throw => Threw
  }

  function Step(g: seq<Block>, c: Config): Config {
    if !c.At? then c
    else if c.block >= |g| then Threw
    else
      var b := g[c.block];
      if c.pos < |b.stmts| then
        if b.stmts[c.pos].Return? then Done(c.store)
        else At(c.block, c.pos + 1, Effect(b.stmts[c.pos], c.store))
      else Follow(BlockExit(b, c.store), c.store)
  }

  function Run(g: seq<Block>, c: Config, n: nat): Config
    decreases n
  {
    if n == 0 then c else Run(g, Step(g, c), n - 1)
  }

  lemma {:induction false} RunAdd(g: seq<Block>, c: Config, m: nat, n: nat)
    ensures Run(g, c, m + n) == Run(g, Run(g, c, m), n)
    decreases m
  {
    if m > 0 {
      RunAdd(g, Step(g, c), m - 1, n);
    }
  }

  lemma {:induction false} RunStuck(g: seq<Block>, c: Config, n: nat)
    requires !c.At?
    ensures Run(g, c, n) == c
    decreases n
  {
    if n > 0 {
      RunStuck(g, c, n - 1);
    }
  }
}
