/** What a structured statement means, independently of any control-flow graph. */
module StructuredSemantics {
  import opened Wrappers
  import opened Ast

  datatype Outcome =
    | Normal(store: Store)
    | Broke(store: Store)
    | Looped(store: Store)
    | Ended(store: Store)
    | Returned(store: Store)
    | Timeout

  /** `fuel` bounds the loop iterations; running out of it is `Timeout`. */
  function Exec(c: Stmt, s: Store, fuel: nat): Outcome
    decreases fuel, c, 1
  {
    match c
    case Assign(xs, es) => Normal(StoreAll(s, xs, EvalAll(es, s)))
    case Let(xs, es) => Normal(Declare(s, xs, es))
    case If(e, t) => if Eval(e, s) != 0 then Exec(t, s, fuel) else Normal(s)
    case For(x, start, _, _, _) => Iterate(c, s[x := Eval(start, s)], fuel)
    case Switchon(e, cases, d) =>
      var k := FirstCase(cases, Eval(e, s));
      if k < |cases| then LeaveSwitch(Exec(cases[k].command, s, fuel))
      else if d.Some? then LeaveSwitch(Exec(d.value, s, fuel))
      else Normal(s)
    case Compound(cs) => ExecAll(cs, s, fuel)
    case Break => Broke(s)
    case Loop => Looped(s)
    case Endcase => Ended(s)
    case Return => Returned(s)
    case ConditionalBranch(_, _) => Normal(s)
  }

  /** Declared names get their values one after another. */
  function Declare(s: Store, xs: seq<string>, es: seq<Expr>): Store
    decreases |xs|
  {
    if xs == [] || es == [] then s
    else Declare(s[xs[0] := Eval(es[0], s)], xs[1..], es[1..])
  }

  function LeaveSwitch(o: Outcome): Outcome {
    if o.Ended? then Normal(o.store) else o
  }

  function ExecAll(cs: seq<Stmt>, s: Store, fuel: nat): Outcome
    decreases fuel, cs, 0
  {
    if cs == [] then Normal(s)
    else
      var o := Exec(cs[0], s, fuel);
      if o.Normal? then ExecAll(cs[1..], o.store, fuel) else o
  }

  /** What is added to the loop variable after a turn: one, unless a step is given. */
  function Stride(step: Option<Expr>, s: Store): Word {
    match step
    case None => 1
    case Some(e) => Eval(e, s)
  }

  /** The store in which the loop `c` is tested again after a turn. */
  function NextTurn(c: Stmt, s: Store): Store
    requires c.For?
  {
    s[c.variable := Wrap(Lookup(s, c.variable) + Stride(c.step, s))]
  }

  /** The loop `c` from its test onwards. */
  function Iterate(c: Stmt, s: Store, fuel: nat): Outcome
    requires c.For?
    decreases fuel, c, 0
  {
    if fuel == 0 then Timeout
    else if Lookup(s, c.variable) > Eval(c.end, s) then Normal(s)
    else
      var o := Exec(c.body, s, fuel - 1);
      if o.Normal? || o.Looped? then Iterate(c, NextTurn(c, o.store), fuel - 1)
      else if o.Broke? then Normal(o.store)
      else o
  }
}
