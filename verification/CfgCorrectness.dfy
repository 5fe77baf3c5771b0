/** Running the graph built for a statement does what the statement means. */
module CfgCorrectness {
  import opened Wrappers
  import opened Ast
  import opened Machine
  import opened StructuredSemantics
  import opened CfgLowering
  import opened CfgShape

  /** A finished graph into which a builder state may still grow. */
  ghost predicate Fits(st: State, g: seq<Block>) {
    && |st.blocks| <= |g|
    && (forall i :: 0 <= i < |st.blocks| && IsClosed(st.blocks[i]) ==>
          g[i].stmts == st.blocks[i].stmts && g[i].succs == st.blocks[i].succs)
    && (st.current.Some? && st.current.value < |st.blocks| ==>
          st.blocks[st.current.value].stmts <= g[st.current.value].stmts)
  }

  lemma FitsClosed(a: State, g: seq<Block>, i: nat)
    requires Fits(a, g) && i < |a.blocks| && a.blocks[i].succs != []
    ensures i < |g| && g[i].stmts == a.blocks[i].stmts && g[i].succs == a.blocks[i].succs
  {
    EdgeCloses(a.blocks[i]);
  }

  lemma FitsGrows(a: State, b: State, g: seq<Block>)
    requires WellFormed(a) && Grows(a, b) && Fits(b, g)
    ensures Fits(a, g)
  {
    hide Shaped;
    forall i | 0 <= i < |a.blocks| && IsClosed(a.blocks[i])
      ensures g[i].stmts == a.blocks[i].stmts && g[i].succs == a.blocks[i].succs
    {
      assert Some(i) != a.current;
      assert IsClosed(b.blocks[i]);
    }
  }

  /** Closing the open block and going on elsewhere leaves every closed block as it was. */
  lemma FitsSettles(b: State, r: State, g: seq<Block>)
    requires |b.blocks| <= |r.blocks| && Fits(r, g)
    requires forall i :: 0 <= i < |b.blocks| && IsClosed(b.blocks[i]) ==>
               r.blocks[i].stmts == b.blocks[i].stmts && r.blocks[i].succs == b.blocks[i].succs
    requires b.current.Some? && b.current.value < |b.blocks| ==>
               var c := b.current.value;
               r.blocks[c].stmts == b.blocks[c].stmts && IsClosed(r.blocks[c])
    ensures Fits(b, g)
  {
    forall i | 0 <= i < |b.blocks| && IsClosed(b.blocks[i])
      ensures g[i].stmts == b.blocks[i].stmts && g[i].succs == b.blocks[i].succs
    {
      assert IsClosed(r.blocks[i]);
    }
  }

  lemma FitsFallInto(b: State, to: nat, next: Option<nat>, g: seq<Block>)
    requires WellFormed(b) && to < |b.blocks| && Fits(FallInto(b, to).(current := next), g)
    ensures Fits(b, g)
    ensures b.current.Some? ==> var c := b.current.value;
                                g[c].stmts == b.blocks[c].stmts && g[c].succs == [to]
  {
    var r := FallInto(b, to).(current := next);
    FallIntoKeeps(b, to);
    assert r.blocks == FallInto(b, to).blocks;
    hide FallInto, Shaped;
    FitsSettles(b, r, g);
    if b.current.Some? {
      assert IsClosed(r.blocks[b.current.value]);
    }
  }

  lemma FitsArms(a: State, b: State, lo: nat, hi: nat, g: seq<Block>)
    requires WellFormed(a) && a.current.None? && Pending(a, lo, hi) && ArmsKept(a, b, lo, hi) && Fits(b, g)
    ensures Fits(a, g)
  {
    forall i | 0 <= i < |a.blocks| && IsClosed(a.blocks[i])
      ensures g[i].stmts == a.blocks[i].stmts && g[i].succs == a.blocks[i].succs
    {
      assert !(lo <= i < hi);
      assert IsClosed(b.blocks[i]);
    }
  }

  // ----- what a run must show -----

  /** Where the run of a statement starts: at the end of the open block. */
  function Here(st: State): (nat, nat) {
    if st.current.Some? then (st.current.value, |CurrentStatements(st)|) else (0, 0)
  }

  function From(p: (nat, nat), s: Store): Config {
    At(p.0, p.1, s)
  }

  /** A jump lands on the innermost target; with no target the block falls off its end. */
  function Landing(targets: seq<nat>, s: Store): Config {
    if targets == [] then Fell(s) else At(targets[|targets| - 1], 0, s)
  }

  /** The run has got to `k` after `n` steps, and the statement has outcome `o`. */
  predicate Agrees(o: Outcome, k: Config, n: nat, fuel: nat, targets: State, next: Option<(nat, nat)>) {
    match o
    case Normal(t) => next.Some? && k == From(next.value, t)
    case Broke(t) => k == Landing(targets.breaks, t)
    case Looped(t) => k == Landing(targets.loops, t)
    case Ended(t) => k == Landing(targets.endcases, t)
    case Returned(t) => k == Done(t)
    case Timeout => k.At? && n >= fuel
  }

  function Next(st: State): Option<(nat, nat)> {
    if st.current.Some? then Some(Here(st)) else None
  }

  // ----- single blocks -----

  lemma RunZero(g: seq<Block>, k: Config)
    ensures Run(g, k, 0) == k
  {
  }

  lemma RunOne(g: seq<Block>, k: Config)
    ensures Run(g, k, 1) == Step(g, k)
  {
    assert Run(g, Step(g, k), 0) == Step(g, k);
  }

  lemma RunTwo(g: seq<Block>, k: Config)
    ensures Run(g, k, 2) == Step(g, Step(g, k))
  {
    RunOne(g, Step(g, k));
  }

  /** A jump statement at the end of its block. */
  lemma SimJump(st: State, c: Stmt, targets: seq<nat>, g: seq<Block>, s: Store)
    requires WellFormed(st) && st.current.Some? && (c.Break? || c.Loop? || c.Endcase?)
    requires targets == st.breaks || targets == st.loops || targets == st.endcases
    requires Fits(Jump(st, c, targets), g)
    ensures Run(g, From(Here(st), s), 2) == Landing(targets, s)
  {
    hide Shaped;
    var here := st.current.value;
    var r := Jump(st, c, targets);
    assert r.blocks[here].stmts == st.blocks[here].stmts + [c];
    assert IsClosed(r.blocks[here]);
    if targets != [] {
      assert targets[|targets| - 1] in targets;
      assert r.blocks[here].succs == [targets[|targets| - 1]];
    }
    assert g[here].stmts == r.blocks[here].stmts && g[here].succs == r.blocks[here].succs;
    hide WellFormed, Fits, Jump;
    RunTwo(g, From(Here(st), s));
  }

  lemma SimReturn(st: State, g: seq<Block>, s: Store)
    requires WellFormed(st) && st.current.Some? && Fits(LowerReturn(st), g)
    ensures Run(g, From(Here(st), s), 1) == Done(s)
  {
    var here := st.current.value;
    var r := LowerReturn(st);
    assert r.blocks[here].stmts == st.blocks[here].stmts + [Return];
    assert IsClosed(r.blocks[here]);
    RunOne(g, From(Here(st), s));
  }

  lemma SimAppend(st: State, c: Stmt, g: seq<Block>, s: Store)
    requires WellFormed(st) && st.current.Some? && c.Assign? && Fits(Append(st, c), g)
    ensures Run(g, From(Here(st), s), 1) == From(Here(Append(st, c)), Effect(c, s))
  {
    RunOne(g, From(Here(st), s));
  }

  lemma AssignOne(x: string, e: Expr, s: Store)
    ensures Effect(Assign([x], [e]), s) == s[x := Eval(e, s)]
  {
    var vs := EvalAll([e], s);
    assert vs == [Eval(e, s)];
    assert StoreAll(s, [x], vs) == StoreAll(s[x := vs[0]], [x][1..], vs[1..]);
  }

  lemma {:induction false} SimLet(st: State, xs: seq<string>, es: seq<Expr>, g: seq<Block>, s: Store) returns (n: nat)
    requires WellFormed(st) && st.current.Some? && Fits(LowerLet(st, xs, es), g)
    ensures LowerLet(st, xs, es).current.Some?
    ensures Run(g, From(Here(st), s), n) == From(Here(LowerLet(st, xs, es)), Declare(s, xs, es))
    decreases |xs|
  {
    if xs == [] || es == [] {
      n := 0;
    } else {
      hide WellFormed, Fits, Grows, Append, Run, Eval;
      var c := Assign([xs[0]], [es[0]]);
      var a, t := Append(st, c), s[xs[0] := Eval(es[0], s)];
      AppendKeeps(st, c);
      LowerLetKeeps(a, xs[1..], es[1..]);
      FitsGrows(a, LowerLet(a, xs[1..], es[1..]), g);
      SimAppend(st, c, g, s);
      AssignOne(xs[0], es[0], s);
      var m := SimLet(a, xs[1..], es[1..], g, t);
      RunAdd(g, From(Here(st), s), 1, m);
      n := 1 + m;
    }
  }

  /** Flowing out of a block whose only edge leads to `to`. */
  lemma SimFlow(st: State, to: nat, g: seq<Block>, s: Store)
    requires WellFormed(st) && st.current.Some? && st.current.value < |g|
    requires g[st.current.value].stmts == CurrentStatements(st) && g[st.current.value].succs == [to]
    ensures Run(g, From(Here(st), s), 1) == At(to, 0, s)
  {
    RunOne(g, From(Here(st), s));
  }

  // ----- the simulation -----

  /** A run continued by another one that starts where it stopped. */
  lemma Continue(g: seq<Block>, k0: Config, m: nat, k1: Config, n: nat)
    requires Run(g, k0, m) == k1
    ensures Run(g, k0, m + n) == Run(g, k1, n)
  {
    RunAdd(g, k0, m, n);
  }

  /** From the end of the open block of `st`, the graph does what `c` means. */
  lemma {:induction false} Simulation(st: State, c: Stmt, g: seq<Block>, s: Store, fuel: nat) returns (n: nat)
    requires WellFormed(st) && st.current.Some? && Fits(Lower(st, c), g)
    ensures Agrees(Exec(c, s, fuel), Run(g, From(Here(st), s), n), n, fuel, st, Next(Lower(st, c)))
    decreases fuel, c, 3
  {
    hide WellFormed, Fits, Append, EnterIf, EnterFor, LeaveFor, EnterSwitch, StartNew, FallInto, Jump, LowerReturn;
    match c
    case Assign(_, _) =>
      SimAppend(st, c, g, s);
      n := 1;
    case Let(xs, es) =>
      n := SimLet(st, xs, es, g, s);
    case If(_, _) =>
      n := SimIf(st, c, g, s, fuel);
    case For(_, _, _, _, _) =>
      n := SimFor(st, c, g, s, fuel);
    case Switchon(_, _, _) =>
      n := SimSwitch(st, c, g, s, fuel);
    case Compound(cs) =>
      n := SimAll(st, cs, g, s, fuel);
    case Break =>
      SimJump(st, c, st.breaks, g, s);
      n := 2;
    case Loop =>
      SimJump(st, c, st.loops, g, s);
      n := 2;
    case Endcase =>
      SimJump(st, c, st.endcases, g, s);
      n := 2;
    case Return =>
      SimReturn(st, g, s);
      n := 1;
    case ConditionalBranch(_, _) =>
      n := 0;
  }

  lemma {:induction false} SimAll(st: State, cs: seq<Stmt>, g: seq<Block>, s: Store, fuel: nat) returns (n: nat)
    requires WellFormed(st) && st.current.Some? && Fits(LowerAll(st, cs), g)
    ensures Agrees(ExecAll(cs, s, fuel), Run(g, From(Here(st), s), n), n, fuel, st, Next(LowerAll(st, cs)))
    decreases fuel, cs, 0
  {
    if cs == [] {
      n := 0;
    } else {
      assert Ensure(st) == st;
      var a, r := Lower(st, cs[0]), LowerAll(st, cs);
      assert r == LowerAll(a, cs[1..]);
      LowerKeeps(st, cs[0]);
      LowerAllKeeps(a, cs[1..]);
      FitsGrows(a, r, g);
      hide WellFormed, Fits, Grows, Run;
      n := Simulation(st, cs[0], g, s, fuel);
      var o := Exec(cs[0], s, fuel);
      if o.Normal? {
        var m := SimAll(a, cs[1..], g, o.store, fuel);
        Continue(g, From(Here(st), s), n, From(Here(a), o.store), m);
        n := n + m;
      }
    }
  }

  /** A finished graph in which an IF is closed also fits what its arm left behind. */
  lemma ArmFits(b: State, join: nat, g: seq<Block>)
    requires WellFormed(b) && join < |b.blocks| && b.current != Some(join) && b.blocks[join].stmts == []
    requires Fits(FallInto(b, join).(current := Some(join)), g)
    ensures Fits(b, g)
    ensures b.current.Some? ==>
              && b.current.value < |g|
              && g[b.current.value].stmts == CurrentStatements(b) && g[b.current.value].succs == [join]
    ensures Next(FallInto(b, join).(current := Some(join))) == Some((join, 0))
  {
    hide Shaped;
    FallIntoKeeps(b, join);
    FitsFallInto(b, join, Some(join), g);
  }

  /** The states around the arm of an IF all fit the finished graph. */
  lemma IfStatesFit(st: State, c: Stmt, g: seq<Block>)
    requires WellFormed(st) && st.current.Some? && c.If? && Fits(Lower(st, c), g)
    ensures var a, n := EnterIf(st, c), |st.blocks|;
            var b := Lower(a, c.thenBranch);
            && WellFormed(a) && SameTargets(st, a) && Fits(a, g)
            && WellFormed(b) && Fits(b, g) && n + 1 < |b.blocks|
            && (b.current.Some? ==>
                  && b.current.value < |g|
                  && g[b.current.value].stmts == CurrentStatements(b) && g[b.current.value].succs == [n + 1])
            && Next(Lower(st, c)) == Some((n + 1, 0))
  {
    hide WellFormed, Fits, Grows, FallInto;
    var a, n := EnterIf(st, c), |st.blocks|;
    var b := Lower(a, c.thenBranch);
    EnterIfKeeps(st, c);
    LowerKeeps(a, c.thenBranch);
    IfPending(st, c, b);
    assert Lower(st, c) == FallInto(b, n + 1).(current := Some(n + 1));
    ArmFits(b, n + 1, g);
    FitsGrows(a, b, g);
  }

  /** The blocks of a finished graph that an IF laid down. */
  lemma IfFits(st: State, c: Stmt, g: seq<Block>)
    requires WellFormed(st) && st.current.Some? && c.If? && Fits(Lower(st, c), g)
    ensures var a, n, here := EnterIf(st, c), |st.blocks|, st.current.value;
            && a.current == Some(n) && Here(a) == (n, 0)
            && here < |g| && g[here].stmts == CurrentStatements(st) + [c] && g[here].succs == [n, n + 1]
  {
    var a, n := EnterIf(st, c), |st.blocks|;
    EnterIfBlocks(st, c);
    assert st.current.value < |st.blocks| && Ensure(st) == st;
    hide Lower, EnterIf, Shaped, WellFormed, Fits;
    IfStatesFit(st, c, g);
    FitsClosed(a, g, st.current.value);
  }

  /** The test of an IF, as the block that ends with it makes it. */
  lemma IfTest(c: Stmt, g: seq<Block>, here: nat, pos: nat, n: nat, s: Store)
    requires c.If? && here < |g| && |g[here].stmts| == pos + 1 && g[here].stmts[pos] == c && g[here].succs == [n, n + 1]
    ensures Run(g, At(here, pos, s), 2) == At(if Eval(c.condition, s) != 0 then n else n + 1, 0, s)
  {
    RunTwo(g, At(here, pos, s));
  }

  lemma {:induction false} SimIf(st: State, c: Stmt, g: seq<Block>, s: Store, fuel: nat) returns (n: nat)
    requires WellFormed(st) && st.current.Some? && c.If? && Fits(Lower(st, c), g)
    ensures Agrees(Exec(c, s, fuel), Run(g, From(Here(st), s), n), n, fuel, st, Next(Lower(st, c)))
    decreases fuel, c, 2
  {
    hide WellFormed, Fits, EnterIf, Lower, Run, Eval;
    IfStatesFit(st, c, g);
    IfFits(st, c, g);
    var a, b, k := EnterIf(st, c), Lower(EnterIf(st, c), c.thenBranch), From(Here(st), s);
    IfTest(c, g, st.current.value, Here(st).1, |st.blocks|, s);
    n := 2;
    if Eval(c.condition, s) != 0 {
      var m := Simulation(a, c.thenBranch, g, s, fuel);
      Continue(g, k, 2, From(Here(a), s), m);
      n := 2 + m;
      var o := Exec(c.thenBranch, s, fuel);
      if o.Normal? {
        FlowOn(b, |st.blocks| + 1, g, k, n, o.store);
        n := n + 1;
      }
    }
  }

  /** A run that reached the end of `b`'s open block takes its only edge. */
  lemma FlowOn(b: State, to: nat, g: seq<Block>, k: Config, n: nat, s: Store)
    requires WellFormed(b) && b.current.Some? && b.current.value < |g|
    requires g[b.current.value].stmts == CurrentStatements(b) && g[b.current.value].succs == [to]
    requires Run(g, k, n) == From(Here(b), s)
    ensures Run(g, k, n + 1) == At(to, 0, s)
  {
    SimFlow(b, to, g, s);
    Continue(g, k, n, From(Here(b), s), 1);
  }

  /** A finished graph in which the loop is closed also fits what its body left behind. */
  lemma BodyFits(st: State, c: Stmt, n: nat, b: State, g: seq<Block>)
    requires c.For? && n + 4 <= |b.blocks| && Fits(LeaveFor(st, c, n, b), g)
    requires b.current.Some? ==>
               b.current.value < |b.blocks| && b.current.value != n + 2 && b.blocks[b.current.value].succs == []
    requires b.blocks[n + 2].stmts == [] && b.blocks[n + 2].succs == []
    requires b.current.Some? ==> IsOpen(b.blocks[b.current.value])
    ensures Fits(b, g)
    ensures g[n + 2].stmts == [Increment(c.variable, c.step)] && g[n + 2].succs == [n]
    ensures b.current.Some? ==>
              g[b.current.value].stmts == CurrentStatements(b) && g[b.current.value].succs == [n + 2]
  {
    var r := LeaveFor(st, c, n, b);
    LeaveForBlocks(st, c, n, b);
    hide LeaveFor, Increment;
    assert IsClosed(r.blocks[n + 2]) && IsOpen(b.blocks[n + 2]);
    if b.current.Some? {
      assert IsClosed(r.blocks[b.current.value]);
    }
    hide IsOpen;
    forall i | 0 <= i < |b.blocks| && IsClosed(b.blocks[i])
      ensures r.blocks[i].stmts == b.blocks[i].stmts && r.blocks[i].succs == b.blocks[i].succs
    {
      assert i != n + 2 && Some(i) != b.current;
    }
    FitsSettles(b, r, g);
  }

  /** The states around the body of a FOR all fit the finished graph. */
  lemma ForStatesFit(st: State, c: Stmt, g: seq<Block>)
    requires WellFormed(st) && st.current.Some? && c.For? && Fits(Lower(st, c), g)
    ensures var a, n := EnterFor(st, c), |st.blocks|;
            var b := Lower(a, c.body);
            && WellFormed(a) && Fits(a, g)
            && WellFormed(b) && Fits(b, g) && n + 4 <= |b.blocks| <= |g|
            && g[n + 2].stmts == [Increment(c.variable, c.step)] && g[n + 2].succs == [n]
            && (b.current.Some? ==>
                  && b.current.value < |g|
                  && g[b.current.value].stmts == CurrentStatements(b) && g[b.current.value].succs == [n + 2])
  {
    var a, n := EnterFor(st, c), |st.blocks|;
    var b := Lower(a, c.body);
    assert Lower(st, c) == LeaveFor(st, c, n, b);
    hide Lower, EnterFor, Grows, Shaped, LeaveFor, Increment;
    EnterForKeeps(st, c);
    LowerKeeps(a, c.body);
    LoopPending(st, c, b);
    BodyFits(st, c, n, b, g);
    hide WellFormed, Fits;
    FitsGrows(a, b, g);
  }

  lemma ForNext(st: State, c: Stmt)
    requires WellFormed(st) && st.current.Some? && c.For?
    ensures Next(Lower(st, c)) == Some((|st.blocks| + 3, 0))
  {
    var a, n := EnterFor(st, c), |st.blocks|;
    var b := Lower(a, c.body);
    assert Lower(st, c) == LeaveFor(st, c, n, b);
    hide Lower, EnterFor, Grows, Shaped, LeaveFor, Increment;
    EnterForKeeps(st, c);
    LowerKeeps(a, c.body);
    LoopPending(st, c, b);
    LeaveForBlocks(st, c, n, b);
  }

  lemma CurrentIsThere(st: State)
    requires WellFormed(st) && st.current.Some?
    ensures st.current.value < |st.blocks| && Ensure(st) == st
  {
  }

  /** The blocks of a finished graph that a FOR laid down. */
  lemma ForFits(st: State, c: Stmt, g: seq<Block>)
    requires WellFormed(st) && st.current.Some? && c.For? && Fits(Lower(st, c), g)
    ensures var a, n, here := EnterFor(st, c), |st.blocks|, st.current.value;
            && a.breaks == st.breaks + [n + 3] && a.loops == st.loops + [n + 2] && a.endcases == st.endcases
            && a.current.Some? && Here(a) == (n + 1, 0)
            && here < n && n + 4 <= |g|
            && g[here].stmts == CurrentStatements(st) + [Assign([c.variable], [c.start])] && g[here].succs == [n]
            && g[n].stmts == [c] && g[n].succs == [n + 1, n + 3]
  {
    hide Lower, EnterFor, Shaped, WellFormed, Fits, Increment;
    var a, n := EnterFor(st, c), |st.blocks|;
    CurrentIsThere(st);
    EnterForBlocks(st, c);
    EnterForTargets(st, c);
    ForStatesFit(st, c, g);
    FitsClosed(a, g, st.current.value);
    FitsClosed(a, g, n);
  }

  lemma {:induction false} SimFor(st: State, c: Stmt, g: seq<Block>, s: Store, fuel: nat) returns (n: nat)
    requires WellFormed(st) && st.current.Some? && c.For? && Fits(Lower(st, c), g)
    ensures Agrees(Exec(c, s, fuel), Run(g, From(Here(st), s), n), n, fuel, st, Next(Lower(st, c)))
    decreases fuel, c, 2
  {
    hide WellFormed, Fits, EnterFor, Lower;
    ForFits(st, c, g);
    var k, h := From(Here(st), s), |st.blocks|;
    var t := s[c.variable := Eval(c.start, s)];
    AssignOne(c.variable, c.start, s);
    RunTwo(g, k);
    hide Effect, BlockExit;
    assert Run(g, k, 2) == At(h, 0, t);
    var m := SimLoop(st, c, g, t, fuel);
    Continue(g, k, 2, At(h, 0, t), m);
    n := 2 + m;
  }

  /** The test of a loop, as the header block makes it. */
  lemma LoopTest(c: Stmt, g: seq<Block>, h: nat, s: Store)
    requires c.For? && h < |g| && g[h].stmts == [c] && g[h].succs == [h + 1, h + 3]
    ensures Run(g, At(h, 0, s), 2) == At(if Lookup(s, c.variable) > Eval(c.end, s) then h + 3 else h + 1, 0, s)
  {
    RunTwo(g, At(h, 0, s));
  }

  /** Once round the loop, from its header back to it or out of the loop. */
  lemma {:induction false} LoopPass(st: State, c: Stmt, g: seq<Block>, s: Store, fuel: nat) returns (n: nat)
    requires WellFormed(st) && st.current.Some? && c.For? && Fits(Lower(st, c), g)
    requires fuel > 0 && Lookup(s, c.variable) <= Eval(c.end, s)
    ensures n > 0
    ensures var o, k := Exec(c.body, s, fuel - 1), Run(g, At(|st.blocks|, 0, s), n);
            match o {
              case Normal(t) => k == At(|st.blocks|, 0, NextTurn(c, t))
              case Looped(t) => k == At(|st.blocks|, 0, NextTurn(c, t))
              case Broke(t) => k == At(|st.blocks| + 3, 0, t)
              case Ended(t) => k == Landing(st.endcases, t)
              case Returned(t) => k == Done(t)
              case Timeout => k.At? && n >= fuel
            }
    decreases fuel, c, 0
  {
    hide WellFormed, Fits, EnterFor, Lower, Run, Exec, NextTurn, Increment, Eval, Lookup;
    ForFits(st, c, g);
    ForStatesFit(st, c, g);
    var a, b, h, k := EnterFor(st, c), Lower(EnterFor(st, c), c.body), |st.blocks|, At(|st.blocks|, 0, s);
    LoopTest(c, g, h, s);
    var m := Simulation(a, c.body, g, s, fuel - 1);
    Continue(g, k, 2, From(Here(a), s), m);
    n := 2 + m;
    var o := Exec(c.body, s, fuel - 1);
    if o.Normal? {
      FlowOn(b, h + 2, g, k, n, o.store);
      n := n + 1;
    }
    if o.Normal? || o.Looped? {
      Advance(c, g, h, o.store);
      Continue(g, k, n, At(h + 2, 0, o.store), 2);
      n := n + 2;
    }
  }

  /** The loop from its header on. */
  lemma {:induction false} SimLoop(st: State, c: Stmt, g: seq<Block>, s: Store, fuel: nat) returns (n: nat)
    requires WellFormed(st) && st.current.Some? && c.For? && Fits(Lower(st, c), g)
    ensures Agrees(Iterate(c, s, fuel), Run(g, At(|st.blocks|, 0, s), n), n, fuel, st, Next(Lower(st, c)))
    decreases fuel, c, 1
  {
    hide WellFormed, Fits, EnterFor, Lower, Run, Exec, NextTurn, Increment;
    ForFits(st, c, g);
    ForNext(st, c);
    var h, k := |st.blocks|, At(|st.blocks|, 0, s);
    n := 0;
    RunZero(g, k);
    if fuel > 0 {
      if Lookup(s, c.variable) > Eval(c.end, s) {
        LoopTest(c, g, h, s);
        n := 2;
      } else {
        n := LoopPass(st, c, g, s, fuel);
        var o := Exec(c.body, s, fuel - 1);
        if o.Normal? || o.Looped? {
          var t := NextTurn(c, o.store);
          IterateAgain(c, s, fuel);
          var l := SimLoop(st, c, g, t, fuel - 1);
          Continue(g, k, n, At(h, 0, t), l);
          n := n + l;
        }
      }
    }
  }

  lemma IterateAgain(c: Stmt, s: Store, fuel: nat)
    requires c.For? && fuel > 0 && Lookup(s, c.variable) <= Eval(c.end, s)
    requires Exec(c.body, s, fuel - 1).Normal? || Exec(c.body, s, fuel - 1).Looped?
    ensures Iterate(c, s, fuel) == Iterate(c, NextTurn(c, Exec(c.body, s, fuel - 1).store), fuel - 1)
  {
  }

  /** The increment block advances the loop variable and goes back to the header. */
  lemma Advance(c: Stmt, g: seq<Block>, h: nat, s: Store)
    requires c.For? && h + 2 < |g| && g[h + 2].stmts == [Increment(c.variable, c.step)] && g[h + 2].succs == [h]
    ensures Run(g, At(h + 2, 0, s), 2) == At(h, 0, NextTurn(c, s))
  {
    hide Run;
    var e, k := Binary(Add, Variable(c.variable), StepOf(c.step)), At(h + 2, 0, s);
    AssignOne(c.variable, e, s);
    assert Eval(e, s) == Wrap(Lookup(s, c.variable) + Stride(c.step, s));
    assert Increment(c.variable, c.step) == Assign([c.variable], [e]);
    hide Effect, Eval, Increment, StepOf, Stride;
    assert Step(g, k) == At(h + 2, 1, NextTurn(c, s));
    RunTwo(g, k);
  }

  /** One arm of a SWITCHON: it ends in the join block unless it jumps. */
  lemma {:induction false} SimArm(st: State, block: nat, c: Stmt, join: nat, g: seq<Block>, s: Store, fuel: nat)
    returns (n: nat)
    requires WellFormed(st) && st.current.None? && join < |st.blocks| && Pending(st, block, block + 1)
    requires Fits(LowerArm(st, block, c, join), g)
    ensures Agrees(Exec(c, s, fuel), Run(g, At(block, 0, s), n), n, fuel, st, Some((join, 0)))
    decreases fuel, c, 4
  {
    hide WellFormed, Fits, Lower, FallInto, Run;
    ArmStatesFit(st, block, c, join, g);
    var a := st.(current := Some(block));
    var b := Lower(a, c);
    n := Simulation(a, c, g, s, fuel);
    var o := Exec(c, s, fuel);
    if o.Normal? {
      FlowOn(b, join, g, At(block, 0, s), n, o.store);
      n := n + 1;
    }
  }

  lemma ArmStatesFit(st: State, block: nat, c: Stmt, join: nat, g: seq<Block>)
    requires WellFormed(st) && st.current.None? && join < |st.blocks| && Pending(st, block, block + 1)
    requires Fits(LowerArm(st, block, c, join), g)
    ensures var a := st.(current := Some(block));
            var b := Lower(a, c);
            && WellFormed(a) && Here(a) == (block, 0)
            && WellFormed(b) && Fits(b, g)
            && (b.current.Some? ==>
                  && b.current.value < |g|
                  && g[b.current.value].stmts == CurrentStatements(b) && g[b.current.value].succs == [join])
  {
    hide Lower, FallInto, Shaped;
    var a := st.(current := Some(block));
    var b := Lower(a, c);
    assert WellFormed(a) by {
      assert IsOpen(a.blocks[block]);
    }
    LowerKeeps(a, c);
    assert b.current.Some? ==> b.current.value < |b.blocks|;
    assert join < |b.blocks|;
    hide WellFormed, Grows;
    FitsFallInto(b, join, None, g);
  }

  /** The arm of the `i`th case, among those from block `block` on. */
  lemma {:induction false} SimCase(st: State, cases: seq<Case>, block: nat, join: nat, i: nat,
                                   g: seq<Block>, s: Store, fuel: nat)
    returns (n: nat)
    requires WellFormed(st) && st.current.None? && join < |st.blocks| && Pending(st, block, block + |cases|)
    requires i < |cases| && Fits(LowerCases(st, cases, block, join), g)
    ensures Agrees(Exec(cases[i].command, s, fuel), Run(g, At(block + i, 0, s), n), n, fuel, st, Some((join, 0)))
    decreases fuel, cases, i
  {
    hide WellFormed, Fits, Lower, LowerArm, Run, Exec;
    assert cases[0] in cases && cases[0].command < cases[0];
    var a := LowerArm(st, block, cases[0].command, join);
    var r := LowerCases(a, cases[1..], block + 1, join);
    LowerArmKeeps(st, block, cases[0].command, join);
    PendingRest(st, a, block, |cases|);
    LowerCasesKeeps(a, cases[1..], block + 1, join);
    FitsArms(a, r, block + 1, block + |cases|, g);
    if i == 0 {
      n := SimArm(st, block, cases[0].command, join, g, s, fuel);
    } else {
      assert cases[1..][i - 1] == cases[i];
      n := SimCase(a, cases[1..], block + 1, join, i - 1, g, s, fuel);
    }
  }

  lemma PendingRest(st: State, a: State, block: nat, n: nat)
    requires n > 0 && Pending(st, block, block + n) && ArmsKept(st, a, block, block + 1)
    ensures WellFormed(a) && a.current.None? && |st.blocks| <= |a.blocks| && SameTargets(st, a)
    ensures Pending(a, block + 1, block + n)
  {
    hide WellFormed;
  }

  /** The default is lowered in a state in which its block is still untouched. */
  lemma DefaultPending(st: State, c: Stmt, join: nat)
    requires WellFormed(st) && c.Switchon? && join == |StartNew(st).blocks| && c.defaultCase.Some?
    ensures var a, x := EnterSwitch(st, c), AfterCases(st, c);
            && WellFormed(x) && x.current.None? && join < |x.blocks| && SameTargets(a, x)
            && Pending(x, join + 1 + |c.cases|, join + 2 + |c.cases|)
  {
    hide WellFormed, EnterSwitch, StartNew, AfterCases;
    EnterSwitchPending(st, c);
    AfterCasesKeeps(st, c, join);
  }

  /** The states in which the arms of a SWITCHON are lowered all fit the finished graph. */
  lemma SwitchStatesFit(st: State, c: Stmt, join: nat, g: seq<Block>)
    requires WellFormed(st) && c.Switchon? && join == |StartNew(st).blocks| && Fits(Lower(st, c), g)
    ensures Fits(AfterArms(st, c), g) && Fits(AfterCases(st, c), g) && Fits(EnterSwitch(st, c), g)
  {
    hide WellFormed, EnterSwitch, StartNew, AfterCases, Lower, LowerArm;
    var a, x, y := EnterSwitch(st, c), AfterCases(st, c), AfterArms(st, c);
    AfterArmsKeeps(st, c, join);
    SwitchIs(st, c);
    FitsElsewhere(y, join, st.endcases, g);
    hide Fits;
    EnterSwitchPending(st, c);
    AfterCasesKeeps(st, c, join);
    if c.defaultCase.Some? {
      DefaultPending(st, c, join);
      LowerArmKeeps(x, join + 1 + |c.cases|, c.defaultCase.value, join);
      FitsArms(x, y, join + 1 + |c.cases|, join + 2 + |c.cases|, g);
    }
    FitsArms(a, x, join + 1, join + 1 + |c.cases|, g);
  }

  lemma FitsElsewhere(y: State, join: nat, endcases: seq<nat>, g: seq<Block>)
    requires y.current.None? && Fits(y.(current := Some(join), endcases := endcases), g)
    ensures Fits(y, g)
  {
    hide IsOpen;
  }

  /** The blocks of a finished graph that a SWITCHON laid down. */
  lemma SwitchFits(st: State, c: Stmt, g: seq<Block>)
    requires WellFormed(st) && st.current.Some? && c.Switchon? && Fits(Lower(st, c), g)
    ensures var here, n := st.current.value, |st.blocks|;
            && here < n && n + 1 < |g| && |StartNew(st).blocks| == n + 1
            && g[here].stmts == CurrentStatements(st) && g[here].succs == [n]
            && g[n].stmts == [c]
            && g[n].succs == seq(Arms(c), i requires 0 <= i => n + 2 + i) + [n + 1]
  {
    hide Lower, EnterSwitch, StartNew, WellFormed;
    var a, here, n := EnterSwitch(st, c), st.current.value, |st.blocks|;
    StartsNew(st);
    SwitchStatesFit(st, c, n + 1, g);
    EnterSwitchBlocks(st, c);
    FitsClosed(a, g, here);
    FitsClosed(a, g, n);
  }

  lemma StartsNew(st: State)
    requires WellFormed(st) && st.current.Some?
    ensures var here, n, r := st.current.value, |st.blocks|, StartNew(st);
            && here < n && r.current == Some(n) && |r.blocks| == n + 1
            && r.blocks[here].stmts == CurrentStatements(st) && r.blocks[here].succs == [n]
  {
    hide Shaped;
  }

  lemma SwitchNext(st: State, c: Stmt, join: nat)
    requires WellFormed(st) && c.Switchon? && join == |StartNew(st).blocks|
    ensures Next(Lower(st, c)) == Some((join, 0))
  {
    hide WellFormed, AfterArms, EnterSwitch, StartNew, Lower;
    SwitchIs(st, c);
    AfterArmsKeeps(st, c, join);
    EnterSwitchPending(st, c);
  }

  lemma {:induction false} SimSwitch(st: State, c: Stmt, g: seq<Block>, s: Store, fuel: nat) returns (n: nat)
    requires WellFormed(st) && st.current.Some? && c.Switchon? && Fits(Lower(st, c), g)
    ensures Agrees(Exec(c, s, fuel), Run(g, From(Here(st), s), n), n, fuel, st, Next(Lower(st, c)))
    decreases fuel, c, 2
  {
    hide WellFormed, Fits, EnterSwitch, StartNew, Lower, LowerArm, LowerCases, Run, Eval;
    hide AfterCases, StartNew;
    SwitchFits(st, c, g);
    EnterSwitchPending(st, c);
    var a, k, h, join := EnterSwitch(st, c), From(Here(st), s), |st.blocks|, |st.blocks| + 1;
    SwitchNext(st, c, join);
    SwitchStatesFit(st, c, join, g);
    AfterCasesIs(st, c);
    SimFlow(st, h, g, s);
    var i := FirstCase(c.cases, Eval(c.selector, s));
    SwitchTest(c, g, h, s);
    Continue(g, k, 1, At(h, 0, s), 2);
    n := 3;
    if i < |c.cases| {
      var m := SimCase(a, c.cases, join + 1, join, i, g, s, fuel);
      Continue(g, k, 3, At(join + 1 + i, 0, s), m);
      n := 3 + m;
    } else if c.defaultCase.Some? {
      var x := AfterCases(st, c);
      DefaultPending(st, c, join);
      var m := SimArm(x, join + 1 + i, c.defaultCase.value, join, g, s, fuel);
      Continue(g, k, 3, At(join + 1 + i, 0, s), m);
      n := 3 + m;
    }
  }

  /** The comparisons of a SWITCHON, as its header makes them. */
  lemma SwitchTest(c: Stmt, g: seq<Block>, h: nat, s: Store)
    requires c.Switchon? && h < |g| && g[h].stmts == [c]
    requires g[h].succs == seq(Arms(c), i requires 0 <= i => h + 2 + i) + [h + 1]
    ensures var i := FirstCase(c.cases, Eval(c.selector, s));
            Run(g, At(h, 0, s), 2) == At(if i < |c.cases| || c.defaultCase.Some? then h + 2 + i else h + 1, 0, s)
  {
    RunTwo(g, At(h, 0, s));
  }
}
