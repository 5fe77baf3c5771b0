/** The main results about graph building: whole functions, divergence, edges, and code generation errors. */
module CfgTheorems {
  import opened Wrappers
  import opened Ast
  import opened Machine
  import opened StructuredSemantics
  import opened CfgLowering
  import opened CfgShape
  import opened CfgCorrectness

  const INITIAL := State([EMPTY_BLOCK], Some(0), None, [], [], [])

  function Graph(body: Stmt): seq<Block> {
    Build(body).blocks
  }

  lemma InitialIsWellFormed()
    ensures WellFormed(INITIAL)
  {
  }

  // ----- the shape of the finished graph -----

  lemma FinishKeeps(a: State)
    requires WellFormed(a) && a.current.Some?
    ensures var b := NeedExit(a);
            var g := AddEdge(b.blocks, b.current.value, b.exit.value);
            && Fits(a, g) && a.current.value < |g|
            && (forall i :: 0 <= i < |g| ==> Shaped(g[i].stmts, |g[i].succs|))
            && g[a.current.value].stmts == CurrentStatements(a) && g[a.current.value].succs == [b.exit.value]
            && b.exit.value < |g| && g[b.exit.value].stmts == [] && g[b.exit.value].succs == []
  {
    NeedExitKeeps(a);
    var b := NeedExit(a);
    AddEdgeChanges(b.blocks, b.current.value, b.exit.value);
    OpenTakesEdge(CurrentStatements(a));
    hide Shaped;
  }

  /** In a finished graph every block has the successors its last statement calls for. */
  lemma GraphIsShaped(body: Stmt)
    ensures var g := Graph(body); forall i :: 0 <= i < |g| ==> Shaped(g[i].stmts, |g[i].succs|)
  {
    InitialIsWellFormed();
    LowerKeeps(INITIAL, body);
    var a := Lower(INITIAL, body);
    if a.current.Some? {
      FinishKeeps(a);
    }
  }

  // ----- runs -----

  predicate Finishes(o: Outcome, t: Store) {
    o == Normal(t) || o == Returned(t)
  }

  predicate Escapes(o: Outcome, t: Store) {
    o == Broke(t) || o == Looped(t) || o == Ended(t)
  }

  /** After some number of steps the run of a whole function has the outcome of its body; a body that
    * still loops when the fuel runs out has used at least as many steps.
    */
  lemma {:induction false} GraphSimulates(body: Stmt, s: Store, fuel: nat) returns (n: nat)
    ensures match Exec(body, s, fuel) {
              case Normal(t) => Run(Graph(body), At(0, 0, s), n) == Done(t)
              case Returned(t) => Run(Graph(body), At(0, 0, s), n) == Done(t)
              case Broke(t) => Run(Graph(body), At(0, 0, s), n) == Fell(t)
              case Looped(t) => Run(Graph(body), At(0, 0, s), n) == Fell(t)
              case Ended(t) => Run(Graph(body), At(0, 0, s), n) == Fell(t)
              case Timeout => Run(Graph(body), At(0, 0, s), n).At? && n >= fuel
            }
  {
    hide Graph, Lower, WellFormed, Fits, Run, Exec, NeedExit;
    var g, a, o := Graph(body), Lower(INITIAL, body), Exec(body, s, fuel);
    GraphEnds(body);
    n := Simulation(INITIAL, body, g, s, fuel);
    if o.Normal? {
      var exit := NeedExit(a).exit.value;
      FlowOn(a, exit, g, At(0, 0, s), n, o.store);
      RunOne(g, At(exit, 0, o.store));
      Continue(g, At(0, 0, s), n + 1, At(exit, 0, o.store), 1);
      n := n + 2;
    }
  }

  /** A finished graph fits the state in which lowering the body leaves the builder, and goes on to the exit block. */
  lemma GraphEnds(body: Stmt)
    ensures var g, a := Graph(body), Lower(INITIAL, body);
            && WellFormed(INITIAL) && WellFormed(a) && Fits(a, g)
            && (a.current.Some? ==>
                  var exit := NeedExit(a).exit;
                  && a.current.value < |g|
                  && g[a.current.value].stmts == CurrentStatements(a) && exit.Some? && g[a.current.value].succs == [exit.value]
                  && exit.value < |g| && g[exit.value].stmts == [] && g[exit.value].succs == [])
  {
    hide Lower, Fits, AddEdge;
    InitialIsWellFormed();
    LowerKeeps(INITIAL, body);
    var a := Lower(INITIAL, body);
    if a.current.Some? {
      FinishKeeps(a);
    } else {
      FitsItself(a);
    }
  }

  lemma FitsItself(a: State)
    ensures Fits(a, a.blocks)
  {
  }

  /** Two runs of different lengths that have both stopped have stopped in the same way. */
  lemma StopsOnce(g: seq<Block>, k: Config, m: nat, n: nat)
    requires !Run(g, k, m).At? && m <= n
    ensures Run(g, k, n) == Run(g, k, m)
  {
    RunAdd(g, k, m, n - m);
    RunStuck(g, Run(g, k, m), n - m);
  }

  /** How a run that stops after `n` steps is explained by the meaning of the body. */
  lemma {:induction false} StopExplained(body: Stmt, s: Store, n: nat)
    requires !Run(Graph(body), At(0, 0, s), n).At?
    ensures var k, o := Run(Graph(body), At(0, 0, s), n), Exec(body, s, n + 1);
            ((k.Done? && Finishes(o, k.store)) || (k.Fell? && Escapes(o, k.store)))
  {
    var g, k := Graph(body), At(0, 0, s);
    var m := GraphSimulates(body, s, n + 1);
    hide Graph, Exec, Run;
    if m <= n {
      if !Run(g, k, m).At? {
        StopsOnce(g, k, m, n);
      }
    } else {
      StopsOnce(g, k, n, m);
    }
  }

  /** The generated graph reaches its end with store `t` exactly when the body, read on its own, ends with `t`. */
  lemma {:induction false} LoweringIsCorrect(body: Stmt, s: Store, t: Store)
    ensures (exists n: nat :: Run(Graph(body), At(0, 0, s), n) == Done(t))
            <==> (exists fuel: nat :: Finishes(Exec(body, s, fuel), t))
  {
    hide Graph, Run, Exec;
    if n: nat :| Run(Graph(body), At(0, 0, s), n) == Done(t) {
      StopExplained(body, s, n);
    }
    if fuel: nat :| Finishes(Exec(body, s, fuel), t) {
      var n := GraphSimulates(body, s, fuel);
    }
  }

  ghost predicate RunsForEver(g: seq<Block>, s: Store) {
    forall n: nat :: Run(g, At(0, 0, s), n).At?
  }

  ghost predicate LoopsForEver(body: Stmt, s: Store) {
    forall fuel: nat :: Exec(body, s, fuel).Timeout?
  }

  /** The generated graph runs for ever exactly when the body does. */
  lemma {:induction false} LoweringKeepsDivergence(body: Stmt, s: Store)
    ensures RunsForEver(Graph(body), s) <==> LoopsForEver(body, s)
  {
    hide Graph, Run, Exec;
    var g, k := Graph(body), At(0, 0, s);
    if RunsForEver(g, s) {
      forall fuel: nat
        ensures Exec(body, s, fuel).Timeout?
      {
        var n := GraphSimulates(body, s, fuel);
        assert Run(g, k, n).At?;
      }
    }
    if LoopsForEver(body, s) {
      forall n: nat
        ensures Run(g, k, n).At?
      {
        assert Exec(body, s, n + 1).Timeout?;
        if !Run(g, k, n).At? {
          StopExplained(body, s, n);
        }
      }
    }
  }

  // ----- well-scoped jumps -----

  /** Every BREAK and LOOP is inside a FOR, every ENDCASE inside a SWITCHON. */
  predicate WellScoped(c: Stmt, inLoop: bool, inSwitch: bool) {
    match c
    case If(_, t) => WellScoped(t, inLoop, inSwitch)
    case For(_, _, _, _, body) => WellScoped(body, true, inSwitch)
    case Switchon(_, cases, d) =>
      && (forall k :: k in cases ==> WellScoped(k.command, inLoop, true))
      && (d.Some? ==> WellScoped(d.value, inLoop, true))
    case Compound(cs) => forall k :: k in cs ==> WellScoped(k, inLoop, inSwitch)
    case Break => inLoop
    case Loop => inLoop
    case Endcase => inSwitch
    case _ => true
  }

  lemma {:induction false} ScopedOutcome(c: Stmt, inLoop: bool, inSwitch: bool, s: Store, fuel: nat)
    requires WellScoped(c, inLoop, inSwitch)
    ensures var o := Exec(c, s, fuel); (o.Broke? || o.Looped? ==> inLoop) && (o.Ended? ==> inSwitch)
    decreases fuel, c, 1
  {
    match c
    case If(_, t) => ScopedOutcome(t, inLoop, inSwitch, s, fuel);
    case For(x, start, _, _, _) => ScopedIterate(c, inSwitch, s[x := Eval(start, s)], fuel);
    case Switchon(e, cases, d) =>
      var k := FirstCase(cases, Eval(e, s));
      if k < |cases| {
        ScopedOutcome(cases[k].command, inLoop, true, s, fuel);
      } else if d.Some? {
        ScopedOutcome(d.value, inLoop, true, s, fuel);
      }
    case Compound(cs) => ScopedAll(cs, inLoop, inSwitch, s, fuel);
    case _ =>
  }

  lemma {:induction false} ScopedAll(cs: seq<Stmt>, inLoop: bool, inSwitch: bool, s: Store, fuel: nat)
    requires forall k :: k in cs ==> WellScoped(k, inLoop, inSwitch)
    ensures var o := ExecAll(cs, s, fuel); (o.Broke? || o.Looped? ==> inLoop) && (o.Ended? ==> inSwitch)
    decreases fuel, cs, 0
  {
    if cs != [] {
      ScopedOutcome(cs[0], inLoop, inSwitch, s, fuel);
      var o := Exec(cs[0], s, fuel);
      if o.Normal? {
        ScopedAll(cs[1..], inLoop, inSwitch, o.store, fuel);
      }
    }
  }

  lemma {:induction false} ScopedIterate(c: Stmt, inSwitch: bool, s: Store, fuel: nat)
    requires c.For? && WellScoped(c.body, true, inSwitch)
    ensures var o := Iterate(c, s, fuel); !o.Broke? && !o.Looped? && (o.Ended? ==> inSwitch)
    decreases fuel, c, 0
  {
    if fuel > 0 && Lookup(s, c.variable) <= Eval(c.end, s) {
      ScopedOutcome(c.body, true, inSwitch, s, fuel - 1);
      var o := Exec(c.body, s, fuel - 1);
      if o.Normal? || o.Looped? {
        ScopedIterate(c, inSwitch, NextTurn(c, o.store), fuel - 1);
      }
    }
  }

  /** A run never meets an unrecognised branch, and falls off a block only after a jump without a target. */
  lemma {:induction false} RunsAreSafe(body: Stmt, s: Store, n: nat)
    ensures var k := Run(Graph(body), At(0, 0, s), n);
            && !k.Threw?
            && (k.Fell? ==> !WellScoped(body, false, false))
  {
    var k := Run(Graph(body), At(0, 0, s), n);
    if !k.At? {
      StopExplained(body, s, n);
      if WellScoped(body, false, false) {
        ScopedOutcome(body, false, false, s, n + 1);
      }
    }
  }

  // ----- edges -----

  lemma CountAppend(ids: seq<nat>, x: nat, y: nat)
    ensures Count(ids + [x], y) == Count(ids, y) + if x == y then 1 else 0
  {
  }

  lemma CountAbsent(ids: seq<nat>, x: nat)
    requires x !in ids
    ensures Count(ids, x) == 0
  {
  }

  lemma AddEdgeMirrors(blocks: seq<Block>, from: nat, to: nat)
    requires Mirrored(blocks)
    ensures Mirrored(AddEdge(blocks, from, to))
  {
    hide Count;
    var r := AddEdge(blocks, from, to);
    if from < |blocks| && to < |blocks| {
      assert forall f :: 0 <= f < |r| ==>
               && r[f].succs == (if f == from then blocks[f].succs + [to] else blocks[f].succs)
               && r[f].preds == (if f == to then blocks[f].preds + [from] else blocks[f].preds);
      hide AddEdge;
      forall f, t | 0 <= f < |r| && 0 <= t < |r|
        ensures Count(r[f].succs, t) == Count(r[t].preds, f)
      {
        CountAppend(blocks[f].succs, to, t);
        CountAppend(blocks[t].preds, from, f);
      }
    }
  }

  lemma {:induction false} AddFanMirrors(blocks: seq<Block>, from: nat, first: nat, n: nat)
    requires Mirrored(blocks)
    ensures Mirrored(AddFan(blocks, from, first, n))
    decreases n
  {
    hide Mirrored, AddEdge;
    if n > 0 {
      AddFanMirrors(blocks, from, first, n - 1);
      AddEdgeMirrors(AddFan(blocks, from, first, n - 1), from, first + n - 1);
    }
  }

  /** Blocks may be added without touching any edge. */
  lemma NewBlocksMirror(blocks: seq<Block>, n: nat)
    requires Mirrored(blocks)
    ensures Mirrored(NewBlocks(blocks, n))
  {
    var r := NewBlocks(blocks, n);
    forall f, t | 0 <= f < |r| && 0 <= t < |r|
      ensures Count(r[f].succs, t) == Count(r[t].preds, f)
    {
      if f >= |blocks| || t >= |blocks| {
        assert f < |blocks| ==> InRange(blocks[f].succs, |blocks|);
        assert t < |blocks| ==> InRange(blocks[t].preds, |blocks|);
        CountAbsent(r[f].succs, t);
        CountAbsent(r[t].preds, f);
      }
    }
  }

  lemma AddStatementMirrors(blocks: seq<Block>, i: nat, c: Stmt)
    requires Mirrored(blocks)
    ensures Mirrored(AddStatement(blocks, i, c))
  {
    hide Count;
  }

  lemma AppendMirrors(st: State, c: Stmt)
    requires Mirrored(st.blocks)
    ensures Mirrored(Ensure(st).blocks) && Mirrored(Append(st, c).blocks) && Mirrored(NeedExit(st).blocks)
  {
    hide Mirrored;
    NewBlocksMirror(st.blocks, 1);
    AddStatementMirrors(Ensure(st).blocks, Ensure(st).current.value, c);
  }

  /** Lowering records every new edge at both of its ends. */
  lemma {:induction false} LowerMirrors(st: State, c: Stmt)
    requires Mirrored(st.blocks)
    ensures Mirrored(Lower(st, c).blocks)
    decreases c, 1
  {
    hide Mirrored, AddEdge, AddStatement, NewBlocks;
    match c
    case Assign(_, _) => AppendMirrors(st, c);
    case Let(xs, es) =>
      AppendMirrors(st, c);
      LowerLetMirrors(Ensure(st), xs, es);
    case If(_, t) =>
      var a := Append(st, c);
      AppendMirrors(st, c);
      NewBlocksMirror(a.blocks, 2);
      AddEdgeMirrors(NewBlocks(a.blocks, 2), a.current.value, |a.blocks|);
      AddEdgeMirrors(AddEdge(NewBlocks(a.blocks, 2), a.current.value, |a.blocks|), a.current.value, |a.blocks| + 1);
      LowerMirrors(EnterIf(st, c), t);
      FallIntoMirrors(Lower(EnterIf(st, c), t), EnterIf(st, c).current.value + 1);
    case For(_, _, _, _, body) =>
      EnterForMirrors(st, c);
      LowerMirrors(EnterFor(st, c), body);
      LeaveForMirrors(st, c, |Ensure(st).blocks|, Lower(EnterFor(st, c), body));
    case Switchon(_, cases, d) =>
      var join := |StartNew(st).blocks|;
      EnterSwitchMirrors(st, c);
      LowerCasesMirror(EnterSwitch(st, c), cases, join + 1, join);
      if d.Some? {
        LowerArmMirrors(LowerCases(EnterSwitch(st, c), cases, join + 1, join), join + 1 + |cases|, d.value, join);
      }
    case Compound(cs) => LowerAllMirrors(st, cs);
    case Break => JumpMirrors(st, c, st.breaks);
    case Loop => JumpMirrors(st, c, st.loops);
    case Endcase => JumpMirrors(st, c, st.endcases);
    case Return =>
      var a := Append(st, Return);
      AppendMirrors(st, Return);
      AppendMirrors(a, c);
      AddEdgeMirrors(NeedExit(a).blocks, a.current.value, NeedExit(a).exit.value);
    case ConditionalBranch(_, _) =>
  }

  lemma FallIntoMirrors(st: State, to: nat)
    requires Mirrored(st.blocks)
    ensures Mirrored(FallInto(st, to).blocks)
  {
    hide Mirrored, AddEdge;
    if st.current.Some? {
      AddEdgeMirrors(st.blocks, st.current.value, to);
    }
  }

  lemma JumpMirrors(st: State, c: Stmt, targets: seq<nat>)
    requires Mirrored(st.blocks)
    ensures Mirrored(Jump(st, c, targets).blocks)
  {
    hide Mirrored, AddEdge, AddStatement;
    AppendMirrors(st, c);
    if targets != [] {
      AddEdgeMirrors(Append(st, c).blocks, Append(st, c).current.value, targets[|targets| - 1]);
    }
  }

  lemma EnterForMirrors(st: State, c: Stmt)
    requires Mirrored(st.blocks) && c.For?
    ensures Mirrored(EnterFor(st, c).blocks)
  {
    hide Mirrored, AddEdge, AddStatement, NewBlocks;
    var a := Append(st, Assign([c.variable], [c.start]));
    var n := |a.blocks|;
    AppendMirrors(st, Assign([c.variable], [c.start]));
    NewBlocksMirror(a.blocks, 4);
    AddEdgeMirrors(NewBlocks(a.blocks, 4), a.current.value, n);
    var b := AddEdge(NewBlocks(a.blocks, 4), a.current.value, n);
    AddStatementMirrors(b, n, c);
    AddEdgeMirrors(AddStatement(b, n, c), n, n + 1);
    AddEdgeMirrors(AddEdge(AddStatement(b, n, c), n, n + 1), n, n + 3);
  }

  lemma LeaveForMirrors(st: State, c: Stmt, header: nat, body: State)
    requires Mirrored(body.blocks) && c.For?
    ensures Mirrored(LeaveFor(st, c, header, body).blocks)
  {
    hide Mirrored, AddEdge, AddStatement;
    if body.current.Some? {
      AddEdgeMirrors(body.blocks, body.current.value, header + 2);
    }
    var a := if body.current.Some? then AddEdge(body.blocks, body.current.value, header + 2) else body.blocks;
    AddStatementMirrors(a, header + 2, Increment(c.variable, c.step));
    AddEdgeMirrors(AddStatement(a, header + 2, Increment(c.variable, c.step)), header + 2, header);
  }

  lemma EnterSwitchMirrors(st: State, c: Stmt)
    requires Mirrored(st.blocks) && c.Switchon?
    ensures Mirrored(EnterSwitch(st, c).blocks)
  {
    hide Mirrored, AddEdge, AddStatement, NewBlocks, AddFan;
    var a := StartNew(st);
    NewBlocksMirror(st.blocks, 1);
    if st.current.Some? {
      AddEdgeMirrors(NewBlocks(st.blocks, 1), st.current.value, |st.blocks|);
    }
    var here, join, arms := a.current.value, |a.blocks|, |c.cases| + (if c.defaultCase.Some? then 1 else 0);
    AddStatementMirrors(a.blocks, here, c);
    var b := NewBlocks(AddStatement(a.blocks, here, c), arms + 1);
    NewBlocksMirror(AddStatement(a.blocks, here, c), arms + 1);
    AddFanMirrors(b, here, join + 1, arms);
    AddEdgeMirrors(AddFan(b, here, join + 1, arms), here, join);
  }

  lemma {:induction false} LowerLetMirrors(st: State, xs: seq<string>, es: seq<Expr>)
    requires Mirrored(st.blocks)
    ensures Mirrored(LowerLet(st, xs, es).blocks)
    decreases |xs|
  {
    hide Mirrored, Append;
    if xs != [] && es != [] {
      AppendMirrors(st, Assign([xs[0]], [es[0]]));
      LowerLetMirrors(Append(st, Assign([xs[0]], [es[0]])), xs[1..], es[1..]);
    }
  }

  lemma {:induction false} LowerAllMirrors(st: State, cs: seq<Stmt>)
    requires Mirrored(st.blocks)
    ensures Mirrored(LowerAll(st, cs).blocks)
    decreases cs, 0
  {
    hide Mirrored, Lower, Ensure;
    if cs != [] {
      AppendMirrors(st, cs[0]);
      LowerMirrors(Ensure(st), cs[0]);
      LowerAllMirrors(Lower(Ensure(st), cs[0]), cs[1..]);
    }
  }

  lemma {:induction false} LowerArmMirrors(st: State, block: nat, c: Stmt, join: nat)
    requires Mirrored(st.blocks)
    ensures Mirrored(LowerArm(st, block, c, join).blocks)
    decreases c, 2
  {
    hide Mirrored, Lower, FallInto;
    LowerMirrors(st.(current := Some(block)), c);
    FallIntoMirrors(Lower(st.(current := Some(block)), c), join);
  }

  lemma {:induction false} LowerCasesMirror(st: State, cases: seq<Case>, block: nat, join: nat)
    requires Mirrored(st.blocks)
    ensures Mirrored(LowerCases(st, cases, block, join).blocks)
    decreases cases, 0
  {
    hide Mirrored, LowerArm;
    if cases != [] {
      assert cases[0] in cases && cases[0].command < cases[0];
      LowerArmMirrors(st, block, cases[0].command, join);
      LowerCasesMirror(LowerArm(st, block, cases[0].command, join), cases[1..], block + 1, join);
    }
  }

  /** In a finished graph successor and predecessor lists mirror each other. */
  lemma GraphIsMirrored(body: Stmt)
    ensures Mirrored(Graph(body))
  {
    LowerMirrors(INITIAL, body);
    hide Mirrored, AddEdge, Lower;
    var a := Lower(INITIAL, body);
    if a.current.Some? {
      AppendMirrors(a, Return);
      AddEdgeMirrors(NeedExit(a).blocks, a.current.value, NeedExit(a).exit.value);
    }
  }
}
