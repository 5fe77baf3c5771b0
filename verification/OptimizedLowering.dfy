/** Graph building followed by common subexpression elimination, as one transformation of whole functions. */
module OptimizedLowering {
  import opened Wrappers
  import opened Ast
  import opened Machine
  import opened StructuredSemantics
  import opened CfgLowering
  import opened CfgTheorems
  import opened CseKey
  import opened Liveness
  import opened LocalCse

  /** Source names only; with `strict`, also no unary or conditional parts. */
  ghost predicate Plain(strict: bool, e: Expr) {
    SourceOnly(e) && (strict ==> Transparent(e))
  }

  ghost predicate PlainStmt(strict: bool, c: Stmt) {
    CleanStmt(c) && (c.Assign? ==> forall e :: e in c.values ==> Plain(strict, e))
  }

  ghost predicate PlainBlock(strict: bool, b: Block) {
    forall c :: c in b.stmts ==> PlainStmt(strict, c)
  }

  /** The same for every part of a body. */
  ghost predicate PlainBody(strict: bool, c: Stmt) {
    match c
    case Assign(_, _) => PlainStmt(strict, c)
    case Let(xs, es) => PlainStmt(strict, Assign(xs, es))
    case If(e, t) => SourceOnly(e) && PlainBody(strict, t)
    case For(x, start, end, step, body) =>
      IsSource(x) && Plain(strict, start) && SourceOnly(end) && Plain(strict, StepOf(step)) && PlainBody(strict, body)
    case Switchon(e, cases, d) =>
      && SourceOnly(e)
      && (forall k :: k in cases ==> PlainBody(strict, k.command))
      && (d.Some? ==> PlainBody(strict, d.value))
    case Compound(cs) => forall k :: k in cs ==> PlainBody(strict, k)
    case _ => true
  }

  ghost predicate AllPlain(strict: bool, blocks: seq<Block>) {
    forall i :: 0 <= i < |blocks| ==> PlainBlock(strict, blocks[i])
  }

  lemma AddEdgeKeepsPlain(strict: bool, blocks: seq<Block>, from: nat, to: nat)
    requires AllPlain(strict, blocks)
    ensures AllPlain(strict, AddEdge(blocks, from, to))
  {
    hide PlainStmt;
  }

  lemma NewBlocksKeepPlain(strict: bool, blocks: seq<Block>, n: nat)
    requires AllPlain(strict, blocks)
    ensures AllPlain(strict, NewBlocks(blocks, n))
  {
    hide PlainStmt;
  }

  lemma AddStatementKeepsPlain(strict: bool, blocks: seq<Block>, i: nat, c: Stmt)
    requires AllPlain(strict, blocks) && PlainStmt(strict, c)
    ensures AllPlain(strict, AddStatement(blocks, i, c))
  {
    hide PlainStmt;
  }

  lemma {:induction false} AddFanKeepsPlain(strict: bool, blocks: seq<Block>, from: nat, first: nat, n: nat)
    requires AllPlain(strict, blocks)
    ensures AllPlain(strict, AddFan(blocks, from, first, n))
    decreases n
  {
    hide AllPlain, AddEdge;
    if n > 0 {
      AddFanKeepsPlain(strict, blocks, from, first, n - 1);
      AddEdgeKeepsPlain(strict, AddFan(blocks, from, first, n - 1), from, first + n - 1);
    }
  }

  lemma AppendKeepsPlain(strict: bool, st: State, c: Stmt)
    requires AllPlain(strict, st.blocks)
    ensures AllPlain(strict, Ensure(st).blocks) && AllPlain(strict, NeedExit(st).blocks)
    ensures PlainStmt(strict, c) ==> AllPlain(strict, Append(st, c).blocks)
  {
    hide AllPlain, PlainStmt;
    NewBlocksKeepPlain(strict, st.blocks, 1);
    if PlainStmt(strict, c) {
      AddStatementKeepsPlain(strict, Ensure(st).blocks, Ensure(st).current.value, c);
    }
  }

  lemma FallIntoKeepsPlain(strict: bool, st: State, to: nat)
    requires AllPlain(strict, st.blocks)
    ensures AllPlain(strict, FallInto(st, to).blocks)
  {
    hide AllPlain, AddEdge;
    if st.current.Some? {
      AddEdgeKeepsPlain(strict, st.blocks, st.current.value, to);
    }
  }

  lemma JumpKeepsPlain(strict: bool, st: State, c: Stmt, targets: seq<nat>)
    requires AllPlain(strict, st.blocks) && PlainStmt(strict, c)
    ensures AllPlain(strict, Jump(st, c, targets).blocks)
  {
    hide AllPlain, AddEdge, PlainStmt;
    AppendKeepsPlain(strict, st, c);
    if targets != [] {
      AddEdgeKeepsPlain(strict, Append(st, c).blocks, Append(st, c).current.value, targets[|targets| - 1]);
    }
  }

  lemma EnterForKeepsPlain(strict: bool, st: State, c: Stmt)
    requires AllPlain(strict, st.blocks) && c.For? && PlainBody(strict, c)
    ensures AllPlain(strict, EnterFor(st, c).blocks)
  {
    var init := Assign([c.variable], [c.start]);
    assert PlainStmt(strict, init) && PlainStmt(strict, c);
    hide AllPlain, AddEdge, AddStatement, NewBlocks, PlainStmt;
    var a := Append(st, init);
    var n := |a.blocks|;
    AppendKeepsPlain(strict, st, init);
    NewBlocksKeepPlain(strict, a.blocks, 4);
    AddEdgeKeepsPlain(strict, NewBlocks(a.blocks, 4), a.current.value, n);
    var b := AddEdge(NewBlocks(a.blocks, 4), a.current.value, n);
    AddStatementKeepsPlain(strict, b, n, c);
    AddEdgeKeepsPlain(strict, AddStatement(b, n, c), n, n + 1);
    AddEdgeKeepsPlain(strict, AddEdge(AddStatement(b, n, c), n, n + 1), n, n + 3);
  }

  lemma IncrementIsPlain(strict: bool, x: string, step: Option<Expr>)
    requires IsSource(x) && Plain(strict, StepOf(step))
    ensures PlainStmt(strict, Increment(x, step))
  {
    var e := Binary(Add, Variable(x), StepOf(step));
    hide IsName, IsTemp;
    assert Vars(e) == Vars(Variable(x)) + Vars(StepOf(step)) && Vars(Variable(x)) == {x};
    assert Transparent(Variable(x)) && Plain(strict, e);
  }

  lemma LeaveForKeepsPlain(strict: bool, st: State, c: Stmt, header: nat, body: State)
    requires AllPlain(strict, body.blocks) && c.For? && PlainBody(strict, c)
    ensures AllPlain(strict, LeaveFor(st, c, header, body).blocks)
  {
    IncrementIsPlain(strict, c.variable, c.step);
    hide AllPlain, AddEdge, AddStatement, PlainStmt;
    if body.current.Some? {
      AddEdgeKeepsPlain(strict, body.blocks, body.current.value, header + 2);
    }
    var a := if body.current.Some? then AddEdge(body.blocks, body.current.value, header + 2) else body.blocks;
    AddStatementKeepsPlain(strict, a, header + 2, Increment(c.variable, c.step));
    AddEdgeKeepsPlain(strict, AddStatement(a, header + 2, Increment(c.variable, c.step)), header + 2, header);
  }

  lemma EnterSwitchKeepsPlain(strict: bool, st: State, c: Stmt)
    requires AllPlain(strict, st.blocks) && c.Switchon? && PlainStmt(strict, c)
    ensures AllPlain(strict, EnterSwitch(st, c).blocks)
  {
    hide AllPlain, AddEdge, AddStatement, NewBlocks, AddFan, PlainStmt;
    var a := StartNew(st);
    NewBlocksKeepPlain(strict, st.blocks, 1);
    if st.current.Some? {
      AddEdgeKeepsPlain(strict, NewBlocks(st.blocks, 1), st.current.value, |st.blocks|);
    }
    var here, join, arms := a.current.value, |a.blocks|, |c.cases| + (if c.defaultCase.Some? then 1 else 0);
    AddStatementKeepsPlain(strict, a.blocks, here, c);
    var b := NewBlocks(AddStatement(a.blocks, here, c), arms + 1);
    NewBlocksKeepPlain(strict, AddStatement(a.blocks, here, c), arms + 1);
    AddFanKeepsPlain(strict, b, here, join + 1, arms);
    AddEdgeKeepsPlain(strict, AddFan(b, here, join + 1, arms), here, join);
  }

  lemma {:induction false} LowerLetKeepsPlain(strict: bool, st: State, xs: seq<string>, es: seq<Expr>)
    requires AllPlain(strict, st.blocks) && PlainStmt(strict, Assign(xs, es))
    ensures AllPlain(strict, LowerLet(st, xs, es).blocks)
    decreases |xs|
  {
    hide AllPlain, Append, Plain, IsSource;
    if xs != [] && es != [] {
      assert es[0] in es && xs[0] in xs;
      AppendKeepsPlain(strict, st, Assign([xs[0]], [es[0]]));
      LowerLetKeepsPlain(strict, Append(st, Assign([xs[0]], [es[0]])), xs[1..], es[1..]);
    }
  }

  /** Lowering a clean body puts only clean statements into blocks. */
  lemma {:induction false} LowerKeepsPlain(strict: bool, st: State, c: Stmt)
    requires AllPlain(strict, st.blocks) && PlainBody(strict, c)
    ensures AllPlain(strict, Lower(st, c).blocks)
    decreases c, 1
  {
    hide AllPlain, AddEdge, AddStatement, NewBlocks, SourceOnly, Transparent, IsSource;
    match c
    case Assign(_, _) => AppendKeepsPlain(strict, st, c);
    case Let(xs, es) =>
      AppendKeepsPlain(strict, st, c);
      LowerLetKeepsPlain(strict, Ensure(st), xs, es);
    case If(_, t) =>
      var a := Append(st, c);
      AppendKeepsPlain(strict, st, c);
      NewBlocksKeepPlain(strict, a.blocks, 2);
      AddEdgeKeepsPlain(strict, NewBlocks(a.blocks, 2), a.current.value, |a.blocks|);
      AddEdgeKeepsPlain(strict, AddEdge(NewBlocks(a.blocks, 2), a.current.value, |a.blocks|), a.current.value, |a.blocks| + 1);
      LowerKeepsPlain(strict, EnterIf(st, c), t);
      FallIntoKeepsPlain(strict, Lower(EnterIf(st, c), t), EnterIf(st, c).current.value + 1);
    case For(_, _, _, _, body) =>
      EnterForKeepsPlain(strict, st, c);
      LowerKeepsPlain(strict, EnterFor(st, c), body);
      LeaveForKeepsPlain(strict, st, c, |Ensure(st).blocks|, Lower(EnterFor(st, c), body));
    case Switchon(_, cases, d) =>
      var join := |StartNew(st).blocks|;
      EnterSwitchKeepsPlain(strict, st, c);
      LowerCasesKeepPlain(strict, EnterSwitch(st, c), cases, join + 1, join);
      if d.Some? {
        LowerArmKeepsPlain(strict, LowerCases(EnterSwitch(st, c), cases, join + 1, join), join + 1 + |cases|, d.value, join);
      }
    case Compound(cs) => LowerAllKeepsPlain(strict, st, cs);
    case Break => JumpKeepsPlain(strict, st, c, st.breaks);
    case Loop => JumpKeepsPlain(strict, st, c, st.loops);
    case Endcase => JumpKeepsPlain(strict, st, c, st.endcases);
    case Return =>
      var a := Append(st, Return);
      AppendKeepsPlain(strict, st, Return);
      AppendKeepsPlain(strict, a, c);
      AddEdgeKeepsPlain(strict, NeedExit(a).blocks, a.current.value, NeedExit(a).exit.value);
    case ConditionalBranch(_, _) =>
  }

  lemma {:induction false} LowerAllKeepsPlain(strict: bool, st: State, cs: seq<Stmt>)
    requires AllPlain(strict, st.blocks) && forall k :: k in cs ==> PlainBody(strict, k)
    ensures AllPlain(strict, LowerAll(st, cs).blocks)
    decreases cs, 0
  {
    hide AllPlain, Lower, Ensure, PlainBody;
    if cs != [] {
      AppendKeepsPlain(strict, st, cs[0]);
      LowerKeepsPlain(strict, Ensure(st), cs[0]);
      LowerAllKeepsPlain(strict, Lower(Ensure(st), cs[0]), cs[1..]);
    }
  }

  lemma {:induction false} LowerArmKeepsPlain(strict: bool, st: State, block: nat, c: Stmt, join: nat)
    requires AllPlain(strict, st.blocks) && PlainBody(strict, c)
    ensures AllPlain(strict, LowerArm(st, block, c, join).blocks)
    decreases c, 2
  {
    hide AllPlain, Lower, FallInto, PlainBody;
    LowerKeepsPlain(strict, st.(current := Some(block)), c);
    FallIntoKeepsPlain(strict, Lower(st.(current := Some(block)), c), join);
  }

  lemma {:induction false} LowerCasesKeepPlain(strict: bool, st: State, cases: seq<Case>, block: nat, join: nat)
    requires AllPlain(strict, st.blocks) && forall k :: k in cases ==> PlainBody(strict, k.command)
    ensures AllPlain(strict, LowerCases(st, cases, block, join).blocks)
    decreases cases, 0
  {
    hide AllPlain, LowerArm, PlainBody;
    if cases != [] {
      assert cases[0] in cases && cases[0].command < cases[0];
      LowerArmKeepsPlain(strict, st, block, cases[0].command, join);
      LowerCasesKeepPlain(strict, LowerArm(st, block, cases[0].command, join), cases[1..], block + 1, join);
    }
  }

  lemma GraphIsPlain(strict: bool, body: Stmt)
    requires PlainBody(strict, body)
    ensures AllPlain(strict, Graph(body))
  {
    hide PlainBody, PlainStmt, Lower, AddEdge;
    assert AllPlain(strict, INITIAL.blocks);
    LowerKeepsPlain(strict, INITIAL, body);
    var a := Lower(INITIAL, body);
    AppendKeepsPlain(strict, a, Return);
    if a.current.Some? {
      AddEdgeKeepsPlain(strict, NeedExit(a).blocks, a.current.value, NeedExit(a).exit.value);
    }
  }

  /** In every block temporaries are used for what they hold. */
  predicate FitGraph(g: seq<Block>) {
    forall b :: b in g ==> FitBlock(b)
  }

  lemma GraphIsClean(body: Stmt)
    requires PlainBody(false, body) && FitGraph(Graph(body))
    ensures CleanGraph(Graph(body))
  {
    GraphIsPlain(false, body);
    hide Graph, PlainBody, SourceOnly, IsSource, Transparent, FitBlock;
    var g := Graph(body);
    forall b | b in g
      ensures CleanBlock(b)
    {
      var i :| 0 <= i < |g| && g[i] == b;
      assert PlainBlock(false, b);
    }
  }

  /** A body without unary and conditional parts in what it assigns meets both conditions. */
  lemma StrictIsEnough(body: Stmt)
    requires PlainBody(true, body)
    ensures PlainBody(false, body) && FitGraph(Graph(body))
  {
    StrictIsPlain(body);
    GraphIsPlain(true, body);
    hide Graph, PlainBody, Hoistable, SourceOnly, IsSource, Transparent, CountStmts, FitThrough;
    var g := Graph(body);
    forall b | b in g
      ensures FitBlock(b)
    {
      var i :| 0 <= i < |g| && g[i] == b;
      assert PlainBlock(true, b);
      TransparentIsFit(CountStmts(b.stmts, map[]), b.stmts, |b.stmts|);
    }
  }

  lemma {:induction false} StrictIsPlain(body: Stmt)
    requires PlainBody(true, body)
    ensures PlainBody(false, body)
  {
    match body
    case If(_, t) => StrictIsPlain(t);
    case For(_, _, _, _, b) => StrictIsPlain(b);
    case Switchon(_, cases, d) =>
      forall k | k in cases
        ensures PlainBody(false, k.command)
      {
        StrictIsPlain(k.command);
      }
      if d.Some? {
        StrictIsPlain(d.value);
      }
    case Compound(cs) =>
      forall k | k in cs
        ensures PlainBody(false, k)
      {
        StrictIsPlain(k);
      }
    case _ =>
  }

  ghost predicate Yields(body: Stmt, s: Store, x: string, v: Word) {
    exists fuel: nat, t :: Finishes(Exec(body, s, fuel), t) && Lookup(t, x) == v
  }

  /** From source to optimised graph: a variable ends with a value in the one exactly when it does in the other,
    * and the one goes on for ever exactly when the other does.
    */
  lemma LoweringAndEliminationAreCorrect(body: Stmt, s: Store, x: string, v: Word)
    requires PlainBody(false, body) && FitGraph(Graph(body)) && IsSource(x)
    ensures Yields(body, s, x, v) <==> Reaches(OptimizeGraph(Graph(body)), s, x, v)
    ensures LoopsForEver(body, s) <==> RunsForEver(OptimizeGraph(Graph(body)), s)
  {
    GraphIsClean(body);
    hide PlainBody, FitGraph, CleanGraph, Graph, OptimizeGraph, IsSource, Run, Exec, Finishes;
    var g := Graph(body);
    EliminationIsCorrect(g, s, x, v);
    LoweringKeepsDivergence(body, s);
    if Yields(body, s, x, v) {
      var fuel: nat, t :| Finishes(Exec(body, s, fuel), t) && Lookup(t, x) == v;
      var n := FinishIsRun(body, s, fuel, t);
    }
    if Reaches(g, s, x, v) {
      var n: nat :| var k := Run(g, At(0, 0, s), n); k.Done? && Lookup(k.store, x) == v;
      var fuel := RunIsFinish(body, s, n);
    }
  }

  lemma FinishIsRun(body: Stmt, s: Store, fuel: nat, t: Store) returns (n: nat)
    requires Finishes(Exec(body, s, fuel), t)
    ensures Run(Graph(body), At(0, 0, s), n) == Done(t)
  {
    hide Graph, Run, Exec;
    n := GraphSimulates(body, s, fuel);
  }

  lemma RunIsFinish(body: Stmt, s: Store, n: nat) returns (fuel: nat)
    requires Run(Graph(body), At(0, 0, s), n).Done?
    ensures Finishes(Exec(body, s, fuel), Run(Graph(body), At(0, 0, s), n).store)
  {
    hide Graph, Run, Exec;
    StopExplained(body, s, n);
    fuel := n + 1;
  }
}
