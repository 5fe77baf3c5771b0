/** When code generation for a finished graph reports an error. */
module CfgEmission {
  import opened Wrappers
  import opened Ast
  import opened Machine
  import opened CfgLowering
  import opened CfgShape
  import opened CfgTheorems

  /** The generator refuses unbalanced assignments and cases without a resolved constant. */
  predicate StatementEmits(c: Stmt) {
    match c
    case Assign(xs, es) => |xs| == |es|
    case Let(xs, es) => |xs| == |es|
    case Switchon(_, cases, _) => forall k :: 0 <= k < |cases| ==> cases[k].constant.Some?
    case _ => true
  }

  /** The branch at the end of a block is one the generator knows. */
  predicate ExitEmits(b: Block) {
    |b.succs| <= 1 ||
    (b.stmts != [] && match b.stmts[|b.stmts| - 1] {
       case If(_, _) => |b.succs| == 2
       case For(_, _, _, _, _) => |b.succs| == 2
       case ConditionalBranch(_, _) => |b.succs| == 2
       case Switchon(_, cases, d) => |b.succs| > |cases|
       case _ => false
     })
  }

  ghost predicate StatementsEmit(blocks: seq<Block>) {
    forall i, k :: 0 <= i < |blocks| && 0 <= k < |blocks[i].stmts| ==> StatementEmits(blocks[i].stmts[k])
  }

  ghost predicate Emits(g: seq<Block>) {
    StatementsEmit(g) && forall i :: 0 <= i < |g| ==> ExitEmits(g[i])
  }

  /** The same conditions, read off the body alone. */
  predicate Balanced(c: Stmt) {
    match c
    case Assign(xs, es) => |xs| == |es|
    case If(_, t) => Balanced(t)
    case For(_, _, _, _, body) => Balanced(body)
    case Switchon(_, cases, d) =>
      && (forall k :: k in cases ==> k.constant.Some? && Balanced(k.command))
      && (d.Some? ==> Balanced(d.value))
    case Compound(cs) => forall k :: k in cs ==> Balanced(k)
    case _ => true
  }

  predicate InBounds(st: State) {
    st.current.Some? ==> st.current.value < |st.blocks|
  }

  lemma EdgesEmitNothing(blocks: seq<Block>, from: nat, to: nat)
    ensures StatementsEmit(AddEdge(blocks, from, to)) == StatementsEmit(blocks)
    ensures |AddEdge(blocks, from, to)| == |blocks|
  {
    var r := AddEdge(blocks, from, to);
    hide StatementEmits;
    assert |r| == |blocks| && forall i :: 0 <= i < |r| ==> r[i].stmts == blocks[i].stmts;
    if StatementsEmit(r) {
      forall i, k | 0 <= i < |blocks| && 0 <= k < |blocks[i].stmts|
        ensures StatementEmits(blocks[i].stmts[k])
      {
        assert StatementEmits(r[i].stmts[k]);
      }
    }
  }

  lemma {:induction false} FansEmitNothing(blocks: seq<Block>, from: nat, first: nat, n: nat)
    ensures StatementsEmit(AddFan(blocks, from, first, n)) == StatementsEmit(blocks)
    ensures |AddFan(blocks, from, first, n)| == |blocks|
    decreases n
  {
    hide StatementsEmit, AddEdge;
    if n > 0 {
      FansEmitNothing(blocks, from, first, n - 1);
      EdgesEmitNothing(AddFan(blocks, from, first, n - 1), from, first + n - 1);
    }
  }

  lemma NewBlocksEmitNothing(blocks: seq<Block>, n: nat)
    ensures StatementsEmit(NewBlocks(blocks, n)) == StatementsEmit(blocks)
    ensures |NewBlocks(blocks, n)| == |blocks| + n
  {
    var r := NewBlocks(blocks, n);
    hide StatementEmits;
    if StatementsEmit(r) {
      forall i, k | 0 <= i < |blocks| && 0 <= k < |blocks[i].stmts|
        ensures StatementEmits(blocks[i].stmts[k])
      {
        assert StatementEmits(r[i].stmts[k]);
      }
    }
  }

  lemma StatementEmitsItself(blocks: seq<Block>, i: nat, c: Stmt)
    requires i < |blocks|
    ensures StatementsEmit(AddStatement(blocks, i, c)) == (StatementsEmit(blocks) && StatementEmits(c))
    ensures |AddStatement(blocks, i, c)| == |blocks|
  {
    var r := AddStatement(blocks, i, c);
    hide StatementEmits;
    assert r[i].stmts == blocks[i].stmts + [c];
    if StatementsEmit(r) {
      assert StatementEmits(r[i].stmts[|blocks[i].stmts|]);
      forall j, k | 0 <= j < |blocks| && 0 <= k < |blocks[j].stmts|
        ensures StatementEmits(blocks[j].stmts[k])
      {
        assert StatementEmits(r[j].stmts[k]);
      }
    }
  }

  /** What one step of the builder adds to the conditions collected so far. */
  ghost predicate Adds(a: State, b: State, condition: bool) {
    && InBounds(b) && |a.blocks| <= |b.blocks|
    && StatementsEmit(b.blocks) == (StatementsEmit(a.blocks) && condition)
  }

  lemma AppendAdds(st: State, c: Stmt)
    requires InBounds(st)
    ensures Adds(st, Ensure(st), true) && Adds(st, Append(st, c), StatementEmits(c)) && Adds(st, NeedExit(st), true)
  {
    hide StatementsEmit, StatementEmits, NewBlocks, AddStatement;
    NewBlocksEmitNothing(st.blocks, 1);
    StatementEmitsItself(Ensure(st).blocks, Ensure(st).current.value, c);
  }

  lemma FallIntoAdds(st: State, to: nat)
    requires InBounds(st)
    ensures Adds(st, FallInto(st, to), true)
  {
    hide StatementsEmit, AddEdge;
    if st.current.Some? {
      EdgesEmitNothing(st.blocks, st.current.value, to);
    }
  }

  lemma JumpAdds(st: State, c: Stmt, targets: seq<nat>)
    requires InBounds(st) && (c.Break? || c.Loop? || c.Endcase?)
    ensures Adds(st, Jump(st, c, targets), true)
  {
    hide StatementsEmit, AddEdge, Append;
    AppendAdds(st, c);
    if targets != [] {
      EdgesEmitNothing(Append(st, c).blocks, Append(st, c).current.value, targets[|targets| - 1]);
    }
  }

  lemma ReturnAdds(st: State)
    requires InBounds(st)
    ensures Adds(st, LowerReturn(st), true)
  {
    hide StatementsEmit, AddEdge, Append, NeedExit;
    var a := Append(st, Return);
    AppendAdds(st, Return);
    AppendAdds(a, Return);
    EdgesEmitNothing(NeedExit(a).blocks, a.current.value, NeedExit(a).exit.value);
  }

  lemma EnterIfAdds(st: State, c: Stmt)
    requires InBounds(st) && c.If?
    ensures Adds(st, EnterIf(st, c), true)
  {
    hide StatementsEmit, AddEdge, Append, NewBlocks;
    var a := Append(st, c);
    AppendAdds(st, c);
    var b := NewBlocks(a.blocks, 2);
    NewBlocksEmitNothing(a.blocks, 2);
    EdgesEmitNothing(b, a.current.value, |a.blocks|);
    EdgesEmitNothing(AddEdge(b, a.current.value, |a.blocks|), a.current.value, |a.blocks| + 1);
  }

  lemma EnterForAdds(st: State, c: Stmt)
    requires InBounds(st) && c.For?
    ensures Adds(st, EnterFor(st, c), true) && |EnterFor(st, c).blocks| == |Ensure(st).blocks| + 4
  {
    var init := Assign([c.variable], [c.start]);
    var a := Append(st, init);
    AppendAdds(st, init);
    assert |a.blocks| == |Ensure(st).blocks|;
    hide StatementsEmit, StatementEmits, AddEdge, Append, NewBlocks, AddStatement, Ensure;
    var n := |a.blocks|;
    NewBlocksEmitNothing(a.blocks, 4);
    var b := AddEdge(NewBlocks(a.blocks, 4), a.current.value, n);
    EdgesEmitNothing(NewBlocks(a.blocks, 4), a.current.value, n);
    StatementEmitsItself(b, n, c);
    var d := AddStatement(b, n, c);
    EdgesEmitNothing(d, n, n + 1);
    EdgesEmitNothing(AddEdge(d, n, n + 1), n, n + 3);
  }

  lemma LeaveForAdds(st: State, c: Stmt, header: nat, body: State)
    requires InBounds(body) && c.For? && header + 4 <= |body.blocks|
    ensures Adds(body, LeaveFor(st, c, header, body), true)
  {
    hide StatementsEmit, AddEdge, AddStatement;
    if body.current.Some? {
      EdgesEmitNothing(body.blocks, body.current.value, header + 2);
    }
    var a := if body.current.Some? then AddEdge(body.blocks, body.current.value, header + 2) else body.blocks;
    var d := Increment(c.variable, c.step);
    StatementEmitsItself(a, header + 2, d);
    EdgesEmitNothing(AddStatement(a, header + 2, d), header + 2, header);
  }

  lemma EnterSwitchAdds(st: State, c: Stmt)
    requires InBounds(st) && c.Switchon?
    ensures Adds(st, EnterSwitch(st, c), StatementEmits(c))
    ensures |EnterSwitch(st, c).blocks| == |StartNew(st).blocks| + 1 + Arms(c)
  {
    hide StatementsEmit, StatementEmits, AddEdge, AddStatement, NewBlocks, AddFan, EndsWithControlFlow;
    var a := StartNew(st);
    NewBlocksEmitNothing(st.blocks, 1);
    if st.current.Some? {
      EdgesEmitNothing(NewBlocks(st.blocks, 1), st.current.value, |st.blocks|);
    }
    var here, join := a.current.value, |a.blocks|;
    StatementEmitsItself(a.blocks, here, c);
    var b := NewBlocks(AddStatement(a.blocks, here, c), Arms(c) + 1);
    NewBlocksEmitNothing(AddStatement(a.blocks, here, c), Arms(c) + 1);
    FansEmitNothing(b, here, join + 1, Arms(c));
    EdgesEmitNothing(AddFan(b, here, join + 1, Arms(c)), here, join);
  }

  /** Lowering a statement adds exactly that statement's conditions, dead code included. */
  lemma {:induction false} LowerAdds(st: State, c: Stmt)
    requires InBounds(st)
    ensures Adds(st, Lower(st, c), Balanced(c))
    decreases c, 1
  {
    hide StatementsEmit, Append, Ensure, EnterIf, EnterFor, LeaveFor, EnterSwitch, StartNew, FallInto, Jump, LowerReturn, AddEdge;
    match c
    case Assign(_, _) => AppendAdds(st, c);
    case Let(xs, es) =>
      AppendAdds(st, c);
      LowerLetAdds(Ensure(st), xs, es);
    case If(_, t) =>
      var a := EnterIf(st, c);
      EnterIfAdds(st, c);
      LowerAdds(a, t);
      FallIntoAdds(Lower(a, t), a.current.value + 1);
      IfInBounds(st, c);
    case For(_, _, _, _, body) =>
      EnterForAdds(st, c);
      LowerAdds(EnterFor(st, c), body);
      LeaveForAdds(st, c, |Ensure(st).blocks|, Lower(EnterFor(st, c), body));
    case Switchon(_, cases, d) =>
      var join := |StartNew(st).blocks|;
      var a := EnterSwitch(st, c);
      var x := LowerCases(a, cases, join + 1, join);
      EnterSwitchAdds(st, c);
      LowerCasesAdd(a, cases, join + 1, join);
      if d.Some? {
        LowerArmAdds(x, join + 1 + |cases|, d.value, join);
      }
      SwitchBalanced(c);
    case Compound(cs) => LowerAllAdds(st, cs);
    case Break => JumpAdds(st, c, st.breaks);
    case Loop => JumpAdds(st, c, st.loops);
    case Endcase => JumpAdds(st, c, st.endcases);
    case Return => ReturnAdds(st);
    case ConditionalBranch(_, _) =>
  }

  lemma IfInBounds(st: State, c: Stmt)
    requires InBounds(st) && c.If?
    ensures EnterIf(st, c).current.value + 1 < |EnterIf(st, c).blocks|
  {
  }

  lemma SwitchBalanced(c: Stmt)
    requires c.Switchon?
    ensures Balanced(c) == (StatementEmits(c) && (forall k :: k in c.cases ==> Balanced(k.command)) &&
                            (c.defaultCase.Some? ==> Balanced(c.defaultCase.value)))
  {
    if StatementEmits(c) {
      assert forall k :: k in c.cases ==> k.constant.Some?;
    }
    if forall k :: k in c.cases ==> k.constant.Some? {
      assert forall k :: 0 <= k < |c.cases| ==> c.cases[k] in c.cases;
    }
  }

  lemma {:induction false} LowerLetAdds(st: State, xs: seq<string>, es: seq<Expr>)
    requires InBounds(st)
    ensures Adds(st, LowerLet(st, xs, es), true)
    decreases |xs|
  {
    hide StatementsEmit, Append;
    if xs != [] && es != [] {
      AppendAdds(st, Assign([xs[0]], [es[0]]));
      LowerLetAdds(Append(st, Assign([xs[0]], [es[0]])), xs[1..], es[1..]);
    }
  }

  lemma {:induction false} LowerAllAdds(st: State, cs: seq<Stmt>)
    requires InBounds(st)
    ensures Adds(st, LowerAll(st, cs), forall k :: k in cs ==> Balanced(k))
    decreases cs, 0
  {
    hide StatementsEmit, Lower, Ensure, Balanced;
    if cs != [] {
      AppendAdds(st, cs[0]);
      LowerAdds(Ensure(st), cs[0]);
      LowerAllAdds(Lower(Ensure(st), cs[0]), cs[1..]);
      assert cs == [cs[0]] + cs[1..];
    }
  }

  lemma {:induction false} LowerArmAdds(st: State, block: nat, c: Stmt, join: nat)
    requires block < |st.blocks|
    ensures Adds(st, LowerArm(st, block, c, join), Balanced(c))
    decreases c, 2
  {
    hide StatementsEmit, Lower, FallInto, Balanced;
    LowerAdds(st.(current := Some(block)), c);
    FallIntoAdds(Lower(st.(current := Some(block)), c), join);
  }

  lemma {:induction false} LowerCasesAdd(st: State, cases: seq<Case>, block: nat, join: nat)
    requires InBounds(st) && block + |cases| <= |st.blocks|
    ensures Adds(st, LowerCases(st, cases, block, join), forall k :: k in cases ==> Balanced(k.command))
    decreases cases, 0
  {
    hide StatementsEmit, LowerArm, Balanced;
    if cases != [] {
      assert cases[0] in cases && cases[0].command < cases[0];
      LowerArmAdds(st, block, cases[0].command, join);
      LowerCasesAdd(LowerArm(st, block, cases[0].command, join), cases[1..], block + 1, join);
      assert cases == [cases[0]] + cases[1..];
    }
  }

  /** Code generation fails exactly when some assignment, dead or not, is unbalanced or some case has no constant. */
  lemma EmissionFailsExactly(body: Stmt)
    ensures Emits(Graph(body)) <==> Balanced(body)
  {
    hide StatementsEmit, Balanced, Lower, AddEdge, NeedExit, Shaped, ExitEmits;
    var g, a := Graph(body), Lower(INITIAL, body);
    LowerAdds(INITIAL, body);
    InitialEmits();
    if a.current.Some? {
      AppendAdds(a, Return);
      EdgesEmitNothing(NeedExit(a).blocks, a.current.value, NeedExit(a).exit.value);
    }
    assert StatementsEmit(g) == Balanced(body);
    GraphIsShaped(body);
    forall i | 0 <= i < |g|
      ensures ExitEmits(g[i])
    {
      ShapedEmits(g[i]);
    }
  }

  lemma InitialEmits()
    ensures StatementsEmit(INITIAL.blocks)
  {
  }

  lemma ShapedEmits(b: Block)
    requires Shaped(b.stmts, |b.succs|)
    ensures ExitEmits(b)
  {
  }
}
