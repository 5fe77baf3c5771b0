/** The graph builder itself: an object whose visits update its blocks, its
  * current block and its stacks of jump targets in place.
  */
module CfgBuilder {
  import opened Wrappers
  import opened Ast
  import opened Machine
  import opened CfgLowering
  import opened CfgShape
  import opened CfgTheorems
  import opened CfgEmission

  lemma EdgeThenBlocks(blocks: seq<Block>, from: nat, to: nat, n: nat)
    requires from < |blocks| && to < |blocks|
    ensures NewBlocks(AddEdge(blocks, from, to), n) == AddEdge(NewBlocks(blocks, n), from, to)
    ensures |AddEdge(blocks, from, to)| == |blocks|
  {
  }

  lemma AppendKeepsLength(st: State, c: Stmt)
    requires InBounds(st)
    ensures |Append(st, c).blocks| == |Ensure(st).blocks| && Append(st, c).current.value < |Append(st, c).blocks|
  {
  }

  lemma AddStatementKeepsLength(st: State, c: Stmt)
    ensures var a := StartNew(st); |AddStatement(a.blocks, a.current.value, c)| == |a.blocks|
  {
  }

  lemma BlocksThenBlocks(blocks: seq<Block>, m: nat, n: nat)
    ensures NewBlocks(NewBlocks(blocks, m), n) == NewBlocks(blocks, m + n)
    ensures |NewBlocks(blocks, m)| == |blocks| + m
  {
  }

  /** Whatever is pushed on a target stack while a statement is lowered is popped again. */
  lemma {:induction false} LowerKeepsTargets(st: State, c: Stmt)
    ensures SameTargets(st, Lower(st, c))
    decreases c, 1
  {
    hide AddEdge, AddStatement, NewBlocks, AddFan;
    match c
    case If(_, t) => LowerKeepsTargets(EnterIf(st, c), t);
    case Let(xs, es) => LowerLetKeepsTargets(Ensure(st), xs, es);
    case Switchon(_, cases, d) =>
      var join := |StartNew(st).blocks|;
      var a := EnterSwitch(st, c);
      LowerCasesKeepTargets(a, cases, join + 1, join);
      if d.Some? {
        LowerArmKeepsTargets(LowerCases(a, cases, join + 1, join), join + 1 + |cases|, d.value, join);
      }
    case Compound(cs) => LowerAllKeepsTargets(st, cs);
    case _ =>
  }

  lemma {:induction false} LowerLetKeepsTargets(st: State, xs: seq<string>, es: seq<Expr>)
    ensures SameTargets(st, LowerLet(st, xs, es))
    decreases |xs|
  {
    if xs != [] && es != [] {
      LowerLetKeepsTargets(Append(st, Assign([xs[0]], [es[0]])), xs[1..], es[1..]);
    }
  }

  lemma {:induction false} LowerAllKeepsTargets(st: State, cs: seq<Stmt>)
    ensures SameTargets(st, LowerAll(st, cs))
    decreases cs, 0
  {
    hide Lower;
    if cs != [] {
      LowerKeepsTargets(Ensure(st), cs[0]);
      LowerAllKeepsTargets(Lower(Ensure(st), cs[0]), cs[1..]);
    }
  }

  lemma {:induction false} LowerArmKeepsTargets(st: State, block: nat, c: Stmt, join: nat)
    ensures SameTargets(st, LowerArm(st, block, c, join))
    decreases c, 2
  {
    LowerKeepsTargets(st.(current := Some(block)), c);
  }

  lemma {:induction false} LowerCasesKeepTargets(st: State, cases: seq<Case>, block: nat, join: nat)
    ensures SameTargets(st, LowerCases(st, cases, block, join))
    decreases cases, 0
  {
    hide LowerArm;
    if cases != [] {
      assert cases[0] in cases && cases[0].command < cases[0];
      LowerArmKeepsTargets(st, block, cases[0].command, join);
      LowerCasesKeepTargets(LowerArm(st, block, cases[0].command, join), cases[1..], block + 1, join);
    }
  }

  /** The targets of a SWITCHON while its arms are lowered. */
  lemma SwitchTargets(st: State, c: Stmt)
    requires c.Switchon?
    ensures var a, join := EnterSwitch(st, c), |StartNew(st).blocks|;
            && a.breaks == st.breaks && a.loops == st.loops && a.endcases == st.endcases + [join] && a.current.None?
            && SameTargets(a, AfterCases(st, c)) && SameTargets(a, AfterArms(st, c))
    ensures Lower(st, c) == AfterArms(st, c).(current := Some(|StartNew(st).blocks|), endcases := st.endcases)
    ensures AfterCases(st, c) == LowerCases(EnterSwitch(st, c), c.cases, |StartNew(st).blocks| + 1, |StartNew(st).blocks|)
    ensures AfterArms(st, c) ==
            if c.defaultCase.None? then AfterCases(st, c)
            else LowerArm(AfterCases(st, c), |StartNew(st).blocks| + 1 + |c.cases|, c.defaultCase.value, |StartNew(st).blocks|)
  {
    hide Lower, LowerArm, LowerCases, AddEdge, AddStatement, NewBlocks, AddFan;
    SwitchIs(st, c);
    var join := |StartNew(st).blocks|;
    LowerCasesKeepTargets(EnterSwitch(st, c), c.cases, join + 1, join);
    if c.defaultCase.Some? {
      LowerArmKeepsTargets(AfterCases(st, c), join + 1 + |c.cases|, c.defaultCase.value, join);
    }
  }

  /** A state without the innermost loop's jump targets. */
  function Popped(st: State): State
    requires st.breaks != [] && st.loops != []
  {
    st.(breaks := st.breaks[..|st.breaks| - 1], loops := st.loops[..|st.loops| - 1])
  }

  /** Closing a loop restores the jump targets from before it, and that makes up its lowering. */
  lemma LeaveForTargets(st: State, c: Stmt, header: nat, body: State)
    requires c.For? && header == |Ensure(st).blocks| && body == Lower(EnterFor(st, c), c.body)
    requires SameTargets(EnterFor(st, c), body)
    ensures body.breaks != [] && body.loops != []
    ensures LeaveFor(Popped(body), c, header, body) == Lower(st, c)
  {
    EnterForTargets(st, c);
    hide AddEdge, AddStatement, EnterFor, Ensure, Increment;
    assert SameTargets(Popped(body), st);
  }

  class Builder {
    var blocks: seq<Block>
    var current: Option<nat>
    var exit: Option<nat>
    var breaks: seq<nat>
    var loops: seq<nat>
    var endcases: seq<nat>

    ghost function Snapshot(): State
      reads this
    {
      State(blocks, current, exit, breaks, loops, endcases)
    }

    ghost predicate Valid()
      reads this
    {
      WellFormed(Snapshot()) && Mirrored(blocks)
    }

    constructor ()
      ensures Valid() && Snapshot() == INITIAL
    {
      blocks := [EMPTY_BLOCK];
      current, exit := Some(0), None;
      breaks, loops, endcases := [], [], [];
    }

    method CreateBlock() returns (id: nat)
      modifies this
      ensures id == |old(blocks)|
      ensures Snapshot() == old(Snapshot()).(blocks := NewBlocks(old(blocks), 1))
    {
      id := |blocks|;
      blocks := blocks + [EMPTY_BLOCK];
      assert blocks == NewBlocks(old(blocks), 1);
    }

    method AppendStatement(c: Stmt)
      modifies this
      ensures Snapshot() == Append(old(Snapshot()), c)
    {
      if current.None? {
        var id := CreateBlock();
        current := Some(id);
      }
      blocks := AddStatement(blocks, current.value, c);
    }

    method EndCurrentBlockAndStartNew()
      modifies this
      ensures Snapshot() == StartNew(old(Snapshot()))
    {
      if current.None? {
        var id := CreateBlock();
        current := Some(id);
      } else if !EndsWithControlFlow(CurrentStatements(State(blocks, current, exit, breaks, loops, endcases))) {
        var id := CreateBlock();
        blocks := AddEdge(blocks, current.value, id);
        current := Some(id);
      }
    }

    method FlowInto(to: nat)
      modifies this
      ensures Snapshot() == FallInto(old(Snapshot()), to)
    {
      if current.Some? && !EndsWithControlFlow(CurrentStatements(State(blocks, current, exit, breaks, loops, endcases))) {
        blocks := AddEdge(blocks, current.value, to);
      }
    }

    /** Lowers one statement into the graph. */
    method Visit(c: Stmt)
      requires InBounds(Snapshot())
      modifies this
      ensures Snapshot() == Lower(old(Snapshot()), c) && InBounds(Snapshot())
      ensures old(Valid()) ==> Valid()
      decreases c, 1
    {
      hide WellFormed, Mirrored, AddEdge, AddStatement;
      ghost var before := Snapshot();
      LowerAdds(before, c);
      match c {
        case Assign(_, _) => AppendStatement(c);
        case Let(_, _) => VisitLet(c);
        case If(_, _) => VisitIf(c);
        case For(_, _, _, _, _) => VisitFor(c);
        case Switchon(_, _, _) => VisitSwitchon(c);
        case Compound(_) => VisitCompound(c);
        case Break => VisitJump(c, breaks);
        case Loop => VisitJump(c, loops);
        case Endcase => VisitJump(c, endcases);
        case Return => VisitReturn();
        case ConditionalBranch(_, _) =>
      }
      if WellFormed(before) && Mirrored(before.blocks) {
        LowerKeeps(before, c);
        LowerMirrors(before, c);
      }
    }

    method VisitLet(c: Stmt)
      requires c.Let?
      modifies this
      ensures Snapshot() == Lower(old(Snapshot()), c)
    {
      if current.None? {
        EndCurrentBlockAndStartNew();
      }
      var i := 0;
      while i < |c.names| && i < |c.initializers|
        invariant 0 <= i <= |c.names| && i <= |c.initializers|
        invariant LowerLet(Snapshot(), c.names[i..], c.initializers[i..]) == Lower(old(Snapshot()), c)
      {
        AppendStatement(Assign([c.names[i]], [c.initializers[i]]));
        i := i + 1;
      }
    }

    method VisitJump(c: Stmt, targets: seq<nat>)
      modifies this
      ensures Snapshot() == Jump(old(Snapshot()), c, targets)
    {
      AppendStatement(c);
      if targets != [] {
        blocks := AddEdge(blocks, current.value, targets[|targets| - 1]);
      }
      current := None;
    }

    method VisitReturn()
      modifies this
      ensures Snapshot() == LowerReturn(old(Snapshot()))
    {
      AppendStatement(Return);
      if exit.None? {
        var id := CreateBlock();
        exit := Some(id);
      }
      blocks := AddEdge(blocks, current.value, exit.value);
      current := None;
    }

    method VisitIf(c: Stmt)
      requires c.If? && InBounds(Snapshot())
      modifies this
      ensures Snapshot() == Lower(old(Snapshot()), c)
      decreases c, 0
    {
      AppendStatement(c);
      var condition := current.value;
      ghost var grown := NewBlocks(blocks, 2);
      var thenBlock := CreateBlock();
      var join := CreateBlock();
      assert blocks == grown;
      blocks := AddEdge(blocks, condition, thenBlock);
      blocks := AddEdge(blocks, condition, join);
      current := Some(thenBlock);
      assert Snapshot() == EnterIf(old(Snapshot()), c);
      EnterIfAdds(old(Snapshot()), c);
      Visit(c.thenBranch);
      FlowInto(join);
      current := Some(join);
    }

    method VisitFor(c: Stmt)
      requires c.For? && InBounds(Snapshot())
      modifies this
      ensures Snapshot() == Lower(old(Snapshot()), c)
      decreases c, 0
    {
      hide Lower, EnterFor, LeaveFor, Ensure;
      ghost var before := Snapshot();
      EnterForAdds(before, c);
      EnterForTargets(before, c);
      LowerKeepsTargets(EnterFor(before, c), c.body);
      var header := OpenLoop(c);
      Visit(c.body);
      LeaveForTargets(before, c, header, Snapshot());
      CloseLoop(c, header);
    }

    /** Closes the loop whose header is given, and pops its jump targets. */
    method CloseLoop(c: Stmt, header: nat)
      requires c.For? && breaks != [] && loops != []
      modifies this
      ensures Snapshot() == LeaveFor(Popped(old(Snapshot())), c, header, old(Snapshot()))
    {
      hide AddEdge, AddStatement;
      if current.Some? {
        blocks := AddEdge(blocks, current.value, header + 2);
      }
      blocks := AddStatement(blocks, header + 2, Increment(c.variable, c.step));
      blocks := AddEdge(blocks, header + 2, header);
      current := Some(header + 3);
      breaks, loops := breaks[..|breaks| - 1], loops[..|loops| - 1];
    }

    /** Lays down the blocks of a loop, and makes its exit and its increment the jump targets. */
    method OpenLoop(c: Stmt) returns (header: nat)
      requires c.For? && InBounds(Snapshot())
      modifies this
      ensures Snapshot() == EnterFor(old(Snapshot()), c) && header == |Ensure(old(Snapshot())).blocks|
    {
      hide AddEdge, AddStatement, NewBlocks, Append, Ensure;
      AppendKeepsLength(Snapshot(), Assign([c.variable], [c.start]));
      AppendStatement(Assign([c.variable], [c.start]));
      var init := current.value;
      ghost var start := blocks;
      header := CreateBlock();
      BlocksThenBlocks(start, 1, 3);
      EdgeThenBlocks(blocks, init, header, 3);
      blocks := AddEdge(blocks, init, header);
      BlocksThenBlocks(blocks, 1, 1);
      BlocksThenBlocks(blocks, 2, 1);
      var body := CreateBlock();
      var increment := CreateBlock();
      var loopExit := CreateBlock();
      breaks, loops := breaks + [loopExit], loops + [increment];
      blocks := AddStatement(blocks, header, c);
      blocks := AddEdge(blocks, header, body);
      blocks := AddEdge(blocks, header, loopExit);
      current := Some(body);
    }

    method VisitSwitchon(c: Stmt)
      requires c.Switchon? && InBounds(Snapshot())
      modifies this
      ensures Snapshot() == Lower(old(Snapshot()), c)
      decreases c, 0, 1
    {
      hide Lower, LowerCases, AddEdge, AddStatement, EnterSwitch, StartNew, FallInto;
      ghost var before := Snapshot();
      EnterSwitchAdds(before, c);
      SwitchTargets(before, c);
      OpenSwitch(c);
      var join := endcases[|endcases| - 1];
      current := None;
      ghost var entered := Snapshot();
      LowerCasesAdd(entered, c.cases, join + 1, join);
      VisitCases(c, join);
      if c.defaultCase.Some? {
        current := Some(join + 1 + |c.cases|);
        Visit(c.defaultCase.value);
        FlowInto(join);
      }
      current := Some(join);
      endcases := endcases[..|endcases| - 1];
    }

    /** Visits the command of each case in its own block. */
    method VisitCases(c: Stmt, join: nat)
      requires c.Switchon? && join + 1 + |c.cases| <= |blocks| && current.None?
      modifies this
      ensures Snapshot() == LowerCases(old(Snapshot()), c.cases, join + 1, join)
      decreases c, 0, 0
    {
      hide Lower, FallInto;
      ghost var entered := Snapshot();
      var i := 0;
      while i < |c.cases|
        invariant 0 <= i <= |c.cases| && join + 1 + |c.cases| <= |blocks| && current.None?
        invariant LowerCases(Snapshot(), c.cases[i..], join + 1 + i, join) == LowerCases(entered, c.cases, join + 1, join)
      {
        assert c.cases[i..][0] == c.cases[i] && c.cases[i..][1..] == c.cases[i + 1..];
        LowerArmAdds(Snapshot(), join + 1 + i, c.cases[i].command, join);
        current := Some(join + 1 + i);
        Visit(c.cases[i].command);
        FlowInto(join);
        current := None;
        i := i + 1;
      }
    }

    /** Lays down the header, join and arm blocks of a SWITCHON, and makes its join the target of ENDCASE. */
    method OpenSwitch(c: Stmt)
      requires c.Switchon? && InBounds(Snapshot())
      modifies this
      ensures Snapshot() == EnterSwitch(old(Snapshot()), c).(current := current)
    {
      hide AddEdge, AddStatement, NewBlocks, AddFan, StartNew;
      EndCurrentBlockAndStartNew();
      var header := current.value;
      blocks := AddStatement(blocks, header, c);
      var arms := |c.cases| + if c.defaultCase.Some? then 1 else 0;
      ghost var start := Snapshot();
      BlocksThenBlocks(start.blocks, 0, arms + 1);
      AddStatementKeepsLength(old(Snapshot()), c);
      var join := CreateArms(arms);
      endcases := endcases + [join];
      AddArmEdges(header, join, arms);
    }

    method CreateArms(arms: nat) returns (join: nat)
      modifies this
      ensures join == |old(blocks)|
      ensures Snapshot() == old(Snapshot()).(blocks := NewBlocks(old(blocks), arms + 1))
    {
      join := CreateBlock();
      hide NewBlocks;
      for i := 0 to arms
        invariant Snapshot() == old(Snapshot()).(blocks := NewBlocks(old(blocks), i + 1))
      {
        BlocksThenBlocks(old(blocks), i + 1, 1);
        var arm := CreateBlock();
      }
    }

    method AddArmEdges(header: nat, join: nat, arms: nat)
      modifies this
      ensures Snapshot() ==
              old(Snapshot()).(blocks := AddEdge(AddFan(old(blocks), header, join + 1, arms), header, join))
    {
      hide AddEdge;
      for i := 0 to arms
        invariant Snapshot() == old(Snapshot()).(blocks := AddFan(old(blocks), header, join + 1, i))
      {
        blocks := AddEdge(blocks, header, join + 1 + i);
      }
      blocks := AddEdge(blocks, header, join);
    }

    method VisitCompound(c: Stmt)
      requires c.Compound? && InBounds(Snapshot())
      modifies this
      ensures Snapshot() == Lower(old(Snapshot()), c)
      decreases c, 0
    {
      var i := 0;
      while i < |c.statements|
        invariant 0 <= i <= |c.statements|
        invariant InBounds(Snapshot())
        invariant LowerAll(Snapshot(), c.statements[i..]) == Lower(old(Snapshot()), c)
      {
        if current.None? {
          var id := CreateBlock();
          current := Some(id);
        }
        assert c.statements[i..][0] == c.statements[i] && c.statements[i..][1..] == c.statements[i + 1..];
        Visit(c.statements[i]);
        i := i + 1;
      }
    }

    /** The graph of a whole function body. */
    method BuildFunction(body: Stmt)
      requires Snapshot() == INITIAL
      modifies this
      ensures blocks == Graph(body)
    {
      Visit(body);
      if current.Some? && !EndsWithControlFlow(CurrentStatements(State(blocks, current, exit, breaks, loops, endcases))) {
        if exit.None? {
          var id := CreateBlock();
          exit := Some(id);
        }
        blocks := AddEdge(blocks, current.value, exit.value);
      }
    }
  }
}
