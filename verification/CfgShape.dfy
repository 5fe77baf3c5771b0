/** The builder's invariant: every lowering keeps it. */
module CfgShape {
  import opened Wrappers
  import opened Ast
  import opened Machine
  import opened CfgLowering

  /** Two block lists of the same statements and successors, but for one block's successors. */
  ghost predicate SameBut(a: seq<Block>, b: seq<Block>, except: nat) {
    && |a| == |b|
    && forall i :: 0 <= i < |a| ==> b[i].stmts == a[i].stmts && (i != except ==> b[i].succs == a[i].succs)
  }

  lemma AddEdgeChanges(blocks: seq<Block>, from: nat, to: nat)
    requires from < |blocks| && to < |blocks|
    ensures SameBut(blocks, AddEdge(blocks, from, to), from)
    ensures AddEdge(blocks, from, to)[from].succs == blocks[from].succs + [to]
  {
  }

  lemma {:induction false} AddFanChanges(blocks: seq<Block>, from: nat, first: nat, n: nat)
    requires from < |blocks| && first + n <= |blocks|
    ensures SameBut(blocks, AddFan(blocks, from, first, n), from)
    ensures AddFan(blocks, from, first, n)[from].succs == blocks[from].succs + seq(n, i requires 0 <= i => first + i)
    decreases n
  {
    if n > 0 {
      AddFanChanges(blocks, from, first, n - 1);
      AddEdgeChanges(AddFan(blocks, from, first, n - 1), from, first + n - 1);
    }
  }

  lemma EnsureKeeps(st: State)
    requires WellFormed(st)
    ensures WellFormed(Ensure(st)) && Grows(st, Ensure(st)) && SameTargets(st, Ensure(st))
  {
  }

  lemma AppendKeeps(st: State, c: Stmt)
    requires WellFormed(st) && c.Assign?
    ensures WellFormed(Append(st, c)) && Grows(st, Append(st, c)) && SameTargets(st, Append(st, c))
  {
  }

  lemma StartNewKeeps(st: State)
    requires WellFormed(st)
    ensures WellFormed(StartNew(st)) && Grows(st, StartNew(st)) && SameTargets(st, StartNew(st))
  {
  }

  lemma NeedExitKeeps(st: State)
    requires WellFormed(st)
    ensures WellFormed(NeedExit(st)) && Grows(st, NeedExit(st)) && SameTargets(st, NeedExit(st))
  {
  }

  lemma JumpKeeps(st: State, c: Stmt, targets: seq<nat>)
    requires WellFormed(st) && (targets == st.breaks || targets == st.loops || targets == st.endcases)
    requires c.Break? || c.Loop? || c.Endcase?
    ensures WellFormed(Jump(st, c, targets)) && Grows(st, Jump(st, c, targets)) && SameTargets(st, Jump(st, c, targets))
  {
    EnsureKeeps(st);
    var e, a, r := Ensure(st), Append(st, c), Jump(st, c, targets);
    var here := e.current.value;
    assert a.blocks[here].stmts == e.blocks[here].stmts + [c];
    if targets != [] {
      assert targets[|targets| - 1] in targets;
      AddEdgeChanges(a.blocks, here, targets[|targets| - 1]);
    }
    assert SameBut(a.blocks, r.blocks, here);
    hide AddEdge, Jump;
    OpenAppend(e.blocks[here].stmts, c, |r.blocks[here].succs|);
    assert IsClosed(r.blocks[here]);
    hide Shaped, IsOpen;
    assert WellFormed(r);
    assert Grows(e, r);
    GrowsTransitive(st, e, r);
  }

  lemma ReturnKeeps(st: State)
    requires WellFormed(st)
    ensures WellFormed(LowerReturn(st)) && Grows(st, LowerReturn(st)) && SameTargets(st, LowerReturn(st))
  {
    EnsureKeeps(st);
    var e, a, r := Ensure(st), NeedExit(Append(st, Return)), LowerReturn(st);
    var here := e.current.value;
    AddEdgeChanges(a.blocks, here, a.exit.value);
    assert r.blocks == AddEdge(a.blocks, here, a.exit.value);
    hide AddEdge, LowerReturn;
    OpenAppend(e.blocks[here].stmts, Return, 1);
    assert r.blocks[here].stmts == e.blocks[here].stmts + [Return] && IsClosed(r.blocks[here]);
    hide Shaped, IsOpen;
    assert WellFormed(r);
    assert Grows(e, r);
    GrowsTransitive(st, e, r);
  }

  /** An open block may be extended by any statement that is a block on its own. */
  lemma OpenAppend(stmts: seq<Stmt>, c: Stmt, successors: nat)
    requires Shaped(stmts, 0) && !EndsWithControlFlow(stmts) && Shaped([c], successors)
    ensures Shaped(stmts + [c], successors)
  {
  }

  lemma EnterIfBlocks(st: State, c: Stmt)
    requires WellFormed(st) && c.If?
    ensures var e, r := Ensure(st), EnterIf(st, c);
            var here, n := e.current.value, |e.blocks|;
            && here < n && r.current == Some(n) && |r.blocks| == n + 2
            && r.blocks[here].stmts == e.blocks[here].stmts + [c]
            && r.blocks[here].succs == [n, n + 1]
            && (forall i :: n <= i <= n + 1 ==> r.blocks[i].stmts == [] && r.blocks[i].succs == [])
            && (forall i :: 0 <= i < n && i != here ==>
                  r.blocks[i].stmts == e.blocks[i].stmts && r.blocks[i].succs == e.blocks[i].succs)
  {
    hide Shaped;
    EnsureKeeps(st);
    var a := Append(st, c);
    var here, n := a.current.value, |a.blocks|;
    var b := NewBlocks(a.blocks, 2);
    assert b[here].succs == [];
    hide WellFormed, Grows;
    AddEdgeChanges(b, here, n);
    AddEdgeChanges(AddEdge(b, here, n), here, n + 1);
  }

  lemma EnterIfKeeps(st: State, c: Stmt)
    requires WellFormed(st) && c.If?
    ensures WellFormed(EnterIf(st, c)) && Grows(st, EnterIf(st, c)) && SameTargets(st, EnterIf(st, c))
  {
    EnsureKeeps(st);
    EnterIfBlocks(st, c);
    var e, r := Ensure(st), EnterIf(st, c);
    assert r.exit == st.exit && SameTargets(st, r);
    hide EnterIf;
    OpenAppend(e.blocks[e.current.value].stmts, c, 2);
    assert Shaped([], 0) && IsOpen(EMPTY_BLOCK);
    hide Shaped;
    assert WellFormed(r);
    assert Grows(e, r);
    GrowsTransitive(st, e, r);
  }

  lemma EnterForBlocks(st: State, c: Stmt)
    requires WellFormed(st) && c.For?
    ensures var e, r := Ensure(st), EnterFor(st, c);
            var here, n := e.current.value, |e.blocks|;
            && here < n && r.current == Some(n + 1) && |r.blocks| == n + 4
            && r.blocks[here].stmts == e.blocks[here].stmts + [Assign([c.variable], [c.start])]
            && r.blocks[here].succs == [n]
            && r.blocks[n].stmts == [c] && r.blocks[n].succs == [n + 1, n + 3]
            && (forall i :: n + 1 <= i <= n + 3 ==> r.blocks[i].stmts == [] && r.blocks[i].succs == [])
            && (forall i :: 0 <= i < n && i != here ==>
                  r.blocks[i].stmts == e.blocks[i].stmts && r.blocks[i].succs == e.blocks[i].succs)
  {
    hide Shaped;
    EnsureKeeps(st);
    var a := Append(st, Assign([c.variable], [c.start]));
    var here, n := a.current.value, |a.blocks|;
    var b0 := NewBlocks(a.blocks, 4);
    AddEdgeChanges(b0, here, n);
    var b := AddEdge(b0, here, n);
    var d := AddStatement(b, n, c);
    AddEdgeChanges(d, n, n + 1);
    AddEdgeChanges(AddEdge(d, n, n + 1), n, n + 3);
  }

  lemma EnterForTargets(st: State, c: Stmt)
    requires c.For?
    ensures var r := EnterFor(st, c);
            && r.breaks == st.breaks + [|Ensure(st).blocks| + 3]
            && r.loops == st.loops + [|Ensure(st).blocks| + 2]
            && r.endcases == st.endcases && r.exit == st.exit
  {
    hide AddEdge, NewBlocks;
  }

  lemma EnterForIsWellFormed(st: State, c: Stmt)
    requires WellFormed(st) && c.For?
    ensures WellFormed(EnterFor(st, c))
  {
    hide EnterFor, Grows, Ensure;
    EnsureKeeps(st);
    EnterForBlocks(st, c);
    EnterForTargets(st, c);
    var e := Ensure(st);
    OpenAppend(e.blocks[e.current.value].stmts, Assign([c.variable], [c.start]), 1);
    assert Shaped([c], 2) && Shaped([], 0);
    assert IsOpen(EMPTY_BLOCK);
    hide Shaped;
  }

  lemma EnterForGrows(st: State, c: Stmt)
    requires WellFormed(st) && c.For?
    ensures Grows(st, EnterFor(st, c))
  {
    EnsureKeeps(st);
    EnterForBlocks(st, c);
    EnterForTargets(st, c);
    hide EnterFor, Shaped, Ensure;
    var e, r := Ensure(st), EnterFor(st, c);
    assert Grows(e, r);
    hide WellFormed, Grows;
    GrowsTransitive(st, e, r);
  }

  lemma EnterForKeeps(st: State, c: Stmt)
    requires WellFormed(st) && c.For?
    ensures WellFormed(EnterFor(st, c)) && Grows(st, EnterFor(st, c))
  {
    hide WellFormed, Grows, EnterFor;
    EnterForIsWellFormed(st, c);
    EnterForGrows(st, c);
  }

  function Arms(c: Stmt): nat
    requires c.Switchon?
  {
    |c.cases| + if c.defaultCase.Some? then 1 else 0
  }

  lemma StartNewIsEmpty(st: State)
    requires WellFormed(st)
    ensures var a := StartNew(st);
            && a.current.value < |a.blocks|
            && a.blocks[a.current.value].stmts == [] && a.blocks[a.current.value].succs == []
  {
    StartNewKeeps(st);
    hide Shaped, Grows;
  }

  /** The blocks a SWITCHON starts with: a header of its own, and empty blocks for the join and the arms. */
  lemma EnterSwitchBlocks(st: State, c: Stmt)
    requires WellFormed(st) && c.Switchon?
    ensures var a, r := StartNew(st), EnterSwitch(st, c);
            var here, join := a.current.value, |a.blocks|;
            && |r.blocks| == join + Arms(c) + 1
            && here < join
            && r.blocks[here].stmts == [c]
            && r.blocks[here].succs == seq(Arms(c), i requires 0 <= i => join + 1 + i) + [join]
            && (forall i :: 0 <= i < join && i != here ==>
                  r.blocks[i].stmts == a.blocks[i].stmts && r.blocks[i].succs == a.blocks[i].succs)
            && (forall i :: join <= i < |r.blocks| ==> r.blocks[i].stmts == [] && r.blocks[i].succs == [])
  {
    hide WellFormed, Grows, StartNew, Shaped, AddEdge, AddFan;
    var a, r := StartNew(st), EnterSwitch(st, c);
    var here, join := a.current.value, |a.blocks|;
    StartNewIsEmpty(st);
    var d := NewBlocks(AddStatement(a.blocks, here, c), Arms(c) + 1);
    var f := AddFan(d, here, join + 1, Arms(c));
    AddFanChanges(d, here, join + 1, Arms(c));
    AddEdgeChanges(f, here, join);
    assert r.blocks == AddEdge(f, here, join);
    assert d[here].stmts == [c] && d[here].succs == [];
    hide EnterSwitch;
    assert SameBut(d, r.blocks, here);
  }

  lemma EnterSwitchKeeps(st: State, c: Stmt)
    requires WellFormed(st) && c.Switchon?
    ensures WellFormed(EnterSwitch(st, c))
    ensures Grows(st, EnterSwitch(st, c))
  {
    EnterSwitchBlocks(st, c);
    StartNewKeeps(st);
    var a, r := StartNew(st), EnterSwitch(st, c);
    var here, join := a.current.value, |a.blocks|;
    assert Shaped(r.blocks[here].stmts, |r.blocks[here].succs|);
    forall i | 0 <= i < |r.blocks| && i != here
      ensures Shaped(r.blocks[i].stmts, |r.blocks[i].succs|)
    {
      if i < join {
        assert Shaped(a.blocks[i].stmts, |a.blocks[i].succs|);
      }
    }
    if st.current.Some? {
      assert IsClosed(r.blocks[st.current.value]);
    }
  }

  lemma OpenTakesEdge(stmts: seq<Stmt>)
    requires Shaped(stmts, 0)
    ensures Shaped(stmts, 1)
  {
  }

  lemma FallIntoKeeps(st: State, to: nat)
    requires WellFormed(st) && to < |st.blocks|
    ensures var r := FallInto(st, to);
            && r == st.(blocks := r.blocks)
            && |r.blocks| == |st.blocks|
            && (forall i :: 0 <= i < |r.blocks| ==>
                  && r.blocks[i].stmts == st.blocks[i].stmts
                  && r.blocks[i].succs == if Some(i) == st.current then [to] else st.blocks[i].succs)
            && (forall i :: 0 <= i < |r.blocks| ==> Shaped(r.blocks[i].stmts, |r.blocks[i].succs|))
  {
    if st.current.Some? {
      var c := st.current.value;
      AddEdgeChanges(st.blocks, c, to);
      OpenTakesEdge(st.blocks[c].stmts);
    }
  }

  /** After flowing into `to`, the builder goes on in `next`, which must still be untouched. */
  lemma MoveKeeps(st: State, to: nat, next: Option<nat>)
    requires WellFormed(st) && to < |st.blocks|
    requires next.Some? ==>
               && next.value < |st.blocks|
               && next != st.exit && next != st.current
               && st.blocks[next.value].stmts == [] && st.blocks[next.value].succs == []
    ensures WellFormed(FallInto(st, to).(current := next))
  {
    FallIntoKeeps(st, to);
  }

  lemma GrowsReflexive(a: State)
    ensures Grows(a, a)
  {
  }

  lemma GrowsTransitive(a: State, b: State, c: State)
    requires Grows(a, b) && Grows(b, c)
    requires WellFormed(a)
    ensures Grows(a, c)
  {
    forall i | 0 <= i < |a.blocks| && Some(i) != a.current
      ensures c.blocks[i].stmts == a.blocks[i].stmts && c.blocks[i].succs == a.blocks[i].succs
    {
      assert Some(i) != b.current;
    }
  }

  /** What closing a loop does to the blocks the body left behind. */
  lemma LeaveForBlocks(st: State, c: Stmt, header: nat, body: State)
    requires c.For? && header + 4 <= |body.blocks|
    requires body.current.Some? ==>
               && body.current.value < |body.blocks|
               && body.current.value != header + 2
               && body.blocks[body.current.value].succs == []
    requires body.blocks[header + 2].stmts == [] && body.blocks[header + 2].succs == []
    ensures var r := LeaveFor(st, c, header, body);
            && r.exit == body.exit && r.current == Some(header + 3) && SameTargets(st, r)
            && |r.blocks| == |body.blocks|
            && r.blocks[header + 2].stmts == [Increment(c.variable, c.step)]
            && r.blocks[header + 2].succs == [header]
            && (forall i :: 0 <= i < |r.blocks| && i != header + 2 ==>
                  && r.blocks[i].stmts == body.blocks[i].stmts
                  && r.blocks[i].succs == if Some(i) == body.current then [header + 2] else body.blocks[i].succs)
  {
    var r := LeaveFor(st, c, header, body);
    var a := if body.current.Some? then AddEdge(body.blocks, body.current.value, header + 2) else body.blocks;
    if body.current.Some? {
      AddEdgeChanges(body.blocks, body.current.value, header + 2);
    }
    hide AddEdge, Increment;
    AddEdgeChanges(AddStatement(a, header + 2, Increment(c.variable, c.step)), header + 2, header);
  }

  lemma LeaveForKeeps(st: State, c: Stmt, header: nat, body: State)
    requires c.For? && WellFormed(body) && header + 4 <= |body.blocks|
    requires InRange(st.breaks, header) && InRange(st.loops, header) && InRange(st.endcases, header)
    requires body.current != Some(header + 2) && body.current != Some(header + 3)
    requires body.exit != Some(header + 2) && body.exit != Some(header + 3)
    requires forall i :: header + 2 <= i <= header + 3 ==> body.blocks[i].stmts == [] && body.blocks[i].succs == []
    ensures WellFormed(LeaveFor(st, c, header, body))
  {
    assert body.current.Some? ==> IsOpen(body.blocks[body.current.value]);
    hide AddEdge, AddStatement, EndsWithControlFlow;
    LeaveForBlocks(st, c, header, body);
    var r := LeaveFor(st, c, header, body);
    assert r.exit == body.exit && r.current == Some(header + 3);
    hide LeaveFor;
    assert Shaped([Increment(c.variable, c.step)], 1);
    assert IsOpen(r.blocks[header + 3]);
    hide Shaped, IsOpen, Increment;
    forall i | 0 <= i < |r.blocks|
      ensures Shaped(r.blocks[i].stmts, |r.blocks[i].succs|)
    {
      if Some(i) == body.current {
        assert body.blocks[i].succs == [];
        OpenTakesEdge(body.blocks[i].stmts);
      }
    }
  }

  // ----- every lowering -----

  /** Lowering keeps the builder's invariant and touches nothing but the current block and new ones. */
  lemma {:induction false} LowerKeeps(st: State, c: Stmt)
    requires WellFormed(st)
    ensures WellFormed(Lower(st, c)) && Grows(st, Lower(st, c)) && SameTargets(st, Lower(st, c))
    decreases c, 1
  {
    hide WellFormed, Grows, EnterIf, EnterFor, LeaveFor, EnterSwitch, FallInto, Jump, LowerReturn, Append, Ensure, StartNew;
    match c
    case Assign(_, _) => AppendKeeps(st, c);
    case Let(xs, es) =>
      EnsureKeeps(st);
      LowerLetKeeps(Ensure(st), xs, es);
      GrowsTransitive(st, Ensure(st), Lower(st, c));
    case If(_, t) =>
      EnterIfKeeps(st, c);
      LowerKeeps(EnterIf(st, c), t);
      LowerIfKeeps(st, c, Lower(EnterIf(st, c), t));
    case For(_, _, _, _, body) =>
      EnterForKeeps(st, c);
      LowerKeeps(EnterFor(st, c), body);
      LowerForKeeps(st, c, Lower(EnterFor(st, c), body));
    case Switchon(_, cases, d) => LowerSwitchKeeps(st, c);
    case Compound(cs) => LowerAllKeeps(st, cs);
    case Break => JumpKeeps(st, c, st.breaks);
    case Loop => JumpKeeps(st, c, st.loops);
    case Endcase => JumpKeeps(st, c, st.endcases);
    case Return => ReturnKeeps(st);
    case ConditionalBranch(_, _) => GrowsReflexive(st);
  }

  lemma {:induction false} LowerLetKeeps(st: State, xs: seq<string>, es: seq<Expr>)
    requires WellFormed(st)
    ensures WellFormed(LowerLet(st, xs, es)) && Grows(st, LowerLet(st, xs, es)) && SameTargets(st, LowerLet(st, xs, es))
    decreases |xs|
  {
    if xs != [] && es != [] {
      var a := Append(st, Assign([xs[0]], [es[0]]));
      AppendKeeps(st, Assign([xs[0]], [es[0]]));
      LowerLetKeeps(a, xs[1..], es[1..]);
      GrowsTransitive(st, a, LowerLet(st, xs, es));
    }
  }

  /** The arm of an IF leaves the join block alone. */
  lemma IfPending(st: State, c: Stmt, b: State)
    requires WellFormed(st) && c.If? && WellFormed(b) && Grows(EnterIf(st, c), b)
    ensures var join := |Ensure(st).blocks| + 1;
            && EnterIf(st, c).current == Some(join - 1) && |st.blocks| < join < |b.blocks|
            && b.current != Some(join) && b.exit != Some(join)
            && b.blocks[join].stmts == [] && b.blocks[join].succs == []
  {
    EnterIfKeeps(st, c);
    EnterIfBlocks(st, c);
    var a := EnterIf(st, c);
    assert a.exit == st.exit;
    hide EnterIf, Shaped, IsOpen;
    assert a.blocks[|Ensure(st).blocks| + 1].stmts == [];
  }

  lemma IfSettles(st: State, b: State, join: nat)
    requires WellFormed(st) && WellFormed(b) && Grows(st, b)
    requires |st.blocks| <= join < |b.blocks| && b.current != Some(join)
    ensures Grows(st, FallInto(b, join).(current := Some(join)))
  {
    FallIntoKeeps(b, join);
    hide FallInto, Shaped;
    GrowsSettles(st, b, FallInto(b, join).(current := Some(join)));
  }

  lemma LowerIfKeeps(st: State, c: Stmt, b: State)
    requires WellFormed(st) && c.If? && WellFormed(b) && Grows(EnterIf(st, c), b) && SameTargets(EnterIf(st, c), b)
    ensures var join := EnterIf(st, c).current.value + 1;
            var r := FallInto(b, join).(current := Some(join));
            WellFormed(r) && Grows(st, r) && SameTargets(st, r)
  {
    IfPending(st, c, b);
    var join := EnterIf(st, c).current.value + 1;
    assert SameTargets(st, EnterIf(st, c));
    assert Grows(st, b) by {
      EnterIfKeeps(st, c);
      hide WellFormed, EnterIf;
      GrowsTransitive(st, EnterIf(st, c), b);
    }
    hide EnterIf;
    MoveKeeps(b, join, Some(join));
    IfSettles(st, b, join);
  }

  /** Closing the open block of `b` and going on in a block that `a` did not have is still growth of `a`. */
  lemma GrowsSettles(a: State, b: State, r: State)
    requires WellFormed(a) && Grows(a, b)
    requires b.current.Some? ==> b.current.value < |b.blocks|
    requires |r.blocks| >= |b.blocks| && r.exit == b.exit
    requires r.current.Some? ==> r.current.value >= |a.blocks|
    requires forall i :: 0 <= i < |a.blocks| ==>
               r.blocks[i].stmts == b.blocks[i].stmts && (Some(i) != b.current ==> r.blocks[i].succs == b.blocks[i].succs)
    requires b.current.Some? ==> IsClosed(r.blocks[b.current.value])
    ensures Grows(a, r)
  {
    hide Shaped;
  }

  /** The body of a loop leaves the increment and exit blocks alone. */
  lemma LoopPending(st: State, c: Stmt, b: State)
    requires WellFormed(st) && c.For? && WellFormed(b) && Grows(EnterFor(st, c), b)
    ensures var n := |Ensure(st).blocks|;
            && |st.blocks| <= n && n + 4 <= |b.blocks|
            && (b.current.Some? ==> b.current.value == n + 1 || b.current.value >= n + 4)
            && (b.exit.Some? ==> b.exit.value < n || b.exit.value >= n + 4)
            && (forall i :: n + 2 <= i <= n + 3 ==> b.blocks[i].stmts == [] && b.blocks[i].succs == [])
            && b.blocks[n].stmts == [c] && b.blocks[n].succs == [n + 1, n + 3]
  {
    EnterForKeeps(st, c);
    EnterForBlocks(st, c);
    var a, n := EnterFor(st, c), |Ensure(st).blocks|;
    assert a.exit == st.exit;
    hide EnterFor, Shaped, IsOpen;
    forall i | n <= i <= n + 3 && i != n + 1
      ensures b.blocks[i].stmts == a.blocks[i].stmts && b.blocks[i].succs == a.blocks[i].succs
    {
    }
  }

  lemma LeaveForRestores(st: State, c: Stmt, n: nat, b: State)
    requires c.For?
    ensures SameTargets(st, LeaveFor(st, c, n, b))
  {
    hide AddEdge;
  }

  lemma TargetsInRange(st: State, n: nat)
    requires WellFormed(st) && |st.blocks| <= n
    ensures InRange(st.breaks, n) && InRange(st.loops, n) && InRange(st.endcases, n)
  {
    hide Shaped, IsOpen;
  }

  lemma LowerForKeeps(st: State, c: Stmt, b: State)
    requires WellFormed(st) && c.For? && WellFormed(b) && Grows(EnterFor(st, c), b)
    ensures var r := LeaveFor(st, c, |Ensure(st).blocks|, b);
            WellFormed(r) && Grows(st, r) && SameTargets(st, r)
  {
    hide EnterFor, LeaveFor, Ensure, Grows, SameTargets, WellFormed, InRange;
    var n := |Ensure(st).blocks|;
    LoopPending(st, c, b);
    TargetsInRange(st, n);
    LeaveForRestores(st, c, n, b);
    LeaveForKeeps(st, c, n, b);
    EnterForKeeps(st, c);
    GrowsTransitive(st, EnterFor(st, c), b);
    LoopSettles(st, c, n, b);
  }

  lemma LoopSettles(st: State, c: Stmt, n: nat, b: State)
    requires WellFormed(st) && c.For? && WellFormed(b) && Grows(st, b)
    requires |st.blocks| <= n && n + 4 <= |b.blocks|
    requires b.current != Some(n + 2)
    requires b.blocks[n + 2].stmts == [] && b.blocks[n + 2].succs == []
    ensures Grows(st, LeaveFor(st, c, n, b))
  {
    hide LeaveFor, Shaped, Grows;
    assert b.current.Some? ==> b.current.value < |b.blocks| && b.blocks[b.current.value].succs == [];
    hide WellFormed, IsOpen;
    LeaveForBlocks(st, c, n, b);
    var r := LeaveFor(st, c, n, b);
    if b.current.Some? {
      EdgeCloses(r.blocks[b.current.value]);
    }
    GrowsSettles(st, b, r);
  }

  lemma EdgeCloses(b: Block)
    requires b.succs != []
    ensures IsClosed(b)
  {
  }

  lemma {:induction false} LowerAllKeeps(st: State, cs: seq<Stmt>)
    requires WellFormed(st)
    ensures WellFormed(LowerAll(st, cs)) && Grows(st, LowerAll(st, cs)) && SameTargets(st, LowerAll(st, cs))
    decreases cs, 0
  {
    if cs != [] {
      var a, b := Ensure(st), Lower(Ensure(st), cs[0]);
      EnsureKeeps(st);
      LowerKeeps(a, cs[0]);
      LowerAllKeeps(b, cs[1..]);
      GrowsTransitive(st, a, b);
      GrowsTransitive(st, b, LowerAll(st, cs));
    }
  }

  /** Lowering some arms of a SWITCHON touches only their blocks, from `lo` to `hi`, and new ones. */
  ghost predicate ArmsKept(a: State, b: State, lo: nat, hi: nat) {
    && WellFormed(b) && SameTargets(a, b)
    && |a.blocks| <= |b.blocks|
    && b.current.None?
    && (a.exit.Some? ==> b.exit == a.exit)
    && (a.exit.None? && b.exit.Some? ==> b.exit.value >= |a.blocks|)
    && forall i :: 0 <= i < |a.blocks| && !(lo <= i < hi) ==>
         b.blocks[i].stmts == a.blocks[i].stmts && b.blocks[i].succs == a.blocks[i].succs
  }

  /** Empty blocks that no one has begun to fill. */
  ghost predicate Pending(st: State, lo: nat, hi: nat) {
    && hi <= |st.blocks|
    && forall i :: lo <= i < hi ==> st.blocks[i].stmts == [] && st.blocks[i].succs == [] && st.exit != Some(i)
  }

  lemma {:induction false} LowerArmKeeps(st: State, block: nat, c: Stmt, join: nat)
    requires WellFormed(st) && st.current.None? && join < |st.blocks| && Pending(st, block, block + 1)
    ensures var r := LowerArm(st, block, c, join);
            ArmsKept(st, r, block, block + 1)
    decreases c, 2
  {
    var a := st.(current := Some(block));
    var b := Lower(a, c);
    assert IsOpen(a.blocks[block]);
    LowerKeeps(a, c);
    hide Shaped;
    FallIntoKeeps(b, join);
    MoveKeeps(b, join, None);
  }

  lemma {:induction false} LowerCasesKeeps(st: State, cases: seq<Case>, block: nat, join: nat)
    requires WellFormed(st) && st.current.None? && join < |st.blocks| && Pending(st, block, block + |cases|)
    ensures var r := LowerCases(st, cases, block, join);
            ArmsKept(st, r, block, block + |cases|)
    decreases cases, 0
  {
    if cases != [] {
      assert cases[0] in cases && cases[0].command < cases[0];
      var a := LowerArm(st, block, cases[0].command, join);
      LowerArmKeeps(st, block, cases[0].command, join);
      hide WellFormed;
      LowerCasesKeeps(a, cases[1..], block + 1, join);
    }
  }

  /** The state in which the default of a SWITCHON is lowered. */
  function AfterCases(st: State, c: Stmt): State
    requires c.Switchon?
  {
    LowerCases(EnterSwitch(st, c), c.cases, |StartNew(st).blocks| + 1, |StartNew(st).blocks|)
  }

  function AfterArms(st: State, c: Stmt): State
    requires c.Switchon?
  {
    var join := |StartNew(st).blocks|;
    if c.defaultCase.Some? then LowerArm(AfterCases(st, c), join + 1 + |c.cases|, c.defaultCase.value, join)
    else AfterCases(st, c)
  }

  lemma EnterSwitchPending(st: State, c: Stmt)
    requires WellFormed(st) && c.Switchon?
    ensures var a, join := EnterSwitch(st, c), |StartNew(st).blocks|;
            && WellFormed(a) && a.current.None? && Pending(a, join, join + 1 + Arms(c))
            && |st.blocks| <= join
            && a.breaks == st.breaks && a.loops == st.loops && a.endcases == st.endcases + [join]
  {
    EnterSwitchKeeps(st, c);
    EnterSwitchBlocks(st, c);
    StartNewKeeps(st);
  }

  /** One more arm after the ones already lowered. */
  lemma {:induction false} NextArmKeeps(a: State, x: State, lo: nat, hi: nat, c: Stmt, join: nat)
    requires WellFormed(a) && ArmsKept(a, x, lo, hi)
    requires join < |a.blocks| && lo <= hi && Pending(a, hi, hi + 1)
    ensures var y := LowerArm(x, hi, c, join);
            ArmsKept(a, y, lo, hi + 1)
    decreases c, 3
  {
    assert Pending(x, hi, hi + 1) by {
      hide WellFormed;
    }
    LowerArmKeeps(x, hi, c, join);
    hide WellFormed, LowerArm;
  }

  lemma SwitchIs(st: State, c: Stmt)
    requires c.Switchon?
    ensures Lower(st, c) == AfterArms(st, c).(current := Some(|StartNew(st).blocks|), endcases := st.endcases)
  {
  }

  lemma AfterCasesIs(st: State, c: Stmt)
    requires c.Switchon?
    ensures var join := |StartNew(st).blocks|;
            AfterCases(st, c) == LowerCases(EnterSwitch(st, c), c.cases, join + 1, join)
  {
  }

  lemma {:induction false} AfterCasesKeeps(st: State, c: Stmt, join: nat)
    requires WellFormed(st) && c.Switchon? && join == |StartNew(st).blocks|
    ensures ArmsKept(EnterSwitch(st, c), AfterCases(st, c), join + 1, join + 1 + |c.cases|)
    decreases c, 0, 0
  {
    EnterSwitchPending(st, c);
    hide WellFormed, EnterSwitch, StartNew, ArmsKept;
    LowerCasesKeeps(EnterSwitch(st, c), c.cases, join + 1, join);
  }

  lemma {:induction false} AfterArmsKeeps(st: State, c: Stmt, join: nat)
    requires WellFormed(st) && c.Switchon? && join == |StartNew(st).blocks|
    ensures ArmsKept(EnterSwitch(st, c), AfterArms(st, c), join + 1, join + 1 + Arms(c))
    decreases c, 0, 1
  {
    AfterCasesKeeps(st, c, join);
    if c.defaultCase.Some? {
      EnterSwitchPending(st, c);
      hide WellFormed, EnterSwitch, StartNew, ArmsKept, AfterCases;
      NextArmKeeps(EnterSwitch(st, c), AfterCases(st, c), join + 1, join + 1 + |c.cases|, c.defaultCase.value, join);
    }
  }

  lemma {:induction false} LowerSwitchKeeps(st: State, c: Stmt)
    requires WellFormed(st) && c.Switchon?
    ensures WellFormed(Lower(st, c)) && Grows(st, Lower(st, c)) && SameTargets(st, Lower(st, c))
    decreases c, 0, 2
  {
    EnterSwitchKeeps(st, c);
    EnterSwitchPending(st, c);
    AfterArmsKeeps(st, c, |StartNew(st).blocks|);
    var a, y, join := EnterSwitch(st, c), AfterArms(st, c), |StartNew(st).blocks|;
    assert Lower(st, c) == y.(current := Some(join), endcases := st.endcases);
    hide Lower, EnterSwitch, AfterArms, WellFormed;
    SwitchSettles(st, a, y, join, join + 1 + Arms(c));
  }

  lemma SwitchSettles(st: State, a: State, y: State, join: nat, hi: nat)
    requires WellFormed(st) && WellFormed(a)
    requires Grows(st, a) && a.current.None? && |st.blocks| <= join < |a.blocks| && Pending(a, join, join + 1)
    requires ArmsKept(a, y, join + 1, hi)
    requires y.breaks == st.breaks && y.loops == st.loops
    ensures var r := y.(current := Some(join), endcases := st.endcases);
            WellFormed(r) && Grows(st, r) && SameTargets(st, r) && r.blocks[join].stmts == []
  {
    hide Shaped;
  }
}
