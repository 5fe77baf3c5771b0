/** What the graph builder does to its state for each kind of statement, as a
  * function of that state, together with the invariant every step keeps.
  * A block is known by its creation number.
  */
module CfgLowering {
  import opened Wrappers
  import opened Ast
  import opened Machine

  /** Everything the builder reads or writes; `current` is `None` after a jump. */
  datatype State = State(
    blocks: seq<Block>,
    current: Option<nat>,
    exit: Option<nat>,
    breaks: seq<nat>,
    loops: seq<nat>,
    endcases: seq<nat>)

  function NewBlocks(blocks: seq<Block>, n: nat): seq<Block> {
    blocks + seq(n, _ => EMPTY_BLOCK)
  }

  function AddStatement(blocks: seq<Block>, i: nat, c: Stmt): seq<Block> {
    if i < |blocks| then blocks[i := blocks[i].(stmts := blocks[i].stmts + [c])] else blocks
  }

  /** An edge is recorded at both ends; nothing happens unless both blocks exist. */
  function AddEdge(blocks: seq<Block>, from: nat, to: nat): seq<Block> {
    if from < |blocks| && to < |blocks| then
      var b := blocks[from := blocks[from].(succs := blocks[from].succs + [to])];
      b[to := b[to].(preds := b[to].preds + [from])]
    else blocks
  }

  /** Edges from one block to the next `n` blocks from `first` on, in order. */
  function AddFan(blocks: seq<Block>, from: nat, first: nat, n: nat): seq<Block>
    decreases n
  {
    if n == 0 then blocks else AddEdge(AddFan(blocks, from, first, n - 1), from, first + n - 1)
  }

  // ----- the invariant -----

  predicate IsOpen(b: Block) {
    b.succs == [] && !EndsWithControlFlow(b.stmts)
  }

  predicate IsClosed(b: Block) {
    !IsOpen(b)
  }

  /** How many successors a block may have, from its last statement; only assignments come before that. */
  predicate Shaped(stmts: seq<Stmt>, successors: nat) {
    && (forall k :: 0 <= k < |stmts| - 1 ==> stmts[k].Assign?)
    && if stmts == [] then successors <= 1
       else match stmts[|stmts| - 1] {
         case If(_, _) => successors == 2
         case For(_, _, _, _, _) => successors == 2
         case Switchon(_, cases, d) => successors == |cases| + (if d.Some? then 1 else 0) + 1
         case Return => successors == 1
         case Assign(_, _) => successors <= 1
         case Break => successors <= 1
         case Loop => successors <= 1
         case Endcase => successors <= 1
         case _ => false
       }
  }

  predicate InRange(ids: seq<nat>, n: nat) {
    forall i :: i in ids ==> i < n
  }

  function Count(ids: seq<nat>, x: nat): nat {
    multiset(ids)[x]
  }

  /** Every edge joins two blocks and is recorded at both of its ends, equally often. */
  ghost predicate Mirrored(blocks: seq<Block>) {
    && (forall f :: 0 <= f < |blocks| ==>
          InRange(blocks[f].succs, |blocks|) && InRange(blocks[f].preds, |blocks|))
    && (forall f, t :: 0 <= f < |blocks| && 0 <= t < |blocks| ==>
          Count(blocks[f].succs, t) == Count(blocks[t].preds, f))
  }

  /** The current block is open, the exit block is empty, and every block is shaped by its last statement. */
  ghost predicate WellFormed(st: State) {
    && (st.current.Some? ==> st.current.value < |st.blocks| && IsOpen(st.blocks[st.current.value]))
    && (st.exit.Some? ==>
          && st.exit.value < |st.blocks|
          && st.exit != st.current
          && st.blocks[st.exit.value].stmts == []
          && st.blocks[st.exit.value].succs == [])
    && InRange(st.breaks, |st.blocks|) && InRange(st.loops, |st.blocks|) && InRange(st.endcases, |st.blocks|)
    && (forall i :: 0 <= i < |st.blocks| ==> Shaped(st.blocks[i].stmts, |st.blocks[i].succs|))
  }

  predicate SameTargets(a: State, b: State) {
    a.breaks == b.breaks && a.loops == b.loops && a.endcases == b.endcases
  }

  /** Lowering may extend the current block, close it, and add blocks, and nothing else. */
  ghost predicate Grows(a: State, b: State) {
    && |a.blocks| <= |b.blocks|
    && (a.exit.Some? ==> b.exit == a.exit)
    && (a.exit.None? && b.exit.Some? ==> b.exit.value >= |a.blocks|)
    && (b.current.Some? ==> b.current == a.current || b.current.value >= |a.blocks|)
    && (forall i :: 0 <= i < |a.blocks| && Some(i) != a.current ==>
          b.blocks[i].stmts == a.blocks[i].stmts && b.blocks[i].succs == a.blocks[i].succs)
    && (a.current.Some? && a.current.value < |a.blocks| ==>
          var c := a.current.value;
          a.blocks[c].stmts <= b.blocks[c].stmts && (b.current == a.current || IsClosed(b.blocks[c])))
  }

  // ----- the builder's visits -----

  function CurrentStatements(st: State): seq<Stmt> {
    if st.current.Some? && st.current.value < |st.blocks| then st.blocks[st.current.value].stmts else []
  }

  /** A fresh block with no edge into it, when there is no current one. */
  function Ensure(st: State): (r: State)
    ensures r.current.Some?
  {
    if st.current.Some? then st
    else st.(blocks := NewBlocks(st.blocks, 1), current := Some(|st.blocks|))
  }

  /** Ends the current block with an edge to a fresh one. */
  function StartNew(st: State): (r: State)
    ensures r.current.Some?
  {
    if st.current.None? then Ensure(st)
    else if EndsWithControlFlow(CurrentStatements(st)) then st
    else
      var n := |st.blocks|;
      st.(blocks := AddEdge(NewBlocks(st.blocks, 1), st.current.value, n), current := Some(n))
  }

  /** An edge from the open block, if there is one, to `to`. */
  function FallInto(st: State, to: nat): State {
    if st.current.Some? && !EndsWithControlFlow(CurrentStatements(st)) then
      st.(blocks := AddEdge(st.blocks, st.current.value, to))
    else st
  }

  function Append(st: State, c: Stmt): (r: State)
    ensures r.current.Some?
  {
    var e := Ensure(st);
    e.(blocks := AddStatement(e.blocks, e.current.value, c))
  }

  /** A jump: the statement, an edge to the innermost target if there is one, and no current block. */
  function Jump(st: State, c: Stmt, targets: seq<nat>): State {
    var a := Append(st, c);
    var b := if targets == [] then a.blocks
             else AddEdge(a.blocks, a.current.value, targets[|targets| - 1]);
    a.(blocks := b, current := None)
  }

  function NeedExit(st: State): (r: State)
    ensures r.exit.Some? && r.current == st.current
  {
    if st.exit.Some? then st
    else st.(blocks := NewBlocks(st.blocks, 1), exit := Some(|st.blocks|))
  }

  function LowerReturn(st: State): State {
    var a := NeedExit(Append(st, Return));
    a.(blocks := AddEdge(a.blocks, a.current.value, a.exit.value), current := None)
  }

  /** The state in which the arm of an IF is lowered: the arm is block `n`, the join block `n + 1`. */
  function EnterIf(st: State, c: Stmt): (r: State)
    ensures r.current.Some?
  {
    var a := Append(st, c);
    var here, n := a.current.value, |a.blocks|;
    a.(blocks := AddEdge(AddEdge(NewBlocks(a.blocks, 2), here, n), here, n + 1), current := Some(n))
  }

  /** The header is block `n`, then come the body, the increment and the exit of the loop. */
  function EnterFor(st: State, c: Stmt): State
    requires c.For?
  {
    var a := Append(st, Assign([c.variable], [c.start]));
    var n := |a.blocks|;
    var b := AddEdge(NewBlocks(a.blocks, 4), a.current.value, n);
    var d := AddEdge(AddEdge(AddStatement(b, n, c), n, n + 1), n, n + 3);
    State(d, Some(n + 1), a.exit, a.breaks + [n + 3], a.loops + [n + 2], a.endcases)
  }

  function LeaveFor(st: State, c: Stmt, header: nat, body: State): State
    requires c.For?
  {
    var a := if body.current.Some? then AddEdge(body.blocks, body.current.value, header + 2) else body.blocks;
    var b := AddEdge(AddStatement(a, header + 2, Increment(c.variable, c.step)), header + 2, header);
    State(b, Some(header + 3), body.exit, st.breaks, st.loops, st.endcases)
  }

  /** The header of a SWITCHON is closed at once; the join block is followed by the cases and the default. */
  function EnterSwitch(st: State, c: Stmt): State
    requires c.Switchon?
  {
    var a := StartNew(st);
    var b := AddStatement(a.blocks, a.current.value, c);
    var here, join, arms := a.current.value, |a.blocks|, |c.cases| + (if c.defaultCase.Some? then 1 else 0);
    State(AddEdge(AddFan(NewBlocks(b, arms + 1), here, join + 1, arms), here, join),
          None, a.exit, a.breaks, a.loops, a.endcases + [join])
  }

  /** Lowers one statement. */
  function Lower(st: State, c: Stmt): State
    decreases c, 1
  {
    match c
    case Assign(_, _) => Append(st, c)
    case Let(xs, es) => LowerLet(Ensure(st), xs, es)
    case If(_, t) =>
      var a := EnterIf(st, c);
      var join := a.current.value + 1;
      FallInto(Lower(a, t), join).(current := Some(join))
    case For(_, _, _, _, body) =>
      LeaveFor(st, c, |Ensure(st).blocks|, Lower(EnterFor(st, c), body))
    case Switchon(_, cases, d) =>
      var join := |StartNew(st).blocks|;
      var a := LowerCases(EnterSwitch(st, c), cases, join + 1, join);
      var b := if d.Some? then LowerArm(a, join + 1 + |cases|, d.value, join) else a;
      b.(current := Some(join), endcases := st.endcases)
    case Compound(cs) => LowerAll(st, cs)
    case Break => Jump(st, c, st.breaks)
    case Loop => Jump(st, c, st.loops)
    case Endcase => Jump(st, c, st.endcases)
    case Return => LowerReturn(st)
    case ConditionalBranch(_, _) => st
  }

  function LowerLet(st: State, xs: seq<string>, es: seq<Expr>): State
    decreases |xs|
  {
    if xs == [] || es == [] then st
    else LowerLet(Append(st, Assign([xs[0]], [es[0]])), xs[1..], es[1..])
  }

  function LowerAll(st: State, cs: seq<Stmt>): State
    decreases cs, 0
  {
    if cs == [] then st else LowerAll(Lower(Ensure(st), cs[0]), cs[1..])
  }

  /** One arm of a SWITCHON, which flows into the join block. */
  function LowerArm(st: State, block: nat, c: Stmt, join: nat): State
    decreases c, 2
  {
    FallInto(Lower(st.(current := Some(block)), c), join).(current := None)
  }

  /** The arms of a SWITCHON from the one in block `block` on. */
  function LowerCases(st: State, cases: seq<Case>, block: nat, join: nat): State
    decreases cases, 0
  {
    if cases == [] then st
    else
      assert cases[0] in cases && cases[0].command < cases[0];
      LowerCases(LowerArm(st, block, cases[0].command, join), cases[1..], block + 1, join)
  }

  /** The whole body of a function: the entry block is number 0. */
  function Build(body: Stmt): State {
    var a := Lower(State([EMPTY_BLOCK], Some(0), None, [], [], []), body);
    if a.current.Some? && !EndsWithControlFlow(CurrentStatements(a)) then
      var b := NeedExit(a);
      b.(blocks := AddEdge(b.blocks, b.current.value, b.exit.value))
    else a
  }
}
