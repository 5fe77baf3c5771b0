/** What the live sets say about runs: variables outside them cannot influence a run. */
module LivenessSoundness {
  import opened Wrappers
  import opened Ast
  import opened Machine
  import opened Liveness
  import opened CfgLowering
  import CfgTheorems

  // ----- what the machine itself reads and writes -----

  function Reads(c: Stmt): Names {
    match c
    case Assign(_, es) => VarsAll(es)
    case Let(_, es) => VarsAll(es)
    case _ => {}
  }

  function Written(xs: seq<string>, n: nat): Names {
    if |xs| <= n then Elements(xs) else Elements(xs[..n])
  }

  function Writes(c: Stmt): Names {
    match c
    case Assign(xs, es) => Written(xs, |es|)
    case Let(xs, es) => Written(xs, |es|)
    case _ => {}
  }

  /** The variables looked at when the branch at the end of a block is decided. */
  function BranchReads(b: Block): Names {
    if |b.succs| < 2 || b.stmts == [] then {}
    else match b.stmts[|b.stmts| - 1] {
      case If(e, _) => Vars(e)
      case ConditionalBranch(_, e) => Vars(e)
      case For(x, _, end, _, _) => {x} + Vars(end)
      case Switchon(e, _, _) => Vars(e)
      case _ => {}
    }
  }

  /** The variables that matter before the statements `cs` when those in `after` matter behind them. */
  function Before(cs: seq<Stmt>, after: Names): Names {
    if cs == [] then after else Reads(cs[0]) + (Before(cs[1..], after) - Writes(cs[0]))
  }

  function AllWrites(cs: seq<Stmt>): Names {
    if cs == [] then {} else Writes(cs[0]) + AllWrites(cs[1..])
  }

  lemma {:induction false} BeforeSplits(cs: seq<Stmt>, a: Names, b: Names)
    ensures Before(cs, a + b) == Before(cs, a) + (b - AllWrites(cs))
  {
    if cs != [] {
      BeforeSplits(cs[1..], a, b);
    }
  }

  // ----- when a block's use and def sets are safe -----

  /** Whatever matters after a block, its in set holds what matters before it. */
  ghost predicate Covers(b: Block, ud: UseDef) {
    forall out: Names :: Before(b.stmts, out + BranchReads(b)) <= InOf(ud, out)
  }

  /** A block's sets are safe exactly when they hold its own reads and every variable in its def set
    * is either assigned by the block itself or in its use set.
    */
  lemma CoversExactly(b: Block, ud: UseDef)
    ensures Covers(b, ud) <==> Before(b.stmts, BranchReads(b)) <= ud.use && ud.def <= AllWrites(b.stmts) + ud.use
  {
    if Covers(b, ud) {
      assert Before(b.stmts, {} + BranchReads(b)) <= InOf(ud, {});
      assert {} + BranchReads(b) == BranchReads(b);
      forall v | v in ud.def
        ensures v in AllWrites(b.stmts) + ud.use
      {
        assert Before(b.stmts, {v} + BranchReads(b)) <= InOf(ud, {v});
        BeforeSplits(b.stmts, BranchReads(b), {v});
        assert {v} + BranchReads(b) == BranchReads(b) + {v};
      }
    }
    if Before(b.stmts, BranchReads(b)) <= ud.use && ud.def <= AllWrites(b.stmts) + ud.use {
      forall out: Names
        ensures Before(b.stmts, out + BranchReads(b)) <= InOf(ud, out)
      {
        BeforeSplits(b.stmts, BranchReads(b), out);
        assert out + BranchReads(b) == BranchReads(b) + out;
      }
    }
  }

  /** Assignments to plain variables and jumps; a conditional branch only at the end. */
  predicate Plain(cs: seq<Stmt>) {
    cs == [] || match cs[0] {
      case Assign(xs, es) => |xs| <= |es| && Plain(cs[1..])
      case ConditionalBranch(_, _) => |cs| == 1
      case Break => Plain(cs[1..])
      case Loop => Plain(cs[1..])
      case Endcase => Plain(cs[1..])
      case Return => Plain(cs[1..])
      case _ => false
    }
  }

  function TestReads(cs: seq<Stmt>): Names {
    if cs != [] && cs[|cs| - 1].ConditionalBranch? then Vars(cs[|cs| - 1].test) else {}
  }

  lemma {:induction false} PlainScan(cs: seq<Stmt>, ud: UseDef)
    requires Plain(cs)
    ensures var r := ScanAll(cs, ud);
            && r.def == ud.def + AllWrites(cs)
            && ud.use <= r.use
            && Before(cs, TestReads(cs)) <= r.use + ud.def
  {
    if cs != [] {
      var rest := cs[1..];
      PlainScan(rest, Scan(cs[0], ud));
      if rest != [] {
        assert rest[|rest| - 1] == cs[|cs| - 1];
      }
    }
  }

  /** Blocks of plain assignments that end in a conditional branch have safe sets. */
  lemma PlainCovers(b: Block)
    requires Plain(b.stmts)
    ensures Covers(b, BlockUseDef(b))
  {
    PlainScan(b.stmts, NOTHING);
    if b.stmts != [] {
      PlainBranch(b.stmts);
    }
    BeforeSplits(b.stmts, BranchReads(b), TestReads(b.stmts));
    assert BranchReads(b) + TestReads(b.stmts) == TestReads(b.stmts);
    CoversExactly(b, BlockUseDef(b));
  }

  lemma {:induction false} PlainBranch(cs: seq<Stmt>)
    requires Plain(cs) && cs != []
    ensures !cs[|cs| - 1].If? && !cs[|cs| - 1].For? && !cs[|cs| - 1].Switchon?
  {
    if |cs| > 1 {
      PlainBranch(cs[1..]);
    }
  }

  // ----- runs -----

  ghost predicate Agree(s: Store, t: Store, vs: Names) {
    forall v :: v in vs ==> Lookup(s, v) == Lookup(t, v)
  }

  lemma {:induction false} EvalAgrees(e: Expr, s: Store, t: Store)
    requires Agree(s, t, Vars(e))
    ensures Eval(e, s) == Eval(e, t)
  {
    match e
    case Unary(_, a) => EvalAgrees(a, s, t);
    case Binary(_, a, b) =>
      EvalAgrees(a, s, t);
      EvalAgrees(b, s, t);
    case Conditional(c, a, b) =>
      EvalAgrees(c, s, t);
      EvalAgrees(a, s, t);
      EvalAgrees(b, s, t);
    case _ =>
  }

  lemma {:induction false} EvalAllAgrees(es: seq<Expr>, s: Store, t: Store)
    requires Agree(s, t, VarsAll(es))
    ensures EvalAll(es, s) == EvalAll(es, t)
  {
    if es != [] {
      EvalAgrees(es[0], s, t);
      EvalAllAgrees(es[1..], s, t);
    }
  }

  lemma {:induction false} StoreAllAgrees(s: Store, t: Store, xs: seq<string>, vs: seq<Word>, others: Names)
    requires Agree(s, t, others - Written(xs, |vs|))
    ensures Agree(StoreAll(s, xs, vs), StoreAll(t, xs, vs), others)
    decreases |xs|
  {
    if xs != [] && vs != [] {
      var a, b := s[xs[0] := vs[0]], t[xs[0] := vs[0]];
      var w := Written(xs, |vs|);
      forall v | v in w && v != xs[0]
        ensures v in Written(xs[1..], |vs| - 1)
      {
        var i :| 0 <= i < |xs| && i < |vs| && xs[i] == v;
        assert xs[1..][i - 1] == v;
        if |xs| > |vs| {
          assert xs[1..][..|vs| - 1][i - 1] == v;
        }
      }
      StoreAllAgrees(a, b, xs[1..], vs[1..], others);
    }
  }

  /** Everything a run from this point on depends on. */
  function Relevant(g: seq<Block>, outs: seq<Names>, k: Config): Names
    requires |outs| == |g|
  {
    if !k.At? || k.block >= |g| then {}
    else
      var b := g[k.block];
      var after := outs[k.block] + BranchReads(b);
      if k.pos < |b.stmts| then Before(b.stmts[k.pos..], after) else after
  }

  ghost predicate SamePlace(k: Config, m: Config) {
    && (k.At? <==> m.At?)
    && (k.Done? <==> m.Done?)
    && (k.Fell? <==> m.Fell?)
    && (k.At? ==> k.block == m.block && k.pos == m.pos)
  }

  ghost predicate Alike(g: seq<Block>, outs: seq<Names>, k: Config, m: Config)
    requires |outs| == |g|
  {
    SamePlace(k, m) && (k.At? ==> Agree(k.store, m.store, Relevant(g, outs, k)))
  }

  ghost predicate Analysed(g: seq<Block>, uds: seq<UseDef>, ins: seq<Names>, outs: seq<Names>) {
    && Solution(g, uds, ins) && |outs| == |g|
    && (forall b :: 0 <= b < |g| ==> outs[b] == OutOf(ins, g[b].succs, |g[b].succs|))
    && (forall b :: 0 <= b < |g| ==> Covers(g[b], uds[b]))
  }

  lemma EnterBlock(g: seq<Block>, uds: seq<UseDef>, ins: seq<Names>, outs: seq<Names>, b: nat, s: Store, t: Store)
    requires Analysed(g, uds, ins, outs) && (b < |g| ==> Agree(s, t, ins[b]))
    ensures Alike(g, outs, At(b, 0, s), At(b, 0, t))
  {
    if b < |g| {
      assert g[b].stmts[0..] == g[b].stmts;
      assert Before(g[b].stmts, outs[b] + BranchReads(g[b])) <= InOf(uds[b], outs[b]);
    }
  }

  lemma StatementKeepsAlike(g: seq<Block>, outs: seq<Names>, b: nat, i: nat, s: Store, t: Store)
    requires b < |g| == |outs| && i < |g[b].stmts|
    requires Alike(g, outs, At(b, i, s), At(b, i, t))
    ensures var c := g[b].stmts[i]; Alike(g, outs, At(b, i + 1, Effect(c, s)), At(b, i + 1, Effect(c, t)))
  {
    var cs, c := g[b].stmts, g[b].stmts[i];
    assert cs[i..][0] == c && cs[i..][1..] == cs[i + 1..];
    var later := Before(cs[i + 1..], outs[b] + BranchReads(g[b]));
    if c.Assign? {
      EvalAllAgrees(c.values, s, t);
      StoreAllAgrees(s, t, c.targets, EvalAll(c.values, s), later);
    } else if c.Let? {
      EvalAllAgrees(c.initializers, s, t);
      StoreAllAgrees(s, t, c.names, EvalAll(c.initializers, s), later);
    }
  }

  lemma ExitAgrees(b: Block, s: Store, t: Store)
    requires Agree(s, t, BranchReads(b))
    ensures BlockExit(b, s) == BlockExit(b, t)
  {
    if |b.succs| >= 2 && b.stmts != [] {
      match b.stmts[|b.stmts| - 1]
      case If(e, _) => EvalAgrees(e, s, t);
      case ConditionalBranch(_, e) => EvalAgrees(e, s, t);
      case For(x, _, end, _, _) =>
        assert x in BranchReads(b);
        EvalAgrees(end, s, t);
      case Switchon(e, _, _) => EvalAgrees(e, s, t);
      case _ =>
    }
  }

  lemma ExitTarget(b: Block, s: Store)
    ensures BlockExit(b, s).Goto? ==> BlockExit(b, s).target in b.succs
  {
  }

  lemma StepKeepsAlike(g: seq<Block>, uds: seq<UseDef>, ins: seq<Names>, outs: seq<Names>, k: Config, m: Config)
    requires Analysed(g, uds, ins, outs) && Alike(g, outs, k, m)
    ensures Alike(g, outs, Step(g, k), Step(g, m))
  {
    hide Before, BranchReads, Covers, OutOf, InOf, BlockExit;
    if k.At? && k.block < |g| {
      var b := g[k.block];
      if k.pos < |b.stmts| {
        hide Analysed;
        if !b.stmts[k.pos].Return? {
          StatementKeepsAlike(g, outs, k.block, k.pos, k.store, m.store);
        }
      } else {
        ExitKeepsAlike(g, uds, ins, outs, k.block, k.store, m.store);
      }
    }
  }

  lemma ExitKeepsAlike(g: seq<Block>, uds: seq<UseDef>, ins: seq<Names>, outs: seq<Names>, b: nat, s: Store, t: Store)
    requires Analysed(g, uds, ins, outs) && b < |g| && Agree(s, t, outs[b] + BranchReads(g[b]))
    ensures Alike(g, outs, Follow(BlockExit(g[b], s), s), Follow(BlockExit(g[b], t), t))
  {
    hide Before, BranchReads, Covers, InOf, BlockExit;
    ExitAgrees(g[b], s, t);
    var x := BlockExit(g[b], s);
    if x.Goto? {
      ExitTarget(g[b], s);
      var n := |g[b].succs|;
      var j :| 0 <= j < n && g[b].succs[j] == x.target;
      if x.target < |g| {
        forall v | v in ins[x.target]
          ensures Lookup(s, v) == Lookup(t, v)
        {
          OutOfMembers(ins, g[b].succs, n, v);
        }
      }
      EnterBlock(g, uds, ins, outs, x.target, s, t);
    }
  }

  /** What the machine looks at in its next step. */
  function ReadsAt(g: seq<Block>, k: Config): Names {
    if !k.At? || k.block >= |g| then {}
    else if k.pos < |g[k.block].stmts| then Reads(g[k.block].stmts[k.pos])
    else BranchReads(g[k.block])
  }

  lemma {:induction false} RunsStayAlike(g: seq<Block>, uds: seq<UseDef>, ins: seq<Names>, outs: seq<Names>, k: Config, m: Config, n: nat)
    requires Analysed(g, uds, ins, outs) && Alike(g, outs, k, m)
    ensures Alike(g, outs, Run(g, k, n), Run(g, m, n))
    decreases n
  {
    hide Analysed, Alike, Step;
    if n > 0 {
      StepKeepsAlike(g, uds, ins, outs, k, m);
      RunsStayAlike(g, uds, ins, outs, Step(g, k), Step(g, m), n - 1);
    }
  }

  /** Two stores that agree on a block's live variables take the same path from there for ever, and every
    * statement and branch on the way reads the same values.
    */
  lemma LiveVariablesDecideRuns(g: seq<Block>, uds: seq<UseDef>, ins: seq<Names>, outs: seq<Names>, b: nat, s: Store, t: Store, n: nat)
    requires Analysed(g, uds, ins, outs) && b < |g| && Agree(s, t, ins[b])
    ensures var k, m := Run(g, At(b, 0, s), n), Run(g, At(b, 0, t), n);
            SamePlace(k, m) && (k.At? ==> Agree(k.store, m.store, ReadsAt(g, k)))
  {
    hide Analysed, Run, BranchReads;
    EnterBlock(g, uds, ins, outs, b, s, t);
    RunsStayAlike(g, uds, ins, outs, At(b, 0, s), At(b, 0, t), n);
  }

  /** The same for the sets the analysis itself computes, in a graph of plain blocks. */
  lemma PlainGraphsAreSound(g: seq<Block>, ins: seq<Names>, outs: seq<Names>, b: nat, s: Store, t: Store, n: nat)
    requires Solution(g, UseDefs(g), ins) && |outs| == |g|
    requires forall i :: 0 <= i < |g| ==> outs[i] == OutOf(ins, g[i].succs, |g[i].succs|)
    requires forall i :: 0 <= i < |g| ==> Plain(g[i].stmts)
    requires b < |g| && Agree(s, t, ins[b])
    ensures var k, m := Run(g, At(b, 0, s), n), Run(g, At(b, 0, t), n);
            SamePlace(k, m) && (k.At? ==> Agree(k.store, m.store, ReadsAt(g, k)))
  {
    forall i | 0 <= i < |g|
      ensures Covers(g[i], UseDefs(g)[i])
    {
      PlainCovers(g[i]);
    }
    LiveVariablesDecideRuns(g, UseDefs(g), ins, outs, b, s, t, n);
  }

  // ----- where the sets are not safe -----

  const GUARDED := If(Variable("c"), Assign(["x"], [Number(1)]))
  const COPY := Assign(["y"], [Variable("x")])

  /** The graph built for a guarded assignment to `x` followed by a copy of `x`. */
  const GUARDED_GRAPH := [Block([GUARDED], [1, 2], []), Block([Assign(["x"], [Number(1)])], [2], [0]),
                          Block([COPY], [3], [0, 1]), Block([], [], [2])]

  lemma GuardedBodyIsLowered()
    ensures var r := Lower(CfgTheorems.INITIAL, Compound([GUARDED, COPY]));
            && r.current == Some(2) && r.exit.None?
            && r.blocks == [Block([GUARDED], [1, 2], []), Block([Assign(["x"], [Number(1)])], [2], [0]), Block([COPY], [], [0, 1])]
  {
    var assignX := Assign(["x"], [Number(1)]);
    var start := CfgTheorems.INITIAL;
    assert EMPTY_BLOCK.stmts + [GUARDED] == [GUARDED] && EMPTY_BLOCK.stmts + [assignX] == [assignX];
    assert EMPTY_BLOCK.stmts + [COPY] == [COPY] && [1] + [2] == [1, 2] && [0] + [1] == [0, 1];
    assert EMPTY_BLOCK.succs + [1] == [1] && EMPTY_BLOCK.succs + [2] == [2] && EMPTY_BLOCK.succs + [0] == [0];
    assert Append(start, GUARDED).blocks == [Block([GUARDED], [], [])];
    var arm := EnterIf(start, GUARDED);
    assert NewBlocks([Block([GUARDED], [], [])], 2) == [Block([GUARDED], [], []), EMPTY_BLOCK, EMPTY_BLOCK];
    assert arm.blocks == [Block([GUARDED], [1, 2], []), Block([], [], [0]), Block([], [], [0])];
    var inside := Lower(arm, assignX);
    assert inside.blocks == [Block([GUARDED], [1, 2], []), Block([assignX], [], [0]), Block([], [], [0])];
    var join := Lower(start, GUARDED);
    assert join.blocks == [Block([GUARDED], [1, 2], []), Block([assignX], [2], [0]), Block([], [], [0, 1])];
    var last := Lower(join, COPY);
    assert last.blocks == [Block([GUARDED], [1, 2], []), Block([assignX], [2], [0]), Block([COPY], [], [0, 1])];
    assert [GUARDED, COPY][1..] == [COPY];
    assert LowerAll(start, [GUARDED, COPY]) == LowerAll(join, [COPY]) == LowerAll(last, []);
    assert Lower(start, Compound([GUARDED, COPY])) == last;
  }

  lemma GuardedGraphIsBuilt()
    ensures CfgTheorems.Graph(Compound([GUARDED, COPY])) == GUARDED_GRAPH
  {
    GuardedBodyIsLowered();
    var last := Lower(CfgTheorems.INITIAL, Compound([GUARDED, COPY]));
    hide Lower;
    assert NewBlocks(last.blocks, 1) == last.blocks + [EMPTY_BLOCK];
    assert last.blocks[2].succs + [3] == [3] && EMPTY_BLOCK.preds + [2] == [2];
    assert AddEdge(last.blocks + [EMPTY_BLOCK], 2, 3) == GUARDED_GRAPH;
  }

  /** A definition nested in an IF hides the later use of the old value: `x` is live nowhere at the entry of
    * this function, whatever solution is taken.
    */
  lemma NestedDefinitionHidesUse(ins: seq<Names>)
    requires Solution(GUARDED_GRAPH, UseDefs(GUARDED_GRAPH), ins)
    ensures ins[0] == {"c"} + (ins[1] + ins[2] - {"x"})
    ensures !Covers(GUARDED_GRAPH[0], UseDefs(GUARDED_GRAPH)[0])
  {
    var ud := UseDefs(GUARDED_GRAPH)[0];
    assert ud == ScanAll([GUARDED], NOTHING) == ScanAll([], Scan(GUARDED, NOTHING));
    assert VarsAll([Number(1)]) == {} && Elements(["x"]) == {"x"};
    assert ud == UseDef({"c"}, {"x"});
    assert ins[0] == NewIn(GUARDED_GRAPH, UseDefs(GUARDED_GRAPH), ins, 0);
    assert OutOf(ins, [1, 2], 2) == OutOf(ins, [1, 2], 1) + ins[2] == OutOf(ins, [1, 2], 0) + ins[1] + ins[2];
    CoversExactly(GUARDED_GRAPH[0], ud);
    assert AllWrites([GUARDED]) == {};
  }

  /** And yet the value of `x` at the entry decides the result. */
  lemma HiddenUseDecides(s: Store)
    requires Lookup(s, "c") == 0
    ensures Run(GUARDED_GRAPH, At(0, 0, s), 5) == Done(s["y" := Lookup(s, "x")])
  {
    var t := s["y" := Lookup(s, "x")];
    assert Step(GUARDED_GRAPH, At(0, 0, s)) == At(0, 1, s);
    assert Step(GUARDED_GRAPH, At(0, 1, s)) == At(2, 0, s);
    assert EvalAll([Variable("x")], s) == [Lookup(s, "x")];
    assert StoreAll(s, ["y"], [Lookup(s, "x")]) == StoreAll(t, [], []);
    assert Step(GUARDED_GRAPH, At(2, 0, s)) == At(2, 1, t);
    assert Step(GUARDED_GRAPH, At(2, 1, t)) == At(3, 0, t);
    assert Step(GUARDED_GRAPH, At(3, 0, t)) == Done(t);
    hide Step;
    assert Run(GUARDED_GRAPH, At(2, 0, s), 3) == Done(t);
  }

  /** The block a hoisted common subexpression leaves behind: the reads of the LET are in no use set. */
  lemma HoistedReadsAreMissed()
    ensures var b := Block([Let(["_cse_temp_0"], [Binary(Add, Variable("a"), Variable("b"))]),
                            Assign(["x"], [Variable("_cse_temp_0")])], [], []);
            BlockUseDef(b).use == {"_cse_temp_0"} && !Covers(b, BlockUseDef(b))
  {
    var let := Let(["_cse_temp_0"], [Binary(Add, Variable("a"), Variable("b"))]);
    var copy := Assign(["x"], [Variable("_cse_temp_0")]);
    var b := Block([let, copy], [], []);
    assert [let, copy][1..] == [copy];
    assert ScanAll([let, copy], NOTHING) == ScanAll([copy], Scan(let, NOTHING)) == ScanAll([], Scan(copy, NOTHING));
    assert VarsAll([Variable("_cse_temp_0")]) == {"_cse_temp_0"};
    CoversExactly(b, BlockUseDef(b));
    assert "a" in Reads(let) by {
      assert "a" in Vars(let.initializers[0]);
    }
    assert Before(b.stmts, {}) == Reads(let) + (Before([copy], {}) - Writes(let));
  }
}
