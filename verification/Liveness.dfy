/** Live variables of a control-flow graph: the use and def sets of its blocks and the least
  * solution of the data-flow equations.
  */
module Liveness {
  import opened Wrappers
  import opened Ast
  import opened Machine
  import opened ReversePostOrder
  import opened BlockEvents

  type Names = set<string>

  function Vars(e: Expr): Names {
    match e
    case Number(_) => {}
    case Boolean(_) => {}
    case Variable(x) => {x}
    case Unary(_, a) => Vars(a)
    case Binary(_, a, b) => Vars(a) + Vars(b)
    case Conditional(c, t, f) => Vars(c) + Vars(t) + Vars(f)
  }

  function VarsAll(es: seq<Expr>): Names {
    if es == [] then {} else Vars(es[0]) + VarsAll(es[1..])
  }

  function Elements(xs: seq<string>): Names {
    set x | x in xs
  }

  // ----- use and def sets -----

  /** Variables read before any definition, and variables defined, in the statements seen so far. */
  datatype UseDef = UseDef(use: Names, def: Names)

  function Read(vs: Names, ud: UseDef): UseDef {
    ud.(use := ud.use + (vs - ud.def))
  }

  /** Statements nested in an IF, FOR or SWITCHON count as if they were in the block itself; a LET is passed over. */
  function Scan(c: Stmt, ud: UseDef): UseDef
    decreases c, 1
  {
    match c
    case Assign(xs, es) =>
      var r := Read(VarsAll(es), ud);
      r.(def := r.def + Elements(xs))
    case If(e, t) => Scan(t, Read(Vars(e), ud))
    case For(_, start, end, step, body) =>
      var r := Read(Vars(end), Read(Vars(start), ud));
      Scan(body, if step.Some? then Read(Vars(step.value), r) else r)
    case Switchon(e, cases, d) =>
      var r := ScanCases(cases, Read(Vars(e), ud));
      if d.Some? then Scan(d.value, r) else r
    case Compound(cs) => ScanAll(cs, ud)
    case ConditionalBranch(_, e) => Read(Vars(e), ud)
    case _ => ud
  }

  function ScanAll(cs: seq<Stmt>, ud: UseDef): UseDef
    decreases cs, 0
  {
    if cs == [] then ud else ScanAll(cs[1..], Scan(cs[0], ud))
  }

  function ScanCases(cases: seq<Case>, ud: UseDef): UseDef
    decreases cases, 0
  {
    if cases == [] then ud
    else
      assert cases[0] in cases && cases[0].command < cases[0];
      ScanCases(cases[1..], Scan(cases[0].command, ud))
  }

  const NOTHING := UseDef({}, {})

  function BlockUseDef(b: Block): UseDef {
    ScanAll(b.stmts, NOTHING)
  }

  function UseDefs(g: seq<Block>): seq<UseDef> {
    seq(|g|, i requires 0 <= i < |g| => BlockUseDef(g[i]))
  }

  // ----- what the sets hold -----

  /** Going through `es` in order turns `before` into `after`, as far as `v` is concerned: a read counts unless a definition
    * came before it.
    */
  predicate Records(before: UseDef, es: seq<Event>, after: UseDef, v: string) {
    && (v in after.use <==> v in before.use || (v !in before.def && Exposed(es, v)))
    && (v in after.def <==> v in before.def || Def(v) in es)
  }

  lemma RecordsJoin(u: UseDef, a: seq<Event>, w: UseDef, b: seq<Event>, x: UseDef, v: string)
    requires Records(u, a, w, v) && Records(w, b, x, v)
    ensures Records(u, a + b, x, v)
  {
    hide Exposed;
    ExposedJoin(a, b, v);
  }

  lemma {:induction false} VarsAreRead(e: Expr, v: string)
    ensures v in Vars(e) <==> Exposed(ReadBy(e), v)
    ensures Def(v) !in ReadBy(e)
  {
    hide Exposed;
    ReadingDefinesNothing(e, v);
    match e
    case Number(_) => ExposedNothing(v);
    case Boolean(_) => ExposedNothing(v);
    case Variable(x) => OneRead(x, v);
    case Unary(_, a) => VarsAreRead(a, v);
    case Binary(_, a, b) =>
      VarsAreRead(a, v);
      VarsAreRead(b, v);
      ExposedJoin(ReadBy(a), ReadBy(b), v);
    case Conditional(c, t, f) =>
      VarsAreRead(c, v);
      VarsAreRead(t, v);
      VarsAreRead(f, v);
      ExposedJoin(ReadBy(c), ReadBy(t), v);
      ExposedJoin(ReadBy(c) + ReadBy(t), ReadBy(f), v);
  }

  lemma {:induction false} AllVarsAreRead(es: seq<Expr>, v: string)
    ensures v in VarsAll(es) <==> Exposed(ReadByAll(es), v)
    ensures Def(v) !in ReadByAll(es)
  {
    hide Exposed;
    if es == [] {
      ExposedNothing(v);
    } else {
      VarsAreRead(es[0], v);
      AllVarsAreRead(es[1..], v);
      ExposedJoin(ReadBy(es[0]), ReadByAll(es[1..]), v);
    }
  }

  lemma {:induction false} DefinedAre(xs: seq<string>, v: string)
    ensures Def(v) in Defines(xs) <==> v in xs
    ensures !Exposed(Defines(xs), v)
  {
    hide Exposed;
    if xs == [] {
      ExposedNothing(v);
    } else {
      DefinedAre(xs[1..], v);
      ExposedJoin([Def(xs[0])], Defines(xs[1..]), v);
      OneDefinition(xs[0], v);
      assert xs == [xs[0]] + xs[1..];
    }
  }

  lemma ReadRecords(e: Expr, u: UseDef, v: string)
    ensures Records(u, ReadBy(e), Read(Vars(e), u), v)
  {
    hide Exposed;
    VarsAreRead(e, v);
  }

  lemma {:induction false} ScanRecords(c: Stmt, u: UseDef, v: string)
    ensures Records(u, EventsOf(c), Scan(c, u), v)
    decreases c, 1
  {
    hide Exposed, Records, Read;
    match c
    case Assign(xs, es) => AssignmentRecords(xs, es, u, v);
    case If(e, t) =>
      var r := Read(Vars(e), u);
      ReadRecords(e, u, v);
      ScanRecords(t, r, v);
      RecordsJoin(u, ReadBy(e), r, EventsOf(t), Scan(t, r), v);
    case For(_, start, end, step, body) =>
      var r0 := Read(Vars(start), u);
      var r1 := Read(Vars(end), r0);
      var r2 := if step.Some? then Read(Vars(step.value), r1) else r1;
      var third := if step.Some? then ReadBy(step.value) else [];
      ReadRecords(start, u, v);
      ReadRecords(end, r0, v);
      if step.Some? { ReadRecords(step.value, r1, v); } else { NothingRecorded(r1, v); }
      ScanRecords(body, r2, v);
      RecordsJoin(u, ReadBy(start), r0, ReadBy(end), r1, v);
      RecordsJoin(u, ReadBy(start) + ReadBy(end), r1, third, r2, v);
      RecordsJoin(u, ReadBy(start) + ReadBy(end) + third, r2, EventsOf(body), Scan(body, r2), v);
    case Switchon(e, cases, d) =>
      var r0 := Read(Vars(e), u);
      var r1 := ScanCases(cases, r0);
      var last := if d.Some? then EventsOf(d.value) else [];
      ReadRecords(e, u, v);
      CasesRecord(cases, r0, v);
      if d.Some? { ScanRecords(d.value, r1, v); } else { NothingRecorded(r1, v); }
      RecordsJoin(u, ReadBy(e), r0, EventsOfCases(cases), r1, v);
      RecordsJoin(u, ReadBy(e) + EventsOfCases(cases), r1, last, Scan(c, u), v);
    case Compound(cs) => AllRecord(cs, u, v);
    case ConditionalBranch(_, e) => ReadRecords(e, u, v);
    case _ => NothingRecorded(u, v);
  }

  lemma NothingRecorded(u: UseDef, v: string)
    ensures Records(u, [], u, v)
  {
    ExposedNothing(v);
  }

  lemma AssignmentRecords(xs: seq<string>, es: seq<Expr>, u: UseDef, v: string)
    ensures Records(u, ReadByAll(es) + Defines(xs), Scan(Assign(xs, es), u), v)
  {
    hide Exposed;
    var r := Read(VarsAll(es), u);
    AllVarsAreRead(es, v);
    DefinedAre(xs, v);
    assert Records(u, ReadByAll(es), r, v);
    RecordsJoin(u, ReadByAll(es), r, Defines(xs), Scan(Assign(xs, es), u), v);
  }

  lemma {:induction false} AllRecord(cs: seq<Stmt>, u: UseDef, v: string)
    ensures Records(u, EventsOfAll(cs), ScanAll(cs, u), v)
    decreases cs, 0
  {
    hide Exposed, Records;
    if cs == [] {
      NothingRecorded(u, v);
    } else {
      var r := Scan(cs[0], u);
      ScanRecords(cs[0], u, v);
      AllRecord(cs[1..], r, v);
      RecordsJoin(u, EventsOf(cs[0]), r, EventsOfAll(cs[1..]), ScanAll(cs, u), v);
    }
  }

  lemma {:induction false} CasesRecord(cases: seq<Case>, u: UseDef, v: string)
    ensures Records(u, EventsOfCases(cases), ScanCases(cases, u), v)
    decreases cases, 0
  {
    hide Exposed, Records;
    if cases == [] {
      NothingRecorded(u, v);
    } else {
      assert cases[0] in cases && cases[0].command < cases[0];
      var c := cases[0].command;
      ScanRecords(c, u, v);
      CasesRecord(cases[1..], Scan(c, u), v);
      RecordsJoin(u, EventsOf(c), Scan(c, u), EventsOfCases(cases[1..]), ScanCases(cases, u), v);
    }
  }

  /** The use set of a block holds exactly what some statement reads before any has defined it, the def set what is defined. */
  lemma BlockSets(b: Block)
    ensures forall v :: v in BlockUseDef(b).use <==> Exposed(EventsOfAll(b.stmts), v)
    ensures forall v :: v in BlockUseDef(b).def <==> Def(v) in EventsOfAll(b.stmts)
  {
    hide Exposed, EventsOfAll;
    forall v
      ensures v in BlockUseDef(b).use <==> Exposed(EventsOfAll(b.stmts), v)
      ensures v in BlockUseDef(b).def <==> Def(v) in EventsOfAll(b.stmts)
    {
      AllRecord(b.stmts, NOTHING, v);
    }
  }

  // ----- the equations -----

  /** The union of the in sets of the first `n` successors. */
  function OutOf(ins: seq<Names>, succs: seq<nat>, n: nat): Names
    requires n <= |succs|
  {
    if n == 0 then {}
    else OutOf(ins, succs, n - 1) + if succs[n - 1] < |ins| then ins[succs[n - 1]] else {}
  }

  function InOf(ud: UseDef, out: Names): Names {
    ud.use + (out - ud.def)
  }

  function NewIn(g: seq<Block>, uds: seq<UseDef>, ins: seq<Names>, b: nat): Names
    requires b < |g| == |uds|
  {
    InOf(uds[b], OutOf(ins, g[b].succs, |g[b].succs|))
  }

  ghost predicate Solution(g: seq<Block>, uds: seq<UseDef>, ins: seq<Names>) {
    |g| == |uds| == |ins| && forall b :: 0 <= b < |g| ==> ins[b] == NewIn(g, uds, ins, b)
  }

  lemma {:induction false} OutOfMembers(ins: seq<Names>, succs: seq<nat>, n: nat, v: string)
    requires n <= |succs|
    ensures v in OutOf(ins, succs, n) <==> exists j :: 0 <= j < n && succs[j] < |ins| && v in ins[succs[j]]
  {
    if n > 0 {
      OutOfMembers(ins, succs, n - 1, v);
    }
  }

  // ----- liveness along paths -----

  /** `v` is used in the last block of `p` and defined in none before it. */
  ghost predicate Carries(g: seq<Block>, uds: seq<UseDef>, p: seq<nat>, v: string)
    requires |g| == |uds|
  {
    && IsPath(g, p)
    && v in uds[p[|p| - 1]].use
    && (forall i :: 0 <= i < |p| - 1 ==> v !in uds[p[i]].def)
  }

  ghost predicate LiveAt(g: seq<Block>, uds: seq<UseDef>, b: nat, v: string)
    requires |g| == |uds|
  {
    exists p :: Carries(g, uds, p, v) && p[0] == b
  }

  lemma UsedIsLive(g: seq<Block>, uds: seq<UseDef>, b: nat, v: string)
    requires b < |g| == |uds| && v in uds[b].use
    ensures LiveAt(g, uds, b, v)
  {
    assert Carries(g, uds, [b], v);
  }

  lemma LiveBackwards(g: seq<Block>, uds: seq<UseDef>, b: nat, s: nat, v: string)
    requires b < |g| == |uds| && s in g[b].succs && LiveAt(g, uds, s, v) && v !in uds[b].def
    ensures LiveAt(g, uds, b, v)
  {
    var p :| Carries(g, uds, p, v) && p[0] == s;
    var q := [b] + p;
    forall i | 0 <= i < |q| - 1
      ensures q[i + 1] in g[q[i]].succs && v !in uds[q[i]].def
    {
      if i > 0 {
        assert q[i] == p[i - 1] && p[i - 1 + 1] in g[p[i - 1]].succs;
      }
    }
    assert Carries(g, uds, q, v) && q[0] == b;
  }

  ghost predicate AllLive(g: seq<Block>, uds: seq<UseDef>, ins: seq<Names>)
    requires |g| == |uds| == |ins|
  {
    forall b, v :: 0 <= b < |g| && v in ins[b] ==> LiveAt(g, uds, b, v)
  }

  lemma NewInIsLive(g: seq<Block>, uds: seq<UseDef>, ins: seq<Names>, b: nat)
    requires b < |g| == |uds| == |ins| && AllLive(g, uds, ins)
    ensures forall v :: v in NewIn(g, uds, ins, b) ==> LiveAt(g, uds, b, v)
  {
    hide LiveAt;
    forall v | v in NewIn(g, uds, ins, b)
      ensures LiveAt(g, uds, b, v)
    {
      if v in uds[b].use {
        UsedIsLive(g, uds, b, v);
      } else {
        OutOfMembers(ins, g[b].succs, |g[b].succs|, v);
        var j :| 0 <= j < |g[b].succs| && g[b].succs[j] < |ins| && v in ins[g[b].succs[j]];
        LiveBackwards(g, uds, b, g[b].succs[j], v);
      }
    }
  }

  lemma {:induction false} SolutionHoldsPath(g: seq<Block>, uds: seq<UseDef>, ins: seq<Names>, p: seq<nat>, v: string, i: nat)
    requires Solution(g, uds, ins) && Carries(g, uds, p, v) && i < |p|
    ensures v in ins[p[i]]
    decreases |p| - i
  {
    if i < |p| - 1 {
      SolutionHoldsPath(g, uds, ins, p, v, i + 1);
      var j :| 0 <= j < |g[p[i]].succs| && g[p[i]].succs[j] == p[i + 1];
      OutOfMembers(ins, g[p[i]].succs, |g[p[i]].succs|, v);
    }
    assert ins[p[i]] == NewIn(g, uds, ins, p[i]);
  }

  /** Every solution of the equations holds every live variable. */
  lemma SolutionHoldsLive(g: seq<Block>, uds: seq<UseDef>, ins: seq<Names>, b: nat, v: string)
    requires Solution(g, uds, ins) && b < |g| && LiveAt(g, uds, b, v)
    ensures v in ins[b]
  {
    var p :| Carries(g, uds, p, v) && p[0] == b;
    SolutionHoldsPath(g, uds, ins, p, v, 0);
  }

  /** A solution holding only live variables is below every other solution. */
  lemma LiveSolutionIsLeast(g: seq<Block>, uds: seq<UseDef>, ins: seq<Names>, other: seq<Names>)
    requires Solution(g, uds, ins) && Solution(g, uds, other) && AllLive(g, uds, ins)
    ensures forall b :: 0 <= b < |g| ==> ins[b] <= other[b]
  {
    forall b, v | 0 <= b < |g| && v in ins[b]
      ensures v in other[b]
    {
      SolutionHoldsLive(g, uds, other, b, v);
    }
  }

  // ----- why the iteration stops -----

  function AllUses(uds: seq<UseDef>, n: nat): (r: Names)
    requires n <= |uds|
    ensures forall b :: 0 <= b < n ==> uds[b].use <= r
  {
    if n == 0 then {} else AllUses(uds, n - 1) + uds[n - 1].use
  }

  function Missing(universe: Names, ins: seq<Names>, n: nat): nat
    requires n <= |ins|
  {
    if n == 0 then 0 else Missing(universe, ins, n - 1) + |universe - ins[n - 1]|
  }

  lemma SmallerSet(a: Names, b: Names)
    requires a <= b
    ensures |a| <= |b| && (a != b ==> |a| < |b|)
  {
    assert b == a + (b - a);
    assert |b| == |a| + |b - a|;
    if a != b {
      assert b - a != {};
    }
  }

  lemma {:induction false} GrowingShrinksMissing(universe: Names, ins: seq<Names>, b: nat, bigger: Names, n: nat)
    requires b < |ins| && n <= |ins| && ins[b] <= bigger <= universe && ins[b] != bigger
    ensures Missing(universe, ins[b := bigger], n) + (if b < n then 1 else 0) <= Missing(universe, ins, n)
  {
    if n > 0 {
      GrowingShrinksMissing(universe, ins, b, bigger, n - 1);
      if b == n - 1 {
        SmallerSet(universe - bigger, universe - ins[b]);
        var v :| v in bigger && v !in ins[b];
        assert v in universe - ins[b] && v !in universe - bigger;
      }
    }
  }

  lemma {:induction false} OutOfGrows(a: seq<Names>, b: seq<Names>, succs: seq<nat>, n: nat)
    requires n <= |succs| && |a| == |b| && forall i :: 0 <= i < |a| ==> a[i] <= b[i]
    ensures OutOf(a, succs, n) <= OutOf(b, succs, n)
  {
    if n > 0 {
      OutOfGrows(a, b, succs, n - 1);
    }
  }

  lemma {:induction false} OutOfBounded(ins: seq<Names>, succs: seq<nat>, n: nat, universe: Names)
    requires n <= |succs| && forall i :: 0 <= i < |ins| ==> ins[i] <= universe
    ensures OutOf(ins, succs, n) <= universe
  {
    if n > 0 {
      OutOfBounded(ins, succs, n - 1, universe);
    }
  }

  /** What holds of the in sets all along: they stay below their equations, inside the universe, and live. */
  ghost predicate Rising(g: seq<Block>, uds: seq<UseDef>, ins: seq<Names>) {
    && |g| == |uds| == |ins|
    && AllLive(g, uds, ins)
    && (forall b :: 0 <= b < |g| ==> ins[b] <= NewIn(g, uds, ins, b))
    && (forall b :: 0 <= b < |g| ==> ins[b] <= AllUses(uds, |uds|))
  }

  lemma UpdateKeepsRising(g: seq<Block>, uds: seq<UseDef>, ins: seq<Names>, b: nat)
    requires Rising(g, uds, ins) && b < |g|
    ensures Rising(g, uds, ins[b := NewIn(g, uds, ins, b)])
    ensures ins[b] <= NewIn(g, uds, ins, b) <= AllUses(uds, |uds|)
  {
    hide LiveAt;
    var now := NewIn(g, uds, ins, b);
    var after := ins[b := now];
    NewInIsLive(g, uds, ins, b);
    forall c | 0 <= c < |g|
      ensures after[c] <= NewIn(g, uds, after, c)
    {
      OutOfGrows(ins, after, g[c].succs, |g[c].succs|);
    }
    OutOfBounded(ins, g[b].succs, |g[b].succs|, AllUses(uds, |uds|));
  }

  // ----- the analysis -----

  class LivenessAnalysis {
    const g: seq<Block>
    var currentUse: Names
    var currentDef: Names
    var useDefs: seq<UseDef>
    var inSets: seq<Names>
    var outSets: seq<Names>

    constructor (g: seq<Block>)
      ensures this.g == g && |useDefs| == |inSets| == |outSets| == |g|
      ensures forall b :: 0 <= b < |g| ==> inSets[b] == {}
    {
      this.g := g;
      currentUse, currentDef := {}, {};
      useDefs := seq(|g|, i => NOTHING);
      inSets := seq(|g|, i => {});
      outSets := seq(|g|, i => {});
    }

    function Current(): UseDef
      reads this`currentUse, this`currentDef
    {
      UseDef(currentUse, currentDef)
    }

    method VisitExpr(e: Expr)
      modifies this`currentUse
      ensures Current() == Read(Vars(e), old(Current()))
    {
      match e
      case Variable(x) =>
        if x !in currentDef {
          currentUse := currentUse + {x};
        }
      case Unary(_, a) =>
        VisitExpr(a);
      case Binary(_, a, b) =>
        VisitExpr(a);
        VisitExpr(b);
      case Conditional(c, t, f) =>
        VisitExpr(c);
        VisitExpr(t);
        VisitExpr(f);
      case _ =>
    }

    method VisitAssignment(targets: seq<string>, values: seq<Expr>)
      modifies this`currentUse, this`currentDef
      ensures Current() == Scan(Assign(targets, values), old(Current()))
    {
      var i := 0;
      while i < |values|
        invariant i <= |values| && currentDef == old(currentDef)
        invariant Read(VarsAll(values[i..]), Current()) == Read(VarsAll(values), old(Current()))
      {
        VisitExpr(values[i]);
        assert values[i..][1..] == values[i + 1..];
        i := i + 1;
      }
      i := 0;
      while i < |targets|
        invariant i <= |targets|
        invariant currentUse == Read(VarsAll(values), old(Current())).use
        invariant currentDef == old(currentDef) + Elements(targets[..i])
      {
        currentDef := currentDef + {targets[i]};
        assert targets[..i + 1] == targets[..i] + [targets[i]];
        i := i + 1;
      }
      assert targets[..i] == targets;
    }

    method VisitStatement(c: Stmt)
      modifies this`currentUse, this`currentDef
      ensures Current() == Scan(c, old(Current()))
      ensures forall v :: Records(old(Current()), EventsOf(c), Current(), v)
      decreases c, 1
    {
      hide Exposed, EventsOf, Records;
      forall v
        ensures Records(Current(), EventsOf(c), Scan(c, Current()), v)
      {
        ScanRecords(c, Current(), v);
      }
      match c
      case Assign(xs, es) => VisitAssignment(xs, es);
      case If(e, t) =>
        VisitExpr(e);
        VisitStatement(t);
      case For(_, start, end, step, body) =>
        VisitExpr(start);
        VisitExpr(end);
        if step.Some? {
          VisitExpr(step.value);
        }
        VisitStatement(body);
      case Switchon(e, cases, d) =>
        VisitExpr(e);
        VisitCases(cases);
        if d.Some? {
          VisitStatement(d.value);
        }
      case Compound(cs) => VisitStatements(cs);
      case ConditionalBranch(_, e) => VisitExpr(e);
      case _ =>
    }

    method VisitStatements(cs: seq<Stmt>)
      modifies this`currentUse, this`currentDef
      ensures Current() == ScanAll(cs, old(Current()))
      decreases cs, 0
    {
      var i := 0;
      while i < |cs|
        invariant i <= |cs|
        invariant ScanAll(cs[i..], Current()) == ScanAll(cs, old(Current()))
      {
        assert cs[i] in cs;
        VisitStatement(cs[i]);
        assert cs[i..][1..] == cs[i + 1..];
        i := i + 1;
      }
    }

    method VisitCases(cases: seq<Case>)
      modifies this`currentUse, this`currentDef
      ensures Current() == ScanCases(cases, old(Current()))
      decreases cases, 0
    {
      var i := 0;
      while i < |cases|
        invariant i <= |cases|
        invariant ScanCases(cases[i..], Current()) == ScanCases(cases, old(Current()))
      {
        assert cases[i] in cases && cases[i].command < cases[i];
        VisitStatement(cases[i].command);
        assert cases[i..][1..] == cases[i + 1..];
        i := i + 1;
      }
    }

    method AnalyzeBlock(b: nat)
      requires b < |g| == |useDefs|
      modifies this`currentUse, this`currentDef, this`useDefs
      ensures useDefs == old(useDefs)[b := BlockUseDef(g[b])]
      ensures forall v :: v in useDefs[b].use <==> Exposed(EventsOfAll(g[b].stmts), v)
      ensures forall v :: v in useDefs[b].def <==> Def(v) in EventsOfAll(g[b].stmts)
    {
      hide Exposed, EventsOfAll;
      BlockSets(g[b]);
      currentUse, currentDef := {}, {};
      VisitStatements(g[b].stmts);
      useDefs := useDefs[b := Current()];
    }

    method ComputeUseDefSets()
      requires |useDefs| == |g|
      modifies this`currentUse, this`currentDef, this`useDefs
      ensures useDefs == UseDefs(g)
      ensures forall b, v :: 0 <= b < |g| ==> (v in useDefs[b].use <==> Exposed(EventsOfAll(g[b].stmts), v))
      ensures forall b, v :: 0 <= b < |g| ==> (v in useDefs[b].def <==> Def(v) in EventsOfAll(g[b].stmts))
    {
      hide Exposed, EventsOfAll;
      forall b | 0 <= b < |g|
        ensures forall v :: v in BlockUseDef(g[b]).use <==> Exposed(EventsOfAll(g[b].stmts), v)
        ensures forall v :: v in BlockUseDef(g[b]).def <==> Def(v) in EventsOfAll(g[b].stmts)
      {
        BlockSets(g[b]);
      }
      for b := 0 to |g|
        invariant |useDefs| == |g|
        invariant forall i :: 0 <= i < b ==> useDefs[i] == BlockUseDef(g[i])
      {
        AnalyzeBlock(b);
      }
    }

    /** Recomputes the out set of a block, then its in set. */
    method Update(b: nat) returns (changed: bool)
      requires b < |g| == |useDefs| == |inSets| == |outSets|
      modifies this`inSets, this`outSets
      ensures inSets == old(inSets)[b := NewIn(g, useDefs, old(inSets), b)]
      ensures outSets == old(outSets)[b := OutOf(old(inSets), g[b].succs, |g[b].succs|)]
      ensures changed <==> inSets != old(inSets)
    {
      var out, i := {}, 0;
      while i < |g[b].succs|
        invariant i <= |g[b].succs| && out == OutOf(inSets, g[b].succs, i)
      {
        var s := g[b].succs[i];
        out := out + if s < |inSets| then inSets[s] else {};
        i := i + 1;
      }
      outSets := outSets[b := out];
      var now := useDefs[b].use + (out - useDefs[b].def);
      changed := inSets[b] != now;
      inSets := inSets[b := now];
    }

    /** Blocks are recomputed in any order that names them all, until a round changes nothing. */
    method RunDataFlowAnalysis(order: seq<nat>)
      requires |useDefs| == |inSets| == |outSets| == |g|
      requires forall b :: 0 <= b < |g| ==> inSets[b] == {}
      requires forall b :: b in order <==> 0 <= b < |g|
      modifies this`inSets, this`outSets
      ensures Solution(g, useDefs, inSets) && |outSets| == |g|
      ensures forall b :: 0 <= b < |g| ==> outSets[b] == OutOf(inSets, g[b].succs, |g[b].succs|)
      ensures forall b, v :: 0 <= b < |g| ==> (v in inSets[b] <==> LiveAt(g, useDefs, b, v))
    {
      hide LiveAt, NewIn, AllUses;
      var universe := AllUses(useDefs, |g|);
      var changed := true;
      while changed
        invariant Rising(g, useDefs, inSets) && |outSets| == |g|
        invariant !changed ==> Solution(g, useDefs, inSets)
        invariant !changed ==> forall b :: 0 <= b < |g| ==> outSets[b] == OutOf(inSets, g[b].succs, |g[b].succs|)
        decreases Missing(universe, inSets, |inSets|), changed
      {
        changed := Round(order);
      }
      forall b, v | 0 <= b < |g| && LiveAt(g, useDefs, b, v)
        ensures v in inSets[b]
      {
        SolutionHoldsLive(g, useDefs, inSets, b, v);
      }
    }

    /** One pass over all blocks. */
    method Round(order: seq<nat>) returns (changed: bool)
      requires Rising(g, useDefs, inSets) && |outSets| == |g|
      requires forall b :: b in order <==> 0 <= b < |g|
      modifies this`inSets, this`outSets
      ensures Rising(g, useDefs, inSets) && |outSets| == |g|
      ensures changed ==> Missing(AllUses(useDefs, |g|), inSets, |g|) < old(Missing(AllUses(useDefs, |g|), inSets, |g|))
      ensures !changed ==> inSets == old(inSets) && Solution(g, useDefs, inSets)
      ensures !changed ==> forall b :: 0 <= b < |g| ==> outSets[b] == OutOf(inSets, g[b].succs, |g[b].succs|)
    {
      hide LiveAt, AllUses, NewIn, AllLive, OutOf;
      changed := false;
      var i := 0;
      while i < |order|
        invariant i <= |order| && Rising(g, useDefs, inSets) && |outSets| == |g|
        invariant changed ==> Missing(AllUses(useDefs, |g|), inSets, |g|) < old(Missing(AllUses(useDefs, |g|), inSets, |g|))
        invariant !changed ==> inSets == old(inSets)
        invariant !changed ==> forall b :: b in order[..i] ==>
                    b < |g| && inSets[b] == NewIn(g, useDefs, inSets, b) && outSets[b] == OutOf(inSets, g[b].succs, |g[b].succs|)
      {
        var b := order[i];
        assert b in order;
        UpdateKeepsRising(g, useDefs, inSets, b);
        ghost var before := inSets;
        var differs := Update(b);
        if differs {
          GrowingShrinksMissing(AllUses(useDefs, |g|), before, b, inSets[b], |g|);
          changed := true;
        }
        assert order[..i + 1] == order[..i] + [b];
        i := i + 1;
      }
      assert order[..i] == order;
    }

    /** The largest number of variables live at any block boundary. */
    method RegisterPressure() returns (pressure: nat)
      requires |inSets| == |outSets| == |g|
      ensures forall b :: 0 <= b < |g| ==> |inSets[b]| <= pressure && |outSets[b]| <= pressure
      ensures pressure == 0 || exists b :: 0 <= b < |g| && (pressure == |inSets[b]| || pressure == |outSets[b]|)
    {
      pressure := 0;
      for b := 0 to |g|
        invariant forall c :: 0 <= c < b ==> |inSets[c]| <= pressure && |outSets[c]| <= pressure
        invariant pressure == 0 || exists c :: 0 <= c < b && (pressure == |inSets[c]| || pressure == |outSets[c]|)
      {
        var here := if |inSets[b]| > |outSets[b]| then |inSets[b]| else |outSets[b]|;
        if here > pressure {
          pressure := here;
        }
      }
    }
  }
}
