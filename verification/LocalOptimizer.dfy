/** The local optimiser as it works: tables updated in place, statements inserted into the block under its feet. */
module LocalOptimizer {
  import opened Ast
  import opened Machine
  import opened CseKey
  import opened LocalCse

  class LocalOptimizationPass {
    var exprCounts: Counts
    var available: Available
    var tempVarCounter: nat
    /** The statements of the block at hand. */
    var statements: seq<Stmt>

    constructor ()
      ensures exprCounts == map[] && available == map[] && tempVarCounter == 0 && statements == []
    {
      exprCounts, available, tempVarCounter, statements := map[], map[], 0, [];
    }

    method CountExpression(e: Expr)
      modifies this`exprCounts
      ensures exprCounts == CountExpr(e, old(exprCounts))
    {
      match e
      case Binary(_, a, b) =>
        exprCounts := Bump(exprCounts, Key(e));
        CountExpression(a);
        CountExpression(b);
      case Unary(_, a) =>
        CountExpression(a);
      case _ =>
    }

    method CountExpressions(es: seq<Expr>)
      modifies this`exprCounts
      ensures exprCounts == CountExprs(es, old(exprCounts))
    {
      hide CountExpr;
      for i := 0 to |es|
        invariant CountExprs(es[i..], exprCounts) == CountExprs(es, old(exprCounts))
      {
        CountExpression(es[i]);
        assert es[i..][1..] == es[i + 1..];
      }
    }

    method CountStatement(c: Stmt)
      modifies this`exprCounts
      ensures exprCounts == CountStmt(c, old(exprCounts))
      decreases c, 1
    {
      match c
      case Assign(_, es) => CountExpressions(es);
      case Let(_, es) => CountExpressions(es);
      case If(e, t) =>
        CountExpression(e);
        CountStatement(t);
      case Compound(cs) => CountStatements(cs);
      case _ =>
    }

    method CountStatements(cs: seq<Stmt>)
      modifies this`exprCounts
      ensures exprCounts == CountStmts(cs, old(exprCounts))
      decreases cs, 0
    {
      hide CountStmt;
      var i := 0;
      while i < |cs|
        invariant i <= |cs| && CountStmts(cs[i..], exprCounts) == CountStmts(cs, old(exprCounts))
      {
        assert cs[i] in cs;
        CountStatement(cs[i]);
        assert cs[i..][1..] == cs[i + 1..];
        i := i + 1;
      }
    }

    function State(): Progress
      reads this`statements, this`available, this`tempVarCounter
    {
      Progress(statements, available, tempVarCounter)
    }

    method GenerateTempVarName() returns (x: string)
      modifies this`tempVarCounter
      ensures x == TempName(old(tempVarCounter)) && tempVarCounter == old(tempVarCounter) + 1
    {
      x := TempName(tempVarCounter);
      tempVarCounter := tempVarCounter + 1;
    }

    method InvalidateExpressionsWithVar(x: string)
      modifies this`available
      ensures available == Invalidate(old(available), x)
    {
      hide Occurs;
      var rest := available.Keys;
      while rest != {}
        invariant rest <= available.Keys <= old(available).Keys
        invariant forall k :: k in old(available) ==>
                    (k in available <==> k in rest || !Occurs(VariableKey(x), k))
        invariant forall k :: k in available ==> available[k] == old(available)[k]
        decreases rest
      {
        var k :| k in rest;
        if Occurs(VariableKey(x), k) {
          available := available - {k};
        }
        rest := rest - {k};
      }
    }

    /** Replaces right-hand side `j` of the assignment behind the statements `p.out`. */
    method ReplaceExpression(at: nat, j: nat, ghost p: Progress, ghost rest: seq<Stmt>) returns (next: nat)
      requires at < |statements| && statements[at].Assign? && j < |statements[at].values|
      requires statements == p.out + [statements[at]] + rest && at == |p.out|
      requires available == p.available && tempVarCounter == p.temps
      modifies this`statements, this`available, this`tempVarCounter
      ensures var c := old(statements[at]);
              var h := HoistOne(exprCounts, c.values[j], p);
              var d := Assign(c.targets, c.values[j := Replaced(exprCounts, c.values[j], p)]);
              && statements == h.out + [d] + rest && next == |h.out|
              && available == h.available && tempVarCounter == h.temps
    {
      hide Key, TempName;
      next := at;
      var xs, values := statements[at].targets, statements[at].values;
      var e := values[j];
      if Key(e) in available {
        statements := statements[at := Assign(xs, values[j := Variable(available[Key(e)])])];
        assert statements == p.out + [Assign(xs, values[j := Variable(available[Key(e)])])] + rest;
      } else if Hoistable(e, exprCounts) {
        var x := GenerateTempVarName();
        available := available[Key(e) := x];
        statements := statements[at := Assign(xs, values[j := Variable(x)])];
        assert statements == p.out + [Assign(xs, values[j := Variable(x)])] + rest;
        statements := statements[..at] + [Let([x], [e])] + statements[at..];
        assert statements == p.out + [Let([x], [e])] + [Assign(xs, values[j := Variable(x)])] + rest;
        next := at + 1;
      } else {
        assert values[j := e] == values;
      }
    }

    /** Replaces all right-hand sides of the assignment behind the statements `p.out`. */
    method ReplaceExpressions(i: nat, ghost p: Progress, ghost rest: seq<Stmt>) returns (at: nat)
      requires i < |statements| && statements[i].Assign? && i == |p.out|
      requires statements == p.out + [statements[i]] + rest
      requires available == p.available && tempVarCounter == p.temps
      modifies this`statements, this`available, this`tempVarCounter
      ensures var c := old(statements[i]);
              var h := HoistAll(exprCounts, c.values, |c.values|, p);
              && statements == h.out + [Assign(c.targets, ReplaceAll(exprCounts, c.values, |c.values|, p))] + rest
              && available == h.available && tempVarCounter == h.temps && at == |h.out|
    {
      hide HoistOne, Replaced, HoistAll, ReplaceAll;
      var xs, es := statements[i].targets, statements[i].values;
      at := i;
      HoistNone(exprCounts, es, p);
      var j := 0;
      while j < |es|
        invariant j <= |es| && at < |statements|
        invariant var h := HoistAll(exprCounts, es, j, p);
                  && statements == h.out + [Assign(xs, ReplaceAll(exprCounts, es, j, p) + es[j..])] + rest
                  && available == h.available && tempVarCounter == h.temps && at == |h.out|
      {
        ghost var h, r := HoistAll(exprCounts, es, j, p), ReplaceAll(exprCounts, es, j, p);
        assert statements[at] == Assign(xs, r + es[j..]);
        at := ReplaceExpression(at, j, h, rest);
        ReplacedOne(r, es, j, Replaced(exprCounts, es[j], h));
        HoistNext(exprCounts, es, j, p);
        j := j + 1;
      }
      HoistEnd(exprCounts, es, p);
    }

    /** Rewrites the assignment at position `i`; `at` is where it has moved to. */
    method OptimizeAssignment(i: nat) returns (at: nat)
      requires i < |statements| && statements[i].Assign?
      modifies this`statements, this`available, this`tempVarCounter
      ensures var p := Advance(exprCounts, Progress(old(statements)[..i], old(available), old(tempVarCounter)), old(statements)[i]);
              && statements == p.out + old(statements)[i + 1..]
              && available == p.available && tempVarCounter == p.temps
              && at + 1 == |p.out|
    {
      hide HoistAll, ReplaceAll, InvalidateAll;
      ghost var p := Progress(statements[..i], available, tempVarCounter);
      var xs := statements[i].targets;
      at := ReplaceExpressions(i, p, statements[i + 1..]);
      InvalidateTargets(xs);
    }

    method InvalidateTargets(xs: seq<string>)
      modifies this`available
      ensures available == InvalidateAll(old(available), xs, |xs|)
    {
      hide Invalidate;
      for k := 0 to |xs|
        invariant available == InvalidateAll(old(available), xs, k)
      {
        InvalidateExpressionsWithVar(xs[k]);
      }
    }

    method OptimizeBasicBlock()
      modifies this`statements, this`available, this`tempVarCounter
      requires available == map[] && tempVarCounter == 0
      ensures statements == Through(exprCounts, old(statements), |old(statements)|).out
    {
      hide Advance, Through;
      ghost var cs, n := statements, 0;
      ThroughSteps(exprCounts, cs, 0);
      assert [] + cs[0..] == cs;
      var i := 0;
      while i < |statements|
        invariant n <= |cs| && statements == Through(exprCounts, cs, n).out + cs[n..]
        invariant var p := Through(exprCounts, cs, n);
                  available == p.available && tempVarCounter == p.temps && i == |p.out|
        decreases |cs| - n
      {
        ghost var p := Through(exprCounts, cs, n);
        assert statements[i] == cs[n] && statements[..i] == p.out && statements[i + 1..] == cs[n + 1..];
        assert p == Progress(p.out, p.available, p.temps);
        ThroughSteps(exprCounts, cs, n + 1);
        if statements[i].Assign? {
          i := OptimizeAssignment(i);
        } else {
          PassOver(exprCounts, p, cs[n]);
          assert p.out + [cs[n]] + cs[n + 1..] == p.out + cs[n..];
        }
        i := i + 1;
        n := n + 1;
      }
      assert cs[n..] == [];
    }

    /** Every block of a graph on its own: counts, tables and temporary names start afresh. */
    method Run(g: seq<Block>) returns (o: seq<Block>)
      modifies this
      ensures o == OptimizeGraph(g)
    {
      hide Through, CountStmts;
      o := g;
      for b := 0 to |g|
        invariant |o| == |g|
        invariant forall k :: 0 <= k < |g| ==>
                    o[k] == if k < b then g[k].(stmts := OptimizeStatements(g[k].stmts)) else g[k]
      {
        exprCounts := map[];
        CountStatements(o[b].stmts);
        available, tempVarCounter, statements := map[], 0, o[b].stmts;
        OptimizeBasicBlock();
        o := o[b := o[b].(stmts := statements)];
      }
    }
  }

  lemma ReplacedOne(r: seq<Expr>, es: seq<Expr>, j: nat, e: Expr)
    requires j < |es| && |r| == j
    ensures (r + es[j..])[j] == es[j] && (r + es[j..])[j := e] == r + [e] + es[j + 1..]
  {
  }

  lemma HoistNone(counts: Counts, es: seq<Expr>, p: Progress)
    ensures HoistAll(counts, es, 0, p) == p && ReplaceAll(counts, es, 0, p) + es[0..] == es
  {
  }

  lemma HoistNext(counts: Counts, es: seq<Expr>, j: nat, p: Progress)
    requires j < |es|
    ensures var h, r := HoistAll(counts, es, j, p), ReplaceAll(counts, es, j, p);
            && HoistAll(counts, es, j + 1, p) == HoistOne(counts, es[j], h)
            && ReplaceAll(counts, es, j + 1, p) == r + [Replaced(counts, es[j], h)]
  {
    hide HoistOne, Replaced;
  }

  lemma HoistEnd(counts: Counts, es: seq<Expr>, p: Progress)
    ensures ReplaceAll(counts, es, |es|, p) + es[|es|..] == ReplaceAll(counts, es, |es|, p)
  {
    hide ReplaceAll;
  }

  lemma ThroughSteps(counts: Counts, cs: seq<Stmt>, n: nat)
    requires n <= |cs|
    ensures Through(counts, cs, n) ==
            if n == 0 then Progress([], map[], 0) else Advance(counts, Through(counts, cs, n - 1), cs[n - 1])
  {
  }

  lemma PassOver(counts: Counts, p: Progress, c: Stmt)
    requires !c.Assign?
    ensures Advance(counts, p, c) == p.(out := p.out + [c])
  {
  }
}
