/** The constant-folding pass as it works, visiting the tree with its map of known constants. */
module FoldingPass {
  import opened Wrappers
  import opened Ast
  import opened ConstantFolding

  class ConstantFoldingPass {
    const manifests: Constants
    var knownConstants: Constants

    constructor (manifests: Constants)
      ensures this.manifests == manifests && knownConstants == map[]
    {
      this.manifests := manifests;
      knownConstants := map[];
    }

    /** The node that takes the place of an expression. */
    method VisitExpr(e: Expr) returns (r: Expr)
      ensures r == FoldExpr(e, knownConstants, manifests)
    {
      match e
      case Variable(x) =>
        if x in knownConstants {
          r := Number(knownConstants[x]);
        } else if x in manifests {
          r := Number(manifests[x]);
        } else {
          r := e;
        }
      case Unary(op, a) =>
        var d := VisitExpr(a);
        r := FoldUnary(op, d);
      case Binary(op, a, b) =>
        var c := VisitExpr(a);
        var d := VisitExpr(b);
        r := FoldBinary(op, c, d);
      case Conditional(c, t, f) =>
        var d := VisitExpr(c);
        var v := IntegerConstant(d);
        if v.None? {
          var a := VisitExpr(t);
          var b := VisitExpr(f);
          r := Conditional(d, a, b);
        } else if v.value != 0 {
          r := VisitExpr(t);
        } else {
          r := VisitExpr(f);
        }
      case _ =>
        r := e;
    }

    method VisitExprs(es: seq<Expr>) returns (r: seq<Expr>)
      ensures r == FoldExprs(es, knownConstants, manifests)
    {
      hide FoldExpr;
      r := [];
      var i := 0;
      while i < |es|
        invariant i <= |es|
        invariant r + FoldExprs(es[i..], knownConstants, manifests) == FoldExprs(es, knownConstants, manifests)
      {
        var d := VisitExpr(es[i]);
        assert es[i..][1..] == es[i + 1..];
        assert r + ([d] + FoldExprs(es[i + 1..], knownConstants, manifests)) == r + [d] + FoldExprs(es[i + 1..], knownConstants, manifests);
        r := r + [d];
        i := i + 1;
      }
    }

    method VisitAssignment(xs: seq<string>, es: seq<Expr>) returns (r: Stmt)
      modifies this`knownConstants
      ensures Folded(r, knownConstants) == Fold(Assign(xs, es), old(knownConstants), manifests)
    {
      hide FoldExprs;
      var fs := VisitExprs(es);
      if |xs| == 1 && |es| == 1 {
        if fs[0].Number? {
          knownConstants := knownConstants[xs[0] := fs[0].value];
        } else {
          knownConstants := knownConstants - {xs[0]};
        }
      }
      r := Assign(xs, fs);
    }

    method VisitIf(e: Expr, t: Stmt) returns (r: Stmt)
      modifies this`knownConstants
      ensures Folded(r, knownConstants) == Fold(If(e, t), old(knownConstants), manifests)
      decreases t, 2
    {
      hide FoldExpr;
      var d := VisitExpr(e);
      var v := IntegerConstant(d);
      if v.Some? && v.value == 0 {
        return Compound([]);
      }
      var f := VisitStmt(t);
      r := if v.Some? then f else If(d, f);
    }

    /** The node that takes the place of a statement. */
    method VisitStmt(c: Stmt) returns (r: Stmt)
      modifies this`knownConstants
      ensures Folded(r, knownConstants) == Fold(c, old(knownConstants), manifests)
      decreases c, 1
    {
      hide FoldExpr, FoldExprs, Track;
      match c
      case Assign(xs, es) =>
        r := VisitAssignment(xs, es);
      case Let(xs, es) =>
        var fs := VisitExprs(es);
        r := Let(xs, fs);
      case If(e, t) =>
        r := VisitIf(e, t);
      case For(x, start, end, step, body) =>
        var a := VisitExpr(start);
        var b := VisitExpr(end);
        var s: Option<Expr> := None;
        if step.Some? {
          var d := VisitExpr(step.value);
          s := Some(d);
        }
        var f := VisitStmt(body);
        r := For(x, a, b, s, f);
      case Switchon(e, cases, d) =>
        r := VisitSwitch(c);
      case Compound(cs) =>
        var fs := VisitStmts(cs);
        r := Compound(fs);
      case _ =>
        r := c;
    }

    method VisitSwitch(c: Stmt) returns (r: Stmt)
      requires c.Switchon?
      modifies this`knownConstants
      ensures Folded(r, knownConstants) == Fold(c, old(knownConstants), manifests)
      decreases c, 0
    {
      hide FoldExpr, FoldCases;
      var a := VisitExpr(c.selector);
      var fs := VisitCases(c.cases);
      if c.defaultCase.None? {
        return Switchon(a, fs, None);
      }
      var d := VisitStmt(c.defaultCase.value);
      r := Switchon(a, fs, Some(d));
    }

    method VisitStmts(cs: seq<Stmt>) returns (r: seq<Stmt>)
      modifies this`knownConstants
      ensures FoldedAll(r, knownConstants) == FoldAll(cs, old(knownConstants), manifests)
      decreases cs, 0
    {
      hide Fold, FoldAll;
      r := [];
      var i := 0;
      assert cs[0..] == cs;
      ghost var all := FoldAll(cs, knownConstants, manifests);
      while i < |cs|
        invariant i <= |cs|
        invariant var rest := FoldAll(cs[i..], knownConstants, manifests); all.known == rest.known && all.stmts == r + rest.stmts
      {
        FoldAllStep(cs, i, knownConstants, manifests, r);
        assert cs[i] in cs;
        var f := VisitStmt(cs[i]);
        r := r + [f];
        i := i + 1;
      }
      FoldNothing(cs, [], knownConstants, manifests, r, []);
    }

    method VisitCases(cases: seq<Case>) returns (r: seq<Case>)
      modifies this`knownConstants
      ensures FoldedCases(r, knownConstants) == FoldCases(cases, old(knownConstants), manifests)
      decreases cases, 0
    {
      hide Fold, FoldCases;
      r := [];
      var i := 0;
      assert cases[0..] == cases;
      ghost var all := FoldCases(cases, knownConstants, manifests);
      while i < |cases|
        invariant i <= |cases|
        invariant var rest := FoldCases(cases[i..], knownConstants, manifests); all.known == rest.known && all.cases == r + rest.cases
      {
        FoldCasesStep(cases, i, knownConstants, manifests, r);
        assert cases[i] in cases && cases[i].command < cases[i];
        var f := VisitStmt(cases[i].command);
        r := r + [Case(cases[i].constant, f)];
        i := i + 1;
      }
      FoldNothing([], cases, knownConstants, manifests, [], r);
    }
  }

  lemma FoldAllStep(cs: seq<Stmt>, i: nat, known: Constants, manifests: Constants, r: seq<Stmt>)
    requires i < |cs|
    ensures var f := Fold(cs[i], known, manifests);
            var all, rest := FoldAll(cs[i..], known, manifests), FoldAll(cs[i + 1..], f.known, manifests);
            all.known == rest.known && r + all.stmts == r + [f.stmt] + rest.stmts
  {
    hide Fold;
    assert cs[i..][1..] == cs[i + 1..];
  }

  lemma FoldCasesStep(cases: seq<Case>, i: nat, known: Constants, manifests: Constants, r: seq<Case>)
    requires i < |cases|
    ensures var f := Fold(cases[i].command, known, manifests);
            var all, rest := FoldCases(cases[i..], known, manifests), FoldCases(cases[i + 1..], f.known, manifests);
            all.known == rest.known && r + all.cases == r + [Case(cases[i].constant, f.stmt)] + rest.cases
  {
    hide Fold;
    assert cases[i..][1..] == cases[i + 1..];
  }

  lemma FoldNothing(cs: seq<Stmt>, cases: seq<Case>, known: Constants, manifests: Constants, r: seq<Stmt>, q: seq<Case>)
    ensures var f := FoldAll(cs[|cs|..], known, manifests); f.known == known && r + f.stmts == r
    ensures var g := FoldCases(cases[|cases|..], known, manifests); g.known == known && q + g.cases == q
  {
  }
}
