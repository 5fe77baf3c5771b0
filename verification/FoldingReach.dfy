/** Nothing that could be folded is left in what constant folding gives back. */
module FoldingReach {
  import opened Wrappers
  import opened Ast
  import opened ConstantFolding

  predicate IsNumber(e: Expr) {
    e.Number? || e.Boolean?
  }

  predicate IsZero(e: Expr) {
    e == Number(0) || e == Boolean(false)
  }

  predicate IsOne(e: Expr) {
    e == Number(1)
  }

  /** No operation on constants but those left to the machine, no neutral operand, no decided conditional, and no variable
    * that is a manifest.
    */
  predicate Reduced(e: Expr, manifests: Constants) {
    match e
    case Number(_) => true
    case Boolean(_) => true
    case Variable(x) => x !in manifests
    case Unary(op, a) => Reduced(a, manifests) && !(IsNumber(a) && (op == Negate || op == LogicalNot))
    case Binary(op, a, b) =>
      && Reduced(a, manifests) && Reduced(b, manifests)
      && !(IsNumber(a) && IsNumber(b) && op != BitwiseAnd && !(IsZero(b) && (op == Divide || op == Remainder)))
      && !(op == Add && (IsZero(a) || IsZero(b))) && !(op == Subtract && IsZero(b))
      && !(op == Multiply && (IsZero(a) || IsZero(b) || IsOne(a) || IsOne(b))) && !(op == Divide && IsOne(b))
    case Conditional(c, t, f) => Reduced(c, manifests) && Reduced(t, manifests) && Reduced(f, manifests) && !IsNumber(c)
  }

  predicate ReducedAll(es: seq<Expr>, manifests: Constants) {
    forall e :: e in es ==> Reduced(e, manifests)
  }

  /** Every expression of the statement is reduced, and no IF has a constant condition. */
  predicate ReducedStmt(c: Stmt, manifests: Constants)
    decreases c, 1
  {
    match c
    case Assign(_, es) => ReducedAll(es, manifests)
    case Let(_, es) => ReducedAll(es, manifests)
    case If(e, t) => Reduced(e, manifests) && !IsNumber(e) && ReducedStmt(t, manifests)
    case For(_, start, end, step, body) =>
      && Reduced(start, manifests) && Reduced(end, manifests) && (step.Some? ==> Reduced(step.value, manifests))
      && ReducedStmt(body, manifests)
    case Switchon(e, cases, d) =>
      Reduced(e, manifests) && ReducedCases(cases, manifests) && (d.Some? ==> ReducedStmt(d.value, manifests))
    case Compound(cs) => ReducedStmts(cs, manifests)
    case _ => true
  }

  predicate ReducedStmts(cs: seq<Stmt>, manifests: Constants)
    decreases cs, 0
  {
    cs == [] || (ReducedStmt(cs[0], manifests) && ReducedStmts(cs[1..], manifests))
  }

  predicate ReducedCases(cases: seq<Case>, manifests: Constants)
    decreases cases, 0
  {
    cases == [] ||
    (assert cases[0] in cases && cases[0].command < cases[0];
     ReducedStmt(cases[0].command, manifests) && ReducedCases(cases[1..], manifests))
  }

  // ----- expressions -----

  lemma ConstantKinds(e: Expr)
    ensures IntegerConstant(e).Some? <==> IsNumber(e)
    ensures IsConstant(e, 0) <==> IsZero(e)
    ensures IsConstant(e, 1) <==> IsOne(e)
    ensures IntegerConstant(e).Some? ==> (IntegerConstant(e).value == 0 <==> IsZero(e))
  {
  }

  lemma BinaryIsReduced(op: BinaryOperator, a: Expr, b: Expr, manifests: Constants)
    requires Reduced(a, manifests) && Reduced(b, manifests)
    ensures Reduced(FoldBinary(op, a, b), manifests)
  {
    hide Apply, IntegerConstant, IsConstant, IsNumber, IsZero, IsOne;
    ConstantKinds(a);
    ConstantKinds(b);
  }

  lemma UnaryIsReduced(op: UnaryOperator, a: Expr, manifests: Constants)
    requires Reduced(a, manifests)
    ensures Reduced(FoldUnary(op, a), manifests)
  {
    hide ApplyUnary, IntegerConstant, IsNumber, IsZero;
    ConstantKinds(a);
  }

  /** A folded expression has nothing in it to fold. */
  lemma {:induction false} FoldedExprIsReduced(e: Expr, known: Constants, manifests: Constants)
    ensures Reduced(FoldExpr(e, known, manifests), manifests)
  {
    hide FoldBinary, FoldUnary, IsZero, IsOne;
    match e
    case Unary(op, a) =>
      FoldedExprIsReduced(a, known, manifests);
      UnaryIsReduced(op, FoldExpr(a, known, manifests), manifests);
    case Binary(op, a, b) =>
      FoldedExprIsReduced(a, known, manifests);
      FoldedExprIsReduced(b, known, manifests);
      BinaryIsReduced(op, FoldExpr(a, known, manifests), FoldExpr(b, known, manifests), manifests);
    case Conditional(c, t, f) =>
      FoldedExprIsReduced(c, known, manifests);
      FoldedExprIsReduced(t, known, manifests);
      FoldedExprIsReduced(f, known, manifests);
    case _ =>
  }

  lemma {:induction false} FoldedExprsAreReduced(es: seq<Expr>, known: Constants, manifests: Constants)
    ensures ReducedAll(FoldExprs(es, known, manifests), manifests)
  {
    hide FoldExpr, Reduced;
    if es != [] {
      FoldedExprIsReduced(es[0], known, manifests);
      FoldedExprsAreReduced(es[1..], known, manifests);
    }
  }

  // ----- statements -----

  /** Whatever is known where folding begins: nothing in the folded statement could be folded. */
  lemma {:induction false} FoldedIsReduced(c: Stmt, known: Constants, manifests: Constants)
    ensures ReducedStmt(Fold(c, known, manifests).stmt, manifests)
    decreases c, 1
  {
    hide FoldExpr, Reduced, ReducedAll, FoldExprs, Track;
    match c
    case Assign(xs, es) => FoldedExprsAreReduced(es, known, manifests);
    case Let(xs, es) => FoldedExprsAreReduced(es, known, manifests);
    case If(e, t) =>
      FoldedExprIsReduced(e, known, manifests);
      FoldedIsReduced(t, known, manifests);
    case For(x, start, end, step, body) =>
      FoldedExprIsReduced(start, known, manifests);
      FoldedExprIsReduced(end, known, manifests);
      if step.Some? {
        FoldedExprIsReduced(step.value, known, manifests);
      }
      FoldedIsReduced(body, known, manifests);
    case Switchon(e, cases, d) =>
      FoldedExprIsReduced(e, known, manifests);
      FoldedCasesAreReduced(cases, known, manifests);
      if d.Some? {
        FoldedIsReduced(d.value, FoldCases(cases, known, manifests).known, manifests);
      }
    case Compound(cs) => FoldedAllAreReduced(cs, known, manifests);
    case _ =>
  }

  lemma {:induction false} FoldedAllAreReduced(cs: seq<Stmt>, known: Constants, manifests: Constants)
    ensures ReducedStmts(FoldAll(cs, known, manifests).stmts, manifests)
    decreases cs, 0
  {
    hide Fold, ReducedStmt;
    if cs != [] {
      FoldedIsReduced(cs[0], known, manifests);
      FoldedAllAreReduced(cs[1..], Fold(cs[0], known, manifests).known, manifests);
    }
  }

  lemma {:induction false} FoldedCasesAreReduced(cases: seq<Case>, known: Constants, manifests: Constants)
    ensures ReducedCases(FoldCases(cases, known, manifests).cases, manifests)
    decreases cases, 0
  {
    hide Fold, ReducedStmt;
    if cases != [] {
      assert cases[0] in cases && cases[0].command < cases[0];
      FoldedIsReduced(cases[0].command, known, manifests);
      FoldedCasesAreReduced(cases[1..], Fold(cases[0].command, known, manifests).known, manifests);
    }
  }
}
