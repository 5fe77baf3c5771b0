/** Constant folding and propagation on the tree: what it does, and when it keeps the meaning of a program. */
module ConstantFolding {
  import opened Wrappers
  import opened Ast
  import opened StructuredSemantics

  type Constants = map<string, Word>

  // ----- expressions -----

  function IntegerConstant(e: Expr): Option<Word> {
    match e
    case Number(n) => Some(n)
    case Boolean(b) => Some(Truth(b))
    case _ => None
  }

  /** Operators that are evaluated when both operands are constants. */
  predicate Folds(op: BinaryOperator, b: Word) {
    match op
    case Divide => b != 0
    case Remainder => b != 0
    case BitwiseAnd => false
    case _ => true
  }

  predicate IsConstant(e: Expr, n: Word) {
    IntegerConstant(e) == Some(n)
  }

  /** Neutral and absorbing operands. */
  function Simplify(op: BinaryOperator, l: Expr, r: Expr): Expr {
    if op.Add? && IsConstant(l, 0) then r
    else if op.Add? && IsConstant(r, 0) then l
    else if op.Subtract? && IsConstant(r, 0) then l
    else if op.Multiply? && IsConstant(l, 1) then r
    else if op.Multiply? && IsConstant(r, 1) then l
    else if op.Multiply? && (IsConstant(l, 0) || IsConstant(r, 0)) then Number(0)
    else if op.Divide? && IsConstant(r, 1) then l
    else Binary(op, l, r)
  }

  function FoldBinary(op: BinaryOperator, l: Expr, r: Expr): Expr {
    var a, b := IntegerConstant(l), IntegerConstant(r);
    if a.Some? && b.Some? && Folds(op, b.value) then Number(Apply(op, a.value, b.value)) else Simplify(op, l, r)
  }

  function FoldUnary(op: UnaryOperator, e: Expr): Expr {
    var a := IntegerConstant(e);
    if a.Some? && (op.Negate? || op.LogicalNot?) then Number(ApplyUnary(op, a.value)) else Unary(op, e)
  }

  /** Known local constants come before manifest constants. */
  function FoldVariable(x: string, known: Constants, manifests: Constants): Expr {
    if x in known then Number(known[x]) else if x in manifests then Number(manifests[x]) else Variable(x)
  }

  function FoldExpr(e: Expr, known: Constants, manifests: Constants): Expr {
    match e
    case Variable(x) => FoldVariable(x, known, manifests)
    case Unary(op, a) => FoldUnary(op, FoldExpr(a, known, manifests))
    case Binary(op, a, b) => FoldBinary(op, FoldExpr(a, known, manifests), FoldExpr(b, known, manifests))
    case Conditional(c, t, f) =>
      var d := FoldExpr(c, known, manifests);
      var v := IntegerConstant(d);
      if v.None? then Conditional(d, FoldExpr(t, known, manifests), FoldExpr(f, known, manifests))
      else if v.value != 0 then FoldExpr(t, known, manifests)
      else FoldExpr(f, known, manifests)
    case _ => e
  }

  function FoldExprs(es: seq<Expr>, known: Constants, manifests: Constants): (r: seq<Expr>)
    ensures |r| == |es|
  {
    if es == [] then [] else [FoldExpr(es[0], known, manifests)] + FoldExprs(es[1..], known, manifests)
  }

  // ----- statements -----

  datatype Folded = Folded(stmt: Stmt, known: Constants)

  datatype FoldedAll = FoldedAll(stmts: seq<Stmt>, known: Constants)

  datatype FoldedCases = FoldedCases(cases: seq<Case>, known: Constants)

  /** Only the assignment of one value to one variable is tracked. */
  function Track(xs: seq<string>, es: seq<Expr>, known: Constants): Constants {
    if |xs| != 1 || |es| != 1 then known
    else match es[0] {
      case Number(n) => known[xs[0] := n]
      case _ => known - {xs[0]}
    }
  }

  function FoldOption(e: Option<Expr>, known: Constants, manifests: Constants): Option<Expr> {
    if e.Some? then Some(FoldExpr(e.value, known, manifests)) else None
  }

  function Fold(c: Stmt, known: Constants, manifests: Constants): Folded
    decreases c, 1
  {
    match c
    case Assign(xs, es) =>
      var fs := FoldExprs(es, known, manifests);
      Folded(Assign(xs, fs), Track(xs, fs, known))
    case Let(xs, es) => Folded(Let(xs, FoldExprs(es, known, manifests)), known)
    case If(e, t) =>
      var d := FoldExpr(e, known, manifests);
      var v := IntegerConstant(d);
      if v.Some? && v.value == 0 then Folded(Compound([]), known)
      else
        var f := Fold(t, known, manifests);
        if v.Some? then f else Folded(If(d, f.stmt), f.known)
    case For(x, start, end, step, body) =>
      var f := Fold(body, known, manifests);
      Folded(For(x, FoldExpr(start, known, manifests), FoldExpr(end, known, manifests),
                 FoldOption(step, known, manifests), f.stmt), f.known)
    case Switchon(e, cases, d) =>
      var f := FoldCases(cases, known, manifests);
      if d.None? then Folded(Switchon(FoldExpr(e, known, manifests), f.cases, None), f.known)
      else
        var g := Fold(d.value, f.known, manifests);
        Folded(Switchon(FoldExpr(e, known, manifests), f.cases, Some(g.stmt)), g.known)
    case Compound(cs) =>
      var f := FoldAll(cs, known, manifests);
      Folded(Compound(f.stmts), f.known)
    case _ => Folded(c, known)
  }

  function FoldAll(cs: seq<Stmt>, known: Constants, manifests: Constants): FoldedAll
    decreases cs, 0
  {
    if cs == [] then FoldedAll([], known)
    else
      var f := Fold(cs[0], known, manifests);
      var g := FoldAll(cs[1..], f.known, manifests);
      FoldedAll([f.stmt] + g.stmts, g.known)
  }

  /** The cases are folded one after another, each with what the one before has left in the map. */
  function FoldCases(cases: seq<Case>, known: Constants, manifests: Constants): FoldedCases
    decreases cases, 0
  {
    if cases == [] then FoldedCases([], known)
    else
      assert cases[0] in cases && cases[0].command < cases[0];
      var f := Fold(cases[0].command, known, manifests);
      var g := FoldCases(cases[1..], f.known, manifests);
      FoldedCases([Case(cases[0].constant, f.stmt)] + g.cases, g.known)
  }

  // ----- values -----

  ghost predicate Agrees(s: Store, m: Constants) {
    forall x :: x in m ==> Lookup(s, x) == m[x]
  }

  lemma ConstantValue(e: Expr, s: Store)
    ensures IntegerConstant(e).Some? ==> Eval(e, s) == IntegerConstant(e).value
  {
  }

  lemma NeutralSums(v: Word)
    ensures Apply(Add, 0, v) == v && Apply(Add, v, 0) == v && Apply(Subtract, v, 0) == v
  {
  }

  lemma NeutralFactors(v: Word)
    ensures Apply(Multiply, 1, v) == v && Apply(Multiply, v, 1) == v && Apply(Divide, v, 1) == v
    ensures Apply(Multiply, 0, v) == 0 && Apply(Multiply, v, 0) == 0
  {
    hide Bitwise, Pow2;
    assert Quotient(v, 1) == v;
  }

  lemma ConstantValues(e: Expr, s: Store)
    ensures IsConstant(e, 0) ==> Eval(e, s) == 0
    ensures IsConstant(e, 1) ==> Eval(e, s) == 1
  {
    ConstantValue(e, s);
  }

  lemma BinaryValue(op: BinaryOperator, l: Expr, r: Expr, s: Store)
    ensures Eval(Binary(op, l, r), s) == Apply(op, Eval(l, s), Eval(r, s))
    ensures Eval(Number(0), s) == 0
  {
    hide Apply;
  }

  lemma SimplifyForm(op: BinaryOperator, l: Expr, r: Expr)
    ensures var e := Simplify(op, l, r);
            || e == Binary(op, l, r)
            || (e == r && ((op == Add && IsConstant(l, 0)) || (op == Multiply && IsConstant(l, 1))))
            || (e == l && (op == Add || op == Subtract) && IsConstant(r, 0))
            || (e == l && (op == Multiply || op == Divide) && IsConstant(r, 1))
            || (e == Number(0) && op == Multiply && (IsConstant(l, 0) || IsConstant(r, 0)))
  {
    hide IsConstant;
  }

  lemma SimplifyKeepsValue(op: BinaryOperator, l: Expr, r: Expr, s: Store)
    ensures Eval(Simplify(op, l, r), s) == Apply(op, Eval(l, s), Eval(r, s))
  {
    hide Apply, IntegerConstant, IsConstant, Eval, Simplify;
    SimplifyForm(op, l, r);
    ConstantValues(l, s);
    ConstantValues(r, s);
    NeutralSums(Eval(l, s));
    NeutralSums(Eval(r, s));
    NeutralFactors(Eval(l, s));
    NeutralFactors(Eval(r, s));
    BinaryValue(op, l, r, s);
  }

  lemma FoldBinaryKeepsValue(op: BinaryOperator, l: Expr, r: Expr, s: Store)
    ensures Eval(FoldBinary(op, l, r), s) == Apply(op, Eval(l, s), Eval(r, s))
  {
    hide Apply, IntegerConstant, Simplify;
    ConstantValue(l, s);
    ConstantValue(r, s);
    SimplifyKeepsValue(op, l, r, s);
  }

  /** In a store that agrees with the known constants and the manifests, a folded expression has the value of the
    * original.
    */
  lemma {:induction false} FoldExprKeepsValue(e: Expr, known: Constants, manifests: Constants, s: Store)
    requires Agrees(s, known) && Agrees(s, manifests)
    ensures Eval(FoldExpr(e, known, manifests), s) == Eval(e, s)
  {
    hide Apply, ApplyUnary;
    match e
    case Unary(op, a) =>
      FoldExprKeepsValue(a, known, manifests, s);
      ConstantValue(FoldExpr(a, known, manifests), s);
    case Binary(op, a, b) =>
      FoldExprKeepsValue(a, known, manifests, s);
      FoldExprKeepsValue(b, known, manifests, s);
      FoldBinaryKeepsValue(op, FoldExpr(a, known, manifests), FoldExpr(b, known, manifests), s);
      hide FoldBinary;
    case Conditional(c, t, f) =>
      FoldExprKeepsValue(c, known, manifests, s);
      FoldExprKeepsValue(t, known, manifests, s);
      FoldExprKeepsValue(f, known, manifests, s);
      ConstantValue(FoldExpr(c, known, manifests), s);
    case _ =>
  }

  lemma {:induction false} FoldExprsKeepValues(es: seq<Expr>, known: Constants, manifests: Constants, s: Store)
    requires Agrees(s, known) && Agrees(s, manifests)
    ensures EvalAll(FoldExprs(es, known, manifests), s) == EvalAll(es, s)
  {
    hide Eval, FoldExpr;
    if es != [] {
      FoldExprKeepsValue(es[0], known, manifests, s);
      FoldExprsKeepValues(es[1..], known, manifests, s);
      assert FoldExprs(es, known, manifests)[1..] == FoldExprs(es[1..], known, manifests);
    }
  }

  // ----- when the map stays right -----

  /** All variables a statement may assign. */
  function Assigned(c: Stmt): set<string>
    decreases c, 1
  {
    match c
    case Assign(xs, _) => set x | x in xs
    case Let(xs, _) => set x | x in xs
    case If(_, t) => Assigned(t)
    case For(x, _, _, _, body) => {x} + Assigned(body)
    case Switchon(_, cases, d) => AssignedInCases(cases) + if d.Some? then Assigned(d.value) else {}
    case Compound(cs) => AssignedInAll(cs)
    case _ => {}
  }

  function AssignedInAll(cs: seq<Stmt>): set<string>
    decreases cs, 0
  {
    if cs == [] then {} else Assigned(cs[0]) + AssignedInAll(cs[1..])
  }

  function AssignedInCases(cases: seq<Case>): set<string>
    decreases cases, 0
  {
    if cases == [] then {}
    else
      assert cases[0] in cases && cases[0].command < cases[0];
      Assigned(cases[0].command) + AssignedInCases(cases[1..])
  }

  /** The statement assigns no variable of the map and leaves the map as it is. */
  predicate Stable(c: Stmt, known: Constants, manifests: Constants) {
    Assigned(c) !! known.Keys && Fold(c, known, manifests).known == known
  }

  /** Where control can branch, come back, or assign several variables, known variables are left alone; a single
    * assignment in straight-line code, or in the taken branch of a constant condition, may be anything.
    */
  predicate Tracked(c: Stmt, known: Constants, manifests: Constants)
    decreases c, 1
  {
    match c
    case Assign(xs, es) => (|xs| == 1 && |es| == 1) || Assigned(c) !! known.Keys
    case Let(_, _) => Assigned(c) !! known.Keys
    case If(e, t) =>
      var v := IntegerConstant(FoldExpr(e, known, manifests));
      if v.Some? then v.value != 0 ==> Tracked(t, known, manifests)
      else Stable(t, known, manifests) && Tracked(t, known, manifests)
    case For(x, _, _, _, body) => Stable(body, known, manifests) && x !in known && Tracked(body, known, manifests)
    case Switchon(_, cases, d) =>
      TrackedCases(cases, known, manifests)
      && (d.Some? ==> Stable(d.value, known, manifests) && Tracked(d.value, known, manifests))
    case Compound(cs) => TrackedAll(cs, known, manifests)
    case _ => true
  }

  predicate TrackedAll(cs: seq<Stmt>, known: Constants, manifests: Constants)
    decreases cs, 0
  {
    cs == [] || (Tracked(cs[0], known, manifests) && TrackedAll(cs[1..], Fold(cs[0], known, manifests).known, manifests))
  }

  predicate TrackedCases(cases: seq<Case>, known: Constants, manifests: Constants)
    decreases cases, 0
  {
    cases == []
    || (assert cases[0] in cases && cases[0].command < cases[0];
        && Stable(cases[0].command, known, manifests) && Tracked(cases[0].command, known, manifests)
        && TrackedCases(cases[1..], known, manifests))
  }

  // ----- what a statement leaves alone -----

  /** The outcome carries a store. */
  predicate HasStore(o: Outcome) {
    !o.Timeout?
  }

  ghost predicate Leaves(s: Store, o: Outcome, changed: set<string>) {
    HasStore(o) ==> forall x :: x !in changed ==> Lookup(o.store, x) == Lookup(s, x)
  }

  lemma {:induction false} DeclareKeepsOthers(s: Store, xs: seq<string>, es: seq<Expr>, x: string)
    requires x !in xs
    ensures Lookup(Declare(s, xs, es), x) == Lookup(s, x)
    decreases |xs|
  {
    if xs != [] && es != [] {
      DeclareKeepsOthers(s[xs[0] := Eval(es[0], s)], xs[1..], es[1..], x);
    }
  }

  lemma {:induction false} CaseAssigns(cases: seq<Case>, k: nat)
    requires k < |cases|
    ensures Assigned(cases[k].command) <= AssignedInCases(cases)
    decreases cases
  {
    if k > 0 {
      CaseAssigns(cases[1..], k - 1);
    }
  }

  /** Variables a statement does not assign keep their values, however it ends. */
  lemma {:induction false} ExecLeaves(c: Stmt, s: Store, fuel: nat)
    ensures Leaves(s, Exec(c, s, fuel), Assigned(c))
    decreases fuel, c, 1
  {
    hide Eval;
    match c
    case Assign(xs, es) =>
      forall x | x !in Assigned(c)
        ensures Lookup(StoreAll(s, xs, EvalAll(es, s)), x) == Lookup(s, x)
      {
        StoreKeeps(s, xs, EvalAll(es, s), x);
      }
    case Let(xs, es) =>
      forall x | x !in Assigned(c)
        ensures Lookup(Declare(s, xs, es), x) == Lookup(s, x)
      {
        DeclareKeepsOthers(s, xs, es, x);
      }
    case If(_, t) => ExecLeaves(t, s, fuel);
    case For(x, start, _, _, _) => IterateLeaves(c, s[x := Eval(start, s)], fuel);
    case Switchon(e, cases, d) =>
      var k := FirstCase(cases, Eval(e, s));
      if k < |cases| {
        assert cases[k] in cases && cases[k].command < cases[k];
        ExecLeaves(cases[k].command, s, fuel);
        CaseAssigns(cases, k);
      } else if d.Some? {
        ExecLeaves(d.value, s, fuel);
      }
      hide Exec;
    case Compound(cs) => ExecAllLeaves(cs, s, fuel);
    case _ =>
  }

  lemma {:induction false} ExecAllLeaves(cs: seq<Stmt>, s: Store, fuel: nat)
    ensures Leaves(s, ExecAll(cs, s, fuel), AssignedInAll(cs))
    decreases fuel, cs, 0
  {
    hide Exec;
    if cs != [] {
      ExecLeaves(cs[0], s, fuel);
      var o := Exec(cs[0], s, fuel);
      if o.Normal? {
        ExecAllLeaves(cs[1..], o.store, fuel);
      }
    }
  }

  lemma {:induction false} IterateLeaves(c: Stmt, s: Store, fuel: nat)
    requires c.For?
    ensures Leaves(s, Iterate(c, s, fuel), Assigned(c))
    decreases fuel, c, 0
  {
    hide Eval, Exec;
    if fuel > 0 && Lookup(s, c.variable) <= Eval(c.end, s) {
      ExecLeaves(c.body, s, fuel - 1);
      var o := Exec(c.body, s, fuel - 1);
      if o.Normal? || o.Looped? {
        IterateLeaves(c, NextTurn(c, o.store), fuel - 1);
      }
    }
  }

  // ----- the folded program -----

  lemma AgreesWithout(s: Store, o: Outcome, changed: set<string>, m: Constants)
    requires Agrees(s, m) && Leaves(s, o, changed) && changed !! m.Keys && HasStore(o)
    ensures Agrees(o.store, m)
  {
  }

  /** A folded statement ends as the original does, and the map agrees with the store it ends in. */
  ghost predicate Kept(c: Stmt, f: Folded, s: Store, fuel: nat) {
    && Exec(f.stmt, s, fuel) == Exec(c, s, fuel)
    && (Exec(c, s, fuel).Normal? ==> Agrees(Exec(c, s, fuel).store, f.known))
  }

  lemma {:induction false} FoldKeepsMeaning(c: Stmt, known: Constants, manifests: Constants, s: Store, fuel: nat)
    requires Tracked(c, known, manifests) && Assigned(c) !! manifests.Keys
    requires Agrees(s, known) && Agrees(s, manifests)
    ensures Kept(c, Fold(c, known, manifests), s, fuel)
    decreases fuel, c, 2
  {
    ExecLeaves(c, s, fuel);
    hide Eval, FoldExpr, FoldExprs, Agrees, Leaves;
    match c
    case Assign(xs, es) => AssignKept(xs, es, known, manifests, s, fuel);
    case Let(xs, es) => LetKept(xs, es, known, manifests, s, fuel);
    case If(e, t) => IfKept(c, known, manifests, s, fuel);
    case For(_, _, _, _, _) => ForKept(c, known, manifests, s, fuel);
    case Switchon(_, _, _) => SwitchKept(c, known, manifests, s, fuel);
    case Compound(cs) => AllKept(cs, known, manifests, s, fuel);
    case _ =>
  }

  lemma AssignKept(xs: seq<string>, es: seq<Expr>, known: Constants, manifests: Constants, s: Store, fuel: nat)
    requires Tracked(Assign(xs, es), known, manifests) && Agrees(s, known) && Agrees(s, manifests)
    ensures Kept(Assign(xs, es), Fold(Assign(xs, es), known, manifests), s, fuel)
  {
    var c := Assign(xs, es);
    ExecLeaves(c, s, fuel);
    FoldExprsKeepValues(es, known, manifests, s);
    hide FoldExpr, Eval;
    if |xs| == 1 && |es| == 1 {
      var fs := FoldExprs(es, known, manifests);
      assert EvalAll(fs, s) == [Eval(fs[0], s)];
      assert StoreAll(s, xs, [Eval(fs[0], s)]) == StoreAll(s[xs[0] := Eval(fs[0], s)], [], []);
      assert fs[0].Number? ==> Eval(fs[0], s) == fs[0].value by {
        ConstantValue(fs[0], s);
      }
    } else {
      AgreesWithout(s, Exec(c, s, fuel), Assigned(c), known);
    }
  }

  lemma {:induction false} DeclareFolded(s: Store, xs: seq<string>, es: seq<Expr>, known: Constants, manifests: Constants)
    requires (forall x :: x in xs ==> x !in known && x !in manifests) && Agrees(s, known) && Agrees(s, manifests)
    ensures Declare(s, xs, FoldExprs(es, known, manifests)) == Declare(s, xs, es)
    decreases |xs|
  {
    if xs != [] && es != [] {
      FoldExprKeepsValue(es[0], known, manifests, s);
      hide Eval, FoldExpr;
      assert FoldExprs(es, known, manifests)[1..] == FoldExprs(es[1..], known, manifests);
      DeclareFolded(s[xs[0] := Eval(es[0], s)], xs[1..], es[1..], known, manifests);
    }
  }

  lemma LetKept(xs: seq<string>, es: seq<Expr>, known: Constants, manifests: Constants, s: Store, fuel: nat)
    requires Tracked(Let(xs, es), known, manifests) && Assigned(Let(xs, es)) !! manifests.Keys
    requires Agrees(s, known) && Agrees(s, manifests)
    ensures Kept(Let(xs, es), Fold(Let(xs, es), known, manifests), s, fuel)
  {
    var c := Let(xs, es);
    ExecLeaves(c, s, fuel);
    forall x | x in xs
      ensures x !in known && x !in manifests
    {
      assert x in Assigned(c);
    }
    DeclareFolded(s, xs, es, known, manifests);
    hide FoldExprs, Declare;
    AgreesWithout(s, Exec(c, s, fuel), Assigned(c), known);
  }

  lemma {:induction false} IfKept(c: Stmt, known: Constants, manifests: Constants, s: Store, fuel: nat)
    requires c.If? && Tracked(c, known, manifests) && Assigned(c) !! manifests.Keys
    requires Agrees(s, known) && Agrees(s, manifests)
    ensures Kept(c, Fold(c, known, manifests), s, fuel)
    decreases fuel, c, 1
  {
    var d := FoldExpr(c.condition, known, manifests);
    FoldExprKeepsValue(c.condition, known, manifests, s);
    ConstantValue(d, s);
    hide Eval, FoldExpr, Agrees, IntegerConstant;
    var v := IntegerConstant(d);
    if v.Some? && v.value == 0 {
      assert ExecAll([], s, fuel) == Normal(s);
    } else {
      FoldKeepsMeaning(c.thenBranch, known, manifests, s, fuel);
      if v.None? && Eval(c.condition, s) == 0 {
        assert Stable(c.thenBranch, known, manifests);
      }
    }
  }

  lemma AgreesWithUpdate(s: Store, x: string, v: Word, m: Constants)
    requires Agrees(s, m) && x !in m
    ensures Agrees(s[x := v], m)
  {
  }

  lemma StepFolded(step: Option<Expr>, known: Constants, manifests: Constants, s: Store)
    requires Agrees(s, known) && Agrees(s, manifests)
    ensures Stride(FoldOption(step, known, manifests), s) == Stride(step, s)
  {
    if step.Some? {
      FoldExprKeepsValue(step.value, known, manifests, s);
    }
  }

  lemma {:induction false} ForKept(c: Stmt, known: Constants, manifests: Constants, s: Store, fuel: nat)
    requires c.For? && Tracked(c, known, manifests) && Assigned(c) !! manifests.Keys
    requires Agrees(s, known) && Agrees(s, manifests)
    ensures Kept(c, Fold(c, known, manifests), s, fuel)
    decreases fuel, c, 1
  {
    ExecLeaves(c, s, fuel);
    FoldExprKeepsValue(c.start, known, manifests, s);
    assert c.variable in Assigned(c);
    hide Eval, FoldExpr, Agrees, Leaves, FoldOption;
    var t := s[c.variable := Eval(c.start, s)];
    AgreesWithUpdate(s, c.variable, Eval(c.start, s), known);
    AgreesWithUpdate(s, c.variable, Eval(c.start, s), manifests);
    IterateKept(c, known, manifests, t, fuel);
    if Exec(c, s, fuel).Normal? {
      AgreesWithout(s, Exec(c, s, fuel), Assigned(c), known);
    }
  }

  /** One turn of a loop and its folded form do the same and leave all constants as they were. */
  lemma {:induction false} TurnKept(c: Stmt, known: Constants, manifests: Constants, s: Store, fuel: nat)
    requires c.For? && Tracked(c, known, manifests) && Assigned(c) !! manifests.Keys
    requires Agrees(s, known) && Agrees(s, manifests)
    ensures var o, d := Exec(c.body, s, fuel), Fold(c, known, manifests).stmt;
            && d.For? && Exec(d.body, s, fuel) == o
            && (HasStore(o) ==> Agrees(NextTurn(c, o.store), known) && Agrees(NextTurn(c, o.store), manifests)
                                && NextTurn(d, o.store) == NextTurn(c, o.store))
    decreases fuel, c, 0
  {
    FoldedFor(c, known, manifests);
    FoldKeepsMeaning(c.body, known, manifests, s, fuel);
    ExecLeaves(c.body, s, fuel);
    assert Assigned(c.body) <= Assigned(c) && c.variable in Assigned(c);
    hide Eval, FoldExpr, Agrees, Leaves, FoldOption, Assigned, Exec, Fold;
    var o := Exec(c.body, s, fuel);
    if HasStore(o) {
      AgreesWithout(s, o, Assigned(c.body), known);
      AgreesWithout(s, o, Assigned(c.body), manifests);
      StepFolded(c.step, known, manifests, o.store);
      var u := Wrap(Lookup(o.store, c.variable) + Stride(c.step, o.store));
      AgreesWithUpdate(o.store, c.variable, u, known);
      AgreesWithUpdate(o.store, c.variable, u, manifests);
    }
  }

  lemma {:induction false} IterateKept(c: Stmt, known: Constants, manifests: Constants, s: Store, fuel: nat)
    requires c.For? && Tracked(c, known, manifests) && Assigned(c) !! manifests.Keys
    requires Agrees(s, known) && Agrees(s, manifests)
    ensures Fold(c, known, manifests).stmt.For?
    ensures Iterate(Fold(c, known, manifests).stmt, s, fuel) == Iterate(c, s, fuel)
    decreases fuel, c, 0
  {
    hide Eval, FoldExpr, Agrees, Exec, Fold, Tracked, Assigned;
    FoldedFor(c, known, manifests);
    FoldExprKeepsValue(c.end, known, manifests, s);
    if fuel > 0 && Lookup(s, c.variable) <= Eval(c.end, s) {
      TurnKept(c, known, manifests, s, fuel - 1);
      var o := Exec(c.body, s, fuel - 1);
      if o.Normal? || o.Looped? {
        IterateKept(c, known, manifests, NextTurn(c, o.store), fuel - 1);
      }
    }
  }

  lemma FoldedFor(c: Stmt, known: Constants, manifests: Constants)
    requires c.For?
    ensures var d := Fold(c, known, manifests).stmt;
            && d.For? && d.variable == c.variable && d.end == FoldExpr(c.end, known, manifests)
            && d.step == FoldOption(c.step, known, manifests) && d.body == Fold(c.body, known, manifests).stmt
  {
    hide FoldExpr, FoldOption;
  }

  lemma {:induction false} CasesFolded(cases: seq<Case>, known: Constants, manifests: Constants)
    requires TrackedCases(cases, known, manifests)
    ensures var f := FoldCases(cases, known, manifests);
            && f.known == known && |f.cases| == |cases|
            && forall k :: 0 <= k < |cases| ==>
                 && f.cases[k] == Case(cases[k].constant, Fold(cases[k].command, known, manifests).stmt)
                 && Stable(cases[k].command, known, manifests) && Tracked(cases[k].command, known, manifests)
    decreases cases
  {
    hide Fold, Stable, Tracked;
    if cases != [] {
      StableKeepsMap(cases[0].command, known, manifests);
      CasesFolded(cases[1..], known, manifests);
    }
  }

  lemma StableKeepsMap(c: Stmt, known: Constants, manifests: Constants)
    requires Stable(c, known, manifests)
    ensures Fold(c, known, manifests).known == known
  {
  }

  lemma {:induction false} SameConstants(cases: seq<Case>, ds: seq<Case>, v: Word)
    requires |cases| == |ds| && forall k :: 0 <= k < |cases| ==> cases[k].constant == ds[k].constant
    ensures FirstCase(cases, v) == FirstCase(ds, v)
  {
    if cases != [] {
      SameConstants(cases[1..], ds[1..], v);
    }
  }

  lemma {:induction false} SwitchKept(c: Stmt, known: Constants, manifests: Constants, s: Store, fuel: nat)
    requires c.Switchon? && Tracked(c, known, manifests) && Assigned(c) !! manifests.Keys
    requires Agrees(s, known) && Agrees(s, manifests)
    ensures Kept(c, Fold(c, known, manifests), s, fuel)
    decreases fuel, c, 1
  {
    ExecLeaves(c, s, fuel);
    CasesFolded(c.cases, known, manifests);
    FoldExprKeepsValue(c.selector, known, manifests, s);
    var v := Eval(c.selector, s);
    var ds := FoldCases(c.cases, known, manifests).cases;
    SameConstants(c.cases, ds, v);
    var k := FirstCase(c.cases, v);
    hide Eval, FoldExpr, Agrees, Leaves, FirstCase;
    if k < |c.cases| {
      assert c.cases[k] in c.cases && c.cases[k].command < c.cases[k];
      CaseAssigns(c.cases, k);
      FoldKeepsMeaning(c.cases[k].command, known, manifests, s, fuel);
    } else if c.defaultCase.Some? {
      FoldKeepsMeaning(c.defaultCase.value, known, manifests, s, fuel);
    }
    hide FoldCases;
    if Exec(c, s, fuel).Normal? {
      SwitchLeavesKnown(c, known, manifests);
      AgreesWithout(s, Exec(c, s, fuel), Assigned(c), known);
    }
  }

  lemma {:induction false} CasesLeaveKnown(cases: seq<Case>, known: Constants, manifests: Constants)
    requires TrackedCases(cases, known, manifests)
    ensures AssignedInCases(cases) !! known.Keys
    decreases cases
  {
    if cases != [] {
      CasesLeaveKnown(cases[1..], known, manifests);
    }
  }

  lemma SwitchLeavesKnown(c: Stmt, known: Constants, manifests: Constants)
    requires c.Switchon? && Tracked(c, known, manifests)
    ensures Assigned(c) !! known.Keys
  {
    CasesLeaveKnown(c.cases, known, manifests);
  }

  lemma {:induction false} AllKept(cs: seq<Stmt>, known: Constants, manifests: Constants, s: Store, fuel: nat)
    requires TrackedAll(cs, known, manifests) && AssignedInAll(cs) !! manifests.Keys
    requires Agrees(s, known) && Agrees(s, manifests)
    ensures var f := FoldAll(cs, known, manifests);
            && ExecAll(f.stmts, s, fuel) == ExecAll(cs, s, fuel)
            && (ExecAll(cs, s, fuel).Normal? ==> Agrees(ExecAll(cs, s, fuel).store, f.known))
    decreases fuel, cs, 0
  {
    hide Agrees, Leaves, Exec, Fold, Tracked, Assigned;
    if cs != [] {
      FoldKeepsMeaning(cs[0], known, manifests, s, fuel);
      var f, o := Fold(cs[0], known, manifests), Exec(cs[0], s, fuel);
      var g := FoldAll(cs[1..], f.known, manifests);
      assert ([f.stmt] + g.stmts)[1..] == g.stmts;
      if o.Normal? {
        ExecLeaves(cs[0], s, fuel);
        AgreesWithout(s, o, Assigned(cs[0]), manifests);
        AllKept(cs[1..], f.known, manifests, o.store, fuel);
      }
    }
  }

  /** The folded program, from an empty map, ends as the original does: with the same store, by the same jump, or not
    * at all.
    */
  lemma FoldingIsCorrect(c: Stmt, manifests: Constants, s: Store, fuel: nat)
    requires Tracked(c, map[], manifests) && Assigned(c) !! manifests.Keys && Agrees(s, manifests)
    ensures Exec(Fold(c, map[], manifests).stmt, s, fuel) == Exec(c, s, fuel)
  {
    FoldKeepsMeaning(c, map[], manifests, s, fuel);
  }

  // ----- where folding goes wrong -----

  const SET_X := Assign(["x"], [Number(1)])
  const COPY_X := Assign(["y"], [Variable("x")])

  lemma OneAssignment(x: string, e: Expr, known: Constants, s: Store, fuel: nat)
    ensures Exec(Assign([x], [e]), s, fuel) == Normal(s[x := Eval(e, s)])
    ensures var d := FoldExpr(e, known, map[]);
            Fold(Assign([x], [e]), known, map[]) ==
              Folded(Assign([x], [d]), if d.Number? then known[x := d.value] else known - {x})
  {
    assert EvalAll([e], s) == [Eval(e, s)];
    assert StoreAll(s, [x], [Eval(e, s)]) == StoreAll(s[x := Eval(e, s)], [], []);
    assert FoldExprs([e], known, map[]) == [FoldExpr(e, known, map[])];
  }

  lemma TwoStatements(a: Stmt, b: Stmt, known: Constants, s: Store, fuel: nat)
    ensures var o := Exec(a, s, fuel);
            Exec(Compound([a, b]), s, fuel) == if o.Normal? then Exec(b, o.store, fuel) else o
    ensures var f := Fold(a, known, map[]);
            var g := Fold(b, f.known, map[]);
            Fold(Compound([a, b]), known, map[]) == Folded(Compound([f.stmt, g.stmt]), g.known)
  {
    hide Exec, Fold;
    var o := Exec(a, s, fuel);
    assert [a, b][1..] == [b] && [b][1..] == [];
    if o.Normal? {
      assert ExecAll([a, b], s, fuel) == ExecAll([b], o.store, fuel);
      var p := Exec(b, o.store, fuel);
      assert ExecAll([b], o.store, fuel) == if p.Normal? then ExecAll([], p.store, fuel) else p;
    }
    var f := Fold(a, known, map[]);
    var g := Fold(b, f.known, map[]);
    assert FoldAll([b], f.known, map[]) == FoldedAll([g.stmt] + FoldAll([], g.known, map[]).stmts, g.known);
    assert FoldAll([a, b], known, map[]) == FoldedAll([f.stmt] + FoldAll([b], f.known, map[]).stmts, g.known);
    assert FoldAll([], g.known, map[]).stmts == [] && [g.stmt] + [] == [g.stmt] && [f.stmt] + [g.stmt] == [f.stmt, g.stmt];
    CompoundOf([a, b], known, s, fuel);
  }

  lemma CompoundOf(cs: seq<Stmt>, known: Constants, s: Store, fuel: nat)
    ensures Exec(Compound(cs), s, fuel) == ExecAll(cs, s, fuel)
    ensures Fold(Compound(cs), known, map[]) == Folded(Compound(FoldAll(cs, known, map[]).stmts), FoldAll(cs, known, map[]).known)
  {
  }

  /** After an IF that may not be taken, its assignments are taken for granted. */
  lemma UntakenBranchIsBelieved(s: Store, fuel: nat)
    requires Lookup(s, "c") == 0
    ensures var c := Compound([If(Variable("c"), SET_X), COPY_X]);
            && Exec(c, s, fuel) == Normal(s["y" := Lookup(s, "x")])
            && Exec(Fold(c, map[], map[]).stmt, s, fuel) == Normal(s["y" := 1])
  {
    var branch := If(Variable("c"), SET_X);
    OneAssignment("x", Number(1), map[], s, fuel);
    assert Fold(branch, map[], map[]) == Folded(branch, map["x" := 1]);
    TwoStatements(branch, COPY_X, map[], s, fuel);
    OneAssignment("y", Variable("x"), map["x" := 1], s, fuel);
    TwoStatements(branch, Assign(["y"], [Number(1)]), map[], s, fuel);
    OneAssignment("y", Number(1), map[], s, fuel);
  }

  lemma DoubleAssignment(known: Constants, s: Store, fuel: nat)
    ensures var c := Assign(["x", "z"], [Number(2), Number(3)]);
            Exec(c, s, fuel) == Normal(s["x" := 2]["z" := 3]) && Fold(c, known, map[]) == Folded(c, known)
  {
    var es := [Number(2), Number(3)];
    assert es[1..] == [Number(3)];
    assert EvalAll([Number(3)], s) == [3] && EvalAll(es, s) == [2] + [3] == [2, 3];
    assert StoreAll(s["x" := 2], ["z"], [3]) == StoreAll(s["x" := 2]["z" := 3], [], []);
    assert ["x", "z"][1..] == ["z"] && [2, 3][1..] == [3];
    assert FoldExprs([Number(3)], known, map[]) == [Number(3)] && FoldExprs(es, known, map[]) == [Number(2)] + [Number(3)];
  }

  /** A double assignment leaves an old constant in the map. */
  lemma DoubleAssignmentIsMissed(s: Store, fuel: nat)
    ensures var c := Compound([SET_X, Compound([Assign(["x", "z"], [Number(2), Number(3)]), COPY_X])]);
            && Exec(c, s, fuel) == Normal(s["x" := 1]["x" := 2]["z" := 3]["y" := 2])
            && Exec(Fold(c, map[], map[]).stmt, s, fuel) == Normal(s["x" := 1]["x" := 2]["z" := 3]["y" := 1])
  {
    var double := Assign(["x", "z"], [Number(2), Number(3)]);
    var rest, folded := Compound([double, COPY_X]), Compound([double, Assign(["y"], [Number(1)])]);
    var known: Constants := map["x" := 1];
    var t := s["x" := 1];
    OneAssignment("x", Number(1), map[], s, fuel);
    DoubleAssignment(known, t, fuel);
    var u := t["x" := 2]["z" := 3];
    OneAssignment("y", Variable("x"), known, u, fuel);
    OneAssignment("y", Number(1), known, u, fuel);
    hide Exec, Fold;
    TwoStatements(double, COPY_X, known, t, fuel);
    TwoStatements(double, Assign(["y"], [Number(1)]), known, t, fuel);
    TwoStatements(SET_X, rest, map[], s, fuel);
    TwoStatements(SET_X, folded, map[], s, fuel);
  }
}
