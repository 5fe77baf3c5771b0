/** Common subexpression elimination inside a block: what the pass does, and that no source variable notices. */
module LocalCse {
  import opened Ast
  import opened Machine
  import opened Liveness
  import opened LivenessSoundness
  import opened CseKey
  import opened Text
  import CfgTheorems

  type Available = map<string, string>
  type Counts = map<string, nat>

  const TEMP_PREFIX := "_cse_temp_"

  function TempName(n: nat): string {
    TEMP_PREFIX + NatText(n)
  }

  predicate IsTemp(x: string) {
    TEMP_PREFIX <= x
  }

  lemma TempNames(m: nat, n: nat)
    ensures IsTemp(TempName(m)) && (TempName(m) == TempName(n) ==> m == n)
  {
    assert TempName(m)[|TEMP_PREFIX|..] == NatText(m) && TempName(n)[|TEMP_PREFIX|..] == NatText(n);
    NatTextReads(m);
    NatTextReads(n);
  }

  // ----- counting -----

  function Bump(counts: Counts, k: string): Counts {
    counts[k := (if k in counts then counts[k] else 0) + 1]
  }

  /** How often each binary expression occurs; the parts of a conditional expression are passed over. */
  function CountExpr(e: Expr, counts: Counts): Counts {
    match e
    case Binary(_, a, b) => CountExpr(b, CountExpr(a, Bump(counts, Key(e))))
    case Unary(_, a) => CountExpr(a, counts)
    case _ => counts
  }

  function CountExprs(es: seq<Expr>, counts: Counts): Counts {
    if es == [] then counts else CountExprs(es[1..], CountExpr(es[0], counts))
  }

  function CountStmt(c: Stmt, counts: Counts): Counts
    decreases c, 1
  {
    match c
    case Assign(_, es) => CountExprs(es, counts)
    case Let(_, es) => CountExprs(es, counts)
    case If(e, t) => CountStmt(t, CountExpr(e, counts))
    case Compound(cs) => CountStmts(cs, counts)
    case _ => counts
  }

  function CountStmts(cs: seq<Stmt>, counts: Counts): Counts
    decreases cs, 0
  {
    if cs == [] then counts else CountStmts(cs[1..], CountStmt(cs[0], counts))
  }

  // ----- rewriting -----

  /** What has been produced so far, the expressions held in temporaries, and the number of temporaries. */
  datatype Progress = Progress(out: seq<Stmt>, available: Available, temps: nat)

  predicate Hoistable(e: Expr, counts: Counts) {
    e.Binary? && Key(e) in counts && counts[Key(e)] > 1
  }

  /** Temporaries for right-hand sides go in front of the statement. */
  function HoistOne(counts: Counts, e: Expr, p: Progress): Progress {
    if Key(e) !in p.available && Hoistable(e, counts) then
      var t := TempName(p.temps);
      Progress(p.out + [Let([t], [e])], p.available[Key(e) := t], p.temps + 1)
    else p
  }

  function Replaced(counts: Counts, e: Expr, p: Progress): Expr {
    if Key(e) in p.available then Variable(p.available[Key(e)])
    else if Hoistable(e, counts) then Variable(TempName(p.temps))
    else e
  }

  function HoistAll(counts: Counts, es: seq<Expr>, n: nat, p: Progress): Progress
    requires n <= |es|
  {
    if n == 0 then p else HoistOne(counts, es[n - 1], HoistAll(counts, es, n - 1, p))
  }

  function ReplaceAll(counts: Counts, es: seq<Expr>, n: nat, p: Progress): (r: seq<Expr>)
    requires n <= |es|
    ensures |r| == n
  {
    if n == 0 then []
    else ReplaceAll(counts, es, n - 1, p) + [Replaced(counts, es[n - 1], HoistAll(counts, es, n - 1, p))]
  }

  function Invalidate(a: Available, x: string): Available {
    map k | k in a && !Occurs(VariableKey(x), k) :: a[k]
  }

  function InvalidateAll(a: Available, xs: seq<string>, n: nat): Available
    requires n <= |xs|
  {
    if n == 0 then a else Invalidate(InvalidateAll(a, xs, n - 1), xs[n - 1])
  }

  function Advance(counts: Counts, p: Progress, c: Stmt): Progress {
    match c
    case Assign(xs, es) =>
      var h := HoistAll(counts, es, |es|, p);
      Progress(h.out + [Assign(xs, ReplaceAll(counts, es, |es|, p))],
               InvalidateAll(h.available, xs, |xs|), h.temps)
    case _ => p.(out := p.out + [c])
  }

  /** The state of the pass after the first `n` statements of a block. */
  function Through(counts: Counts, cs: seq<Stmt>, n: nat): Progress
    requires n <= |cs|
  {
    if n == 0 then Progress([], map[], 0) else Advance(counts, Through(counts, cs, n - 1), cs[n - 1])
  }

  function OptimizeStatements(cs: seq<Stmt>): seq<Stmt> {
    Through(CountStmts(cs, map[]), cs, |cs|).out
  }

  function OptimizeGraph(g: seq<Block>): seq<Block> {
    seq(|g|, i requires 0 <= i < |g| => g[i].(stmts := OptimizeStatements(g[i].stmts)))
  }

  // ----- the statements the pass is right about -----

  predicate IsSource(x: string) {
    IsName(x) && !IsTemp(x)
  }

  ghost predicate SourceOnly(e: Expr) {
    forall x :: x in Vars(e) ==> IsSource(x)
  }

  /** Source names only, and no declaration yet. */
  ghost predicate CleanStmt(c: Stmt) {
    match c
    case Assign(xs, es) => (forall x :: x in xs ==> IsSource(x)) && (forall e :: e in es ==> SourceOnly(e))
    case Let(_, _) => false
    case If(e, _) => SourceOnly(e)
    case For(x, _, end, _, _) => IsSource(x) && SourceOnly(end)
    case Switchon(e, _, _) => SourceOnly(e)
    case ConditionalBranch(_, e) => SourceOnly(e)
    case _ => true
  }

  // ----- what the temporaries hold -----

  /** The expressions whose values are held under their keys. */
  type Held = map<string, Expr>

  function HoldOne(counts: Counts, e: Expr, p: Progress, held: Held): Held {
    if Key(e) !in p.available && Hoistable(e, counts) then held[Key(e) := e] else held
  }

  function HoldAll(counts: Counts, es: seq<Expr>, n: nat, p: Progress, held: Held): Held
    requires n <= |es|
  {
    if n == 0 then held else HoldOne(counts, es[n - 1], HoistAll(counts, es, n - 1, p), HoldAll(counts, es, n - 1, p, held))
  }

  /** An assignment to a variable of an expression makes what is held of it stale, whether its key says so or not. */
  function StillHeld(held: Held, a: Available, xs: seq<string>): Held {
    map k | k in held && k in a && (forall x :: x in xs ==> x !in Vars(held[k])) :: held[k]
  }

  function HeldAfter(counts: Counts, p: Progress, held: Held, c: Stmt): Held {
    match c
    case Assign(xs, es) =>
      StillHeld(HoldAll(counts, es, |es|, p, held), Advance(counts, p, c).available, xs)
    case _ => held
  }

  function HeldThrough(counts: Counts, cs: seq<Stmt>, n: nat): Held
    requires n <= |cs|
  {
    if n == 0 then map[] else HeldAfter(counts, Through(counts, cs, n - 1), HeldThrough(counts, cs, n - 1), cs[n - 1])
  }

  /** If the key of the expression is available, what is held under it is the same expression up to the order of operands
    * and is not stale.
    */
  predicate FitOne(e: Expr, p: Progress, held: Held) {
    Key(e) in p.available ==> Key(e) in held && SameUpToOrder(held[Key(e)], e)
  }

  predicate FitAll(counts: Counts, es: seq<Expr>, n: nat, p: Progress, held: Held)
    requires n <= |es|
  {
    n > 0 ==>
      && FitAll(counts, es, n - 1, p, held)
      && FitOne(es[n - 1], HoistAll(counts, es, n - 1, p), HoldAll(counts, es, n - 1, p, held))
  }

  predicate FitStmt(counts: Counts, c: Stmt, p: Progress, held: Held) {
    c.Assign? ==> FitAll(counts, c.values, |c.values|, p, held)
  }

  /** No temporary is used, in the first `n` statements, for another expression or after it has become stale. */
  predicate FitThrough(counts: Counts, cs: seq<Stmt>, n: nat)
    requires n <= |cs|
  {
    n > 0 ==>
      && FitThrough(counts, cs, n - 1)
      && FitStmt(counts, cs[n - 1], Through(counts, cs, n - 1), HeldThrough(counts, cs, n - 1))
  }

  predicate FitBlock(b: Block) {
    FitThrough(CountStmts(b.stmts, map[]), b.stmts, |b.stmts|)
  }

  lemma {:induction false} FitFront(counts: Counts, cs: seq<Stmt>, m: nat, n: nat)
    requires m <= n <= |cs| && FitThrough(counts, cs, n)
    ensures FitThrough(counts, cs, m)
  {
    hide FitStmt;
    if m < n {
      FitFront(counts, cs, m, n - 1);
    }
  }

  // ----- what holds between the two stores -----

  /** Source variables have the same values. */
  ghost predicate SameSource(s: Store, t: Store) {
    forall x :: IsSource(x) ==> Lookup(s, x) == Lookup(t, x)
  }

  /** The temporary `x` holds the value of the expression. */
  ghost predicate Holds(e: Expr, x: string, temps: nat, s: Store, t: Store) {
    SourceOnly(e) && Lookup(t, x) == Eval(e, s) && exists i: nat :: i < temps && x == TempName(i)
  }

  ghost predicate Related(p: Progress, held: Held, s: Store, t: Store) {
    && SameSource(s, t)
    && (forall k :: k in held ==> k in p.available && Holds(held[k], p.available[k], p.temps, s, t))
  }

  lemma SourceEvaluatesAlike(e: Expr, s: Store, t: Store)
    requires SourceOnly(e) && SameSource(s, t)
    ensures Eval(e, s) == Eval(e, t)
  {
    EvalAgrees(e, s, t);
  }

  /** A fresh temporary disturbs nothing that is already held. */
  lemma FreshTemp(p: Progress, held: Held, s: Store, t: Store, v: Word)
    requires Related(p, held, s, t)
    ensures SameSource(s, t[TempName(p.temps) := v])
    ensures forall k :: k in held ==> k in p.available && Holds(held[k], p.available[k], p.temps + 1, s, t[TempName(p.temps) := v])
  {
    var u := t[TempName(p.temps) := v];
    TempNames(p.temps, p.temps);
    forall k | k in held
      ensures k in p.available && Holds(held[k], p.available[k], p.temps + 1, s, u)
    {
      var i: nat :| i < p.temps && p.available[k] == TempName(i);
      TempNames(i, p.temps);
    }
  }

  function RunStatements(cs: seq<Stmt>, s: Store): Store {
    if cs == [] then s else RunStatements(cs[1..], Effect(cs[0], s))
  }

  lemma {:induction false} RunStatementsAppend(cs: seq<Stmt>, c: Stmt, s: Store)
    ensures RunStatements(cs + [c], s) == Effect(c, RunStatements(cs, s))
  {
    hide Effect;
    if cs == [] {
      assert ([] + [c])[1..] == [];
    } else {
      assert (cs + [c])[1..] == cs[1..] + [c];
      RunStatementsAppend(cs[1..], c, Effect(cs[0], s));
    }
  }

  lemma LetEffect(x: string, e: Expr, s: Store)
    ensures Effect(Let([x], [e]), s) == s[x := Eval(e, s)]
  {
    assert EvalAll([e], s) == [Eval(e, s)];
    assert StoreAll(s, [x], [Eval(e, s)]) == StoreAll(s[x := Eval(e, s)], [], []);
  }

  /** A replaced right-hand side: a source expression, or a temporary already given out. */
  ghost predicate Settled(e: Expr, temps: nat) {
    SourceOnly(e) || exists i: nat :: i < temps && e == Variable(TempName(i))
  }

  // ----- one statement -----

  /** What a new right-hand side may rely on: it has the value of the old one, and older ones are unchanged. */
  ghost predicate Serves(p: Progress, h: Progress, held: Held, r: Expr, e: Expr, s: Store, t: Store, u: Store) {
    && Related(h, held, s, u)
    && Settled(r, h.temps) && Eval(r, u) == Eval(e, s)
    && (forall d :: Settled(d, p.temps) ==> Settled(d, h.temps) && Eval(d, u) == Eval(d, t))
  }

  lemma HoistOneKeeps(counts: Counts, e: Expr, p: Progress, held: Held, s: Store, t0: Store)
    requires SourceOnly(e) && FitOne(e, p, held) && Related(p, held, s, RunStatements(p.out, t0))
    ensures var h := HoistOne(counts, e, p);
            Serves(p, h, HoldOne(counts, e, p, held), Replaced(counts, e, p), e, s, RunStatements(p.out, t0), RunStatements(h.out, t0))
  {
    var t, k := RunStatements(p.out, t0), Key(e);
    hide SourceOnly, Key, TempName, Hoistable, Eval, SameUpToOrder;
    if k !in p.available && Hoistable(e, counts) {
      var x := TempName(p.temps);
      RunStatementsAppend(p.out, Let([x], [e]), t0);
      LetEffect(x, e, t);
      hide RunStatements, Effect, HoistOne, Replaced, HoldOne;
      HoistServes(p, held, e, s, t, p.out + [Let([x], [e])]);
      HoistedProgress(counts, e, p, held);
    } else {
      hide RunStatements;
      SourceEvaluatesAlike(e, s, t);
      if k in p.available {
        assert Holds(held[k], p.available[k], p.temps, s, t);
        SameTreesEvaluateAlike(held[k], e, s);
        VariableValue(p.available[k], t);
      }
    }
  }

  lemma VariableValue(x: string, t: Store)
    ensures Eval(Variable(x), t) == Lookup(t, x)
  {
  }

  lemma HoistedProgress(counts: Counts, e: Expr, p: Progress, held: Held)
    requires Key(e) !in p.available && Hoistable(e, counts)
    ensures HoistOne(counts, e, p) ==
            Progress(p.out + [Let([TempName(p.temps)], [e])], p.available[Key(e) := TempName(p.temps)], p.temps + 1)
    ensures Replaced(counts, e, p) == Variable(TempName(p.temps)) && HoldOne(counts, e, p, held) == held[Key(e) := e]
  {
  }

  lemma HoistServes(p: Progress, held: Held, e: Expr, s: Store, t: Store, out: seq<Stmt>)
    requires SourceOnly(e) && Related(p, held, s, t) && Key(e) !in p.available
    ensures var x := TempName(p.temps);
            Serves(p, Progress(out, p.available[Key(e) := x], p.temps + 1), held[Key(e) := e], Variable(x), e, s, t, t[x := Eval(e, t)])
  {
    hide SourceOnly, Key, TempName, Eval;
    var x, k := TempName(p.temps), Key(e);
    SourceEvaluatesAlike(e, s, t);
    var u := t[x := Eval(e, t)];
    FreshTemp(p, held, s, t, Eval(e, t));
    VariableValue(x, u);
    forall d | Settled(d, p.temps)
      ensures Settled(d, p.temps + 1) && Eval(d, u) == Eval(d, t)
    {
      SettledIsUndisturbed(d, p.temps, t, Eval(e, t));
    }
    assert Holds(e, x, p.temps + 1, s, u);
  }

  lemma SettledIsUndisturbed(d: Expr, temps: nat, t: Store, v: Word)
    requires Settled(d, temps)
    ensures Eval(d, t[TempName(temps) := v]) == Eval(d, t)
  {
    TempNames(temps, temps);
    if SourceOnly(d) {
      EvalAgrees(d, t, t[TempName(temps) := v]);
    } else {
      var i: nat :| i < temps && d == Variable(TempName(i));
      TempNames(i, temps);
    }
  }

  /** After the hoisted statements, the replaced right-hand sides have the values of the original ones. */
  lemma {:induction false} HoistAllKeeps(counts: Counts, es: seq<Expr>, n: nat, p: Progress, held: Held, s: Store, t0: Store)
    requires n <= |es| && (forall e :: e in es ==> SourceOnly(e)) && FitAll(counts, es, n, p, held)
    requires Related(p, held, s, RunStatements(p.out, t0))
    ensures var h := HoistAll(counts, es, n, p);
            Related(h, HoldAll(counts, es, n, p, held), s, RunStatements(h.out, t0))
    ensures var h, r := HoistAll(counts, es, n, p), ReplaceAll(counts, es, n, p);
            forall j :: 0 <= j < n ==> Settled(r[j], h.temps) && Eval(r[j], RunStatements(h.out, t0)) == Eval(es[j], s)
  {
    hide Related, SourceOnly, HoistOne, HoldOne, FitOne, Replaced, RunStatements, Settled, Eval;
    if n > 0 {
      HoistAllKeeps(counts, es, n - 1, p, held, s, t0);
      assert es[n - 1] in es;
      HoistOneKeeps(counts, es[n - 1], HoistAll(counts, es, n - 1, p), HoldAll(counts, es, n - 1, p, held), s, t0);
    }
  }

  lemma {:induction false} EvalAllAlike(es: seq<Expr>, ds: seq<Expr>, s: Store, t: Store)
    requires |es| == |ds| && forall j :: 0 <= j < |es| ==> Eval(es[j], s) == Eval(ds[j], t)
    ensures EvalAll(es, s) == EvalAll(ds, t)
  {
  }

  lemma {:induction false} StoreKeepsSame(s: Store, t: Store, xs: seq<string>, vs: seq<Word>)
    requires SameSource(s, t)
    ensures SameSource(StoreAll(s, xs, vs), StoreAll(t, xs, vs))
    decreases |xs|
  {
    if xs != [] && vs != [] {
      StoreKeepsSame(s[xs[0] := vs[0]], t[xs[0] := vs[0]], xs[1..], vs[1..]);
    }
  }

  lemma {:induction false} Survivors(a: Available, xs: seq<string>, n: nat)
    requires n <= |xs|
    ensures var r := InvalidateAll(a, xs, n);
            forall k :: k in r <==> k in a && forall i :: 0 <= i < n ==> !Occurs(VariableKey(xs[i]), k)
    ensures var r := InvalidateAll(a, xs, n); forall k :: k in r ==> r[k] == a[k]
  {
    hide Occurs, VariableKey;
    if n > 0 {
      Survivors(a, xs, n - 1);
    }
  }

  /** What is not stale after an assignment is still held. */
  lemma SurvivorIsHeld(e: Expr, x: string, temps: nat, xs: seq<string>, vs: seq<Word>, s: Store, t: Store)
    requires Holds(e, x, temps, s, t) && forall y :: y in xs ==> IsSource(y) && y !in Vars(e)
    ensures Holds(e, x, temps, StoreAll(s, xs, vs), StoreAll(t, xs, vs))
  {
    var i: nat :| i < temps && x == TempName(i);
    TempNames(i, i);
    hide TempName;
    StoreKeeps(t, xs, vs, x);
    forall y | y in Vars(e)
      ensures Lookup(s, y) == Lookup(StoreAll(s, xs, vs), y)
    {
      StoreKeeps(s, xs, vs, y);
    }
    EvalAgrees(e, s, StoreAll(s, xs, vs));
  }

  lemma AssignmentKeeps(counts: Counts, xs: seq<string>, es: seq<Expr>, p: Progress, held: Held, s: Store, t0: Store)
    requires CleanStmt(Assign(xs, es)) && FitStmt(counts, Assign(xs, es), p, held)
    requires Related(p, held, s, RunStatements(p.out, t0))
    ensures var c := Assign(xs, es);
            var q := Advance(counts, p, c);
            Related(q, HeldAfter(counts, p, held, c), Effect(c, s), RunStatements(q.out, t0))
  {
    hide Occurs, SourceOnly, RunStatements, Holds, FitAll;
    var h, r := HoistAll(counts, es, |es|, p), ReplaceAll(counts, es, |es|, p);
    HoistAllKeeps(counts, es, |es|, p, held, s, t0);
    var u, vs := RunStatements(h.out, t0), EvalAll(es, s);
    EvalAllAlike(es, r, s, u);
    RunStatementsAppend(h.out, Assign(xs, r), t0);
    hide HoistAll, HoldAll, ReplaceAll, EvalAll, Settled;
    StoreKeepsSame(s, u, xs, vs);
    var c := Assign(xs, es);
    var q, was, now := Advance(counts, p, c), HoldAll(counts, es, |es|, p, held), HeldAfter(counts, p, held, c);
    Survivors(h.available, xs, |xs|);
    forall k | k in now
      ensures k in q.available && Holds(now[k], q.available[k], q.temps, StoreAll(s, xs, vs), StoreAll(u, xs, vs))
    {
      assert k in was && now[k] == was[k] && q.available[k] == h.available[k];
      SurvivorIsHeld(was[k], h.available[k], h.temps, xs, vs, s, u);
    }
  }

  // ----- one block -----

  lemma {:induction false} ThroughKeeps(counts: Counts, cs: seq<Stmt>, n: nat, s: Store, t: Store)
    requires n <= |cs| && (forall c :: c in cs ==> CleanStmt(c)) && FitThrough(counts, cs, n) && SameSource(s, t)
    ensures var p := Through(counts, cs, n);
            Related(p, HeldThrough(counts, cs, n), RunStatements(cs[..n], s), RunStatements(p.out, t))
  {
    hide CleanStmt, Holds, SameSource, Effect, FitStmt, Related, Advance, HeldAfter;
    if n > 0 {
      ThroughKeeps(counts, cs, n - 1, s, t);
      var p, held, c := Through(counts, cs, n - 1), HeldThrough(counts, cs, n - 1), cs[n - 1];
      assert cs[..n] == cs[..n - 1] + [c] && c in cs;
      RunStatementsAppend(cs[..n - 1], c, s);
      hide RunStatements;
      StatementKeeps(counts, c, p, held, RunStatements(cs[..n - 1], s), t);
    } else {
      NothingRelated(s, t);
    }
  }

  lemma NothingRelated(s: Store, t: Store)
    requires SameSource(s, t)
    ensures Related(Progress([], map[], 0), map[], s, t)
  {
    hide SameSource;
  }

  lemma StatementKeeps(counts: Counts, c: Stmt, p: Progress, held: Held, s: Store, t0: Store)
    requires CleanStmt(c) && FitStmt(counts, c, p, held) && Related(p, held, s, RunStatements(p.out, t0))
    ensures var q := Advance(counts, p, c);
            Related(q, HeldAfter(counts, p, held, c), Effect(c, s), RunStatements(q.out, t0))
  {
    hide CleanStmt, Holds, SameSource, Effect, FitStmt, RunStatements;
    if c.Assign? {
      hide Related, Advance, HeldAfter;
      AssignmentKeeps(counts, c.targets, c.values, p, held, s, t0);
    } else {
      RunStatementsAppend(p.out, c, t0);
      NoEffect(c, s);
      NoEffect(c, RunStatements(p.out, t0));
    }
  }

  lemma NoEffect(c: Stmt, s: Store)
    requires CleanStmt(c) && !c.Assign?
    ensures Effect(c, s) == s
  {
  }

  predicate NoReturn(cs: seq<Stmt>) {
    forall c :: c in cs ==> !c.Return?
  }

  /** The statements so far stay, and what comes last is the current statement, possibly with new right-hand sides. */
  lemma AdvanceShape(counts: Counts, p: Progress, c: Stmt)
    ensures var q := Advance(counts, p, c);
            && p.out < q.out
            && (var d := q.out[|q.out| - 1]; if c.Assign? then d.Assign? else q.out == p.out + [c])
            && (NoReturn(p.out) && !c.Return? ==> NoReturn(q.out))
  {
    if c.Assign? {
      HoistShape(counts, c.values, |c.values|, p);
    }
    hide HoistAll, ReplaceAll, InvalidateAll;
  }

  lemma {:induction false} ThroughShape(counts: Counts, cs: seq<Stmt>, n: nat)
    requires n <= |cs|
    ensures var p := Through(counts, cs, n); (NoReturn(cs[..n]) ==> NoReturn(p.out)) && n <= |p.out|
  {
    hide Advance;
    if n > 0 {
      ThroughShape(counts, cs, n - 1);
      AdvanceShape(counts, Through(counts, cs, n - 1), cs[n - 1]);
      if NoReturn(cs[..n]) {
        assert cs[n - 1] in cs[..n];
        assert forall c :: c in cs[..n - 1] ==> c in cs[..n];
      }
    }
  }

  lemma {:induction false} HoistShape(counts: Counts, es: seq<Expr>, n: nat, p: Progress)
    requires n <= |es|
    ensures var h := HoistAll(counts, es, n, p);
            p.out <= h.out && (NoReturn(p.out) ==> NoReturn(h.out))
  {
    if n > 0 {
      HoistShape(counts, es, n - 1, p);
      hide HoistAll, Hoistable, Key;
    }
  }

  lemma {:induction false} ThroughGrows(counts: Counts, cs: seq<Stmt>, m: nat, n: nat)
    requires m <= n <= |cs|
    ensures Through(counts, cs, m).out <= Through(counts, cs, n).out
  {
    hide Advance;
    if m < n {
      ThroughGrows(counts, cs, m, n - 1);
      AdvanceShape(counts, Through(counts, cs, n - 1), cs[n - 1]);
    }
  }

  // ----- runs, block by block -----

  /** The number of statements before the first RETURN. */
  function UntilReturn(cs: seq<Stmt>): (n: nat)
    ensures n <= |cs| && NoReturn(cs[..n]) && (n < |cs| ==> cs[n].Return?)
  {
    if cs == [] || cs[0].Return? then 0
    else
      var n := 1 + UntilReturn(cs[1..]);
      assert cs[..n] == [cs[0]] + cs[1..][..n - 1];
      n
  }

  /** A whole block at once. */
  function Visit(g: seq<Block>, k: Config): Config {
    if !k.At? || k.block >= |g| then Step(g, k)
    else
      var b := g[k.block];
      var n := UntilReturn(b.stmts);
      var s := RunStatements(b.stmts[..n], k.store);
      if n < |b.stmts| then Done(s) else Follow(BlockExit(b, s), s)
  }

  function Visits(g: seq<Block>, k: Config, n: nat): Config
    decreases n
  {
    if n == 0 then k else Visits(g, Visit(g, k), n - 1)
  }

  lemma {:induction false} RunsThrough(g: seq<Block>, b: nat, s: Store, i: nat)
    requires b < |g| && i <= |g[b].stmts| && NoReturn(g[b].stmts[..i])
    ensures Run(g, At(b, 0, s), i) == At(b, i, RunStatements(g[b].stmts[..i], s))
  {
    hide Effect;
    var cs := g[b].stmts;
    if i > 0 {
      assert cs[i - 1] in cs[..i] && NoReturn(cs[..i - 1]) by {
        assert forall c :: c in cs[..i - 1] ==> c in cs[..i];
      }
      RunsThrough(g, b, s, i - 1);
      assert cs[..i] == cs[..i - 1] + [cs[i - 1]];
      RunStatementsAppend(cs[..i - 1], cs[i - 1], s);
      var k := At(b, i - 1, RunStatements(cs[..i - 1], s));
      RunAdd(g, At(b, 0, s), i - 1, 1);
      assert Run(g, k, 1) == Run(g, Step(g, k), 0);
      hide RunStatements;
    }
  }

  lemma VisitIsRun(g: seq<Block>, k: Config) returns (m: nat)
    requires k.At? ==> k.pos == 0
    ensures m >= 1 && Run(g, k, m) == Visit(g, k) && (Visit(g, k).At? ==> Visit(g, k).pos == 0)
  {
    hide Effect, BlockExit;
    if !k.At? || k.block >= |g| {
      m := 1;
      assert Run(g, k, 1) == Run(g, Step(g, k), 0);
    } else {
      var cs := g[k.block].stmts;
      var n := UntilReturn(cs);
      hide UntilReturn;
      RunsThrough(g, k.block, k.store, n);
      RunAdd(g, k, n, 1);
      var mid := At(k.block, n, RunStatements(cs[..n], k.store));
      assert Run(g, mid, 1) == Run(g, Step(g, mid), 0);
      m := n + 1;
      hide RunStatements;
    }
  }

  lemma {:induction false} VisitsAreRuns(g: seq<Block>, k: Config, n: nat) returns (m: nat)
    requires k.At? ==> k.pos == 0
    ensures m >= n && Run(g, k, m) == Visits(g, k, n)
    decreases n
  {
    hide Visit, Run;
    if n == 0 {
      m := 0;
      assert Run(g, k, 0) == k by {
        RunNone(g, k);
      }
    } else {
      var i := VisitIsRun(g, k);
      var j := VisitsAreRuns(g, Visit(g, k), n - 1);
      RunAdd(g, k, i, j);
      m := i + j;
    }
  }

  lemma RunNone(g: seq<Block>, k: Config)
    ensures Run(g, k, 0) == k
  {
  }

  // ----- whole graphs -----

  /** Source names only, no declaration yet, and temporaries are used for what they hold. */
  ghost predicate CleanBlock(b: Block) {
    (forall c :: c in b.stmts ==> CleanStmt(c)) && FitBlock(b)
  }

  ghost predicate CleanGraph(g: seq<Block>) {
    forall b :: b in g ==> CleanBlock(b)
  }

  lemma {:induction false} UntilReturnIs(cs: seq<Stmt>, n: nat)
    requires n <= |cs| && NoReturn(cs[..n]) && (n < |cs| ==> cs[n].Return?)
    ensures UntilReturn(cs) == n
  {
    if cs != [] && !cs[0].Return? {
      assert n > 0;
      assert cs[..n] == [cs[0]] + cs[1..][..n - 1];
      UntilReturnIs(cs[1..], n - 1);
    } else if cs != [] && n > 0 {
      assert cs[0] in cs[..n];
    }
  }

  /** The statements before the first RETURN of a block are optimised into those before the first RETURN of the result. */
  lemma OptimizedReturn(cs: seq<Stmt>)
    ensures var o, n := OptimizeStatements(cs), UntilReturn(cs);
            var p := Through(CountStmts(cs, map[]), cs, n);
            && UntilReturn(o) == |p.out| && |p.out| <= |o| && o[..|p.out|] == p.out
            && (|p.out| < |o| <==> n < |cs|)
  {
    var counts, n := CountStmts(cs, map[]), UntilReturn(cs);
    hide UntilReturn, CountStmts, Advance, NoReturn;
    var p, o := Through(counts, cs, n), OptimizeStatements(cs);
    ThroughShape(counts, cs, n);
    ThroughGrows(counts, cs, n, |cs|);
    if n < |cs| {
      AdvanceShape(counts, p, cs[n]);
      ThroughGrows(counts, cs, n + 1, |cs|);
      var q := Through(counts, cs, n + 1);
      assert q.out == p.out + [cs[n]];
      assert o[|p.out|] == q.out[|p.out|];
    }
    assert o[..|p.out|] == p.out;
    UntilReturnIs(o, |p.out|);
  }

  /** The branch at the end of an optimised block is decided as before. */
  lemma OptimizedExit(b: Block, s: Store, t: Store)
    requires CleanBlock(b) && SameSource(s, t)
    ensures BlockExit(b.(stmts := OptimizeStatements(b.stmts)), t) == BlockExit(b, s)
  {
    var cs := b.stmts;
    var counts, o := CountStmts(cs, map[]), OptimizeStatements(cs);
    if cs != [] {
      var c := cs[|cs| - 1];
      AdvanceShape(counts, Through(counts, cs, |cs| - 1), c);
      assert CleanStmt(c);
      hide CountStmts, Advance, CleanBlock, IsTemp, IsName, OptimizeStatements;
      assert o == Advance(counts, Through(counts, cs, |cs| - 1), c).out by {
        LastAdvance(cs);
      }
      match c
      case If(e, _) => SourceEvaluatesAlike(e, s, t);
      case ConditionalBranch(_, e) => SourceEvaluatesAlike(e, s, t);
      case For(_, _, end, _, _) => SourceEvaluatesAlike(end, s, t);
      case Switchon(e, _, _) => SourceEvaluatesAlike(e, s, t);
      case _ =>
    }
  }

  lemma LastAdvance(cs: seq<Stmt>)
    requires cs != []
    ensures var counts := CountStmts(cs, map[]);
            OptimizeStatements(cs) == Advance(counts, Through(counts, cs, |cs| - 1), cs[|cs| - 1]).out
  {
    hide Advance, CountStmts;
  }

  /** The same place, with the same values of all source variables. */
  ghost predicate Indistinguishable(k: Config, m: Config) {
    SamePlace(k, m) && (!k.Threw? ==> !m.Threw? && SameSource(k.store, m.store))
  }

  lemma VisitKeeps(g: seq<Block>, k: Config, m: Config)
    requires CleanGraph(g) && Indistinguishable(k, m) && (k.At? ==> k.pos == 0)
    ensures Indistinguishable(Visit(g, k), Visit(OptimizeGraph(g), m))
  {
    hide SameSource, UntilReturn, CountStmts, BlockExit, RunStatements, OptimizeStatements, Through, CleanBlock;
    if k.At? && k.block < |g| {
      assert g[k.block] in g;
      BlockKeeps(g[k.block], k.store, m.store);
    }
  }

  /** One block and its optimised form: the same source variables, and the same way out of it. */
  lemma BlockKeeps(b: Block, s: Store, t: Store)
    requires CleanBlock(b) && SameSource(s, t)
    ensures var d := b.(stmts := OptimizeStatements(b.stmts));
            var m, n := UntilReturn(b.stmts), UntilReturn(d.stmts);
            var u, v := RunStatements(b.stmts[..m], s), RunStatements(d.stmts[..n], t);
            && SameSource(u, v) && BlockExit(d, v) == BlockExit(b, u)
            && (n < |d.stmts| <==> m < |b.stmts|)
  {
    hide SameSource, UntilReturn, CountStmts, BlockExit, RunStatements, OptimizeStatements;
    var n, counts := UntilReturn(b.stmts), CountStmts(b.stmts, map[]);
    OptimizedReturn(b.stmts);
    FitFront(counts, b.stmts, n, |b.stmts|);
    ThroughKeeps(counts, b.stmts, n, s, t);
    hide Through, CleanBlock;
    OptimizedExit(b, RunStatements(b.stmts[..n], s), RunStatements(Through(counts, b.stmts, n).out, t));
  }

  lemma {:induction false} VisitsKeep(g: seq<Block>, k: Config, m: Config, n: nat)
    requires CleanGraph(g) && Indistinguishable(k, m) && (k.At? ==> k.pos == 0)
    ensures Indistinguishable(Visits(g, k, n), Visits(OptimizeGraph(g), m, n))
    decreases n
  {
    hide CleanGraph, Indistinguishable, Visit, OptimizeGraph, Run;
    if n > 0 {
      VisitKeeps(g, k, m);
      var i := VisitIsRun(g, k);
      VisitsKeep(g, Visit(g, k), Visit(OptimizeGraph(g), m), n - 1);
    }
  }

  /** When a run of the graph stops, the run of the optimised graph stops in the same way. */
  lemma OptimizedStopsToo(g: seq<Block>, b: nat, s: Store, n: nat) returns (m: nat)
    requires CleanGraph(g) && !Run(g, At(b, 0, s), n).At?
    ensures Indistinguishable(Run(g, At(b, 0, s), n), Run(OptimizeGraph(g), At(b, 0, s), m))
  {
    hide CleanGraph, Visits, OptimizeGraph, Run, SameSource;
    var k := At(b, 0, s);
    assert SameSource(s, s) by {
      SameSourceReflexive(s);
    }
    VisitsKeep(g, k, k, n);
    var i := VisitsAreRuns(g, k, n);
    m := VisitsAreRuns(OptimizeGraph(g), k, n);
    CfgTheorems.StopsOnce(g, k, n, i);
  }

  lemma SameSourceReflexive(s: Store)
    ensures SameSource(s, s)
  {
  }

  /** When a run of the optimised graph stops, the run of the graph stops in the same way. */
  lemma OptimizedStopsOnly(g: seq<Block>, b: nat, s: Store, m: nat) returns (n: nat)
    requires CleanGraph(g) && !Run(OptimizeGraph(g), At(b, 0, s), m).At?
    ensures Indistinguishable(Run(g, At(b, 0, s), n), Run(OptimizeGraph(g), At(b, 0, s), m))
  {
    hide CleanGraph, Visits, OptimizeGraph, Run, SameSource;
    var k := At(b, 0, s);
    SameSourceReflexive(s);
    VisitsKeep(g, k, k, m);
    n := VisitsAreRuns(g, k, m);
    var i := VisitsAreRuns(OptimizeGraph(g), k, m);
    CfgTheorems.StopsOnce(OptimizeGraph(g), k, m, i);
  }

  ghost predicate Reaches(g: seq<Block>, s: Store, x: string, v: Word) {
    exists n: nat :: var k := Run(g, At(0, 0, s), n); k.Done? && Lookup(k.store, x) == v
  }

  /** Elimination keeps meaning: a source variable has the same final value with and without it, and one run
    * goes on for ever exactly when the other does.
    */
  lemma EliminationIsCorrect(g: seq<Block>, s: Store, x: string, v: Word)
    requires CleanGraph(g) && IsSource(x)
    ensures Reaches(g, s, x, v) <==> Reaches(OptimizeGraph(g), s, x, v)
    ensures CfgTheorems.RunsForEver(g, s) <==> CfgTheorems.RunsForEver(OptimizeGraph(g), s)
  {
    hide CleanGraph, OptimizeGraph, Run, IsSource;
    var o := OptimizeGraph(g);
    if Reaches(g, s, x, v) {
      var n: nat :| var k := Run(g, At(0, 0, s), n); k.Done? && Lookup(k.store, x) == v;
      var m := OptimizedStopsToo(g, 0, s, n);
    }
    if Reaches(o, s, x, v) {
      var m: nat :| var k := Run(o, At(0, 0, s), m); k.Done? && Lookup(k.store, x) == v;
      var n := OptimizedStopsOnly(g, 0, s, m);
    }
    if n: nat :| !Run(g, At(0, 0, s), n).At? {
      var m := OptimizedStopsToo(g, 0, s, n);
      assert !Run(o, At(0, 0, s), m).At?;
    }
    if m: nat :| !Run(o, At(0, 0, s), m).At? {
      var n := OptimizedStopsOnly(g, 0, s, m);
      assert !Run(g, At(0, 0, s), n).At?;
    }
  }

  // ----- where the pass is wrong -----

  const NEGATED := Binary(Add, Unary(Negate, Variable("x")), Number(1))
  const INVERTED := Binary(Add, Unary(BitwiseNot, Variable("x")), Number(1))

  lemma OpaqueKeys()
    ensures Key(NEGATED) == Key(INVERTED) && !Occurs(VariableKey("y"), Key(NEGATED))
    ensures forall s :: Eval(NEGATED, s) != Eval(INVERTED, s)
  {
    var y, k := VariableKey("y"), Key(NEGATED);
    var l, r := "(EXPR)", Key(Number(1));
    hide After, IntText, BinaryKey, Header;
    if Occurs(y, k) {
      if After(l, r) {
        OccursInOperand("y", Add, r, l);
      } else {
        OccursInOperand("y", Add, l, r);
      }
      OccursInAtom("y", Unary(Negate, Variable("z")));
      OccursInAtom("y", Number(1));
    }
  }

  /** With opaque parts the pass merges expressions of different value: `z` gets the value meant for `y`. */
  lemma OpaquePartsAreMerged()
    ensures OptimizeStatements([Assign(["y"], [NEGATED]), Assign(["z"], [INVERTED])]) ==
            [Let([TempName(0)], [NEGATED]), Assign(["y"], [Variable(TempName(0))]), Assign(["z"], [Variable(TempName(0))])]
    ensures forall s :: Eval(NEGATED, s) != Eval(INVERTED, s)
  {
    OpaqueKeys();
    hide Key, VariableKey, TempName, Occurs, Eval;
    var cs := [Assign(["y"], [NEGATED]), Assign(["z"], [INVERTED])];
    var counts := CountStmts(cs, map[]);
    var k := Key(NEGATED);
    assert counts[k] == 2 by {
      OpaqueCounts();
    }
    var t := Variable(TempName(0));
    var p := Through(counts, cs, 0);
    var h := HoistAll(counts, [NEGATED], 1, p);
    assert h == HoistOne(counts, NEGATED, HoistAll(counts, [NEGATED], 0, p));
    assert h == Progress(p.out + [Let([TempName(0)], [NEGATED])], p.available[k := TempName(0)], 1);
    assert ReplaceAll(counts, [NEGATED], 1, p) == [] + [Replaced(counts, NEGATED, p)] == [t];
    var q := Through(counts, cs, 1);
    assert InvalidateAll(h.available, ["y"], 1) == map[k := TempName(0)];
    assert q == Progress([Let([TempName(0)], [NEGATED]), Assign(["y"], [t])], map[k := TempName(0)], 1);
    assert HoistAll(counts, [INVERTED], 1, q) == HoistOne(counts, INVERTED, q) == q;
    assert ReplaceAll(counts, [INVERTED], 1, q) == [] + [Replaced(counts, INVERTED, q)] == [t];
    assert Through(counts, cs, 2).out == q.out + [Assign(["z"], [t])];
  }

  lemma OpaqueCounts()
    ensures var counts := CountStmts([Assign(["y"], [NEGATED]), Assign(["z"], [INVERTED])], map[]);
            Key(NEGATED) in counts && counts[Key(NEGATED)] == 2
  {
    OpaqueKeys();
    hide Key, Occurs, Eval;
    var a, b := Assign(["y"], [NEGATED]), Assign(["z"], [INVERTED]);
    var k, one := Key(NEGATED), CountExpr(NEGATED, map[]);
    assert one == Bump(map[], k) && CountExpr(INVERTED, one) == Bump(one, k);
    assert CountExprs([NEGATED], map[]) == CountExprs([], one);
    assert CountExprs([INVERTED], one) == CountExprs([], Bump(one, k));
    assert [a, b][1..] == [b];
    assert CountStmts([a, b], map[]) == CountStmts([b], one) == CountStmts([], Bump(one, k));
  }

  // ----- a condition on the expressions alone -----

  /** What is hoisted in a block has no unary or conditional parts. */
  predicate HoistsTransparent(counts: Counts, cs: seq<Stmt>) {
    forall c, e :: c in cs && c.Assign? && e in c.values && Hoistable(e, counts) ==> Transparent(e)
  }

  /** Everything available is held, and its key says everything. */
  ghost predicate AllHeld(a: Available, held: Held) {
    forall k :: k in a ==> k in held && Key(held[k]) == k && SourceOnly(held[k]) && Transparent(held[k])
  }

  lemma NamedSource(e: Expr)
    requires SourceOnly(e)
    ensures Named(e)
  {
  }

  lemma HeldIsFit(e: Expr, p: Progress, held: Held)
    requires AllHeld(p.available, held) && SourceOnly(e)
    ensures FitOne(e, p, held)
  {
    hide SourceOnly, Transparent, Key, SameUpToOrder;
    if Key(e) in p.available {
      NamedSource(e);
      NamedSource(held[Key(e)]);
      KeyIsFaithful(held[Key(e)], e);
    }
  }

  lemma {:induction false} AllHeldAreFit(counts: Counts, es: seq<Expr>, n: nat, p: Progress, held: Held)
    requires n <= |es| && AllHeld(p.available, held)
    requires forall e :: e in es ==> SourceOnly(e) && (Hoistable(e, counts) ==> Transparent(e))
    ensures FitAll(counts, es, n, p, held)
    ensures AllHeld(HoistAll(counts, es, n, p).available, HoldAll(counts, es, n, p, held))
  {
    hide FitOne, SourceOnly, Transparent, Key, Hoistable, TempName;
    if n > 0 {
      AllHeldAreFit(counts, es, n - 1, p, held);
      assert es[n - 1] in es;
      HeldIsFit(es[n - 1], HoistAll(counts, es, n - 1, p), HoldAll(counts, es, n - 1, p, held));
    }
  }

  /** The text of a transparent key names every variable, so what has become stale is no longer available. */
  lemma NothingStale(a: Available, held: Held, xs: seq<string>)
    requires AllHeld(a, held) && forall x :: x in xs ==> IsSource(x)
    ensures var r := InvalidateAll(a, xs, |xs|); AllHeld(r, StillHeld(held, r, xs))
  {
    hide SourceOnly, Transparent, Key, Occurs, VariableKey;
    Survivors(a, xs, |xs|);
    var r := InvalidateAll(a, xs, |xs|);
    forall k | k in r
      ensures k in held && forall x :: x in xs ==> x !in Vars(held[k])
    {
      forall x | x in xs
        ensures x !in Vars(held[k])
      {
        var i :| 0 <= i < |xs| && xs[i] == x;
        NamedSource(held[k]);
        OccursExactly(x, held[k]);
      }
    }
  }

  lemma {:induction false} TransparentIsFit(counts: Counts, cs: seq<Stmt>, n: nat)
    requires n <= |cs| && (forall c :: c in cs ==> CleanStmt(c)) && HoistsTransparent(counts, cs)
    ensures FitThrough(counts, cs, n) && AllHeld(Through(counts, cs, n).available, HeldThrough(counts, cs, n))
  {
    hide SourceOnly, Transparent, Hoistable, IsSource, FitAll, AllHeld, HoistAll, HoldAll, InvalidateAll, StillHeld;
    if n > 0 {
      TransparentIsFit(counts, cs, n - 1);
      var c := cs[n - 1];
      assert c in cs;
      if c.Assign? {
        var p, held := Through(counts, cs, n - 1), HeldThrough(counts, cs, n - 1);
        AllHeldAreFit(counts, c.values, |c.values|, p, held);
        NothingStale(HoistAll(counts, c.values, |c.values|, p).available, HoldAll(counts, c.values, |c.values|, p, held), c.targets);
      }
    } else {
      NothingHeld();
    }
  }

  lemma NothingHeld()
    ensures AllHeld(map[], map[])
  {
  }
}
