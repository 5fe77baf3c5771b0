/** What elimination changes in a block: exactly the right-hand sides that occur more than once. */
module LocalCseEffect {
  import opened Ast
  import opened CseKey
  import opened LocalCse

  // ----- occurrences -----

  /** The binary expressions in an expression, from the outside in; those in a conditional expression do not count. */
  function BinariesOf(e: Expr): seq<Expr> {
    match e
    case Binary(_, a, b) => [e] + BinariesOf(a) + BinariesOf(b)
    case Unary(_, a) => BinariesOf(a)
    case _ => []
  }

  function BinariesOfAll(es: seq<Expr>): seq<Expr> {
    if es == [] then [] else BinariesOf(es[0]) + BinariesOfAll(es[1..])
  }

  function BinariesIn(c: Stmt): seq<Expr>
    decreases c, 1
  {
    match c
    case Assign(_, es) => BinariesOfAll(es)
    case Let(_, es) => BinariesOfAll(es)
    case If(e, t) => BinariesOf(e) + BinariesIn(t)
    case Compound(cs) => BinariesInAll(cs)
    case _ => []
  }

  function BinariesInAll(cs: seq<Stmt>): seq<Expr>
    decreases cs, 0
  {
    if cs == [] then [] else BinariesIn(cs[0]) + BinariesInAll(cs[1..])
  }

  /** How many of the expressions have the key. */
  function Tally(es: seq<Expr>, k: string): nat {
    if es == [] then 0 else (if Key(es[0]) == k then 1 else 0) + Tally(es[1..], k)
  }

  lemma {:induction false} TallyJoin(a: seq<Expr>, b: seq<Expr>, k: string)
    ensures Tally(a + b, k) == Tally(a, k) + Tally(b, k)
  {
    if a == [] {
      assert [] + b == b;
    } else {
      assert (a + b)[1..] == a[1..] + b;
      TallyJoin(a[1..], b, k);
    }
  }

  function CountOf(counts: Counts, k: string): nat {
    if k in counts then counts[k] else 0
  }

  lemma {:induction false} ExprCounts(e: Expr, counts: Counts, k: string)
    ensures CountOf(CountExpr(e, counts), k) == CountOf(counts, k) + Tally(BinariesOf(e), k)
  {
    hide Key;
    match e
    case Binary(_, a, b) =>
      var bumped := Bump(counts, Key(e));
      ExprCounts(a, bumped, k);
      ExprCounts(b, CountExpr(a, bumped), k);
      TallyJoin([e] + BinariesOf(a), BinariesOf(b), k);
      TallyJoin([e], BinariesOf(a), k);
      assert Tally([e], k) == if Key(e) == k then 1 else 0;
    case Unary(_, a) => ExprCounts(a, counts, k);
    case _ =>
  }

  lemma {:induction false} ExprsCount(es: seq<Expr>, counts: Counts, k: string)
    ensures CountOf(CountExprs(es, counts), k) == CountOf(counts, k) + Tally(BinariesOfAll(es), k)
  {
    hide Key, CountExpr, BinariesOf;
    if es != [] {
      ExprCounts(es[0], counts, k);
      ExprsCount(es[1..], CountExpr(es[0], counts), k);
      TallyJoin(BinariesOf(es[0]), BinariesOfAll(es[1..]), k);
    }
  }

  lemma {:induction false} StmtCounts(c: Stmt, counts: Counts, k: string)
    ensures CountOf(CountStmt(c, counts), k) == CountOf(counts, k) + Tally(BinariesIn(c), k)
    decreases c, 1
  {
    hide Key, CountExpr, BinariesOf;
    match c
    case Assign(_, es) => ExprsCount(es, counts, k);
    case Let(_, es) => ExprsCount(es, counts, k);
    case If(e, t) =>
      ExprCounts(e, counts, k);
      StmtCounts(t, CountExpr(e, counts), k);
      TallyJoin(BinariesOf(e), BinariesIn(t), k);
    case Compound(cs) => StmtsCount(cs, counts, k);
    case _ =>
  }

  /** What has been counted is how often the key occurs. */
  lemma {:induction false} StmtsCount(cs: seq<Stmt>, counts: Counts, k: string)
    ensures CountOf(CountStmts(cs, counts), k) == CountOf(counts, k) + Tally(BinariesInAll(cs), k)
    decreases cs, 0
  {
    hide Key;
    if cs != [] {
      StmtCounts(cs[0], counts, k);
      StmtsCount(cs[1..], CountStmt(cs[0], counts), k);
      TallyJoin(BinariesIn(cs[0]), BinariesInAll(cs[1..]), k);
    }
  }

  /** The block holds the expression, or one with the same key, at least twice. */
  predicate Repeated(cs: seq<Stmt>, e: Expr) {
    e.Binary? && Tally(BinariesInAll(cs), Key(e)) >= 2
  }

  lemma HoistableExactly(cs: seq<Stmt>, e: Expr)
    ensures Hoistable(e, CountStmts(cs, map[])) <==> Repeated(cs, e)
  {
    StmtsCount(cs, map[], Key(e));
    hide Key, CountStmts, BinariesInAll;
  }

  // ----- what is replaced -----

  /** No right-hand side of an assignment is repeated. */
  predicate NothingRepeated(all: seq<Stmt>, cs: seq<Stmt>) {
    forall c :: c in cs && c.Assign? ==> forall e :: e in c.values ==> !Repeated(all, e)
  }

  predicate NoneHoistable(counts: Counts, es: seq<Expr>) {
    forall e :: e in es ==> !Hoistable(e, counts)
  }

  /** Every temporary comes with one statement more, and without temporaries nothing is available. */
  ghost predicate Matched(p: Progress, n: nat) {
    |p.out| == n + p.temps && (p.temps == 0 ==> p.available == map[])
  }

  lemma {:induction false} HoistAllMatches(counts: Counts, es: seq<Expr>, n: nat, p: Progress, m: nat)
    requires n <= |es| && Matched(p, m)
    ensures Matched(HoistAll(counts, es, n, p), m) && p.temps <= HoistAll(counts, es, n, p).temps
    ensures HoistAll(counts, es, n, p).temps == 0 ==> NoneHoistable(counts, es[..n])
    ensures p.temps == 0 && NoneHoistable(counts, es[..n]) ==> HoistAll(counts, es, n, p) == p
  {
    hide Key;
    if n > 0 {
      HoistAllMatches(counts, es, n - 1, p, m);
      assert es[..n] == es[..n - 1] + [es[n - 1]];
    }
  }

  lemma {:induction false} NothingReplaced(counts: Counts, es: seq<Expr>, n: nat, p: Progress, m: nat)
    requires n <= |es| && Matched(p, m) && p.temps == 0 && NoneHoistable(counts, es[..n])
    ensures ReplaceAll(counts, es, n, p) == es[..n]
  {
    hide Key;
    if n > 0 {
      assert es[..n] == es[..n - 1] + [es[n - 1]];
      NothingReplaced(counts, es, n - 1, p, m);
      HoistAllMatches(counts, es, n - 1, p, m);
    }
  }

  lemma {:induction false} InvalidateNothing(xs: seq<string>, n: nat)
    requires n <= |xs|
    ensures InvalidateAll(map[], xs, n) == map[]
  {
    if n > 0 {
      InvalidateNothing(xs, n - 1);
    }
  }

  lemma {:induction false} AdvanceMatches(counts: Counts, p: Progress, c: Stmt, n: nat)
    requires Matched(p, n)
    ensures var r := Advance(counts, p, c);
            && Matched(r, n + 1) && p.temps <= r.temps
            && (r.temps == 0 <==> p.temps == 0 && (c.Assign? ==> NoneHoistable(counts, c.values)))
            && (r.temps == 0 ==> r.out == p.out + [c])
  {
    hide Key, HoistAll, ReplaceAll, Invalidate;
    if c.Assign? {
      var k := |c.values|;
      assert c.values[..k] == c.values;
      HoistAllMatches(counts, c.values, k, p, n);
      if p.temps == 0 && NoneHoistable(counts, c.values) {
        NothingReplaced(counts, c.values, k, p, n);
        InvalidateNothing(c.targets, |c.targets|);
      } else if HoistAll(counts, c.values, k, p).temps == 0 {
        assert false;
      }
    }
  }

  lemma {:induction false} ThroughMatches(counts: Counts, cs: seq<Stmt>, n: nat)
    requires n <= |cs|
    ensures var p := Through(counts, cs, n);
            && Matched(p, n)
            && (p.temps == 0 <==> forall c :: c in cs[..n] && c.Assign? ==> NoneHoistable(counts, c.values))
            && (p.temps == 0 ==> p.out == cs[..n])
  {
    hide Advance, NoneHoistable;
    if n > 0 {
      assert cs[..n] == cs[..n - 1] + [cs[n - 1]];
      ThroughMatches(counts, cs, n - 1);
      AdvanceMatches(counts, Through(counts, cs, n - 1), cs[n - 1], n - 1);
    }
  }

  /** A block stays as it is exactly when no right-hand side of an assignment occurs in it twice. */
  lemma UnchangedExactly(cs: seq<Stmt>)
    ensures OptimizeStatements(cs) == cs <==> NothingRepeated(cs, cs)
  {
    hide Through, Hoistable, Repeated, CountStmts;
    var counts := CountStmts(cs, map[]);
    ThroughMatches(counts, cs, |cs|);
    assert cs[..|cs|] == cs;
    forall e
      ensures Hoistable(e, counts) <==> Repeated(cs, e)
    {
      HoistableExactly(cs, e);
    }
    assert NothingRepeated(cs, cs) <==> forall c :: c in cs && c.Assign? ==> NoneHoistable(counts, c.values);
  }

  lemma {:induction false} ReplacedAreFew(counts: Counts, es: seq<Expr>, n: nat, p: Progress)
    requires n <= |es|
    ensures NoneHoistable(counts, ReplaceAll(counts, es, n, p))
  {
    hide Key;
    if n > 0 {
      ReplacedAreFew(counts, es, n - 1, p);
    }
  }

  /** No assignment of the statements has a right-hand side to take out. */
  ghost predicate FewIn(counts: Counts, cs: seq<Stmt>) {
    forall c :: c in cs && c.Assign? ==> NoneHoistable(counts, c.values)
  }

  lemma AdvanceLeavesFew(counts: Counts, p: Progress, c: Stmt)
    requires FewIn(counts, p.out)
    ensures FewIn(counts, Advance(counts, p, c).out)
  {
    hide ReplaceAll, NoneHoistable, InvalidateAll, HoistAll, Hoistable, Key;
    if c.Assign? {
      HoistsAreDeclared(counts, c.values, |c.values|, p);
      ReplacedAreFew(counts, c.values, |c.values|, p);
    }
  }

  lemma {:induction false} FewAreLeft(counts: Counts, cs: seq<Stmt>, n: nat)
    requires n <= |cs|
    ensures FewIn(counts, Through(counts, cs, n).out)
  {
    hide Advance, NoneHoistable;
    if n > 0 {
      FewAreLeft(counts, cs, n - 1);
      AdvanceLeavesFew(counts, Through(counts, cs, n - 1), cs[n - 1]);
    }
  }

  lemma {:induction false} HoistsAreDeclared(counts: Counts, es: seq<Expr>, n: nat, p: Progress)
    requires n <= |es|
    ensures forall c :: c in HoistAll(counts, es, n, p).out ==> c in p.out || c.Let?
  {
    hide Key, Hoistable;
    if n > 0 {
      HoistsAreDeclared(counts, es, n - 1, p);
    }
  }

  /** After elimination no assignment computes a right-hand side that the block held twice; it reads a temporary. */
  lemma NoRepeatIsLeft(cs: seq<Stmt>)
    ensures forall c :: c in OptimizeStatements(cs) && c.Assign? ==> forall e :: e in c.values ==> !Repeated(cs, e)
  {
    hide Through, Hoistable, Repeated, CountStmts;
    var counts := CountStmts(cs, map[]);
    FewAreLeft(counts, cs, |cs|);
    forall c, e | c in OptimizeStatements(cs) && c.Assign? && e in c.values
      ensures !Repeated(cs, e)
    {
      HoistableExactly(cs, e);
      assert NoneHoistable(counts, c.values);
    }
  }

  // ----- the smallest case -----

  /** Two assignments of one expression: it is computed once, unless its key mentions the variable assigned in between. */
  lemma SecondReadsTheTemporary(x: string, y: string, e: Expr)
    requires e.Binary?
    ensures var t, u := TempName(0), TempName(1);
            OptimizeStatements([Assign([x], [e]), Assign([y], [e])]) ==
              if Occurs(VariableKey(x), Key(e))
              then [Let([t], [e]), Assign([x], [Variable(t)]), Let([u], [e]), Assign([y], [Variable(u)])]
              else [Let([t], [e]), Assign([x], [Variable(t)]), Assign([y], [Variable(t)])]
  {
    hide Key, Occurs, VariableKey, CountStmts, Hoistable, Repeated, TempName, Through;
    var a, b := Assign([x], [e]), Assign([y], [e]);
    var cs := [a, b];
    var counts := CountStmts(cs, map[]);
    Twice(x, y, e);
    HoistableExactly(cs, e);
    var p := FirstTurn(counts, x, e);
    SecondTurn(counts, p, y, e);
    TwoTurns(counts, a, b);
    hide Advance;
    assert OptimizeStatements(cs) == Advance(counts, p, b).out;
  }

  lemma TwoTurns(counts: Counts, a: Stmt, b: Stmt)
    ensures Through(counts, [a, b], 2) == Advance(counts, Advance(counts, Progress([], map[], 0), a), b)
  {
    hide Advance;
    var cs := [a, b];
    assert Through(counts, cs, 0) == Progress([], map[], 0);
    assert Through(counts, cs, 1) == Advance(counts, Through(counts, cs, 0), a);
  }

  lemma SecondTurn(counts: Counts, p: Progress, y: string, e: Expr)
    requires Hoistable(e, counts)
    ensures Advance(counts, p, Assign([y], [e])).out ==
              if Key(e) in p.available then p.out + [Assign([y], [Variable(p.available[Key(e)])])]
              else p.out + [Let([TempName(p.temps)], [e])] + [Assign([y], [Variable(TempName(p.temps))])]
  {
    OneAssignment(counts, p, y, e);
    hide Key, Hoistable, TempName, Advance, Invalidate;
  }

  lemma OneAssignment(counts: Counts, p: Progress, x: string, e: Expr)
    ensures Advance(counts, p, Assign([x], [e])) ==
            Progress(HoistOne(counts, e, p).out + [Assign([x], [Replaced(counts, e, p)])],
                     Invalidate(HoistOne(counts, e, p).available, x), HoistOne(counts, e, p).temps)
  {
    hide HoistOne, Replaced, Invalidate;
    var es, xs := [e], [x];
    assert HoistAll(counts, es, 0, p) == p && ReplaceAll(counts, es, 0, p) == [];
    assert HoistAll(counts, es, 1, p) == HoistOne(counts, e, p);
    assert ReplaceAll(counts, es, 1, p) == [Replaced(counts, e, p)];
    var a := HoistOne(counts, e, p).available;
    assert InvalidateAll(a, xs, 0) == a;
    assert InvalidateAll(a, xs, 1) == Invalidate(a, x);
  }

  lemma FirstTurn(counts: Counts, x: string, e: Expr) returns (p: Progress)
    requires Hoistable(e, counts)
    ensures p == Advance(counts, Progress([], map[], 0), Assign([x], [e]))
    ensures p.out == [Let([TempName(0)], [e]), Assign([x], [Variable(TempName(0))])] && p.temps == 1
    ensures Key(e) in p.available <==> !Occurs(VariableKey(x), Key(e))
    ensures Key(e) in p.available ==> p.available[Key(e)] == TempName(0)
  {
    hide Key, Occurs, Hoistable, TempName;
    p := Advance(counts, Progress([], map[], 0), Assign([x], [e]));
    OneAssignment(counts, Progress([], map[], 0), x, e);
  }

  lemma Twice(x: string, y: string, e: Expr)
    requires e.Binary?
    ensures Repeated([Assign([x], [e]), Assign([y], [e])], e)
  {
    var a, b := Assign([x], [e]), Assign([y], [e]);
    var rest := BinariesOf(e.left) + BinariesOf(e.right);
    assert BinariesOf(e) == [e] + rest;
    hide BinariesOf, Key;
    assert BinariesOfAll([e]) == BinariesOf(e) + BinariesOfAll([]);
    assert BinariesIn(a) == BinariesOf(e) && BinariesIn(b) == BinariesOf(e);
    assert [a, b][1..] == [b] && [b][1..] == [];
    assert BinariesInAll([b]) == BinariesIn(b) + BinariesInAll([]);
    assert BinariesInAll([a, b]) == BinariesIn(a) + BinariesInAll([b]);
    TallyJoin(BinariesOf(e), BinariesOf(e), Key(e));
    assert BinariesInAll([a, b]) == BinariesOf(e) + BinariesOf(e);
    assert Tally(BinariesOf(e), Key(e)) >= 1;
  }
}
