/** What the statements of a block read and define, one after another in the order of the source. */
module BlockEvents {
  import opened Ast

  datatype Event = Use(name: string) | Def(name: string)

  function ReadBy(e: Expr): seq<Event> {
    match e
    case Variable(x) => [Use(x)]
    case Unary(_, a) => ReadBy(a)
    case Binary(_, a, b) => ReadBy(a) + ReadBy(b)
    case Conditional(c, t, f) => ReadBy(c) + ReadBy(t) + ReadBy(f)
    case _ => []
  }

  function ReadByAll(es: seq<Expr>): seq<Event> {
    if es == [] then [] else ReadBy(es[0]) + ReadByAll(es[1..])
  }

  function Defines(xs: seq<string>): seq<Event> {
    if xs == [] then [] else [Def(xs[0])] + Defines(xs[1..])
  }

  /** Nested statements count as if they were in the block itself: of a FOR first the start, then the end, the step and
    * the body; of a SWITCHON first the selector, then the cases and the default. A LET is passed over.
    */
  function EventsOf(c: Stmt): seq<Event>
    decreases c, 1
  {
    match c
    case Assign(xs, es) => ReadByAll(es) + Defines(xs)
    case If(e, t) => ReadBy(e) + EventsOf(t)
    case For(_, start, end, step, body) =>
      ReadBy(start) + ReadBy(end) + (if step.Some? then ReadBy(step.value) else []) + EventsOf(body)
    case Switchon(e, cases, d) => ReadBy(e) + EventsOfCases(cases) + if d.Some? then EventsOf(d.value) else []
    case Compound(cs) => EventsOfAll(cs)
    case ConditionalBranch(_, e) => ReadBy(e)
    case _ => []
  }

  function EventsOfAll(cs: seq<Stmt>): seq<Event>
    decreases cs, 0
  {
    if cs == [] then [] else EventsOf(cs[0]) + EventsOfAll(cs[1..])
  }

  function EventsOfCases(cases: seq<Case>): seq<Event>
    decreases cases, 0
  {
    if cases == [] then []
    else
      assert cases[0] in cases && cases[0].command < cases[0];
      EventsOf(cases[0].command) + EventsOfCases(cases[1..])
  }

  /** The variable is read before any definition of it. */
  predicate Exposed(es: seq<Event>, v: string) {
    exists i :: 0 <= i < |es| && es[i] == Use(v) && Def(v) !in es[..i]
  }

  lemma ExposedJoin(a: seq<Event>, b: seq<Event>, v: string)
    ensures Exposed(a + b, v) <==> Exposed(a, v) || (Def(v) !in a && Exposed(b, v))
    ensures Def(v) in a + b <==> Def(v) in a || Def(v) in b
  {
    var all := a + b;
    if Exposed(a, v) {
      var i :| 0 <= i < |a| && a[i] == Use(v) && Def(v) !in a[..i];
      assert all[i] == Use(v) && all[..i] == a[..i];
    }
    if Def(v) !in a && Exposed(b, v) {
      var i :| 0 <= i < |b| && b[i] == Use(v) && Def(v) !in b[..i];
      assert all[|a| + i] == Use(v) && all[..|a| + i] == a + b[..i];
    }
    if Exposed(all, v) {
      var i :| 0 <= i < |all| && all[i] == Use(v) && Def(v) !in all[..i];
      if i < |a| {
        assert a[i] == Use(v) && a[..i] == all[..i];
      } else {
        assert b[i - |a|] == Use(v) && all[..i] == a + b[..i - |a|];
      }
    }
  }

  lemma ExposedNothing(v: string)
    ensures !Exposed([], v)
  {
  }

  lemma OneRead(x: string, v: string)
    ensures Exposed([Use(x)], v) <==> v == x
  {
    assert [Use(x)][0] == Use(x) && Def(v) !in [Use(x)][..0];
  }

  lemma OneDefinition(x: string, v: string)
    ensures !Exposed([Def(x)], v)
  {
  }

  /** Reading alone defines nothing. */
  lemma {:induction false} ReadingDefinesNothing(e: Expr, v: string)
    ensures Def(v) !in ReadBy(e)
  {
    match e
    case Unary(_, a) => ReadingDefinesNothing(a, v);
    case Binary(_, a, b) =>
      ReadingDefinesNothing(a, v);
      ReadingDefinesNothing(b, v);
    case Conditional(c, t, f) =>
      ReadingDefinesNothing(c, v);
      ReadingDefinesNothing(t, v);
      ReadingDefinesNothing(f, v);
    case _ =>
  }
}
