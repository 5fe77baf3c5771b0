/** The brackets the printer writes are needed: without them no text is read as the expression. */
module ExpressionBrackets {
  import opened ExpressionSyntax

  /** The operand an expression begins with. */
  function ParseFirst(ts: seq<Token>): Parsed
    requires ts != []
  {
    var u := PrefixOf(ts[0]);
    if u.IsPrefix? then
      var e := ParseExpression(8, ts[1..]);
      if e.Ok? then Ok(PrefixOp(u.prefix, e.tree), e.rest) else Fail
    else ParsePrimary(ts)
  }

  /** What has been read, and what is left, after `n` operators behind `left`. */
  function AfterOperators(level: nat, left: Syntax, ts: seq<Token>, n: nat): Parsed
    decreases n
  {
    if n == 0 then Ok(left, ts)
    else if Following(ts) <= level then Fail
    else
      var next := ParseOperator(left, ts[0], ts[1..]);
      if next.Ok? then AfterOperators(level, next.tree, next.rest, n - 1) else Fail
  }

  /** Reading a text at a level, the parser has at some point read `e` and has `rest` before it. */
  ghost predicate ReadsAs(level: nat, ts: seq<Token>, e: Syntax, rest: seq<Token>) {
    && ts != [] && ParseFirst(ts).Ok?
    && exists n: nat :: AfterOperators(level, ParseFirst(ts).tree, ParseFirst(ts).rest, n) == Ok(e, rest)
  }

  lemma {:induction false} OperatorsPass(level: nat, left: Syntax, ts: seq<Token>) returns (n: nat)
    requires ParseOperators(level, left, ts).Ok?
    ensures AfterOperators(level, left, ts, n) == ParseOperators(level, left, ts)
    decreases |ts|
  {
    hide ParseOperator;
    if Following(ts) <= level {
      n := 0;
    } else {
      var next := ParseOperator(left, ts[0], ts[1..]);
      var m := OperatorsPass(level, next.tree, next.rest);
      n := m + 1;
    }
  }

  /** Whatever is parsed has been read. */
  lemma ParsedIsRead(level: nat, ts: seq<Token>)
    requires ParseExpression(level, ts).Ok?
    ensures var r := ParseExpression(level, ts); ReadsAs(level, ts, r.tree, r.rest)
  {
    hide ParseOperators, ParsePrimary, AfterOperators;
    var first := ParseFirst(ts);
    var n := OperatorsPass(level, first.tree, first.rest);
    assert AfterOperators(level, first.tree, first.rest, n) == ParseExpression(level, ts);
  }

  /** An expression is parsed as far as its operators bind more strongly than the level. */
  lemma {:induction false} OperatorsStop(level: nat, left: Syntax, ts: seq<Token>)
    ensures var r := ParseOperators(level, left, ts); r.Ok? ==> Following(r.rest) <= level
    decreases |ts|
  {
    hide ParseOperator;
    if Following(ts) > level {
      var next := ParseOperator(left, ts[0], ts[1..]);
      if next.Ok? {
        OperatorsStop(level, next.tree, next.rest);
      }
    }
  }

  lemma ExpressionStops(level: nat, ts: seq<Token>)
    ensures var r := ParseExpression(level, ts); r.Ok? ==> Following(r.rest) <= level
  {
    hide ParseOperators, ParsePrimary;
    if ts != [] && ParseFirst(ts).Ok? {
      OperatorsStop(level, ParseFirst(ts).tree, ParseFirst(ts).rest);
    }
  }

  /** What an operator builds needs no brackets where it was read. */
  lemma OperatorNeedsNone(level: nat, left: Syntax, t: Token, ts: seq<Token>)
    requires Precedence(t) > level
    ensures var r := ParseOperator(left, t, ts); r.Ok? ==> !NeedsBrackets(r.tree, level, Following(r.rest))
  {
    hide ParseExpression, ParseMembers;
    match t
    case ConditionalToken =>
      var a := ParseExpression(0, ts);
      if a.Ok? && Starts(a.rest, Comma) {
        ExpressionStops(1, a.rest[1..]);
      }
    case OperatorToken(op) => ExpressionStops(OperatorPrecedence(op), ts);
    case _ =>
  }

  /** The first operand needs none either, unless it stands in brackets. */
  lemma FirstNeedsNone(level: nat, ts: seq<Token>)
    requires ts != []
    ensures var r := ParseFirst(ts);
            r.Ok? && NeedsBrackets(r.tree, level, Following(r.rest)) ==> ts[0] == LParen && ParsePrimary(ts) == r
  {
    hide ParseExpression, ParseMembers;
    if PrefixOf(ts[0]).IsPrefix? {
      ExpressionStops(8, ts[1..]);
    }
  }

  lemma {:induction false} LaterNeedNone(level: nat, left: Syntax, ts: seq<Token>, n: nat)
    requires n > 0
    ensures var r := AfterOperators(level, left, ts, n); r.Ok? ==> !NeedsBrackets(r.tree, level, Following(r.rest))
    decreases n
  {
    hide ParseOperator, NeedsBrackets;
    if Following(ts) > level {
      OperatorNeedsNone(level, left, ts[0], ts[1..]);
      var next := ParseOperator(left, ts[0], ts[1..]);
      if next.Ok? && n > 1 {
        LaterNeedNone(level, next.tree, next.rest, n - 1);
      }
    }
  }

  /** Where the printer puts brackets round an expression, any text that is read as it, before a token that binds as
    * strongly, has brackets round the whole of it.
    */
  lemma BracketsAreNeeded(level: nat, ts: seq<Token>, e: Syntax, rest: seq<Token>)
    requires ReadsAs(level, ts, e, rest) && NeedsBrackets(e, level, Following(rest))
    ensures ts[0] == LParen && ParsePrimary(ts) == Ok(e, rest)
  {
    hide ParseFirst, ParsePrimary, NeedsBrackets;
    var first := ParseFirst(ts);
    var n: nat :| AfterOperators(level, first.tree, first.rest, n) == Ok(e, rest);
    if n > 0 {
      LaterNeedNone(level, first.tree, first.rest, n);
    } else {
      FirstNeedsNone(level, ts);
    }
  }
}
