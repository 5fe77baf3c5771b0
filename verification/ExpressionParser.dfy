/** The expression parser as it works, moving a cursor over the tokens. */
module ExpressionParser {
  import opened Wrappers
  import opened ExpressionSyntax

  class Parser {
    const tokens: seq<Token>
    var cursor: nat

    constructor (tokens: seq<Token>)
      ensures this.tokens == tokens && cursor == 0
    {
      this.tokens := tokens;
      cursor := 0;
    }

    predicate Valid()
      reads this`cursor
    {
      cursor <= |tokens|
    }

    function Remaining(): (r: seq<Token>)
      requires Valid()
      reads this`cursor
      ensures |r| == |tokens| - cursor
    {
      tokens[cursor..]
    }

    /** The outcome of a parse: the tree with the cursor behind it, or an error. */
    predicate Yields(r: Option<Syntax>, p: Parsed)
      requires Valid()
      reads this`cursor
    {
      if p.Ok? then r == Some(p.tree) && Remaining() == p.rest else r == None
    }

    predicate YieldsList(r: Option<seq<Syntax>>, p: ParsedList)
      requires Valid()
      reads this`cursor
    {
      if p.OkList? then r == Some(p.trees) && Remaining() == p.rest else r == None
    }

    predicate Check(t: Token)
      requires Valid()
      reads this`cursor
    {
      cursor < |tokens| && tokens[cursor] == t
    }

    method Advance()
      requires Valid() && cursor < |tokens|
      modifies this`cursor
      ensures cursor == old(cursor) + 1 && Valid() && Remaining() == old(Remaining())[1..]
    {
      cursor := cursor + 1;
    }

    method Match(t: Token) returns (found: bool)
      requires Valid()
      modifies this`cursor
      ensures Valid() && found == Starts(old(Remaining()), t)
      ensures Remaining() == if found then old(Remaining())[1..] else old(Remaining())
      ensures cursor == old(cursor) + if found then 1 else 0
    {
      found := Check(t);
      if found {
        Advance();
      }
    }

    method ParseExpr(level: nat) returns (r: Option<Syntax>)
      requires Valid()
      modifies this`cursor
      ensures Valid() && cursor >= old(cursor) && Yields(r, ParseExpression(level, old(Remaining())))
      decreases |tokens| - cursor, 2
    {
      hide ParsePrimary, ParseOperator, ParseOperators;
      if cursor == |tokens| {
        return None;
      }
      ghost var start := Remaining();
      var u := PrefixOf(tokens[cursor]);
      var left: Option<Syntax>;
      if u.IsPrefix? {
        Advance();
        left := ParseExpr(8);
        if left.Some? {
          left := Some(PrefixOp(u.prefix, left.value));
        }
      } else {
        left := ParsePrimaryExpr();
      }
      if left.None? {
        return None;
      }
      assert |Remaining()| < |start|;
      r := ParseInfix(level, left.value);
    }

    /** The loop over the operators behind an expression. */
    method ParseInfix(level: nat, first: Syntax) returns (r: Option<Syntax>)
      requires Valid()
      modifies this`cursor
      ensures Valid() && cursor >= old(cursor) && Yields(r, ParseOperators(level, first, old(Remaining())))
      decreases |tokens| - cursor, 3
    {
      hide ParseOperator;
      var left := first;
      while cursor < |tokens| && Precedence(tokens[cursor]) > level
        invariant Valid() && cursor >= old(cursor)
        invariant ParseOperators(level, left, Remaining()) == ParseOperators(level, first, old(Remaining()))
        decreases |tokens| - cursor
      {
        var t := tokens[cursor];
        ghost var here := Remaining();
        Advance();
        var next := ParseOneOperator(left, t);
        assert here[0] == t;
        if next.None? {
          return None;
        }
        left := next.value;
      }
      r := Some(left);
    }

    /** An expression and the token that must close it. */
    method ParseUpTo(level: nat, t: Token) returns (r: Option<Syntax>)
      requires Valid()
      modifies this`cursor
      ensures Valid() && cursor >= old(cursor)
      ensures var p := ParseExpression(level, old(Remaining()));
              if p.Ok? && Starts(p.rest, t) then r == Some(p.tree) && Remaining() == p.rest[1..] else r == None
      decreases |tokens| - cursor, 3
    {
      hide ParseExpression;
      r := ParseExpr(level);
      if r.Some? {
        var found := Match(t);
        if !found {
          r := None;
        }
      }
    }

    method ParseOneOperator(left: Syntax, t: Token) returns (r: Option<Syntax>)
      requires Valid()
      modifies this`cursor
      ensures Valid() && cursor >= old(cursor) && Yields(r, ParseOperator(left, t, old(Remaining())))
      decreases |tokens| - cursor, 5
    {
      hide ParseExpression, ParseMembers;
      match t
      case LParen =>
        var args := ParseMembersUpToBracket();
        r := if args.Some? then Some(Call(left, args.value)) else None;
      case IndexToken(k) =>
        var i := ParseExpr(9);
        r := if i.Some? then Some(Access(k, left, i.value)) else None;
      case BitfieldToken =>
        r := ParseBitField(left);
      case ConditionalToken =>
        r := ParseChoice(left);
      case OperatorToken(op) =>
        var right := ParseExpr(OperatorPrecedence(op));
        r := if right.Some? then Some(Infix(op, left, right.value)) else None;
      case _ =>
        r := None;
    }

    method ParseChoice(left: Syntax) returns (r: Option<Syntax>)
      requires Valid()
      modifies this`cursor
      ensures Valid() && cursor >= old(cursor) && Yields(r, ParseOperator(left, ConditionalToken, old(Remaining())))
      decreases |tokens| - cursor, 4
    {
      hide ParseExpression;
      var a := ParseUpTo(0, Comma);
      if a.None? {
        return None;
      }
      var b := ParseExpr(1);
      r := if b.Some? then Some(Choice(left, a.value, b.value)) else None;
    }

    method ParseBitField(left: Syntax) returns (r: Option<Syntax>)
      requires Valid()
      modifies this`cursor
      ensures Valid() && cursor >= old(cursor) && Yields(r, ParseOperator(left, BitfieldToken, old(Remaining())))
      decreases |tokens| - cursor, 4
    {
      hide ParseExpression;
      var open := Match(LParen);
      if !open {
        return None;
      }
      var s := ParseUpTo(0, Comma);
      if s.None? {
        return None;
      }
      var w := ParseUpTo(0, RParen);
      r := if w.Some? then Some(BitField(left, s.value, w.value)) else None;
    }

    method ParsePrimaryExpr() returns (r: Option<Syntax>)
      requires Valid()
      modifies this`cursor
      ensures Valid() && cursor >= old(cursor) && Yields(r, ParsePrimary(old(Remaining())))
      decreases |tokens| - cursor, 1
    {
      hide ParseExpression, ParseMembers;
      if cursor == |tokens| {
        return None;
      }
      match tokens[cursor]
      case IntrinsicToken(k) =>
        r := ParseIntrinsic(k);
      case ListToken(k) =>
        r := ParseList(k);
      case LParen =>
        Advance();
        r := ParseUpTo(0, RParen);
      case _ =>
        r := ParseAtom();
    }

    method ParseAtom() returns (r: Option<Syntax>)
      requires Valid() && cursor < |tokens|
      requires !tokens[cursor].IntrinsicToken? && !tokens[cursor].ListToken? && !tokens[cursor].LParen?
      modifies this`cursor
      ensures Valid() && cursor >= old(cursor) && Yields(r, ParsePrimary(old(Remaining())))
      decreases |tokens| - cursor, 0
    {
      var t := tokens[cursor];
      Advance();
      match t
      case NumberToken(n) => r := Some(Leaf(IntegerLiteral(n)));
      case FloatToken(d) => r := Some(Leaf(FloatLiteral(d)));
      case StringToken(s) => r := Some(Leaf(StringLiteral(s)));
      case CharToken(c) => r := Some(Leaf(CharLiteral(c)));
      case BooleanToken(b) => r := Some(Leaf(BooleanLiteral(b)));
      case TypeToken(n) => r := Some(Leaf(IntegerLiteral(TypeCode(n))));
      case NameToken(x) => r := Some(Name(x));
      case _ => r := None;
    }

    method ParseIntrinsic(k: Intrinsic) returns (r: Option<Syntax>)
      requires Valid() && Check(IntrinsicToken(k))
      modifies this`cursor
      ensures Valid() && cursor >= old(cursor) && Yields(r, ParsePrimary(old(Remaining())))
      decreases |tokens| - cursor, 0
    {
      hide ParseExpression;
      ghost var start := Remaining();
      Advance();
      var open := Match(LParen);
      if !open {
        return None;
      }
      assert Remaining() == start[2..];
      var e := ParseUpTo(0, RParen);
      r := if e.Some? then Some(Apply(k, e.value)) else None;
    }

    method ParseList(k: ListKind) returns (r: Option<Syntax>)
      requires Valid() && Check(ListToken(k))
      modifies this`cursor
      ensures Valid() && cursor >= old(cursor) && Yields(r, ParsePrimary(old(Remaining())))
      decreases |tokens| - cursor, 0
    {
      hide ParseMembers;
      ghost var start := Remaining();
      Advance();
      var open := Match(LParen);
      if !open {
        return None;
      }
      assert Remaining() == start[2..];
      var es := ParseMembersUpToBracket();
      r := if es.Some? then Some(Elements(k, es.value)) else None;
    }

    method ParseMembersUpToBracket() returns (r: Option<seq<Syntax>>)
      requires Valid()
      modifies this`cursor
      ensures Valid() && cursor >= old(cursor) && YieldsList(r, ParseMembers(old(Remaining())))
      decreases |tokens| - cursor, 4
    {
      hide ParseExpression, ParseSequence;
      var empty := Match(RParen);
      if empty {
        return Some([]);
      }
      r := ParseExpressions();
      if r.Some? {
        var close := Match(RParen);
        if !close {
          r := None;
        }
      }
    }

    /** The loop over expressions between commas. */
    method ParseExpressions() returns (r: Option<seq<Syntax>>)
      requires Valid()
      modifies this`cursor
      ensures Valid() && cursor >= old(cursor) && YieldsList(r, ParseSequence(old(Remaining())))
      decreases |tokens| - cursor, 3
    {
      hide ParseExpression, ParseSequence;
      ghost var start := Remaining();
      var es := [];
      var more := true;
      PrependStep([], start);
      while more
        invariant Valid() && cursor >= old(cursor)
        invariant more ==> ParseSequence(start) == Prepend(es, ParseSequence(Remaining()))
        invariant !more ==> ParseSequence(start) == OkList(es, Remaining())
        decreases |tokens| - cursor, more
      {
        PrependStep(es, Remaining());
        var e := ParseExpr(0);
        if e.None? {
          return None;
        }
        es := es + [e.value];
        more := Match(Comma);
      }
      r := Some(es);
    }
  }

  function Prepend(es: seq<Syntax>, p: ParsedList): ParsedList {
    if p.OkList? then OkList(es + p.trees, p.rest) else FailList
  }

  lemma PrependStep(es: seq<Syntax>, ts: seq<Token>)
    ensures ParseSequence(ts) == Prepend([], ParseSequence(ts))
    ensures var e := ParseExpression(0, ts);
            Prepend(es, ParseSequence(ts)) ==
              if e.Fail? then FailList
              else if Starts(e.rest, Comma) then Prepend(es + [e.tree], ParseSequence(e.rest[1..]))
              else OkList(es + [e.tree], e.rest)
  {
    hide ParseExpression;
    var p := ParseSequence(ts);
    if p.OkList? {
      assert [] + p.trees == p.trees;
    }
    var e := ParseExpression(0, ts);
    if e.Ok? && Starts(e.rest, Comma) {
      var q := ParseSequence(e.rest[1..]);
      if q.OkList? {
        assert es + ([e.tree] + q.trees) == es + [e.tree] + q.trees;
      }
    }
  }
}
