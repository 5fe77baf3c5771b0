/** Parsing undoes printing, and yields exactly the trees that can be printed. */
module ExpressionRoundTrip {
  import opened Ast
  import opened ExpressionSyntax

  // ----- single steps of the parser -----

  lemma NoOperator(level: nat, e: Syntax, ts: seq<Token>)
    requires Following(ts) <= level
    ensures ParseOperators(level, e, ts) == Ok(e, ts)
  {
    hide ParseExpression, ParseOperator;
  }

  lemma OneOperator(level: nat, e: Syntax, t: Token, ts: seq<Token>)
    requires Precedence(t) > level
    ensures var next := ParseOperator(e, t, ts);
            ParseOperators(level, e, [t] + ts) ==
              if next.Ok? then ParseOperators(level, next.tree, next.rest) else Fail
  {
    hide ParseExpression, ParseOperator;
    assert ([t] + ts)[1..] == ts;
  }

  lemma AfterPrimary(level: nat, t: Token, ts: seq<Token>)
    requires PrefixOf(t).NoPrefix?
    ensures var first := ParsePrimary([t] + ts);
            ParseExpression(level, [t] + ts) ==
              if first.Ok? then ParseOperators(level, first.tree, first.rest) else Fail
  {
    hide ParsePrimary, ParseOperators;
  }

  lemma AfterPrefix(level: nat, u: Prefix, ts: seq<Token>)
    ensures var e := ParseExpression(8, ts);
            ParseExpression(level, [PrefixSignOf(u)] + ts) ==
              if e.Ok? then ParseOperators(level, PrefixOp(u, e.tree), e.rest) else Fail
  {
    hide ParsePrimary, ParseOperators;
    assert ([PrefixSignOf(u)] + ts)[1..] == ts;
    assert PrefixOf(PrefixSignOf(u)) == IsPrefix(u);
  }

  // ----- the round trip -----

  /** Read back at the same level, a printed tree is the left operand of whatever follows it. */
  lemma {:induction false} RoundTrip(e: Syntax, level: nat, after: nat, rest: seq<Token>)
    requires Printable(e) && Following(rest) == after
    ensures ParseExpression(level, Print(e, level, after) + rest) == ParseOperators(level, e, rest)
    decreases e, 2
  {
    hide ParseExpression, ParseOperators, ParsePrimary, PrintBare, Printable;
    if NeedsBrackets(e, level, after) {
      var inner := PrintBare(e, 0, 0);
      assert !NeedsBrackets(e, 0, 0) by {
        NeverAtTop(e);
      }
      BareRoundTrip(e, 0, 0, [RParen] + rest);
      NoOperator(0, e, [RParen] + rest);
      AfterPrimary(level, LParen, inner + ([RParen] + rest));
      BracketsParse(e, inner, rest);
      assert [LParen] + inner + [RParen] + rest == [LParen] + (inner + ([RParen] + rest));
    } else {
      BareRoundTrip(e, level, after, rest);
    }
  }

  lemma NeverAtTop(e: Syntax)
    requires Printable(e)
    ensures !NeedsBrackets(e, 0, 0)
  {
  }

  lemma BracketsParse(e: Syntax, inner: seq<Token>, rest: seq<Token>)
    requires ParseExpression(0, inner + ([RParen] + rest)) == Ok(e, [RParen] + rest)
    ensures ParsePrimary([LParen] + (inner + ([RParen] + rest))) == Ok(e, rest)
  {
    hide ParseExpression;
    assert ([LParen] + (inner + ([RParen] + rest)))[1..] == inner + ([RParen] + rest);
    assert ([RParen] + rest)[1..] == rest;
  }

  /** A complete operand: nothing that follows belongs to it. */
  lemma {:induction false} OperandRoundTrip(e: Syntax, level: nat, after: nat, rest: seq<Token>)
    requires Printable(e) && Following(rest) == after <= level
    ensures ParseExpression(level, Print(e, level, after) + rest) == Ok(e, rest)
    decreases e, 3
  {
    hide ParseExpression, ParseOperators, Print, Printable;
    RoundTrip(e, level, after, rest);
    NoOperator(level, e, rest);
  }

  lemma {:induction false} BareRoundTrip(e: Syntax, level: nat, after: nat, rest: seq<Token>)
    requires Printable(e) && Following(rest) == after && !NeedsBrackets(e, level, after)
    ensures ParseExpression(level, PrintBare(e, level, after) + rest) == ParseOperators(level, e, rest)
    decreases e, 1
  {
    hide ParseExpression, ParseOperators, ParsePrimary, ParseOperator, Print, Following;
    match e
    case Leaf(l) =>
      AtomParses(e, rest);
      AfterPrimary(level, LiteralToken(l), rest);
    case Name(x) =>
      AtomParses(e, rest);
      AfterPrimary(level, NameToken(x), rest);
    case PrefixOp(u, a) =>
      var ts := Print(a, 8, after) + rest;
      OperandRoundTrip(a, 8, after, rest);
      AfterPrefix(level, u, ts);
      assert [PrefixSignOf(u)] + Print(a, 8, after) + rest == [PrefixSignOf(u)] + ts;
    case Infix(op, a, b) => InfixRoundTrip(e, level, after, rest);
    case Access(k, a, b) => AccessRoundTrip(e, level, after, rest);
    case BitField(_, _, _) => BitFieldRoundTrip(e, level, rest);
    case Call(_, _) => CallRoundTrip(e, level, rest);
    case Choice(_, _, _) => ChoiceRoundTrip(e, level, after, rest);
    case Apply(_, _) => ApplyRoundTrip(e, level, rest);
    case Elements(_, _) => ElementsRoundTrip(e, level, rest);
  }

  lemma AtomParses(e: Syntax, rest: seq<Token>)
    requires Printable(e) && (e.Leaf? || e.Name?)
    ensures var t := if e.Leaf? then LiteralToken(e.literal) else NameToken(e.name);
            PrefixOf(t).NoPrefix? && ParsePrimary([t] + rest) == Ok(e, rest)
  {
    hide ParseExpression;
    var t := if e.Leaf? then LiteralToken(e.literal) else NameToken(e.name);
    assert ([t] + rest)[1..] == rest;
  }

  /** The left operand is read up to the operator `t`, which is then applied. */
  lemma {:induction false} LeftOperand(e: Syntax, level: nat, t: Token, ts: seq<Token>)
    requires Printable(e) && Precedence(t) > level
    ensures var next := ParseOperator(e, t, ts);
            ParseExpression(level, Print(e, level, Precedence(t)) + ([t] + ts)) ==
              if next.Ok? then ParseOperators(level, next.tree, next.rest) else Fail
    decreases e, 4
  {
    hide ParseExpression, ParseOperators, ParseOperator, Print, Printable, Precedence;
    RoundTrip(e, level, Precedence(t), [t] + ts);
    OneOperator(level, e, t, ts);
  }

  lemma {:induction false} InfixRoundTrip(e: Syntax, level: nat, after: nat, rest: seq<Token>)
    requires e.Infix? && Printable(e) && Following(rest) == after && !NeedsBrackets(e, level, after)
    ensures ParseExpression(level, PrintBare(e, level, after) + rest) == ParseOperators(level, e, rest)
    decreases e, 0
  {
    hide ParseExpression, ParseOperators, Print;
    var t, q := OperatorToken(e.op), OperatorPrecedence(e.op);
    var right := Print(e.right, q, after);
    OperandRoundTrip(e.right, q, after, rest);
    LeftOperand(e.left, level, t, right + rest);
    var left := Print(e.left, level, q);
    assert left + ([t] + right) + rest == left + ([t] + (right + rest));
  }

  lemma {:induction false} AccessRoundTrip(e: Syntax, level: nat, after: nat, rest: seq<Token>)
    requires e.Access? && Printable(e) && Following(rest) == after && !NeedsBrackets(e, level, after)
    ensures ParseExpression(level, PrintBare(e, level, after) + rest) == ParseOperators(level, e, rest)
    decreases e, 0
  {
    hide ParseExpression, ParseOperators, Print;
    var t := IndexToken(e.indexing);
    var right := Print(e.index, 9, after);
    HighestPrecedence(rest);
    OperandRoundTrip(e.index, 9, after, rest);
    LeftOperand(e.base, level, t, right + rest);
    var left := Print(e.base, level, 9);
    assert left + ([t] + right) + rest == left + ([t] + (right + rest));
  }

  lemma HighestPrecedence(ts: seq<Token>)
    ensures Following(ts) <= 9
  {
  }

  lemma {:induction false} ChoiceRoundTrip(e: Syntax, level: nat, after: nat, rest: seq<Token>)
    requires e.Choice? && Printable(e) && Following(rest) == after && !NeedsBrackets(e, level, after)
    ensures ParseExpression(level, PrintBare(e, level, after) + rest) == ParseOperators(level, e, rest)
    decreases e, 0
  {
    hide ParseExpression, ParseOperators, Print;
    var left, a, b := Print(e.condition, level, 1), Print(e.whenTrue, 0, 0), Print(e.whenFalse, 1, after);
    var tail := [Comma] + (b + rest);
    OperandRoundTrip(e.whenFalse, 1, after, rest);
    OperandRoundTrip(e.whenTrue, 0, 0, tail);
    assert tail[1..] == b + rest;
    LeftOperand(e.condition, level, ConditionalToken, a + tail);
    assert left + ([ConditionalToken] + (a + ([Comma] + b))) + rest == left + ([ConditionalToken] + (a + tail));
  }

  lemma BitFieldParses(base: Syntax, start: Syntax, width: Syntax, s: seq<Token>, w: seq<Token>, rest: seq<Token>)
    requires ParseExpression(0, s + ([Comma] + (w + ([RParen] + rest)))) == Ok(start, [Comma] + (w + ([RParen] + rest)))
    requires ParseExpression(0, w + ([RParen] + rest)) == Ok(width, [RParen] + rest)
    ensures ParseOperator(base, BitfieldToken, [LParen] + (s + ([Comma] + (w + ([RParen] + rest)))))
         == Ok(BitField(base, start, width), rest)
  {
    hide ParseExpression;
    var end := [RParen] + rest;
    var tail := [Comma] + (w + end);
    assert tail[1..] == w + end && end[1..] == rest && ([LParen] + (s + tail))[1..] == s + tail;
  }

  lemma {:induction false} BitFieldRoundTrip(e: Syntax, level: nat, rest: seq<Token>)
    requires e.BitField? && Printable(e) && level < 9
    ensures ParseExpression(level, PrintBare(e, level, Following(rest)) + rest) == ParseOperators(level, e, rest)
    decreases e, 0
  {
    hide ParseExpression, ParseOperators, ParseOperator, Print;
    var left, s, w := Print(e.base, level, 9), Print(e.start, 0, 0), Print(e.width, 0, 0);
    var end := [RParen] + rest;
    var tail := [Comma] + (w + end);
    OperandRoundTrip(e.width, 0, 0, end);
    OperandRoundTrip(e.start, 0, 0, tail);
    BitFieldParses(e.base, e.start, e.width, s, w, rest);
    LeftOperand(e.base, level, BitfieldToken, [LParen] + (s + tail));
    assert left + ([BitfieldToken, LParen] + (s + ([Comma] + (w + [RParen])))) + rest
        == left + ([BitfieldToken] + ([LParen] + (s + tail)));
  }

  lemma {:induction false} CallRoundTrip(e: Syntax, level: nat, rest: seq<Token>)
    requires e.Call? && Printable(e) && level < 9
    ensures ParseExpression(level, PrintBare(e, level, Following(rest)) + rest) == ParseOperators(level, e, rest)
    decreases e, 0
  {
    hide ParseExpression, ParseOperators, Print, ParseMembers, PrintSequence;
    var left, es := Print(e.function_, level, 9), PrintSequence(e.arguments);
    MembersRoundTrip(e.arguments, rest);
    LeftOperand(e.function_, level, LParen, es + ([RParen] + rest));
    assert left + ([LParen] + (es + [RParen])) + rest == left + ([LParen] + (es + ([RParen] + rest)));
  }

  lemma {:induction false} ElementsRoundTrip(e: Syntax, level: nat, rest: seq<Token>)
    requires e.Elements? && Printable(e)
    ensures ParseExpression(level, PrintBare(e, level, Following(rest)) + rest) == ParseOperators(level, e, rest)
    decreases e, 0
  {
    hide ParseExpression, ParseOperators, Print, ParseMembers, PrintSequence;
    var t, es := ListToken(e.kind), PrintSequence(e.members);
    var ts := [LParen] + (es + ([RParen] + rest));
    MembersRoundTrip(e.members, rest);
    AfterPrimary(level, t, ts);
    assert ([t] + ts)[1..] == ts && ([t] + ts)[2..] == es + ([RParen] + rest);
    assert [t, LParen] + (es + [RParen]) + rest == [t] + ts;
  }

  lemma IntrinsicParses(k: Intrinsic, a: Syntax, text: seq<Token>, rest: seq<Token>)
    requires ParseExpression(0, text + ([RParen] + rest)) == Ok(a, [RParen] + rest)
    ensures ParsePrimary([IntrinsicToken(k)] + ([LParen] + (text + ([RParen] + rest)))) == Ok(Apply(k, a), rest)
  {
    hide ParseExpression;
    var t, end := IntrinsicToken(k), [RParen] + rest;
    var ts := [LParen] + (text + end);
    assert end[1..] == rest && ([t] + ts)[1..] == ts && ([t] + ts)[2..] == text + end;
  }

  lemma {:induction false} ApplyRoundTrip(e: Syntax, level: nat, rest: seq<Token>)
    requires e.Apply? && Printable(e)
    ensures ParseExpression(level, PrintBare(e, level, Following(rest)) + rest) == ParseOperators(level, e, rest)
    decreases e, 0
  {
    hide ParseExpression, ParseOperators, ParsePrimary, Print;
    var t, a, end := IntrinsicToken(e.intrinsic), Print(e.argument, 0, 0), [RParen] + rest;
    OperandRoundTrip(e.argument, 0, 0, end);
    IntrinsicParses(e.intrinsic, e.argument, a, rest);
    AfterPrimary(level, t, [LParen] + (a + end));
    assert [t, LParen] + (a + [RParen]) + rest == [t] + ([LParen] + (a + end));
  }

  lemma {:induction false} MembersRoundTrip(es: seq<Syntax>, rest: seq<Token>)
    requires forall a :: a in es ==> Printable(a)
    ensures ParseMembers(PrintSequence(es) + ([RParen] + rest)) == OkList(es, rest)
    decreases es, 2
  {
    hide ParseExpression, ParseSequence, Print, Printable;
    assert ([RParen] + rest)[1..] == rest;
    if es == [] {
      assert PrintSequence(es) + ([RParen] + rest) == [RParen] + rest;
    } else {
      SequenceRoundTrip(es, [RParen] + rest);
      SequenceStart(PrintSequence(es) + ([RParen] + rest));
    }
  }

  /** No expression starts with a closing bracket. */
  lemma SequenceStart(ts: seq<Token>)
    ensures Starts(ts, RParen) ==> ParseSequence(ts).FailList?
  {
    if Starts(ts, RParen) {
      assert ParsePrimary(ts) == Fail;
      assert ParseExpression(0, ts) == Fail;
    }
  }

  lemma {:induction false} SequenceRoundTrip(es: seq<Syntax>, rest: seq<Token>)
    requires es != [] && (forall a :: a in es ==> Printable(a)) && Starts(rest, RParen)
    ensures ParseSequence(PrintSequence(es) + rest) == OkList(es, rest)
    decreases es, 1
  {
    hide ParseExpression, Print, Printable;
    var first := Print(es[0], 0, 0);
    assert es[0] in es;
    if |es| == 1 {
      OperandRoundTrip(es[0], 0, 0, rest);
      assert es == [es[0]];
    } else {
      var more := PrintSequence(es[1..]);
      var tail := [Comma] + (more + rest);
      OperandRoundTrip(es[0], 0, 0, tail);
      SequenceRoundTrip(es[1..], rest);
      assert tail[1..] == more + rest && es == [es[0]] + es[1..];
      assert first + ([Comma] + more) + rest == first + tail;
    }
  }

  /** Printed with no more brackets than needed, a tree is read back, and what follows it is left over. */
  lemma ParsingUndoesPrinting(e: Syntax, rest: seq<Token>)
    requires Printable(e) && Following(rest) == 0
    ensures ParseExpression(0, Print(e, 0, 0) + rest) == Ok(e, rest)
  {
    OperandRoundTrip(e, 0, 0, rest);
  }

  // ----- what the parser yields -----

  /** Whatever is parsed can be printed. */
  lemma {:induction false} ParsedIsPrintable(level: nat, ts: seq<Token>)
    ensures var r := ParseExpression(level, ts); r.Ok? ==> Printable(r.tree)
    decreases |ts|, 1
  {
    hide ParseOperators, ParsePrimary;
    if ts != [] {
      var u := PrefixOf(ts[0]);
      if u.IsPrefix? {
        ParsedIsPrintable(8, ts[1..]);
        var e := ParseExpression(8, ts[1..]);
        if e.Ok? {
          OperatorsArePrintable(level, PrefixOp(u.prefix, e.tree), e.rest);
        }
      } else {
        PrimaryIsPrintable(ts);
        var e := ParsePrimary(ts);
        if e.Ok? {
          OperatorsArePrintable(level, e.tree, e.rest);
        }
      }
    }
  }

  lemma {:induction false} OperatorsArePrintable(level: nat, left: Syntax, ts: seq<Token>)
    requires Printable(left)
    ensures var r := ParseOperators(level, left, ts); r.Ok? ==> Printable(r.tree)
    decreases |ts|, 2
  {
    hide ParseOperator, Printable;
    if Following(ts) > level {
      OperatorIsPrintable(left, ts[0], ts[1..]);
      var next := ParseOperator(left, ts[0], ts[1..]);
      if next.Ok? {
        OperatorsArePrintable(level, next.tree, next.rest);
      }
    }
  }

  lemma {:induction false} OperatorIsPrintable(left: Syntax, t: Token, ts: seq<Token>)
    requires Printable(left) && Precedence(t) > 0
    ensures var r := ParseOperator(left, t, ts); r.Ok? ==> Printable(r.tree)
    decreases |ts|, 4
  {
    hide ParseExpression, ParseMembers;
    match t
    case LParen => MembersArePrintable(ts);
    case IndexToken(_) => ParsedIsPrintable(9, ts);
    case BitfieldToken => BitFieldIsPrintable(left, ts);
    case ConditionalToken => ChoiceIsPrintable(left, ts);
    case OperatorToken(op) => ParsedIsPrintable(OperatorPrecedence(op), ts);
    case _ =>
  }

  lemma {:induction false} BitFieldIsPrintable(left: Syntax, ts: seq<Token>)
    requires Printable(left)
    ensures var r := ParseOperator(left, BitfieldToken, ts); r.Ok? ==> Printable(r.tree)
    decreases |ts|, 3
  {
    hide ParseExpression;
    if Starts(ts, LParen) {
      ParsedIsPrintable(0, ts[1..]);
      var s := ParseExpression(0, ts[1..]);
      if s.Ok? && Starts(s.rest, Comma) {
        ParsedIsPrintable(0, s.rest[1..]);
      }
    }
  }

  lemma {:induction false} ChoiceIsPrintable(left: Syntax, ts: seq<Token>)
    requires Printable(left)
    ensures var r := ParseOperator(left, ConditionalToken, ts); r.Ok? ==> Printable(r.tree)
    decreases |ts|, 3
  {
    hide ParseExpression;
    ParsedIsPrintable(0, ts);
    var a := ParseExpression(0, ts);
    if a.Ok? && Starts(a.rest, Comma) {
      ParsedIsPrintable(1, a.rest[1..]);
    }
  }

  lemma {:induction false} PrimaryIsPrintable(ts: seq<Token>)
    ensures var r := ParsePrimary(ts); r.Ok? ==> Printable(r.tree)
    decreases |ts|, 0
  {
    hide ParseExpression, ParseMembers;
    if ts != [] {
      match ts[0]
      case IntrinsicToken(_) =>
        if Starts(ts[1..], LParen) {
          ParsedIsPrintable(0, ts[2..]);
        }
      case ListToken(_) =>
        if Starts(ts[1..], LParen) {
          MembersArePrintable(ts[2..]);
        }
      case LParen => ParsedIsPrintable(0, ts[1..]);
      case _ =>
    }
  }

  lemma {:induction false} MembersArePrintable(ts: seq<Token>)
    ensures var r := ParseMembers(ts); r.OkList? ==> forall a :: a in r.trees ==> Printable(a)
    decreases |ts|, 3
  {
    hide ParseSequence, Printable;
    SequenceIsPrintable(ts);
  }

  lemma {:induction false} SequenceIsPrintable(ts: seq<Token>)
    ensures var r := ParseSequence(ts); r.OkList? ==> forall a :: a in r.trees ==> Printable(a)
    decreases |ts|, 2
  {
    hide ParseExpression, Printable;
    ParsedIsPrintable(0, ts);
    var e := ParseExpression(0, ts);
    if e.Ok? && Starts(e.rest, Comma) {
      SequenceIsPrintable(e.rest[1..]);
    }
  }

  /** The trees the parser can yield are exactly the printable ones: no `&` and no negative number. */
  lemma ParsesExactly(e: Syntax)
    ensures Printable(e) <==> exists ts :: ParseExpression(0, ts) == Ok(e, [])
  {
    hide ParseExpression;
    if Printable(e) {
      ParsingUndoesPrinting(e, []);
      assert ParseExpression(0, Print(e, 0, 0) + []) == Ok(e, []);
    }
    if ts :| ParseExpression(0, ts) == Ok(e, []) {
      ParsedIsPrintable(0, ts);
    }
  }

  /** Different trees have different texts. */
  lemma PrintingIsInjective(a: Syntax, b: Syntax)
    requires Printable(a) && Printable(b) && Print(a, 0, 0) == Print(b, 0, 0)
    ensures a == b
  {
    hide ParseExpression, Print;
    ParsingUndoesPrinting(a, []);
    ParsingUndoesPrinting(b, []);
  }
}
