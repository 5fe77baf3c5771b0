/** How two operators of a text without brackets group, by the ranks of operators written out as sets. */
module OperatorGrouping {
  import opened Ast
  import opened ExpressionSyntax
  import opened ExpressionRoundTrip

  const MULTIPLICATIVE: set<Operator> :=
    {Integer(Multiply), Integer(Divide), Integer(Remainder), Floating(FloatMultiply), Floating(FloatDivide)}

  const ADDITIVE: set<Operator> := {Integer(Add), Integer(Subtract), Floating(FloatAdd), Floating(FloatSubtract)}

  const SHIFTS: set<Operator> := {Integer(LeftShift), Integer(RightShift)}

  const COMPARISONS: set<Operator> :=
    {Integer(Equal), Integer(NotEqual), Integer(Less), Integer(LessEqual), Integer(Greater), Integer(GreaterEqual),
     Floating(FloatEqual), Floating(FloatNotEqual), Floating(FloatLess), Floating(FloatLessEqual), Floating(FloatGreater),
     Floating(FloatGreaterEqual)}

  const EQUIVALENCES: set<Operator> := {Integer(Equivalence), Integer(NotEquivalence)}

  const CONJUNCTIONS: set<Operator> := {Integer(LogicalAnd), Integer(BitwiseOr)}

  const DISJUNCTIONS: set<Operator> := {Integer(LogicalOr)}

  /** From the loosest to the tightest. */
  const RANKS: seq<set<Operator>> := [DISJUNCTIONS, CONJUNCTIONS, EQUIVALENCES, COMPARISONS, SHIFTS, ADDITIVE, MULTIPLICATIVE]

  predicate Tighter(p: Operator, q: Operator) {
    exists i, j :: 0 <= i < j < |RANKS| && q in RANKS[i] && p in RANKS[j]
  }

  /** Every operator but bitwise AND has one rank. */
  lemma RankOf(p: Operator) returns (i: nat)
    requires p != Integer(BitwiseAnd)
    ensures i < |RANKS| && p in RANKS[i] && OperatorPrecedence(p) == i + 2
    ensures forall j :: 0 <= j < |RANKS| && p in RANKS[j] ==> j == i
  {
    i := if p in DISJUNCTIONS then 0
         else if p in CONJUNCTIONS then 1
         else if p in EQUIVALENCES then 2
         else if p in COMPARISONS then 3
         else if p in SHIFTS then 4
         else if p in ADDITIVE then 5
         else 6;
    AllRanked(p);
    assert RANKS[0] == DISJUNCTIONS && RANKS[1] == CONJUNCTIONS && RANKS[2] == EQUIVALENCES && RANKS[3] == COMPARISONS;
    assert RANKS[4] == SHIFTS && RANKS[5] == ADDITIVE && RANKS[6] == MULTIPLICATIVE;
  }

  lemma AllRanked(p: Operator)
    requires p != Integer(BitwiseAnd)
    ensures p in DISJUNCTIONS || p in CONJUNCTIONS || p in EQUIVALENCES || p in COMPARISONS || p in SHIFTS || p in ADDITIVE
            || p in MULTIPLICATIVE
  {
    match p
    case Integer(op) =>
      match op {
        case LogicalOr =>
        case BitwiseOr =>
        case LogicalAnd =>
        case Equivalence =>
        case NotEquivalence =>
        case LeftShift =>
        case RightShift =>
        case Add =>
        case Subtract =>
        case _ =>
      }
    case Floating(op) =>
      match op {
        case FloatAdd =>
        case FloatSubtract =>
        case FloatMultiply =>
        case FloatDivide =>
        case _ =>
      }
  }

  lemma TighterExactly(p: Operator, q: Operator)
    requires p != Integer(BitwiseAnd) && q != Integer(BitwiseAnd)
    ensures Tighter(p, q) <==> OperatorPrecedence(p) > OperatorPrecedence(q)
  {
    var i := RankOf(p);
    var j := RankOf(q);
    hide OperatorPrecedence;
  }

  // ----- reading names and operators -----

  lemma NameThen(level: nat, x: string, ts: seq<Token>)
    ensures ParseExpression(level, [NameToken(x)] + ts) == ParseOperators(level, Name(x), ts)
  {
    AtomParses(Name(x), ts);
    AfterPrimary(level, NameToken(x), ts);
  }

  lemma LastName(level: nat, x: string, rest: seq<Token>)
    requires Following(rest) <= level
    ensures ParseExpression(level, [NameToken(x)] + rest) == Ok(Name(x), rest)
  {
    NameThen(level, x, rest);
    NoOperator(level, Name(x), rest);
  }

  lemma InfixThen(level: nat, left: Syntax, op: Operator, ts: seq<Token>)
    requires OperatorPrecedence(op) > level
    ensures var r := ParseExpression(OperatorPrecedence(op), ts);
            ParseOperators(level, left, [OperatorToken(op)] + ts) ==
              if r.Ok? then ParseOperators(level, Infix(op, left, r.tree), r.rest) else Fail
  {
    OneOperator(level, left, OperatorToken(op), ts);
    hide ParseExpression, ParseOperators;
  }

  /** One operator between names. */
  lemma OneInfix(level: nat, left: Syntax, op: Operator, y: string, rest: seq<Token>)
    requires OperatorPrecedence(op) > level && Following(rest) <= OperatorPrecedence(op)
    ensures ParseOperators(level, left, [OperatorToken(op)] + ([NameToken(y)] + rest)) ==
              ParseOperators(level, Infix(op, left, Name(y)), rest)
  {
    hide ParseExpression, ParseOperators, OperatorPrecedence;
    InfixThen(level, left, op, [NameToken(y)] + rest);
    LastName(OperatorPrecedence(op), y, rest);
  }

  lemma Ranked(p: Operator)
    requires p != Integer(BitwiseAnd)
    ensures OperatorPrecedence(p) > 1
  {
  }

  /** `x p y q z` reads as `x p (y q z)` exactly when `q` is tighter, and as `(x p y) q z` otherwise. */
  lemma TwoOperatorsGroup(x: string, p: Operator, y: string, q: Operator, z: string, rest: seq<Token>)
    requires p != Integer(BitwiseAnd) && q != Integer(BitwiseAnd) && Following(rest) == 0
    ensures ParseExpression(0, [NameToken(x)] + ([OperatorToken(p)] + ([NameToken(y)] + ([OperatorToken(q)] + ([NameToken(z)] + rest))))) ==
              Ok(if Tighter(q, p) then Infix(p, Name(x), Infix(q, Name(y), Name(z)))
                 else Infix(q, Infix(p, Name(x), Name(y)), Name(z)), rest)
  {
    hide ParseExpression, ParseOperators, OperatorPrecedence, Tighter;
    TighterExactly(q, p);
    Ranked(p);
    Ranked(q);
    var tail := [OperatorToken(q)] + ([NameToken(z)] + rest);
    NameThen(0, x, [OperatorToken(p)] + ([NameToken(y)] + tail));
    if Tighter(q, p) {
      InfixThen(0, Name(x), p, [NameToken(y)] + tail);
      NameThen(OperatorPrecedence(p), y, tail);
      OneInfix(OperatorPrecedence(p), Name(y), q, z, rest);
      NoOperator(OperatorPrecedence(p), Infix(q, Name(y), Name(z)), rest);
      NoOperator(0, Infix(p, Name(x), Infix(q, Name(y), Name(z))), rest);
    } else {
      OneInfix(0, Name(x), p, y, tail);
      OneInfix(0, Infix(p, Name(x), Name(y)), q, z, rest);
      NoOperator(0, Infix(q, Infix(p, Name(x), Name(y)), Name(z)), rest);
    }
  }

  /** The conditional is looser than every operator: `x p y -> z, w` reads as `(x p y) -> z, w`. */
  lemma ConditionalIsLoosest(x: string, p: Operator, y: string, z: string, w: string, rest: seq<Token>)
    requires p != Integer(BitwiseAnd) && Following(rest) == 0
    ensures ParseExpression(0, [NameToken(x)] + ([OperatorToken(p)] + ([NameToken(y)]
              + ([ConditionalToken] + ([NameToken(z)] + ([Comma] + ([NameToken(w)] + rest))))))) ==
              Ok(Choice(Infix(p, Name(x), Name(y)), Name(z), Name(w)), rest)
  {
    hide ParseExpression, ParseOperators, OperatorPrecedence;
    Ranked(p);
    var other := [NameToken(w)] + rest;
    var tail := [NameToken(z)] + ([Comma] + other);
    NameThen(0, x, [OperatorToken(p)] + ([NameToken(y)] + ([ConditionalToken] + tail)));
    OneInfix(0, Name(x), p, y, [ConditionalToken] + tail);
    LastName(0, z, [Comma] + other);
    LastName(1, w, rest);
    OneOperator(0, Infix(p, Name(x), Name(y)), ConditionalToken, tail);
    assert ([Comma] + other)[1..] == other;
    NoOperator(0, Choice(Infix(p, Name(x), Name(y)), Name(z), Name(w)), rest);
  }

  /** Subscripts are tighter than every operator: `x p y ! z` reads as `x p (y ! z)`. */
  lemma SubscriptIsTightest(x: string, p: Operator, y: string, k: Indexing, z: string, rest: seq<Token>)
    requires p != Integer(BitwiseAnd) && Following(rest) == 0
    ensures ParseExpression(0, [NameToken(x)] + ([OperatorToken(p)] + ([NameToken(y)] + ([IndexToken(k)] + ([NameToken(z)] + rest))))) ==
              Ok(Infix(p, Name(x), Access(k, Name(y), Name(z))), rest)
  {
    hide ParseExpression, ParseOperators, OperatorPrecedence;
    Ranked(p);
    PrecedenceBound(p);
    var q := OperatorPrecedence(p);
    var tail := [IndexToken(k)] + ([NameToken(z)] + rest);
    NameThen(0, x, [OperatorToken(p)] + ([NameToken(y)] + tail));
    InfixThen(0, Name(x), p, [NameToken(y)] + tail);
    NameThen(q, y, tail);
    LastName(9, z, rest);
    OneOperator(q, Name(y), IndexToken(k), [NameToken(z)] + rest);
    NoOperator(q, Access(k, Name(y), Name(z)), rest);
    NoOperator(0, Infix(p, Name(x), Access(k, Name(y), Name(z))), rest);
  }

  lemma PrecedenceBound(p: Operator)
    ensures OperatorPrecedence(p) <= 8
  {
  }

  /** A prefix operator takes its operand before any operator between operands: `u x p y` reads as `(u x) p y`. */
  lemma PrefixIsTighter(u: Prefix, x: string, p: Operator, y: string, rest: seq<Token>)
    requires p != Integer(BitwiseAnd) && Following(rest) == 0
    ensures ParseExpression(0, [PrefixSignOf(u)] + ([NameToken(x)] + ([OperatorToken(p)] + ([NameToken(y)] + rest)))) ==
              Ok(Infix(p, PrefixOp(u, Name(x)), Name(y)), rest)
  {
    hide ParseExpression, ParseOperators, OperatorPrecedence;
    Ranked(p);
    PrecedenceBound(p);
    var tail := [OperatorToken(p)] + ([NameToken(y)] + rest);
    AfterPrefix(0, u, [NameToken(x)] + tail);
    LastName(8, x, tail);
    OneInfix(0, PrefixOp(u, Name(x)), p, y, rest);
    NoOperator(0, Infix(p, PrefixOp(u, Name(x)), Name(y)), rest);
  }

  /** But a subscript comes first: `u x ! y` reads as `u (x ! y)`. */
  lemma SubscriptBeforePrefix(u: Prefix, x: string, k: Indexing, y: string, rest: seq<Token>)
    requires Following(rest) == 0
    ensures ParseExpression(0, [PrefixSignOf(u)] + ([NameToken(x)] + ([IndexToken(k)] + ([NameToken(y)] + rest)))) ==
              Ok(PrefixOp(u, Access(k, Name(x), Name(y))), rest)
  {
    hide ParseExpression, ParseOperators;
    var tail := [IndexToken(k)] + ([NameToken(y)] + rest);
    AfterPrefix(0, u, [NameToken(x)] + tail);
    NameThen(8, x, tail);
    LastName(9, y, rest);
    OneOperator(8, Name(x), IndexToken(k), [NameToken(y)] + rest);
    NoOperator(8, Access(k, Name(x), Name(y)), rest);
    NoOperator(0, PrefixOp(u, Access(k, Name(x), Name(y))), rest);
  }

  /** The sign of subtraction in front of an operand negates it. */
  lemma MinusNegates(x: string, rest: seq<Token>)
    requires Following(rest) == 0
    ensures ParseExpression(0, [OperatorToken(Integer(Subtract))] + ([NameToken(x)] + rest)) == Ok(PrefixOp(Negation, Name(x)), rest)
  {
    hide ParseExpression, ParseOperators;
    AfterPrefix(0, Negation, [NameToken(x)] + rest);
    LastName(8, x, rest);
    NoOperator(0, PrefixOp(Negation, Name(x)), rest);
  }

  /** The conditional groups to the left: `x -> y, z -> v, w` reads as `(x -> y, z) -> v, w`. */
  lemma ConditionalsGroupLeft(x: string, y: string, z: string, v: string, w: string, rest: seq<Token>)
    requires Following(rest) == 0
    ensures ParseExpression(0, [NameToken(x)] + ([ConditionalToken] + ([NameToken(y)] + ([Comma] + ([NameToken(z)]
              + ([ConditionalToken] + ([NameToken(v)] + ([Comma] + ([NameToken(w)] + rest))))))))) ==
              Ok(Choice(Choice(Name(x), Name(y), Name(z)), Name(v), Name(w)), rest)
  {
    hide ParseExpression, ParseOperators;
    var last := [NameToken(w)] + rest;
    var second := [NameToken(v)] + ([Comma] + last);
    var tail := [ConditionalToken] + second;
    var first := [NameToken(y)] + ([Comma] + ([NameToken(z)] + tail));
    NameThen(0, x, [ConditionalToken] + first);
    OneChoice(Name(x), y, z, tail);
    OneChoice(Choice(Name(x), Name(y), Name(z)), v, w, rest);
    NoOperator(0, Choice(Choice(Name(x), Name(y), Name(z)), Name(v), Name(w)), rest);
  }

  lemma OneChoice(c: Syntax, y: string, z: string, rest: seq<Token>)
    requires Following(rest) <= 1
    ensures ParseOperators(0, c, [ConditionalToken] + ([NameToken(y)] + ([Comma] + ([NameToken(z)] + rest)))) ==
              ParseOperators(0, Choice(c, Name(y), Name(z)), rest)
  {
    hide ParseExpression, ParseOperators;
    var other := [NameToken(z)] + rest;
    LastName(0, y, [Comma] + other);
    LastName(1, z, rest);
    OneOperator(0, c, ConditionalToken, [NameToken(y)] + ([Comma] + other));
    assert ([Comma] + other)[1..] == other;
  }

  /** The names of types stand for the numbers of their bits. */
  lemma TypesAreNumbers(rest: seq<Token>)
    ensures ParsePrimary([TypeToken(TypeInt)] + rest) == Ok(Leaf(IntegerLiteral(1)), rest)
    ensures ParsePrimary([TypeToken(TypeFloat)] + rest) == Ok(Leaf(IntegerLiteral(2)), rest)
    ensures ParsePrimary([TypeToken(TypeString)] + rest) == Ok(Leaf(IntegerLiteral(4)), rest)
    ensures ParsePrimary([TypeToken(TypeAny)] + rest) == Ok(Leaf(IntegerLiteral(8)), rest)
    ensures ParsePrimary([TypeToken(TypeVec)] + rest) == Ok(Leaf(IntegerLiteral(256)), rest)
    ensures ParsePrimary([TypeToken(TypeList)] + rest) == Ok(Leaf(IntegerLiteral(512)), rest)
    ensures ParsePrimary([TypeToken(TypeTable)] + rest) == Ok(Leaf(IntegerLiteral(1024)), rest)
    ensures ParsePrimary([TypeToken(TypePointer)] + rest) == Ok(Leaf(IntegerLiteral(4096)), rest)
    ensures ParsePrimary([TypeToken(TypeConst)] + rest) == Ok(Leaf(IntegerLiteral(8192)), rest)
  {
    TypeParses(TypeInt, rest);
    TypeParses(TypeFloat, rest);
    TypeParses(TypeString, rest);
    TypeParses(TypeAny, rest);
    TypeParses(TypeVec, rest);
    TypeParses(TypeList, rest);
    TypeParses(TypeTable, rest);
    TypeParses(TypePointer, rest);
    TypeParses(TypeConst, rest);
    hide ParsePrimary;
  }

  lemma TypeParses(t: TypeName, rest: seq<Token>)
    ensures ParsePrimary([TypeToken(t)] + rest) == Ok(Leaf(IntegerLiteral(TypeCode(t))), rest)
  {
    assert ([TypeToken(t)] + rest)[1..] == rest;
  }

  /** Bitwise AND between operands ends the expression. */
  lemma BitwiseAndStops(x: string, rest: seq<Token>)
    ensures var tail := [OperatorToken(Integer(BitwiseAnd))] + rest;
            ParseExpression(0, [NameToken(x)] + tail) == Ok(Name(x), tail)
  {
    LastName(0, x, [OperatorToken(Integer(BitwiseAnd))] + rest);
  }
}
