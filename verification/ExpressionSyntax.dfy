/** Tokens and expression trees, the parser of expressions as a function, and a printer that brackets only where it must. */
module ExpressionSyntax {
  import opened Ast

  datatype FloatOperator =
    | FloatAdd | FloatSubtract | FloatMultiply | FloatDivide
    | FloatEqual | FloatNotEqual | FloatLess | FloatLessEqual | FloatGreater | FloatGreaterEqual

  datatype Operator = Integer(integerOp: BinaryOperator) | Floating(floatOp: FloatOperator)

  const MINUS := Integer(Subtract)

  /** The signs of the prefix operators; the sign of negation is that of subtraction. */
  datatype Prefix = BitNot | Not | AddressOf | Indirection | Negation | Head | Tail | Rest | ToFloat

  datatype Indexing = Vector | Character | FloatVector

  datatype Intrinsic = LengthOf | TypeOf | SquareRoot | Floor | Truncate

  datatype ListKind = List | ManifestList | Table | FloatTable

  datatype Literal =
    | IntegerLiteral(value: int)
    | FloatLiteral(text: string)
    | StringLiteral(content: string)
    | CharLiteral(character: char)
    | BooleanLiteral(truth: bool)

  datatype TypeName = TypeInt | TypeFloat | TypeString | TypeList | TypeVec | TypePointer | TypeConst | TypeAny | TypeTable

  datatype Token =
    | NumberToken(number: nat)
    | FloatToken(digits: string)
    | StringToken(chars: string)
    | CharToken(c: char)
    | BooleanToken(b: bool)
    | NameToken(name: string)
    | TypeToken(t: TypeName)
    | OperatorToken(op: Operator)
    | PrefixToken(prefix: Prefix)
    | IndexToken(indexing: Indexing)
    | BitfieldToken
    | ConditionalToken
    | IntrinsicToken(intrinsic: Intrinsic)
    | ListToken(kind: ListKind)
    | LParen
    | RParen
    | Comma
    | OtherToken(code: nat)

  datatype Syntax =
    | Leaf(literal: Literal)
    | Name(name: string)
    | PrefixOp(prefix: Prefix, operand: Syntax)
    | Infix(op: Operator, left: Syntax, right: Syntax)
    | Access(indexing: Indexing, base: Syntax, index: Syntax)
    | BitField(base: Syntax, start: Syntax, width: Syntax)
    | Call(function_: Syntax, arguments: seq<Syntax>)
    | Choice(condition: Syntax, whenTrue: Syntax, whenFalse: Syntax)
    | Apply(intrinsic: Intrinsic, argument: Syntax)
    | Elements(kind: ListKind, members: seq<Syntax>)

  // ----- precedence -----

  function OperatorPrecedence(op: Operator): nat {
    match op
    case Integer(LogicalOr) => 2
    case Integer(BitwiseOr) => 3
    case Integer(LogicalAnd) => 3
    case Integer(Equivalence) => 4
    case Integer(NotEquivalence) => 4
    case Integer(Equal) => 5
    case Integer(NotEqual) => 5
    case Integer(Less) => 5
    case Integer(LessEqual) => 5
    case Integer(Greater) => 5
    case Integer(GreaterEqual) => 5
    case Integer(LeftShift) => 6
    case Integer(RightShift) => 6
    case Integer(Add) => 7
    case Integer(Subtract) => 7
    case Integer(Multiply) => 8
    case Integer(Divide) => 8
    case Integer(Remainder) => 8
    case Integer(BitwiseAnd) => 0
    case Floating(FloatAdd) => 7
    case Floating(FloatSubtract) => 7
    case Floating(FloatMultiply) => 8
    case Floating(FloatDivide) => 8
    case Floating(_) => 5
  }

  /** How strongly a token binds what stands before it; 0 for tokens that do not. */
  function Precedence(t: Token): nat {
    match t
    case ConditionalToken => 1
    case OperatorToken(op) => OperatorPrecedence(op)
    case LParen => 9
    case IndexToken(_) => 9
    case BitfieldToken => 9
    case _ => 0
  }

  /** The precedence of the next token; 0 at the end. */
  function Following(ts: seq<Token>): nat {
    if ts == [] then 0 else Precedence(ts[0])
  }

  // ----- parsing -----

  datatype Parsed = Ok(tree: Syntax, rest: seq<Token>) | Fail

  datatype ParsedList = OkList(trees: seq<Syntax>, rest: seq<Token>) | FailList

  datatype PrefixSign = IsPrefix(prefix: Prefix) | NoPrefix

  function PrefixOf(t: Token): PrefixSign {
    match t
    case PrefixToken(u) => if u.Negation? then NoPrefix else IsPrefix(u)
    case OperatorToken(op) => if op == MINUS then IsPrefix(Negation) else NoPrefix
    case _ => NoPrefix
  }

  function TypeCode(t: TypeName): nat {
    match t
    case TypeInt => 1
    case TypeFloat => 2
    case TypeString => 4
    case TypeList => 512
    case TypeVec => 256
    case TypePointer => 4096
    case TypeConst => 8192
    case TypeAny => 8
    case TypeTable => 1024
  }

  /** What is left when the next token is `t`; nothing otherwise. */
  predicate Starts(ts: seq<Token>, t: Token) {
    ts != [] && ts[0] == t
  }

  /** Parses an expression whose operators bind more strongly than `level`. */
  function ParseExpression(level: nat, ts: seq<Token>): (r: Parsed)
    ensures r.Ok? ==> |r.rest| < |ts|
    decreases |ts|, 1
  {
    if ts == [] then Fail
    else
      var u := PrefixOf(ts[0]);
      var first := if u.IsPrefix? then
                     var e := ParseExpression(8, ts[1..]);
                     if e.Ok? then Ok(PrefixOp(u.prefix, e.tree), e.rest) else Fail
                   else ParsePrimary(ts);
      if first.Ok? then ParseOperators(level, first.tree, first.rest) else Fail
  }

  /** The operators behind an expression that has been parsed already. */
  function ParseOperators(level: nat, left: Syntax, ts: seq<Token>): (r: Parsed)
    ensures r.Ok? ==> |r.rest| <= |ts|
    decreases |ts|, 2
  {
    if Following(ts) <= level then Ok(left, ts)
    else
      var next := ParseOperator(left, ts[0], ts[1..]);
      if next.Ok? then ParseOperators(level, next.tree, next.rest) else Fail
  }

  /** One operator, `t`, behind an expression. */
  function ParseOperator(left: Syntax, t: Token, ts: seq<Token>): (r: Parsed)
    ensures r.Ok? ==> |r.rest| <= |ts|
    decreases |ts|, 4
  {
    match t
    case LParen =>
      var args := ParseMembers(ts);
      if args.OkList? then Ok(Call(left, args.trees), args.rest) else Fail
    case IndexToken(k) =>
      var i := ParseExpression(9, ts);
      if i.Ok? then Ok(Access(k, left, i.tree), i.rest) else Fail
    case BitfieldToken =>
      if !Starts(ts, LParen) then Fail
      else
        var s := ParseExpression(0, ts[1..]);
        if s.Fail? || !Starts(s.rest, Comma) then Fail
        else
          var w := ParseExpression(0, s.rest[1..]);
          if w.Fail? || !Starts(w.rest, RParen) then Fail
          else Ok(BitField(left, s.tree, w.tree), w.rest[1..])
    case ConditionalToken =>
      var a := ParseExpression(0, ts);
      if a.Fail? || !Starts(a.rest, Comma) then Fail
      else
        var b := ParseExpression(1, a.rest[1..]);
        if b.Ok? then Ok(Choice(left, a.tree, b.tree), b.rest) else Fail
    case OperatorToken(op) =>
      var r := ParseExpression(OperatorPrecedence(op), ts);
      if r.Ok? then Ok(Infix(op, left, r.tree), r.rest) else Fail
    case _ => Fail
  }

  function ParsePrimary(ts: seq<Token>): (r: Parsed)
    ensures r.Ok? ==> |r.rest| < |ts|
    decreases |ts|, 0
  {
    if ts == [] then Fail
    else match ts[0] {
      case NumberToken(n) => Ok(Leaf(IntegerLiteral(n)), ts[1..])
      case FloatToken(d) => Ok(Leaf(FloatLiteral(d)), ts[1..])
      case StringToken(s) => Ok(Leaf(StringLiteral(s)), ts[1..])
      case CharToken(c) => Ok(Leaf(CharLiteral(c)), ts[1..])
      case BooleanToken(b) => Ok(Leaf(BooleanLiteral(b)), ts[1..])
      case TypeToken(t) => Ok(Leaf(IntegerLiteral(TypeCode(t))), ts[1..])
      case NameToken(x) => Ok(Name(x), ts[1..])
      case IntrinsicToken(k) =>
        if !Starts(ts[1..], LParen) then Fail
        else
          var e := ParseExpression(0, ts[2..]);
          if e.Fail? || !Starts(e.rest, RParen) then Fail else Ok(Apply(k, e.tree), e.rest[1..])
      case ListToken(k) =>
        if !Starts(ts[1..], LParen) then Fail
        else
          var es := ParseMembers(ts[2..]);
          if es.OkList? then Ok(Elements(k, es.trees), es.rest) else Fail
      case LParen =>
        var e := ParseExpression(0, ts[1..]);
        if e.Fail? || !Starts(e.rest, RParen) then Fail else Ok(e.tree, e.rest[1..])
      case _ => Fail
    }
  }

  /** Expressions between commas up to a closing bracket; possibly none. */
  function ParseMembers(ts: seq<Token>): (r: ParsedList)
    ensures r.OkList? ==> |r.rest| < |ts|
    decreases |ts|, 3
  {
    if Starts(ts, RParen) then OkList([], ts[1..])
    else
      var es := ParseSequence(ts);
      if es.FailList? || !Starts(es.rest, RParen) then FailList else OkList(es.trees, es.rest[1..])
  }

  /** One or more expressions between commas. */
  function ParseSequence(ts: seq<Token>): (r: ParsedList)
    ensures r.OkList? ==> |r.rest| < |ts|
    decreases |ts|, 2
  {
    var e := ParseExpression(0, ts);
    if e.Fail? then FailList
    else if !Starts(e.rest, Comma) then OkList([e.tree], e.rest)
    else
      var es := ParseSequence(e.rest[1..]);
      if es.FailList? then FailList else OkList([e.tree] + es.trees, es.rest)
  }

  // ----- printing -----

  /** Every operator has a precedence and every number a sign-free text. */
  predicate Printable(e: Syntax) {
    match e
    case Leaf(l) => l.IntegerLiteral? ==> l.value >= 0
    case Name(_) => true
    case PrefixOp(_, a) => Printable(a)
    case Infix(op, a, b) => op != Integer(BitwiseAnd) && Printable(a) && Printable(b)
    case Access(_, a, b) => Printable(a) && Printable(b)
    case BitField(a, b, c) => Printable(a) && Printable(b) && Printable(c)
    case Call(f, es) => Printable(f) && forall a :: a in es ==> Printable(a)
    case Choice(a, b, c) => Printable(a) && Printable(b) && Printable(c)
    case Apply(_, a) => Printable(a)
    case Elements(_, es) => forall a :: a in es ==> Printable(a)
  }

  function LiteralToken(l: Literal): Token {
    match l
    case IntegerLiteral(n) => if n >= 0 then NumberToken(n) else OtherToken(0)
    case FloatLiteral(d) => FloatToken(d)
    case StringLiteral(s) => StringToken(s)
    case CharLiteral(c) => CharToken(c)
    case BooleanLiteral(b) => BooleanToken(b)
  }

  function PrefixSignOf(u: Prefix): Token {
    if u.Negation? then OperatorToken(MINUS) else PrefixToken(u)
  }

  /** Brackets are needed where operators of at most `level` end the expression, or where a token of
    * precedence `after` behind it would be taken into its last operand.
    */
  predicate NeedsBrackets(e: Syntax, level: nat, after: nat) {
    match e
    case Infix(op, _, _) => OperatorPrecedence(op) <= level || after > OperatorPrecedence(op)
    case Choice(_, _, _) => 1 <= level || after > 1
    case PrefixOp(_, _) => after > 8
    case Access(_, _, _) => 9 <= level
    case BitField(_, _, _) => 9 <= level
    case Call(_, _) => 9 <= level
    case _ => false
  }

  function Print(e: Syntax, level: nat, after: nat): seq<Token>
    decreases e, 2
  {
    if NeedsBrackets(e, level, after) then [LParen] + PrintBare(e, 0, 0) + [RParen] else PrintBare(e, level, after)
  }

  function PrintBare(e: Syntax, level: nat, after: nat): seq<Token>
    decreases e, 1
  {
    match e
    case Leaf(l) => [LiteralToken(l)]
    case Name(x) => [NameToken(x)]
    case PrefixOp(u, a) => [PrefixSignOf(u)] + Print(a, 8, after)
    case Infix(op, a, b) =>
      var q := OperatorPrecedence(op);
      Print(a, level, q) + ([OperatorToken(op)] + Print(b, q, after))
    case Access(k, a, b) => Print(a, level, 9) + ([IndexToken(k)] + Print(b, 9, after))
    case BitField(a, s, w) =>
      Print(a, level, 9) + ([BitfieldToken, LParen] + (Print(s, 0, 0) + ([Comma] + (Print(w, 0, 0) + [RParen]))))
    case Call(f, es) => Print(f, level, 9) + ([LParen] + (PrintSequence(es) + [RParen]))
    case Choice(c, a, b) =>
      Print(c, level, 1) + ([ConditionalToken] + (Print(a, 0, 0) + ([Comma] + Print(b, 1, after))))
    case Apply(k, a) => [IntrinsicToken(k), LParen] + (Print(a, 0, 0) + [RParen])
    case Elements(k, es) => [ListToken(k), LParen] + (PrintSequence(es) + [RParen])
  }

  function PrintSequence(es: seq<Syntax>): seq<Token>
    decreases es, 0
  {
    if es == [] then []
    else if |es| == 1 then Print(es[0], 0, 0)
    else Print(es[0], 0, 0) + ([Comma] + PrintSequence(es[1..]))
  }
}
