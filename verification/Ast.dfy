/** The pure integer fragment of the syntax tree: 64-bit words, expressions,
  * statements, and the store they read and write.
  */
module Ast {
  import opened Wrappers

  const HALF_RANGE: int := 0x8000_0000_0000_0000
  const FULL_RANGE: int := 0x1_0000_0000_0000_0000

  /** A signed 64-bit machine word. */
  type Word = n: int | -HALF_RANGE <= n < HALF_RANGE

  const TRUE_WORD: Word := -1

  function Wrap(n: int): Word {
    (n + HALF_RANGE) % FULL_RANGE - HALF_RANGE
  }

  lemma WrapShift(n: int, k: int)
    ensures Wrap(n + k * FULL_RANGE) == Wrap(n)
  {
  }

  lemma WrapParts(n: int) returns (k: int)
    ensures Wrap(n) == n + k * FULL_RANGE
  {
    k := -((n + HALF_RANGE) / FULL_RANGE);
  }

  function Truth(b: bool): Word {
    if b then TRUE_WORD else 0
  }

  /** Division as the machine does it: towards zero, and zero for a zero divisor. */
  function Quotient(a: int, b: int): int {
    if b == 0 then 0
    else if (a < 0) == (b < 0) then Magnitude(a) / Magnitude(b)
    else -(Magnitude(a) / Magnitude(b))
  }

  function Magnitude(a: int): nat {
    if a < 0 then -a else a
  }

  function Pow2(n: nat): (p: nat)
    ensures p > 0
  {
    if n == 0 then 1 else 2 * Pow2(n - 1)
  }

  /** Combines the lowest `bits` bits of two words, one bit at a time. */
  function Bitwise(a: int, b: int, bits: nat, both: bool): nat
    decreases bits
  {
    if bits == 0 then 0
    else
      var one := if both then a % 2 == 1 && b % 2 == 1 else a % 2 == 1 || b % 2 == 1;
      (if one then 1 else 0) + 2 * Bitwise(a / 2, b / 2, bits - 1, both)
  }

  datatype BinaryOperator =
    | Add | Subtract | Multiply | Divide | Remainder
    | Equal | NotEqual | Less | LessEqual | Greater | GreaterEqual
    | LogicalAnd | BitwiseAnd | LogicalOr | BitwiseOr | Equivalence | NotEquivalence
    | LeftShift | RightShift

  datatype UnaryOperator = LogicalNot | BitwiseNot | Negate

  datatype Expr =
    | Number(value: Word)
    | Boolean(truth: bool)
    | Variable(name: string)
    | Unary(unaryOp: UnaryOperator, operand: Expr)
    | Binary(op: BinaryOperator, left: Expr, right: Expr)
    | Conditional(condition: Expr, whenTrue: Expr, whenFalse: Expr)

  type Store = map<string, Word>

  function Lookup(s: Store, name: string): Word {
    if name in s then s[name] else 0
  }

  function Apply(op: BinaryOperator, a: Word, b: Word): Word {
    match op
    case Add => Wrap(a + b)
    case Subtract => Wrap(a - b)
    case Multiply => Wrap(a * b)
    case Divide => Wrap(Quotient(a, b))
    case Remainder => Wrap(a - Quotient(a, b) * b)
    case Equal => Truth(a == b)
    case NotEqual => Truth(a != b)
    case Less => Truth(a < b)
    case LessEqual => Truth(a <= b)
    case Greater => Truth(a > b)
    case GreaterEqual => Truth(a >= b)
    case LogicalAnd => Truth(a != 0 && b != 0)
    case BitwiseAnd => Wrap(Bitwise(a, b, 64, true))
    case LogicalOr => Truth(a != 0 || b != 0)
    case BitwiseOr => Wrap(Bitwise(a, b, 64, false))
    case Equivalence => Truth(a == b)
    case NotEquivalence => Truth(a != b)
    case LeftShift => Wrap(a * Pow2(b % 64))
    case RightShift => Wrap(a / Pow2(b % 64))
  }

  function ApplyUnary(op: UnaryOperator, a: Word): Word {
    match op
    case LogicalNot => Truth(a == 0)
    case BitwiseNot => Wrap(-1 - a)
    case Negate => Wrap(0 - a)
  }

  function Eval(e: Expr, s: Store): Word {
    match e
    case Number(n) => n
    case Boolean(b) => Truth(b)
    case Variable(x) => Lookup(s, x)
    case Unary(op, a) => ApplyUnary(op, Eval(a, s))
    case Binary(op, a, b) => Apply(op, Eval(a, s), Eval(b, s))
    case Conditional(c, t, f) => if Eval(c, s) != 0 then Eval(t, s) else Eval(f, s)
  }

  /** All right-hand sides are evaluated in the same store. */
  function EvalAll(es: seq<Expr>, s: Store): (vs: seq<Word>)
    ensures |vs| == |es|
    ensures forall i :: 0 <= i < |es| ==> vs[i] == Eval(es[i], s)
  {
    if es == [] then [] else [Eval(es[0], s)] + EvalAll(es[1..], s)
  }

  function StoreAll(s: Store, names: seq<string>, values: seq<Word>): Store
    decreases |names|
  {
    if names == [] || values == [] then s
    else StoreAll(s[names[0] := values[0]], names[1..], values[1..])
  }

  /** The last of the targets with a name decides what the name stands for. */
  lemma {:induction false} StoreHolds(s: Store, xs: seq<string>, vs: seq<Word>, i: nat)
    requires i < |xs| && i < |vs| && xs[i] !in xs[i + 1..]
    ensures Lookup(StoreAll(s, xs, vs), xs[i]) == vs[i]
    decreases |xs|
  {
    if i > 0 {
      assert xs[1..][i..] == xs[i + 1..];
      StoreHolds(s[xs[0] := vs[0]], xs[1..], vs[1..], i - 1);
    } else {
      StoreKeeps(s[xs[0] := vs[0]], xs[1..], vs[1..], xs[0]);
    }
  }

  lemma {:induction false} StoreKeeps(s: Store, xs: seq<string>, vs: seq<Word>, x: string)
    requires x !in xs
    ensures Lookup(StoreAll(s, xs, vs), x) == Lookup(s, x)
    decreases |xs|
  {
    if xs != [] && vs != [] {
      StoreKeeps(s[xs[0] := vs[0]], xs[1..], vs[1..], x);
    }
  }

  datatype BranchCode = EQ | NE

  datatype Case = Case(constant: Option<Word>, command: Stmt)

  datatype Stmt =
    | Assign(targets: seq<string>, values: seq<Expr>)
    | Let(names: seq<string>, initializers: seq<Expr>)
    | If(condition: Expr, thenBranch: Stmt)
    | For(variable: string, start: Expr, end: Expr, step: Option<Expr>, body: Stmt)
    | Switchon(selector: Expr, cases: seq<Case>, defaultCase: Option<Stmt>)
    | Compound(statements: seq<Stmt>)
    | Break
    | Loop
    | Endcase
    | Return
    | ConditionalBranch(code: BranchCode, test: Expr)

  function StepOf(step: Option<Expr>): Expr {
    if step.Some? then step.value else Number(1)
  }

  /** The statement that advances the loop variable. */
  function Increment(variable: string, step: Option<Expr>): Stmt {
    Assign([variable], [Binary(Add, Variable(variable), StepOf(step))])
  }

  /** The index of the first case whose constant is `v`, or the number of cases. */
  function FirstCase(cases: seq<Case>, v: Word): (k: nat)
    ensures k <= |cases|
    ensures k < |cases| ==> cases[k].constant == Some(v)
    ensures forall j :: 0 <= j < k ==> cases[j].constant != Some(v)
  {
    if cases == [] || cases[0].constant == Some(v) then 0
    else 1 + FirstCase(cases[1..], v)
  }
}
