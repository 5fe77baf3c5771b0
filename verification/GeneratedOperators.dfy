/** The operators as the code generator translates them, and where constant folding agrees with that. */
module GeneratedOperators {
  import opened Wrappers
  import opened Ast
  import opened ConstantFolding

  // ----- what the generated instructions compute -----

  /** A condition is set as 1. */
  function Set(b: bool): Word {
    if b then 1 else 0
  }

  /** Shifts in zeros from the left. */
  function ShiftRight(a: Word, k: nat): Word {
    Wrap(a % FULL_RANGE / Pow2(k))
  }

  /** For bitwise OR and NEQV no instruction is emitted, so the left operand stays where the result is expected. The
    * logical operators have no running code: loading the result of OR asks for shifts that the encoder refuses, and the
    * branches of AND go to labels that nothing defines, which the linker refuses.
    */
  function Generated(op: BinaryOperator, a: Word, b: Word): Option<Word> {
    match op
    case Add => Some(Wrap(a + b))
    case Subtract => Some(Wrap(a - b))
    case Multiply => Some(Wrap(a * b))
    case Divide => Some(Wrap(Quotient(a, b)))
    case Remainder => Some(Wrap(a - Wrap(Wrap(Quotient(a, b)) * b)))
    case Equal => Some(Set(a == b))
    case NotEqual => Some(if a != b then -1 else 0)
    case Less => Some(Set(a < b))
    case LessEqual => Some(Set(a <= b))
    case Greater => Some(Set(a > b))
    case GreaterEqual => Some(Set(a >= b))
    case LogicalAnd => None
    case BitwiseAnd => Some(Wrap(Bitwise(a, b, 64, true)))
    case LogicalOr => None
    case BitwiseOr => Some(a)
    case Equivalence => Some(Set(a == b))
    case NotEquivalence => Some(a)
    case LeftShift => Some(Wrap(a * Pow2(b % 64)))
    case RightShift => Some(ShiftRight(a, b % 64))
  }

  function GeneratedUnary(op: UnaryOperator, a: Word): Word {
    match op
    case LogicalNot => Set(a == 0)
    case BitwiseNot => Wrap(-1 - a)
    case Negate => Wrap(0 - a)
  }

  function OfOne(op: UnaryOperator, x: Option<Word>): Option<Word> {
    if x.Some? then Some(GeneratedUnary(op, x.value)) else None
  }

  function OfTwo(op: BinaryOperator, x: Option<Word>, y: Option<Word>): Option<Word> {
    if x.Some? && y.Some? then Generated(op, x.value, y.value) else None
  }

  /** The value in the result register, if there is code that can be linked. TRUE is loaded as 1. */
  function EvalGenerated(e: Expr, s: Store): Option<Word> {
    match e
    case Number(n) => Some(n)
    case Boolean(b) => Some(Set(b))
    case Variable(x) => Some(Lookup(s, x))
    case Unary(op, a) => OfOne(op, EvalGenerated(a, s))
    case Binary(op, a, b) => OfTwo(op, EvalGenerated(a, s), EvalGenerated(b, s))
    case Conditional(c, t, f) =>
      var x, y, z := EvalGenerated(c, s), EvalGenerated(t, s), EvalGenerated(f, s);
      if x.Some? && y.Some? && z.Some? then (if x.value != 0 then y else z) else None
  }

  predicate HasLogical(e: Expr) {
    match e
    case Unary(_, a) => HasLogical(a)
    case Binary(op, a, b) => op.LogicalAnd? || op.LogicalOr? || HasLogical(a) || HasLogical(b)
    case Conditional(c, t, f) => HasLogical(c) || HasLogical(t) || HasLogical(f)
    case _ => false
  }

  /** An expression has running code exactly when there is no logical AND or OR in it, whatever is evaluated. */
  lemma {:induction false} RunsExactly(e: Expr, s: Store)
    ensures EvalGenerated(e, s).Some? <==> !HasLogical(e)
  {
    hide GeneratedUnary, Wrap, Bitwise, Pow2, Quotient, ShiftRight;
    match e
    case Unary(_, a) => RunsExactly(a, s);
    case Binary(_, a, b) =>
      RunsExactly(a, s);
      RunsExactly(b, s);
    case Conditional(c, t, f) =>
      RunsExactly(c, s);
      RunsExactly(t, s);
      RunsExactly(f, s);
    case _ =>
  }

  // ----- the folder's table and the generator's -----

  /** The operands on which the two tables have the same result. */
  predicate SameResult(op: BinaryOperator, a: Word, b: Word) {
    match op
    case Equal => a != b
    case Less => a >= b
    case LessEqual => a > b
    case Greater => a <= b
    case GreaterEqual => a < b
    case Equivalence => a != b
    case NotEquivalence => if a == b then a == 0 else a == -1
    case LogicalAnd => false
    case LogicalOr => false
    case BitwiseOr => Wrap(Bitwise(a, b, 64, true)) == b
    case RightShift => a >= 0 || b % 64 == 0
    case _ => true
  }

  /** Folder and generator agree on an operator exactly for these operands. */
  lemma TablesAgreeExactly(op: BinaryOperator, a: Word, b: Word)
    ensures Generated(op, a, b) == Some(Apply(op, a, b)) <==> SameResult(op, a, b)
  {
    hide Bitwise, Pow2, Quotient, Wrap, ShiftRight;
    match op {
      case Remainder => RemainderAgrees(a, Quotient(a, b), b);
      case BitwiseOr => OrAddsNothing(a, b);
      case RightShift => ShiftAgreesExactly(a, b % 64);
      case _ =>
    }
  }

  lemma RemainderAgrees(a: int, q: int, b: int)
    ensures Wrap(a - Wrap(Wrap(q) * b)) == Wrap(a - q * b)
  {
    var i := WrapParts(q);
    var j := WrapParts(Wrap(q) * b);
    hide Wrap;
    var k := -(i * b + j);
    assert a - Wrap(Wrap(q) * b) == a - q * b + k * FULL_RANGE by {
      assert Wrap(q) * b == q * b + i * b * FULL_RANGE;
    }
    WrapShift(a - q * b, k);
  }

  lemma ShiftAgreesExactly(a: Word, k: nat)
    ensures ShiftRight(a, k) == Wrap(a / Pow2(k)) <==> a >= 0 || k == 0
  {
    assert k == 0 ==> Pow2(k) == 1;
    assert k > 0 ==> Pow2(k) >= 2;
    UnsignedWord(a);
    hide Pow2, Wrap;
    if k == 0 {
      WrapShift(a, 1);
    } else if a < 0 {
      Halves(a, Pow2(k));
      Halves(a + FULL_RANGE, Pow2(k));
      WordWraps(a / Pow2(k));
      WordWraps((a + FULL_RANGE) / Pow2(k));
    }
  }

  lemma UnsignedWord(a: Word)
    ensures a % FULL_RANGE == if a < 0 then a + FULL_RANGE else a
  {
  }

  lemma WordWraps(n: int)
    ensures -HALF_RANGE <= n < HALF_RANGE ==> Wrap(n) == n
  {
  }

  lemma Monotone(x: int, y: int, p: int)
    ensures p >= 0 && x <= y ==> x * p <= y * p
  {
    if p >= 0 && x <= y {
      assert (y - x) * p >= 0;
    }
  }

  /** Dividing by two or more at least halves. */
  lemma Halves(a: int, p: int)
    requires p >= 2
    ensures a < 0 ==> a <= a / p < 0
    ensures a >= 0 ==> 0 <= a / p <= a / 2
  {
    HalvesParts(a, p, a / p, a % p);
  }

  lemma HalvesParts(a: int, p: int, q: int, r: int)
    requires p >= 2 && a == q * p + r && 0 <= r < p
    ensures a < 0 ==> a <= q < 0
    ensures a >= 0 ==> 0 <= q <= a / 2
  {
    Monotone(q, -1, p);
    Monotone(0, q, p);
    Monotone(q, a - 1, p);
    Monotone(1, p, -a);
    Monotone(2, p, q);
    assert (a - 1) * p == a * p - p && p * -a == -(a * p) && 2 * q == q * 2 && p * q == q * p;
  }

  lemma {:induction false} BitwiseIsSmall(a: int, b: int, bits: nat, both: bool)
    ensures 0 <= Bitwise(a, b, bits, both) < Pow2(bits)
    decreases bits
  {
    if bits > 0 {
      BitwiseIsSmall(a / 2, b / 2, bits - 1, both);
    }
  }

  /** Or-ing leaves a number as it is exactly when and-ing leaves the other one as it is. */
  lemma {:induction false} OrAndBits(a: int, b: int, bits: nat)
    ensures Bitwise(a, b, bits, false) == a % Pow2(bits) <==> Bitwise(a, b, bits, true) == b % Pow2(bits)
    decreases bits
  {
    if bits > 0 {
      OrAndBits(a / 2, b / 2, bits - 1);
      LowBit(a, Pow2(bits - 1));
      LowBit(b, Pow2(bits - 1));
    }
  }

  lemma LowBit(a: int, p: int)
    requires p > 0
    ensures a % (2 * p) == 2 * (a / 2 % p) + a % 2
  {
    var q := a / 2 / p;
    assert a / 2 == q * p + a / 2 % p;
    var r := 2 * (a / 2 % p) + a % 2;
    assert a == q * (2 * p) + r && 0 <= r < 2 * p;
    ModIs(a, 2 * p, q, r);
  }

  lemma ModIs(a: int, m: int, q: int, r: int)
    requires m > 0 && a == q * m + r && 0 <= r < m
    ensures a % m == r
  {
    var d := a / m - q;
    assert d * m == r - a % m;
    Monotone(1, d, m);
    Monotone(d, -1, m);
  }

  lemma FullRangeBits()
    ensures Pow2(64) == FULL_RANGE
  {
    assert Pow2(1) == 2;
    hide Pow2;
    Square(1, 2);
    Square(2, 4);
    Square(4, 16);
    Square(8, 256);
    Square(16, 65536);
    Square(32, 0x1_0000_0000);
  }

  lemma Square(n: nat, p: int)
    ensures Pow2(n) == p ==> Pow2(n + n) == p * p
  {
    PowersMultiply(n, n);
    hide Pow2;
  }

  lemma {:induction false} PowersMultiply(m: nat, n: nat)
    ensures Pow2(m + n) == Pow2(m) * Pow2(n)
  {
    if m > 0 {
      PowersMultiply(m - 1, n);
      assert 2 * Pow2(m - 1) * Pow2(n) == 2 * (Pow2(m - 1) * Pow2(n));
    }
  }

  lemma WrapBack(n: nat, a: Word)
    requires n < FULL_RANGE
    ensures Wrap(n) == a <==> n == a % FULL_RANGE
  {
  }

  lemma OrAddsNothing(a: Word, b: Word)
    ensures Wrap(Bitwise(a, b, 64, false)) == a <==> Wrap(Bitwise(a, b, 64, true)) == b
  {
    hide Wrap, Bitwise, Pow2;
    BitwiseIsSmall(a, b, 64, false);
    BitwiseIsSmall(a, b, 64, true);
    FullRangeBits();
    OrAndBits(a, b, 64);
    WrapBack(Bitwise(a, b, 64, false), a);
    WrapBack(Bitwise(a, b, 64, true), b);
  }

  // ----- folding, measured by the generated code -----

  /** Folding two numbers keeps what the generated code computes exactly when the tables agree on them. */
  lemma FoldingAgreesExactly(op: BinaryOperator, a: Word, b: Word, s: Store)
    ensures EvalGenerated(FoldBinary(op, Number(a), Number(b)), s) == EvalGenerated(Binary(op, Number(a), Number(b)), s)
            <==> SameResult(op, a, b)
  {
    hide Generated, Apply, Simplify, SameResult;
    TablesAgreeExactly(op, a, b);
    Unfolded(op, a, b);
  }

  lemma Unfolded(op: BinaryOperator, a: Word, b: Word)
    ensures !Folds(op, b) ==> SameResult(op, a, b) && Simplify(op, Number(a), Number(b)) == Binary(op, Number(a), Number(b))
  {
  }

  lemma FoldingUnaryAgreesExactly(op: UnaryOperator, a: Word, s: Store)
    ensures EvalGenerated(FoldUnary(op, Number(a)), s) == EvalGenerated(Unary(op, Number(a)), s)
            <==> !(op.LogicalNot? && a == 0)
  {
  }

  lemma NeutralGenerated(v: Word)
    ensures Generated(Add, 0, v) == Generated(Add, v, 0) == Generated(Subtract, v, 0) == Some(v)
    ensures Generated(Multiply, 1, v) == Generated(Multiply, v, 1) == Generated(Divide, v, 1) == Some(v)
    ensures Generated(Multiply, 0, v) == Generated(Multiply, v, 0) == Some(0)
  {
    NeutralSums(v);
    NeutralFactors(v);
    hide Bitwise, Pow2, Wrap, Quotient;
  }

  lemma SmallConstants(e: Expr, s: Store)
    ensures IsConstant(e, 0) ==> EvalGenerated(e, s) == Some(0)
    ensures IsConstant(e, 1) ==> EvalGenerated(e, s) == Some(1)
  {
  }

  lemma GeneratedBinary(op: BinaryOperator, l: Expr, r: Expr, s: Store)
    ensures EvalGenerated(Binary(op, l, r), s) == OfTwo(op, EvalGenerated(l, s), EvalGenerated(r, s))
    ensures EvalGenerated(Number(0), s) == Some(0)
  {
    hide OfTwo;
  }

  /** The identities hold for the generated code too. */
  lemma SimplifyKeepsGenerated(op: BinaryOperator, l: Expr, r: Expr, s: Store)
    requires OfTwo(op, EvalGenerated(l, s), EvalGenerated(r, s)).Some?
    ensures EvalGenerated(Simplify(op, l, r), s) == OfTwo(op, EvalGenerated(l, s), EvalGenerated(r, s))
  {
    hide Generated, EvalGenerated, IsConstant, Simplify;
    SimplifyForm(op, l, r);
    SmallConstants(l, s);
    SmallConstants(r, s);
    NeutralGenerated(EvalGenerated(l, s).value);
    NeutralGenerated(EvalGenerated(r, s).value);
    GeneratedBinary(op, l, r, s);
  }

  /** No operator is folded on operands for which the tables differ, and none on the literal TRUE. */
  predicate Harmless(e: Expr, known: Constants, manifests: Constants) {
    match e
    case Unary(op, a) =>
      var d := FoldExpr(a, known, manifests);
      && Harmless(a, known, manifests)
      && (IntegerConstant(d).Some? && !op.BitwiseNot? ==> d != Boolean(true) && !(op.LogicalNot? && IsConstant(d, 0)))
    case Binary(op, l, r) =>
      var x, y := FoldExpr(l, known, manifests), FoldExpr(r, known, manifests);
      var a, b := IntegerConstant(x), IntegerConstant(y);
      && Harmless(l, known, manifests) && Harmless(r, known, manifests)
      && (a.Some? && b.Some? && Folds(op, b.value) ==>
            x != Boolean(true) && y != Boolean(true) && SameResult(op, a.value, b.value))
    case Conditional(c, t, f) => Harmless(c, known, manifests) && Harmless(t, known, manifests) && Harmless(f, known, manifests)
    case _ => true
  }

  lemma ConstantGenerated(e: Expr, s: Store)
    ensures IntegerConstant(e).Some? && e != Boolean(true) ==> EvalGenerated(e, s) == Some(IntegerConstant(e).value)
    ensures IntegerConstant(e).Some? ==>
              EvalGenerated(e, s).Some? && (EvalGenerated(e, s).value != 0 <==> IntegerConstant(e).value != 0)
  {
  }

  /** Then a folded expression is worth what the running code makes of the original. */
  lemma {:induction false} FoldExprKeepsGenerated(e: Expr, known: Constants, manifests: Constants, s: Store)
    requires Agrees(s, known) && Agrees(s, manifests) && Harmless(e, known, manifests) && EvalGenerated(e, s).Some?
    ensures EvalGenerated(FoldExpr(e, known, manifests), s) == EvalGenerated(e, s)
  {
    hide Generated, GeneratedUnary, Apply, ApplyUnary, Simplify, SameResult, IsConstant;
    match e
    case Unary(op, a) =>
      FoldExprKeepsGenerated(a, known, manifests, s);
      UnaryKeepsGenerated(op, FoldExpr(a, known, manifests), s);
    case Binary(op, l, r) =>
      FoldExprKeepsGenerated(l, known, manifests, s);
      FoldExprKeepsGenerated(r, known, manifests, s);
      BinaryKeepsGenerated(op, FoldExpr(l, known, manifests), FoldExpr(r, known, manifests), s);
    case Conditional(c, t, f) =>
      FoldExprKeepsGenerated(c, known, manifests, s);
      FoldExprKeepsGenerated(t, known, manifests, s);
      FoldExprKeepsGenerated(f, known, manifests, s);
      ConstantGenerated(FoldExpr(c, known, manifests), s);
    case _ =>
  }

  lemma UnaryKeepsGenerated(op: UnaryOperator, d: Expr, s: Store)
    requires IntegerConstant(d).Some? && !op.BitwiseNot? ==> d != Boolean(true) && !(op.LogicalNot? && IsConstant(d, 0))
    ensures EvalGenerated(FoldUnary(op, d), s) == OfOne(op, EvalGenerated(d, s))
  {
    ConstantGenerated(d, s);
    hide EvalGenerated, Wrap;
    if IntegerConstant(d).Some? && !op.BitwiseNot? {
      NumberGenerated(ApplyUnary(op, IntegerConstant(d).value), s);
    } else {
      GeneratedOne(op, d, s);
    }
  }

  lemma NumberGenerated(n: Word, s: Store)
    ensures EvalGenerated(Number(n), s) == Some(n)
  {
  }

  lemma GeneratedOne(op: UnaryOperator, d: Expr, s: Store)
    ensures EvalGenerated(Unary(op, d), s) == OfOne(op, EvalGenerated(d, s))
  {
    hide OfOne;
  }

  lemma BinaryKeepsGenerated(op: BinaryOperator, x: Expr, y: Expr, s: Store)
    requires OfTwo(op, EvalGenerated(x, s), EvalGenerated(y, s)).Some?
    requires var a, b := IntegerConstant(x), IntegerConstant(y);
             a.Some? && b.Some? && Folds(op, b.value) ==>
               x != Boolean(true) && y != Boolean(true) && SameResult(op, a.value, b.value)
    ensures EvalGenerated(FoldBinary(op, x, y), s) == OfTwo(op, EvalGenerated(x, s), EvalGenerated(y, s))
  {
    hide EvalGenerated, Generated, Apply, SameResult, Simplify, Folds;
    var a, b := IntegerConstant(x), IntegerConstant(y);
    ConstantGenerated(x, s);
    ConstantGenerated(y, s);
    if a.Some? && b.Some? && Folds(op, b.value) {
      TablesAgreeExactly(op, a.value, b.value);
      NumberGenerated(Apply(op, a.value, b.value), s);
    } else {
      SimplifyKeepsGenerated(op, x, y, s);
    }
  }

  // ----- inputs on which they differ -----

  /** -8 >> 1 is -4 when folded, and a large positive number when computed. */
  lemma ShiftIsFoldedOtherwise(s: Store)
    ensures FoldBinary(RightShift, Number(-8), Number(1)) == Number(-4)
    ensures EvalGenerated(Binary(RightShift, Number(-8), Number(1)), s) == Some(HALF_RANGE - 4)
  {
    assert Pow2(1) == 2;
    assert Wrap(-8 / 2) == -4 && Wrap(-8 % FULL_RANGE / 2) == HALF_RANGE - 4;
    hide Wrap, Pow2;
    assert Apply(RightShift, -8, 1) == Wrap(-8 / Pow2(1));
  }

  /** 1 < 2 is -1 when folded, and 1 when computed. */
  lemma ComparisonIsFoldedOtherwise(s: Store)
    ensures FoldBinary(Less, Number(1), Number(2)) == Number(-1)
    ensures EvalGenerated(Binary(Less, Number(1), Number(2)), s) == Some(1)
  {
  }

  /** TRUE + 1 is 0 when folded, and 2 when computed. */
  lemma TruthIsFoldedOtherwise(s: Store)
    ensures FoldBinary(Add, Boolean(true), Number(1)) == Number(0)
    ensures EvalGenerated(Binary(Add, Boolean(true), Number(1)), s) == Some(2)
  {
    assert Apply(Add, -1, 1) == 0 && Generated(Add, 1, 1) == Some(2);
  }

  /** 1 OR 0 is -1 when folded, and has no code otherwise. */
  lemma OrIsOnlyFolded(s: Store)
    ensures FoldBinary(LogicalOr, Number(1), Number(0)) == Number(-1)
    ensures EvalGenerated(Binary(LogicalOr, Number(1), Number(0)), s) == None
  {
  }
}
