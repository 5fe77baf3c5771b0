/** What each operator gives, told without computing it, and what constant folding makes of constant expressions. */
module OperatorResults {
  import opened Wrappers
  import opened Ast
  import opened ConstantFolding
  import opened GeneratedOperators

  // ----- what the operators are for -----

  /** The word that is left of an unbounded number. */
  predicate SameWord(r: int, n: int) {
    (r - n) % 0x1_0000_0000_0000_0000 == 0
  }

  /** Bit `k` in two's complement. */
  predicate BitAt(n: int, k: nat)
    decreases k
  {
    if k == 0 then n % 2 == 1 else BitAt(n / 2, k - 1)
  }

  function Doubled(n: int, k: nat): int {
    if k == 0 then n else 2 * Doubled(n, k - 1)
  }

  function Halved(n: int, k: nat): int {
    if k == 0 then n else Halved(n, k - 1) / 2
  }

  /** Division towards zero: what is left over is less than the divisor and has the sign of the dividend. */
  predicate DividesTo(a: int, b: int, q: int, left: int) {
    && a == q * b + left
    && (if b < 0 then b < left < -b else -b < left < b)
    && (left < 0 ==> a < 0)
    && (left > 0 ==> a > 0)
  }

  ghost predicate Means(op: BinaryOperator, a: Word, b: Word, r: Word) {
    match op
    case Add => SameWord(r, a + b)
    case Subtract => SameWord(r, a - b)
    case Multiply => SameWord(r, a * b)
    case Divide => if b == 0 then r == 0 else exists q, left :: DividesTo(a, b, q, left) && SameWord(r, q)
    case Remainder => if b == 0 then r == a else exists q :: DividesTo(a, b, q, r)
    case Equal => r == if a == b then -1 else 0
    case NotEqual => r == if a == b then 0 else -1
    case Less => r == if a < b then -1 else 0
    case LessEqual => r == if a <= b then -1 else 0
    case Greater => r == if b < a then -1 else 0
    case GreaterEqual => r == if b <= a then -1 else 0
    case LogicalAnd => r == if a == 0 || b == 0 then 0 else -1
    case LogicalOr => r == if a == 0 && b == 0 then 0 else -1
    case BitwiseAnd => forall k: nat :: k < 64 ==> (BitAt(r, k) <==> BitAt(a, k) && BitAt(b, k))
    case BitwiseOr => forall k: nat :: k < 64 ==> (BitAt(r, k) <==> BitAt(a, k) || BitAt(b, k))
    case Equivalence => r == if a == b then -1 else 0
    case NotEquivalence => r == if a == b then 0 else -1
    case LeftShift => SameWord(r, Doubled(a, b % 64))
    case RightShift => r == Halved(a, b % 64)
  }

  ghost predicate MeansUnary(op: UnaryOperator, a: Word, r: Word) {
    match op
    case LogicalNot => r == if a == 0 then -1 else 0
    case BitwiseNot => forall k: nat :: k < 64 ==> (BitAt(r, k) <==> !BitAt(a, k))
    case Negate => SameWord(r + a, 0)
  }

  // ----- words, quotients and bits -----

  lemma SameWordExactly(r: Word, n: int)
    ensures SameWord(r, n) <==> r == Wrap(n)
  {
  }

  lemma QuotientDivides(a: int, b: int)
    requires b != 0
    ensures DividesTo(a, b, Quotient(a, b), a - Quotient(a, b) * b)
  {
    var q, left := QuotientParts(Magnitude(a), Magnitude(b));
    QuotientSigned(a, b, q);
    SignsDivide(Magnitude(a), Magnitude(b), q, left);
    hide Quotient, DividesTo;
    var p, rest := Signed((a < 0) == (b < 0), q), Signed(a >= 0, left);
    assert DividesTo(a, b, p, rest);
    LeftOver(a, b, p, rest);
  }

  function Signed(plus: bool, n: int): int {
    if plus then n else -n
  }

  lemma QuotientSigned(a: int, b: int, q: int)
    requires b != 0 && q == Magnitude(a) / Magnitude(b)
    ensures Quotient(a, b) == Signed((a < 0) == (b < 0), q)
  {
  }

  lemma QuotientParts(m: nat, n: nat) returns (q: int, left: int)
    requires n > 0
    ensures q == m / n && m == q * n + left && 0 <= left < n
  {
    q, left := m / n, m % n;
  }

  lemma LeftOver(a: int, b: int, q: int, left: int)
    ensures DividesTo(a, b, q, left) ==> left == a - q * b
  {
  }

  lemma SignsDivide(m: int, n: int, q: int, left: int)
    requires m == q * n + left && 0 <= left < n && 0 <= m
    ensures DividesTo(m, n, q, left) && DividesTo(-m, -n, q, -left)
    ensures DividesTo(m, -n, -q, left) && DividesTo(-m, n, -q, -left)
  {
    Negations(q, n);
    if m == 0 {
      Monotone(1, q, n);
      Monotone(q, -1, n);
    }
  }

  lemma Negations(q: int, n: int)
    ensures (-q) * n == -(q * n) && q * -n == -(q * n) && (-q) * -n == q * n
  {
  }

  lemma DividesToOne(a: int, b: int, q: int, left: int, p: int, rest: int)
    requires b != 0 && DividesTo(a, b, q, left) && DividesTo(a, b, p, rest)
    ensures q == p && left == rest
  {
    Distribute(q, p, b);
    NoMultiple(q - p, b, rest - left);
  }

  lemma Distribute(q: int, p: int, b: int)
    ensures (q - p) * b == q * b - p * b
  {
  }

  lemma NoMultiple(d: int, b: int, x: int)
    requires d * b == x && (b < x < -b || -b < x < b)
    ensures d == 0 && x == 0
  {
    Monotone(1, d, Magnitude(b));
    Monotone(d, -1, Magnitude(b));
    assert d * -b == -(d * b);
  }

  lemma {:induction false} BitsAreKept(n: int, m: int, w: nat, k: nat)
    requires k < w
    ensures BitAt(n + m * Pow2(w), k) <==> BitAt(n, k)
    decreases k
  {
    var x := m * Pow2(w - 1);
    assert m * Pow2(w) == 2 * x;
    assert (n + 2 * x) / 2 == n / 2 + x && (n + 2 * x) % 2 == n % 2;
    if k > 0 {
      BitsAreKept(n / 2, m, w - 1, k - 1);
    }
  }

  lemma WrapKeepsBits(n: int, k: nat)
    requires k < 64
    ensures BitAt(Wrap(n), k) <==> BitAt(n, k)
  {
    var m := WrapParts(n);
    hide BitAt, Wrap;
    FullRangeBits();
    hide Pow2;
    BitsAreKept(n, m, 64, k);
  }

  /** Words with the same bits are the same. */
  lemma {:induction false} SameBits(a: int, b: int, n: nat)
    requires forall k: nat :: k < n ==> (BitAt(a, k) <==> BitAt(b, k))
    ensures a % Pow2(n) == b % Pow2(n)
    decreases n
  {
    if n > 0 {
      assert BitAt(a, 0) <==> BitAt(b, 0);
      forall k: nat | k < n - 1
        ensures BitAt(a / 2, k) <==> BitAt(b / 2, k)
      {
        assert BitAt(a, k + 1) <==> BitAt(b, k + 1);
      }
      SameBits(a / 2, b / 2, n - 1);
      LowBit(a, Pow2(n - 1));
      LowBit(b, Pow2(n - 1));
    }
  }

  lemma SameBitsSameWord(a: Word, b: Word)
    requires forall k: nat :: k < 64 ==> (BitAt(a, k) <==> BitAt(b, k))
    ensures a == b
  {
    hide BitAt;
    SameBits(a, b, 64);
    FullRangeBits();
  }

  lemma {:induction false} BitwiseBits(a: int, b: int, n: nat, both: bool, k: nat)
    requires k < n
    ensures BitAt(Bitwise(a, b, n, both), k) <==>
            if both then BitAt(a, k) && BitAt(b, k) else BitAt(a, k) || BitAt(b, k)
    decreases k
  {
    if k > 0 {
      BitwiseBits(a / 2, b / 2, n - 1, both, k - 1);
    }
  }

  lemma BitwiseMeans(a: Word, b: Word, both: bool)
    ensures forall k: nat :: k < 64 ==>
              (BitAt(Wrap(Bitwise(a, b, 64, both)), k) <==>
               if both then BitAt(a, k) && BitAt(b, k) else BitAt(a, k) || BitAt(b, k))
  {
    hide BitAt, Wrap, Bitwise;
    forall k: nat | k < 64
      ensures BitAt(Wrap(Bitwise(a, b, 64, both)), k) <==>
              if both then BitAt(a, k) && BitAt(b, k) else BitAt(a, k) || BitAt(b, k)
    {
      BitwiseBits(a, b, 64, both, k);
      WrapKeepsBits(Bitwise(a, b, 64, both), k);
    }
  }

  lemma {:induction false} NotBits(a: int, k: nat)
    ensures BitAt(-1 - a, k) <==> !BitAt(a, k)
    decreases k
  {
    if k > 0 {
      assert (-1 - a) / 2 == -1 - a / 2;
      NotBits(a / 2, k - 1);
    }
  }

  lemma {:induction false} DoubledIs(a: int, k: nat)
    ensures Doubled(a, k) == a * Pow2(k)
  {
    if k > 0 {
      DoubledIs(a, k - 1);
      assert 2 * (a * Pow2(k - 1)) == a * (2 * Pow2(k - 1));
    }
  }

  lemma {:induction false} HalvedIs(a: int, k: nat)
    ensures Halved(a, k) == a / Pow2(k)
  {
    if k > 0 {
      HalvedIs(a, k - 1);
      HalvedAgain(a, Pow2(k - 1));
    }
  }

  lemma HalvedAgain(a: int, p: int)
    requires p > 0
    ensures a / p / 2 == a / (2 * p)
  {
    var q := a / p / 2;
    var r := a / p % 2 * p + a % p;
    assert a == q * (2 * p) + r by {
      assert a == a / p * p + a % p;
      assert a / p * p == (2 * q + a / p % 2) * p;
    }
    QuotientIs(a, 2 * p, q, r);
  }

  lemma QuotientIs(a: int, m: int, q: int, r: int)
    requires m > 0 && a == q * m + r && 0 <= r < m
    ensures a / m == q
  {
    var d := a / m - q;
    assert d * m == r - a % m;
    Monotone(1, d, m);
    Monotone(d, -1, m);
  }

  lemma WordShiftsRight(a: Word, k: nat)
    ensures Wrap(a / Pow2(k)) == a / Pow2(k)
  {
    var p := Pow2(k);
    assert k == 0 ==> p == 1;
    assert k > 0 ==> p >= 2;
    hide Pow2;
    if k > 0 {
      Halves(a, p);
    }
    WordWraps(a / p);
  }

  // ----- the operators do what they are for, and nothing else does -----

  lemma DivideExactly(a: Word, b: Word, r: Word)
    ensures Means(Divide, a, b, r) <==> r == Apply(Divide, a, b)
    ensures Means(Remainder, a, b, r) <==> r == Apply(Remainder, a, b)
  {
    hide DividesTo, Quotient, SameWord, Wrap;
    if b == 0 {
      ZeroDivisor(a);
    } else {
      var q := Quotient(a, b);
      var left := a - q * b;
      QuotientDivides(a, b);
      forall p, rest | DividesTo(a, b, p, rest)
        ensures p == q && rest == left
      {
        DividesToOne(a, b, q, left, p, rest);
      }
      SameWordExactly(r, q);
      RemainderIsSmall(a, b, q, left);
      WordWraps(left);
    }
  }

  lemma ZeroDivisor(a: Word)
    ensures Apply(Divide, a, 0) == 0 && Apply(Remainder, a, 0) == a
  {
  }

  lemma RemainderIsSmall(a: Word, b: Word, q: int, left: int)
    requires b != 0 && DividesTo(a, b, q, left)
    ensures -HALF_RANGE <= left < HALF_RANGE
  {
  }

  lemma BitsExactly(a: Word, b: Word, r: Word)
    ensures Means(BitwiseAnd, a, b, r) <==> r == Apply(BitwiseAnd, a, b)
    ensures Means(BitwiseOr, a, b, r) <==> r == Apply(BitwiseOr, a, b)
  {
    hide BitAt, Wrap, Bitwise;
    BitwiseMeans(a, b, true);
    BitwiseMeans(a, b, false);
    if Means(BitwiseAnd, a, b, r) {
      SameBitsSameWord(r, Wrap(Bitwise(a, b, 64, true)));
    }
    if Means(BitwiseOr, a, b, r) {
      SameBitsSameWord(r, Wrap(Bitwise(a, b, 64, false)));
    }
  }

  lemma ShiftExactly(a: Word, b: Word, r: Word)
    ensures Means(LeftShift, a, b, r) <==> r == Apply(LeftShift, a, b)
    ensures Means(RightShift, a, b, r) <==> r == Apply(RightShift, a, b)
  {
    hide SameWord, Wrap, Doubled, Halved, Pow2;
    DoubledIs(a, b % 64);
    HalvedIs(a, b % 64);
    SameWordExactly(r, a * Pow2(b % 64));
    WordShiftsRight(a, b % 64);
  }

  /** The value of an operation is the one word that is what the operator is for. */
  lemma ResultExactly(op: BinaryOperator, a: Word, b: Word, r: Word)
    ensures Means(op, a, b, r) <==> r == Apply(op, a, b)
  {
    match op {
      case Divide => DivideExactly(a, b, r);
      case Remainder => DivideExactly(a, b, r);
      case BitwiseAnd => BitsExactly(a, b, r);
      case BitwiseOr => BitsExactly(a, b, r);
      case LeftShift => ShiftExactly(a, b, r);
      case RightShift => ShiftExactly(a, b, r);
      case _ =>
        hide BitAt, Bitwise, Pow2, Quotient, Doubled, Halved, DividesTo, SameWord, Wrap;
        SameWordExactly(r, a + b);
        SameWordExactly(r, a - b);
        SameWordExactly(r, a * b);
    }
  }

  lemma UnaryExactly(op: UnaryOperator, a: Word, r: Word)
    ensures MeansUnary(op, a, r) <==> r == ApplyUnary(op, a)
  {
    hide BitAt;
    if op.BitwiseNot? {
      hide Wrap;
      forall k: nat | k < 64
        ensures BitAt(Wrap(-1 - a), k) <==> !BitAt(a, k)
      {
        WrapKeepsBits(-1 - a, k);
        NotBits(a, k);
      }
      if MeansUnary(op, a, r) {
        SameBitsSameWord(r, Wrap(-1 - a));
      }
    }
  }

  // ----- what the generated code leaves in the register -----

  lemma {:induction false} BitsMove(n: int, k: nat, i: nat)
    ensures BitAt(Halved(n, k), i) <==> BitAt(n, i + k)
    decreases k
  {
    if k > 0 {
      BitsMove(n, k - 1, i + 1);
    }
  }

  lemma {:induction false} HighBitsAreClear(n: int, w: nat, k: nat)
    requires 0 <= n < Pow2(w) && w <= k
    ensures !BitAt(n, k)
    decreases w
  {
    if w == 0 {
      ZeroHasNoBits(k);
    } else {
      HighBitsAreClear(n / 2, w - 1, k - 1);
    }
  }

  lemma {:induction false} ZeroHasNoBits(k: nat)
    ensures !BitAt(0, k)
  {
    if k > 0 {
      ZeroHasNoBits(k - 1);
    }
  }

  /** The generated right shift moves the bits down and brings in zeros. */
  lemma ShiftRightBits(a: Word, k: nat, i: nat)
    requires i < 64
    ensures BitAt(ShiftRight(a, k), i) <==> i + k < 64 && BitAt(a, i + k)
  {
    hide BitAt, Wrap, Halved, Pow2;
    var n := a % FULL_RANGE;
    HalvedIs(n, k);
    WrapKeepsBits(n / Pow2(k), i);
    BitsMove(n, k, i);
    FullRangeBits();
    if i + k < 64 {
      var m := -(a / FULL_RANGE);
      assert n == a + m * FULL_RANGE;
      BitsAreKept(a, m, 64, i + k);
    } else {
      HighBitsAreClear(n, 64, i + k);
    }
  }

  /** A condition is 1 when it holds, but the one for inequality -1; bitwise OR and NEQV leave the left operand. */
  lemma GeneratedConditions(a: Word, b: Word)
    ensures Generated(Equal, a, b) == Some(if a == b then 1 else 0)
    ensures Generated(NotEqual, a, b) == Some(if a == b then 0 else -1)
    ensures Generated(Less, a, b) == Some(if a < b then 1 else 0)
    ensures Generated(LessEqual, a, b) == Some(if a <= b then 1 else 0)
    ensures Generated(Greater, a, b) == Some(if b < a then 1 else 0)
    ensures Generated(GreaterEqual, a, b) == Some(if b <= a then 1 else 0)
    ensures Generated(Equivalence, a, b) == Some(if a == b then 1 else 0)
    ensures Generated(BitwiseOr, a, b) == Generated(NotEquivalence, a, b) == Some(a)
    ensures GeneratedUnary(LogicalNot, a) == if a == 0 then 1 else 0
  {
  }

  lemma GeneratedComplement(a: Word)
    ensures MeansUnary(BitwiseNot, a, GeneratedUnary(BitwiseNot, a)) && MeansUnary(Negate, a, GeneratedUnary(Negate, a))
  {
    UnaryExactly(BitwiseNot, a, ApplyUnary(BitwiseNot, a));
    UnaryExactly(Negate, a, ApplyUnary(Negate, a));
    hide BitAt, Wrap;
  }

  // ----- folding -----

  /** Two numbers become the number that the operator is for; bitwise AND and a division by zero are left as they are. */
  lemma FoldingNumbers(op: BinaryOperator, a: Word, b: Word)
    ensures var e := FoldBinary(op, Number(a), Number(b));
            if op == BitwiseAnd || (b == 0 && (op == Divide || op == Remainder)) then e == Binary(op, Number(a), Number(b))
            else e.Number? && Means(op, a, b, e.value)
  {
    hide Apply, Means;
    ResultExactly(op, a, b, Apply(op, a, b));
  }

  /** A bitwise complement is left as it is. */
  lemma FoldingUnaryNumber(op: UnaryOperator, a: Word)
    ensures var e := FoldUnary(op, Number(a));
            if op == BitwiseNot then e == Unary(op, Number(a)) else e.Number? && MeansUnary(op, a, e.value)
  {
    hide ApplyUnary, MeansUnary;
    UnaryExactly(op, a, ApplyUnary(op, a));
  }

  /** Neutral and absorbing operands disappear beside an operand that is not constant. */
  lemma NeutralOperandsGo(e: Expr)
    requires !e.Number? && !e.Boolean?
    ensures FoldBinary(Add, e, Number(0)) == FoldBinary(Add, Number(0), e) == FoldBinary(Subtract, e, Number(0)) == e
    ensures FoldBinary(Multiply, e, Number(1)) == FoldBinary(Multiply, Number(1), e) == FoldBinary(Divide, e, Number(1)) == e
    ensures FoldBinary(Multiply, e, Number(0)) == FoldBinary(Multiply, Number(0), e) == Number(0)
  {
  }

  /** Only known variables, foldable operators and no zero divisor where the expression is evaluated. */
  predicate Closed(e: Expr, known: Constants, manifests: Constants, s: Store) {
    match e
    case Variable(x) => x in known || x in manifests
    case Unary(op, a) => op != BitwiseNot && Closed(a, known, manifests, s)
    case Binary(op, a, b) =>
      && op != BitwiseAnd && (op == Divide || op == Remainder ==> Eval(b, s) != 0)
      && Closed(a, known, manifests, s) && Closed(b, known, manifests, s)
    case Conditional(c, t, f) =>
      Closed(c, known, manifests, s) && Closed(if Eval(c, s) != 0 then t else f, known, manifests, s)
    case _ => true
  }

  /** A closed expression is folded to its value. */
  lemma {:induction false} ClosedFolds(e: Expr, known: Constants, manifests: Constants, s: Store)
    requires Agrees(s, known) && Agrees(s, manifests) && Closed(e, known, manifests, s)
    ensures IntegerConstant(FoldExpr(e, known, manifests)) == Some(Eval(e, s))
  {
    hide Apply, ApplyUnary;
    match e
    case Unary(op, a) => ClosedFolds(a, known, manifests, s);
    case Binary(op, a, b) =>
      ClosedFolds(a, known, manifests, s);
      ClosedFolds(b, known, manifests, s);
    case Conditional(c, t, f) =>
      ClosedFolds(c, known, manifests, s);
      ClosedFolds(if Eval(c, s) != 0 then t else f, known, manifests, s);
    case _ =>
  }

  /** TRUE counts as -1 and FALSE as 0. */
  lemma TruthValues(s: Store)
    ensures Eval(Boolean(true), s) == -1 && Eval(Boolean(false), s) == 0
    ensures FoldUnary(LogicalNot, Boolean(true)) == Number(0) && FoldUnary(LogicalNot, Boolean(false)) == Number(-1)
  {
  }

  /** A variable assigned a number is that number from then on, whatever a manifest of its name says. */
  lemma NumbersArePropagated(x: string, n: Word, y: string, m: Word, manifests: Constants)
    ensures var a, b := Assign([x], [Number(n)]), Assign([y], [Binary(Add, Variable(x), Number(m))]);
            var f := FoldAll([a, b], map[], manifests);
            && |f.stmts| == 2 && f.stmts[0] == a
            && exists r: Word :: (r - (n + m)) % 0x1_0000_0000_0000_0000 == 0 && f.stmts[1] == Assign([y], [Number(r)])
                                 && y in f.known && f.known[y] == r
  {
    var a, b := Assign([x], [Number(n)]), Assign([y], [Binary(Add, Variable(x), Number(m))]);
    hide Apply;
    var r := Apply(Add, n, m);
    ResultExactly(Add, n, m, r);
    NumberIsTracked(x, Number(n), n, map[], manifests);
    NumberIsTracked(y, Binary(Add, Variable(x), Number(m)), r, map[x := n], manifests);
    hide Fold;
    assert [a, b][1..] == [b] && [b][1..] == [];
    assert FoldAll([b], map[x := n], manifests).stmts == [Assign([y], [Number(r)])];
  }

  lemma NumberIsTracked(x: string, e: Expr, n: Word, known: Constants, manifests: Constants)
    requires FoldExpr(e, known, manifests) == Number(n)
    ensures Fold(Assign([x], [e]), known, manifests) == Folded(Assign([x], [Number(n)]), known[x := n])
  {
    hide FoldExpr;
    assert [e][1..] == [];
    assert FoldExprs([e], known, manifests) == [Number(n)];
  }

  /** An IF whose condition is constant is its branch, or nothing. */
  lemma DecidedIf(t: Stmt, n: Word, known: Constants, manifests: Constants)
    ensures Fold(If(Number(n), t), known, manifests) ==
            if n == 0 then Folded(Compound([]), known) else Fold(t, known, manifests)
  {
  }
}
