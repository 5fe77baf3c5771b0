/** The text by which the local optimiser recognises an expression, and what that text determines. */
module CseKey {
  import opened Ast
  import opened Liveness
  import opened Text

  // ----- keys -----

  /** The position of an operator in the enumeration. */
  function Ordinal(op: BinaryOperator): nat {
    match op
    case Add => 0
    case Subtract => 1
    case Multiply => 2
    case Divide => 3
    case Remainder => 4
    case Equal => 5
    case NotEqual => 6
    case Less => 7
    case LessEqual => 8
    case Greater => 9
    case GreaterEqual => 10
    case LogicalAnd => 11
    case BitwiseAnd => 12
    case LogicalOr => 13
    case BitwiseOr => 14
    case Equivalence => 15
    case NotEquivalence => 16
    case LeftShift => 17
    case RightShift => 18
  }

  predicate Commutes(op: BinaryOperator) {
    op in {Add, Multiply, LogicalAnd, LogicalOr, Equal, NotEqual}
  }

  function VariableKey(x: string): string {
    "(VAR " + x + ")"
  }

  function Header(op: BinaryOperator): string {
    "(BIN_OP " + NatText(Ordinal(op)) + " "
  }

  function BinaryKey(op: BinaryOperator, l: string, r: string): string {
    Header(op) + l + " " + r + ")"
  }

  function Key(e: Expr): string {
    match e
    case Number(n) => "(INT " + IntText(n) + ")"
    case Boolean(b) => if b then "(BOOL 1)" else "(BOOL 0)"
    case Variable(x) => VariableKey(x)
    case Binary(op, a, b) =>
      var l, r := Key(a), Key(b);
      if Commutes(op) && After(l, r) then BinaryKey(op, r, l) else BinaryKey(op, l, r)
    case Unary(_, _) => "(EXPR)"
    case Conditional(_, _, _) => "(EXPR)"
  }

  /** Identifiers hold neither blanks nor brackets. */
  predicate IsName(x: string) {
    forall i :: 0 <= i < |x| ==> x[i] != ' ' && x[i] != '(' && x[i] != ')'
  }

  predicate Named(e: Expr) {
    forall x :: x in Vars(e) ==> IsName(x)
  }

  /** No part of the expression is of a kind that the key does not show. */
  predicate Transparent(e: Expr) {
    match e
    case Number(_) => true
    case Boolean(_) => true
    case Variable(_) => true
    case Binary(_, a, b) => Transparent(a) && Transparent(b)
    case Unary(_, _) => false
    case Conditional(_, _, _) => false
  }

  /** Equal up to the order of the operands of commutative operators. */
  predicate SameUpToOrder(a: Expr, b: Expr) {
    match a
    case Binary(op, l, r) =>
      && b.Binary? && b.op == op
      && ((SameUpToOrder(l, b.left) && SameUpToOrder(r, b.right))
          || (Commutes(op) && SameUpToOrder(l, b.right) && SameUpToOrder(r, b.left)))
    case _ => a == b
  }

  // ----- reading a key back -----

  /** How many characters it takes to close `depth` open brackets. */
  function Closing(s: string, depth: nat): nat {
    if depth == 0 || s == [] then 0
    else 1 + Closing(s[1..], if s[0] == '(' then depth + 1 else if s[0] == ')' then depth - 1 else depth)
  }

  lemma {:induction false} ClosingSkips(x: string, rest: string, depth: nat)
    requires depth > 0 && forall i :: 0 <= i < |x| ==> x[i] != '(' && x[i] != ')'
    ensures Closing(x + rest, depth) == |x| + Closing(rest, depth)
  {
    if x == [] {
      assert x + rest == rest;
    } else {
      assert (x + rest)[1..] == x[1..] + rest;
      ClosingSkips(x[1..], rest, depth);
    }
  }

  /** A bracketed text without inner brackets closes one bracket more than it opens. */
  lemma ClosingAtom(x: string, rest: string, depth: nat)
    requires forall i :: 0 <= i < |x| ==> x[i] != '(' && x[i] != ')'
    ensures Closing("(" + x + ")" + rest, depth) == if depth == 0 then 0 else |x| + 2 + Closing(rest, depth)
    ensures Closing(x + ")" + rest, depth + 1) == |x| + 1 + Closing(rest, depth)
  {
    ClosingSkips(x, ")" + rest, depth + 1);
    assert x + (")" + rest) == x + ")" + rest;
    assert (")" + rest)[1..] == rest;
    assert ("(" + x + ")" + rest)[1..] == x + ")" + rest;
  }

  lemma AtomOf(e: Expr) returns (x: string)
    requires Named(e) && !e.Binary?
    ensures Key(e) == "(" + x + ")" && forall i :: 0 <= i < |x| ==> x[i] != '(' && x[i] != ')'
  {
    match e
    case Number(n) =>
      x := "INT " + IntText(n);
    case Boolean(b) =>
      x := if b then "BOOL 1" else "BOOL 0";
    case Variable(y) =>
      assert y in Vars(e);
      x := "VAR " + y;
    case _ =>
      x := "EXPR";
  }

  /** The operands of a key in the order in which they are written. */
  lemma KeyOperands(e: Expr) returns (l: Expr, r: Expr)
    requires e.Binary? && Named(e)
    ensures Key(e) == BinaryKey(e.op, Key(l), Key(r)) && Named(l) && Named(r) && l < e && r < e
    ensures (l, r) == (e.left, e.right) || (Commutes(e.op) && (l, r) == (e.right, e.left))
  {
    if Commutes(e.op) && After(Key(e.left), Key(e.right)) {
      l, r := e.right, e.left;
    } else {
      l, r := e.left, e.right;
    }
  }

  /** A key is a bracketed text: read at any depth, it leaves the depth as it was. */
  lemma {:induction false} KeyCloses(e: Expr, rest: string, depth: nat)
    requires Named(e) && depth > 0
    ensures Closing(Key(e) + rest, depth) == |Key(e)| + Closing(rest, depth)
    decreases e, 1
  {
    if e.Binary? {
      var l, r := KeyOperands(e);
      hide Key, BinaryKey, Named;
      KeyTailCloses(e, l, r, rest, depth);
      assert (Key(e) + rest)[1..] == Key(e)[1..] + rest;
    } else {
      var x := AtomOf(e);
      hide Key, Named;
      ClosingAtom(x, rest, depth);
    }
  }

  lemma {:induction false} KeyTailCloses(e: Expr, l: Expr, r: Expr, rest: string, depth: nat)
    requires e.Binary? && Named(l) && Named(r) && l < e && r < e && Key(e) == BinaryKey(e.op, Key(l), Key(r))
    ensures Key(e)[0] == '('
    ensures Closing(Key(e)[1..] + rest, depth + 1) == |Key(e)| - 1 + Closing(rest, depth)
    decreases e, 0
  {
    var afterR := ")" + rest;
    var afterL := " " + (Key(r) + afterR);
    KeyCloses(l, afterL, depth + 1);
    KeyCloses(r, afterR, depth + 1);
    hide Named, Key, Closing, BinaryKey;
    BinaryKeyCloses(e.op, Key(l), Key(r), rest, depth);
  }

  lemma BinaryKeyCloses(op: BinaryOperator, l: string, r: string, rest: string, depth: nat)
    requires Closing(l + (" " + (r + (")" + rest))), depth + 1) == |l| + Closing(" " + (r + (")" + rest)), depth + 1)
    requires Closing(r + (")" + rest), depth + 1) == |r| + Closing(")" + rest, depth + 1)
    ensures var k := BinaryKey(op, l, r);
            |k| >= 1 && k[0] == '(' && Closing(k[1..] + rest, depth + 1) == |k| - 1 + Closing(rest, depth)
  {
    var d := NatText(Ordinal(op));
    BinaryKeyTail(op, l, r, rest);
    hide NatText, Ordinal, BinaryKey;
    var afterR := ")" + rest;
    ClosingSkips("BIN_OP " + d + " ", l + (" " + (r + afterR)), depth + 1);
    ClosingSkips(" ", r + afterR, depth + 1);
    assert afterR[1..] == rest && afterR[0] == ')';
    assert Closing(afterR, depth + 1) == 1 + Closing(rest, depth);
  }

  lemma BinaryKeyTail(op: BinaryOperator, l: string, r: string, rest: string)
    ensures var k, h := BinaryKey(op, l, r), "BIN_OP " + NatText(Ordinal(op)) + " ";
            && k[0] == '(' && |k| == 1 + |h| + |l| + 1 + |r| + 1
            && k[1..] + rest == h + (l + (" " + (r + (")" + rest))))
  {
    var d := NatText(Ordinal(op));
    hide NatText, Ordinal;
    var h := "BIN_OP " + d + " ";
    assert "(BIN_OP " == "(" + "BIN_OP ";
    assert Header(op) == "(" + h;
    var k := BinaryKey(op, l, r);
    assert k == "(" + (h + (l + (" " + (r + ")"))));
    assert k[1..] == h + (l + (" " + (r + ")")));
  }

  lemma {:induction false} KeyEnds(e: Expr)
    ensures Key(e) != [] && Key(e)[|Key(e)| - 1] == ')'
  {
    hide Header, IntText, After;
  }

  /** Where a key ends can be told from the text that starts with it. */
  lemma KeyLength(e: Expr, rest: string)
    requires Named(e)
    ensures |Key(e)| >= 1 && |Key(e)| == 1 + Closing((Key(e) + rest)[1..], 1)
  {
    KeyEnds(e);
    hide Key, BinaryKey, Named, Closing;
    if e.Binary? {
      var l, r := KeyOperands(e);
      KeyTailCloses(e, l, r, rest, 0);
      ClosedAlready(rest);
      assert (Key(e) + rest)[1..] == Key(e)[1..] + rest;
    } else {
      var x := AtomOf(e);
      ClosingAtom(x, rest, 0);
      ClosedAlready(rest);
      assert (Key(e) + rest)[1..] == x + ")" + rest;
    }
  }

  lemma ClosedAlready(s: string)
    ensures Closing(s, 0) == 0
  {
  }

  /** No key is the beginning of another. */
  lemma KeysArePrefixFree(a: Expr, b: Expr, x: string, y: string)
    requires Named(a) && Named(b) && Key(a) + x == Key(b) + y
    ensures Key(a) == Key(b) && x == y
  {
    KeyLength(a, x);
    KeyLength(b, y);
    hide Key;
    assert Key(a) == (Key(a) + x)[..|Key(a)|];
    assert Key(b) == (Key(b) + y)[..|Key(b)|];
    assert x == (Key(a) + x)[|Key(a)|..];
    assert y == (Key(b) + y)[|Key(b)|..];
  }

  lemma HeadersMatch(p: BinaryOperator, q: BinaryOperator, x: string, y: string)
    requires Header(p) + x == Header(q) + y
    ensures p == q && x == y
  {
    var m, n := NatText(Ordinal(p)), NatText(Ordinal(q));
    NatTextReads(Ordinal(p));
    NatTextReads(Ordinal(q));
    hide NatText, NatValue;
    var head := "(BIN_OP ";
    assert Header(p) + x == head + (m + " " + x);
    assert Header(q) + y == head + (n + " " + y);
    assert (head + (m + " " + x))[|head|..] == m + " " + x;
    assert (head + (n + " " + y))[|head|..] == n + " " + y;
    SplitAtFirst(' ', m, n, x, y);
    OrdinalInjective(p, q);
  }

  lemma BinaryKeyParts(op: BinaryOperator, l: string, r: string)
    ensures BinaryKey(op, l, r) == Header(op) + (l + (" " + (r + ")")))
    ensures (" " + (r + ")"))[1..|r| + 1] == r
  {
    hide Header;
  }

  lemma BinaryKeysMatch(p: BinaryOperator, q: BinaryOperator, a: Expr, b: Expr, c: Expr, d: Expr)
    requires Named(a) && Named(b) && Named(c) && Named(d)
    requires BinaryKey(p, Key(a), Key(b)) == BinaryKey(q, Key(c), Key(d))
    ensures p == q && Key(a) == Key(c) && Key(b) == Key(d)
  {
    hide Key, Header, Named, BinaryKey;
    BinaryKeyParts(p, Key(a), Key(b));
    BinaryKeyParts(q, Key(c), Key(d));
    HeadersMatch(p, q, Key(a) + (" " + (Key(b) + ")")), Key(c) + (" " + (Key(d) + ")")));
    KeysArePrefixFree(a, c, " " + (Key(b) + ")"), " " + (Key(d) + ")"));
  }

  /** The order of the operands does not show in the key exactly for these operators. */
  lemma OrderIsHiddenExactly(op: BinaryOperator, a: Expr, b: Expr)
    requires Named(a) && Named(b)
    ensures Key(Binary(op, a, b)) == Key(Binary(op, b, a)) <==>
            Key(a) == Key(b) || op in {Add, Multiply, LogicalAnd, LogicalOr, Equal, NotEqual}
  {
    AfterIsTotal(Key(a), Key(b));
    KeyOfBinary(op, a, b);
    KeyOfBinary(op, b, a);
    hide Key, After, BinaryKey;
    if BinaryKey(op, Key(a), Key(b)) == BinaryKey(op, Key(b), Key(a)) {
      BinaryKeysMatch(op, op, a, b, b, a);
    }
  }

  lemma KeyOfBinary(op: BinaryOperator, a: Expr, b: Expr)
    ensures Key(Binary(op, a, b)) ==
            if Commutes(op) && After(Key(a), Key(b)) then BinaryKey(op, Key(b), Key(a)) else BinaryKey(op, Key(a), Key(b))
  {
  }

  lemma OrdinalInjective(p: BinaryOperator, q: BinaryOperator)
    requires Ordinal(p) == Ordinal(q)
    ensures p == q
  {
  }

  // ----- what equal keys mean -----

  /** The kind of an expression, as the second and third characters of its key show it. */
  lemma KeyKind(e: Expr)
    ensures |Key(e)| > 2
    ensures Key(e)[1] == match e {
              case Number(_) => 'I'
              case Boolean(_) => 'B'
              case Variable(_) => 'V'
              case Binary(_, _, _) => 'B'
              case Unary(_, _) => 'E'
              case Conditional(_, _, _) => 'E'
            }
    ensures Key(e)[2] == 'I' <==> e.Binary?
  {
    hide NatText, IntText, Ordinal, After;
    match e
    case Binary(op, a, b) =>
      assert Header(op)[..3] == "(BI";
    case _ =>
  }

  lemma {:induction false} EqualKeysMeanSameTrees(a: Expr, b: Expr)
    requires Named(a) && Named(b) && Transparent(a) && Key(a) == Key(b)
    ensures SameUpToOrder(a, b)
  {
    KeyKind(a);
    KeyKind(b);
    match a {
      case Number(m) =>
        assert Key(a)[5..|Key(a)| - 1] == IntText(m) && Key(b)[5..|Key(b)| - 1] == IntText(b.value);
        hide IntText;
        IntTextInjective(m, b.value);
      case Boolean(_) =>
        assert Key(a)[6] == Key(b)[6];
      case Variable(x) =>
        assert Key(a)[5..|Key(a)| - 1] == x && Key(b)[5..|Key(b)| - 1] == b.name;
      case Binary(_, _, _) =>
        hide Key, BinaryKey;
        var l, r := KeyOperands(a);
        var m, n := KeyOperands(b);
        BinaryKeysMatch(a.op, b.op, l, r, m, n);
        EqualKeysMeanSameTrees(l, m);
        EqualKeysMeanSameTrees(r, n);
    }
  }

  lemma {:induction false} SameTreesMeanEqualKeys(a: Expr, b: Expr)
    requires SameUpToOrder(a, b)
    ensures Key(a) == Key(b)
  {
    hide BinaryKey, After;
    if a.Binary? {
      AfterIsTotal(Key(a.left), Key(a.right));
      if SameUpToOrder(a.left, b.left) && SameUpToOrder(a.right, b.right) {
        SameTreesMeanEqualKeys(a.left, b.left);
        SameTreesMeanEqualKeys(a.right, b.right);
      } else {
        SameTreesMeanEqualKeys(a.left, b.right);
        SameTreesMeanEqualKeys(a.right, b.left);
      }
    }
  }

  /** Transparent expressions have the same key exactly when they differ only in the order of commutative operands. */
  lemma KeyIsFaithful(a: Expr, b: Expr)
    requires Named(a) && Named(b) && Transparent(a)
    ensures Key(a) == Key(b) <==> SameUpToOrder(a, b)
  {
    if Key(a) == Key(b) {
      EqualKeysMeanSameTrees(a, b);
    }
    if SameUpToOrder(a, b) {
      SameTreesMeanEqualKeys(a, b);
    }
  }

  lemma CommutativeApply(op: BinaryOperator, a: Word, b: Word)
    requires Commutes(op)
    ensures Apply(op, a, b) == Apply(op, b, a)
  {
    hide Bitwise, Pow2, Quotient, Wrap;
    assert a * b == b * a;
  }

  lemma {:induction false} SameTreesEvaluateAlike(a: Expr, b: Expr, s: Store)
    requires SameUpToOrder(a, b)
    ensures Eval(a, s) == Eval(b, s)
  {
    hide Apply;
    if a.Binary? {
      if SameUpToOrder(a.left, b.left) && SameUpToOrder(a.right, b.right) {
        SameTreesEvaluateAlike(a.left, b.left, s);
        SameTreesEvaluateAlike(a.right, b.right, s);
      } else {
        SameTreesEvaluateAlike(a.left, b.right, s);
        SameTreesEvaluateAlike(a.right, b.left, s);
        CommutativeApply(a.op, Eval(a.left, s), Eval(a.right, s));
      }
    }
  }

  /** Equal keys of transparent expressions mean equal values, in every store. */
  lemma EqualKeysMeanEqualValues(a: Expr, b: Expr, s: Store)
    requires Named(a) && Named(b) && Transparent(a) && Key(a) == Key(b)
    ensures Eval(a, s) == Eval(b, s)
  {
    EqualKeysMeanSameTrees(a, b);
    SameTreesEvaluateAlike(a, b, s);
  }

  // ----- the expressions whose key says everything -----

  function Size(e: Expr): nat {
    match e
    case Binary(_, a, b) => 1 + Size(a) + Size(b)
    case Unary(_, a) => 1 + Size(a)
    case Conditional(c, a, b) => 1 + Size(c) + Size(a) + Size(b)
    case _ => 1
  }

  lemma {:induction false} SameTreesHaveSameSize(a: Expr, b: Expr)
    requires SameUpToOrder(a, b)
    ensures Size(a) == Size(b)
  {
    if a.Binary? {
      if SameUpToOrder(a.left, b.left) && SameUpToOrder(a.right, b.right) {
        SameTreesHaveSameSize(a.left, b.left);
        SameTreesHaveSameSize(a.right, b.right);
      } else {
        SameTreesHaveSameSize(a.left, b.right);
        SameTreesHaveSameSize(a.right, b.left);
      }
    }
  }

  /** The same key, with every opaque part negated. */
  function Disguise(e: Expr): Expr {
    match e
    case Binary(op, a, b) => Binary(op, Disguise(a), Disguise(b))
    case Unary(_, _) => Unary(LogicalNot, e)
    case Conditional(_, _, _) => Unary(LogicalNot, e)
    case _ => e
  }

  lemma {:induction false} DisguiseKeepsKey(e: Expr)
    ensures Key(Disguise(e)) == Key(e) && Vars(Disguise(e)) == Vars(e)
    ensures Size(Disguise(e)) >= Size(e) && (!Transparent(e) ==> Size(Disguise(e)) > Size(e))
  {
    hide BinaryKey, After;
    if e.Binary? {
      DisguiseKeepsKey(e.left);
      DisguiseKeepsKey(e.right);
    }
  }

  /** A key determines its expression, up to operand order, exactly when no part of the expression is opaque. */
  lemma KeyDeterminesExactly(e: Expr)
    requires Named(e)
    ensures Transparent(e) <==> forall b :: Named(b) && Key(b) == Key(e) ==> SameUpToOrder(e, b)
  {
    hide Key, SameUpToOrder;
    if Transparent(e) {
      forall b | Named(b) && Key(b) == Key(e)
        ensures SameUpToOrder(e, b)
      {
        EqualKeysMeanSameTrees(e, b);
      }
    } else {
      var b := Disguise(e);
      DisguiseKeepsKey(e);
      if SameUpToOrder(e, b) {
        SameTreesHaveSameSize(e, b);
      }
    }
  }

  // ----- finding a variable in a key -----

  predicate OccursAt(p: string, s: string, i: int) {
    0 <= i <= |s| - |p| && s[i..i + |p|] == p
  }

  predicate Occurs(p: string, s: string) {
    exists i :: 0 <= i <= |s| && OccursAt(p, s, i)
  }

  lemma OccursWithin(p: string, x: string, s: string, y: string)
    requires Occurs(p, s)
    ensures Occurs(p, x + s + y)
  {
    var i :| 0 <= i <= |s| && OccursAt(p, s, i);
    var t := x + s + y;
    assert t[|x| + i..|x| + i + |p|] == s[i..i + |p|];
    assert OccursAt(p, t, |x| + i);
  }

  lemma {:induction false} CloseIsNotLater(s: string, k: nat)
    requires k < |s| && s[k] == ')'
    ensures FirstOf(')', s) <= k
  {
    if k > 0 && s[0] != ')' {
      CloseIsNotLater(s[1..], k - 1);
    }
  }

  /** The first bracket closed behind an occurrence of a variable's key is its own. */
  lemma OccurrenceCloses(x: string, s: string, i: nat)
    requires IsName(x) && OccursAt(VariableKey(x), s, i)
    ensures FirstOf(')', s[i..]) == |VariableKey(x)| - 1
  {
    var p := VariableKey(x);
    FirstIsFound(')', "(VAR " + x, s[i + |p|..]);
    hide FirstOf;
    assert s[i..] == s[i..i + |p|] + s[i + |p|..];
    assert p == "(VAR " + x + ")";
  }

  /** An occurrence of a bracketed text that starts inside `s`, which ends in a bracket, lies inside `s`. */
  lemma OccursBeforeBracket(x: string, s: string, y: string, i: nat)
    requires IsName(x) && OccursAt(VariableKey(x), s + y, i) && i < |s| && s[|s| - 1] == ')'
    ensures OccursAt(VariableKey(x), s, i)
  {
    var p := VariableKey(x);
    var t := s + y;
    OccurrenceCloses(x, t, i);
    hide FirstOf, VariableKey;
    assert t[i..][|s| - 1 - i] == t[|s| - 1] == ')';
    CloseIsNotLater(t[i..], |s| - 1 - i);
    assert s[i..i + |p|] == t[i..i + |p|];
  }

  /** The occurrences of a bracketed text in a joined key lie in one of the two operands. */
  lemma OccursInOperand(x: string, op: BinaryOperator, l: string, r: string)
    requires IsName(x) && Occurs(VariableKey(x), BinaryKey(op, l, r))
    requires l != [] && l[|l| - 1] == ')' && r != [] && r[|r| - 1] == ')'
    ensures Occurs(VariableKey(x), l) || Occurs(VariableKey(x), r)
  {
    var p, k, h := VariableKey(x), BinaryKey(op, l, r), Header(op);
    var i :| 0 <= i <= |k| && OccursAt(p, k, i);
    OccurrenceStarts(x, k, i);
    HeaderHasNoKey(op);
    BinaryKeyParts(op, l, r);
    hide Header, BinaryKey, VariableKey, IsName, Occurs, OccursAt;
    var rest := l + (" " + (r + ")"));
    assert k == h + rest;
    assert i >= |h|;
    Shift(p, h, rest, i);
    assert k[i] == rest[i - |h|];
    OccursInOperands(x, l, r, i - |h|);
  }

  lemma OccursInOperands(x: string, l: string, r: string, j: nat)
    requires l != [] && l[|l| - 1] == ')' && r != [] && r[|r| - 1] == ')' && IsName(x)
    requires var rest := l + (" " + (r + ")")); j < |rest| && rest[j] == '(' && OccursAt(VariableKey(x), rest, j)
    ensures Occurs(VariableKey(x), l) || Occurs(VariableKey(x), r)
  {
    hide VariableKey, IsName, OccursAt;
    var p, tail := VariableKey(x), " " + (r + ")");
    if j < |l| {
      OccursBeforeBracket(x, l, tail, j);
    } else {
      assert (l + tail)[j] == tail[j - |l|];
      Shift(p, l, tail, j);
      Shift(p, " ", r + ")", j - |l|);
      OccursBeforeBracket(x, r, ")", j - |l| - 1);
    }
  }

  lemma OccurrenceStarts(x: string, s: string, i: nat)
    requires OccursAt(VariableKey(x), s, i)
    ensures i + 1 < |s| && s[i] == '(' && s[i + 1] == 'V'
  {
    var p := VariableKey(x);
    assert s[i] == s[i..i + |p|][0] && s[i + 1] == s[i..i + |p|][1];
  }

  lemma Shift(p: string, a: string, b: string, i: int)
    requires OccursAt(p, a + b, i) && i >= |a|
    ensures OccursAt(p, b, i - |a|) && i <= |a| + |b|
  {
    assert (a + b)[i..i + |p|] == b[i - |a|..i - |a| + |p|];
  }

  lemma HeaderHasNoKey(op: BinaryOperator)
    ensures var h := Header(op); |h| > 8 && h[..8] == "(BIN_OP " && forall i :: 1 <= i < |h| ==> h[i] != '('
  {
    var d := NatText(Ordinal(op));
    hide NatText, Ordinal;
    assert Header(op)[..8] == "(BIN_OP ";
  }

  /** The text of a variable occurs in a key exactly when the variable occurs in the expression. */
  lemma {:induction false} OccursExactly(x: string, e: Expr)
    requires IsName(x) && Named(e) && Transparent(e)
    ensures Occurs(VariableKey(x), Key(e)) <==> x in Vars(e)
  {
    if e.Binary? {
      var l, r := KeyOperands(e);
      assert Transparent(l) && Transparent(r) && Vars(e) == Vars(l) + Vars(r);
      OccursExactly(x, l);
      OccursExactly(x, r);
      hide Key, Named, Transparent, Vars;
      OccursInJoin(x, e.op, l, r);
    } else {
      OccursInAtom(x, e);
    }
  }

  lemma OccursInJoin(x: string, op: BinaryOperator, l: Expr, r: Expr)
    requires IsName(x)
    ensures Occurs(VariableKey(x), BinaryKey(op, Key(l), Key(r))) <==>
            Occurs(VariableKey(x), Key(l)) || Occurs(VariableKey(x), Key(r))
  {
    KeyEnds(l);
    KeyEnds(r);
    hide Key, IsName, Occurs, Header;
    var p, h, kl, kr := VariableKey(x), Header(op), Key(l), Key(r);
    if Occurs(p, kl) {
      OccursWithin(p, h, kl, " " + kr + ")");
      assert h + kl + (" " + kr + ")") == BinaryKey(op, kl, kr);
    } else if Occurs(p, kr) {
      OccursWithin(p, h + kl + " ", kr, ")");
    } else if Occurs(p, BinaryKey(op, kl, kr)) {
      OccursInOperand(x, op, kl, kr);
    }
  }

  lemma OccursInAtom(x: string, e: Expr)
    requires IsName(x) && Named(e) && !e.Binary?
    ensures Occurs(VariableKey(x), Key(e)) <==> e == Variable(x)
  {
    var p := VariableKey(x);
    if Occurs(p, Key(e)) {
      var i :| 0 <= i <= |Key(e)| && OccursAt(p, Key(e), i);
      AtomOccurrence(x, e, i);
      assert p[5..|p| - 1] == x && Key(e)[5..|Key(e)| - 1] == e.name;
    }
    if e == Variable(x) {
      assert Key(e)[0..0 + |p|] == p;
      assert OccursAt(p, Key(e), 0);
    }
  }

  lemma AtomOccurrence(x: string, e: Expr, i: int)
    requires IsName(x) && Named(e) && !e.Binary? && OccursAt(VariableKey(x), Key(e), i)
    ensures VariableKey(x) == Key(e) && e.Variable?
  {
    var p := VariableKey(x);
    var a := AtomOf(e);
    KeyKind(e);
    var k := Key(e);
    assert p[0] == '(' && p[1] == 'V';
    hide Key, VariableKey, IsName, Named;
    assert k[i] == k[i..i + |p|][0] == '(';
    assert i == 0;
    assert k[1] == k[i..i + |p|][1] == 'V';
    OccurrenceCloses(x, k, 0);
    FirstIsFound(')', "(" + a, "");
    assert k[0..] == k == "(" + a + ")" + "";
    assert k[0..|p|] == k;
  }
}
