/** What a pass makes of each kind of window when it comes to it. */
module PeepholeEffect {
  import opened Wrappers
  import opened PeepholePatterns
  import opened PeepholePass
  import opened PeepholeEnding

  // ----- which pattern is chosen -----

  lemma AppliesExactly(code: Code, p: Pattern)
    requires code != []
    ensures Applies(p, code, 0) <==>
            if Length(p) == 1 then MatchesOne(p, code[0]) && code[0].targetLabel == ""
            else |code| >= 2 && MatchesTwo(p, code[0], code[1]) && code[0].targetLabel == "" && code[1].targetLabel == ""
  {
    var w := Window(code, 0, p);
    if Length(p) == 1 {
      assert w == [code[0]];
    } else if |code| >= 2 {
      assert w == [code[0], code[1]];
      hide MatchesTwo;
      assert RefersToLabel(w) <==> w[0].targetLabel != "" || w[1].targetLabel != "";
    }
  }

  lemma {:induction false} FirstIs(code: Code, n: nat, k: nat)
    requires code != [] && n <= k < |PATTERNS| && Applies(PATTERNS[k], code, 0)
    requires forall j :: n <= j < k ==> !Applies(PATTERNS[j], code, 0)
    ensures FirstPattern(code, 0, n) == Some(PATTERNS[k])
    decreases k - n
  {
    hide Applies;
    if n < k {
      FirstIs(code, n + 1, k);
    }
  }

  lemma {:induction false} NoneIs(code: Code, n: nat)
    requires code != [] && forall p :: !Applies(p, code, 0)
    ensures FirstPattern(code, 0, n).None?
    decreases |PATTERNS| - n
  {
    hide Applies;
    if n < |PATTERNS| {
      NoneIs(code, n + 1);
    }
  }

  /** An instruction is passed over exactly when it may not be touched or no pattern of any kind applies. */
  lemma PassedOverExactly(code: Code)
    requires code != []
    ensures Chosen(code, 0).None? <==>
            !code[0].segment.CODE? || IsSpecial(code[0]) || forall p :: !Applies(p, code, 0)
  {
    hide Applies, FirstPattern;
    if forall p :: !Applies(p, code, 0) {
      NoneIs(code, 0);
    }
    if Tried(code[0]) && Chosen(code, 0).None? {
      forall p
        ensures !Applies(p, code, 0)
      {
        NothingChosen(code, p);
      }
    }
  }

  // ----- one step of a pass -----

  /** The opcodes and operands are such that no pattern begins with the instruction. */
  predicate Plain(i: Instruction) {
    match i.opcode
    case MOV => !i.usesImmediate && !SameRegister(i.destReg, i.srcReg1)
    case MOVZ => true
    case ADD => !i.usesImmediate
    case _ => false
  }

  lemma PlainStays(i: Instruction, rest: Code)
    requires Plain(i)
    ensures Pass([i] + rest) == Before([i], 0, Pass(rest))
  {
    var code := [i] + rest;
    forall p
      ensures !Applies(p, code, 0)
    {
      AppliesExactly(code, p);
    }
    PassedOverExactly(code);
    hide Chosen, Applies, Plain;
    assert code[1..] == rest;
  }

  /** A store or load before a move stays. */
  lemma MemoryBeforeMoveStays(a: Instruction, b: Instruction, rest: Code)
    requires (a.opcode.STR? || a.opcode.LDR?) && b.opcode.MOV?
    ensures Pass([a, b] + rest) == Before([a], 0, Pass([b] + rest))
  {
    var code := [a, b] + rest;
    forall p
      ensures !Applies(p, code, 0)
    {
      AppliesExactly(code, p);
    }
    PassedOverExactly(code);
    hide Chosen, Applies;
    assert code[1..] == [b] + rest;
  }

  lemma OneStep(a: Instruction, rest: Code, k: nat, now: Code)
    requires Tried(a) && a.targetLabel == "" && k < |PATTERNS| && Length(PATTERNS[k]) == 1 && MatchesOne(PATTERNS[k], a)
    requires forall j :: 0 <= j < k ==> !Applies(PATTERNS[j], [a] + rest, 0)
    requires now == TransformOne(PATTERNS[k], a) && now != [a]
    ensures Pass([a] + rest) == Before([], 1, Pass(now + rest))
  {
    var code, p := [a] + rest, PATTERNS[k];
    AppliesExactly(code, p);
    FirstIs(code, 0, k);
    hide FirstPattern, Applies, TransformOne, MatchesOne;
    assert code[..0] == [] && code[1..] == rest && Window(code, 0, p) == [a];
    assert [] + now == now;
    assert Rewrite(code, 0, p) == now + rest;
    DifferentFront(now, [a], rest);
  }

  lemma DifferentFront(x: Code, y: Code, rest: Code)
    ensures x + rest == y + rest <==> x == y
  {
    if x + rest == y + rest {
      assert |x| == |y|;
      assert x == (x + rest)[..|x|] && y == (y + rest)[..|y|];
    }
  }

  lemma TwoStep(a: Instruction, b: Instruction, rest: Code, k: nat, now: Code)
    requires Tried(a) && a.targetLabel == "" && b.targetLabel == ""
    requires k < |PATTERNS| && Length(PATTERNS[k]) == 2 && MatchesTwo(PATTERNS[k], a, b)
    requires forall j :: 0 <= j < k ==> !Applies(PATTERNS[j], [a, b] + rest, 0)
    requires now == TransformTwo(PATTERNS[k], a, b) && now != [a, b]
    ensures Pass([a, b] + rest) == Before([], 1, Pass(now + rest))
  {
    var code, p := [a, b] + rest, PATTERNS[k];
    AppliesExactly(code, p);
    FirstIs(code, 0, k);
    hide FirstPattern, Applies, TransformTwo, MatchesTwo;
    assert code[..0] == [] && code[2..] == rest && Window(code, 0, p) == [a, b];
    assert [] + now == now;
    assert Rewrite(code, 0, p) == now + rest;
    DifferentFront(now, [a, b], rest);
  }

  lemma BeforeTwice(a: Code, m: nat, b: Code, n: nat, r: PassResult)
    ensures Before(a, m, Before(b, n, r)) == Before(a + b, m + n, r)
  {
    if r.Finished? {
      Reassociate(a, b, r.code);
    }
  }

  /** One instruction in place of others, and then on. */
  lemma ReplacedAndOn(i: Instruction, rest: Code)
    requires Plain(i)
    ensures Before([], 1, Pass([i] + rest)) == Before([i], 1, Pass(rest))
  {
    hide Plain, Pass;
    PlainStays(i, rest);
    BeforeTwice([], 1, [i], 0, Pass(rest));
    assert [] + [i] == [i];
  }

  /** Labels, data, comments, what lies in another segment and what refers to a label are left alone. */
  lemma ProtectedStays(i: Instruction, rest: Code)
    requires !i.segment.CODE? || i.isLabelDefinition || i.isDataValue || i.isText || i.targetLabel != ""
    ensures Pass([i] + rest) == Before([i], 0, Pass(rest))
  {
    var code := [i] + rest;
    if i.targetLabel != "" {
      forall p
        ensures !Applies(p, code, 0)
      {
        AppliesExactly(code, p);
      }
    }
    PassedOverExactly(code);
    hide Chosen, Applies;
    assert code[1..] == rest;
  }

  /** Registers are the same when their numbers agree in the lowest five bits. */
  lemma SameRegisterExactly(a: int, b: int)
    ensures SameRegister(a, b) <==> a >= 0 && b >= 0 && (a - b) % 32 == 0
  {
  }

  // ----- single instructions -----

  /** MUL by the constant two becomes an addition. */
  lemma MultiplicationByTwoIsAdded(a: Instruction, rest: Code)
    requires Tried(a) && a.targetLabel == "" && a.opcode.MUL? && a.usesImmediate && a.immediate == 2
    ensures var add := PLAIN.(opcode := ADD, destReg := a.destReg, srcReg1 := a.srcReg1, srcReg2 := a.srcReg1);
            Pass([a] + rest) == Before([add], 1, Pass(rest))
  {
    forall j | 0 <= j < 4
      ensures !Applies(PATTERNS[j], [a] + rest, 0)
    {
      AppliesExactly([a] + rest, PATTERNS[j]);
    }
    var add := AddReg(a.destReg, a.srcReg1, a.srcReg1);
    OneStep(a, rest, 4, [add]);
    ReplacedAndOn(add, rest);
  }

  /** Adding or subtracting nothing and multiplying or dividing by one become a move, or nothing between equal registers. */
  lemma IdentityIsMoved(a: Instruction, rest: Code)
    requires Tried(a) && a.targetLabel == "" && a.usesImmediate
    requires ((a.opcode.ADD? || a.opcode.SUB?) && a.immediate == 0) || ((a.opcode.MUL? || a.opcode.SDIV?) && a.immediate == 1)
    ensures var move := PLAIN.(opcode := MOV, destReg := a.destReg, srcReg1 := a.srcReg1);
            Pass([a] + rest) == if SameRegister(a.destReg, a.srcReg1) then Before([], 2, Pass(rest)) else Before([move], 1, Pass(rest))
  {
    AppliesExactly([a] + rest, PATTERNS[0]);
    var move := MovReg(a.destReg, a.srcReg1);
    OneStep(a, rest, 1, [move]);
    if SameRegister(a.destReg, a.srcReg1) {
      SelfMoveGoes(move, rest);
      BeforeTwice([], 1, [], 1, Pass(rest));
      var none: Code := [];
      assert none + none == none;
    } else {
      ReplacedAndOn(move, rest);
    }
  }

  /** A register minus itself becomes the constant zero. */
  lemma SubtractionOfItselfIsZero(a: Instruction, rest: Code)
    requires Tried(a) && a.targetLabel == "" && a.opcode.SUB? && !a.usesImmediate && SameRegister(a.srcReg1, a.srcReg2)
    ensures var zero := PLAIN.(opcode := MOVZ, destReg := a.destReg, immediate := 0, usesImmediate := true);
            Pass([a] + rest) == Before([zero], 1, Pass(rest))
  {
    AppliesExactly([a] + rest, PATTERNS[0]);
    var zero := MovzImm(a.destReg, 0);
    OneStep(a, rest, 1, [zero]);
    ReplacedAndOn(zero, rest);
  }

  /** A move of a register to itself disappears. */
  lemma SelfMoveGoes(a: Instruction, rest: Code)
    requires Tried(a) && a.targetLabel == "" && a.opcode.MOV? && !a.usesImmediate && SameRegister(a.destReg, a.srcReg1)
    ensures Pass([a] + rest) == Before([], 1, Pass(rest))
  {
    AppliesExactly([a] + rest, PATTERNS[0]);
    AppliesExactly([a] + rest, PATTERNS[1]);
    OneStep(a, rest, 2, []);
    assert [] + rest == rest;
  }

  // ----- neighbours -----

  /** A constant and another one added to it become their sum, if it fits sixteen bits. */
  lemma ConstantsAreAdded(a: Instruction, b: Instruction, rest: Code)
    requires Tried(a) && a.targetLabel == "" && b.targetLabel == ""
    requires a.opcode.MOV? && a.usesImmediate && b.opcode.ADD? && b.usesImmediate && a.destReg == b.destReg == b.srcReg1
    requires 0 <= a.immediate + b.immediate <= 65535
    ensures var sum := PLAIN.(opcode := MOVZ, destReg := a.destReg, immediate := a.immediate + b.immediate, usesImmediate := true);
            Pass([a, b] + rest) == Before([sum], 1, Pass(rest))
  {
    var sum := MovzImm(a.destReg, a.immediate + b.immediate);
    TwoStep(a, b, rest, 0, [sum]);
    ReplacedAndOn(sum, rest);
  }

  /** A load of what has just been stored becomes a move. */
  lemma LoadOfStoredIsMoved(a: Instruction, b: Instruction, rest: Code)
    requires Tried(a) && a.targetLabel == "" && b.targetLabel == ""
    requires a.opcode.STR? && b.opcode.LDR? && a.isMemOp && b.isMemOp && a.baseReg == b.baseReg && a.immediate == b.immediate
    requires !SameRegister(b.destReg, a.srcReg1)
    ensures var move := PLAIN.(opcode := MOV, destReg := b.destReg, srcReg1 := a.srcReg1);
            Pass([a, b] + rest) == Before([a, move], 1, Pass(rest))
  {
    forall j | 0 <= j < 5
      ensures !Applies(PATTERNS[j], [a, b] + rest, 0)
    {
      AppliesExactly([a, b] + rest, PATTERNS[j]);
    }
    var move := MovReg(b.destReg, a.srcReg1);
    TwoStep(a, b, rest, 5, [a, move]);
    MemoryBeforeMoveStays(a, move, rest);
    PlainStays(move, rest);
    MoveBehind(a, move, rest);
  }

  lemma MoveBehind(a: Instruction, move: Instruction, rest: Code)
    ensures Before([], 1, Before([a], 0, Before([move], 0, Pass(rest)))) == Before([a, move], 1, Pass(rest))
  {
    hide Pass;
    BeforeTwice([a], 0, [move], 0, Pass(rest));
    BeforeTwice([], 1, [a] + [move], 0, Pass(rest));
    assert [] + ([a] + [move]) == [a, move];
  }

  /** A second load from the same place becomes a move, or nothing between equal registers. */
  lemma SecondLoadIsMoved(a: Instruction, b: Instruction, rest: Code)
    requires Tried(a) && a.targetLabel == "" && b.targetLabel == ""
    requires a.opcode.LDR? && b.opcode.LDR? && SameRegister(a.baseReg, b.baseReg) && a.immediate == b.immediate
    requires !SameRegister(a.destReg, b.baseReg) && !SameRegister(a.destReg, b.srcReg2)
    ensures var move := PLAIN.(opcode := MOV, destReg := b.destReg, srcReg1 := a.destReg);
            Pass([a, b] + rest) ==
              if SameRegister(b.destReg, a.destReg) then Before([a], 2, Pass(rest)) else Before([a, move], 1, Pass(rest))
  {
    forall j | 0 <= j < 6
      ensures !Applies(PATTERNS[j], [a, b] + rest, 0)
    {
      AppliesExactly([a, b] + rest, PATTERNS[j]);
    }
    var move := MovReg(b.destReg, a.destReg);
    TwoStep(a, b, rest, 6, [a, move]);
    MemoryBeforeMoveStays(a, move, rest);
    if SameRegister(b.destReg, a.destReg) {
      SelfMoveGoes(move, rest);
      BeforeTwice([a], 0, [], 1, Pass(rest));
      BeforeTwice([], 1, [a] + [], 1, Pass(rest));
      assert [] + ([a] + []) == [a];
    } else {
      PlainStays(move, rest);
      MoveBehind(a, move, rest);
    }
  }

  /** A store that the next one covers disappears. */
  lemma CoveredStoreGoes(a: Instruction, b: Instruction, rest: Code)
    requires Tried(a) && a.targetLabel == "" && b.targetLabel == ""
    requires a.opcode.STR? && b.opcode.STR? && a.isMemOp && b.isMemOp && a.baseReg == b.baseReg && a.immediate == b.immediate
    ensures Pass([a, b] + rest) == Before([], 1, Pass([b] + rest))
  {
    forall j | 0 <= j < 7
      ensures !Applies(PATTERNS[j], [a, b] + rest, 0)
    {
      AppliesExactly([a, b] + rest, PATTERNS[j]);
    }
    TwoStep(a, b, rest, 7, [b]);
  }

  // ----- where it all has ended -----

  /** There is nothing to do at the instruction. */
  ghost predicate Settled(code: Code, pos: nat)
    requires pos < |code|
  {
    !code[pos].segment.CODE? || IsSpecial(code[pos]) || forall p :: !Applies(p, code, pos)
  }

  lemma SettledExactly(code: Code, pos: nat)
    requires pos < |code|
    ensures Settled(code, pos) <==> Chosen(code, pos).None?
  {
    var done, tail := code[..pos], code[pos..];
    assert code == done + tail && tail[0] == code[pos];
    PassedOverExactly(tail);
    SamePatterns(done, tail, 0);
    forall p
      ensures Applies(p, code, pos) <==> Applies(p, tail, 0)
    {
      SameWindow(done, tail, p);
    }
    hide FirstPattern, Applies;
  }

  lemma {:induction false} AllPassedOver(code: Code, pos: nat)
    ensures PassFrom(code, pos) == Finished(code, 0) <==> forall i :: pos <= i < |code| ==> Chosen(code, i).None?
    decreases |code| - pos
  {
    hide Chosen, Rewrite, Weight;
    if pos < |code| && Chosen(code, pos).None? {
      AllPassedOver(code, pos + 1);
    }
  }

  /** A pass changes nothing exactly when there is nothing to do at any instruction. */
  lemma NothingToDoExactly(code: Code)
    ensures PassFrom(code, 0) == Finished(code, 0) <==> forall i :: 0 <= i < |code| ==> Settled(code, i)
  {
    hide PassFrom, Settled, Chosen;
    AllPassedOver(code, 0);
    forall i | 0 <= i < |code|
      ensures Settled(code, i) <==> Chosen(code, i).None?
    {
      SettledExactly(code, i);
    }
  }

  /** The optimiser stops when there is nothing left to do, or when each of its passes has replaced something. */
  lemma {:induction false} OptimizeIsThorough(code: Code, maxPasses: nat)
    ensures var r := Optimize(code, maxPasses);
            r.Finished? ==> r.applied >= maxPasses || forall i :: 0 <= i < |r.code| ==> Settled(r.code, i)
    decreases maxPasses
  {
    hide PassFrom, Settled;
    if maxPasses > 0 {
      var r := PassFrom(code, 0);
      if r.Finished? && r.applied == 0 {
        UnchangedPass(code);
        NothingToDoExactly(code);
      } else if r.Finished? {
        OptimizeIsThorough(r.code, maxPasses - 1);
      }
    }
  }

  lemma UnchangedPass(code: Code)
    ensures PassFrom(code, 0).Finished? && PassFrom(code, 0).applied == 0 ==> PassFrom(code, 0).code == code
  {
    UnchangedFrom(code, 0);
  }

  lemma {:induction false} UnchangedFrom(code: Code, pos: nat)
    ensures PassFrom(code, pos).Finished? && PassFrom(code, pos).applied == 0 ==> PassFrom(code, pos).code == code
    decreases |code| - pos
  {
    hide Chosen, Rewrite, Weight;
    if pos < |code| && Chosen(code, pos).None? {
      UnchangedFrom(code, pos + 1);
    }
  }
}
