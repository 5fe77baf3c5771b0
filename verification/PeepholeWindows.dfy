/** Which windows the peephole patterns rewrite into code of the same effect: the exact conditions. */
module PeepholeWindows {
  import opened Ast
  import opened PeepholePatterns
  import opened PeepholeMachine

  predicate IsReg(r: int) {
    0 <= r < 31
  }

  /** The fields an instruction of each kind has when it comes from the encoder. */
  predicate WellFormed(i: Instruction) {
    match i.opcode
    case MOV => IsReg(i.destReg) && (i.usesImmediate || IsReg(i.srcReg1))
    case MOVZ => IsReg(i.destReg)
    case LDR =>
      && IsReg(i.destReg) && IsReg(i.baseReg) && i.isMemOp && i.srcReg2 == -1
      && (i.srcReg1 == -1 || IsReg(i.srcReg1)) && (i.scale == 1 || i.scale == 8)
    case STR => IsReg(i.srcReg1) && IsReg(i.baseReg) && i.isMemOp
    case ADD => IsReg(i.destReg) && IsReg(i.srcReg1) && (i.usesImmediate || IsReg(i.srcReg2))
    case SUB => IsReg(i.destReg) && IsReg(i.srcReg1) && (i.usesImmediate || IsReg(i.srcReg2))
    case MUL => IsReg(i.destReg) && IsReg(i.srcReg1) && (i.usesImmediate || IsReg(i.srcReg2))
    case SDIV => IsReg(i.destReg) && IsReg(i.srcReg1) && (i.usesImmediate || IsReg(i.srcReg2))
    case _ => true
  }

  /** No program can tell from registers and memory which of the two was executed. */
  ghost predicate Sound(before: seq<Instruction>, after: seq<Instruction>) {
    forall m :: Alike(ExecuteAll(before, m), ExecuteAll(after, m))
  }

  /** Both loads compute their address in the same way. */
  predicate SameAddressing(a: Instruction, b: Instruction) {
    Indexed(a) == Indexed(b) && (Indexed(a) ==> a.srcReg1 == b.srcReg1 && a.scale == b.scale)
  }

  /** The condition under which a matching window is rewritten correctly. */
  predicate Good(p: Pattern, w: seq<Instruction>)
    requires |w| == Length(p)
  {
    match p
    case ConstantFolding =>
      || !(0 <= w[0].immediate + w[1].immediate <= 65535) || w[0].wide || !w[1].wide
      || 0 <= Wrap(w[0].immediate) < HALF
    case IdentityOperation => w[0].wide || !w[0].usesImmediate
    case SelfMove => w[0].wide
    case MultiplyByTwo => w[0].wide
    case AdrFusion => true
    case LoadAfterStore => SameRegister(w[0].srcReg1, w[1].destReg) || (w[0].wide && w[1].wide && !Indexed(w[1]))
    case RedundantLoad =>
      && SameAddressing(w[0], w[1]) && w[0].wide == w[1].wide
      && (Indexed(w[1]) ==> w[1].srcReg1 != w[0].destReg)
    case DeadStore => w[0].wide ==> w[1].wide
    case RedundantStore => w[0].wide ==> w[1].wide
  }

  lemma ExecuteTwo(a: Instruction, b: Instruction, m: Machine)
    ensures ExecuteAll([a, b], m) == Execute(b, Execute(a, m))
    ensures ExecuteAll([a], m) == Execute(a, m)
  {
    hide Execute;
    assert [a, b][1..] == [b] && [b][1..] == [] && [a][1..] == [];
    assert ExecuteAll([b], Execute(a, m)) == ExecuteAll([], Execute(b, Execute(a, m)));
    assert ExecuteAll([a], m) == ExecuteAll([], Execute(a, m));
  }

  // ----- patterns over one instruction, and constants -----

  lemma WrapWord(w: Word)
    ensures Wrap(w) == w
  {
  }

  lemma NeutralOperands(v: Word)
    ensures Apply(Add, v, 0) == Apply(Subtract, v, 0) == Apply(Multiply, v, 1) == Apply(Divide, v, 1) == v
    ensures Apply(Subtract, v, v) == 0 && Apply(Multiply, v, 2) == Apply(Add, v, v)
  {
    hide Bitwise, Pow2;
    WrapWord(v);
    assert Quotient(v, 1) == v;
  }

  lemma IdentityIsSound(a: Instruction, m: Machine)
    requires MatchesOne(IdentityOperation, a) && WellFormed(a) && Good(IdentityOperation, [a])
    ensures ExecuteAll(TransformOne(IdentityOperation, a), m) == Execute(a, m)
  {
    hide Apply, Wrap, ExecuteAll, ReadMem, WriteMem;
    var v := Reg(m, a.srcReg1);
    NeutralOperands(v);
    assert Wrap(0) == 0 && Wrap(1) == 1 by {
      WrapWord(0);
      WrapWord(1);
    }
    if a.usesImmediate {
      ExecuteTwo(MovReg(a.destReg, a.srcReg1), a, m);
      assert Execute(a, m) == SetReg(m, a.destReg, v);
    } else {
      ExecuteTwo(MovzImm(a.destReg, 0), a, m);
      assert a.srcReg1 == a.srcReg2;
      assert Execute(a, m) == SetReg(m, a.destReg, 0);
    }
  }

  lemma OnesAreSound(p: Pattern, a: Instruction, m: Machine)
    requires MatchesOne(p, a) && Length(p) == 1 && WellFormed(a) && Good(p, [a])
    ensures ExecuteAll(TransformOne(p, a), m) == Execute(a, m)
  {
    match p
    case IdentityOperation => IdentityIsSound(a, m);
    case SelfMove =>
      assert m.regs[a.destReg := m.regs[a.destReg]] == m.regs;
    case MultiplyByTwo =>
      NeutralOperands(Reg(m, a.srcReg1));
      assert Wrap(2) == 2;
      hide Apply, Wrap, ReadMem, WriteMem;
      var r := AddReg(a.destReg, a.srcReg1, a.srcReg1);
      ExecuteTwo(r, r, m);
  }

  /** A constant with another one added to it. */
  lemma ConstantsAdd(a: Instruction, b: Instruction, m: Machine)
    requires MatchesTwo(ConstantFolding, a, b) && WellFormed(a) && WellFormed(b)
    ensures var x := Sized(a.wide, Wrap(a.immediate));
            ExecuteAll([a, b], m) == SetReg(m, a.destReg, Sized(b.wide, Wrap(x + Wrap(b.immediate))))
  {
    ExecuteTwo(a, b, m);
    var x := Sized(a.wide, Wrap(a.immediate));
    hide Wrap, Sized, ExecuteAll;
    var y := Sized(b.wide, Wrap(x + Wrap(b.immediate)));
    assert m.regs[a.destReg := x][a.destReg := y] == m.regs[a.destReg := y];
  }

  lemma ConstantIsMoved(d: int, n: int, m: Machine)
    ensures ExecuteAll([MovzImm(d, n)], m) == SetReg(m, d, Wrap(n))
  {
    ExecuteTwo(MovzImm(d, n), MovzImm(d, n), m);
  }

  /** Adding in the lower half does not look at the upper one. */
  lemma LowSum(x: int, y: int)
    ensures Wrap(x + y) % HALF == (x + y) % HALF && Wrap(x) % HALF == x % HALF
    ensures Wrap(x % HALF + Wrap(y)) % HALF == (x + y) % HALF && Wrap(Wrap(x) + Wrap(y)) % HALF == (x + y) % HALF
  {
    WrapLow(x);
    WrapLow(y);
    WrapLow(x + y);
    WrapLow(x % HALF + Wrap(y));
    WrapLow(Wrap(x) + Wrap(y));
    hide Wrap;
    LowAdds(x % HALF, Wrap(y), x, y);
    LowAdds(Wrap(x), Wrap(y), x, y);
  }

  lemma LowAdds(a: int, b: int, x: int, y: int)
    requires a % HALF == x % HALF && b % HALF == y % HALF
    ensures (a + b) % HALF == (x + y) % HALF
  {
  }

  lemma WrapLow(n: int)
    ensures Wrap(n) % HALF == n % HALF
  {
    var k := (n + HALF_RANGE) / FULL_RANGE;
    assert Wrap(n) == n - k * HALF * HALF;
  }

  /** Folding, when the constant keeps its value in the width the sum is made in. */
  lemma FoldingIsSound(a: Instruction, b: Instruction, m: Machine)
    requires MatchesTwo(ConstantFolding, a, b) && WellFormed(a) && WellFormed(b) && Good(ConstantFolding, [a, b])
    ensures ExecuteAll(TransformTwo(ConstantFolding, a, b), m) == ExecuteAll([a, b], m)
  {
    var n := a.immediate + b.immediate;
    if 0 <= n <= 65535 {
      ConstantsAdd(a, b, m);
      ConstantIsMoved(a.destReg, n, m);
      FoldedSum(a, b);
      hide ExecuteAll;
    }
  }

  lemma FoldedSum(a: Instruction, b: Instruction)
    requires 0 <= a.immediate + b.immediate <= 65535
    ensures var n := a.immediate + b.immediate;
            Sized(b.wide, Wrap(Sized(a.wide, Wrap(a.immediate)) + Wrap(b.immediate))) == Wrap(n) <==>
              (a.wide || !b.wide || 0 <= Wrap(a.immediate) < HALF)
  {
    var n, x := a.immediate + b.immediate, Wrap(a.immediate);
    WrapSum(a.immediate, b.immediate);
    LowSum(a.immediate, b.immediate);
    LowSum(x, b.immediate);
    SmallWraps(n);
    if b.wide && !a.wide {
      HalfIsLost(x, b.immediate, n);
    }
    hide Wrap;
    if !b.wide {
      WrapLow(a.immediate);
      LowAdds(x, b.immediate, a.immediate, b.immediate);
    }
  }

  lemma SmallWraps(n: nat)
    requires n <= 65535
    ensures Wrap(n) == n == n % HALF
  {
  }

  /** Without its upper half a number has another sum. */
  lemma HalfIsLost(x: Word, y: int, n: int)
    requires Wrap(x + Wrap(y)) == n
    ensures Wrap(x % HALF + Wrap(y)) == n <==> 0 <= x < HALF
  {
    var z, k := Wrap(y), x / HALF;
    assert x == k * HALF + x % HALF && -HALF / 2 <= k < HALF / 2;
    var i, j := (x + z + HALF_RANGE) / FULL_RANGE, (x % HALF + z + HALF_RANGE) / FULL_RANGE;
    assert Wrap(x + z) == x + z - i * FULL_RANGE && Wrap(x % HALF + z) == x % HALF + z - j * FULL_RANGE;
    if Wrap(x % HALF + z) == n {
      assert k * HALF == (i - j) * HALF * HALF;
      assert k == (i - j) * HALF;
    }
  }

  lemma WrapSum(a: int, b: int)
    ensures Wrap(Wrap(a) + Wrap(b)) == Wrap(a + b)
  {
    var k := (a + HALF_RANGE) / FULL_RANGE;
    var l := (b + HALF_RANGE) / FULL_RANGE;
    assert Wrap(a) == a - k * FULL_RANGE && Wrap(b) == b - l * FULL_RANGE;
    WrapShift(a + b, -(k + l));
  }

  // ----- loads and stores -----

  lemma LoadStored(mem: Memory, a: int, v: Word)
    ensures ReadMem(WriteMem(mem, a, v, true), a, true) == v
  {
  }

  lemma StoredTwice(mem: Memory, a: int, v: Word, w: Word, first: bool, second: bool)
    requires first ==> second
    ensures WriteMem(WriteMem(mem, a, v, first), a, w, second) == WriteMem(mem, a, w, second)
  {
    assert WriteMem(WriteMem(mem, a, v, first), a, w, second) == WriteMem(mem, a, w, second);
  }

  lemma LoadAfterStoreIsSound(a: Instruction, b: Instruction, m: Machine)
    requires MatchesTwo(LoadAfterStore, a, b) && WellFormed(a) && WellFormed(b) && Good(LoadAfterStore, [a, b])
    ensures ExecuteAll(TransformTwo(LoadAfterStore, a, b), m) == ExecuteAll([a, b], m)
  {
    hide ReadMem, WriteMem;
    if a.srcReg1 != b.destReg {
      ExecuteTwo(a, b, m);
      ExecuteTwo(a, MovReg(b.destReg, a.srcReg1), m);
      LoadStored(m.mem, Address(a, m), Reg(m, a.srcReg1));
    }
  }

  lemma RedundantLoadIsSound(a: Instruction, b: Instruction, m: Machine)
    requires MatchesTwo(RedundantLoad, a, b) && WellFormed(a) && WellFormed(b) && Good(RedundantLoad, [a, b])
    ensures ExecuteAll(TransformTwo(RedundantLoad, a, b), m) == ExecuteAll([a, b], m)
  {
    hide ReadMem;
    ExecuteTwo(a, b, m);
    ExecuteTwo(a, MovReg(b.destReg, a.destReg), m);
  }

  lemma DeadStoreIsSound(a: Instruction, b: Instruction, m: Machine)
    requires MatchesTwo(RedundantStore, a, b) && WellFormed(a) && WellFormed(b) && (a.wide ==> b.wide)
    ensures ExecuteAll([b], m) == ExecuteAll([a, b], m)
  {
    hide WriteMem;
    ExecuteTwo(a, b, m);
    ExecuteTwo(b, b, m);
    StoredTwice(m.mem, Address(a, m), Reg(m, a.srcReg1), Reg(m, b.srcReg1), a.wide, b.wide);
  }

  /** Every matching window that meets the condition is rewritten into code of the same effect. */
  lemma GoodIsSound(p: Pattern, w: seq<Instruction>, m: Machine)
    requires Matches(p, w) && (forall i :: i in w ==> WellFormed(i)) && Good(p, w)
    ensures ExecuteAll(w, m) == ExecuteAll(Transform(p, w), m)
  {
    hide ExecuteAll, TransformOne, WellFormed, MatchesOne;
    if |w| == 1 {
      assert w == [w[0]];
      ExecuteTwo(w[0], w[0], m);
      OnesAreSound(p, w[0], m);
    } else {
      var a, b := w[0], w[1];
      assert w == [a, b] && a in w && b in w;
      match p
      case ConstantFolding => FoldingIsSound(a, b, m);
      case LoadAfterStore => LoadAfterStoreIsSound(a, b, m);
      case RedundantLoad => RedundantLoadIsSound(a, b, m);
      case DeadStore => DeadStoreIsSound(a, b, m);
      case RedundantStore => DeadStoreIsSound(a, b, m);
      case _ =>
    }
  }

  // ----- the windows that are rewritten wrongly -----

  function AllRegs(v: Word): Registers {
    seq(31, _ => v)
  }

  lemma LoadAfterStoreGoesWrong(a: Instruction, b: Instruction) returns (m: Machine)
    requires MatchesTwo(LoadAfterStore, a, b) && WellFormed(a) && WellFormed(b) && !Good(LoadAfterStore, [a, b])
    ensures !Alike(ExecuteAll(TransformTwo(LoadAfterStore, a, b), m), ExecuteAll([a, b], m))
  {
    m := Machine(AllRegs(if Indexed(b) then 8 else -1), map[]);
    ExecuteTwo(a, b, m);
    ExecuteTwo(a, MovReg(b.destReg, a.srcReg1), m);
    var v := m.regs[0];
    assert Execute(MovReg(b.destReg, a.srcReg1), Execute(a, m)).regs[b.destReg] == v;
    assert Execute(b, Execute(a, m)).regs[b.destReg] != v;
  }

  /** A dropped 64-bit store is missed in the upper half of its word. */
  lemma DeadStoreGoesWrong(a: Instruction, b: Instruction) returns (m: Machine)
    requires MatchesTwo(RedundantStore, a, b) && WellFormed(a) && WellFormed(b) && a.wide && !b.wide
    ensures !Alike(ExecuteAll([b], m), ExecuteAll([a, b], m))
  {
    m := Machine(AllRegs(-1), map[]);
    ExecuteTwo(a, b, m);
    ExecuteTwo(b, b, m);
    var x := Address(a, m) + 4;
    assert Cell(Execute(b, Execute(a, m)).mem, x) == HALF - 1 && Cell(Execute(b, m).mem, x) == 0;
  }

  /** Whatever is written to the lower half of a register leaves it not negative. */
  lemma NarrowIsPositive(a: Instruction, m: Machine)
    requires WellFormed(a) && !a.wide && (a.opcode.ADD? || a.opcode.SUB? || a.opcode.MUL? || a.opcode.SDIV? || a.opcode.MOV?)
    ensures Execute(a, m).regs[a.destReg] >= 0
  {
    hide Apply, Quotient, Wrap;
  }

  lemma WideIsNegative(d: int, s: int)
    requires IsReg(d) && IsReg(s)
    ensures var m := Machine(AllRegs(-1), map[]);
            && ExecuteAll([MovReg(d, s)], m).regs[d] < 0 && ExecuteAll([AddReg(d, s, s)], m).regs[d] < 0
            && ExecuteAll([], m).regs[d] < 0
  {
    var m := Machine(AllRegs(-1), map[]);
    ExecuteTwo(MovReg(d, s), MovReg(d, s), m);
    ExecuteTwo(AddReg(d, s, s), AddReg(d, s, s), m);
    assert Apply(Add, -1, -1) == -2;
    hide Apply;
  }

  /** In a machine whose registers are all -1, working on lower halves shows. */
  lemma NarrowGoesWrong(p: Pattern, a: Instruction) returns (m: Machine)
    requires MatchesOne(p, a) && Length(p) == 1 && WellFormed(a) && !Good(p, [a])
    ensures !Alike(ExecuteAll(TransformOne(p, a), m), ExecuteAll([a], m))
  {
    hide ExecuteAll, Execute;
    m := Machine(AllRegs(-1), map[]);
    ExecuteTwo(a, a, m);
    NarrowIsPositive(a, m);
    WideIsNegative(a.destReg, a.srcReg1);
  }

  lemma FoldingGoesWrong(a: Instruction, b: Instruction) returns (m: Machine)
    requires MatchesTwo(ConstantFolding, a, b) && WellFormed(a) && WellFormed(b) && !Good(ConstantFolding, [a, b])
    ensures !Alike(ExecuteAll(TransformTwo(ConstantFolding, a, b), m), ExecuteAll([a, b], m))
  {
    m := Machine(AllRegs(0), map[]);
    ConstantsAdd(a, b, m);
    var n := a.immediate + b.immediate;
    ConstantIsMoved(a.destReg, n, m);
    FoldedSum(a, b);
    hide ExecuteAll, Wrap, Sized;
    assert TransformTwo(ConstantFolding, a, b) == [MovzImm(a.destReg, n)];
    assert SetReg(m, a.destReg, Wrap(n)).regs[a.destReg] == Wrap(n);
  }

  /** A memory holding 5 at one place. */
  function FiveAt(a: int): Memory {
    map[a := 5]
  }

  lemma FiveIsRead(a: int, x: int, wide: bool)
    ensures ReadMem(FiveAt(a), a, wide) == 5
    ensures x != a && x + 4 != a ==> ReadMem(FiveAt(a), x, wide) == 0
  {
  }

  lemma RedundantLoadResults(a: Instruction, b: Instruction, m: Machine)
    requires MatchesTwo(RedundantLoad, a, b) && WellFormed(a) && WellFormed(b)
    ensures var v := ReadMem(m.mem, Address(a, m), a.wide);
            && ExecuteAll(TransformTwo(RedundantLoad, a, b), m).regs[b.destReg] == v
            && ExecuteAll([a, b], m).regs[b.destReg] ==
               ReadMem(m.mem, Address(b, m.(regs := m.regs[a.destReg := v])), b.wide)
  {
    hide ReadMem;
    ExecuteTwo(a, b, m);
    ExecuteTwo(a, MovReg(b.destReg, a.destReg), m);
  }

  /** Loads of different width tell each other apart by the upper half. */
  lemma WidthsDiffer(a: Instruction, b: Instruction) returns (m: Machine)
    requires MatchesTwo(RedundantLoad, a, b) && WellFormed(a) && WellFormed(b)
    requires SameAddressing(a, b) && (Indexed(b) ==> b.srcReg1 != a.destReg) && a.wide != b.wide
    ensures !Alike(ExecuteAll(TransformTwo(RedundantLoad, a, b), m), ExecuteAll([a, b], m))
  {
    var regs := AllRegs(8);
    var x := Address(a, Machine(regs, map[]));
    m := Machine(regs, map[x := 5, x + 4 := 7]);
    assert Address(a, m) == x;
    RedundantLoadResults(a, b, m);
  }

  lemma IndexesDiffer(a: Instruction, b: Instruction) returns (m: Machine)
    requires MatchesTwo(RedundantLoad, a, b) && WellFormed(a) && WellFormed(b)
    requires !SameAddressing(a, b) || (Indexed(b) && b.srcReg1 == a.destReg)
    ensures !Alike(ExecuteAll(TransformTwo(RedundantLoad, a, b), m), ExecuteAll([a, b], m))
  {
    if Indexed(b) && b.srcReg1 == a.destReg {
      m := IndexOverwritten(a, b);
    } else if Indexed(a) && Indexed(b) && a.srcReg1 != b.srcReg1 {
      m := OtherIndex(a, b);
    } else {
      m := OtherDistance(a, b);
    }
  }

  /** The first load changes the index of the second. */
  lemma IndexOverwritten(a: Instruction, b: Instruction) returns (m: Machine)
    requires MatchesTwo(RedundantLoad, a, b) && WellFormed(a) && WellFormed(b) && Indexed(b) && b.srcReg1 == a.destReg
    ensures !Alike(ExecuteAll(TransformTwo(RedundantLoad, a, b), m), ExecuteAll([a, b], m))
  {
    var regs := AllRegs(8);
    var x := Address(a, Machine(regs, map[]));
    m := Machine(regs, FiveAt(x));
    assert Address(a, m) == x;
    var y := Address(b, m.(regs := regs[a.destReg := 5]));
    FiveIsRead(x, y, a.wide);
    FiveIsRead(x, y, b.wide);
    RedundantLoadResults(a, b, m);
    assert y != x && y + 4 != x;
  }

  /** The loads use different index registers. */
  lemma OtherIndex(a: Instruction, b: Instruction) returns (m: Machine)
    requires MatchesTwo(RedundantLoad, a, b) && WellFormed(a) && WellFormed(b)
    requires Indexed(a) && Indexed(b) && a.srcReg1 != b.srcReg1 && b.srcReg1 != a.destReg
    ensures !Alike(ExecuteAll(TransformTwo(RedundantLoad, a, b), m), ExecuteAll([a, b], m))
  {
    var regs := AllRegs(0)[b.srcReg1 := 8];
    var x, y := Address(a, Machine(regs, map[])), Address(b, Machine(regs, map[]));
    m := Machine(regs, FiveAt(y));
    assert Address(a, m) == x;
    FiveIsRead(y, x, a.wide);
    FiveIsRead(y, x, b.wide);
    assert x != y && x + 4 != y;
    RedundantLoadResults(a, b, m);
    assert Address(b, m.(regs := regs[a.destReg := 0])) == y;
  }

  /** The loads reach to different distances from the base, in a machine whose registers are all 8. */
  lemma OtherDistance(a: Instruction, b: Instruction) returns (m: Machine)
    requires MatchesTwo(RedundantLoad, a, b) && WellFormed(a) && WellFormed(b)
    requires !SameAddressing(a, b) && (Indexed(b) ==> b.srcReg1 != a.destReg)
    requires Indexed(a) && Indexed(b) ==> a.srcReg1 == b.srcReg1
    ensures !Alike(ExecuteAll(TransformTwo(RedundantLoad, a, b), m), ExecuteAll([a, b], m))
  {
    var regs := AllRegs(8);
    var x, y := Address(a, Machine(regs, map[])), Address(b, Machine(regs, map[]));
    m := Machine(regs, FiveAt(y));
    assert Address(a, m) == x;
    FiveIsRead(y, x, a.wide);
    FiveIsRead(y, x, b.wide);
    assert x != y && x + 4 != y;
    RedundantLoadResults(a, b, m);
    assert Address(b, m.(regs := regs[a.destReg := 0])) == y;
  }

  /** A matching window is rewritten into code of the same effect exactly when it meets the condition. */
  lemma WindowIsSoundExactly(p: Pattern, w: seq<Instruction>)
    requires Matches(p, w) && forall i :: i in w ==> WellFormed(i)
    ensures Sound(w, Transform(p, w)) <==> Good(p, w)
  {
    hide ExecuteAll, WellFormed, MatchesOne, MatchesTwo, TransformOne, TransformTwo, Good;
    if Good(p, w) {
      forall m
        ensures ExecuteAll(w, m) == ExecuteAll(Transform(p, w), m)
      {
        GoodIsSound(p, w, m);
      }
    } else {
      var m := BadWindow(p, w);
      assert !Alike(ExecuteAll(w, m), ExecuteAll(Transform(p, w), m));
    }
  }

  lemma BadWindow(p: Pattern, w: seq<Instruction>) returns (m: Machine)
    requires Matches(p, w) && (forall i :: i in w ==> WellFormed(i)) && !Good(p, w)
    ensures !Alike(ExecuteAll(w, m), ExecuteAll(Transform(p, w), m))
  {
    hide ExecuteAll, WellFormed, Indexed, TransformOne, TransformTwo, MatchesOne;
    var a := w[0];
    assert a in w;
    if Length(p) == 1 {
      assert w == [a];
      m := NarrowGoesWrong(p, a);
    } else {
      m := BadPair(p, a, w[1]);
      assert w == [a, w[1]];
    }
  }

  lemma BadPair(p: Pattern, a: Instruction, b: Instruction) returns (m: Machine)
    requires Length(p) == 2 && MatchesTwo(p, a, b) && WellFormed(a) && WellFormed(b) && !Good(p, [a, b])
    ensures !Alike(ExecuteAll([a, b], m), ExecuteAll(TransformTwo(p, a, b), m))
  {
    hide ExecuteAll, WellFormed, Indexed;
    match p
    case ConstantFolding => m := FoldingGoesWrong(a, b);
    case LoadAfterStore => m := LoadAfterStoreGoesWrong(a, b);
    case RedundantLoad =>
      if SameAddressing(a, b) && (Indexed(b) ==> b.srcReg1 != a.destReg) {
        m := WidthsDiffer(a, b);
      } else {
        m := IndexesDiffer(a, b);
      }
    case DeadStore => m := DeadStoreGoesWrong(a, b);
    case RedundantStore => m := DeadStoreGoesWrong(a, b);
  }
}
