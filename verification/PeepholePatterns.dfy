/** Instructions as the peephole optimiser sees them, and its rewriting patterns. */
module PeepholePatterns {
  import opened Wrappers

  datatype OpCode = MOV | MOVZ | ADD | SUB | MUL | SDIV | LDR | STR | ADRP | Other(code: nat)

  datatype Segment = CODE | RODATA | DATA

  /** The decoded fields of an instruction; -1 marks an unused register. The patterns do not look at
    * `wide` (64 or 32 bits are worked on) and `scale` (how an index register is scaled): only the encoding shows them.
    */
  datatype Instruction = Instruction(
    opcode: OpCode,
    destReg: int,
    srcReg1: int,
    srcReg2: int,
    baseReg: int,
    immediate: int,
    usesImmediate: bool,
    isMemOp: bool,
    targetLabel: string,
    isLabelDefinition: bool,
    isDataValue: bool,
    isText: bool,
    segment: Segment,
    wide: bool,
    scale: nat)

  const PLAIN := Instruction(MOV, -1, -1, -1, -1, 0, false, false, "", false, false, false, CODE, true, 1)

  function MovReg(d: int, s: int): Instruction {
    PLAIN.(opcode := MOV, destReg := d, srcReg1 := s)
  }

  function MovzImm(d: int, n: int): Instruction {
    PLAIN.(opcode := MOVZ, destReg := d, immediate := n, usesImmediate := true)
  }

  function AddReg(d: int, a: int, b: int): Instruction {
    PLAIN.(opcode := ADD, destReg := d, srcReg1 := a, srcReg2 := b)
  }

  /** Labels, data, comments and directives are left alone. */
  predicate IsSpecial(i: Instruction) {
    i.isLabelDefinition || i.isDataValue || i.isText
  }

  predicate SameRegister(a: int, b: int) {
    a >= 0 && b >= 0 && a % 32 == b % 32
  }

  predicate SameMemoryOperand(a: Instruction, b: Instruction) {
    if a.isMemOp && b.isMemOp then a.baseReg == b.baseReg && a.immediate == b.immediate
    else !a.isMemOp && !b.isMemOp
  }

  datatype Pattern =
    | ConstantFolding
    | IdentityOperation
    | SelfMove
    | AdrFusion
    | MultiplyByTwo
    | LoadAfterStore
    | RedundantLoad
    | DeadStore
    | RedundantStore

  /** In the order in which they are tried. */
  const PATTERNS: seq<Pattern> :=
    [ConstantFolding, IdentityOperation, SelfMove, AdrFusion, MultiplyByTwo,
     LoadAfterStore, RedundantLoad, DeadStore, RedundantStore]

  /** How many instructions the pattern looks at. */
  function Length(p: Pattern): nat {
    match p
    case IdentityOperation => 1
    case SelfMove => 1
    case MultiplyByTwo => 1
    case _ => 2
  }

  predicate MatchesOne(p: Pattern, a: Instruction) {
    match p
    case IdentityOperation =>
      || ((a.opcode.ADD? || a.opcode.SUB?) && a.usesImmediate && a.immediate == 0)
      || ((a.opcode.MUL? || a.opcode.SDIV?) && a.usesImmediate && a.immediate == 1)
      || (a.opcode.SUB? && !a.usesImmediate && SameRegister(a.srcReg1, a.srcReg2))
    case SelfMove => a.opcode.MOV? && !a.usesImmediate && SameRegister(a.destReg, a.srcReg1)
    case MultiplyByTwo => a.opcode.MUL? && a.usesImmediate && a.immediate == 2
    case _ => false
  }

  predicate MatchesTwo(p: Pattern, a: Instruction, b: Instruction) {
    match p
    case ConstantFolding =>
      && a.opcode.MOV? && b.opcode.ADD? && a.usesImmediate && b.usesImmediate
      && a.destReg == b.destReg && a.destReg == b.srcReg1
    case AdrFusion =>
      && a.opcode.ADRP? && b.opcode.ADD? && b.usesImmediate
      && SameRegister(a.destReg, b.destReg) && SameRegister(a.destReg, b.srcReg1)
    case LoadAfterStore =>
      && a.opcode.STR? && b.opcode.LDR? && a.isMemOp && b.isMemOp
      && a.baseReg == b.baseReg && a.immediate == b.immediate
    case RedundantLoad =>
      && a.opcode.LDR? && b.opcode.LDR?
      && SameRegister(a.baseReg, b.baseReg) && a.immediate == b.immediate
      && !SameRegister(a.destReg, b.baseReg) && !SameRegister(a.destReg, b.srcReg2)
    case DeadStore => a.opcode.STR? && b.opcode.STR? && a.isMemOp && b.isMemOp && SameMemoryOperand(a, b)
    case RedundantStore => a.opcode.STR? && b.opcode.STR? && SameMemoryOperand(a, b)
    case _ => false
  }

  function TransformOne(p: Pattern, a: Instruction): seq<Instruction> {
    match p
    case IdentityOperation =>
      if a.usesImmediate then [MovReg(a.destReg, a.srcReg1)] else [MovzImm(a.destReg, 0)]
    case SelfMove => []
    case MultiplyByTwo => [AddReg(a.destReg, a.srcReg1, a.srcReg1)]
    case _ => [a]
  }

  function TransformTwo(p: Pattern, a: Instruction, b: Instruction): seq<Instruction> {
    match p
    case ConstantFolding =>
      var n := a.immediate + b.immediate;
      if n < 0 || n > 65535 then [a, b] else [MovzImm(a.destReg, n)]
    case LoadAfterStore =>
      if SameRegister(a.srcReg1, b.destReg) then [a, b] else [a, MovReg(b.destReg, a.srcReg1)]
    case RedundantLoad => [a, MovReg(b.destReg, a.destReg)]
    case DeadStore => [b]
    case RedundantStore => [b]
    case _ => [a, b]
  }

  predicate Matches(p: Pattern, window: seq<Instruction>) {
    && |window| == Length(p)
    && if |window| == 1 then MatchesOne(p, window[0]) else MatchesTwo(p, window[0], window[1])
  }

  function Transform(p: Pattern, window: seq<Instruction>): seq<Instruction>
    requires |window| == Length(p)
  {
    if |window| == 1 then TransformOne(p, window[0]) else TransformTwo(p, window[0], window[1])
  }

  /** An instruction that refers to a label may not be replaced. */
  predicate RefersToLabel(window: seq<Instruction>) {
    exists i :: 0 <= i < |window| && window[i].targetLabel != ""
  }

  /** The window at `pos` that pattern `p` rewrites, cut short at the end of the code. */
  function Window(code: seq<Instruction>, pos: nat, p: Pattern): seq<Instruction>
    requires pos < |code|
  {
    if pos + Length(p) <= |code| then code[pos..pos + Length(p)] else code[pos..]
  }

  predicate Applies(p: Pattern, code: seq<Instruction>, pos: nat)
    requires pos < |code|
  {
    Matches(p, Window(code, pos, p)) && !RefersToLabel(Window(code, pos, p))
  }

  /** The first pattern that applies, trying them from the `n`-th on. */
  function FirstPattern(code: seq<Instruction>, pos: nat, n: nat): (r: Option<Pattern>)
    requires pos < |code|
    ensures r.Some? ==> Applies(r.value, code, pos)
    decreases |PATTERNS| - n
  {
    if n >= |PATTERNS| then None
    else if Applies(PATTERNS[n], code, pos) then Some(PATTERNS[n])
    else FirstPattern(code, pos, n + 1)
  }

  /** The code with the window at `pos` replaced. */
  function Rewrite(code: seq<Instruction>, pos: nat, p: Pattern): seq<Instruction>
    requires pos < |code| && Applies(p, code, pos)
  {
    code[..pos] + Transform(p, Window(code, pos, p)) + code[pos + Length(p)..]
  }
}
