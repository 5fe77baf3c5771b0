/** What instructions do: straight-line execution between labels, and runs from label to label. */
module PeepholeMachine {
  import opened Wrappers
  import opened Ast
  import opened PeepholePatterns

  type Registers = s: seq<Word> | |s| == 31 witness seq(31, _ => 0)

  const HALF: int := 0x1_0000_0000

  /** 32-bit cells by address. */
  type Memory = map<int, int>

  datatype Machine = Machine(regs: Registers, mem: Memory)

  function Reg(m: Machine, r: int): Word {
    if 0 <= r < 31 then m.regs[r] else 0
  }

  function SetReg(m: Machine, r: int, v: Word): Machine {
    if 0 <= r < 31 then m.(regs := m.regs[r := v]) else m
  }

  function Cell(mem: Memory, a: int): int {
    if a in mem then mem[a] else 0
  }

  function ReadMem(mem: Memory, a: int, wide: bool): Word {
    if wide then Wrap(Cell(mem, a) + HALF * Cell(mem, a + 4)) else Wrap(Cell(mem, a) % HALF)
  }

  function WriteMem(mem: Memory, a: int, v: Word, wide: bool): Memory {
    if wide then mem[a := v % HALF][a + 4 := (v / HALF) % HALF] else mem[a := v % HALF]
  }

  /** A load that adds a scaled register to its base instead of a constant. */
  predicate Indexed(i: Instruction) {
    i.opcode.LDR? && !i.usesImmediate && i.srcReg1 >= 0
  }

  function Address(i: Instruction, m: Machine): int {
    Reg(m, i.baseReg) + i.immediate + if Indexed(i) then i.scale * Reg(m, i.srcReg1) else 0
  }

  /** The second operand of an arithmetic instruction. */
  function Operand(i: Instruction, m: Machine): Word {
    if i.usesImmediate then Wrap(i.immediate) else Reg(m, i.srcReg2)
  }

  /** What a register holds after it was written as a whole, or by its lower half, which clears the upper one. */
  function Sized(wide: bool, v: Word): Word {
    if wide then v else v % HALF
  }

  /** The lower half of a register as a signed number. */
  function SignedLow(v: Word): int {
    (v + HALF / 2) % HALF - HALF / 2
  }

  function Divided(wide: bool, a: Word, b: Word): Word {
    if wide then Apply(Divide, a, b) else Wrap(Quotient(SignedLow(a), SignedLow(b))) % HALF
  }

  /** Instructions whose effect is their fields' and nothing else's. */
  predicate Known(i: Instruction) {
    !i.opcode.Other? && !i.opcode.ADRP? && i.targetLabel == "" && i.segment.CODE? && !IsSpecial(i)
  }

  function Execute(i: Instruction, m: Machine): Machine {
    match i.opcode
    case MOV => SetReg(m, i.destReg, Sized(i.wide, if i.usesImmediate then Wrap(i.immediate) else Reg(m, i.srcReg1)))
    case MOVZ => SetReg(m, i.destReg, Sized(i.wide, Wrap(i.immediate)))
    case ADD => SetReg(m, i.destReg, Sized(i.wide, Apply(Add, Reg(m, i.srcReg1), Operand(i, m))))
    case SUB => SetReg(m, i.destReg, Sized(i.wide, Apply(Subtract, Reg(m, i.srcReg1), Operand(i, m))))
    case MUL => SetReg(m, i.destReg, Sized(i.wide, Apply(Multiply, Reg(m, i.srcReg1), Operand(i, m))))
    case SDIV => SetReg(m, i.destReg, Divided(i.wide, Reg(m, i.srcReg1), Operand(i, m)))
    case LDR => SetReg(m, i.destReg, ReadMem(m.mem, Address(i, m), i.wide))
    case STR => m.(mem := WriteMem(m.mem, Address(i, m), Reg(m, i.srcReg1), i.wide))
    case _ => m
  }

  function ExecuteAll(code: seq<Instruction>, m: Machine): Machine {
    if code == [] then m else ExecuteAll(code[1..], Execute(code[0], m))
  }

  /** Machines that no instruction can tell apart: the same registers, and the same value in every cell. */
  ghost predicate Alike(m: Machine, n: Machine) {
    m.regs == n.regs && forall a :: Cell(m.mem, a) == Cell(n.mem, a)
  }

  // ----- from label to label -----

  /** What any other instruction does: go on, jump to a label, or stop. */
  datatype Flow = Next(m: Machine) | Jump(name: string, m: Machine) | Halt(m: Machine)

  type World = (Instruction, Machine) -> Flow

  /** Where a stretch of straight-line execution ends. */
  datatype Pause = AtLabel(name: string, m: Machine) | Halted(m: Machine) | RanOff(m: Machine)

  predicate IsLabel(i: Instruction) {
    i.segment.CODE? && i.isLabelDefinition
  }

  /** Executes up to the next label, jump or halt. Data segments are laid out elsewhere and are passed over. */
  function Stretch(code: seq<Instruction>, m: Machine, world: World): Pause {
    if code == [] then RanOff(m)
    else
      var i := code[0];
      if !i.segment.CODE? then Stretch(code[1..], m, world)
      else if IsLabel(i) then AtLabel(i.targetLabel, m)
      else if Known(i) then Stretch(code[1..], Execute(i, m), world)
      else match world(i, m) {
        case Next(t) => Stretch(code[1..], t, world)
        case Jump(l, t) => AtLabel(l, t)
        case Halt(t) => Halted(t)
      }
  }

  /** The code behind the first definition of a label. */
  function Behind(code: seq<Instruction>, name: string): Option<seq<Instruction>> {
    if code == [] then None
    else if IsLabel(code[0]) && code[0].targetLabel == name then Some(code[1..])
    else Behind(code[1..], name)
  }

  /** The state at the `n`-th pause of a run; a run stays where it has halted or found no label. */
  function PauseAt(code: seq<Instruction>, m: Machine, n: nat, world: World): Pause {
    if n == 0 then Stretch(code, m, world)
    else
      var k := PauseAt(code, m, n - 1, world);
      if k.AtLabel? && Behind(code, k.name).Some? then Stretch(Behind(code, k.name).value, k.m, world) else k
  }
}
