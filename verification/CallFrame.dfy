/** Stack frames: where everything lies, and what prologue and epilogue do to the machine. */
module CallFrame {
  import opened Wrappers
  import Text

  const CANARY_SIZE := 8
  const UPPER_CANARY: int := 0x1122334455667788
  const LOWER_CANARY: int := 0xAABBCCDDEEFF0011
  const MAX_FRAME := 512

  datatype Register = X(number: nat)

  const SCRATCH_A: Register := X(9)
  const SCRATCH_B: Register := X(10)
  const SCRATCH_C: Register := X(11)
  const FP: Register := X(29)
  const LR: Register := X(30)

  function RegisterName(r: Register): string {
    "X" + Text.NatText(r.number)
  }

  datatype Local = Local(name: string, size: nat)

  /** What the frame manager knows when the prologue is generated. */
  datatype Frame = Frame(locals: seq<Local>, saved: seq<Register>, canaries: bool, spillArea: nat)

  function AlignTo16(n: nat): nat {
    (n + 15) / 16 * 16
  }

  /** Behind the saved frame pointer and link register, and the canaries if there are any. */
  function FirstOffset(canaries: bool): nat {
    16 + if canaries then 2 * CANARY_SIZE else 0
  }

  function TotalSize(locals: seq<Local>): nat {
    if locals == [] then 0 else locals[0].size + TotalSize(locals[1..])
  }

  function FrameSize(f: Frame): nat {
    AlignTo16(TotalSize(f.locals) + 8 * |f.saved| + FirstOffset(f.canaries) + f.spillArea)
  }

  /** The offsets of locals from `at` on. */
  function LocalOffsets(locals: seq<Local>, at: nat, m: map<string, nat>): map<string, nat>
    decreases |locals|
  {
    if locals == [] then m else LocalOffsets(locals[1..], at + locals[0].size, m[locals[0].name := at])
  }

  /** The saved registers follow; one with the name of a local shares the local's slot. */
  function SavedOffsets(saved: seq<Register>, at: nat, m: map<string, nat>): map<string, nat>
    decreases |saved|
  {
    if saved == [] then m
    else if RegisterName(saved[0]) in m then SavedOffsets(saved[1..], at, m)
    else SavedOffsets(saved[1..], at + 8, m[RegisterName(saved[0]) := at])
  }

  function Offsets(f: Frame): map<string, nat> {
    var first := FirstOffset(f.canaries);
    SavedOffsets(f.saved, first + TotalSize(f.locals), LocalOffsets(f.locals, first, map[]))
  }

  /** Where saving the registers ends, counting only those that get a slot of their own. */
  function SavedEnd(saved: seq<Register>, at: nat, m: map<string, nat>): nat
    decreases |saved|
  {
    if saved == [] then at
    else if RegisterName(saved[0]) in m then SavedEnd(saved[1..], at, m)
    else SavedEnd(saved[1..], at + 8, m[RegisterName(saved[0]) := at])
  }

  /** Where the manager puts the first spill slot. */
  function SpillBase(f: Frame): nat {
    var first := FirstOffset(f.canaries);
    SavedEnd(f.saved, first + TotalSize(f.locals), LocalOffsets(f.locals, first, map[]))
  }

  /** The end of the slots when all names differ. */
  function SpillStart(f: Frame): nat {
    FirstOffset(f.canaries) + TotalSize(f.locals) + 8 * |f.saved|
  }

  // ----- the layout -----

  predicate DistinctNames(names: seq<string>) {
    forall i, j :: 0 <= i < j < |names| ==> names[i] != names[j]
  }

  function LocalNames(locals: seq<Local>): (r: seq<string>)
    ensures |r| == |locals| && forall i :: 0 <= i < |r| ==> r[i] == locals[i].name
  {
    if locals == [] then [] else [locals[0].name] + LocalNames(locals[1..])
  }

  function SavedNames(saved: seq<Register>): (r: seq<string>)
    ensures |r| == |saved| && forall i :: 0 <= i < |r| ==> r[i] == RegisterName(saved[i])
  {
    if saved == [] then [] else [RegisterName(saved[0])] + SavedNames(saved[1..])
  }

  /** Locals are words or pairs of words, and all names differ, those of registers included. */
  predicate WellNamed(f: Frame) {
    && DistinctNames(LocalNames(f.locals) + SavedNames(f.saved))
    && forall l :: l in f.locals ==> l.size == 8 || l.size == 16
  }

  /** A stretch of the frame, from its base. */
  datatype Slot = Slot(offset: int, size: int)

  predicate Apart(a: Slot, b: Slot) {
    a.offset + a.size <= b.offset || b.offset + b.size <= a.offset
  }

  /** The slots one after another: frame pointer and link register, canaries, locals, saved registers. */
  function LocalSlots(locals: seq<Local>, at: nat): (r: seq<Slot>)
    ensures |r| == |locals|
  {
    if locals == [] then [] else [Slot(at, locals[0].size)] + LocalSlots(locals[1..], at + locals[0].size)
  }

  function SavedSlots(n: nat, at: nat): (r: seq<Slot>)
    ensures |r| == n && forall i :: 0 <= i < n ==> r[i] == Slot(at + 8 * i, 8)
  {
    if n == 0 then [] else [Slot(at, 8)] + SavedSlots(n - 1, at + 8)
  }

  function Slots(f: Frame): seq<Slot> {
    var first := FirstOffset(f.canaries);
    [Slot(0, 8), Slot(8, 8)] + (if f.canaries then [Slot(16, 8), Slot(24, 8)] else [])
      + LocalSlots(f.locals, first) + SavedSlots(|f.saved|, first + TotalSize(f.locals))
  }

  /** The slots fill the stretch from `lo` to `hi` in order, in multiples of eight bytes. */
  ghost predicate Packed(slots: seq<Slot>, lo: int, hi: int) {
    && lo <= hi && lo % 8 == 0 && hi % 8 == 0
    && (forall i :: 0 <= i < |slots| ==>
          lo <= slots[i].offset && slots[i].size > 0 && slots[i].offset + slots[i].size <= hi && slots[i].offset % 8 == 0)
    && (forall i, j :: 0 <= i < j < |slots| ==> slots[i].offset + slots[i].size <= slots[j].offset)
  }

  lemma PackedJoin(a: seq<Slot>, b: seq<Slot>, lo: int, mid: int, hi: int)
    requires Packed(a, lo, mid) && Packed(b, mid, hi)
    ensures Packed(a + b, lo, hi)
  {
  }

  lemma {:induction false} LocalsPacked(locals: seq<Local>, at: nat)
    requires at % 8 == 0 && forall l :: l in locals ==> l.size == 8 || l.size == 16
    ensures Packed(LocalSlots(locals, at), at, at + TotalSize(locals))
    decreases |locals|
  {
    if locals != [] {
      assert locals[0] in locals;
      LocalsPacked(locals[1..], at + locals[0].size);
      PackedJoin([Slot(at, locals[0].size)], LocalSlots(locals[1..], at + locals[0].size), at, at + locals[0].size, at + TotalSize(locals));
    }
  }

  lemma {:induction false} LocalsKeep(locals: seq<Local>, at: nat, m: map<string, nat>, x: string)
    requires x !in LocalNames(locals)
    ensures x in LocalOffsets(locals, at, m) <==> x in m
    ensures x in m ==> LocalOffsets(locals, at, m)[x] == m[x]
    decreases |locals|
  {
    if locals != [] {
      assert LocalNames(locals) == [locals[0].name] + LocalNames(locals[1..]);
      LocalsKeep(locals[1..], at + locals[0].size, m[locals[0].name := at], x);
    }
  }

  lemma {:induction false} LocalOffsetAt(locals: seq<Local>, at: nat, m: map<string, nat>, i: nat)
    requires DistinctNames(LocalNames(locals)) && i < |locals|
    ensures var r := LocalOffsets(locals, at, m);
            locals[i].name in r && r[locals[i].name] == LocalSlots(locals, at)[i].offset
    decreases |locals|
  {
    var l, rest := locals[0], locals[1..];
    assert LocalNames(locals) == [l.name] + LocalNames(rest);
    assert forall j :: 0 <= j < |rest| ==> LocalNames(locals)[j + 1] == LocalNames(rest)[j];
    if i == 0 {
      LocalsKeep(rest, at + l.size, m[l.name := at], l.name);
    } else {
      LocalOffsetAt(rest, at + l.size, m[l.name := at], i - 1);
    }
  }

  lemma {:induction false} SavedKeep(saved: seq<Register>, at: nat, m: map<string, nat>, x: string)
    requires x in m
    ensures x in SavedOffsets(saved, at, m) && SavedOffsets(saved, at, m)[x] == m[x]
    decreases |saved|
  {
    hide RegisterName;
    if saved != [] {
      var r := RegisterName(saved[0]);
      SavedKeep(saved[1..], if r in m then at else at + 8, if r in m then m else m[r := at], x);
    }
  }

  lemma {:induction false} SavedOffsetAt(saved: seq<Register>, at: nat, m: map<string, nat>, i: nat)
    requires DistinctNames(SavedNames(saved)) && (forall r :: r in saved ==> RegisterName(r) !in m) && i < |saved|
    ensures var r := SavedOffsets(saved, at, m); RegisterName(saved[i]) in r && r[RegisterName(saved[i])] == at + 8 * i
    decreases |saved|
  {
    hide RegisterName;
    var x, rest := RegisterName(saved[0]), saved[1..];
    RestIsFree(saved, at, m);
    if i == 0 {
      SavedKeep(rest, at + 8, m[x := at], x);
    } else {
      SavedOffsetAt(rest, at + 8, m[x := at], i - 1);
    }
  }

  lemma {:induction false} SavedEndAt(saved: seq<Register>, at: nat, m: map<string, nat>)
    requires DistinctNames(SavedNames(saved)) && forall r :: r in saved ==> RegisterName(r) !in m
    ensures SavedEnd(saved, at, m) == at + 8 * |saved|
    decreases |saved|
  {
    hide RegisterName;
    if saved != [] {
      RestIsFree(saved, at, m);
      SavedEndAt(saved[1..], at + 8, m[RegisterName(saved[0]) := at]);
    }
  }

  /** With the first register placed, the others still have names of their own. */
  lemma RestIsFree(saved: seq<Register>, at: nat, m: map<string, nat>)
    requires DistinctNames(SavedNames(saved)) && saved != [] && forall r :: r in saved ==> RegisterName(r) !in m
    ensures RegisterName(saved[0]) !in m && DistinctNames(SavedNames(saved[1..]))
    ensures forall r :: r in saved[1..] ==> RegisterName(r) !in m[RegisterName(saved[0]) := at]
  {
    hide RegisterName;
    var x, rest := RegisterName(saved[0]), saved[1..];
    assert SavedNames(saved) == [x] + SavedNames(rest) && saved[0] in saved;
    assert forall j :: 0 <= j < |rest| ==> SavedNames(saved)[j + 1] == SavedNames(rest)[j];
    forall r | r in rest
      ensures RegisterName(r) !in m[x := at]
    {
      var j :| 0 <= j < |rest| && rest[j] == r;
      assert SavedNames(saved)[j + 1] == RegisterName(r);
      assert r in saved;
    }
  }

  lemma SplitNames(f: Frame)
    requires WellNamed(f)
    ensures DistinctNames(LocalNames(f.locals)) && DistinctNames(SavedNames(f.saved))
    ensures forall r :: r in f.saved ==> RegisterName(r) !in LocalNames(f.locals)
  {
    hide RegisterName;
    var names, saved := LocalNames(f.locals), SavedNames(f.saved);
    var all := names + saved;
    assert forall i :: 0 <= i < |names| ==> all[i] == names[i];
    assert forall i :: 0 <= i < |saved| ==> all[|names| + i] == saved[i];
  }

  predicate DistinctRegisters(saved: seq<Register>) {
    forall i, j :: 0 <= i < j < |saved| ==> saved[i] != saved[j]
  }

  lemma RegistersDiffer(f: Frame)
    requires WellNamed(f)
    ensures DistinctRegisters(f.saved)
  {
    SplitNames(f);
    hide RegisterName;
    var names := SavedNames(f.saved);
    forall i, j | 0 <= i < j < |f.saved|
      ensures f.saved[i] != f.saved[j]
    {
      assert names[i] != names[j];
    }
  }

  /** The offset of every local is that of its slot. */
  lemma LocalsHaveSlots(f: Frame, i: nat)
    requires WellNamed(f) && i < |f.locals|
    ensures f.locals[i].name in Offsets(f)
    ensures Offsets(f)[f.locals[i].name] == LocalSlots(f.locals, FirstOffset(f.canaries))[i].offset
  {
    SplitNames(f);
    hide DistinctNames, LocalOffsets, SavedOffsets, LocalSlots;
    var first := FirstOffset(f.canaries);
    LocalOffsetAt(f.locals, first, map[], i);
    SavedKeep(f.saved, first + TotalSize(f.locals), LocalOffsets(f.locals, first, map[]), f.locals[i].name);
  }

  lemma SavedAreFree(f: Frame)
    requires WellNamed(f)
    ensures forall r :: r in f.saved ==> RegisterName(r) !in LocalOffsets(f.locals, FirstOffset(f.canaries), map[])
  {
    SplitNames(f);
    hide DistinctNames, LocalOffsets, RegisterName;
    forall r | r in f.saved
      ensures RegisterName(r) !in LocalOffsets(f.locals, FirstOffset(f.canaries), map[])
    {
      LocalsKeep(f.locals, FirstOffset(f.canaries), map[], RegisterName(r));
    }
  }

  /** With all names apart, spilling starts behind the last slot. */
  lemma SpillsComeLast(f: Frame)
    requires WellNamed(f)
    ensures SpillBase(f) == SpillStart(f)
  {
    SplitNames(f);
    SavedAreFree(f);
    hide DistinctNames, LocalOffsets, SavedEnd, RegisterName;
    var first := FirstOffset(f.canaries);
    SavedEndAt(f.saved, first + TotalSize(f.locals), LocalOffsets(f.locals, first, map[]));
  }

  /** The offset of every saved register is that of its slot. */
  lemma SavedHaveSlots(f: Frame, i: nat)
    requires WellNamed(f) && i < |f.saved|
    ensures RegisterName(f.saved[i]) in Offsets(f)
    ensures Offsets(f)[RegisterName(f.saved[i])] == FirstOffset(f.canaries) + TotalSize(f.locals) + 8 * i
  {
    SplitNames(f);
    hide DistinctNames, LocalOffsets, SavedOffsets, RegisterName;
    var first := FirstOffset(f.canaries);
    var m := LocalOffsets(f.locals, first, map[]);
    SavedAreFree(f);
    SavedOffsetAt(f.saved, first + TotalSize(f.locals), m, i);
  }

  lemma HeadPacked(canaries: bool)
    ensures Packed([Slot(0, 8), Slot(8, 8)] + if canaries then [Slot(16, 8), Slot(24, 8)] else [], 0, FirstOffset(canaries))
  {
  }

  lemma SavedPacked(n: nat, at: nat)
    requires at % 8 == 0
    ensures Packed(SavedSlots(n, at), at, at + 8 * n)
  {
  }

  /** All slots and all spill slots that fit into the spill area lie apart in the frame, on multiples of eight, and
    * the frame's size is a multiple of sixteen.
    */
  lemma FrameIsPacked(f: Frame, spills: nat)
    requires WellNamed(f) && 8 * spills <= f.spillArea
    ensures Packed(Slots(f) + SavedSlots(spills, SpillStart(f)), 0, SpillStart(f) + 8 * spills)
    ensures SpillStart(f) + 8 * spills <= FrameSize(f) && FrameSize(f) % 16 == 0
  {
    hide Packed, LocalSlots, SavedSlots, TotalSize, DistinctNames, AlignTo16, FirstOffset;
    var first := FirstOffset(f.canaries);
    var mid, start := first + TotalSize(f.locals), SpillStart(f);
    AlignIsEnough(TotalSize(f.locals) + 8 * |f.saved| + first + f.spillArea);
    var head := [Slot(0, 8), Slot(8, 8)] + if f.canaries then [Slot(16, 8), Slot(24, 8)] else [];
    var locals, saved, spilled := LocalSlots(f.locals, first), SavedSlots(|f.saved|, mid), SavedSlots(spills, start);
    HeadPacked(f.canaries);
    PackedEnds(head, 0, first);
    LocalsPacked(f.locals, first);
    PackedEnds(locals, first, mid);
    SavedPacked(|f.saved|, mid);
    SavedPacked(spills, start);
    PackedJoin(head, locals, 0, first, mid);
    PackedJoin(head + locals, saved, 0, mid, start);
    PackedJoin(head + locals + saved, spilled, 0, start, start + 8 * spills);
    assert Slots(f) == head + locals + saved;
  }

  lemma AlignIsEnough(n: nat)
    ensures n <= AlignTo16(n) < n + 16 && AlignTo16(n) % 16 == 0
  {
  }

  lemma PackedEnds(slots: seq<Slot>, lo: int, hi: int)
    requires Packed(slots, lo, hi)
    ensures lo % 8 == 0 && hi % 8 == 0
  {
  }

  // ----- prologue and epilogue -----

  /** Registers by name, and memory by address in words of eight bytes. */
  datatype Cpu = Cpu(sp: int, regs: map<Register, int>, memory: map<int, int>)

  datatype Instr =
    | PushFrame(size: nat)
    | FrameFromStack
    | LoadConstant(reg: Register, value: int)
    | StoreFrame(reg: Register, offset: nat)
    | LoadFrame(reg: Register, offset: nat)
    | TrapUnlessEqual(a: Register, b: Register)
    | StackFromFrame
    | LoadStack(reg: Register, offset: nat)
    | AddStack(bytes: nat)

  function Reg(c: Cpu, r: Register): int {
    if r in c.regs then c.regs[r] else 0
  }

  function Word8(c: Cpu, a: int): int {
    if a in c.memory then c.memory[a] else 0
  }

  /** `None` is a trap. */
  function Step(i: Instr, c: Cpu): Option<Cpu> {
    match i
    case PushFrame(n) =>
      var sp := c.sp - n;
      Some(c.(sp := sp, memory := c.memory[sp := Reg(c, FP)][sp + 8 := Reg(c, LR)]))
    case FrameFromStack => Some(c.(regs := c.regs[FP := c.sp]))
    case LoadConstant(r, v) => Some(c.(regs := c.regs[r := v]))
    case StoreFrame(r, o) => Some(c.(memory := c.memory[Reg(c, FP) + o := Reg(c, r)]))
    case LoadFrame(r, o) => Some(c.(regs := c.regs[r := Word8(c, Reg(c, FP) + o)]))
    case TrapUnlessEqual(a, b) => if Reg(c, a) == Reg(c, b) then Some(c) else None
    case StackFromFrame => Some(c.(sp := Reg(c, FP)))
    case LoadStack(r, o) => Some(c.(regs := c.regs[r := Word8(c, c.sp + o)]))
    case AddStack(n) => Some(c.(sp := c.sp + n))
  }

  function RunCode(code: seq<Instr>, c: Cpu): Option<Cpu> {
    if code == [] then Some(c)
    else
      var d := Step(code[0], c);
      if d.Some? then RunCode(code[1..], d.value) else None
  }

  function OffsetOf(offsets: map<string, nat>, r: Register): nat {
    if RegisterName(r) in offsets then offsets[RegisterName(r)] else 0
  }

  /** The saved registers have consecutive words from `at` on. */
  ghost predicate Consecutive(saved: seq<Register>, offsets: map<string, nat>, at: nat) {
    forall i :: 0 <= i < |saved| ==> OffsetOf(offsets, saved[i]) == at + 8 * i
  }

  function SaveCode(saved: seq<Register>, offsets: map<string, nat>): seq<Instr> {
    if saved == [] then []
    else [StoreFrame(saved[0], OffsetOf(offsets, saved[0]))] + SaveCode(saved[1..], offsets)
  }

  function RestoreCode(saved: seq<Register>, offsets: map<string, nat>): seq<Instr> {
    if saved == [] then []
    else [LoadFrame(saved[0], OffsetOf(offsets, saved[0]))] + RestoreCode(saved[1..], offsets)
  }

  const SET_CANARIES: seq<Instr> :=
    [LoadConstant(SCRATCH_A, UPPER_CANARY), StoreFrame(SCRATCH_A, 16), LoadConstant(SCRATCH_A, LOWER_CANARY), StoreFrame(SCRATCH_A, 16 + CANARY_SIZE)]

  const CHECK_CANARIES: seq<Instr> :=
    [LoadFrame(SCRATCH_B, 16), LoadConstant(SCRATCH_C, UPPER_CANARY), TrapUnlessEqual(SCRATCH_B, SCRATCH_C),
     LoadFrame(SCRATCH_B, 16 + CANARY_SIZE), LoadConstant(SCRATCH_C, LOWER_CANARY), TrapUnlessEqual(SCRATCH_B, SCRATCH_C)]

  const LEAVE: seq<Instr> := [StackFromFrame, LoadStack(FP, 0), LoadStack(LR, 8), AddStack(16)]

  function Prologue(f: Frame): seq<Instr> {
    [PushFrame(FrameSize(f)), FrameFromStack] + ((if f.canaries then SET_CANARIES else []) + SaveCode(f.saved, Offsets(f)))
  }

  function Epilogue(f: Frame): seq<Instr> {
    RestoreCode(f.saved, Offsets(f)) + ((if f.canaries then CHECK_CANARIES else []) + LEAVE)
  }

  lemma {:induction false} RunJoin(a: seq<Instr>, b: seq<Instr>, c: Cpu)
    ensures var d := RunCode(a, c); RunCode(a + b, c) == if d.Some? then RunCode(b, d.value) else None
  {
    hide Step;
    if a == [] {
      assert a + b == b;
    } else {
      assert (a + b)[1..] == a[1..] + b;
      var d := Step(a[0], c);
      if d.Some? {
        RunJoin(a[1..], b, d.value);
      }
    }
  }

  /** The registers the callee keeps. */
  predicate CalleeSaved(r: Register) {
    r !in {SCRATCH_A, SCRATCH_B, SCRATCH_C, FP, LR}
  }

  /** Saving registers changes nothing but the words they are saved in. */
  lemma {:induction false} SaveFrame(saved: seq<Register>, offsets: map<string, nat>, at: nat, c: Cpu)
    requires Consecutive(saved, offsets, at)
    ensures RunCode(SaveCode(saved, offsets), c).Some?
    ensures var d, fp := RunCode(SaveCode(saved, offsets), c).value, Reg(c, FP);
            d.sp == c.sp && d.regs == c.regs
            && forall a :: a < fp + at || a >= fp + at + 8 * |saved| ==> Word8(d, a) == Word8(c, a)
    decreases |saved|
  {
    if saved != [] {
      var fp := Reg(c, FP);
      ShiftOffsets(saved, offsets, at);
      SaveFrame(saved[1..], offsets, at + 8, c.(memory := c.memory[fp + at := Reg(c, saved[0])]));
      assert SaveCode(saved, offsets)[1..] == SaveCode(saved[1..], offsets);
    }
  }

  lemma ShiftOffsets(saved: seq<Register>, offsets: map<string, nat>, at: nat)
    requires saved != [] && Consecutive(saved, offsets, at)
    ensures OffsetOf(offsets, saved[0]) == at && Consecutive(saved[1..], offsets, at + 8)
  {
    hide OffsetOf;
    assert OffsetOf(offsets, saved[0]) == at + 8 * 0;
    forall i | 0 <= i < |saved[1..]|
      ensures OffsetOf(offsets, saved[1..][i]) == at + 8 + 8 * i
    {
      assert OffsetOf(offsets, saved[i + 1]) == at + 8 * (i + 1);
    }
  }

  lemma SaveStep(saved: seq<Register>, offsets: map<string, nat>, at: nat, c: Cpu)
    requires saved != [] && OffsetOf(offsets, saved[0]) == at
    ensures var e := Stored(c, Reg(c, FP) + at, Reg(c, saved[0]));
            RunCode(SaveCode(saved, offsets), c) == RunCode(SaveCode(saved[1..], offsets), e)
  {
    hide Reg, OffsetOf;
    assert SaveCode(saved, offsets)[1..] == SaveCode(saved[1..], offsets);
  }

  function Stored(c: Cpu, a: int, v: int): (d: Cpu)
    ensures d.sp == c.sp && d.regs == c.regs && Word8(d, a) == v
  {
    c.(memory := c.memory[a := v])
  }

  lemma SameRegister(c: Cpu, d: Cpu, r: Register)
    requires c.regs == d.regs
    ensures Reg(c, r) == Reg(d, r)
  {
  }

  lemma {:induction false} SavedWord(saved: seq<Register>, offsets: map<string, nat>, at: nat, c: Cpu, i: nat)
    requires Consecutive(saved, offsets, at) && i < |saved|
    ensures RunCode(SaveCode(saved, offsets), c).Some?
    ensures Word8(RunCode(SaveCode(saved, offsets), c).value, Reg(c, FP) + (at + 8 * i)) == Reg(c, saved[i])
    decreases |saved|
  {
    hide RunCode, SaveCode, OffsetOf, Consecutive, Reg, Word8, Stored;
    ShiftOffsets(saved, offsets, at);
    SaveStep(saved, offsets, at, c);
    var e := Stored(c, Reg(c, FP) + at, Reg(c, saved[0]));
    SameRegister(c, e, FP);
    SaveFrame(saved[1..], offsets, at + 8, e);
    if i > 0 {
      SameRegister(c, e, saved[i]);
      SavedWord(saved[1..], offsets, at + 8, e, i - 1);
    }
  }

  /** Restoring changes no register but those restored. */
  lemma {:induction false} RestoreFrame(saved: seq<Register>, offsets: map<string, nat>, c: Cpu)
    ensures RunCode(RestoreCode(saved, offsets), c).Some?
    ensures var d := RunCode(RestoreCode(saved, offsets), c).value;
            d.sp == c.sp && d.memory == c.memory && forall r :: r !in saved ==> Reg(d, r) == Reg(c, r)
    decreases |saved|
  {
    if saved != [] {
      var o := OffsetOf(offsets, saved[0]);
      var e := c.(regs := c.regs[saved[0] := Word8(c, Reg(c, FP) + o)]);
      RestoreFrame(saved[1..], offsets, e);
      assert RestoreCode(saved, offsets)[1..] == RestoreCode(saved[1..], offsets);
    }
  }

  lemma SameWord(c: Cpu, d: Cpu, a: int)
    requires c.memory == d.memory
    ensures Word8(c, a) == Word8(d, a)
  {
  }

  lemma RestoreStep(saved: seq<Register>, offsets: map<string, nat>, c: Cpu)
    requires saved != []
    ensures var e := Cpu(c.sp, c.regs[saved[0] := Word8(c, Reg(c, FP) + OffsetOf(offsets, saved[0]))], c.memory);
            RunCode(RestoreCode(saved, offsets), c) == RunCode(RestoreCode(saved[1..], offsets), e)
  {
    hide Word8, Reg, OffsetOf;
    assert RestoreCode(saved, offsets)[1..] == RestoreCode(saved[1..], offsets);
  }

  lemma UpdatedRegister(c: Cpu, e: Cpu, r: Register, v: int)
    requires e.regs == c.regs[r := v]
    ensures Reg(e, r) == v && forall x :: x != r ==> Reg(e, x) == Reg(c, x)
  {
  }

  /** Restoring gives a saved register the word it was saved in. */
  lemma {:induction false} RestoredRegister(saved: seq<Register>, offsets: map<string, nat>, at: nat, c: Cpu, i: nat)
    requires Consecutive(saved, offsets, at) && DistinctRegisters(saved) && FP !in saved && i < |saved|
    ensures RunCode(RestoreCode(saved, offsets), c).Some?
    ensures Reg(RunCode(RestoreCode(saved, offsets), c).value, saved[i]) == Word8(c, Reg(c, FP) + (at + 8 * i))
    decreases |saved|
  {
    hide RunCode, RestoreCode, OffsetOf, Consecutive, Reg, Word8;
    var rest, v := saved[1..], Word8(c, Reg(c, FP) + OffsetOf(offsets, saved[0]));
    var e := Cpu(c.sp, c.regs[saved[0] := v], c.memory);
    assert saved[0] in saved && forall r :: r in rest ==> r in saved;
    ShiftOffsets(saved, offsets, at);
    RestoreStep(saved, offsets, c);
    UpdatedRegister(c, e, saved[0], v);
    RestoreFrame(rest, offsets, e);
    if i == 0 {
      assert saved[0] !in rest;
    } else {
      RestoredRegister(rest, offsets, at + 8, e, i - 1);
      SameWord(c, e, Reg(c, FP) + (at + 8 * i));
    }
  }

  // ----- a whole call -----

  /** The canaries are still there. */
  predicate CanariesIntact(f: Frame, c: Cpu) {
    f.canaries ==>
      Word8(c, Reg(c, FP) + 16) == 0x1122334455667788 && Word8(c, Reg(c, FP) + 24) == 0xAABBCCDDEEFF0011
  }

  lemma RunTwo(a: Instr, b: Instr, c: Cpu)
    ensures var d := Step(a, c); RunCode([a, b], c) == if d.Some? then Step(b, d.value) else None
  {
    hide Step;
    assert [a, b][1..] == [b] && [b][1..] == [];
    var d := Step(a, c);
    if d.Some? {
      var e := Step(b, d.value);
      assert RunCode([b], d.value) == if e.Some? then RunCode([], e.value) else None;
    }
  }

  lemma EnterRuns(n: nat, c: Cpu)
    ensures RunCode([PushFrame(n), FrameFromStack], c) ==
              Some(Cpu(c.sp - n, c.regs[FP := c.sp - n], c.memory[c.sp - n := Reg(c, FP)][c.sp - n + 8 := Reg(c, LR)]))
  {
    RunTwo(PushFrame(n), FrameFromStack, c);
  }

  lemma CanaryIsSet(value: int, offset: nat, c: Cpu)
    ensures RunCode([LoadConstant(SCRATCH_A, value), StoreFrame(SCRATCH_A, offset)], c) ==
              Some(Cpu(c.sp, c.regs[SCRATCH_A := value], c.memory[Reg(c, FP) + offset := value]))
  {
    RunTwo(LoadConstant(SCRATCH_A, value), StoreFrame(SCRATCH_A, offset), c);
  }

  lemma CanariesAreSet(c: Cpu)
    ensures RunCode(SET_CANARIES, c).Some?
    ensures var d, fp := RunCode(SET_CANARIES, c).value, Reg(c, FP);
            && d.sp == c.sp && (forall r :: r != SCRATCH_A ==> Reg(d, r) == Reg(c, r))
            && d.memory == c.memory[fp + 16 := UPPER_CANARY][fp + 16 + CANARY_SIZE := LOWER_CANARY]
  {
    var first := [LoadConstant(SCRATCH_A, UPPER_CANARY), StoreFrame(SCRATCH_A, 16)];
    var second := [LoadConstant(SCRATCH_A, LOWER_CANARY), StoreFrame(SCRATCH_A, 16 + CANARY_SIZE)];
    assert SET_CANARIES == first + second;
    RunJoin(first, second, c);
    hide RunCode;
    CanaryIsSet(UPPER_CANARY, 16, c);
    CanaryIsSet(LOWER_CANARY, 16 + CANARY_SIZE, RunCode(first, c).value);
  }

  lemma CanaryIsChecked(value: int, offset: nat, c: Cpu)
    ensures var check := [LoadFrame(SCRATCH_B, offset), LoadConstant(SCRATCH_C, value), TrapUnlessEqual(SCRATCH_B, SCRATCH_C)];
            var w := Word8(c, Reg(c, FP) + offset);
            RunCode(check, c) == if w == value then Some(c.(regs := c.regs[SCRATCH_B := w][SCRATCH_C := value])) else None
  {
    var a, b, t := LoadFrame(SCRATCH_B, offset), LoadConstant(SCRATCH_C, value), TrapUnlessEqual(SCRATCH_B, SCRATCH_C);
    assert [a, b] + [t] == [a, b, t] && [t][1..] == [];
    RunTwo(a, b, c);
    RunJoin([a, b], [t], c);
    var w := Word8(c, Reg(c, FP) + offset);
    var d := c.(regs := c.regs[SCRATCH_B := w][SCRATCH_C := value]);
    assert RunCode([a, b], c) == Some(d);
    assert RunCode([t], d) == if w == value then RunCode([], d) else None;
  }

  lemma CanariesAreChecked(c: Cpu)
    ensures var fp, r := Reg(c, FP), RunCode(CHECK_CANARIES, c);
            && (r.Some? <==> Word8(c, fp + 16) == UPPER_CANARY && Word8(c, fp + 16 + CANARY_SIZE) == LOWER_CANARY)
            && (r.Some? ==> r.value.sp == c.sp && r.value.memory == c.memory
                            && forall x :: x != SCRATCH_B && x != SCRATCH_C ==> Reg(r.value, x) == Reg(c, x))
  {
    var first := [LoadFrame(SCRATCH_B, 16), LoadConstant(SCRATCH_C, UPPER_CANARY), TrapUnlessEqual(SCRATCH_B, SCRATCH_C)];
    var second := [LoadFrame(SCRATCH_B, 16 + CANARY_SIZE), LoadConstant(SCRATCH_C, LOWER_CANARY), TrapUnlessEqual(SCRATCH_B, SCRATCH_C)];
    assert CHECK_CANARIES == first + second;
    RunJoin(first, second, c);
    hide RunCode;
    CanaryIsChecked(UPPER_CANARY, 16, c);
    if RunCode(first, c).Some? {
      CanaryIsChecked(LOWER_CANARY, 16 + CANARY_SIZE, RunCode(first, c).value);
    }
  }

  lemma RunStep(i: Instr, rest: seq<Instr>, c: Cpu, d: Cpu)
    requires Step(i, c) == Some(d)
    ensures RunCode([i] + rest, c) == RunCode(rest, d)
  {
    hide Step;
    assert ([i] + rest)[1..] == rest;
  }

  lemma LeaveRuns(c: Cpu)
    ensures var fp, r := Reg(c, FP), RunCode(LEAVE, c);
            && r.Some? && r.value.sp == fp + 16 && r.value.memory == c.memory
            && r.value.regs == c.regs[FP := Word8(c, fp)][LR := Word8(c, fp + 8)]
  {
    hide RunCode;
    var c1 := c.(sp := Reg(c, FP));
    var c2 := c1.(regs := c1.regs[FP := Word8(c1, c1.sp + 0)]);
    var c3 := c2.(regs := c2.regs[LR := Word8(c2, c2.sp + 8)]);
    var c4 := c3.(sp := c3.sp + 16);
    LeaveSteps(c, c1, c2, c3, c4);
    hide *;
    assert c1.memory == c.memory && c2.memory == c.memory;
    SameWord(c1, c, c1.sp);
    SameWord(c2, c, c1.sp + 8);
  }

  lemma LeaveSteps(c: Cpu, c1: Cpu, c2: Cpu, c3: Cpu, c4: Cpu)
    requires Step(StackFromFrame, c) == Some(c1) && Step(LoadStack(FP, 0), c1) == Some(c2)
    requires Step(LoadStack(LR, 8), c2) == Some(c3) && Step(AddStack(16), c3) == Some(c4)
    ensures RunCode(LEAVE, c) == Some(c4)
  {
    hide RunCode, Step;
    assert LEAVE == [StackFromFrame] + ([LoadStack(FP, 0)] + ([LoadStack(LR, 8)] + ([AddStack(16)] + [])));
    RunStep(StackFromFrame, [LoadStack(FP, 0)] + ([LoadStack(LR, 8)] + ([AddStack(16)] + [])), c, c1);
    RunStep(LoadStack(FP, 0), [LoadStack(LR, 8)] + ([AddStack(16)] + []), c1, c2);
    RunStep(LoadStack(LR, 8), [AddStack(16)] + [], c2, c3);
    RunStep(AddStack(16), [], c3, c4);
    RunNothing(c4);
  }

  /** The word in which saved register `i` is kept, from the frame pointer. */
  function SavedAt(f: Frame, i: nat): nat {
    FirstOffset(f.canaries) + TotalSize(f.locals) + 8 * i
  }

  /** After the prologue the frame holds what the epilogue will need. */
  ghost predicate Entered(f: Frame, c: Cpu, d: Cpu) {
    && d.sp == c.sp - FrameSize(f) && Reg(d, FP) == d.sp
    && Word8(d, d.sp) == Reg(c, FP) && Word8(d, d.sp + 8) == Reg(c, LR)
    && (forall i :: 0 <= i < |f.saved| ==> Word8(d, d.sp + SavedAt(f, i)) == Reg(c, f.saved[i]))
    && CanariesIntact(f, d)
  }

  lemma PrologueEnters(f: Frame, c: Cpu)
    requires WellNamed(f) && forall r :: r in f.saved ==> CalleeSaved(r)
    ensures RunCode(Prologue(f), c).Some? && Entered(f, c, RunCode(Prologue(f), c).value)
  {
    hide RunCode, FrameSize, SaveCode, Offsets, DistinctNames, TotalSize, LocalNames;
    var n, offsets := FrameSize(f), Offsets(f);
    var push, set_, save := [PushFrame(n), FrameFromStack], if f.canaries then SET_CANARIES else [], SaveCode(f.saved, offsets);
    EnterRuns(n, c);
    var c1 := RunCode(push, c).value;
    RunJoin(push, set_ + save, c);
    RunJoin(set_, save, c1);
    RunNothing(c1);
    if f.canaries {
      CanariesAreSet(c1);
    }
    var c2 := RunCode(set_, c1).value;
    var at := SavedAt(f, 0);
    forall i | 0 <= i < |f.saved|
      ensures OffsetOf(offsets, f.saved[i]) == at + 8 * i
    {
      SavedHaveSlots(f, i);
    }
    SaveFrame(f.saved, offsets, at, c2);
    var d := RunCode(save, c2).value;
    forall i | 0 <= i < |f.saved|
      ensures Word8(d, d.sp + SavedAt(f, i)) == Reg(c, f.saved[i])
    {
      SavedWord(f.saved, offsets, at, c2, i);
      assert CalleeSaved(f.saved[i]);
    }
  }

  lemma RunNothing(c: Cpu)
    ensures RunCode([], c) == Some(c)
  {
  }

  /** The epilogue traps exactly when a canary has changed; otherwise it reloads what the frame holds. */
  lemma EpilogueLeaves(f: Frame, d: Cpu)
    requires WellNamed(f) && forall r :: r in f.saved ==> CalleeSaved(r)
    ensures var r, fp := RunCode(Epilogue(f), d), Reg(d, FP);
            && (r.Some? <==> CanariesIntact(f, d))
            && (r.Some? ==>
                  && r.value.sp == fp + 16 && Reg(r.value, FP) == Word8(d, fp) && Reg(r.value, LR) == Word8(d, fp + 8)
                  && forall i :: 0 <= i < |f.saved| ==> Reg(r.value, f.saved[i]) == Word8(d, fp + SavedAt(f, i)))
  {
    hide RunCode, RestoreCode, Offsets, TotalSize, LocalNames;
    var offsets := Offsets(f);
    var restore, check := RestoreCode(f.saved, offsets), if f.canaries then CHECK_CANARIES else [];
    RunJoin(restore, check + LEAVE, d);
    RestoreFrame(f.saved, offsets, d);
    var e := RunCode(restore, d).value;
    assert FP !in f.saved;
    RunJoin(check, LEAVE, e);
    RunNothing(e);
    CanariesAreChecked(e);
    if RunCode(check, e).Some? {
      LeaveRuns(RunCode(check, e).value);
    }
    var at := SavedAt(f, 0);
    RegistersDiffer(f);
    forall i | 0 <= i < |f.saved|
      ensures OffsetOf(offsets, f.saved[i]) == at + 8 * i
    {
      SavedHaveSlots(f, i);
    }
    forall i | 0 <= i < |f.saved|
      ensures Reg(e, f.saved[i]) == Word8(d, Reg(d, FP) + SavedAt(f, i)) && f.saved[i] !in {SCRATCH_B, SCRATCH_C, FP, LR}
    {
      RestoredRegister(f.saved, offsets, at, d, i);
      assert CalleeSaved(f.saved[i]);
    }
  }

  /** The body leaves the frame pointer and the words of the frame alone that it does not own. */
  ghost predicate KeepsFrame(f: Frame, c: Cpu, d: Cpu) {
    var fp := Reg(c, FP);
    && Reg(d, FP) == fp
    && Word8(d, fp) == Word8(c, fp) && Word8(d, fp + 8) == Word8(c, fp + 8)
    && (forall i :: 0 <= i < |f.saved| ==> Word8(d, fp + SavedAt(f, i)) == Word8(c, fp + SavedAt(f, i)))
  }

  /** After prologue, a body that keeps the frame, and epilogue, the frame pointer, the link register and all saved
    * registers are as before; the stack pointer ends sixteen bytes above the base of the frame. The call traps exactly
    * when the body has changed a canary.
    */
  lemma CallRestores(f: Frame, c: Cpu, d: Cpu)
    requires WellNamed(f) && forall r :: r in f.saved ==> CalleeSaved(r)
    requires RunCode(Prologue(f), c).Some? ==> KeepsFrame(f, RunCode(Prologue(f), c).value, d)
    ensures var r := RunCode(Epilogue(f), d);
            && (r.Some? <==> CanariesIntact(f, d))
            && (r.Some? ==>
                  && Reg(r.value, FP) == Reg(c, FP) && Reg(r.value, LR) == Reg(c, LR)
                  && (forall x :: x in f.saved ==> Reg(r.value, x) == Reg(c, x))
                  && r.value.sp == c.sp - FrameSize(f) + 16)
  {
    hide RunCode, Prologue, Epilogue, FrameSize, WellNamed;
    PrologueEnters(f, c);
    EpilogueLeaves(f, d);
    var r := RunCode(Epilogue(f), d);
    if r.Some? {
      forall x | x in f.saved
        ensures Reg(r.value, x) == Reg(c, x)
      {
        var i :| 0 <= i < |f.saved| && f.saved[i] == x;
      }
    }
  }

  /** The caller gets its stack pointer back exactly when the frame holds nothing but the frame pointer and the link
    * register.
    */
  lemma StackIsRestoredExactly(f: Frame, c: Cpu, d: Cpu)
    requires WellNamed(f) && forall r :: r in f.saved ==> CalleeSaved(r)
    requires RunCode(Prologue(f), c).Some? ==> KeepsFrame(f, RunCode(Prologue(f), c).value, d)
    requires CanariesIntact(f, d)
    ensures RunCode(Epilogue(f), d).Some?
    ensures RunCode(Epilogue(f), d).value.sp == c.sp <==>
            f.locals == [] && f.saved == [] && !f.canaries && f.spillArea == 0
  {
    hide RunCode, Prologue, Epilogue, KeepsFrame, AlignTo16, Reg, CanariesIntact, DistinctNames;
    CallRestores(f, c, d);
    AlignIsEnough(TotalSize(f.locals) + 8 * |f.saved| + FirstOffset(f.canaries) + f.spillArea);
    if f.locals != [] {
      assert f.locals[0] in f.locals;
    }
  }
}
