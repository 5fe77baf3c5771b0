/** The register manager as it works, updating its tables in place and emitting the stores of spilled registers. */
module RegisterManager {
  import opened Wrappers
  import opened RegisterCache

  class Manager {
    var registers: map<Register, Info>
    var variableToReg: map<string, Register>
    var lruOrder: seq<Register>
    var spilledVariables: set<string>
    /** The spill slots of the frame. */
    var spillOffsets: map<string, int>
    var nextSpillOffset: int
    /** The stores emitted so far. */
    var emitted: seq<Save>

    constructor ()
      ensures State() == EMPTY && Valid(State()) && emitted == []
    {
      registers := map r | r in VARIABLE_REGS + SCRATCH_REGS :: FREE_INFO;
      variableToReg, lruOrder, spilledVariables := map[], [], {};
      spillOffsets, nextSpillOffset, emitted := map[], 0, [];
      new;
      EmptyIsValid();
    }

    function State(): Cache
      reads this
    {
      Cache(registers, variableToReg, lruOrder, spilledVariables, spillOffsets, nextSpillOffset)
    }

    method FindFreeRegister(pool: seq<Register>) returns (found: Option<Register>)
      ensures found == FindFree(registers, pool)
    {
      var i := 0;
      while i < |pool|
        invariant i <= |pool| && FindFree(registers, pool) == FindFree(registers, pool[i..])
      {
        if pool[i] in registers && registers[pool[i]].status.Free? {
          return Some(pool[i]);
        }
        assert pool[i..][1..] == pool[i + 1..];
        i := i + 1;
      }
      found := None;
    }

    method GetSpillOffset(v: string) returns (offset: int)
      modifies this`spillOffsets, this`nextSpillOffset
      ensures State() == NeedSlot(old(State()), v) && offset == State().slotOf[v]
    {
      if v in spillOffsets {
        return spillOffsets[v];
      }
      offset := nextSpillOffset;
      spillOffsets := spillOffsets[v := offset];
      nextSpillOffset := nextSpillOffset + SLOT_SIZE;
    }

    /** Takes the register at the end of the LRU list, storing it if it is dirty. */
    method SpillLeastRecent() returns (victim: Register)
      requires Valid(State()) && lruOrder != []
      modifies this
      ensures HasVictim(old(State()))
      ensures var e := Evict(old(State())); State() == e.cache && victim == e.reg && emitted == old(emitted) + e.saves
    {
      EvictKeeps(State());
      victim := lruOrder[|lruOrder| - 1];
      lruOrder := lruOrder[..|lruOrder| - 1];
      var spilledVar := registers[victim].boundTo;
      if registers[victim].dirty {
        var offset := GetSpillOffset(spilledVar);
        emitted := emitted + [Save(victim, offset)];
      }
      variableToReg := variableToReg - {spilledVar};
      spilledVariables := spilledVariables + {spilledVar};
    }

    static predicate HasVictim(c: Cache) {
      c.lru != [] && c.lru[|c.lru| - 1] in c.registers
    }

    method AcquireRegForVariable(v: string) returns (reg: Register, hit: bool)
      requires Valid(State()) && v != TEMP && (v in variableToReg || HasRoom(State()))
      modifies this
      ensures var a := AcquireVariable(old(State()), v);
              && State() == a.cache && reg == a.reg && hit == a.hit && emitted == old(emitted) + a.saves
      ensures Valid(State())
    {
      hide FindFree, Valid;
      AcquireVariableKeeps(State(), v);
      if v in variableToReg {
        reg := variableToReg[v];
        lruOrder := [reg] + Without(lruOrder, reg);
        return reg, true;
      }
      var free := FindFreeRegister(VARIABLE_REGS);
      if free.Some? {
        reg := free.value;
        registers := registers[reg := Info(InUseVariable, v, false)];
        variableToReg := variableToReg[v := reg];
        lruOrder := [reg] + lruOrder;
        return reg, false;
      }
      reg := SpillLeastRecent();
      registers := registers[reg := Info(InUseVariable, v, false)];
      variableToReg := variableToReg[v := reg];
      lruOrder := [reg] + lruOrder;
      spilledVariables := spilledVariables - {v};
      hit := false;
    }

    method AcquireSpillableTempReg() returns (reg: Register)
      requires Valid(State()) && HasRoom(State())
      modifies this
      ensures var a := AcquireTemp(old(State()));
              State() == a.cache && reg == a.reg && emitted == old(emitted) + a.saves
      ensures Valid(State())
    {
      hide FindFree, Valid;
      AcquireTempKeeps(State());
      var free := FindFreeRegister(VARIABLE_REGS);
      if free.Some? {
        reg := free.value;
      } else {
        reg := SpillLeastRecent();
      }
      registers := registers[reg := Info(InUseVariable, TEMP, false)];
      lruOrder := [reg] + lruOrder;
    }

    method AcquireScratchReg() returns (reg: Result<Register>)
      requires Valid(State())
      modifies this
      ensures var a := AcquireScratch(old(State()));
              if a.Ok? then State() == a.value.cache && reg == Ok(a.value.reg) && emitted == old(emitted) + a.value.saves
              else State() == old(State()) && reg == Err && emitted == old(emitted)
      ensures Valid(State())
    {
      hide FindFree, Valid;
      AcquireScratchKeeps(State());
      var free := FindFreeRegister(SCRATCH_REGS);
      if free.Some? {
        registers := registers[free.value := Info(InUseScratch, SCRATCH, false)];
        return Ok(free.value);
      }
      free := FindFreeRegister(VARIABLE_REGS);
      if free.Some? {
        registers := registers[free.value := Info(InUseScratch, SCRATCH_FROM_VARIABLES, false)];
        return Ok(free.value);
      }
      if lruOrder == [] {
        return Err;
      }
      var victim := SpillLeastRecent();
      registers := registers[victim := Info(InUseScratch, SCRATCH_FROM_SPILL, false)];
      reg := Ok(victim);
    }

    method AcquireCalleeSavedTempReg() returns (reg: Result<Register>)
      requires Valid(State())
      modifies this`registers
      ensures var a := AcquireCalleeSaved(old(State()));
              if a.Ok? then State() == a.value.cache && reg == Ok(a.value.reg) else State() == old(State()) && reg == Err
      ensures Valid(State())
    {
      AcquireCalleeSavedKeeps(State());
      var free := FindFreeRegister(VARIABLE_REGS);
      if free.None? {
        return Err;
      }
      registers := registers[free.value := registers[free.value].(status := InUseScratch, boundTo := PERSISTENT_TEMP)];
      reg := Ok(free.value);
    }

    method ReleaseScratchReg(r: Register)
      requires Valid(State())
      modifies this`registers
      ensures State() == ReleaseScratch(old(State()), r) && Valid(State())
    {
      ReleaseScratchKeeps(State(), r);
      if r in registers && registers[r].status.InUseScratch? {
        registers := registers[r := FREE_INFO];
      }
    }

    method ReleaseRegForVariable(v: string)
      requires Valid(State())
      modifies this
      ensures State() == ReleaseVariable(old(State()), v) && Valid(State()) && emitted == old(emitted)
    {
      ReleaseVariableKeeps(State(), v);
      if v in variableToReg && variableToReg[v] in registers {
        var r := variableToReg[v];
        registers := registers[r := FREE_INFO];
        variableToReg := variableToReg - {v};
        lruOrder := Without(lruOrder, r);
      }
    }

    method SetDirty(r: Register, dirty: bool)
      requires Valid(State())
      modifies this`registers
      ensures State() == MarkDirty(old(State()), r, dirty) && Valid(State())
    {
      MarkDirtyKeeps(State(), r, dirty);
      if r in registers {
        registers := registers[r := registers[r].(dirty := dirty)];
      }
    }
  }
}
