/** Which register an acquire gives out: a free one before one in use, the lowest first, and at last the least recent. */
module RegisterChoice {
  import opened Wrappers
  import opened RegisterCache

  predicate IsFree(c: Cache, r: Register) {
    r in c.registers && c.registers[r].status.Free?
  }

  /** The lowest free register from `lo` to `hi`. */
  ghost predicate LowestFree(c: Cache, lo: Register, hi: Register, r: Register) {
    lo <= r <= hi && IsFree(c, r) && forall x :: lo <= x < r ==> !IsFree(c, x)
  }

  ghost predicate NoneFree(c: Cache, lo: Register, hi: Register) {
    forall x :: lo <= x <= hi ==> !IsFree(c, x)
  }

  lemma {:induction false} FindsLowest(c: Cache, pool: seq<Register>, lo: Register, hi: Register)
    requires |pool| == hi + 1 - lo && forall i :: 0 <= i < |pool| ==> pool[i] == lo + i
    ensures var f := FindFree(c.registers, pool);
            if f.Some? then LowestFree(c, lo, hi, f.value) else NoneFree(c, lo, hi)
    decreases |pool|
  {
    if pool != [] && !IsFree(c, pool[0]) {
      assert pool[0] == lo;
      assert forall i :: 0 <= i < |pool| - 1 ==> pool[1..][i] == lo + 1 + i;
      FindsLowest(c, pool[1..], lo + 1, hi);
      var f := FindFree(c.registers, pool[1..]);
      assert f == FindFree(c.registers, pool);
    }
  }

  lemma PoolsInOrder(c: Cache)
    ensures var f := FindFree(c.registers, SCRATCH_REGS);
            if f.Some? then LowestFree(c, 10, 15, f.value) else NoneFree(c, 10, 15)
    ensures var f := FindFree(c.registers, VARIABLE_REGS);
            if f.Some? then LowestFree(c, 20, 27, f.value) else NoneFree(c, 20, 27)
  {
    hide LowestFree, NoneFree, FindFree;
    FindsLowest(c, SCRATCH_REGS, 10, 15);
    FindsLowest(c, VARIABLE_REGS, 20, 27);
  }

  /** The register is taken from the variable that was acquired least recently, which is saved if it is dirty. */
  ghost predicate TakenFromLast(c: Cache, a: Acquired) {
    && c.lru != [] && a.reg == c.lru[|c.lru| - 1] && a.reg in c.registers
    && |a.saves| == (if c.registers[a.reg].dirty then 1 else 0)
    && (forall s :: s in a.saves ==> s.reg == a.reg)
    && c.registers[a.reg].boundTo in a.cache.spilled
  }

  /** A scratch register: the lowest free one of X10 to X15; if there is none, of X20 to X27; if there is none either,
    * that of the least recent variable; and the error when no register holds a variable.
    */
  lemma ScratchChoice(c: Cache)
    requires Valid(c)
    ensures var a := AcquireScratch(c);
            && (!NoneFree(c, 10, 15) ==>
                  a.Ok? && LowestFree(c, 10, 15, a.value.reg) && a.value.saves == [] && a.value.cache.regOf == c.regOf)
            && (NoneFree(c, 10, 15) && !NoneFree(c, 20, 27) ==>
                  a.Ok? && LowestFree(c, 20, 27, a.value.reg) && a.value.saves == [] && a.value.cache.regOf == c.regOf)
            && (NoneFree(c, 10, 15) && NoneFree(c, 20, 27) ==>
                  (a.Err? <==> c.lru == []) && (a.Ok? ==> TakenFromLast(c, a.value)))
  {
    hide FindFree, Distinct;
    PoolsInOrder(c);
  }

  /** A variable without a register gets the lowest free one of X20 to X27, or that of the least recent variable; one that
    * has a register keeps it and becomes the most recent.
    */
  lemma VariableChoice(c: Cache, v: string)
    requires Valid(c) && v != TEMP && (v in c.regOf || HasRoom(c))
    ensures var a := AcquireVariable(c, v);
            && a.cache.lru != [] && a.cache.lru[0] == a.reg
            && (v in c.regOf ==> a.hit && a.reg == c.regOf[v] && a.saves == [] && a.cache.registers == c.registers)
            && (v !in c.regOf && !NoneFree(c, 20, 27) ==> !a.hit && LowestFree(c, 20, 27, a.reg) && a.saves == [])
            && (v !in c.regOf && NoneFree(c, 20, 27) ==>
                  && !a.hit && c.lru != [] && a.reg == c.lru[|c.lru| - 1]
                  && |a.saves| == (if c.registers[a.reg].dirty then 1 else 0)
                  && a.cache.spilled == c.spilled + {c.registers[a.reg].boundTo} - {v})
  {
    hide FindFree, Distinct, Valid;
    PoolsInOrder(c);
  }

  /** Releasing a scratch register frees it, wherever it came from; a register that holds a variable is left to it. */
  lemma ReleasedIsFree(c: Cache, r: Register)
    requires r in c.registers
    ensures var d := ReleaseScratch(c, r);
            && (IsFree(d, r) <==> c.registers[r].status != InUseVariable)
            && (forall x :: x != r ==> (x in d.registers <==> x in c.registers))
            && (forall x :: x in c.registers && x != r ==> d.registers[x] == c.registers[x])
            && d.regOf == c.regOf && d.lru == c.lru && d.slotOf == c.slotOf
  {
  }
}
