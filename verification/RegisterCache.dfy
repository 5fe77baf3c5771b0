/** The register manager as a write-back cache of variables over stack slots. */
module RegisterCache {
  import opened Wrappers

  type Register = nat

  const VARIABLE_REGS: seq<Register> := [20, 21, 22, 23, 24, 25, 26, 27]
  const SCRATCH_REGS: seq<Register> := [10, 11, 12, 13, 14, 15]
  const TEMP := "_temp_"
  const PERSISTENT_TEMP := "_persistent_temp_"
  const SCRATCH := "scratch"
  const SCRATCH_FROM_VARIABLES := "scratch_from_vars"
  const SCRATCH_FROM_SPILL := "scratch_from_spill"
  const SLOT_SIZE := 8

  datatype Status = Free | InUseVariable | InUseScratch

  datatype Info = Info(status: Status, boundTo: string, dirty: bool)

  const FREE_INFO := Info(Free, "", false)

  /** The manager's tables, and the spill slots of the frame it works for. */
  datatype Cache = Cache(
    registers: map<Register, Info>,
    regOf: map<string, Register>,
    lru: seq<Register>,
    spilled: set<string>,
    slotOf: map<string, int>,
    nextSlot: int)

  /** A store of a register into a spill slot. */
  datatype Save = Save(reg: Register, slot: int)

  datatype Acquired = Acquired(cache: Cache, reg: Register, hit: bool, saves: seq<Save>)

  const EMPTY := Cache(
    map r | r in VARIABLE_REGS + SCRATCH_REGS :: FREE_INFO, map[], [], {}, map[], 0)

  /** The first free register of a pool. */
  function FindFree(registers: map<Register, Info>, pool: seq<Register>): (r: Option<Register>)
    ensures r.Some? ==> r.value in pool && r.value in registers && registers[r.value].status.Free?
    ensures r.None? ==> forall x :: x in pool && x in registers ==> !registers[x].status.Free?
  {
    if pool == [] then None
    else if pool[0] in registers && registers[pool[0]].status.Free? then Some(pool[0])
    else FindFree(registers, pool[1..])
  }

  function Without(lru: seq<Register>, r: Register): seq<Register> {
    if lru == [] then []
    else if lru[0] == r then Without(lru[1..], r)
    else [lru[0]] + Without(lru[1..], r)
  }

  /** The slot of a variable, given out on first use. */
  function NeedSlot(c: Cache, v: string): (r: Cache)
    ensures v in r.slotOf
  {
    if v in c.slotOf then c else c.(slotOf := c.slotOf[v := c.nextSlot], nextSlot := c.nextSlot + SLOT_SIZE)
  }

  /** Takes the least recently acquired variable register from its variable, saving it first if it is dirty. */
  function Evict(c: Cache): Acquired
    requires c.lru != [] && c.lru[|c.lru| - 1] in c.registers
  {
    var victim := c.lru[|c.lru| - 1];
    var owner := c.registers[victim].boundTo;
    var d := if c.registers[victim].dirty then NeedSlot(c, owner) else c;
    var saves := if c.registers[victim].dirty then [Save(victim, d.slotOf[owner])] else [];
    Acquired(d.(lru := c.lru[..|c.lru| - 1], regOf := c.regOf - {owner}, spilled := c.spilled + {owner}),
             victim, false, saves)
  }

  function Bind(c: Cache, r: Register, v: string): Cache {
    c.(registers := c.registers[r := Info(InUseVariable, v, false)], lru := [r] + c.lru)
  }

  /** A free register, or one to evict, is at hand. */
  predicate HasRoom(c: Cache) {
    FindFree(c.registers, VARIABLE_REGS).Some? || (c.lru != [] && c.lru[|c.lru| - 1] in c.registers)
  }

  function AcquireVariable(c: Cache, v: string): Acquired
    requires v in c.regOf || HasRoom(c)
  {
    if v in c.regOf then
      var r := c.regOf[v];
      Acquired(c.(lru := [r] + Without(c.lru, r)), r, true, [])
    else
      var free := FindFree(c.registers, VARIABLE_REGS);
      if free.Some? then
        var d := Bind(c, free.value, v);
        Acquired(d.(regOf := d.regOf[v := free.value]), free.value, false, [])
      else
        var e := Evict(c);
        var d := Bind(e.cache, e.reg, v);
        e.(cache := d.(regOf := d.regOf[v := e.reg], spilled := d.spilled - {v}))
  }

  function AcquireTemp(c: Cache): Acquired
    requires HasRoom(c)
  {
    var free := FindFree(c.registers, VARIABLE_REGS);
    if free.Some? then Acquired(Bind(c, free.value, TEMP), free.value, false, [])
    else
      var e := Evict(c);
      e.(cache := Bind(e.cache, e.reg, TEMP))
  }

  /** Fails when both pools are taken and no variable register can be spilled. */
  function AcquireScratch(c: Cache): Result<Acquired> {
    var free := FindFree(c.registers, SCRATCH_REGS);
    var free2 := FindFree(c.registers, VARIABLE_REGS);
    if free.Some? then
      Ok(Acquired(c.(registers := c.registers[free.value := Info(InUseScratch, SCRATCH, false)]), free.value, false, []))
    else if free2.Some? then
      Ok(Acquired(c.(registers := c.registers[free2.value := Info(InUseScratch, SCRATCH_FROM_VARIABLES, false)]), free2.value, false, []))
    else if !HasRoom(c) then Err
    else
      var e := Evict(c);
      Ok(e.(cache := e.cache.(registers := e.cache.registers[e.reg := Info(InUseScratch, SCRATCH_FROM_SPILL, false)])))
  }

  /** Fails when no register of the variable pool is free. */
  function AcquireCalleeSaved(c: Cache): Result<Acquired> {
    var free := FindFree(c.registers, VARIABLE_REGS);
    if free.None? then Err
    else
      var i := c.registers[free.value].(status := InUseScratch, boundTo := PERSISTENT_TEMP);
      Ok(Acquired(c.(registers := c.registers[free.value := i]), free.value, false, []))
  }

  function ReleaseScratch(c: Cache, r: Register): Cache {
    if r in c.registers && c.registers[r].status.InUseScratch? then c.(registers := c.registers[r := FREE_INFO]) else c
  }

  /** Forgets the register of a variable without saving it. */
  function ReleaseVariable(c: Cache, v: string): Cache {
    if v in c.regOf && c.regOf[v] in c.registers then
      var r := c.regOf[v];
      c.(registers := c.registers[r := FREE_INFO], regOf := c.regOf - {v}, lru := Without(c.lru, r))
    else c
  }

  function MarkDirty(c: Cache, r: Register, dirty: bool): Cache {
    if r in c.registers then c.(registers := c.registers[r := c.registers[r].(dirty := dirty)]) else c
  }

  // ----- the invariant of the tables -----

  predicate Distinct(s: seq<Register>) {
    forall i, j :: 0 <= i < j < |s| ==> s[i] != s[j]
  }

  predicate IsVariableReg(r: Register) {
    20 <= r <= 27
  }

  predicate IsScratchReg(r: Register) {
    10 <= r <= 15
  }

  lemma Pools(r: Register)
    ensures r in VARIABLE_REGS <==> IsVariableReg(r)
    ensures r in SCRATCH_REGS <==> IsScratchReg(r)
  {
    assert VARIABLE_REGS[0] == 20 && VARIABLE_REGS[1] == 21 && VARIABLE_REGS[2] == 22 && VARIABLE_REGS[3] == 23;
    assert VARIABLE_REGS[4] == 24 && VARIABLE_REGS[5] == 25 && VARIABLE_REGS[6] == 26 && VARIABLE_REGS[7] == 27;
    assert SCRATCH_REGS[0] == 10 && SCRATCH_REGS[1] == 11 && SCRATCH_REGS[2] == 12;
    assert SCRATCH_REGS[3] == 13 && SCRATCH_REGS[4] == 14 && SCRATCH_REGS[5] == 15;
  }

  /** Every managed register has an entry, and only registers of the variable pool hold variables. */
  ghost predicate Managed(registers: map<Register, Info>) {
    && (forall r :: r in registers <==> IsVariableReg(r) || IsScratchReg(r))
    && (forall r :: r in registers && registers[r].status.InUseVariable? ==> IsVariableReg(r))
  }

  /** Variables and registers point at each other. */
  ghost predicate Linked(registers: map<Register, Info>, regOf: map<string, Register>) {
    && TEMP !in regOf
    && (forall v :: v in regOf ==>
          regOf[v] in registers && registers[regOf[v]].status.InUseVariable? && registers[regOf[v]].boundTo == v)
    && (forall r :: r in registers && registers[r].status.InUseVariable? && registers[r].boundTo != TEMP ==>
          registers[r].boundTo in regOf && regOf[registers[r].boundTo] == r)
  }

  /** The LRU list holds each register that holds a variable or a temporary once, and no other. */
  ghost predicate Listed(registers: map<Register, Info>, lru: seq<Register>) {
    Distinct(lru) && forall r :: r in lru <==> r in registers && registers[r].status.InUseVariable?
  }

  ghost predicate Consistent(c: Cache) {
    Managed(c.registers) && Linked(c.registers, c.regOf) && Listed(c.registers, c.lru)
  }

  /** Slots of eight bytes do not overlap. */
  ghost predicate SlotsApart(slotOf: map<string, int>, nextSlot: int) {
    && 0 <= nextSlot
    && (forall v :: v in slotOf ==> 0 <= slotOf[v] <= nextSlot - 8)
    && (forall v, w :: v in slotOf && w in slotOf && v != w ==>
          slotOf[v] + 8 <= slotOf[w] || slotOf[w] + 8 <= slotOf[v])
  }

  ghost predicate Valid(c: Cache) {
    Consistent(c) && SlotsApart(c.slotOf, c.nextSlot)
  }

  lemma EmptyIsValid()
    ensures Valid(EMPTY)
  {
    forall r
      ensures r in EMPTY.registers <==> IsVariableReg(r) || IsScratchReg(r)
    {
      Pools(r);
    }
  }

  lemma {:induction false} WithoutMembers(s: seq<Register>, r: Register)
    ensures forall x :: x in Without(s, r) <==> x in s && x != r
    ensures Distinct(s) ==> Distinct(Without(s, r))
  {
    if s != [] {
      WithoutMembers(s[1..], r);
      assert s == [s[0]] + s[1..];
      assert Distinct(s) ==> Distinct(s[1..]) && s[0] !in s[1..];
    }
  }

  lemma FrontMembers(s: seq<Register>)
    requires s != [] && Distinct(s)
    ensures var t := s[..|s| - 1]; Distinct(t) && forall x :: x in t <==> x in s && x != s[|s| - 1]
  {
    var t := s[..|s| - 1];
    forall x | x in s && x != s[|s| - 1]
      ensures x in t
    {
      var i :| 0 <= i < |s| && s[i] == x;
      assert t[i] == x;
    }
  }

  lemma NeedSlotKeeps(c: Cache, v: string)
    requires SlotsApart(c.slotOf, c.nextSlot)
    ensures var d := NeedSlot(c, v); SlotsApart(d.slotOf, d.nextSlot) && d.registers == c.registers && d.regOf == c.regOf && d.lru == c.lru
    ensures forall w :: w in c.slotOf ==> w in NeedSlot(c, v).slotOf && NeedSlot(c, v).slotOf[w] == c.slotOf[w]
  {
  }

  /** What eviction leaves: a consistent cache but for the victim, which no table points at any more. */
  ghost predicate EvictedFrom(c: Cache, e: Acquired) {
    var d, r := e.cache, e.reg;
    && d.registers == c.registers && r in c.lru && c.lru[|c.lru| - 1] == r && r in c.registers
    && d.regOf == c.regOf - {c.registers[r].boundTo}
    && d.lru == c.lru[..|c.lru| - 1]
    && SlotsApart(d.slotOf, d.nextSlot)
    && (forall w :: w in c.slotOf ==> w in d.slotOf && d.slotOf[w] == c.slotOf[w])
    && (if c.registers[r].dirty
        then c.registers[r].boundTo in d.slotOf && e.saves == [Save(r, d.slotOf[c.registers[r].boundTo])]
        else e.saves == [] && d.slotOf == c.slotOf)
  }

  lemma EvictKeeps(c: Cache)
    requires Valid(c) && c.lru != []
    ensures c.lru[|c.lru| - 1] in c.registers && EvictedFrom(c, Evict(c))
  {
    assert c.lru[|c.lru| - 1] in c.lru;
    NeedSlotKeeps(c, c.registers[c.lru[|c.lru| - 1]].boundTo);
    hide SlotsApart;
  }

  lemma RelinkKeeps(registers: map<Register, Info>, regOf: map<string, Register>, r: Register, v: string, i: Info)
    requires Linked(registers, regOf) && r in registers && registers[r].status.InUseVariable?
    requires i.status.InUseVariable? ==> i.boundTo == v && v !in regOf
    ensures var m := regOf - {registers[r].boundTo};
            Linked(registers[r := i], if i.status.InUseVariable? && v != TEMP then m[v := r] else m)
  {
  }

  lemma LinkKeeps(registers: map<Register, Info>, regOf: map<string, Register>, r: Register, v: string, i: Info)
    requires Linked(registers, regOf) && r in registers && !registers[r].status.InUseVariable?
    requires i.status.InUseVariable? ==> i.boundTo == v && v !in regOf
    ensures Linked(registers[r := i], if i.status.InUseVariable? && v != TEMP then regOf[v := r] else regOf)
  {
  }

  /** Moving the last register of the list to its front, or taking it off. */
  lemma RelistKeeps(registers: map<Register, Info>, lru: seq<Register>, i: Info)
    requires Listed(registers, lru) && lru != [] && lru[|lru| - 1] in registers
    ensures var r, front := lru[|lru| - 1], lru[..|lru| - 1];
            Listed(registers[r := i], if i.status.InUseVariable? then [r] + front else front)
  {
    FrontMembers(lru);
    assert lru[|lru| - 1] in lru;
  }

  lemma ListKeeps(registers: map<Register, Info>, lru: seq<Register>, r: Register, i: Info)
    requires Listed(registers, lru) && r in registers && !registers[r].status.InUseVariable?
    ensures Listed(registers[r := i], if i.status.InUseVariable? then [r] + lru else lru)
  {
  }

  /** Giving the victim of an eviction to a variable or a temporary. */
  lemma RebindKeeps(c: Cache, e: Acquired, v: string)
    requires Valid(c) && EvictedFrom(c, e) && v !in c.regOf
    ensures var d := Bind(e.cache, e.reg, v); Valid(if v == TEMP then d else d.(regOf := d.regOf[v := e.reg]))
  {
    hide Linked, Listed, Managed, SlotsApart;
    VictimHoldsVariable(c);
    RelinkKeeps(c.registers, c.regOf, e.reg, v, Info(InUseVariable, v, false));
    RelistKeeps(c.registers, c.lru, Info(InUseVariable, v, false));
    VariableManaged(c.registers, e.reg, Info(InUseVariable, v, false));
  }

  lemma VariableManaged(registers: map<Register, Info>, r: Register, i: Info)
    requires Managed(registers) && r in registers && registers[r].status.InUseVariable?
    ensures Managed(registers[r := i])
  {
  }

  lemma BindFreeKeeps(c: Cache, r: Register, v: string)
    requires Valid(c) && r in c.registers && c.registers[r].status.Free? && IsVariableReg(r) && v !in c.regOf
    ensures var d := Bind(c, r, v); Valid(if v == TEMP then d else d.(regOf := d.regOf[v := r]))
  {
    LinkKeeps(c.registers, c.regOf, r, v, Info(InUseVariable, v, false));
    ListKeeps(c.registers, c.lru, r, Info(InUseVariable, v, false));
    assert Managed(c.registers[r := Info(InUseVariable, v, false)]);
    hide Linked, Listed, Managed;
  }

  /** Taking a register that holds no variable as scratch. */
  lemma ScratchKeeps(c: Cache, r: Register, i: Info)
    requires Valid(c) && r in c.registers && !c.registers[r].status.InUseVariable? && !i.status.InUseVariable?
    ensures Valid(c.(registers := c.registers[r := i]))
  {
    LinkKeeps(c.registers, c.regOf, r, TEMP, i);
    ListKeeps(c.registers, c.lru, r, i);
    hide Linked, Listed;
  }

  /** A free register of the variable pool is one of its eight. */
  lemma FreeOfPool(c: Cache)
    requires Valid(c)
    ensures var free := FindFree(c.registers, VARIABLE_REGS); free.Some? ==> IsVariableReg(free.value)
    ensures var free := FindFree(c.registers, VARIABLE_REGS);
            free.None? ==> forall r :: IsVariableReg(r) ==> !c.registers[r].status.Free?
  {
    var free := FindFree(c.registers, VARIABLE_REGS);
    if free.Some? {
      Pools(free.value);
    } else {
      forall r | IsVariableReg(r)
        ensures !c.registers[r].status.Free?
      {
        Pools(r);
      }
    }
  }

  /** In a valid cache there is room unless every variable register serves as scratch. */
  lemma RoomExactly(c: Cache)
    requires Valid(c)
    ensures HasRoom(c) <==> exists r :: IsVariableReg(r) && !c.registers[r].status.InUseScratch?
  {
    FreeOfPool(c);
    hide SlotsApart, FindFree, Linked;
    if c.lru != [] {
      assert c.lru[|c.lru| - 1] in c.lru;
    }
    if r :| IsVariableReg(r) && !c.registers[r].status.InUseScratch? {
      assert c.registers[r].status.InUseVariable? ==> r in c.lru;
    }
  }

  lemma AcquireVariableKeeps(c: Cache, v: string)
    requires Valid(c) && v != TEMP && (v in c.regOf || HasRoom(c))
    ensures Valid(AcquireVariable(c, v).cache)
  {
    hide SlotsApart, Linked, Managed, Listed;
    if v in c.regOf {
      HitKeeps(c, v);
    } else {
      FreeOfPool(c);
      var free := FindFree(c.registers, VARIABLE_REGS);
      if free.Some? {
        BindFreeKeeps(c, free.value, v);
      } else {
        EvictKeeps(c);
        RebindKeeps(c, Evict(c), v);
        var d := Bind(Evict(c).cache, Evict(c).reg, v);
        SpilledIsFree(d.(regOf := d.regOf[v := Evict(c).reg]), d.spilled - {v});
      }
    }
  }

  lemma HitKeeps(c: Cache, v: string)
    requires Valid(c) && v in c.regOf
    ensures Valid(AcquireVariable(c, v).cache)
  {
    WithoutMembers(c.lru, c.regOf[v]);
  }

  /** The record of spilled variables plays no part in the invariant. */
  lemma SpilledIsFree(c: Cache, s: set<string>)
    ensures Valid(c.(spilled := s)) == Valid(c)
  {
  }

  lemma AcquireTempKeeps(c: Cache)
    requires Valid(c) && HasRoom(c)
    ensures Valid(AcquireTemp(c).cache)
  {
    FreeOfPool(c);
    assert TEMP !in c.regOf;
    hide SlotsApart, Linked, Managed, Listed;
    var free := FindFree(c.registers, VARIABLE_REGS);
    if free.Some? {
      BindFreeKeeps(c, free.value, TEMP);
    } else {
      EvictKeeps(c);
      RebindKeeps(c, Evict(c), TEMP);
    }
  }

  lemma AcquireScratchKeeps(c: Cache)
    requires Valid(c)
    ensures AcquireScratch(c).Ok? ==> Valid(AcquireScratch(c).value.cache)
  {
    var i := Info(InUseScratch, SCRATCH_FROM_SPILL, false);
    var free := FindFree(c.registers, SCRATCH_REGS);
    var free2 := FindFree(c.registers, VARIABLE_REGS);
    hide SlotsApart, Managed, Listed, Linked, FindFree;
    if free.Some? {
      ScratchKeeps(c, free.value, Info(InUseScratch, SCRATCH, false));
    } else if free2.Some? {
      ScratchKeeps(c, free2.value, Info(InUseScratch, SCRATCH_FROM_VARIABLES, false));
    } else if HasRoom(c) {
      EvictKeeps(c);
      var e := Evict(c);
      RelinkKeeps(c.registers, c.regOf, e.reg, TEMP, i) by {
        VictimHoldsVariable(c);
      }
      RelistKeeps(c.registers, c.lru, i);
      ScratchManaged(c.registers, e.reg, i);
    }
  }

  lemma VictimHoldsVariable(c: Cache)
    requires Valid(c) && c.lru != []
    ensures var r := c.lru[|c.lru| - 1]; r in c.registers && c.registers[r].status.InUseVariable?
  {
    assert c.lru[|c.lru| - 1] in c.lru;
  }

  lemma ScratchManaged(registers: map<Register, Info>, r: Register, i: Info)
    requires Managed(registers) && r in registers && !i.status.InUseVariable?
    ensures Managed(registers[r := i])
  {
  }

  lemma AcquireCalleeSavedKeeps(c: Cache)
    requires Valid(c)
    ensures AcquireCalleeSaved(c).Ok? ==> Valid(AcquireCalleeSaved(c).value.cache)
  {
    var free := FindFree(c.registers, VARIABLE_REGS);
    if free.Some? {
      ScratchKeeps(c, free.value, c.registers[free.value].(status := InUseScratch, boundTo := PERSISTENT_TEMP));
    }
  }

  lemma ReleaseScratchKeeps(c: Cache, r: Register)
    requires Valid(c)
    ensures Valid(ReleaseScratch(c, r))
  {
    if r in c.registers && c.registers[r].status.InUseScratch? {
      ScratchKeeps(c, r, FREE_INFO);
    }
  }

  lemma ReleaseVariableKeeps(c: Cache, v: string)
    requires Valid(c)
    ensures Valid(ReleaseVariable(c, v))
  {
    hide SlotsApart;
    if v in c.regOf {
      WithoutMembers(c.lru, c.regOf[v]);
      RelinkKeeps(c.registers, c.regOf, c.regOf[v], TEMP, FREE_INFO);
    }
  }

  lemma MarkDirtyKeeps(c: Cache, r: Register, dirty: bool)
    requires Valid(c)
    ensures Valid(MarkDirty(c, r, dirty))
  {
    hide SlotsApart;
  }
}
