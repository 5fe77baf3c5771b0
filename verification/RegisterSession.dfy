/** The register cache at work: whatever is acquired in whatever order, every variable keeps its latest value. */
module RegisterSession {
  import opened Wrappers
  import opened Ast
  import opened RegisterCache

  /** What the code generator asks for. A read reloads on a miss; a write marks the register dirty; temporaries
    * and scratch registers are filled with some value.
    */
  datatype Request =
    | ReadVariable(name: string)
    | WriteVariable(name: string, value: Word)
    | TakeTemp(value: Word, dirty: bool)
    | TakeScratch(value: Word)
    | TakeCalleeSaved(value: Word)
    | DropScratch(reg: Register)
    | DropVariable(name: string)

  /** The tables, the machine, the values last written, and when each register was last acquired. */
  datatype Session = Session(
    cache: Cache,
    values: map<Register, Word>,
    memory: map<int, Word>,
    latest: map<string, Word>,
    lastUse: map<Register, nat>,
    clock: nat)

  const START := Session(EMPTY, map[], map[], map[], map[], 0)

  function ValueOf(values: map<Register, Word>, r: Register): Word {
    if r in values then values[r] else 0
  }

  function Fetch(memory: map<int, Word>, a: int): Word {
    if a in memory then memory[a] else 0
  }

  function Perform(saves: seq<Save>, values: map<Register, Word>, memory: map<int, Word>): map<int, Word> {
    if saves == [] then memory
    else Perform(saves[1..], values, memory[saves[0].slot := ValueOf(values, saves[0].reg)])
  }

  /** The session after an acquisition, with its saves performed and `v` in the register. */
  function Fill(s: Session, a: Acquired, v: Word): Session {
    s.(cache := a.cache, memory := Perform(a.saves, s.values, s.memory), values := s.values[a.reg := v])
  }

  function Touch(s: Session, r: Register): Session {
    s.(lastUse := s.lastUse[r := s.clock], clock := s.clock + 1)
  }

  /** `None` where the register manager gives up. */
  function Serve(s: Session, q: Request): Option<Session> {
    match q
    case ReadVariable(v) =>
      if v !in s.cache.regOf && !HasRoom(s.cache) then None
      else
        var a := AcquireVariable(s.cache, v);
        var t := Touch(s, a.reg);
        if a.hit then Some(t.(cache := a.cache))
        else
          var c := NeedSlot(a.cache, v);
          var memory := Perform(a.saves, s.values, s.memory);
          Some(Fill(t, a.(cache := MarkDirty(c, a.reg, false)), Fetch(memory, c.slotOf[v])))
    case WriteVariable(v, x) =>
      if v !in s.cache.regOf && !HasRoom(s.cache) then None
      else
        var a := AcquireVariable(s.cache, v);
        var t := Fill(Touch(s, a.reg), a.(cache := MarkDirty(a.cache, a.reg, true)), x);
        Some(t.(latest := s.latest[v := x]))
    case TakeTemp(x, dirty) =>
      if !HasRoom(s.cache) then None
      else
        var a := AcquireTemp(s.cache);
        Some(Fill(Touch(s, a.reg), a.(cache := MarkDirty(a.cache, a.reg, dirty)), x))
    case TakeScratch(x) =>
      var a := AcquireScratch(s.cache);
      if a.Ok? then Some(Fill(s, a.value, x)) else None
    case TakeCalleeSaved(x) =>
      var a := AcquireCalleeSaved(s.cache);
      if a.Ok? then Some(Fill(s, a.value, x)) else None
    case DropScratch(r) => Some(s.(cache := ReleaseScratch(s.cache, r)))
    case DropVariable(v) => Some(s.(cache := ReleaseVariable(s.cache, v)))
  }

  /** No request is about the name kept for temporaries. */
  predicate Proper(q: Request) {
    match q
    case ReadVariable(v) => v != TEMP
    case WriteVariable(v, _) => v != TEMP
    case DropVariable(v) => v != TEMP
    case _ => true
  }

  // ----- the invariant -----

  predicate SlotHolds(slotOf: map<string, int>, memory: map<int, Word>, v: string, x: Word) {
    v in slotOf && slotOf[v] in memory && memory[slotOf[v]] == x
  }

  /** Where the latest value of a variable is: in its register, and also in its slot unless the register is dirty. */
  predicate Keeps(registers: map<Register, Info>, regOf: map<string, Register>, slotOf: map<string, int>,
                  values: map<Register, Word>, memory: map<int, Word>, v: string, x: Word) {
    if v in regOf && regOf[v] in registers then
      && regOf[v] in values && values[regOf[v]] == x
      && (!registers[regOf[v]].dirty ==> SlotHolds(slotOf, memory, v, x))
    else SlotHolds(slotOf, memory, v, x)
  }

  ghost predicate Coherent(s: Session) {
    forall v :: v in s.latest ==> v != TEMP && Keeps(s.cache.registers, s.cache.regOf, s.cache.slotOf, s.values, s.memory, v, s.latest[v])
  }

  /** The LRU list runs from the latest acquired register to the one acquired longest ago. */
  ghost predicate Ordered(lru: seq<Register>, lastUse: map<Register, nat>, clock: nat) {
    && (forall i :: 0 <= i < |lru| ==> lru[i] in lastUse && lastUse[lru[i]] < clock)
    && (forall i, j :: 0 <= i < j < |lru| ==> lastUse[lru[i]] > lastUse[lru[j]])
  }

  ghost predicate Sane(s: Session) {
    Valid(s.cache) && Coherent(s) && Ordered(s.cache.lru, s.lastUse, s.clock)
  }

  lemma StartIsSane()
    ensures Sane(START)
  {
    EmptyIsValid();
  }

  // ----- order -----

  lemma {:induction false} WithoutStaysOrdered(lru: seq<Register>, r: Register, lastUse: map<Register, nat>, clock: nat)
    requires Ordered(lru, lastUse, clock)
    ensures Ordered(Without(lru, r), lastUse, clock)
  {
    if lru != [] {
      var rest := lru[1..];
      assert Ordered(rest, lastUse, clock);
      WithoutStaysOrdered(rest, r, lastUse, clock);
      WithoutMembers(rest, r);
      var t := Without(rest, r);
      forall i | 0 <= i < |t|
        ensures lastUse[lru[0]] > lastUse[t[i]]
      {
        assert t[i] in rest;
        var j :| 0 <= j < |rest| && rest[j] == t[i];
        assert lru[j + 1] == t[i];
      }
    }
  }

  lemma TouchedIsFirst(t: seq<Register>, r: Register, lastUse: map<Register, nat>, clock: nat)
    requires Ordered(t, lastUse, clock) && r !in t
    ensures Ordered([r] + t, lastUse[r := clock], clock + 1)
  {
  }

  /** The part of the LRU list behind the register just acquired is what was there before, without it. */
  lemma AcquiredIsFirst(c: Cache, a: Acquired, v: string, lastUse: map<Register, nat>, clock: nat)
    requires Valid(c) && Ordered(c.lru, lastUse, clock)
    requires (v in c.regOf || HasRoom(c)) && (v == TEMP || a == AcquireVariable(c, v)) && (v == TEMP ==> a == AcquireTemp(c))
    ensures Ordered(a.cache.lru, lastUse[a.reg := clock], clock + 1)
  {
    FreeOfPool(c);
    if v in c.regOf {
      WithoutStaysOrdered(c.lru, a.reg, lastUse, clock);
      WithoutMembers(c.lru, a.reg);
      TouchedIsFirst(Without(c.lru, a.reg), a.reg, lastUse, clock);
    } else if FindFree(c.registers, VARIABLE_REGS).Some? {
      TouchedIsFirst(c.lru, a.reg, lastUse, clock);
    } else {
      FrontMembers(c.lru);
      TouchedIsFirst(c.lru[..|c.lru| - 1], a.reg, lastUse, clock);
    }
  }

  /** What gives way is the variable register that was acquired longest ago. */
  lemma VictimIsLeastRecent(s: Session, r: Register)
    requires Sane(s) && r in s.cache.lru
    ensures var victim := s.cache.lru[|s.cache.lru| - 1];
            victim in s.lastUse && r in s.lastUse && (r != victim ==> s.lastUse[victim] < s.lastUse[r])
  {
    hide Valid, Coherent;
    var i :| 0 <= i < |s.cache.lru| && s.cache.lru[i] == r;
  }

  // ----- coherence -----

  lemma PerformOne(a: Save, values: map<Register, Word>, memory: map<int, Word>)
    ensures Perform([a], values, memory) == memory[a.slot := ValueOf(values, a.reg)]
    ensures Perform([], values, memory) == memory
  {
    assert [a][1..] == [];
  }

  /** An eviction with its save performed keeps every latest value but in the victim's register. */
  lemma EvictionKeepsValues(s: Session, e: Acquired, v: string)
    requires Valid(s.cache) && EvictedFrom(s.cache, e) && v in s.latest && Coherent(s)
    ensures var m := Perform(e.saves, s.values, s.memory);
            if v in e.cache.regOf then e.cache.regOf[v] != e.reg && Keeps(e.cache.registers, e.cache.regOf, e.cache.slotOf, s.values, m, v, s.latest[v])
            else SlotHolds(e.cache.slotOf, m, v, s.latest[v])
  {
    var c, r := s.cache, e.reg;
    assert Keeps(c.registers, c.regOf, c.slotOf, s.values, s.memory, v, s.latest[v]);
    hide Coherent;
    if c.registers[r].dirty {
      PerformOne(e.saves[0], s.values, s.memory);
    }
  }

  /** No variable but `v` is looked for in register `r`. */
  ghost predicate OnlyFor(c: Cache, r: Register, v: string) {
    forall w :: w in c.regOf && w != v ==> c.regOf[w] != r
  }

  /** All variables but `v` have their latest values where the tables say. */
  ghost predicate OthersKeep(s: Session, c: Cache, memory: map<int, Word>, v: string) {
    forall w :: w in s.latest && w != v ==> Keeps(c.registers, c.regOf, c.slotOf, s.values, memory, w, s.latest[w])
  }

  /** The register acquired for `v` (or for a temporary) is nobody else's, and all other values are where they were. */
  ghost predicate Served(s: Session, a: Acquired, v: string) {
    && Valid(a.cache) && a.reg in a.cache.registers
    && OnlyFor(a.cache, a.reg, v)
    && OthersKeep(s, a.cache, Perform(a.saves, s.values, s.memory), v)
  }

  /** Where `v` itself is after being acquired: still in its register, or to be reloaded from its slot. */
  ghost predicate Found(s: Session, a: Acquired, v: string) {
    var c, memory := a.cache, Perform(a.saves, s.values, s.memory);
    && v in c.regOf && c.regOf[v] == a.reg
    && (v in s.latest ==>
          if a.hit then Keeps(c.registers, c.regOf, c.slotOf, s.values, memory, v, s.latest[v])
          else SlotHolds(c.slotOf, memory, v, s.latest[v]))
  }

  lemma VariableIsServed(s: Session, v: string)
    requires Sane(s) && v != TEMP && (v in s.cache.regOf || HasRoom(s.cache))
    ensures var a := AcquireVariable(s.cache, v); Served(s, a, v) && Found(s, a, v)
  {
    hide Valid, Coherent, Ordered, AcquireVariable, FindFree, Perform, OnlyFor, OthersKeep, Found;
    AcquireVariableKeeps(s.cache, v);
    if v in s.cache.regOf {
      HitServes(s, v);
    } else if FindFree(s.cache.registers, VARIABLE_REGS).Some? {
      FreeServes(s, v);
    } else {
      EvictServes(s, v);
    }
  }

  lemma HitServes(s: Session, v: string)
    requires Sane(s) && v in s.cache.regOf && v != TEMP
    ensures var a := AcquireVariable(s.cache, v);
            && a.reg in a.cache.registers && OnlyFor(a.cache, a.reg, v) && Found(s, a, v)
            && OthersKeep(s, a.cache, Perform(a.saves, s.values, s.memory), v)
  {
    hide Ordered, SlotsApart, Listed, Managed;
  }

  lemma FreeServes(s: Session, v: string)
    requires Sane(s) && v !in s.cache.regOf && v != TEMP && FindFree(s.cache.registers, VARIABLE_REGS).Some?
    ensures var a := AcquireVariable(s.cache, v);
            && a.reg in a.cache.registers && OnlyFor(a.cache, a.reg, v) && Found(s, a, v)
            && OthersKeep(s, a.cache, Perform(a.saves, s.values, s.memory), v)
  {
    hide Ordered, SlotsApart, Listed, Managed, FindFree;
  }

  lemma EvictServes(s: Session, v: string)
    requires Sane(s) && v !in s.cache.regOf && v != TEMP && HasRoom(s.cache)
    requires FindFree(s.cache.registers, VARIABLE_REGS).None?
    ensures var a := AcquireVariable(s.cache, v);
            && a.reg in a.cache.registers && OnlyFor(a.cache, a.reg, v) && Found(s, a, v)
            && OthersKeep(s, a.cache, Perform(a.saves, s.values, s.memory), v)
  {
    hide Valid, Coherent, Ordered, EvictedFrom, Perform, FindFree;
    EvictKeeps(s.cache);
    var e := Evict(s.cache);
    EvictionServes(s, e, Info(InUseVariable, v, false));
    if v in s.latest {
      EvictionKeepsValues(s, e, v);
      EvictionForgets(s.cache, v);
    }
    hide Evict;
  }

  lemma EvictionForgets(c: Cache, v: string)
    requires Valid(c) && c.lru != [] && v !in c.regOf
    ensures c.lru[|c.lru| - 1] in c.registers && v !in Evict(c).cache.regOf
  {
    assert c.lru[|c.lru| - 1] in c.lru;
  }

  /** After an eviction no variable is mapped to the victim. */
  lemma VictimIsOwned(c: Cache, e: Acquired)
    requires Valid(c) && EvictedFrom(c, e)
    ensures e.reg in c.registers && forall w :: w in e.cache.regOf ==> e.cache.regOf[w] != e.reg
  {
    hide SlotsApart;
  }

  lemma TempIsServed(s: Session)
    requires Sane(s) && HasRoom(s.cache)
    ensures Served(s, AcquireTemp(s.cache), TEMP)
  {
    AcquireTempKeeps(s.cache);
    FreeOfPool(s.cache);
    if FindFree(s.cache.registers, VARIABLE_REGS).Some? {
      hide FindFree, Ordered;
      UnusedServes(s, FindFree(s.cache.registers, VARIABLE_REGS).value, Info(InUseVariable, TEMP, false));
      hide Valid, Keeps, Coherent;
    } else {
      EvictKeeps(s.cache);
      EvictionServes(s, Evict(s.cache), Info(InUseVariable, TEMP, false));
      hide Valid, Evict, EvictedFrom, Perform, Keeps, Coherent, FindFree, Ordered;
    }
  }

  /** A register that holds no variable may get any entry. */
  lemma UnusedServes(s: Session, r: Register, i: Info)
    requires Sane(s) && r in s.cache.registers && !s.cache.registers[r].status.InUseVariable?
    ensures forall w :: w in s.cache.regOf ==> s.cache.regOf[w] != r
    ensures Perform([], s.values, s.memory) == s.memory
    ensures forall w :: w in s.latest ==>
              Keeps(s.cache.registers[r := i], s.cache.regOf, s.cache.slotOf, s.values, s.memory, w, s.latest[w])
  {
    hide SlotsApart, Listed, Managed, Ordered;
  }

  /** Whatever an evicted register is used for next, no variable is looked for in it. */
  lemma EvictionServes(s: Session, e: Acquired, i: Info)
    requires Sane(s) && EvictedFrom(s.cache, e)
    ensures e.reg in e.cache.registers
    ensures forall w :: w in e.cache.regOf ==> e.cache.regOf[w] != e.reg
    ensures forall w :: w in s.latest ==>
              Keeps(e.cache.registers[e.reg := i], e.cache.regOf, e.cache.slotOf, s.values, Perform(e.saves, s.values, s.memory), w, s.latest[w])
  {
    VictimIsOwned(s.cache, e);
    forall w | w in s.latest
      ensures var m := Perform(e.saves, s.values, s.memory);
              if w in e.cache.regOf then e.cache.regOf[w] != e.reg && Keeps(e.cache.registers, e.cache.regOf, e.cache.slotOf, s.values, m, w, s.latest[w])
              else SlotHolds(e.cache.slotOf, m, w, s.latest[w])
    {
      EvictionKeepsValues(s, e, w);
    }
    hide Valid, Coherent, Ordered, EvictedFrom, Perform;
  }

  lemma ScratchIsServed(s: Session, a: Acquired)
    requires Sane(s) && AcquireScratch(s.cache) == Ok(a)
    ensures Served(s, a, TEMP)
    ensures Ordered(a.cache.lru, s.lastUse, s.clock)
  {
    hide FindFree, Perform, Valid, Keeps, Coherent, Ordered, Evict;
    var c := s.cache;
    if FindFree(c.registers, SCRATCH_REGS).None? && FindFree(c.registers, VARIABLE_REGS).None? {
      EvictedScratchIsServed(s, a);
    } else {
      AcquireScratchKeeps(c);
      NothingInUse(c);
      var name := if FindFree(c.registers, SCRATCH_REGS).Some? then SCRATCH else SCRATCH_FROM_VARIABLES;
      UnusedServes(s, a.reg, Info(InUseScratch, name, false));
    }
  }

  lemma EvictedScratchIsServed(s: Session, a: Acquired)
    requires Sane(s) && AcquireScratch(s.cache) == Ok(a)
    requires FindFree(s.cache.registers, SCRATCH_REGS).None? && FindFree(s.cache.registers, VARIABLE_REGS).None?
    ensures Served(s, a, TEMP)
    ensures Ordered(a.cache.lru, s.lastUse, s.clock)
  {
    hide FindFree, Perform, Valid, Keeps, Coherent, Ordered;
    var c, i := s.cache, Info(InUseScratch, SCRATCH_FROM_SPILL, false);
    AcquireScratchKeeps(c);
    EvictKeeps(c);
    EvictionServes(s, Evict(c), i);
    FrontStaysOrdered(c.lru, s.lastUse, s.clock);
    hide Evict;
  }

  lemma FrontStaysOrdered(lru: seq<Register>, lastUse: map<Register, nat>, clock: nat)
    requires Ordered(lru, lastUse, clock)
    ensures lru != [] ==> Ordered(lru[..|lru| - 1], lastUse, clock)
  {
  }

  /** What `FindFree` finds holds no variable. */
  lemma NothingInUse(c: Cache)
    ensures forall pool :: var r := FindFree(c.registers, pool); r.Some? ==> !c.registers[r.value].status.InUseVariable?
  {
  }

  lemma CalleeSavedIsServed(s: Session, a: Acquired)
    requires Sane(s) && AcquireCalleeSaved(s.cache) == Ok(a)
    ensures Served(s, a, TEMP)
    ensures Ordered(a.cache.lru, s.lastUse, s.clock)
  {
    AcquireCalleeSavedKeeps(s.cache);
    hide FindFree, Perform;
    UnusedServes(s, a.reg, a.cache.registers[a.reg]);
    hide Valid, Keeps, Coherent, Ordered;
  }

  /** Filling the register served, for a variable or otherwise. */
  lemma FillKeeps(s: Session, a: Acquired, v: string, dirty: bool, x: Word)
    requires Served(s, a, v) && (v == TEMP ==> TEMP !in s.latest)
    ensures var t := Fill(s, a.(cache := MarkDirty(a.cache, a.reg, dirty)), x);
            && Valid(t.cache) && t.cache.lru == a.cache.lru && t.cache.regOf == a.cache.regOf && t.cache.slotOf == a.cache.slotOf
            && a.reg in t.cache.registers && t.cache.registers[a.reg].dirty == dirty
            && t.values[a.reg] == x && t.memory == Perform(a.saves, s.values, s.memory)
            && (forall w :: w in s.latest && w != v ==>
                  Keeps(t.cache.registers, t.cache.regOf, t.cache.slotOf, t.values, t.memory, w, s.latest[w]))
  {
    hide Valid, Perform;
    MarkDirtyKeeps(a.cache, a.reg, dirty);
  }

  /** Giving a variable its slot changes nothing for the others. */
  lemma SlotKeeps(s: Session, a: Acquired, v: string)
    requires Served(s, a, v) && Found(s, a, v) && !a.hit
    ensures var b := a.(cache := NeedSlot(a.cache, v));
            Served(s, b, v) && Found(s, b, v) && b.cache.lru == a.cache.lru
  {
    hide Perform, Managed, Linked, Listed;
    NeedSlotKeeps(a.cache, v);
    hide NeedSlot, SlotsApart;
  }

  lemma ReadKeeps(s: Session, v: string)
    requires Sane(s) && v != TEMP && (v in s.cache.regOf || HasRoom(s.cache))
    ensures var t := Serve(s, ReadVariable(v)).value;
            Sane(t) && v in t.cache.regOf && (v in s.latest ==> v in t.latest && ValueOf(t.values, t.cache.regOf[v]) == s.latest[v])
  {
    hide Valid, Perform, AcquireVariable, FindFree, OnlyFor, OthersKeep, MarkDirty, NeedSlot;
    var a := AcquireVariable(s.cache, v);
    VariableIsServed(s, v);
    AcquiredIsFirst(s.cache, a, v, s.lastUse, s.clock);
    var t := Serve(s, ReadVariable(v)).value;
    hide Ordered;
    if a.hit {
      HitSavesNothing(s.cache, v);
      UnfoldOthers(s, a, v);
    } else {
      SlotKeeps(s, a, v);
      var b := a.(cache := NeedSlot(a.cache, v));
      FillKeeps(s, b, v, false, Fetch(Perform(a.saves, s.values, s.memory), b.cache.slotOf[v]));
    }
  }

  lemma HitSavesNothing(c: Cache, v: string)
    requires v in c.regOf || HasRoom(c)
    ensures var a := AcquireVariable(c, v); a.hit ==> a.saves == []
    ensures forall values, memory :: Perform([], values, memory) == memory
  {
  }

  lemma UnfoldOthers(s: Session, a: Acquired, v: string)
    requires OthersKeep(s, a.cache, Perform(a.saves, s.values, s.memory), v)
    ensures forall w :: w in s.latest && w != v ==>
              Keeps(a.cache.registers, a.cache.regOf, a.cache.slotOf, s.values, Perform(a.saves, s.values, s.memory), w, s.latest[w])
  {
  }

  lemma WriteKeeps(s: Session, v: string, x: Word)
    requires Sane(s) && v != TEMP && (v in s.cache.regOf || HasRoom(s.cache))
    ensures Sane(Serve(s, WriteVariable(v, x)).value)
  {
    hide Valid, Perform, AcquireVariable, FindFree, OnlyFor, OthersKeep, MarkDirty;
    var a := AcquireVariable(s.cache, v);
    VariableIsServed(s, v);
    AcquiredIsFirst(s.cache, a, v, s.lastUse, s.clock);
    FillKeeps(s, a, v, true, x);
    hide Ordered;
  }

  lemma TempKeeps(s: Session, x: Word, dirty: bool)
    requires Sane(s) && HasRoom(s.cache)
    ensures Sane(Serve(s, TakeTemp(x, dirty)).value)
  {
    hide Perform, AcquireTemp, FindFree, OnlyFor, OthersKeep, MarkDirty, HasRoom, SlotsApart, Managed, Listed;
    assert TEMP !in s.latest && TEMP !in s.cache.regOf;
    hide Valid;
    var a := AcquireTemp(s.cache);
    TempIsServed(s);
    AcquiredIsFirst(s.cache, a, TEMP, s.lastUse, s.clock);
    FillKeeps(s, a, TEMP, dirty, x);
    hide Ordered;
  }

  lemma ScratchFillKeeps(s: Session, a: Acquired, x: Word)
    requires Sane(s) && Served(s, a, TEMP) && Ordered(a.cache.lru, s.lastUse, s.clock)
    ensures Sane(Fill(s, a, x))
  {
    hide Valid, Perform, Ordered;
    var dirty := a.cache.registers[a.reg].dirty;
    FillKeeps(s, a, TEMP, dirty, x);
    assert a.cache.registers[a.reg := a.cache.registers[a.reg].(dirty := dirty)] == a.cache.registers;
    assert MarkDirty(a.cache, a.reg, dirty) == a.cache;
  }

  // ----- dropping a variable -----

  /** Dropping a variable keeps its latest value exactly when its slot already holds it: nothing is saved. */
  lemma DropKeepsExactly(s: Session, v: string)
    requires Sane(s) && v != TEMP
    ensures Coherent(s.(cache := ReleaseVariable(s.cache, v))) <==>
            (v in s.latest ==> SlotHolds(s.cache.slotOf, s.memory, v, s.latest[v]))
  {
    hide Ordered, SlotsApart, Listed, Managed;
    var t := s.(cache := ReleaseVariable(s.cache, v));
    if v in s.latest ==> SlotHolds(s.cache.slotOf, s.memory, v, s.latest[v]) {
      forall w | w in s.latest
        ensures Keeps(t.cache.registers, t.cache.regOf, t.cache.slotOf, t.values, t.memory, w, s.latest[w])
      {
        assert Keeps(s.cache.registers, s.cache.regOf, s.cache.slotOf, s.values, s.memory, w, s.latest[w]);
      }
    }
    if Coherent(t) && v in s.latest {
      assert Keeps(t.cache.registers, t.cache.regOf, t.cache.slotOf, t.values, t.memory, v, t.latest[v]);
    }
  }

  /** The register of the variable holds a value that has not been saved. */
  predicate IsDirty(c: Cache, v: string) {
    v in c.regOf && c.regOf[v] in c.registers && c.registers[c.regOf[v]].dirty
  }

  /** Read off the tables alone: dropping a variable is safe, whatever the registers and the memory hold, exactly when
    * its register is not dirty.
    */
  lemma DropIsSafeExactly(s: Session, v: string)
    requires Sane(s) && v in s.latest
    ensures !IsDirty(s.cache, v) <==>
            forall t: Session :: Sane(t) && t.cache == s.cache && v in t.latest ==> Coherent(t.(cache := ReleaseVariable(t.cache, v)))
  {
    hide Sane, ReleaseVariable;
    if IsDirty(s.cache, v) {
      var t := UnsavedValue(s, v);
      assert Sane(t) && t.cache == s.cache && v in t.latest && !Coherent(t.(cache := ReleaseVariable(t.cache, v)));
    } else {
      forall t: Session | Sane(t) && t.cache == s.cache && v in t.latest
        ensures Coherent(t.(cache := ReleaseVariable(t.cache, v)))
      {
        CleanDropKeeps(t, v);
      }
    }
  }

  lemma CleanDropKeeps(s: Session, v: string)
    requires Sane(s) && v in s.latest && !IsDirty(s.cache, v)
    ensures !Loses(s, DropVariable(v)) && Coherent(s.(cache := ReleaseVariable(s.cache, v)))
  {
    DropKeepsExactly(s, v);
    hide Valid, Ordered, ReleaseVariable;
    assert Keeps(s.cache.registers, s.cache.regOf, s.cache.slotOf, s.values, s.memory, v, s.latest[v]);
  }

  /** With the same tables, a value in a dirty register that is not in the slot of the variable. */
  lemma UnsavedValue(s: Session, v: string) returns (t: Session)
    requires Sane(s) && v in s.latest && IsDirty(s.cache, v)
    ensures Sane(t) && t.cache == s.cache && v in t.latest && !Coherent(t.(cache := ReleaseVariable(t.cache, v)))
  {
    hide Ordered, SlotsApart, Listed, Managed, ReleaseVariable;
    var r := s.cache.regOf[v];
    var x: Word := if SlotHolds(s.cache.slotOf, s.memory, v, 0) then 1 else 0;
    t := s.(values := s.values[r := x], latest := s.latest[v := x]);
    forall w | w in t.latest
      ensures w != TEMP && Keeps(t.cache.registers, t.cache.regOf, t.cache.slotOf, t.values, t.memory, w, t.latest[w])
    {
      assert w in s.latest;
      assert Keeps(s.cache.registers, s.cache.regOf, s.cache.slotOf, s.values, s.memory, w, s.latest[w]);
    }
    DropKeepsExactly(t, v);
  }

  lemma DropKeepsTables(s: Session, v: string)
    requires Sane(s)
    ensures Valid(ReleaseVariable(s.cache, v)) && Ordered(ReleaseVariable(s.cache, v).lru, s.lastUse, s.clock)
  {
    ReleaseVariableKeeps(s.cache, v);
    hide Valid, Coherent, Ordered;
    if v in s.cache.regOf {
      WithoutStaysOrdered(s.cache.lru, s.cache.regOf[v], s.lastUse, s.clock);
    }
  }

  lemma DropScratchKeeps(s: Session, r: Register)
    requires Sane(s)
    ensures Sane(s.(cache := ReleaseScratch(s.cache, r)))
  {
    ReleaseScratchKeeps(s.cache, r);
    hide Ordered, SlotsApart, Listed, Managed;
  }

  // ----- all requests -----

  /** The request would throw away a value that is nowhere else. */
  predicate Loses(s: Session, q: Request) {
    && q.DropVariable?
    && q.name in s.latest && !SlotHolds(s.cache.slotOf, s.memory, q.name, s.latest[q.name])
  }

  lemma ServeKeeps(s: Session, q: Request)
    requires Sane(s) && Proper(q) && !Loses(s, q) && Serve(s, q).Some?
    ensures Sane(Serve(s, q).value)
  {
    hide Sane, AcquireVariable, AcquireTemp, AcquireScratch, AcquireCalleeSaved, HasRoom, Fill;
    match q
    case ReadVariable(v) => ReadKeeps(s, v);
    case WriteVariable(v, x) => WriteKeeps(s, v, x);
    case TakeTemp(x, dirty) => TempKeeps(s, x, dirty);
    case TakeScratch(x) =>
      var a := AcquireScratch(s.cache).value;
      ScratchIsServed(s, a);
      ScratchFillKeeps(s, a, x);
    case TakeCalleeSaved(x) =>
      var a := AcquireCalleeSaved(s.cache).value;
      CalleeSavedIsServed(s, a);
      ScratchFillKeeps(s, a, x);
    case DropScratch(r) => DropScratchKeeps(s, r);
    case DropVariable(v) => DropVariableKeeps(s, v);
  }

  lemma DropVariableKeeps(s: Session, v: string)
    requires Sane(s) && v != TEMP && !Loses(s, DropVariable(v))
    ensures Sane(s.(cache := ReleaseVariable(s.cache, v)))
  {
    DropKeepsExactly(s, v);
    DropKeepsTables(s, v);
    hide Valid, Coherent, Ordered, ReleaseVariable;
  }

  function ServeAll(s: Session, qs: seq<Request>): Option<Session>
    decreases |qs|
  {
    if qs == [] then Some(s)
    else
      var t := Serve(s, qs[0]);
      if t.Some? then ServeAll(t.value, qs[1..]) else None
  }

  /** No request of the sequence loses a value. */
  predicate Careful(s: Session, qs: seq<Request>)
    decreases |qs|
  {
    qs != [] ==>
      && Proper(qs[0]) && !Loses(s, qs[0])
      && (Serve(s, qs[0]).Some? ==> Careful(Serve(s, qs[0]).value, qs[1..]))
  }

  /** After any sequence of requests every variable has its latest value where the tables say it is. */
  lemma {:induction false} SessionsStaySane(s: Session, qs: seq<Request>)
    requires Sane(s) && Careful(s, qs) && ServeAll(s, qs).Some?
    ensures Sane(ServeAll(s, qs).value)
    decreases |qs|
  {
    hide Sane, Serve;
    if qs != [] {
      ServeKeeps(s, qs[0]);
      SessionsStaySane(Serve(s, qs[0]).value, qs[1..]);
    }
  }

  /** The value of the last write to a variable. */
  function LastWrite(qs: seq<Request>, v: string): Option<Word> {
    if qs == [] then None
    else
      var q := qs[|qs| - 1];
      if q.WriteVariable? && q.name == v then Some(q.value) else LastWrite(qs[..|qs| - 1], v)
  }

  lemma {:induction false} LastWriteFrom(qs: seq<Request>, v: string)
    requires qs != []
    ensures var later := LastWrite(qs[1..], v);
            LastWrite(qs, v) == if later.Some? then later
                                else if qs[0].WriteVariable? && qs[0].name == v then Some(qs[0].value) else None
    decreases |qs|
  {
    if |qs| > 1 {
      var front := qs[..|qs| - 1];
      LastWriteFrom(front, v);
      assert front[1..] == qs[1..][..|qs[1..]| - 1];
    }
  }

  lemma {:induction false} LatestIsLastWrite(s: Session, qs: seq<Request>, v: string)
    requires ServeAll(s, qs).Some?
    ensures var t, w := ServeAll(s, qs).value, LastWrite(qs, v);
            if w.Some? then v in t.latest && t.latest[v] == w.value
            else (v in t.latest <==> v in s.latest) && (v in s.latest ==> t.latest[v] == s.latest[v])
    decreases |qs|
  {
    if qs != [] {
      LastWriteFrom(qs, v);
      ServeRecords(s, qs[0]);
      hide Serve, LastWrite;
      LatestIsLastWrite(Serve(s, qs[0]).value, qs[1..], v);
    }
  }

  lemma ServeRecords(s: Session, q: Request)
    requires Serve(s, q).Some?
    ensures Serve(s, q).value.latest == if q.WriteVariable? then s.latest[q.name := q.value] else s.latest
  {
    hide HasRoom, AcquireVariable, AcquireTemp, AcquireScratch, AcquireCalleeSaved, ReleaseScratch, ReleaseVariable, MarkDirty;
  }

  /** Reading a variable, whatever has been asked for before, finds the value last written to it. */
  lemma ReadsFindLastWrite(qs: seq<Request>, v: string)
    requires Careful(START, qs) && ServeAll(START, qs).Some? && v != TEMP && LastWrite(qs, v).Some?
    ensures var s := ServeAll(START, qs).value;
            Serve(s, ReadVariable(v)).Some? ==>
              var t := Serve(s, ReadVariable(v)).value;
              v in t.cache.regOf && ValueOf(t.values, t.cache.regOf[v]) == LastWrite(qs, v).value
  {
    hide Sane, Serve, HasRoom, LastWrite;
    StartIsSane();
    SessionsStaySane(START, qs);
    LatestIsLastWrite(START, qs, v);
    var s := ServeAll(START, qs).value;
    if Serve(s, ReadVariable(v)).Some? {
      ReadNeedsRoom(s, v);
      ReadKeeps(s, v);
    }
  }

  lemma ReadNeedsRoom(s: Session, v: string)
    requires Serve(s, ReadVariable(v)).Some?
    ensures v in s.cache.regOf || HasRoom(s.cache)
  {
    hide HasRoom, AcquireVariable;
  }
}
