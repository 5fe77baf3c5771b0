/** The call frame manager as it works: locals, saved registers and spill slots collected step by step. */
module FrameManager {
  import opened Text
  import opened Wrappers
  import opened CallFrame

  // ----- the order of the saved registers -----

  function InsertByName(r: Register, s: seq<Register>): seq<Register> {
    if s == [] then [r]
    else if After(RegisterName(r), RegisterName(s[0])) then [s[0]] + InsertByName(r, s[1..])
    else [r] + s
  }

  function SortByName(s: seq<Register>): seq<Register> {
    if s == [] then [] else InsertByName(s[0], SortByName(s[1..]))
  }

  lemma {:induction false} InsertKeepsAll(r: Register, s: seq<Register>)
    ensures multiset(InsertByName(r, s)) == multiset(s) + multiset{r}
  {
    hide After, RegisterName;
    if s != [] {
      InsertKeepsAll(r, s[1..]);
      assert s == [s[0]] + s[1..];
    }
  }

  /** Sorting loses and adds no register. */
  lemma {:induction false} SortKeepsAll(s: seq<Register>)
    ensures multiset(SortByName(s)) == multiset(s)
  {
    hide InsertByName;
    if s != [] {
      SortKeepsAll(s[1..]);
      InsertKeepsAll(s[0], SortByName(s[1..]));
      assert s == [s[0]] + s[1..];
    }
  }

  ghost predicate Declared(locals: seq<Local>, saved: seq<Register>) {
    && DistinctNames(LocalNames(locals)) && DistinctRegisters(saved)
    && forall l :: l in locals ==> l.size == 8 || l.size == 16
  }

  /** The spill slots lie one after another from `start` to `next`, and every spilled variable has one. */
  ghost predicate Placed(start: nat, slots: seq<Slot>, next: nat, offsets: map<string, nat>) {
    && start <= next
    && (start % 8 == 0 ==> Packed(slots, start, next))
    && forall v :: v in offsets ==> exists s :: s in slots && s.offset == offsets[v]
  }

  lemma PlacedNext(start: nat, slots: seq<Slot>, next: nat, offsets: map<string, nat>, v: string, size: nat)
    requires Placed(start, slots, next, offsets) && (size == 8 || size == 16)
    ensures Placed(start, slots + [Slot(next, size)], next + size, offsets[v := next])
  {
    var more := slots + [Slot(next, size)];
    assert more[|slots|] == Slot(next, size);
    assert forall s :: s in slots ==> s in more;
  }

  lemma NothingIsPlaced(at: nat)
    ensures Placed(at, [], at, map[])
  {
  }

  /** The spill slots given out before the prologue lie one after another from the frame pointer on. */
  ghost predicate Early(slots: seq<Slot>, end: nat, offsets: map<string, nat>) {
    && Placed(0, slots, end, offsets)
    && (slots == [] ==> end == 0)
    && (slots != [] ==> slots[0].offset == 0)
  }

  lemma EarlyNext(slots: seq<Slot>, end: nat, offsets: map<string, nat>, v: string, size: nat)
    requires Early(slots, end, offsets) && (size == 8 || size == 16)
    ensures Early(slots + [Slot(end, size)], end + size, offsets[v := end])
  {
    PlacedNext(0, slots, end, offsets, v, size);
    hide Placed;
  }

  /** Size and offsets are those of the frame. */
  ghost predicate Laid(f: Frame, canaries: bool, size: nat, offsets: map<string, nat>) {
    f.canaries == canaries && size == FrameSize(f) && offsets == Offsets(f)
  }

  /** A frame with so much in it is larger than the pre-indexed store can step. */
  predicate TooLarge(locals: seq<Local>, saved: nat, canaries: bool, spillArea: nat) {
    AlignTo16(TotalSize(locals) + 8 * saved + FirstOffset(canaries) + spillArea) > MAX_FRAME
  }

  lemma StaysTooLarge(locals: seq<Local>, more: seq<Local>, saved: nat, moreSaved: nat, canaries: bool, area: nat, moreArea: nat)
    requires TooLarge(locals, saved, canaries, area)
    requires TotalSize(locals) <= TotalSize(more) && saved <= moreSaved && area <= moreArea
    ensures TooLarge(more, moreSaved, canaries, moreArea)
  {
    hide TotalSize, FirstOffset;
  }

  lemma {:induction false} TotalSizeAppend(locals: seq<Local>, l: Local)
    ensures TotalSize(locals + [l]) == TotalSize(locals) + l.size
  {
    if locals == [] {
      assert ([] + [l])[1..] == [];
    } else {
      assert (locals + [l])[1..] == locals[1..] + [l];
      TotalSizeAppend(locals[1..], l);
    }
  }

  lemma SortedLength(saved: seq<Register>)
    ensures |SortByName(saved)| == |saved| && |SortByName(WithGlobals(saved))| >= |saved|
  {
    SortKeepsAll(saved);
    SortKeepsAll(WithGlobals(saved));
    assert |multiset(SortByName(saved))| == |multiset(saved)|;
    assert |multiset(SortByName(WithGlobals(saved)))| == |multiset(WithGlobals(saved))|;
  }

  predicate AllApart(slots: seq<Slot>) {
    forall i, j :: 0 <= i < j < |slots| ==> Apart(slots[i], slots[j])
  }

  lemma PackedIsApart(slots: seq<Slot>, lo: int, hi: int)
    requires Packed(slots, lo, hi)
    ensures AllApart(slots)
  {
  }

  /** A spill slot given out before the prologue lies on the saved frame pointer. */
  lemma EarlySlotCollides(f: Frame, size: nat)
    requires size == 8 || size == 16
    ensures !Apart(Slots(f)[0], Slot(0, size))
  {
  }

  /** Sorting leaves no register before one whose name comes first. */
  lemma {:induction false} SortIsSorted(s: seq<Register>)
    ensures InOrder(SortByName(s))
  {
    if s != [] {
      SortIsSorted(s[1..]);
      InsertKeepsOrder(s[0], SortByName(s[1..]));
    }
  }

  ghost predicate InOrder(s: seq<Register>) {
    forall i :: 0 < i < |s| ==> !After(RegisterName(s[i - 1]), RegisterName(s[i]))
  }

  lemma {:induction false} InsertKeepsOrder(r: Register, s: seq<Register>)
    requires InOrder(s)
    ensures InOrder(InsertByName(r, s))
  {
    hide RegisterName, After;
    if s != [] {
      AfterIsTotal(RegisterName(r), RegisterName(s[0]));
      InsertKeepsOrder(r, s[1..]);
    }
  }

  class CallFrameManager {
    const canaries: bool
    var localDeclarations: seq<Local>
    var savedRegisters: seq<Register>
    var usesGlobalPointers: bool
    var spillAreaSize: nat
    var nextSpillOffset: nat
    var spillOffsets: map<string, nat>
    var variableOffsets: map<string, nat>
    var finalFrameSize: nat
    var isPrologueGenerated: bool
    /** The frame as it was when the prologue was generated, and the spill slots given out since, with their names. */
    ghost var frame: Frame
    ghost var spillSlots: seq<Slot>
    ghost var lateOffsets: map<string, nat>
    /** The spill slots given out before, with their names and their end. */
    ghost var earlySlots: seq<Slot>
    ghost var earlyOffsets: map<string, nat>
    ghost var earlyEnd: nat
    /** Generating the prologue has failed. */
    ghost var failed: bool

    constructor (canaries: bool)
      ensures this.canaries == canaries && !isPrologueGenerated && !failed && Valid()
      ensures localDeclarations == [] && savedRegisters == [] && spillAreaSize == 0
      ensures spillOffsets == map[] && nextSpillOffset == 0 && earlySlots == [] && spillSlots == []
    {
      this.canaries := canaries;
      localDeclarations, savedRegisters := [], [];
      usesGlobalPointers, isPrologueGenerated := false, false;
      spillAreaSize, nextSpillOffset, finalFrameSize := 0, 0, 0;
      spillOffsets, variableOffsets := map[], map[];
      frame, spillSlots, lateOffsets := Frame([], [], canaries, 0), [], map[];
      earlySlots, earlyOffsets, earlyEnd, failed := [], map[], 0, false;
    }

    /** Before the prologue: no name twice, and spill slots from the frame pointer on. After it: the offsets are those of
      * the frame, and the spill slots given out since lie one after another behind it. A prologue that has failed once
      * always fails, since frames only grow.
      */
    ghost predicate Valid()
      reads this
    {
      && Declared(localDeclarations, savedRegisters)
      && (failed ==> !isPrologueGenerated && TooLarge(localDeclarations, |savedRegisters|, canaries, spillAreaSize))
      && (!failed ==> Early(earlySlots, earlyEnd, earlyOffsets))
      && (!failed && !isPrologueGenerated ==> earlyEnd == nextSpillOffset && earlyOffsets == spillOffsets && spillSlots == [])
      && (isPrologueGenerated ==>
            && savedRegisters == frame.saved
            && Laid(frame, canaries, finalFrameSize, variableOffsets)
            && Placed(SpillBase(frame), spillSlots, nextSpillOffset, lateOffsets)
            && spillOffsets == earlyOffsets + lateOffsets)
    }

    /** A local added twice counts once. */
    method AddLocal(name: string, size: nat)
      requires Valid() && !isPrologueGenerated && (size == 8 || size == 16)
      modifies this`localDeclarations
      ensures Valid()
      ensures localDeclarations == if name in LocalNames(old(localDeclarations)) then old(localDeclarations)
                                   else old(localDeclarations) + [Local(name, size)]
    {
      if name in LocalNames(localDeclarations) {
        return;
      }
      hide Early, TooLarge;
      NamesAppend(localDeclarations, Local(name, size));
      TotalSizeAppend(localDeclarations, Local(name, size));
      localDeclarations := localDeclarations + [Local(name, size)];
      if failed {
        StaysTooLarge(old(localDeclarations), localDeclarations, |savedRegisters|, |savedRegisters|, canaries, spillAreaSize, spillAreaSize);
      }
    }

    method SetUsesGlobalPointers(uses: bool)
      requires Valid()
      modifies this`usesGlobalPointers
      ensures Valid() && usesGlobalPointers == uses
    {
      usesGlobalPointers := uses;
    }

    method ForceSaveRegister(r: Register) returns (ok: bool)
      requires Valid()
      modifies this`savedRegisters
      ensures Valid() && ok == !isPrologueGenerated
      ensures savedRegisters == if ok && r !in old(savedRegisters) then old(savedRegisters) + [r] else old(savedRegisters)
    {
      hide Early, TooLarge;
      ok := !isPrologueGenerated;
      if ok && r !in savedRegisters {
        savedRegisters := savedRegisters + [r];
        MoreSaved(old(|savedRegisters|));
      }
    }

    /** Saving more registers keeps a frame too large. */
    lemma MoreSaved(before: nat)
      requires before <= |savedRegisters|
      ensures TooLarge(localDeclarations, before, canaries, spillAreaSize) ==>
                TooLarge(localDeclarations, |savedRegisters|, canaries, spillAreaSize)
    {
      hide TooLarge;
      if TooLarge(localDeclarations, before, canaries, spillAreaSize) {
        StaysTooLarge(localDeclarations, localDeclarations, before, |savedRegisters|, canaries, spillAreaSize, spillAreaSize);
      }
    }

    /** Saves the first registers of the pool, as many as the pressure asks for and the pool has. */
    method ReserveRegistersBasedOnPressure(pool: seq<Register>, pressure: int) returns (ok: bool)
      requires Valid()
      modifies this`savedRegisters
      ensures Valid() && ok == !isPrologueGenerated
      ensures !ok ==> savedRegisters == old(savedRegisters)
      ensures ok ==> savedRegisters == Reserved(old(savedRegisters), pool, Reservable(pool, pressure))
      ensures ok ==> forall r :: r in savedRegisters <==>
                       r in old(savedRegisters) || exists k :: 0 <= k < |pool| && k < pressure && pool[k] == r
    {
      ReservedMembers(savedRegisters, pool, pressure);
      ok := !isPrologueGenerated;
      if !ok {
        return;
      }
      hide Early, TooLarge;
      var i := 0;
      while i < pressure && i < |pool|
        invariant 0 <= i <= Reservable(pool, pressure) && Valid()
        invariant savedRegisters == Reserved(old(savedRegisters), pool, i)
      {
        if pool[i] !in savedRegisters {
          savedRegisters := savedRegisters + [pool[i]];
          MoreSaved(|savedRegisters| - 1);
        }
        i := i + 1;
      }
    }

    method PreallocateSpillSlots(count: nat)
      requires Valid()
      modifies this`spillAreaSize
      ensures Valid() && spillAreaSize == old(spillAreaSize) + if isPrologueGenerated then 0 else 8 * count
    {
      hide Early, TooLarge, Declared;
      if !isPrologueGenerated {
        spillAreaSize := spillAreaSize + 8 * count;
        if failed {
          StaysTooLarge(localDeclarations, localDeclarations, |savedRegisters|, |savedRegisters|, canaries, old(spillAreaSize), spillAreaSize);
        }
      }
    }

    /** The frame the prologue will lay out. */
    ghost function Planned(): Frame
      reads this
    {
      var withGlobals := if usesGlobalPointers then WithGlobals(savedRegisters) else savedRegisters;
      Frame(localDeclarations, SortByName(withGlobals), canaries, spillAreaSize)
    }

    /** The plan saves what has been forced or reserved and, for global pointers, X19 and X28; in the order of names. */
    lemma PlannedExactly()
      requires Valid()
      ensures forall r :: r in Planned().saved <==>
                          r in savedRegisters || (usesGlobalPointers && (r == X(19) || r == X(28)))
      ensures DistinctRegisters(Planned().saved) && InOrder(Planned().saved)
    {
      hide SortByName, WithGlobals, Early, TooLarge, Laid, Placed, InOrder, DistinctRegisters;
      var all := if usesGlobalPointers then WithGlobals(savedRegisters) else savedRegisters;
      KeepsDeclared(localDeclarations, savedRegisters);
      GlobalsAdded(savedRegisters);
      SortKeepsAll(all);
      SortIsSorted(all);
      assert forall r :: r in SortByName(all) <==> r in multiset(SortByName(all));
      assert forall r :: r in all <==> r in multiset(all);
    }

    /** A call in which the function's global pointers are used: whatever the body does outside the words of the frame,
      * the caller finds its X19 and X28, and every register saved besides, as they were.
      */
    lemma CallKeepsGlobals(c: Cpu, d: Cpu)
      requires Valid() && usesGlobalPointers && NoRegisterNames(localDeclarations)
      requires forall r :: r in savedRegisters ==> 19 <= r.number <= 28
      requires RunCode(Prologue(Planned()), c).Some? ==> KeepsFrame(Planned(), RunCode(Prologue(Planned()), c).value, d)
      requires CanariesIntact(Planned(), d)
      ensures var r := RunCode(Epilogue(Planned()), d);
              && r.Some?
              && Reg(r.value, X(19)) == Reg(c, X(19)) && Reg(r.value, X(28)) == Reg(c, X(28))
              && forall x :: x in savedRegisters ==> Reg(r.value, x) == Reg(c, x)
    {
      PlannedIsCalleeSaved();
      hide RunCode, Prologue, Epilogue, KeepsFrame, CanariesIntact, Reg, InOrder, CalleeSaved, Early, TooLarge, Laid, Placed;
      hide SortByName, WithGlobals, WellNamed, DistinctRegisters;
      CallRestores(Planned(), c, d);
    }

    lemma PlannedIsCalleeSaved()
      requires Valid() && NoRegisterNames(localDeclarations)
      requires forall r :: r in savedRegisters ==> 19 <= r.number <= 28
      ensures WellNamed(Planned()) && forall r :: r in Planned().saved ==> CalleeSaved(r)
      ensures usesGlobalPointers ==> X(19) in Planned().saved && X(28) in Planned().saved
      ensures forall r :: r in savedRegisters ==> r in Planned().saved
    {
      PlannedExactly();
      hide InOrder, Early, TooLarge, Laid, Placed, SortByName, WithGlobals, WellNamed;
      PlanIsWellNamed(Planned());
    }

    /** Fails when the frame is larger than the pre-indexed store can step, or when there is a prologue already. */
    method GeneratePrologue() returns (code: Result<seq<Instr>>)
      requires Valid()
      modifies this
      ensures Valid()
      ensures code == if old(isPrologueGenerated) || FrameSize(old(Planned())) > 512 then Err else Ok(Prologue(old(Planned())))
      ensures code.Ok? ==> isPrologueGenerated && frame == old(Planned()) && spillSlots == [] && nextSpillOffset == SpillBase(frame)
      ensures code.Ok? ==> forall r :: r in savedRegisters <==>
                             r in old(savedRegisters) || (old(usesGlobalPointers) && (r == X(19) || r == X(28)))
      ensures code.Ok? ==> DistinctRegisters(savedRegisters) && InOrder(savedRegisters)
      ensures code.Ok? ==>
                && frame.locals == old(localDeclarations) && frame.saved == savedRegisters
                && frame.canaries == canaries && frame.spillArea == old(spillAreaSize)
      ensures spillOffsets == old(spillOffsets) && earlySlots == old(earlySlots)
    {
      PlannedExactly();
      hide SortByName, WithGlobals, InOrder, DistinctRegisters;
      hide Offsets, Prologue, FrameSize, SpillBase, Early, Declared, TooLarge, Laid, Placed;
      code := TakePlan();
    }

    method TakePlan() returns (code: Result<seq<Instr>>)
      requires Valid()
      modifies this
      ensures Valid()
      ensures code == if old(isPrologueGenerated) || FrameSize(old(Planned())) > MAX_FRAME then Err else Ok(Prologue(old(Planned())))
      ensures code.Ok? ==> isPrologueGenerated && frame == old(Planned()) && spillSlots == [] && nextSpillOffset == SpillBase(frame)
      ensures spillOffsets == old(spillOffsets) && earlySlots == old(earlySlots)
    {
      if isPrologueGenerated {
        return Err;
      }
      hide Offsets, Prologue, FrameSize, SpillBase, Early, Declared, TooLarge, Laid, Placed;
      ghost var planned := Planned();
      OrderRegisters();
      var f := LayOut();
      assert f == planned;
      Decide(f);
      code := if isPrologueGenerated then Ok(Prologue(f)) else Err;
    }

    /** The frame laid out is taken, or is too large. */
    method Decide(f: Frame)
      requires Declared(localDeclarations, savedRegisters) && !isPrologueGenerated && savedRegisters == f.saved
      requires failed ==> finalFrameSize > MAX_FRAME
      requires !failed ==> Early(earlySlots, earlyEnd, earlyOffsets) && earlyOffsets == spillOffsets
      requires finalFrameSize > MAX_FRAME <==> TooLarge(localDeclarations, |savedRegisters|, canaries, spillAreaSize)
      requires Laid(f, canaries, finalFrameSize, variableOffsets) && nextSpillOffset == SpillBase(f)
      modifies this`failed, this`isPrologueGenerated, this`frame, this`spillSlots, this`lateOffsets
      ensures Valid() && isPrologueGenerated == (finalFrameSize <= MAX_FRAME)
      ensures isPrologueGenerated ==> frame == f && spillSlots == []
    {
      hide Offsets, FrameSize, SpillBase, Early, Declared, TooLarge, Laid, Placed;
      if finalFrameSize > MAX_FRAME {
        failed := true;
      } else {
        NothingIsPlaced(SpillBase(f));
        assert earlyOffsets + map[] == earlyOffsets;
        isPrologueGenerated, frame, spillSlots, lateOffsets := true, f, [], map[];
      }
    }

    method OrderRegisters()
      requires Valid() && !isPrologueGenerated
      modifies this`savedRegisters
      ensures Valid() && savedRegisters == old(Planned()).saved
    {
      hide SortByName, WithGlobals, LocalNames, Early, TooLarge;
      KeepsDeclared(localDeclarations, savedRegisters);
      SortedLength(savedRegisters);
      if usesGlobalPointers {
        savedRegisters := WithGlobals(savedRegisters);
      }
      savedRegisters := SortByName(savedRegisters);
      MoreSaved(old(|savedRegisters|));
    }

    method LayOut() returns (f: Frame)
      requires !isPrologueGenerated
      modifies this`finalFrameSize, this`variableOffsets, this`nextSpillOffset
      ensures f == Frame(localDeclarations, savedRegisters, canaries, spillAreaSize)
      ensures finalFrameSize > MAX_FRAME <==> TooLarge(localDeclarations, |savedRegisters|, canaries, spillAreaSize)
      ensures finalFrameSize == FrameSize(f) && Laid(f, canaries, finalFrameSize, variableOffsets) && nextSpillOffset == SpillBase(f)
    {
      f := Frame(localDeclarations, savedRegisters, canaries, spillAreaSize);
      finalFrameSize := AlignTo16(TotalSize(localDeclarations) + 8 * |savedRegisters| + FirstOffset(canaries) + spillAreaSize);
      variableOffsets := Offsets(f);
      nextSpillOffset := SpillBase(f);
    }

    /** The spill slot of a variable, given out on first use behind all others. Before the prologue slots are counted
      * from the frame pointer on, where the frame will have other things.
      */
    method GetSpillOffset(v: string, size: nat) returns (offset: nat)
      requires Valid() && (size == 8 || size == 16)
      modifies this`spillOffsets, this`nextSpillOffset, this`spillAreaSize
      modifies this`spillSlots, this`lateOffsets, this`earlySlots, this`earlyOffsets, this`earlyEnd
      ensures Valid() && v in spillOffsets && offset == spillOffsets[v]
      ensures forall w :: w in old(spillOffsets) ==> w in spillOffsets && spillOffsets[w] == old(spillOffsets)[w]
      ensures v !in old(spillOffsets) ==>
                && offset == old(nextSpillOffset) && nextSpillOffset == offset + size
                && spillAreaSize == old(spillAreaSize) + size
      ensures v in old(spillOffsets) ==> nextSpillOffset == old(nextSpillOffset) && spillAreaSize == old(spillAreaSize)
      ensures var more := if v in old(spillOffsets) then [] else [Slot(offset, size)];
              && spillSlots == old(spillSlots) + (if isPrologueGenerated then more else [])
              && earlySlots == old(earlySlots) + (if isPrologueGenerated || failed then [] else more)
    {
      hide Placed, Laid, Offsets, Declared, FrameSize, SpillBase, Early, TooLarge;
      if v in spillOffsets {
        return spillOffsets[v];
      }
      if failed {
        StaysTooLarge(localDeclarations, localDeclarations, |savedRegisters|, |savedRegisters|, canaries, spillAreaSize, spillAreaSize + size);
      }
      offset := nextSpillOffset;
      GiveOut(v, size);
      LateStays(old(earlyOffsets), old(lateOffsets), v, offset);
      spillOffsets, nextSpillOffset, spillAreaSize := spillOffsets[v := offset], offset + size, spillAreaSize + size;
    }

    /** Records the next spill slot. */
    ghost method GiveOut(v: string, size: nat)
      requires Valid() && (size == 8 || size == 16)
      modifies this`spillSlots, this`lateOffsets, this`earlySlots, this`earlyOffsets, this`earlyEnd
      ensures var next, slot := nextSpillOffset + size, Slot(nextSpillOffset, size);
              && (isPrologueGenerated ==>
                    && Placed(SpillBase(frame), spillSlots, next, lateOffsets) && spillSlots == old(spillSlots) + [slot]
                    && lateOffsets == old(lateOffsets)[v := nextSpillOffset])
              && (isPrologueGenerated || failed ==>
                    earlySlots == old(earlySlots) && earlyOffsets == old(earlyOffsets) && earlyEnd == old(earlyEnd))
              && (!isPrologueGenerated ==> spillSlots == old(spillSlots))
              && (!isPrologueGenerated && !failed ==>
                    && Early(earlySlots, earlyEnd, earlyOffsets) && earlySlots == old(earlySlots) + [slot] && earlyEnd == next
                    && earlyOffsets == old(earlyOffsets)[v := nextSpillOffset])
    {
      hide Placed, Laid, Offsets, Declared, FrameSize, SpillBase, Early, TooLarge;
      var offset := nextSpillOffset;
      if isPrologueGenerated {
        PlacedNext(SpillBase(frame), spillSlots, offset, lateOffsets, v, size);
        spillSlots, lateOffsets := spillSlots + [Slot(offset, size)], lateOffsets[v := offset];
      } else if !failed {
        EarlyNext(earlySlots, offset, earlyOffsets, v, size);
        earlySlots, earlyOffsets, earlyEnd := earlySlots + [Slot(offset, size)], earlyOffsets[v := offset], offset + size;
      }
    }

    method GenerateEpilogue() returns (code: Result<seq<Instr>>)
      requires Valid()
      ensures code == if isPrologueGenerated then Ok(Epilogue(frame)) else Err
    {
      if !isPrologueGenerated {
        return Err;
      }
      code := Ok(RestoreCode(savedRegisters, variableOffsets) + ((if canaries then CHECK_CANARIES else []) + LEAVE));
    }

    /** The slots of the frame and the spill slots given out since the prologue lie apart; they stay inside the frame as
      * long as no more bytes are spilled than were set aside.
      */
    lemma SlotsStayApart()
      requires Valid() && isPrologueGenerated && WellNamed(frame)
      ensures Packed(Slots(frame) + spillSlots, 0, nextSpillOffset)
      ensures nextSpillOffset - SpillStart(frame) <= frame.spillArea ==> nextSpillOffset <= finalFrameSize
      ensures nextSpillOffset - SpillStart(frame) >= frame.spillArea + 16 ==> nextSpillOffset > finalFrameSize
    {
      hide Packed, Slots, Offsets, DistinctNames, AlignTo16, SpillBase, Early, TooLarge;
      SpillsComeLast(frame);
      FrameIsPacked(frame, 0);
      assert Slots(frame) + SavedSlots(0, SpillStart(frame)) == Slots(frame);
      PackedEnds(Slots(frame), 0, SpillStart(frame));
      PackedJoin(Slots(frame), spillSlots, 0, SpillStart(frame), nextSpillOffset);
      AlignIsEnough(SpillStart(frame) + frame.spillArea);
      assert TotalSize(frame.locals) + 8 * |frame.saved| + FirstOffset(frame.canaries) + frame.spillArea
          == SpillStart(frame) + frame.spillArea;
    }

    /** All spill slots ever given out lie apart from each other and from the frame's own slots exactly when none of them
      * was given out before the prologue.
      */
    lemma SpillsStayApartExactly()
      requires Valid() && isPrologueGenerated && WellNamed(frame)
      ensures AllApart(Slots(frame) + earlySlots + spillSlots) <==> earlySlots == []
    {
      SlotsStayApart();
      var own, all := Slots(frame), Slots(frame) + earlySlots + spillSlots;
      assert own[0] == Slot(0, 8) && |own| >= 2;
      hide Slots, Offsets, DistinctNames, SpillBase, TooLarge, FrameSize;
      if earlySlots == [] {
        assert all == own + spillSlots;
        PackedIsApart(all, 0, nextSpillOffset);
      } else {
        assert all[0] == own[0] && all[|own|] == earlySlots[0];
        assert earlySlots[0].offset == 0 && earlySlots[0].size > 0;
        assert !Apart(all[0], all[|own|]);
      }
    }
  }

  function Reservable(pool: seq<Register>, pressure: int): nat {
    if pressure < 0 then 0 else if pressure < |pool| then pressure else |pool|
  }

  /** The saved registers with the first `n` of the pool behind them, none twice. */
  function Reserved(saved: seq<Register>, pool: seq<Register>, n: nat): seq<Register>
    requires n <= |pool|
  {
    if n == 0 then saved
    else
      var s := Reserved(saved, pool, n - 1);
      if pool[n - 1] in s then s else s + [pool[n - 1]]
  }

  /** Reserving keeps what is saved and saves just the registers asked for, none twice. */
  lemma {:induction false} ReservedExactly(saved: seq<Register>, pool: seq<Register>, n: nat)
    requires n <= |pool| && DistinctRegisters(saved)
    ensures DistinctRegisters(Reserved(saved, pool, n)) && saved <= Reserved(saved, pool, n)
    ensures forall r :: r in Reserved(saved, pool, n) <==> r in saved || r in pool[..n]
  {
    if n > 0 {
      ReservedExactly(saved, pool, n - 1);
      assert pool[..n] == pool[..n - 1] + [pool[n - 1]];
    }
  }

  lemma ReservedMembers(saved: seq<Register>, pool: seq<Register>, pressure: int)
    requires DistinctRegisters(saved)
    ensures forall r :: r in Reserved(saved, pool, Reservable(pool, pressure)) <==>
                        r in saved || exists k :: 0 <= k < |pool| && k < pressure && pool[k] == r
  {
    var n := Reservable(pool, pressure);
    ReservedExactly(saved, pool, n);
    hide Reserved;
    forall r
      ensures r in pool[..n] <==> exists k :: 0 <= k < |pool| && k < pressure && pool[k] == r
    {
      if k :| 0 <= k < |pool| && k < pressure && pool[k] == r {
        assert pool[..n][k] == r;
      }
    }
  }

  /** The global pointer registers are saved too. */
  function WithGlobals(saved: seq<Register>): seq<Register> {
    var s := if X(19) in saved then saved else saved + [X(19)];
    if X(28) in s then s else s + [X(28)]
  }

  lemma GlobalsAdded(saved: seq<Register>)
    ensures forall r :: r in WithGlobals(saved) <==> r in saved || r == X(19) || r == X(28)
  {
  }

  /** No local has the name of a register. */
  ghost predicate NoRegisterNames(locals: seq<Local>) {
    forall l, n: nat :: l in locals ==> l.name != RegisterName(X(n))
  }

  lemma RegisterNamesDiffer(a: Register, b: Register)
    requires RegisterName(a) == RegisterName(b)
    ensures a == b
  {
    hide NatText;
    assert RegisterName(a)[1..] == NatText(a.number) && RegisterName(b)[1..] == NatText(b.number);
    NatTextReads(a.number);
    NatTextReads(b.number);
  }

  lemma PlanIsWellNamed(f: Frame)
    requires Declared(f.locals, f.saved) && NoRegisterNames(f.locals)
    ensures WellNamed(f)
  {
    hide RegisterName;
    var names, saved := LocalNames(f.locals), SavedNames(f.saved);
    var all := names + saved;
    forall i, j | 0 <= i < j < |all|
      ensures all[i] != all[j]
    {
      if j < |names| {
        assert names[i] != names[j];
      } else {
        var r := f.saved[j - |names|];
        assert r == X(r.number) && all[j] == RegisterName(r);
        if i < |names| {
          assert f.locals[i] in f.locals && all[i] == f.locals[i].name;
        } else if all[i] == all[j] {
          RegisterNamesDiffer(f.saved[i - |names|], r);
        }
      }
    }
  }

  lemma LateStays(early: map<string, nat>, late: map<string, nat>, v: string, offset: nat)
    ensures (early + late)[v := offset] == early + late[v := offset]
  {
  }

  lemma NamesAppend(locals: seq<Local>, l: Local)
    ensures LocalNames(locals + [l]) == LocalNames(locals) + [l.name]
  {
    if locals != [] {
      assert (locals + [l])[1..] == locals[1..] + [l];
      NamesAppend(locals[1..], l);
    }
  }

  lemma GlobalsKeepDistinct(s: seq<Register>)
    requires DistinctRegisters(s)
    ensures DistinctRegisters(WithGlobals(s))
  {
  }

  /** Neither the global pointer registers nor the sorting save a register twice. */
  lemma KeepsDeclared(locals: seq<Local>, saved: seq<Register>)
    requires Declared(locals, saved)
    ensures Declared(locals, SortByName(saved)) && Declared(locals, SortByName(WithGlobals(saved)))
  {
    hide SortByName, WithGlobals;
    GlobalsKeepDistinct(saved);
    SortKeepsDistinct(saved);
    SortKeepsDistinct(WithGlobals(saved));
  }

  lemma {:induction false} DistinctCounts(s: seq<Register>)
    ensures DistinctRegisters(s) <==> forall r :: multiset(s)[r] <= 1
  {
    if s != [] {
      var rest := s[1..];
      DistinctCounts(rest);
      assert multiset(s) == multiset{s[0]} + multiset(rest) by {
        assert s == [s[0]] + rest;
      }
      assert s[0] in rest <==> s[0] in multiset(rest);
      assert DistinctRegisters(s) <==> DistinctRegisters(rest) && s[0] !in rest by {
        assert forall i :: 0 <= i < |rest| ==> rest[i] == s[i + 1];
      }
      assert forall r :: multiset(s)[r] == multiset(rest)[r] + if r == s[0] then 1 else 0;
    }
  }

  lemma SortKeepsDistinct(s: seq<Register>)
    requires DistinctRegisters(s)
    ensures DistinctRegisters(SortByName(s))
  {
    SortKeepsAll(s);
    hide SortByName;
    DistinctCounts(s);
    DistinctCounts(SortByName(s));
  }
}
