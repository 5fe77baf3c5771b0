/** Linear scan over live intervals: when it is right, exactly, and that nothing is spilled while the registers suffice. */
module LinearScan {

  type Register = string

  /** A live interval of a variable that takes part in the allocation. */
  datatype Interval = Interval(name: string, start: int, end: int, isFloat: bool)

  /** An interval with what it was given. */
  datatype Held = Held(interval: Interval, spilled: bool, register: Register)

  /** The free registers of one class, a stack, and the intervals that were still live when last looked at. */
  datatype Bank = Bank(free: seq<Register>, active: seq<Held>)

  datatype State = State(ints: Bank, floats: Bank, allocation: map<string, Held>, evicted: bool)

  const INT_POOL: seq<Register> := ["X20", "X21", "X22", "X23", "X24", "X25", "X26", "X27"]
  const FLOAT_POOL: seq<Register> := ["D15", "D14", "D13", "D12", "D11", "D10", "D9", "D8"]

  const START := State(Bank(INT_POOL, []), Bank(FLOAT_POOL, []), map[], false)

  predicate Expired(h: Held, now: int) {
    h.interval.end < now
  }

  function StillLive(active: seq<Held>, now: int): seq<Held> {
    if active == [] then []
    else (if Expired(active[0], now) then [] else [active[0]]) + StillLive(active[1..], now)
  }

  /** The registers that expired intervals give back. */
  function GivenBack(active: seq<Held>, now: int): seq<Register> {
    if active == [] then []
    else (if Expired(active[0], now) && !active[0].spilled then [active[0].register] else []) + GivenBack(active[1..], now)
  }

  function Expire(b: Bank, now: int): Bank {
    Bank(b.free + GivenBack(b.active, now), StillLive(b.active, now))
  }

  /** The first of the intervals that live longest. */
  function Longest(active: seq<Held>): (k: nat)
    requires active != []
    ensures k < |active|
    ensures forall i :: 0 <= i < |active| ==> active[i].interval.end <= active[k].interval.end
  {
    if |active| == 1 then 0
    else
      var k := Longest(active[..|active| - 1]);
      if active[k].interval.end < active[|active| - 1].interval.end then |active| - 1 else k
  }

  datatype Placed = Placed(bank: Bank, held: Held, evicted: bool)

  /** A free register if there is one; otherwise one interval is spilled. The interval that loses its register to
    * another one stays in the active list.
    */
  function Place(b: Bank, i: Interval): Placed
    requires b.free != [] || b.active != []
  {
    if b.free != [] then
      var h := Held(i, false, b.free[|b.free| - 1]);
      Placed(Bank(b.free[..|b.free| - 1], b.active + [h]), h, false)
    else
      var k := Longest(b.active);
      if b.active[k].interval.end > i.end then
        var h := Held(i, true, "");
        Placed(Bank([], b.active + [h]), h, false)
      else
        var h := Held(i, false, b.active[k].register);
        Placed(Bank([], b.active[k := b.active[k].(spilled := true)] + [h]), h, true)
  }

  function BankOf(s: State, isFloat: bool): Bank {
    if isFloat then s.floats else s.ints
  }

  /** Neither class has run out of both registers and active intervals. */
  predicate Usable(s: State) {
    && (s.ints.free != [] || s.ints.active != [])
    && (s.floats.free != [] || s.floats.active != [])
  }

  function Process(s: State, i: Interval): State
    requires Usable(ExpireBoth(s, i.start))
  {
    var e := ExpireBoth(s, i.start);
    var p := Place(BankOf(e, i.isFloat), i);
    State(if i.isFloat then e.ints else p.bank, if i.isFloat then p.bank else e.floats,
          s.allocation[i.name := p.held], s.evicted || p.evicted)
  }

  function ExpireBoth(s: State, now: int): State {
    s.(ints := Expire(s.ints, now), floats := Expire(s.floats, now))
  }

  // ----- the banks -----

  /** The registers of the active intervals that have not been spilled. */
  function InUse(active: seq<Held>): seq<Register> {
    if active == [] then [] else (if active[0].spilled then [] else [active[0].register]) + InUse(active[1..])
  }

  lemma {:induction false} InUseAppend(active: seq<Held>, h: Held)
    ensures InUse(active + [h]) == InUse(active) + if h.spilled then [] else [h.register]
  {
    if active == [] {
      assert ([] + [h])[1..] == [];
    } else {
      assert (active + [h])[1..] == active[1..] + [h];
      InUseAppend(active[1..], h);
    }
  }

  lemma {:induction false} InUseMember(active: seq<Held>, k: nat)
    requires k < |active| && !active[k].spilled
    ensures active[k].register in InUse(active)
  {
    if k > 0 {
      InUseMember(active[1..], k - 1);
    }
  }

  /** Every register of the pool is free or in use, and none is so twice. */
  ghost predicate Balanced(b: Bank, pool: seq<Register>) {
    multiset(b.free) + multiset(InUse(b.active)) == multiset(pool)
  }

  lemma {:induction false} ExpirySplits(active: seq<Held>, now: int)
    ensures multiset(GivenBack(active, now)) + multiset(InUse(StillLive(active, now))) == multiset(InUse(active))
  {
    hide InUse, GivenBack, StillLive;
    if active == [] {
      ExpireNothing(now);
    } else {
      var h, rest := active[0], active[1..];
      ExpirySplits(rest, now);
      ExpireFront(h, rest, now);
      InUseFront(h, rest);
      InUseFront(h, StillLive(rest, now));
      assert active == [h] + rest;
      var mine := if h.spilled then [] else [h.register];
      JoinCounts(mine, InUse(rest));
      JoinCounts(mine, GivenBack(rest, now));
      JoinCounts(mine, InUse(StillLive(rest, now)));
    }
  }

  lemma ExpireNothing(now: int)
    ensures GivenBack([], now) == [] && StillLive([], now) == [] && InUse([]) == []
  {
  }

  lemma ExpireFront(h: Held, rest: seq<Held>, now: int)
    ensures StillLive([h] + rest, now) == if Expired(h, now) then StillLive(rest, now) else [h] + StillLive(rest, now)
    ensures GivenBack([h] + rest, now) ==
            if Expired(h, now) then (if h.spilled then [] else [h.register]) + GivenBack(rest, now) else GivenBack(rest, now)
  {
    assert ([h] + rest)[1..] == rest;
  }

  lemma JoinCounts(a: seq<Register>, b: seq<Register>)
    ensures multiset(a + b) == multiset(a) + multiset(b)
  {
  }

  lemma InUseFront(h: Held, rest: seq<Held>)
    ensures InUse([h] + rest) == (if h.spilled then [] else [h.register]) + InUse(rest)
  {
    assert ([h] + rest)[1..] == rest;
  }

  lemma ExpireBalances(b: Bank, pool: seq<Register>, now: int)
    requires Balanced(b, pool)
    ensures Balanced(Expire(b, now), pool)
  {
    ExpirySplits(b.active, now);
    hide InUse, GivenBack, StillLive;
  }

  /** Free registers and registers in use together make up the pool, as long as nothing is evicted. */
  lemma PlaceBalances(b: Bank, i: Interval, pool: seq<Register>)
    requires Balanced(b, pool) && (b.free != [] || b.active != []) && !Place(b, i).evicted
    ensures Balanced(Place(b, i).bank, pool)
  {
    hide InUse, Longest;
    InUseAppend(b.active, Place(b, i).held);
    if b.free != [] {
      LastChangesHands(b.free, InUse(b.active));
    } else {
      assert InUse(b.active) + [] == InUse(b.active);
    }
  }

  lemma LastChangesHands(free: seq<Register>, used: seq<Register>)
    requires free != []
    ensures var n := |free| - 1; multiset(free[..n]) + multiset(used + [free[n]]) == multiset(free) + multiset(used)
  {
    var n := |free| - 1;
    assert free == free[..n] + [free[n]];
    JoinCounts(free[..n], [free[n]]);
    JoinCounts(used, [free[n]]);
  }

  predicate Distinct(pool: seq<Register>) {
    forall i, j :: 0 <= i < j < |pool| ==> pool[i] != pool[j]
  }

  lemma {:induction false} DistinctOnce(pool: seq<Register>, r: Register)
    requires Distinct(pool)
    ensures multiset(pool)[r] <= 1
  {
    if pool != [] {
      assert pool == [pool[0]] + pool[1..];
      DistinctOnce(pool[1..], r);
      assert pool[0] !in pool[1..];
    }
  }

  lemma PoolsAreDistinct()
    ensures Distinct(INT_POOL) && Distinct(FLOAT_POOL) && "" !in INT_POOL && "" !in FLOAT_POOL
  {
    assert INT_POOL[0][2] == '0' && INT_POOL[1][2] == '1' && INT_POOL[2][2] == '2' && INT_POOL[3][2] == '3';
    assert INT_POOL[4][2] == '4' && INT_POOL[5][2] == '5' && INT_POOL[6][2] == '6' && INT_POOL[7][2] == '7';
    assert FLOAT_POOL[0][2] == '5' && FLOAT_POOL[1][2] == '4' && FLOAT_POOL[2][2] == '3' && FLOAT_POOL[3][2] == '2';
    assert FLOAT_POOL[4][2] == '1' && FLOAT_POOL[5][2] == '0' && FLOAT_POOL[6][1] == '9' && FLOAT_POOL[7][1] == '8';
    assert |FLOAT_POOL[6]| == 2 && |FLOAT_POOL[7]| == 2;
  }

  /** In a balanced bank no two active intervals share a register, and no register in use is free. */
  lemma {:induction false} BalancedApart(active: seq<Held>, rest: multiset<Register>, pool: seq<Register>, j: nat, k: nat)
    requires rest + multiset(InUse(active)) <= multiset(pool) && Distinct(pool)
    requires j < |active| && !active[j].spilled
    ensures active[j].register in pool && active[j].register !in rest
    ensures j < k < |active| && !active[k].spilled ==> active[j].register != active[k].register
  {
    var r := active[j].register;
    InUseMember(active, j);
    DistinctOnce(pool, r);
    assert multiset(InUse(active))[r] >= 1;
    assert multiset(pool)[r] >= 1;
    if j < k < |active| && !active[k].spilled {
      if j == 0 {
        InUseMember(active[1..], k - 1);
        assert InUse(active) == [r] + InUse(active[1..]);
      } else {
        BalancedApart(active[1..], rest, pool, j - 1, k - 1);
      }
    }
  }

  // ----- whole scans -----

  /** A bank has registers left or intervals that hold some. */
  predicate Stocked(b: Bank) {
    |b.free| + |InUse(b.active)| >= 1
  }

  lemma {:induction false} InUseUpdate(active: seq<Held>, k: nat)
    requires k < |active|
    ensures |InUse(active[k := active[k].(spilled := true)])| == |InUse(active)| - if active[k].spilled then 0 else 1
  {
    if k == 0 {
      assert active[0 := active[0].(spilled := true)][1..] == active[1..];
    } else {
      assert active[k := active[k].(spilled := true)][1..] == active[1..][k - 1 := active[k].(spilled := true)];
      InUseUpdate(active[1..], k - 1);
    }
  }

  lemma ExpireStocked(b: Bank, now: int)
    requires Stocked(b)
    ensures Stocked(Expire(b, now)) && (Expire(b, now).free != [] || Expire(b, now).active != [])
  {
    ExpirySplits(b.active, now);
    var e := Expire(b, now);
    assert |multiset(InUse(b.active))| == |multiset(GivenBack(b.active, now))| + |multiset(InUse(e.active))|;
  }

  lemma PlaceStocked(b: Bank, i: Interval)
    requires Stocked(b) && (b.free != [] || b.active != [])
    ensures Stocked(Place(b, i).bank)
  {
    var p := Place(b, i);
    if b.free != [] {
      InUseAppend(b.active, p.held);
    } else {
      var k := Longest(b.active);
      InUseUpdate(b.active, k);
      InUseAppend(b.active, p.held);
      InUseAppend(b.active[k := b.active[k].(spilled := true)], p.held);
    }
  }

  lemma ProcessStocked(s: State, i: Interval)
    requires Stocked(s.ints) && Stocked(s.floats)
    ensures Usable(ExpireBoth(s, i.start)) && Stocked(Process(s, i).ints) && Stocked(Process(s, i).floats)
  {
    ExpireStocked(s.ints, i.start);
    ExpireStocked(s.floats, i.start);
    var e := ExpireBoth(s, i.start);
    PlaceStocked(BankOf(e, i.isFloat), i);
  }

  lemma StartIsStocked()
    ensures Stocked(START.ints) && Stocked(START.floats)
  {
    assert |INT_POOL| == 8 && |FLOAT_POOL| == 8;
  }

  /** The scan over intervals in the order of their starts. */
  function Scan(intervals: seq<Interval>): (r: State)
    ensures Stocked(r.ints) && Stocked(r.floats)
  {
    if intervals == [] then
      StartIsStocked();
      START
    else
      var i := intervals[|intervals| - 1];
      var before := Scan(intervals[..|intervals| - 1]);
      ProcessStocked(before, i);
      Process(before, i)
  }

  predicate SortedByStart(intervals: seq<Interval>) {
    forall j, k :: 0 <= j < k < |intervals| ==> intervals[j].start <= intervals[k].start
  }

  predicate NamesDiffer(intervals: seq<Interval>) {
    forall j, k :: 0 <= j < k < |intervals| ==> intervals[j].name != intervals[k].name
  }

  /** Intervals end no earlier than they start. */
  predicate Proper(intervals: seq<Interval>) {
    forall i :: i in intervals ==> i.start <= i.end
  }

  // ----- pressure -----

  /** How many intervals of a class cover a point. */
  function Covering(intervals: seq<Interval>, isFloat: bool, point: int): nat {
    if intervals == [] then 0
    else
      var i := intervals[|intervals| - 1];
      Covering(intervals[..|intervals| - 1], isFloat, point)
        + if i.isFloat == isFloat && i.start <= point <= i.end then 1 else 0
  }

  ghost predicate Fits(intervals: seq<Interval>, isFloat: bool, pool: seq<Register>) {
    forall point :: Covering(intervals, isFloat, point) <= |pool|
  }

  /** The intervals of a class that have not ended before a point, in order. */
  function Unended(intervals: seq<Interval>, isFloat: bool, now: int): seq<Interval> {
    if intervals == [] then []
    else
      var i := intervals[|intervals| - 1];
      Unended(intervals[..|intervals| - 1], isFloat, now) + if i.isFloat == isFloat && i.end >= now then [i] else []
  }

  function Originals(active: seq<Held>): seq<Interval> {
    if active == [] then [] else Originals(active[..|active| - 1]) + [active[|active| - 1].interval]
  }

  lemma {:induction false} StillLiveFront(active: seq<Held>, h: Held, now: int)
    ensures StillLive(active + [h], now) == StillLive(active, now) + if Expired(h, now) then [] else [h]
  {
    if active == [] {
      assert ([] + [h])[1..] == [];
    } else {
      assert (active + [h])[1..] == active[1..] + [h];
      StillLiveFront(active[1..], h, now);
    }
  }

  lemma OriginalsAppend(active: seq<Held>, h: Held)
    ensures Originals(active + [h]) == Originals(active) + [h.interval]
  {
    assert (active + [h])[..|active|] == active;
  }

  /** Expiring the active intervals leaves the originals that have not ended. */
  lemma {:induction false} ExpireOriginals(active: seq<Held>, intervals: seq<Interval>, isFloat: bool, before: int, now: int)
    requires Originals(active) == Unended(intervals, isFloat, before) && before <= now
    ensures Originals(StillLive(active, now)) == Unended(intervals, isFloat, now)
  {
    FilterOriginals(active, now);
    FilterUnended(intervals, isFloat, before, now);
  }

  function EndingFrom(intervals: seq<Interval>, now: int): seq<Interval> {
    if intervals == [] then []
    else
      var i := intervals[|intervals| - 1];
      EndingFrom(intervals[..|intervals| - 1], now) + if i.end >= now then [i] else []
  }

  lemma EndingFromAppend(u: seq<Interval>, i: Interval, now: int)
    ensures EndingFrom(u + [i], now) == EndingFrom(u, now) + if i.end >= now then [i] else []
  {
    assert (u + [i])[..|u|] == u;
  }

  lemma {:induction false} FilterOriginals(active: seq<Held>, now: int)
    ensures Originals(StillLive(active, now)) == EndingFrom(Originals(active), now)
  {
    if active != [] {
      var front, h := active[..|active| - 1], active[|active| - 1];
      assert active == front + [h];
      FilterOriginals(front, now);
      StillLiveFront(front, h, now);
      OriginalsAppend(front, h);
      EndingFromAppend(Originals(front), h.interval, now);
      OriginalsAppend(StillLive(front, now), h);
      var live, ending := StillLive(front, now), EndingFrom(Originals(front), now);
      assert live + [] == live && ending + [] == ending;
      hide StillLive, EndingFrom, Originals;
    }
  }

  lemma {:induction false} FilterUnended(intervals: seq<Interval>, isFloat: bool, before: int, now: int)
    requires before <= now
    ensures EndingFrom(Unended(intervals, isFloat, before), now) == Unended(intervals, isFloat, now)
  {
    if intervals != [] {
      var front, i := intervals[..|intervals| - 1], intervals[|intervals| - 1];
      FilterUnended(front, isFloat, before, now);
      var u := Unended(front, isFloat, before);
      EndingFromAppend(u, i, now);
      assert u + [] == u;
      hide EndingFrom;
    }
  }

  lemma {:induction false} UnendedCovers(intervals: seq<Interval>, isFloat: bool, now: int)
    requires forall i :: i in intervals ==> i.start <= now
    ensures |Unended(intervals, isFloat, now)| == Covering(intervals, isFloat, now)
  {
    if intervals != [] {
      UnendedCovers(intervals[..|intervals| - 1], isFloat, now);
      assert intervals[|intervals| - 1] in intervals;
    }
  }

  // ----- while the registers suffice -----

  /** After a scan the active intervals are the unended ones, and every one has a register. */
  ghost predicate Roomy(b: Bank, intervals: seq<Interval>, isFloat: bool, pool: seq<Register>, now: int) {
    && Balanced(b, pool)
    && Originals(b.active) == Unended(intervals, isFloat, now)
    && (forall h :: h in b.active ==> !h.spilled)
  }

  lemma {:induction false} UnspilledInUse(active: seq<Held>)
    requires forall h :: h in active ==> !h.spilled
    ensures |InUse(active)| == |active|
  {
    if active != [] {
      assert active[0] in active;
      UnspilledInUse(active[1..]);
    }
  }

  lemma {:induction false} StillLiveMembers(active: seq<Held>, now: int)
    ensures forall h :: h in StillLive(active, now) <==> h in active && !Expired(h, now)
  {
    if active != [] {
      StillLiveMembers(active[1..], now);
      assert active == [active[0]] + active[1..];
    }
  }

  lemma OriginalsLength(active: seq<Held>)
    ensures |Originals(active)| == |active|
  {
  }

  lemma ExpireRoomy(b: Bank, intervals: seq<Interval>, isFloat: bool, pool: seq<Register>, before: int, now: int)
    requires Roomy(b, intervals, isFloat, pool, before) && before <= now
    ensures Roomy(Expire(b, now), intervals, isFloat, pool, now)
  {
    ExpireBalances(b, pool, now);
    ExpireOriginals(b.active, intervals, isFloat, before, now);
    StillLiveMembers(b.active, now);
    hide Balanced, StillLive, Unended, Originals;
  }

  lemma FreeWhenFew(b: Bank, pool: seq<Register>)
    requires Balanced(b, pool) && (forall h :: h in b.active ==> !h.spilled) && |b.active| < |pool|
    ensures b.free != []
  {
    UnspilledInUse(b.active);
    assert |multiset(b.free)| + |multiset(InUse(b.active))| == |multiset(pool)|;
  }

  /** While fewer intervals are active than there are registers, the next one gets a register of its own. */
  lemma PlaceRoomy(b: Bank, intervals: seq<Interval>, i: Interval, pool: seq<Register>)
    requires Roomy(b, intervals, i.isFloat, pool, i.start) && |b.active| < |pool| && i.start <= i.end
    ensures b.free != [] && !Place(b, i).held.spilled && !Place(b, i).evicted
    ensures Roomy(Place(b, i).bank, intervals + [i], i.isFloat, pool, i.start)
  {
    hide Balanced, Originals, Longest, InUse;
    FreeWhenFew(b, pool);
    PlaceBalances(b, i, pool);
    OriginalsAppend(b.active, Place(b, i).held);
    assert (intervals + [i])[..|intervals|] == intervals;
  }

  lemma OtherClassRoomy(b: Bank, intervals: seq<Interval>, i: Interval, isFloat: bool, pool: seq<Register>, now: int)
    requires Roomy(b, intervals, isFloat, pool, now) && i.isFloat != isFloat
    ensures Roomy(b, intervals + [i], isFloat, pool, now)
  {
    assert (intervals + [i])[..|intervals|] == intervals;
    assert Unended(intervals, isFloat, now) + [] == Unended(intervals, isFloat, now);
    hide Balanced, Originals;
  }

  function LastStart(intervals: seq<Interval>): int {
    if intervals == [] then 0 else intervals[|intervals| - 1].start
  }

  lemma ActiveCount(b: Bank, intervals: seq<Interval>, isFloat: bool, pool: seq<Register>, now: int)
    requires Roomy(b, intervals, isFloat, pool, now) && forall i :: i in intervals ==> i.start <= now
    ensures |b.active| == Covering(intervals, isFloat, now)
  {
    OriginalsLength(b.active);
    UnendedCovers(intervals, isFloat, now);
    hide Balanced, Originals, Unended;
  }

  function Pool(isFloat: bool): seq<Register> {
    if isFloat then FLOAT_POOL else INT_POOL
  }

  /** Nothing has been spilled or evicted, and both banks are in order. */
  ghost predicate Comfortable(r: State, intervals: seq<Interval>) {
    && !r.evicted && (forall x :: x in r.allocation ==> !r.allocation[x].spilled)
    && (forall c :: Roomy(BankOf(r, c), intervals, c, Pool(c), LastStart(intervals)))
  }

  lemma ProcessFitting(s: State, intervals: seq<Interval>, i: Interval)
    requires Comfortable(s, intervals) && i.start <= i.end && Stocked(s.ints) && Stocked(s.floats)
    requires forall j :: j in intervals ==> j.start <= i.start
    requires Covering(intervals, i.isFloat, i.start) < |Pool(i.isFloat)|
    ensures Usable(ExpireBoth(s, i.start)) && Comfortable(Process(s, i), intervals + [i])
  {
    hide Roomy, Expire, Place, Covering, Pool, Stocked;
    ProcessStocked(s, i);
    var e := ExpireBoth(s, i.start);
    forall c
      ensures Roomy(BankOf(e, c), intervals, c, Pool(c), i.start)
    {
      ExpireFitting(BankOf(s, c), intervals, c, Pool(c), i.start);
    }
    var b := BankOf(e, i.isFloat);
    ActiveCount(b, intervals, i.isFloat, Pool(i.isFloat), i.start);
    PlaceRoomy(b, intervals, i, Pool(i.isFloat));
    OtherClassRoomy(BankOf(e, !i.isFloat), intervals, i, !i.isFloat, Pool(!i.isFloat), i.start);
    var r := Process(s, i);
    forall c
      ensures Roomy(BankOf(r, c), intervals + [i], c, Pool(c), i.start)
    {
      if c != i.isFloat {
        assert BankOf(r, c) == BankOf(e, c);
      }
    }
  }

  lemma CoveringFront(intervals: seq<Interval>, c: bool, point: int)
    requires intervals != []
    ensures Covering(intervals[..|intervals| - 1], c, point) <= Covering(intervals, c, point)
    ensures var i := intervals[|intervals| - 1];
            i.isFloat == c && i.start <= point <= i.end ==>
              Covering(intervals[..|intervals| - 1], c, point) < Covering(intervals, c, point)
  {
  }

  lemma FreshBankIsRoomy(pool: seq<Register>, isFloat: bool)
    ensures Roomy(Bank(pool, []), [], isFloat, pool, 0)
  {
    assert InUse([]) == [];
  }

  lemma StartIsComfortable()
    ensures Comfortable(START, []) && Stocked(START.ints) && Stocked(START.floats)
  {
    hide Roomy;
    FreshBankIsRoomy(INT_POOL, false);
    FreshBankIsRoomy(FLOAT_POOL, true);
    assert |INT_POOL| == 8 && |FLOAT_POOL| == 8;
  }

  /** While no point is covered by more intervals of a class than there are registers, nothing is spilled and nothing
    * evicted, and free registers and registers in use make up the pools.
    */
  lemma {:induction false} FittingScanSpillsNothing(intervals: seq<Interval>)
    requires SortedByStart(intervals) && Proper(intervals)
    requires forall point, c :: Covering(intervals, c, point) <= |Pool(c)|
    ensures Comfortable(Scan(intervals), intervals)
    decreases |intervals|
  {
    StartIsComfortable();
    hide Comfortable, Covering, Process, Stocked, Pool;
    if intervals != [] {
      var front, i := intervals[..|intervals| - 1], intervals[|intervals| - 1];
      assert intervals == front + [i] && i in intervals;
      forall point, c
        ensures Covering(front, c, point) <= |Pool(c)|
      {
        CoveringFront(intervals, c, point);
      }
      FrontStarts(intervals);
      assert forall j :: j in front ==> j in intervals;
      FittingScanSpillsNothing(front);
      CoveringFront(intervals, i.isFloat, i.start);
      ProcessFitting(Scan(front), front, i);
    }
  }

  lemma FrontStarts(intervals: seq<Interval>)
    requires SortedByStart(intervals) && intervals != []
    ensures var front := intervals[..|intervals| - 1];
            && SortedByStart(front)
            && (front != [] ==> LastStart(front) <= LastStart(intervals))
            && forall i :: i in front ==> i.start <= LastStart(intervals)
  {
  }

  lemma ExpireFitting(b: Bank, intervals: seq<Interval>, isFloat: bool, pool: seq<Register>, now: int)
    requires Roomy(b, intervals, isFloat, pool, LastStart(intervals))
    requires intervals != [] ==> LastStart(intervals) <= now
    ensures Roomy(Expire(b, now), intervals, isFloat, pool, now)
  {
    if intervals == [] {
      OriginalsLength(b.active);
      assert b.active == [];
      ExpireBalances(b, pool, now);
    } else {
      ExpireRoomy(b, intervals, isFloat, pool, LastStart(intervals), now);
    }
  }

  // ----- when the allocation is right -----

  predicate Overlap(a: Interval, b: Interval) {
    a.start <= b.end && b.start <= a.end
  }

  /** Two variables of a class that are live together may not share a register. */
  predicate Clash(x: Held, y: Held) {
    && !x.spilled && !y.spilled
    && x.interval.isFloat == y.interval.isFloat && Overlap(x.interval, y.interval)
    && x.register == y.register
  }

  /** Whatever is not spilled has a register of its class, and no two variables clash. */
  ghost predicate Correct(allocation: map<string, Held>) {
    && (forall m :: m in allocation && !allocation[m].spilled ==>
          allocation[m].register in Pool(allocation[m].interval.isFloat))
    && (forall m, n :: m in allocation && n in allocation && m != n ==> !Clash(allocation[m], allocation[n]))
  }

  /** Active intervals are recorded as they are held, and have not ended before `now`. */
  ghost predicate Recorded(active: seq<Held>, allocation: map<string, Held>, isFloat: bool) {
    forall h :: h in active ==>
      h.interval.isFloat == isFloat && h.interval.name in allocation && allocation[h.interval.name] == h
  }

  /** What is recorded is active, or has ended before `now`. */
  ghost predicate Accounted(s: State, now: int) {
    forall n :: n in s.allocation ==>
      && s.allocation[n].interval.name == n
      && (s.allocation[n] in BankOf(s, s.allocation[n].interval.isFloat).active || s.allocation[n].interval.end < now)
  }

  /** What holds until the first eviction. */
  ghost predicate Clean(s: State, now: int) {
    && (forall c :: Balanced(BankOf(s, c), Pool(c)) && Recorded(BankOf(s, c).active, s.allocation, c))
    && Accounted(s, now)
    && Correct(s.allocation)
    && (forall n :: n in s.allocation ==> s.allocation[n].interval.start <= now)
  }

  lemma ExpireClean(s: State, before: int, now: int)
    requires Clean(s, before) && before <= now
    ensures Clean(ExpireBoth(s, now), now)
    ensures forall c, h :: h in BankOf(ExpireBoth(s, now), c).active ==> h.interval.end >= now
  {
    hide Balanced, Correct, Pool;
    var e := ExpireBoth(s, now);
    forall c
      ensures Balanced(BankOf(e, c), Pool(c)) && Recorded(BankOf(e, c).active, e.allocation, c)
      ensures forall h :: h in BankOf(e, c).active <==> h in BankOf(s, c).active && !Expired(h, now)
    {
      ExpireBalances(BankOf(s, c), Pool(c), now);
      StillLiveMembers(BankOf(s, c).active, now);
    }
    hide StillLive, GivenBack;
  }

  lemma PoolIsDistinct(c: bool)
    ensures Distinct(Pool(c)) && "" !in Pool(c)
  {
    PoolsAreDistinct();
  }

  /** A free register is in the pool and held by no active interval. */
  lemma FreeRegister(b: Bank, c: bool)
    requires Balanced(b, Pool(c)) && b.free != []
    ensures var r := b.free[|b.free| - 1];
            r in Pool(c) && forall h :: h in b.active && !h.spilled ==> h.register != r
  {
    hide Pool, InUse, Distinct;
    PoolIsDistinct(c);
    var r := b.free[|b.free| - 1];
    assert r in multiset(b.free);
    assert r in multiset(Pool(c));
    forall h | h in b.active && !h.spilled
      ensures h.register != r
    {
      var j :| 0 <= j < |b.active| && b.active[j] == h;
      BalancedApart(b.active, multiset(b.free), Pool(c), j, j);
    }
  }

  /** An interval that is spilled, or gets a register no active interval holds, clashes with nothing. */
  lemma NewcomerIsClean(s: State, h: Held)
    requires Correct(s.allocation) && Accounted(s, h.interval.start)
    requires h.interval.name !in s.allocation
    requires !h.spilled ==> h.register in Pool(h.interval.isFloat)
                            && forall x :: x in BankOf(s, h.interval.isFloat).active && !x.spilled ==> x.register != h.register
    ensures Correct(s.allocation[h.interval.name := h])
  {
    hide Pool;
    forall m | m in s.allocation
      ensures !Clash(s.allocation[m], h) && !Clash(h, s.allocation[m])
    {
      var x := s.allocation[m];
      if !x.spilled && !h.spilled && x.interval.isFloat == h.interval.isFloat && Overlap(x.interval, h.interval) {
        assert x in BankOf(s, h.interval.isFloat).active;
      }
    }
    hide Clash;
  }

  /** The interval that is placed without evicting another is spilled, or has a register of its own. */
  lemma PlacedHeld(b: Bank, i: Interval)
    requires Balanced(b, Pool(i.isFloat)) && (b.free != [] || b.active != []) && !Place(b, i).evicted
    ensures var h := Place(b, i).held;
            && h.interval == i && Place(b, i).bank.active == b.active + [h]
            && (h.spilled ==> h.register == "")
            && (!h.spilled ==> h.register in Pool(i.isFloat)
                               && forall x :: x in b.active && !x.spilled ==> x.register != h.register)
  {
    hide Balanced, Pool, Longest;
    if b.free != [] {
      FreeRegister(b, i.isFloat);
    }
  }

  /** The register of an evicted interval goes to one that clashes with it; of a spilled one there is none to give. */
  lemma EvictionSpoils(s: State, i: Interval)
    requires Usable(s) && i.start <= i.end && i.name !in s.allocation
    requires Recorded(BankOf(s, i.isFloat).active, s.allocation, i.isFloat)
    requires forall n :: n in s.allocation ==> s.allocation[n].interval.start <= i.start
    requires forall h :: h in BankOf(s, i.isFloat).active ==> h.interval.end >= i.start && (h.spilled ==> h.register == "")
    requires Place(BankOf(s, i.isFloat), i).evicted
    ensures !Correct(s.allocation[i.name := Place(BankOf(s, i.isFloat), i).held])
  {
    hide Pool, Longest, Usable;
    var b := BankOf(s, i.isFloat);
    var k := Longest(b.active);
    var c, h := b.active[k], Place(b, i).held;
    assert c in b.active;
    assert h == Held(i, false, c.register);
    hide Place;
    PoolIsDistinct(i.isFloat);
    SpoiledRecord(s.allocation, c, h);
  }

  lemma SpoiledRecord(allocation: map<string, Held>, c: Held, h: Held)
    requires c.interval.name in allocation && allocation[c.interval.name] == c && h.interval.name !in allocation
    requires !h.spilled && h.register == c.register && c.interval.isFloat == h.interval.isFloat
    requires c.interval.start <= h.interval.start <= c.interval.end && h.interval.start <= h.interval.end
    requires c.spilled ==> c.register == ""
    requires "" !in Pool(h.interval.isFloat)
    ensures !Correct(allocation[h.interval.name := h])
  {
    hide Pool;
    var after := allocation[h.interval.name := h];
    var m, n := c.interval.name, h.interval.name;
    assert n in after && after[n] == h;
    if !c.spilled {
      assert m in after && after[m] == c && m != n && Clash(after[m], after[n]);
    }
  }

  // ----- from step to step -----

  /** Spilled intervals have no register, until the first eviction. */
  ghost predicate Unmarked(s: State) {
    forall c, h :: h in BankOf(s, c).active && h.spilled ==> h.register == ""
  }

  lemma ProcessClean(s: State, i: Interval, before: int)
    requires Clean(s, before) && Unmarked(s) && before <= i.start <= i.end && i.name !in s.allocation
    requires Stocked(s.ints) && Stocked(s.floats) && !s.evicted
    ensures Usable(ExpireBoth(s, i.start))
    ensures Process(s, i).evicted ==> !Correct(Process(s, i).allocation)
    ensures !Process(s, i).evicted ==> Clean(Process(s, i), i.start) && Unmarked(Process(s, i))
  {
    hide Place, Correct, Expire, Stocked, Balanced, Pool, Clean;
    ProcessStocked(s, i);
    var e := ExpireBoth(s, i.start);
    ExpireClean(s, before, i.start);
    ExpireUnmarked(s, i.start);
    CleanParts(e, i.start);
    var b := BankOf(e, i.isFloat);
    if Place(b, i).evicted {
      EvictionSpoils(e, i);
    } else {
      PlacedHeld(b, i);
      NewcomerIsClean(e, Place(b, i).held);
      PlaceBalances(b, i, Pool(i.isFloat));
      AddedIsClean(e, Process(s, i), i, Place(b, i).held);
    }
  }

  lemma CleanParts(s: State, now: int)
    requires Clean(s, now)
    ensures forall c :: Balanced(BankOf(s, c), Pool(c)) && Recorded(BankOf(s, c).active, s.allocation, c)
    ensures Accounted(s, now) && Correct(s.allocation)
    ensures forall n :: n in s.allocation ==> s.allocation[n].interval.start <= now
  {
    hide Balanced, Correct, Pool, Recorded, Accounted;
  }

  lemma ExpireUnmarked(s: State, now: int)
    requires Unmarked(s)
    ensures Unmarked(ExpireBoth(s, now))
  {
    forall c, h | h in BankOf(ExpireBoth(s, now), c).active && h.spilled
      ensures h.register == ""
    {
      StillLiveMembers(BankOf(s, c).active, now);
      assert h in BankOf(s, c).active;
    }
  }

  lemma AddedIsClean(e: State, r: State, i: Interval, h: Held)
    requires Clean(e, i.start) && Unmarked(e) && h.interval == i && i.name !in e.allocation
    requires r.allocation == e.allocation[i.name := h] && Correct(r.allocation)
    requires BankOf(r, i.isFloat).active == BankOf(e, i.isFloat).active + [h] && (h.spilled ==> h.register == "")
    requires Balanced(BankOf(r, i.isFloat), Pool(i.isFloat)) && BankOf(r, !i.isFloat) == BankOf(e, !i.isFloat)
    ensures Clean(r, i.start) && Unmarked(r)
  {
    hide Balanced, Correct, Pool, Clean, Recorded, Accounted;
    CleanParts(e, i.start);
    BanksAreClean(e, r, i, h);
    AddedIsAccounted(e, r, i, h);
    assert forall n :: n in r.allocation ==> r.allocation[n].interval.start <= i.start;
    CleanFrom(r, i.start);
  }

  lemma CleanFrom(s: State, now: int)
    requires forall c :: Balanced(BankOf(s, c), Pool(c)) && Recorded(BankOf(s, c).active, s.allocation, c)
    requires Accounted(s, now) && Correct(s.allocation)
    requires forall n :: n in s.allocation ==> s.allocation[n].interval.start <= now
    ensures Clean(s, now)
  {
    hide Balanced, Recorded, Accounted, Correct, Pool;
  }

  lemma BanksAreClean(e: State, r: State, i: Interval, h: Held)
    requires forall c :: Balanced(BankOf(e, c), Pool(c)) && Recorded(BankOf(e, c).active, e.allocation, c)
    requires h.interval == i && i.name !in e.allocation && r.allocation == e.allocation[i.name := h]
    requires BankOf(r, i.isFloat).active == BankOf(e, i.isFloat).active + [h]
    requires Balanced(BankOf(r, i.isFloat), Pool(i.isFloat)) && BankOf(r, !i.isFloat) == BankOf(e, !i.isFloat)
    ensures forall c :: Balanced(BankOf(r, c), Pool(c)) && Recorded(BankOf(r, c).active, r.allocation, c)
  {
    hide Balanced, Pool;
    forall c
      ensures Balanced(BankOf(r, c), Pool(c)) && Recorded(BankOf(r, c).active, r.allocation, c)
    {
      assert Recorded(BankOf(e, c).active, e.allocation, c) && (c == i.isFloat || c == !i.isFloat);
    }
  }

  lemma AddedIsAccounted(e: State, r: State, i: Interval, h: Held)
    requires Accounted(e, i.start) && h.interval == i && r.allocation == e.allocation[i.name := h]
    requires BankOf(r, i.isFloat).active == BankOf(e, i.isFloat).active + [h]
    requires BankOf(r, !i.isFloat) == BankOf(e, !i.isFloat)
    ensures Accounted(r, i.start)
  {
    assert h in BankOf(r, i.isFloat).active;
  }

  function Names(intervals: seq<Interval>): set<string> {
    if intervals == [] then {} else Names(intervals[..|intervals| - 1]) + {intervals[|intervals| - 1].name}
  }

  lemma {:induction false} NamesMembers(intervals: seq<Interval>, x: string)
    ensures x in Names(intervals) <==> exists k :: 0 <= k < |intervals| && intervals[k].name == x
  {
    if intervals != [] {
      NamesMembers(intervals[..|intervals| - 1], x);
    }
  }

  lemma {:induction false} RecordedNames(intervals: seq<Interval>)
    ensures Scan(intervals).allocation.Keys == Names(intervals)
    decreases |intervals|
  {
    hide ExpireBoth, Place, Stocked, Usable;
    if intervals != [] {
      RecordedNames(intervals[..|intervals| - 1]);
      ProcessStocked(Scan(intervals[..|intervals| - 1]), intervals[|intervals| - 1]);
    }
  }

  lemma SmallerIsCorrect(a: map<string, Held>, x: string, h: Held)
    requires Correct(a[x := h]) && x !in a
    ensures Correct(a)
  {
    hide Clash, Pool;
    forall m, n | m in a && n in a && m != n
      ensures !Clash(a[m], a[n])
    {
      assert a[x := h][m] == a[m] && a[x := h][n] == a[n];
    }
    forall m | m in a && !a[m].spilled
      ensures a[m].register in Pool(a[m].interval.isFloat)
    {
      assert a[x := h][m] == a[m];
    }
  }

  lemma EmptyIsClean(s: State, now: int)
    requires s.allocation == map[] && forall c :: BankOf(s, c).active == [] && Balanced(BankOf(s, c), Pool(c))
    ensures Clean(s, now) && Unmarked(s)
  {
    hide Balanced, Pool, Clash;
  }

  lemma StartIsClean(now: int)
    ensures Clean(START, now) && Unmarked(START)
  {
    hide Clean, Unmarked, Balanced;
    forall c
      ensures BankOf(START, c).active == [] && Balanced(BankOf(START, c), Pool(c))
    {
      PoolIsBalanced(Pool(c));
    }
    EmptyIsClean(START, now);
  }

  lemma PoolIsBalanced(pool: seq<Register>)
    ensures Balanced(Bank(pool, []), pool)
  {
    FreshBankIsRoomy(pool, true);
  }

  lemma ProcessKeepsEvicted(s: State, i: Interval) returns (h: Held)
    requires Usable(ExpireBoth(s, i.start))
    ensures s.evicted ==> Process(s, i).evicted
    ensures Process(s, i).allocation == s.allocation[i.name := h]
  {
    hide Place, Expire;
    h := Process(s, i).allocation[i.name];
  }

  /** The recorded allocation is right exactly when no register was taken from an interval for another one. */
  lemma {:induction false} ScanIsCorrectExactly(intervals: seq<Interval>)
    requires SortedByStart(intervals) && Proper(intervals) && NamesDiffer(intervals)
    ensures var r := Scan(intervals);
            && (Correct(r.allocation) <==> !r.evicted)
            && (!r.evicted ==> Unmarked(r) && Clean(r, if intervals == [] then 0 else LastStart(intervals)))
    decreases |intervals|
  {
    hide Correct, Clean, Unmarked, Process, Stocked, Usable;
    if intervals == [] {
      StartIsClean(0);
      CleanParts(START, 0);
    } else {
      var front, i := intervals[..|intervals| - 1], intervals[|intervals| - 1];
      assert i in intervals && forall j :: j in front ==> j in intervals;
      FrontStarts(intervals);
      ScanIsCorrectExactly(front);
      var before := Scan(front);
      RecordedNames(front);
      NamesMembers(front, i.name);
      ProcessStocked(before, i);
      if before.evicted {
        var h := ProcessKeepsEvicted(before, i);
        if Correct(Process(before, i).allocation) {
          SmallerIsCorrect(before.allocation, i.name, h);
        }
      } else {
        StartIsClean(i.start);
        ProcessClean(before, i, if front == [] then i.start else LastStart(front));
        if !Process(before, i).evicted {
          CleanParts(Process(before, i), i.start);
        }
      }
    }
  }

  /** While the registers suffice the allocation is right. */
  lemma FittingScanIsCorrect(intervals: seq<Interval>)
    requires SortedByStart(intervals) && Proper(intervals) && NamesDiffer(intervals)
    requires forall point, c :: Covering(intervals, c, point) <= |Pool(c)|
    ensures var r := Scan(intervals);
            Correct(r.allocation) && forall x :: x in r.allocation ==> !r.allocation[x].spilled
  {
    hide Covering, Pool, Correct, Scan, Clean, Roomy;
    FittingScanSpillsNothing(intervals);
    ScanIsCorrectExactly(intervals);
  }
}
