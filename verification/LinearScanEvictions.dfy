/** When linear scan takes a register from an interval, and so gets the allocation wrong: a condition on the intervals. */
module LinearScanEvictions {
  import opened LinearScan

  /** The intervals of a class that get a register, as long as nothing is evicted: those that find one free. */
  function Holders(intervals: seq<Interval>, isFloat: bool): seq<Interval> {
    if intervals == [] then []
    else
      var front, i := intervals[..|intervals| - 1], intervals[|intervals| - 1];
      var holders := Holders(front, isFloat);
      if i.isFloat == isFloat && |EndingFrom(holders, i.start)| < |Pool(isFloat)| then holders + [i] else holders
  }

  /** The newcomer finds all registers of its class held, and no interval of the class that ends behind its own end. */
  predicate Crowds(front: seq<Interval>, i: Interval) {
    && |EndingFrom(Holders(front, i.isFloat), i.start)| >= |Pool(i.isFloat)|
    && forall j :: j in Unended(front, i.isFloat, i.start) ==> j.end <= i.end
  }

  predicate SomeCrowds(intervals: seq<Interval>) {
    && intervals != []
    && (SomeCrowds(intervals[..|intervals| - 1]) || Crowds(intervals[..|intervals| - 1], intervals[|intervals| - 1]))
  }

  /** The active intervals that have a register. */
  function Unspilled(active: seq<Held>): seq<Interval> {
    if active == [] then []
    else
      var h := active[|active| - 1];
      Unspilled(active[..|active| - 1]) + if h.spilled then [] else [h.interval]
  }

  lemma UnspilledAppend(active: seq<Held>, h: Held)
    ensures Unspilled(active + [h]) == Unspilled(active) + if h.spilled then [] else [h.interval]
  {
    assert (active + [h])[..|active|] == active;
  }

  lemma {:induction false} UnspilledCount(active: seq<Held>)
    ensures |Unspilled(active)| == |InUse(active)|
  {
    if active != [] {
      var front, h := active[..|active| - 1], active[|active| - 1];
      assert active == front + [h];
      UnspilledCount(front);
      InUseAppend(front, h);
    }
  }

  lemma FilterNothing(now: int)
    ensures StillLive([], now) == [] && Unspilled([]) == [] && EndingFrom([], now) == []
  {
  }

  lemma {:induction false} FilterUnspilled(active: seq<Held>, now: int)
    ensures Unspilled(StillLive(active, now)) == EndingFrom(Unspilled(active), now)
  {
    hide StillLive, EndingFrom, Unspilled;
    if active == [] {
      FilterNothing(now);
    } else {
      var front, h := active[..|active| - 1], active[|active| - 1];
      assert active == front + [h];
      var live, ending, mine := StillLive(front, now), EndingFrom(Unspilled(front), now), Unspilled(front);
      assert live + [] == live && ending + [] == ending && mine + [] == mine;
      FilterUnspilled(front, now);
      StillLiveFront(front, h, now);
      UnspilledAppend(front, h);
      UnspilledAppend(live, h);
      EndingFromAppend(mine, h.interval, now);
    }
  }

  lemma {:induction false} FilterTwice(intervals: seq<Interval>, before: int, now: int)
    requires before <= now
    ensures EndingFrom(EndingFrom(intervals, before), now) == EndingFrom(intervals, now)
  {
    if intervals != [] {
      var front, i := intervals[..|intervals| - 1], intervals[|intervals| - 1];
      FilterTwice(front, before, now);
      EndingFromAppend(EndingFrom(front, before), i, now);
      assert EndingFrom(front, before) + [] == EndingFrom(front, before);
    }
  }

  // ----- the banks up to the first eviction -----

  /** The active intervals are the unended ones, and those with a register the unended holders. */
  ghost predicate Mirrors(b: Bank, intervals: seq<Interval>, isFloat: bool, now: int) {
    && Balanced(b, Pool(isFloat))
    && Originals(b.active) == Unended(intervals, isFloat, now)
    && Unspilled(b.active) == EndingFrom(Holders(intervals, isFloat), now)
  }

  lemma ExpireMirrors(b: Bank, intervals: seq<Interval>, isFloat: bool, before: int, now: int)
    requires Mirrors(b, intervals, isFloat, before) && before <= now
    ensures Mirrors(Expire(b, now), intervals, isFloat, now)
  {
    ExpireBalances(b, Pool(isFloat), now);
    ExpireOriginals(b.active, intervals, isFloat, before, now);
    FilterUnspilled(b.active, now);
    FilterTwice(Holders(intervals, isFloat), before, now);
    hide Balanced, StillLive, Unended, Originals, Unspilled, EndingFrom, Holders, Pool;
  }

  lemma NoneFree(b: Bank, intervals: seq<Interval>, isFloat: bool, now: int)
    requires Mirrors(b, intervals, isFloat, now)
    ensures b.free == [] <==> |EndingFrom(Holders(intervals, isFloat), now)| >= |Pool(isFloat)|
  {
    hide Originals, Unended, Unspilled, EndingFrom, Holders, InUse, Pool;
    UnspilledCount(b.active);
    assert |multiset(b.free)| + |multiset(InUse(b.active))| == |multiset(Pool(isFloat))|;
  }

  lemma {:induction false} OriginalAt(active: seq<Held>, k: nat)
    requires k < |active|
    ensures |Originals(active)| == |active| && Originals(active)[k] == active[k].interval
  {
    OriginalsLength(active);
    if k < |active| - 1 {
      OriginalAt(active[..|active| - 1], k);
    } else {
      OriginalsLength(active[..|active| - 1]);
    }
  }

  lemma OriginalMembers(active: seq<Held>, end: int)
    ensures (forall j :: j in Originals(active) ==> j.end <= end) <==> (forall h :: h in active ==> h.interval.end <= end)
  {
    hide Originals;
    OriginalsLength(active);
    forall k | 0 <= k < |active|
      ensures Originals(active)[k] == active[k].interval
    {
      OriginalAt(active, k);
    }
    if forall j :: j in Originals(active) ==> j.end <= end {
      forall h | h in active
        ensures h.interval.end <= end
      {
        var k :| 0 <= k < |active| && active[k] == h;
        assert Originals(active)[k] in Originals(active);
      }
    }
  }

  lemma PlaceEvicts(b: Bank, i: Interval)
    requires b.free != [] || b.active != []
    ensures Place(b, i).evicted <==> b.free == [] && forall h :: h in b.active ==> h.interval.end <= i.end
  {
    if b.free == [] {
      assert b.active[Longest(b.active)] in b.active;
      hide Longest;
    }
  }

  /** Placing an interval evicts another one exactly when it crowds. */
  lemma PlaceEvictsExactly(b: Bank, intervals: seq<Interval>, i: Interval)
    requires Mirrors(b, intervals, i.isFloat, i.start) && (b.free != [] || b.active != [])
    ensures Place(b, i).evicted <==> Crowds(intervals, i)
  {
    hide Mirrors, Holders, EndingFrom, Pool, Place, Originals, Unended;
    NoneFree(b, intervals, i.isFloat, i.start);
    OriginalMembers(b.active, i.end);
    PlaceEvicts(b, i);
    MirroredOriginals(b, intervals, i.isFloat, i.start);
  }

  lemma MirroredOriginals(b: Bank, intervals: seq<Interval>, isFloat: bool, now: int)
    requires Mirrors(b, intervals, isFloat, now)
    ensures Balanced(b, Pool(isFloat)) && Originals(b.active) == Unended(intervals, isFloat, now)
    ensures Unspilled(b.active) == EndingFrom(Holders(intervals, isFloat), now)
  {
  }

  lemma PlaceAppends(b: Bank, i: Interval)
    requires (b.free != [] || b.active != []) && !Place(b, i).evicted
    ensures var p := Place(b, i);
            p.bank.active == b.active + [p.held] && p.held.interval == i && (p.held.spilled <==> b.free == [])
  {
    hide Longest;
  }

  lemma HoldersAppend(intervals: seq<Interval>, i: Interval, isFloat: bool)
    ensures var h := Holders(intervals, isFloat);
            Holders(intervals + [i], isFloat) ==
              if i.isFloat == isFloat && |EndingFrom(h, i.start)| < |Pool(isFloat)| then h + [i] else h
    ensures var u := Unended(intervals, isFloat, i.start);
            Unended(intervals + [i], isFloat, i.start) == u + if i.isFloat == isFloat && i.end >= i.start then [i] else []
  {
    assert (intervals + [i])[..|intervals|] == intervals;
    hide Pool, EndingFrom;
  }

  lemma PlaceMirrors(b: Bank, intervals: seq<Interval>, i: Interval)
    requires Mirrors(b, intervals, i.isFloat, i.start) && (b.free != [] || b.active != []) && !Place(b, i).evicted
    requires i.start <= i.end
    ensures Mirrors(Place(b, i).bank, intervals + [i], i.isFloat, i.start)
  {
    hide Place, Pool, Balanced, Originals, Unspilled, EndingFrom, Holders, Unended;
    var c, h := i.isFloat, Place(b, i).held;
    NoneFree(b, intervals, c, i.start);
    PlaceAppends(b, i);
    PlaceBalances(b, i, Pool(c));
    OriginalsAppend(b.active, h);
    UnspilledAppend(b.active, h);
    HoldersAppend(intervals, i, c);
    EndingFromAppend(Holders(intervals, c), i, i.start);
    assert Unspilled(b.active) + [] == Unspilled(b.active);
  }

  lemma OtherMirrors(b: Bank, intervals: seq<Interval>, i: Interval, isFloat: bool)
    requires Mirrors(b, intervals, isFloat, i.start) && i.isFloat != isFloat
    ensures Mirrors(b, intervals + [i], isFloat, i.start)
  {
    hide Balanced, Originals, Unspilled, EndingFrom, Pool, Holders, Unended;
    HoldersAppend(intervals, i, isFloat);
    assert Unended(intervals, isFloat, i.start) + [] == Unended(intervals, isFloat, i.start);
  }

  ghost predicate BothMirror(s: State, intervals: seq<Interval>, now: int) {
    forall c :: Mirrors(BankOf(s, c), intervals, c, now)
  }

  lemma StartMirrors(now: int)
    ensures BothMirror(START, [], now)
  {
    forall c
      ensures Mirrors(BankOf(START, c), [], c, now)
    {
      PoolIsBalanced(Pool(c));
    }
  }

  lemma ProcessMirrors(s: State, intervals: seq<Interval>, i: Interval, before: int)
    requires BothMirror(s, intervals, before) && before <= i.start <= i.end && Stocked(s.ints) && Stocked(s.floats)
    ensures Usable(ExpireBoth(s, i.start))
    ensures Process(s, i).evicted <==> s.evicted || Crowds(intervals, i)
    ensures !Crowds(intervals, i) ==> BothMirror(Process(s, i), intervals + [i], i.start)
  {
    hide Mirrors, Expire, Place, Stocked, Crowds;
    ProcessStocked(s, i);
    var e := ExpireBoth(s, i.start);
    forall c
      ensures Mirrors(BankOf(e, c), intervals, c, i.start)
    {
      ExpireMirrors(BankOf(s, c), intervals, c, before, i.start);
    }
    var b := BankOf(e, i.isFloat);
    PlaceEvictsExactly(b, intervals, i);
    if !Crowds(intervals, i) {
      PlaceMirrors(b, intervals, i);
      OtherMirrors(BankOf(e, !i.isFloat), intervals, i, !i.isFloat);
      var r := Process(s, i);
      forall c
        ensures Mirrors(BankOf(r, c), intervals + [i], c, i.start)
      {
        if c != i.isFloat {
          assert BankOf(r, c) == BankOf(e, c);
        }
      }
    }
  }

  /** A scan evicts exactly when some interval crowds. */
  lemma {:induction false} EvictsExactly(intervals: seq<Interval>)
    requires SortedByStart(intervals) && Proper(intervals)
    ensures var r := Scan(intervals);
            && (r.evicted <==> SomeCrowds(intervals))
            && (!r.evicted && intervals != [] ==> BothMirror(r, intervals, LastStart(intervals)))
    decreases |intervals|
  {
    hide Process, Stocked, Usable, Crowds, BothMirror;
    if intervals != [] {
      var front, i := intervals[..|intervals| - 1], intervals[|intervals| - 1];
      assert intervals == front + [i] && i in intervals && forall j :: j in front ==> j in intervals;
      FrontStarts(intervals);
      EvictsExactly(front);
      var before := Scan(front);
      ProcessStocked(before, i);
      if front == [] {
        StartMirrors(i.start);
        ProcessMirrors(before, front, i, i.start);
      } else if before.evicted {
        var h := ProcessKeepsEvicted(before, i);
      } else {
        ProcessMirrors(before, front, i, LastStart(front));
      }
    }
  }

  /** The recorded allocation is right exactly when no interval finds all registers of its class held by intervals that
    * began before it, and every unended interval of its class ending no later than itself.
    */
  lemma ScanIsRightExactly(intervals: seq<Interval>)
    requires SortedByStart(intervals) && Proper(intervals) && NamesDiffer(intervals)
    ensures Correct(Scan(intervals).allocation) <==> !SomeCrowds(intervals)
  {
    hide Correct, Scan, SomeCrowds, Clean, Unmarked, BothMirror;
    ScanIsCorrectExactly(intervals);
    EvictsExactly(intervals);
  }
}
