/** Which registers the linear scan gives out: X20 to X27 for integers and D8 to D15 for floating point. */
module LinearScanClasses {
  import opened Text
  import opened LinearScan
  import opened LinearScanAllocator

  /** The class of a register can be told from its name; an interval without one has the empty name. */
  predicate OfClass(r: Register, isFloat: bool) {
    r != "" ==> r[0] == if isFloat then 'D' else 'X'
  }

  ghost predicate Classed(b: Bank, isFloat: bool) {
    && (forall r :: r in b.free ==> OfClass(r, isFloat))
    && (forall h :: h in b.active ==> OfClass(h.register, isFloat))
  }

  function Numbered(letter: char, n: nat): Register {
    [letter] + NatText(n)
  }

  lemma TwoDigits(letter: char, n: nat)
    requires 8 <= n < 100
    ensures Numbered(letter, n) == if n < 10 then [letter, Digit(n)] else [letter, Digit(n / 10), Digit(n % 10)]
  {
    if n >= 10 {
      assert NatText(n) == NatText(n / 10) + [Digit(n % 10)] && NatText(n / 10) == [Digit(n / 10)];
    }
  }

  lemma PoolAt(i: nat)
    requires i < 8
    ensures |INT_POOL| == |FLOAT_POOL| == 8
    ensures INT_POOL[i] == Numbered('X', 20 + i) && FLOAT_POOL[i] == Numbered('D', 15 - i)
  {
    TwoDigits('X', 20 + i);
    TwoDigits('D', 15 - i);
    hide Numbered;
    assert i == 0 || i == 1 || i == 2 || i == 3 || i == 4 || i == 5 || i == 6 || i == 7;
  }

  lemma PoolHolds(pool: seq<Register>, letter: char, lo: nat, up: bool)
    requires |pool| == 8
    requires forall i :: 0 <= i < 8 ==> pool[i] == Numbered(letter, if up then lo + i else lo + 7 - i)
    ensures forall r :: r in pool <==> exists n: nat :: lo <= n <= lo + 7 && r == Numbered(letter, n)
  {
    hide Numbered;
    forall r | r in pool
      ensures exists n: nat :: lo <= n <= lo + 7 && r == Numbered(letter, n)
    {
      var i :| 0 <= i < 8 && pool[i] == r;
      assert r == Numbered(letter, if up then lo + i else lo + 7 - i);
    }
    forall n: nat | lo <= n <= lo + 7
      ensures Numbered(letter, n) in pool
    {
      assert pool[if up then n - lo else lo + 7 - n] == Numbered(letter, n);
    }
  }

  /** The registers of the pools, and that no other is in them. */
  lemma PoolsAre()
    ensures forall r :: r in Pool(false) <==> exists n: nat :: 20 <= n <= 27 && r == Numbered('X', n)
    ensures forall r :: r in Pool(true) <==> exists n: nat :: 8 <= n <= 15 && r == Numbered('D', n)
    ensures |Pool(false)| == 8 && |Pool(true)| == 8
  {
    hide Numbered;
    forall i | 0 <= i < 8
      ensures |INT_POOL| == |FLOAT_POOL| == 8
      ensures INT_POOL[i] == Numbered('X', 20 + i) && FLOAT_POOL[i] == Numbered('D', 8 + 7 - i)
    {
      PoolAt(i);
    }
    PoolAt(0);
    var ints, floats := Pool(false), Pool(true);
    assert ints == INT_POOL && floats == FLOAT_POOL;
    hide Pool;
    PoolHolds(ints, 'X', 20, true);
    PoolHolds(floats, 'D', 8, false);
  }

  lemma StartIsClassed()
    ensures Classed(START.ints, false) && Classed(START.floats, true)
  {
  }

  lemma {:induction false} GivenBackClassed(active: seq<Held>, now: int, isFloat: bool)
    requires forall h :: h in active ==> OfClass(h.register, isFloat)
    ensures forall r :: r in GivenBack(active, now) ==> OfClass(r, isFloat)
  {
    hide OfClass;
    if active != [] {
      GivenBackClassed(active[1..], now, isFloat);
    }
  }

  lemma ExpireClassed(b: Bank, now: int, isFloat: bool)
    requires Classed(b, isFloat)
    ensures Classed(Expire(b, now), isFloat)
  {
    hide OfClass, StillLive, GivenBack;
    GivenBackClassed(b.active, now, isFloat);
    StillLiveMembers(b.active, now);
  }

  lemma PlaceClassed(b: Bank, i: Interval, isFloat: bool)
    requires Classed(b, isFloat) && (b.free != [] || b.active != [])
    ensures Classed(Place(b, i).bank, isFloat) && OfClass(Place(b, i).held.register, isFloat)
  {
    hide Longest;
  }

  /** Whatever a scan records, evicted or not: integers get X registers and floating-point variables D registers. */
  lemma {:induction false} RegistersAreOfClass(intervals: seq<Interval>)
    ensures var s := Scan(intervals);
            && Classed(s.ints, false) && Classed(s.floats, true)
            && forall x :: x in s.allocation ==> OfClass(s.allocation[x].register, s.allocation[x].interval.isFloat)
    decreases |intervals|
  {
    if intervals == [] {
      StartIsClassed();
    } else {
      var i, before := intervals[|intervals| - 1], Scan(intervals[..|intervals| - 1]);
      ProcessStocked(before, i);
      hide Classed, OfClass, Place, Expire, Stocked;
      RegistersAreOfClass(intervals[..|intervals| - 1]);
      var e := ExpireBoth(before, i.start);
      ExpireClassed(before.ints, i.start, false);
      ExpireClassed(before.floats, i.start, true);
      PlaceClassed(BankOf(e, i.isFloat), i, i.isFloat);
      PlacedInterval(BankOf(e, i.isFloat), i);
    }
  }

  lemma PlacedInterval(b: Bank, i: Interval)
    requires b.free != [] || b.active != []
    ensures Place(b, i).held.interval == i
  {
    hide Longest;
  }

  /** The first variable of each class gets the register at the top of its pool. */
  lemma FirstRegisters(i: Interval)
    ensures Scan([i]).allocation == map[i.name := Held(i, false, if i.isFloat then "D8" else "X27")]
  {
    assert [i][..0] == [];
    assert Scan([]) == START;
    ProcessStocked(START, i);
    assert Scan([i]) == Process(START, i);
    assert GivenBack([], i.start) == [] && StillLive([], i.start) == [];
    assert INT_POOL + [] == INT_POOL && FLOAT_POOL + [] == FLOAT_POOL;
  }

  /** When a register has to be given up, it is that of the first of the intervals that end last. */
  lemma {:induction false} LongestIsFirst(active: seq<Held>, j: nat)
    requires active != [] && j < Longest(active)
    ensures active[j].interval.end < active[Longest(active)].interval.end
  {
    var n := |active| - 1;
    var k := Longest(active[..n]);
    if Longest(active) == k {
      LongestIsFirst(active[..n], j);
    }
  }

  /** Exactly the intervals whose names are not passed over take part. */
  lemma {:induction false} RelevantExactly(intervals: seq<Interval>, skipped: set<string>, i: Interval)
    ensures multiset(Relevant(intervals, skipped))[i] == if i.name in skipped then 0 else multiset(intervals)[i]
  {
    if intervals != [] {
      var n := |intervals| - 1;
      RelevantExactly(intervals[..n], skipped, i);
      assert intervals == intervals[..n] + [intervals[n]];
    }
  }

  /** They are scanned in their order. */
  lemma {:induction false} RelevantStaysSorted(intervals: seq<Interval>, skipped: set<string>)
    requires SortedByStart(intervals)
    ensures SortedByStart(Relevant(intervals, skipped))
    ensures intervals != [] ==> forall i :: i in Relevant(intervals, skipped) ==> i.start <= intervals[|intervals| - 1].start
  {
    if intervals != [] {
      var n := |intervals| - 1;
      RelevantStaysSorted(intervals[..n], skipped);
      assert n > 0 ==> intervals[n - 1].start <= intervals[n].start;
    }
  }
}
