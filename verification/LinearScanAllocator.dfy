/** The linear-scan allocator as it works, updating its lists in place. */
module LinearScanAllocator {
  import opened LinearScan

  /** The intervals that take part: runtime routines and globals are passed over. */
  function Relevant(intervals: seq<Interval>, skipped: set<string>): (r: seq<Interval>) {
    if intervals == [] then []
    else
      var i := intervals[|intervals| - 1];
      Relevant(intervals[..|intervals| - 1], skipped) + if i.name in skipped then [] else [i]
  }

  class Allocator {
    var activeInts: seq<Held>
    var activeFloats: seq<Held>
    var freeInts: seq<Register>
    var freeFloats: seq<Register>
    var allocation: map<string, Held>
    /** An interval has lost its register to another one. */
    ghost var evicted: bool

    constructor ()
      ensures View() == START
    {
      activeInts, activeFloats := [], [];
      freeInts, freeFloats := INT_POOL, FLOAT_POOL;
      allocation, evicted := map[], false;
    }

    ghost function View(): State
      reads this
    {
      State(Bank(freeInts, activeInts), Bank(freeFloats, activeFloats), allocation, evicted)
    }

    /** Takes the intervals that ended before `now` off a list and their registers back. */
    static method ExpireIntervals(active: seq<Held>, free: seq<Register>, now: int)
      returns (stillActive: seq<Held>, nowFree: seq<Register>)
      ensures Bank(nowFree, stillActive) == Expire(Bank(free, active), now)
    {
      hide StillLive, GivenBack;
      stillActive, nowFree := [], free;
      ExpireAtStart(active, free, now);
      var k := 0;
      while k < |active|
        invariant k <= |active|
        invariant stillActive + StillLive(active[k..], now) == StillLive(active, now)
        invariant nowFree + GivenBack(active[k..], now) == free + GivenBack(active, now)
      {
        var h := active[k];
        ExpireNext(active, k, now);
        ghost var live, back := StillLive(active[k + 1..], now), GivenBack(active[k + 1..], now);
        assert stillActive + ([h] + live) == stillActive + [h] + live;
        assert nowFree + ([h.register] + back) == nowFree + [h.register] + back;
        if h.interval.end < now {
          if !h.spilled {
            nowFree := nowFree + [h.register];
          }
        } else {
          stillActive := stillActive + [h];
        }
        k := k + 1;
      }
      ExpireAtEnd(active, now);
    }

    /** The first of the intervals that live longest. */
    static method FindLongest(active: seq<Held>) returns (k: nat)
      requires active != []
      ensures k == Longest(active)
    {
      k := 0;
      var n := 1;
      while n < |active|
        invariant 1 <= n <= |active| && k < n && k == Longest(active[..n])
      {
        assert active[..n + 1][..n] == active[..n];
        if active[k].interval.end < active[n].interval.end {
          k := n;
        }
        n := n + 1;
      }
      assert active[..n] == active;
    }

    /** A register for an interval, spilling another one or the interval itself if none is free. */
    method Choose(active: seq<Held>, free: seq<Register>, i: Interval)
      returns (nowActive: seq<Held>, nowFree: seq<Register>, held: Held)
      requires free != [] || active != []
      modifies this`evicted
      ensures var p := Place(Bank(free, active), i);
              && p.bank == Bank(nowFree, nowActive) && held == p.held && evicted == (old(evicted) || p.evicted)
    {
      if free == [] {
        var k := FindLongest(active);
        if active[k].interval.end > i.end {
          held := Held(i, true, "");
          nowActive := active + [held];
        } else {
          held := Held(i, false, active[k].register);
          nowActive := active[k := active[k].(spilled := true)] + [held];
          evicted := true;
        }
        nowFree := [];
      } else {
        held := Held(i, false, free[|free| - 1]);
        nowFree := free[..|free| - 1];
        nowActive := active + [held];
      }
    }

    method AllocateOne(i: Interval)
      requires Stocked(View().ints) && Stocked(View().floats)
      modifies this
      ensures Usable(ExpireBoth(old(View()), i.start)) && View() == Process(old(View()), i)
    {
      hide Stocked, Place, Expire;
      ProcessStocked(View(), i);
      activeInts, freeInts := ExpireIntervals(activeInts, freeInts, i.start);
      activeFloats, freeFloats := ExpireIntervals(activeFloats, freeFloats, i.start);
      var held: Held;
      if i.isFloat {
        activeFloats, freeFloats, held := Choose(activeFloats, freeFloats, i);
      } else {
        activeInts, freeInts, held := Choose(activeInts, freeInts, i);
      }
      allocation := allocation[i.name := held];
    }

    /** The scan over all intervals, which have been sorted by their starts. */
    method PerformLinearScan(sorted: seq<Interval>, skipped: set<string>)
      requires View() == START
      modifies this
      ensures View() == Scan(Relevant(sorted, skipped))
    {
      hide Scan, Relevant, Process, Stocked, Usable;
      ScanStarts(skipped);
      var k := 0;
      while k < |sorted|
        invariant k <= |sorted| && View() == Scan(Relevant(sorted[..k], skipped))
      {
        ScanGoesOn(sorted, k, skipped);
        if sorted[k].name !in skipped {
          AllocateOne(sorted[k]);
        }
        k := k + 1;
      }
      assert sorted[..k] == sorted;
    }
  }

  lemma ScanStarts(skipped: set<string>)
    ensures Scan(Relevant([], skipped)) == START
  {
  }

  lemma ScanGoesOn(sorted: seq<Interval>, k: nat, skipped: set<string>)
    requires k < |sorted|
    ensures var before, i := Scan(Relevant(sorted[..k], skipped)), sorted[k];
            && Usable(ExpireBoth(before, i.start))
            && Scan(Relevant(sorted[..k + 1], skipped)) == if i.name in skipped then before else Process(before, i)
  {
    ProcessStocked(Scan(Relevant(sorted[..k], skipped)), sorted[k]);
    hide Process, Stocked;
    var front := Relevant(sorted[..k], skipped);
    assert sorted[..k + 1][..k] == sorted[..k];
    if sorted[k].name in skipped {
      assert front + [] == front;
    } else {
      assert (front + [sorted[k]])[..|front|] == front;
    }
  }

  lemma ExpireAtStart(active: seq<Held>, free: seq<Register>, now: int)
    ensures [] + StillLive(active[0..], now) == StillLive(active, now)
    ensures free + GivenBack(active[0..], now) == free + GivenBack(active, now)
  {
    assert active[0..] == active;
  }

  lemma ExpireNext(active: seq<Held>, k: nat, now: int)
    requires k < |active|
    ensures var h, live, back := active[k], StillLive(active[k + 1..], now), GivenBack(active[k + 1..], now);
            && StillLive(active[k..], now) == (if Expired(h, now) then live else [h] + live)
            && GivenBack(active[k..], now) == (if Expired(h, now) && !h.spilled then [h.register] + back else back)
  {
    assert active[k..][1..] == active[k + 1..];
  }

  lemma ExpireAtEnd(active: seq<Held>, now: int)
    ensures StillLive(active[|active|..], now) == [] && GivenBack(active[|active|..], now) == []
  {
  }
}
