/** Optimised code pauses in the same states as the original, for as long as it runs. */
module PeepholeMeaning {
  import opened Wrappers
  import opened PeepholePatterns
  import opened PeepholeMachine
  import opened PeepholeWindows
  import opened PeepholePass
  import opened PeepholeEnding

  /** Decoded instructions are code, and have the fields of their kind. */
  predicate Encoded(i: Instruction) {
    WellFormed(i) && (!i.opcode.Other? ==> i.segment.CODE? && !IsSpecial(i))
  }

  predicate AllEncoded(code: Code) {
    forall i :: i in code ==> Encoded(i)
  }

  // ----- codes that run alike -----

  /** The same pauses from the start and from every label. */
  ghost predicate Same(p: Code, q: Code, world: World) {
    && (forall m :: Stretch(p, m, world) == Stretch(q, m, world))
    && (forall l :: Behind(p, l).Some? == Behind(q, l).Some?)
    && (forall l, m :: Behind(p, l).Some? ==>
          Stretch(Behind(p, l).value, m, world) == Stretch(Behind(q, l).value, m, world))
  }

  lemma {:induction false} StretchOverKnown(w: Code, rest: Code, m: Machine, world: World)
    requires forall i :: i in w ==> Known(i)
    ensures Stretch(w + rest, m, world) == Stretch(rest, ExecuteAll(w, m), world)
  {
    hide Execute;
    if w == [] {
      assert w + rest == rest;
    } else {
      assert (w + rest)[1..] == w[1..] + rest && Known(w[0]);
      StretchOverKnown(w[1..], rest, Execute(w[0], m), world);
    }
  }

  lemma {:induction false} BehindOverKnown(w: Code, rest: Code, l: string)
    requires forall i :: i in w ==> Known(i)
    ensures Behind(w + rest, l) == Behind(rest, l)
  {
    if w == [] {
      assert w + rest == rest;
    } else {
      assert (w + rest)[1..] == w[1..] + rest && Known(w[0]);
      BehindOverKnown(w[1..], rest, l);
    }
  }

  lemma {:induction false} StretchWithin(a: Code, p: Code, q: Code, m: Machine, world: World)
    requires forall m :: Stretch(p, m, world) == Stretch(q, m, world)
    ensures Stretch(a + p, m, world) == Stretch(a + q, m, world)
  {
    hide Execute, Known;
    if a == [] {
      assert a + p == p && a + q == q;
    } else {
      assert (a + p)[1..] == a[1..] + p && (a + q)[1..] == a[1..] + q;
      StretchWithin(a[1..], p, q, m, world);
      StretchWithin(a[1..], p, q, Execute(a[0], m), world);
      StretchWithin(a[1..], p, q, world(a[0], m).m, world);
    }
  }

  /** What follows two codes that run alike makes no difference, and neither does what precedes them. */
  lemma {:induction false} SameWithin(a: Code, p: Code, q: Code, world: World)
    requires Same(p, q, world)
    ensures Same(a + p, a + q, world)
  {
    forall m
      ensures Stretch(a + p, m, world) == Stretch(a + q, m, world)
    {
      StretchWithin(a, p, q, m, world);
    }
    if a == [] {
      assert a + p == p && a + q == q;
    } else {
      assert (a + p)[1..] == a[1..] + p && (a + q)[1..] == a[1..] + q;
      SameWithin(a[1..], p, q, world);
      forall l
        ensures Behind(a + p, l).Some? == Behind(a + q, l).Some?
        ensures Behind(a + p, l).Some? ==> forall m ::
                  Stretch(Behind(a + p, l).value, m, world) == Stretch(Behind(a + q, l).value, m, world)
      {
        BehindWithin(a, p, q, l);
        hide Stretch;
      }
    }
  }

  lemma BehindWithin(a: Code, p: Code, q: Code, l: string)
    requires a != []
    ensures IsLabel(a[0]) && a[0].targetLabel == l ==> Behind(a + p, l) == Some(a[1..] + p) && Behind(a + q, l) == Some(a[1..] + q)
    ensures !(IsLabel(a[0]) && a[0].targetLabel == l) ==>
              Behind(a + p, l) == Behind(a[1..] + p, l) && Behind(a + q, l) == Behind(a[1..] + q, l)
  {
    assert (a + p)[1..] == a[1..] + p && (a + q)[1..] == a[1..] + q;
  }

  lemma SoundWindowKeeps(a: Code, w: Code, r: Code, b: Code, world: World)
    requires (forall i :: i in w ==> Known(i)) && (forall i :: i in r ==> Known(i))
    requires forall m :: ExecuteAll(w, m) == ExecuteAll(r, m)
    ensures Same(a + w + b, a + r + b, world)
  {
    forall m
      ensures Stretch(w + b, m, world) == Stretch(r + b, m, world)
    {
      StretchOverKnown(w, b, m, world);
      StretchOverKnown(r, b, m, world);
    }
    forall l
      ensures Behind(w + b, l) == Behind(r + b, l)
    {
      BehindOverKnown(w, b, l);
      BehindOverKnown(r, b, l);
    }
    SameWithin(a, w + b, r + b, world);
    assert a + w + b == a + (w + b) && a + r + b == a + (r + b);
  }

  // ----- one replacement -----

  lemma TransformEncoded(p: Pattern, w: Code)
    requires Matches(p, w) && AllEncoded(w)
    ensures AllEncoded(Transform(p, w))
    ensures !RefersToLabel(w) && Transform(p, w) != w ==>
              (forall i :: i in w ==> Known(i)) && (forall i :: i in Transform(p, w) ==> Known(i))
  {
    var r := Transform(p, w);
    if |w| == 1 {
      assert w[0] in w;
    } else {
      assert w[0] in w && w[1] in w;
      assert w == [w[0], w[1]];
    }
  }

  lemma RewriteKeeps(code: Code, pos: nat, p: Pattern, world: World)
    requires AllEncoded(code) && pos < |code| && Applies(p, code, pos)
    requires Good(p, Window(code, pos, p)) && Rewrite(code, pos, p) != code
    ensures Same(code, Rewrite(code, pos, p), world) && AllEncoded(Rewrite(code, pos, p))
  {
    var w, a, b := Window(code, pos, p), code[..pos], code[pos + Length(p)..];
    RewriteParts(code, pos, p);
    assert AllEncoded(w);
    assert forall i :: i in w ==> Encoded(i) && WellFormed(i);
    hide Encoded, WellFormed, Window, Good, RefersToLabel;
    TransformEncoded(p, w);
    assert Transform(p, w) != w;
    forall m
      ensures ExecuteAll(w, m) == ExecuteAll(Transform(p, w), m)
    {
      GoodIsSound(p, w, m);
    }
    SoundWindowKeeps(a, w, Transform(p, w), b, world);
  }

  // ----- whole passes -----

  /** Every replacement of the pass meets the condition for a sound window. */
  predicate GoodFrom(code: Code, pos: nat)
    decreases Weight(code), |code| - pos
  {
    pos < |code| ==>
      var p := Chosen(code, pos);
      if p.None? then GoodFrom(code, pos + 1)
      else
        RewriteLightens(code, pos, p.value);
        && Good(p.value, Window(code, pos, p.value))
        && (Rewrite(code, pos, p.value) != code ==> GoodFrom(Rewrite(code, pos, p.value), pos))
  }

  predicate GoodPasses(code: Code, maxPasses: nat)
    decreases maxPasses
  {
    maxPasses > 0 ==>
      && GoodFrom(code, 0)
      && (PassFrom(code, 0).Finished? && PassFrom(code, 0).applied > 0 ==>
            GoodPasses(PassFrom(code, 0).code, maxPasses - 1))
  }

  lemma SameTransitive(p: Code, q: Code, r: Code, world: World)
    requires Same(p, q, world) && Same(q, r, world)
    ensures Same(p, r, world)
  {
  }

  lemma {:induction false} PassKeeps(code: Code, pos: nat, world: World)
    requires AllEncoded(code) && GoodFrom(code, pos) && PassFrom(code, pos).Finished?
    ensures Same(code, PassFrom(code, pos).code, world) && AllEncoded(PassFrom(code, pos).code)
    decreases Weight(code), |code| - pos
  {
    hide Same, AllEncoded, Rewrite, Chosen, Weight, Good;
    if pos >= |code| {
      SameReflexive(code, world);
    } else {
      var p := Chosen(code, pos);
      if p.None? {
        PassKeeps(code, pos + 1, world);
      } else {
        var next := Rewrite(code, pos, p.value);
        RewriteLightens(code, pos, p.value);
        RewriteKeeps(code, pos, p.value, world);
        PassKeeps(next, pos, world);
        SameTransitive(code, next, PassFrom(next, pos).code, world);
      }
    }
  }

  lemma SameReflexive(code: Code, world: World)
    ensures Same(code, code, world)
  {
  }

  lemma {:induction false} PassesKeep(code: Code, maxPasses: nat, world: World)
    requires AllEncoded(code) && GoodPasses(code, maxPasses) && Optimize(code, maxPasses).Finished?
    ensures Same(code, Optimize(code, maxPasses).code, world)
    decreases maxPasses
  {
    hide Same, AllEncoded, PassFrom, GoodFrom;
    if maxPasses == 0 {
      SameReflexive(code, world);
    } else {
      PassKeeps(code, 0, world);
      var r := PassFrom(code, 0);
      if r.applied > 0 {
        PassesKeep(r.code, maxPasses - 1, world);
        SameTransitive(code, r.code, Optimize(r.code, maxPasses - 1).code, world);
      }
    }
  }

  lemma {:induction false} SamePauses(p: Code, q: Code, m: Machine, n: nat, world: World)
    requires Same(p, q, world)
    ensures PauseAt(p, m, n, world) == PauseAt(q, m, n, world)
    decreases n
  {
    if n > 0 {
      SamePauses(p, q, m, n - 1, world);
    }
  }

  /** If every replacement meets its condition, the optimised code reaches the same labels in the same order with
    * the same registers and memory as the original, and ends, halts or goes on alike.
    */
  lemma OptimizeKeepsPauses(code: Code, maxPasses: nat, m: Machine, n: nat, world: World)
    requires AllEncoded(code) && GoodPasses(code, maxPasses) && Settles(code, maxPasses)
    ensures var r := Optimize(code, maxPasses);
            r.Finished? && PauseAt(r.code, m, n, world) == PauseAt(code, m, n, world)
  {
    hide Optimize, GoodPasses, Settles, PauseAt;
    OptimizeEndsExactly(code, maxPasses);
    PassesKeep(code, maxPasses, world);
    SamePauses(code, Optimize(code, maxPasses).code, m, n, world);
  }

  // ----- code whose every window is rewritten correctly -----

  predicate GoodAlone(a: Instruction) {
    forall p :: Length(p) == 1 && MatchesOne(p, a) ==> Good(p, [a])
  }

  predicate GoodPair(a: Instruction, b: Instruction) {
    forall p :: Length(p) == 2 && MatchesTwo(p, a, b) ==> Good(p, [a, b])
  }

  /** Whichever instructions of the code come to stand together, the patterns are right about them. */
  predicate GoodCode(code: Code) {
    code != [] ==> GoodAlone(code[0]) && (forall b :: b in code[1..] ==> GoodPair(code[0], b)) && GoodCode(code[1..])
  }

  lemma CreatedIsGood(c: Instruction, a: Instruction)
    requires Created(c)
    ensures GoodAlone(c) && GoodPair(c, a) && GoodPair(a, c)
  {
  }

  lemma GoodTail(code: Code, c: Instruction)
    requires Created(c) && GoodCode(code)
    ensures GoodCode([c] + code)
  {
    hide GoodAlone, GoodPair;
    CreatedIsGood(c, c);
    assert ([c] + code)[1..] == code;
    forall b | b in code
      ensures GoodPair(c, b)
    {
      CreatedIsGood(c, b);
    }
  }

  lemma NextIsGood(code: Code, p: Pattern)
    requires GoodCode(code) && code != [] && Tried(code[0]) && Applies(p, code, 0) && Rewrite(code, 0, p) != code
    ensures Good(p, Window(code, 0, p)) && GoodCode(Rewrite(code, 0, p))
  {
    var next := Rewrite(code, 0, p);
    NextForm(code, p);
    WindowIsGood(code, p);
    hide Rewrite, Applies, Window, GoodAlone, GoodPair, Vanishes, Created, Leads, Reduces, Good, MatchesTwo;
    if Replaces(code, next) {
      assert next == [next[0]] + code[1..];
      GoodTail(code[1..], next[0]);
    } else if Merges(code, next) {
      assert next == [next[0]] + code[2..] && code[2..] == code[1..][1..];
      GoodTail(code[2..], next[0]);
    } else if Reuses(code, next) {
      var tail := [next[1]] + code[2..];
      assert next == [code[0]] + tail && code[2..] == code[1..][1..] && next[1..] == tail;
      GoodTail(code[2..], next[1]);
      CreatedIsGood(next[1], code[0]);
      assert forall b :: b in code[2..] ==> b in code[1..];
    }
  }

  lemma WindowIsGood(code: Code, p: Pattern)
    requires GoodCode(code) && code != [] && Applies(p, code, 0)
    ensures Good(p, Window(code, 0, p))
  {
    hide Good, RefersToLabel;
    var w := Window(code, 0, p);
    if Length(p) == 1 {
      assert w == [code[0]];
    } else {
      assert w == [code[0], code[1]] && code[1] in code[1..];
      assert GoodPair(code[0], code[1]);
    }
  }

  /** What is left behind was there before, or has been put in. */
  lemma {:induction false} PassLeaves(code: Code, b: Instruction)
    requires Pass(code).Finished? && b in Pass(code).code
    ensures b in code || Created(b)
    decreases Weight(code), |code|
  {
    hide Weight, Applies, FirstPattern, Created, Rewrite;
    if code != [] {
      var p := Chosen(code, 0);
      if p.None? {
        LighterTail(code);
        if b != code[0] {
          PassLeaves(code[1..], b);
        }
      } else {
        var next := Rewrite(code, 0, p.value);
        RewriteLightens(code, 0, p.value);
        assert [] + Pass(next).code == Pass(next).code;
        PassLeaves(next, b);
        NextForm(code, p.value);
        hide Vanishes, Leads, Reduces, MatchesTwo;
        if b in next {
          NextHolds(code, next, b);
        }
      }
    }
  }

  lemma NextHolds(code: Code, next: Code, b: Instruction)
    requires code != [] && (Drops(code, next) || Replaces(code, next) || Merges(code, next) || Reuses(code, next))
    requires b in next
    ensures b in code || Created(b)
  {
    hide Created, Vanishes, Leads, Reduces, MatchesTwo;
    if Replaces(code, next) {
      assert next == [next[0]] + code[1..];
    } else if Merges(code, next) {
      assert next == [next[0]] + code[2..];
    } else if Reuses(code, next) {
      assert next == [code[0], next[1]] + code[2..];
    }
  }

  lemma {:induction false} GoodPass(code: Code)
    requires GoodCode(code) && Pass(code).Finished?
    ensures GoodCode(Pass(code).code)
    decreases Weight(code), |code|
  {
    hide Weight, Applies, FirstPattern, GoodAlone, GoodPair, Rewrite;
    if code != [] {
      var p := Chosen(code, 0);
      if p.None? {
        LighterTail(code);
        GoodPass(code[1..]);
        var a, r := code[0], Pass(code[1..]).code;
        assert ([a] + r)[1..] == r;
        forall b | b in r
          ensures GoodPair(a, b)
        {
          PassLeaves(code[1..], b);
          if Created(b) {
            CreatedIsGood(b, a);
          }
        }
      } else {
        RewriteLightens(code, 0, p.value);
        NextIsGood(code, p.value);
        var next := Rewrite(code, 0, p.value);
        GoodPass(next);
        assert [] + Pass(next).code == Pass(next).code;
      }
    }
  }

  lemma {:induction false} GoodFromHere(done: Code, code: Code)
    requires GoodCode(code)
    ensures GoodFrom(done + code, |done|)
    decreases Weight(code), |code|
  {
    hide Weight, Rewrite, Applies, FirstPattern, Good, Window, GoodAlone, GoodPair;
    if code != [] {
      SamePatterns(done, code, 0);
      assert (done + code)[|done|] == code[0];
      var p := Chosen(code, 0);
      if p.None? {
        LighterTail(code);
        GoodFromHere(done + [code[0]], code[1..]);
        assert done + [code[0]] + code[1..] == done + code;
      } else {
        SameRewrite(done, code, p.value);
        SameWindow(done, code, p.value);
        var next := Rewrite(code, 0, p.value);
        SameFront(done, next, code);
        WindowIsGood(code, p.value);
        if next != code {
          RewriteLightens(code, 0, p.value);
          NextIsGood(code, p.value);
          GoodFromHere(done, next);
        }
      }
    }
  }

  lemma {:induction false} GoodCodePasses(code: Code, maxPasses: nat)
    requires GoodCode(code)
    ensures GoodPasses(code, maxPasses)
    decreases maxPasses
  {
    hide PassFrom, Pass, GoodFrom, GoodCode;
    if maxPasses > 0 {
      GoodFromHere([], code);
      assert [] + code == code;
      PassIsPassFrom(code);
      var r := Pass(code);
      if r.Finished? && r.applied > 0 {
        GoodPass(code);
        GoodCodePasses(r.code, maxPasses - 1);
      }
    }
  }

  /** Two conditions on the code alone: it settles, and whichever of its instructions come to stand together, the
    * patterns are right about them. Then the optimiser ends, and the optimised code reaches the same labels in the same
    * order with the same registers and memory, and ends, halts or goes on alike.
    */
  lemma GoodCodeKeepsPauses(code: Code, maxPasses: nat, m: Machine, n: nat, world: World)
    requires AllEncoded(code) && GoodCode(code) && Settles(code, maxPasses)
    ensures var r := Optimize(code, maxPasses);
            r.Finished? && PauseAt(r.code, m, n, world) == PauseAt(code, m, n, world)
  {
    hide Optimize, PauseAt, GoodCode, Settles, GoodPasses;
    GoodCodePasses(code, maxPasses);
    OptimizeKeepsPauses(code, maxPasses, m, n, world);
  }

  /** The instruction works on whole registers and words, at a constant distance from a base. */
  predicate Uniform(i: Instruction) {
    i.wide && !Indexed(i)
  }

  lemma {:induction false} UniformIsGood(code: Code)
    requires forall i :: i in code ==> Uniform(i)
    ensures GoodCode(code)
  {
    if code != [] {
      UniformIsGood(code[1..]);
      assert code[0] in code && forall b :: b in code[1..] ==> b in code && Uniform(b);
    }
  }

  /** Code that works on whole registers and words without index needs no other condition than that it settles. */
  lemma UniformCodeKeepsPauses(code: Code, maxPasses: nat, m: Machine, n: nat, world: World)
    requires AllEncoded(code) && (forall i :: i in code ==> Uniform(i)) && Settles(code, maxPasses)
    ensures var r := Optimize(code, maxPasses);
            r.Finished? && PauseAt(r.code, m, n, world) == PauseAt(code, m, n, world)
  {
    UniformIsGood(code);
    GoodCodeKeepsPauses(code, maxPasses, m, n, world);
  }
}
