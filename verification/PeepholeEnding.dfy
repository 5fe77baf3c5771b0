/** When the peephole optimiser ends, read off the code it is given. */
module PeepholeEnding {
  import opened Wrappers
  import opened PeepholePatterns
  import opened PeepholePass

  // ----- windows that are handed back -----

  /** The transformer of the pattern that matches gives back both instructions. */
  predicate Sticks(a: Instruction, b: Instruction) {
    || (MatchesTwo(LoadAfterStore, a, b) && SameRegister(a.srcReg1, b.destReg))
    || MatchesTwo(AdrFusion, a, b)
    || (MatchesTwo(ConstantFolding, a, b) && !(0 <= a.immediate + b.immediate <= 65535))
  }

  lemma HandedBackExactly(p: Pattern, w: Code)
    requires Matches(p, w)
    ensures Transform(p, w) == w <==> |w| == 2 && Sticks(w[0], w[1])
  {
    if |w| == 1 {
      assert w == [w[0]];
    } else {
      assert w == [w[0], w[1]];
    }
  }

  /** An instruction the pass tries patterns on. */
  predicate Tried(i: Instruction) {
    i.segment.CODE? && !IsSpecial(i)
  }

  /** The pass, once at the first of two neighbours, never leaves it. */
  predicate Stuck(a: Instruction, b: Instruction) {
    Tried(a) && a.targetLabel == "" && b.targetLabel == "" && Sticks(a, b)
  }

  predicate HasStuckPair(code: Code) {
    |code| >= 2 && (Stuck(code[0], code[1]) || HasStuckPair(code[1..]))
  }

  lemma {:induction false} HasStuckPairExactly(code: Code)
    ensures HasStuckPair(code) <==> exists k :: 0 < k < |code| && Stuck(code[k - 1], code[k])
  {
    hide Stuck;
    if |code| >= 2 {
      var rest := code[1..];
      HasStuckPairExactly(rest);
      if HasStuckPair(rest) {
        var k :| 0 < k < |rest| && Stuck(rest[k - 1], rest[k]);
        assert Stuck(code[k], code[k + 1]) && code[k + 1 - 1] == code[k];
      }
      if k :| 0 < k < |code| && Stuck(code[k - 1], code[k]) {
        if k > 1 {
          assert Stuck(rest[k - 2], rest[k - 1]) && rest[k - 1 - 1] == rest[k - 2];
        } else {
          assert Stuck(code[0], code[1]);
        }
      }
    }
  }

  // ----- one pass, as a function of the code still to come -----

  function Before(done: Code, applied: nat, r: PassResult): PassResult {
    if r.Endless? then Endless else Finished(done + r.code, applied + r.applied)
  }

  function Pass(code: Code): PassResult
    decreases Weight(code), |code|
  {
    if code == [] then Finished([], 0)
    else
      var p := Chosen(code, 0);
      if p.None? then
        LighterTail(code);
        Before([code[0]], 0, Pass(code[1..]))
      else
        var next := Rewrite(code, 0, p.value);
        if next == code then Endless
        else
          RewriteLightens(code, 0, p.value);
          Before([], 1, Pass(next))
  }

  lemma LighterTail(code: Code)
    requires code != []
    ensures Weight(code[1..]) <= Weight(code)
  {
  }

  lemma {:induction false} SamePatterns(done: Code, code: Code, n: nat)
    requires code != []
    ensures FirstPattern(done + code, |done|, n) == FirstPattern(code, 0, n)
    decreases |PATTERNS| - n
  {
    hide Matches;
    if n < |PATTERNS| {
      SameWindow(done, code, PATTERNS[n]);
      SamePatterns(done, code, n + 1);
    }
  }

  lemma SameWindow(done: Code, code: Code, p: Pattern)
    requires code != []
    ensures Window(done + code, |done|, p) == Window(code, 0, p)
  {
  }

  lemma SameRewrite(done: Code, code: Code, p: Pattern)
    requires code != [] && Applies(p, code, 0)
    ensures Applies(p, done + code, |done|) && Rewrite(done + code, |done|, p) == done + Rewrite(code, 0, p)
  {
    hide Matches, Transform, RefersToLabel, Window;
    SameWindow(done, code, p);
    RewriteParts(code, 0, p);
    var w, rest := Window(code, 0, p), code[Length(p)..];
    Cut(done, code, Length(p));
    Reassociate(done, Transform(p, w), rest);
    assert code[..0] + Transform(p, w) == Transform(p, w);
  }

  lemma Cut(a: Code, b: Code, n: nat)
    requires n <= |b|
    ensures (a + b)[..|a|] == a && (a + b)[|a| + n..] == b[n..]
  {
  }

  lemma Reassociate(a: Code, b: Code, c: Code)
    ensures a + (b + c) == a + b + c
  {
  }

  /** A pass never looks back: what it makes of the rest does not depend on what it has left behind. */
  lemma {:induction false} PassIsLocal(done: Code, code: Code)
    ensures PassFrom(done + code, |done|) == Before(done, 0, Pass(code))
    decreases Weight(code), |code|
  {
    hide Weight, Rewrite, Applies, FirstPattern;
    if code != [] {
      SamePatterns(done, code, 0);
      assert (done + code)[|done|] == code[0];
      var p := Chosen(code, 0);
      if p.None? {
        LighterTail(code);
        PassIsLocal(done + [code[0]], code[1..]);
        assert done + [code[0]] + code[1..] == done + code;
        if Pass(code[1..]).Finished? {
          Reassociate(done, [code[0]], Pass(code[1..]).code);
        }
      } else {
        SameRewrite(done, code, p.value);
        var next := Rewrite(code, 0, p.value);
        SameFront(done, next, code);
        if next != code {
          RewriteLightens(code, 0, p.value);
          PassIsLocal(done, next);
          if Pass(next).Finished? {
            assert [] + Pass(next).code == Pass(next).code;
          }
        }
      }
    }
  }

  lemma SameFront(done: Code, x: Code, y: Code)
    ensures done + x == done + y <==> x == y
  {
    assert (done + x)[|done|..] == x && (done + y)[|done|..] == y;
  }

  lemma PassIsPassFrom(code: Code)
    ensures PassFrom(code, 0) == Pass(code)
  {
    hide PassFrom, Pass;
    PassIsLocal([], code);
    assert [] + code == code;
    if Pass(code).Finished? {
      assert [] + Pass(code).code == Pass(code).code;
    }
  }

  // ----- what a replacement can look like -----

  /** What the patterns put in: it is neither the first nor the second of a stuck pair. */
  predicate Created(c: Instruction) {
    && Tried(c) && c.targetLabel == "" && c.wide
    && ((c.opcode.MOV? && !c.usesImmediate) || c.opcode.MOVZ? || (c.opcode.ADD? && !c.usesImmediate))
  }

  /** Passes take the instruction away, whatever stands around it, unless it is folded. */
  predicate Vanishes(i: Instruction) {
    && Tried(i) && i.targetLabel == ""
    && (MatchesOne(SelfMove, i)
        || (MatchesOne(IdentityOperation, i) && i.usesImmediate && SameRegister(i.destReg, i.srcReg1)))
  }

  /** The pass replaces the instruction by a move. */
  predicate Reduces(i: Instruction) {
    Tried(i) && i.targetLabel == "" && MatchesOne(IdentityOperation, i)
  }

  /** It can be the first, or the second, of a stuck pair. */
  predicate Leads(i: Instruction) {
    i.opcode.STR? || i.opcode.ADRP? || (i.opcode.MOV? && i.usesImmediate)
  }

  predicate Follows(i: Instruction) {
    i.opcode.LDR? || (i.opcode.ADD? && i.usesImmediate)
  }

  lemma StuckParts(a: Instruction, b: Instruction)
    requires Stuck(a, b)
    ensures Leads(a) && Follows(b) && !Created(a) && !Created(b)
  {
  }

  /** Dropping the first instruction: a vanishing one, or a store before another one. */
  predicate Drops(code: Code, next: Code)
    requires code != []
  {
    && next == code[1..]
    && (Vanishes(code[0]) || (|code| >= 2 && code[0].opcode.STR? && code[1].opcode.STR?))
  }

  /** Another instruction in place of the first one. */
  predicate Replaces(code: Code, next: Code)
    requires code != []
  {
    && next != [] && Created(next[0]) && next[1..] == code[1..]
    && !Leads(code[0]) && (Vanishes(next[0]) <==> Vanishes(code[0]))
    && (Follows(code[0]) ==> Reduces(code[0]))
  }

  /** One instruction in place of a constant and an addition. */
  predicate Merges(code: Code, next: Code)
    requires code != []
  {
    && |code| >= 2 && next != [] && Created(next[0]) && !Vanishes(next[0]) && next[1..] == code[2..]
    && MatchesTwo(ConstantFolding, code[0], code[1])
  }

  /** A move in place of a load that follows a store or a load. */
  predicate Reuses(code: Code, next: Code)
    requires code != []
  {
    && |code| >= 2 && |next| >= 2 && next[0] == code[0] && Created(next[1]) && next[2..] == code[2..]
    && code[1].opcode.LDR? && (code[0].opcode.LDR? || (code[0].opcode.STR? && !Vanishes(next[1])))
  }

  lemma NextForm(code: Code, p: Pattern)
    requires code != [] && Tried(code[0]) && Applies(p, code, 0) && Rewrite(code, 0, p) != code
    ensures var next := Rewrite(code, 0, p);
            Drops(code, next) || Replaces(code, next) || Merges(code, next) || Reuses(code, next)
  {
    var w, next := Window(code, 0, p), Rewrite(code, 0, p);
    RewriteParts(code, 0, p);
    HandedBackExactly(p, w);
    assert code[..0] == [] && code == w + code[Length(p)..];
    assert next == Transform(p, w) + code[Length(p)..];
    assert Transform(p, w) != w;
    assert code[0].targetLabel == "" && (|w| == 2 ==> code[1].targetLabel == "") by {
      hide Matches, Transform;
      assert w[0].targetLabel == "";
      if |w| == 2 {
        assert w[1].targetLabel == "";
      }
    }
    hide RefersToLabel, Sticks;
    if |w| == 1 {
      OneForm(code, p, next);
    } else {
      TwoForm(code, p, next);
    }
  }

  lemma OneForm(code: Code, p: Pattern, next: Code)
    requires code != [] && Length(p) == 1 && MatchesOne(p, code[0]) && Tried(code[0]) && code[0].targetLabel == ""
    requires next == TransformOne(p, code[0]) + code[1..]
    ensures Drops(code, next) || Replaces(code, next)
  {
    if p.SelfMove? {
      assert next == code[1..];
    } else {
      assert next[1..] == code[1..];
    }
  }

  lemma TwoForm(code: Code, p: Pattern, next: Code)
    requires |code| >= 2 && Length(p) == 2 && MatchesTwo(p, code[0], code[1])
    requires next == TransformTwo(p, code[0], code[1]) + code[2..] && TransformTwo(p, code[0], code[1]) != [code[0], code[1]]
    ensures Drops(code, next) || Merges(code, next) || Reuses(code, next)
  {
    var r := TransformTwo(p, code[0], code[1]);
    match p
    case ConstantFolding => assert next[1..] == code[2..];
    case LoadAfterStore => assert next[2..] == code[2..];
    case RedundantLoad => assert next[2..] == code[2..];
    case DeadStore => assert next == code[1..];
    case RedundantStore => assert next == code[1..];
    case AdrFusion =>
  }

  // ----- one pass ends exactly when no two neighbours are stuck -----

  lemma StuckHandsBack(code: Code, p: Pattern)
    requires |code| >= 2 && Stuck(code[0], code[1]) && Applies(p, code, 0)
    ensures Rewrite(code, 0, p) == code
  {
    var w := Window(code, 0, p);
    RewriteParts(code, 0, p);
    assert code[..0] == [] && code == w + code[Length(p)..];
    assert |w| == 2 && w == [code[0], code[1]];
    HandedBackExactly(p, w);
  }

  /** The pattern that makes a pair stick applies to it. */
  lemma StuckPattern(code: Code) returns (p: Pattern)
    requires |code| >= 2 && Stuck(code[0], code[1])
    ensures Applies(p, code, 0) && p in PATTERNS
  {
    var a, b := code[0], code[1];
    p := if MatchesTwo(AdrFusion, a, b) then AdrFusion else if MatchesTwo(ConstantFolding, a, b) then ConstantFolding else LoadAfterStore;
    assert Window(code, 0, p) == [a, b];
    assert PATTERNS[0] == ConstantFolding && PATTERNS[3] == AdrFusion && PATTERNS[5] == LoadAfterStore;
  }

  lemma {:induction false} NothingApplies(code: Code, n: nat, k: nat)
    requires code != [] && FirstPattern(code, 0, n).None? && n <= k < |PATTERNS|
    ensures !Applies(PATTERNS[k], code, 0)
    decreases |PATTERNS| - n
  {
    hide Applies;
    if n < k {
      NothingApplies(code, n + 1, k);
    }
  }

  lemma NothingChosen(code: Code, p: Pattern)
    requires code != [] && Tried(code[0]) && Chosen(code, 0).None?
    ensures !Applies(p, code, 0)
  {
    hide Applies, FirstPattern;
    var k := match p {
      case ConstantFolding => 0
      case IdentityOperation => 1
      case SelfMove => 2
      case AdrFusion => 3
      case MultiplyByTwo => 4
      case LoadAfterStore => 5
      case RedundantLoad => 6
      case DeadStore => 7
      case RedundantStore => 8
    };
    assert PATTERNS[k] == p;
    NothingApplies(code, 0, k);
  }

  /** At a pair that sticks the pass does not get on. */
  lemma StuckHere(code: Code)
    requires |code| >= 2 && Stuck(code[0], code[1])
    ensures Chosen(code, 0).Some? && Rewrite(code, 0, Chosen(code, 0).value) == code
  {
    var p := StuckPattern(code);
    if Chosen(code, 0).None? {
      NothingChosen(code, p);
    } else {
      StuckHandsBack(code, Chosen(code, 0).value);
    }
  }

  /** A replacement neither makes nor breaks stuck pairs. */
  lemma NextKeepsPairs(code: Code, p: Pattern)
    requires code != [] && Tried(code[0]) && Applies(p, code, 0) && Rewrite(code, 0, p) != code
    ensures HasStuckPair(Rewrite(code, 0, p)) <==> HasStuckPair(code)
  {
    var next := Rewrite(code, 0, p);
    NextForm(code, p);
    hide Rewrite, Applies;
    if |code| >= 2 && Stuck(code[0], code[1]) {
      StuckHandsBack(code, p);
    }
    hide Stuck;
    FormKeepsPairs(code, next);
  }

  lemma NotStuck(a: Instruction, b: Instruction)
    ensures !Leads(a) || !Follows(b) || Created(a) || Created(b) ==> !Stuck(a, b)
  {
  }

  lemma FormKeepsPairs(code: Code, next: Code)
    requires code != [] && (Drops(code, next) || Replaces(code, next) || Merges(code, next) || Reuses(code, next))
    requires |code| >= 2 ==> !Stuck(code[0], code[1])
    ensures HasStuckPair(next) <==> HasStuckPair(code)
  {
    hide Stuck, Replaces, Merges, Reuses, Leads, Created;
    assert HasStuckPair(code) <==> HasStuckPair(code[1..]);
    if Replaces(code, next) {
      ReplacesKeepsPairs(code, next);
    } else if Merges(code, next) {
      MergesKeepsPairs(code, next);
    } else if Reuses(code, next) {
      ReusesKeepsPairs(code, next);
    }
  }

  lemma ReplacesKeepsPairs(code: Code, next: Code)
    requires code != [] && Replaces(code, next)
    ensures HasStuckPair(next) <==> HasStuckPair(code[1..])
  {
    hide HasStuckPair, Leads;
    PairsBehind(next);
  }

  lemma MergesKeepsPairs(code: Code, next: Code)
    requires code != [] && Merges(code, next)
    ensures HasStuckPair(next) <==> HasStuckPair(code[1..])
  {
    hide HasStuckPair;
    assert code[1..][1..] == code[2..] && !Leads(code[1]);
    PairsBehind(next);
    PairsBehind(code[1..]);
  }

  lemma ReusesKeepsPairs(code: Code, next: Code)
    requires code != [] && Reuses(code, next)
    ensures HasStuckPair(next) <==> HasStuckPair(code[1..])
  {
    assert next[1..][1..] == next[2..] && code[1..][1..] == code[2..] && !Leads(code[1]);
    NotStuck(next[0], next[1]);
    PairsBehind(next[1..]);
    PairsBehind(code[1..]);
    hide Stuck, Leads, Created;
  }

  /** An instruction that is not the first of a stuck pair does not matter to those behind it. */
  lemma PairsBehind(code: Code)
    requires code != [] && (!Leads(code[0]) || Created(code[0]))
    ensures HasStuckPair(code) <==> HasStuckPair(code[1..])
  {
    if |code| >= 2 {
      NotStuck(code[0], code[1]);
      hide Stuck;
    }
  }

  lemma {:induction false} PassStopsExactly(code: Code)
    ensures Pass(code).Finished? <==> !HasStuckPair(code)
    decreases Weight(code), |code|
  {
    hide Weight, Rewrite, FirstPattern, Stuck;
    if code != [] {
      var p := Chosen(code, 0);
      if |code| >= 2 && Stuck(code[0], code[1]) {
        StuckHere(code);
      } else if p.None? {
        LighterTail(code);
        PassStopsExactly(code[1..]);
      } else {
        var next := Rewrite(code, 0, p.value);
        if next == code {
          HandsBackStuck(code, p.value);
        } else {
          RewriteLightens(code, 0, p.value);
          NextKeepsPairs(code, p.value);
          PassStopsExactly(next);
        }
      }
    }
  }

  lemma HandsBackStuck(code: Code, p: Pattern)
    requires code != [] && Tried(code[0]) && Applies(p, code, 0) && Rewrite(code, 0, p) == code
    ensures |code| >= 2 && Stuck(code[0], code[1])
  {
    var w := Window(code, 0, p);
    RewriteParts(code, 0, p);
    HandedBackExactly(p, w);
    assert code[..0] == [] && code == w + code[Length(p)..];
    assert code == Transform(p, w) + code[Length(p)..];
    SameTail(w, Transform(p, w), code[Length(p)..]);
    assert w[0].targetLabel == "" && w[1].targetLabel == "";
  }

  lemma SameTail(x: Code, y: Code, z: Code)
    requires x + z == y + z
    ensures x == y
  {
    assert |x| == |y|;
    assert x == (x + z)[..|x|] && y == (y + z)[..|y|];
  }

  /** The loop of a pass comes to an end exactly when no two neighbours of the code are stuck. */
  lemma PassEndsExactly(code: Code)
    ensures PassFrom(code, 0).Finished? <==> !HasStuckPair(code)
  {
    hide PassFrom, Pass;
    PassIsPassFrom(code);
    PassStopsExactly(code);
  }

  /** Wherever a register is stored and loaded again from the same place, the loop is busy for ever. */
  lemma ReloadNeverEnds(code: Code, k: nat)
    requires 0 < k < |code| && MatchesTwo(LoadAfterStore, code[k - 1], code[k])
    requires SameRegister(code[k - 1].srcReg1, code[k].destReg)
    requires Tried(code[k - 1]) && code[k - 1].targetLabel == "" && code[k].targetLabel == ""
    ensures PassFrom(code, 0).Endless? && forall n :: !AtEnd(Turns(Turn(code, 0), n))
  {
    hide PassFrom, Turns;
    HasStuckPairExactly(code);
    assert Stuck(code[k - 1], code[k]);
    PassEndsExactly(code);
    LoopEndsExactly(code);
  }

  // ----- several passes -----

  /** The code without the vanishing instructions at its front. */
  function Visible(code: Code): Code {
    if code == [] || !Vanishes(code[0]) then code else Visible(code[1..])
  }

  /** The first instruction is stuck with its neighbour, or will be when the instructions between them have vanished. */
  predicate Clings(code: Code) {
    && |code| >= 2
    && (|| Stuck(code[0], code[1])
        || (&& Vanishes(code[1]) && !MatchesTwo(ConstantFolding, code[0], code[1])
            && var v := Visible(code[1..]); v != [] && Stuck(code[0], v[0]) && !Reduces(v[0])))
  }

  predicate HasClingingPair(code: Code) {
    code != [] && (Clings(code) || HasClingingPair(code[1..]))
  }

  /** What makes the optimiser come to an end, for so many passes. */
  predicate Settles(code: Code, maxPasses: nat) {
    (maxPasses == 1 ==> !HasStuckPair(code)) && (maxPasses >= 2 ==> !HasClingingPair(code))
  }

  lemma {:induction false} StuckPairsCling(code: Code)
    ensures HasStuckPair(code) ==> HasClingingPair(code)
  {
    hide Stuck, Vanishes, Reduces;
    if |code| >= 2 {
      StuckPairsCling(code[1..]);
    }
  }

  predicate NoneVanish(code: Code) {
    forall i :: i in code ==> !Vanishes(i)
  }

  lemma {:induction false} PairsClingOnlyIfStuck(code: Code)
    requires NoneVanish(code)
    ensures HasClingingPair(code) <==> HasStuckPair(code)
  {
    hide Stuck, Vanishes, Reduces;
    if code != [] {
      PairsClingOnlyIfStuck(code[1..]);
      if |code| >= 2 {
        assert code[1] in code;
      }
    }
  }

  lemma Vanishing(code: Code)
    requires code != [] && Chosen(code, 0).None?
    ensures !Vanishes(code[0]) && !Reduces(code[0])
  {
    if Tried(code[0]) {
      NothingChosen(code, SelfMove);
      NothingChosen(code, IdentityOperation);
      assert Window(code, 0, SelfMove) == [code[0]] && Window(code, 0, IdentityOperation) == [code[0]];
    }
  }

  /** After a pass nothing is left that vanishes. */
  lemma {:induction false} NothingVanishes(code: Code)
    requires Pass(code).Finished?
    ensures NoneVanish(Pass(code).code)
    decreases Weight(code), |code|
  {
    hide Weight, Rewrite, FirstPattern, Vanishes, Chosen;
    if code != [] {
      var p := Chosen(code, 0);
      if p.None? {
        LighterTail(code);
        NothingVanishes(code[1..]);
        Vanishing(code);
      } else {
        RewriteLightens(code, 0, p.value);
        NothingVanishes(Rewrite(code, 0, p.value));
      }
    }
  }

  /** The code begins with an instruction that can be the second of a stuck pair and stays as it is. */
  predicate Front(code: Code, i: Instruction) {
    code != [] && code[0] == i && Follows(i) && !Reduces(i)
  }

  lemma FormKeepsFront(code: Code, next: Code, i: Instruction)
    requires code != [] && (Drops(code, next) || Replaces(code, next) || Merges(code, next) || Reuses(code, next))
    ensures Front(Visible(next), i) <==> Front(Visible(code), i)
  {
    if Drops(code, next) {
      if !Vanishes(code[0]) {
        assert !Vanishes(code[1]);
        assert Visible(next) == next && Visible(code) == code;
      }
    } else if Replaces(code, next) {
      if !Vanishes(code[0]) {
        assert Visible(next) == next && Visible(code) == code;
      }
    } else {
      assert !Vanishes(code[0]) && !Vanishes(next[0]);
      assert Visible(next) == next && Visible(code) == code;
    }
  }

  /** A pass keeps the front of what does not vanish, and brings nothing else there. */
  lemma {:induction false} PassKeepsFront(code: Code, i: Instruction)
    requires Pass(code).Finished?
    ensures Front(Pass(code).code, i) <==> Front(Visible(code), i)
    decreases Weight(code), |code|
  {
    hide Weight, Rewrite, FirstPattern, Vanishes, Applies, Reduces, Follows;
    if code != [] {
      var p := Chosen(code, 0);
      if p.None? {
        Vanishing(code);
      } else {
        var next := Rewrite(code, 0, p.value);
        RewriteLightens(code, 0, p.value);
        NextForm(code, p.value);
        hide Drops, Replaces, Merges, Reuses, Chosen, Front;
        FormKeepsFront(code, next, i);
        PassKeepsFront(next, i);
        assert [] + Pass(next).code == Pass(next).code;
      }
    }
  }

  /** A first instruction that can begin a stuck pair clings exactly if it will stand before one it is stuck with. */
  lemma ClingsExactly(code: Code)
    requires code != [] && Chosen(code, 0).None? && Pass(code[1..]).Finished?
    ensures var r := Pass(code[1..]).code; Clings(code) <==> r != [] && Stuck(code[0], r[0])
  {
    var rest, r := code[1..], Pass(code[1..]).code;
    if |code| >= 2 && Stuck(code[0], code[1]) {
      StuckHere(code);
    }
    if r != [] && Stuck(code[0], r[0]) {
      StuckParts(code[0], r[0]);
      NothingReduces(rest);
      assert r[0] in r;
      PassKeepsFront(rest, r[0]);
      assert Visible(rest) != [];
      assert rest[0] == code[1];
      if Vanishes(code[1]) {
        NotFolded(code);
      }
    }
    if Clings(code) {
      var v := Visible(rest);
      StuckParts(code[0], v[0]);
      PassKeepsFront(rest, v[0]);
    }
  }

  lemma NotFolded(code: Code)
    requires |code| >= 2 && Tried(code[0]) && Chosen(code, 0).None?
    requires code[0].targetLabel == "" && code[1].targetLabel == ""
    ensures !MatchesTwo(ConstantFolding, code[0], code[1])
  {
    NothingChosen(code, ConstantFolding);
    assert Window(code, 0, ConstantFolding) == [code[0], code[1]];
  }

  lemma {:induction false} NothingReduces(code: Code)
    requires Pass(code).Finished?
    ensures forall i :: i in Pass(code).code ==> !Reduces(i)
    decreases Weight(code), |code|
  {
    hide Weight, Rewrite, FirstPattern, Reduces, Chosen;
    if code != [] {
      var p := Chosen(code, 0);
      if p.None? {
        LighterTail(code);
        NothingReduces(code[1..]);
        Vanishing(code);
      } else {
        RewriteLightens(code, 0, p.value);
        NothingReduces(Rewrite(code, 0, p.value));
      }
    }
  }

  /** A first instruction that is replaced clings to nothing. */
  lemma ReplacedClingsNot(code: Code, p: Pattern)
    requires code != [] && Tried(code[0]) && Applies(p, code, 0) && Rewrite(code, 0, p) != code
    ensures !Clings(code)
  {
    if |code| >= 2 && Stuck(code[0], code[1]) {
      StuckHandsBack(code, p);
    } else if Clings(code) {
      var v := Visible(code[1..]);
      StuckParts(code[0], v[0]);
      NextForm(code, p);
      hide Rewrite, Applies;
    }
  }

  lemma ClingsLead(code: Code)
    requires Clings(code)
    ensures Leads(code[0]) && !Created(code[0])
  {
  }

  lemma ClingBehind(code: Code)
    requires code != [] && (!Leads(code[0]) || Created(code[0]))
    ensures HasClingingPair(code) <==> HasClingingPair(code[1..])
  {
    hide Clings;
    if Clings(code) {
      ClingsLead(code);
    }
  }

  /** Neither do replacements make or break clinging pairs. */
  lemma NextKeepsClinging(code: Code, p: Pattern)
    requires code != [] && Tried(code[0]) && Applies(p, code, 0) && Rewrite(code, 0, p) != code
    ensures HasClingingPair(Rewrite(code, 0, p)) <==> HasClingingPair(code)
  {
    hide Clings, Leads, Created;
    var next := Rewrite(code, 0, p);
    NextForm(code, p);
    ReplacedClingsNot(code, p);
    hide Rewrite, Applies, Replaces, Merges, Reuses;
    assert HasClingingPair(code) <==> HasClingingPair(code[1..]);
    if Replaces(code, next) {
      ReplacesKeepsClinging(code, next);
    } else if Merges(code, next) {
      MergesKeepsClinging(code, next);
    } else if Reuses(code, next) {
      ReusesKeepsClinging(code, next);
    }
  }

  lemma ReplacesKeepsClinging(code: Code, next: Code)
    requires code != [] && Replaces(code, next)
    ensures HasClingingPair(next) <==> HasClingingPair(code[1..])
  {
    hide HasClingingPair;
    ClingBehind(next);
  }

  lemma MergesKeepsClinging(code: Code, next: Code)
    requires code != [] && Merges(code, next)
    ensures HasClingingPair(next) <==> HasClingingPair(code[1..])
  {
    hide HasClingingPair;
    assert code[1..][1..] == code[2..] && !Leads(code[1]);
    ClingBehind(next);
    ClingBehind(code[1..]);
  }

  lemma ReusesKeepsClinging(code: Code, next: Code)
    requires code != [] && Reuses(code, next)
    ensures HasClingingPair(next) <==> HasClingingPair(code[1..])
  {
    assert next[1..][1..] == next[2..] && code[1..][1..] == code[2..] && !Leads(code[1]);
    NotStuck(next[0], next[1]);
    assert !Clings(next) by {
      if Clings(next) {
        ClingsLead(next);
      }
    }
    hide Stuck, Leads, Created, Clings;
    assert HasClingingPair(next) <==> HasClingingPair(next[1..]);
    ReusedBehind(code, next);
  }

  lemma ReusedBehind(code: Code, next: Code)
    requires code != [] && Reuses(code, next)
    ensures HasClingingPair(next[1..]) <==> HasClingingPair(code[1..])
  {
    hide HasClingingPair;
    assert next[1..][1..] == next[2..] && code[1..][1..] == code[2..] && !Leads(code[1]);
    ClingBehind(next[1..]);
    ClingBehind(code[1..]);
  }

  /** A pass leaves stuck neighbours behind exactly if the code had a clinging pair. */
  lemma {:induction false} PassUncovers(code: Code)
    requires Pass(code).Finished?
    ensures HasStuckPair(Pass(code).code) <==> HasClingingPair(code)
    decreases Weight(code), |code|
  {
    hide Weight, Rewrite, FirstPattern, Stuck, Applies, Clings;
    if code != [] {
      var p := Chosen(code, 0);
      if p.None? {
        LighterTail(code);
        PassUncovers(code[1..]);
        ClingsExactly(code);
        var r := Pass(code[1..]).code;
        assert ([code[0]] + r)[1..] == r;
      } else {
        var next := Rewrite(code, 0, p.value);
        RewriteLightens(code, 0, p.value);
        NextKeepsClinging(code, p.value);
        PassUncovers(next);
        assert [] + Pass(next).code == Pass(next).code;
      }
    }
  }

  lemma {:induction false} NothingApplied(code: Code)
    requires Pass(code).Finished? && Pass(code).applied == 0
    ensures Pass(code).code == code
  {
    hide Weight, Rewrite, FirstPattern, Chosen;
    if code != [] {
      LighterTail(code);
      if Chosen(code, 0).None? {
        NothingApplied(code[1..]);
      }
    }
  }

  /** So many passes come to an end exactly when the code settles: for one pass, no two neighbours are stuck; for more,
    * none are and none will be once what vanishes between them is gone.
    */
  lemma {:induction false} OptimizeEndsExactly(code: Code, maxPasses: nat)
    ensures Optimize(code, maxPasses).Finished? <==> Settles(code, maxPasses)
    decreases maxPasses
  {
    hide PassFrom, Pass, HasStuckPair, HasClingingPair, NoneVanish;
    if maxPasses > 0 {
      PassIsPassFrom(code);
      PassStopsExactly(code);
      StuckPairsCling(code);
      var r := Pass(code);
      if r.Finished? {
        PassUncovers(code);
        if r.applied == 0 {
          NothingApplied(code);
        } else {
          NothingVanishes(code);
          PairsClingOnlyIfStuck(r.code);
          OptimizeEndsExactly(r.code, maxPasses - 1);
        }
      }
    }
  }
}
