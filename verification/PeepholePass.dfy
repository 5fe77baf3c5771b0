/** The passes of the peephole optimiser: when they end, and that a run pauses in the same states before and after. */
module PeepholePass {
  import opened Wrappers
  import opened PeepholePatterns

  type Code = seq<Instruction>

  // ----- one pass -----

  function InstructionWeight(i: Instruction): nat {
    match i.opcode
    case LDR => 3
    case MUL => 3
    case ADD => 2
    case SUB => 2
    case SDIV => 2
    case _ => 1
  }

  function Weight(code: Code): nat {
    if code == [] then 0 else InstructionWeight(code[0]) + Weight(code[1..])
  }

  lemma {:induction false} WeightAdds(a: Code, b: Code)
    ensures Weight(a + b) == Weight(a) + Weight(b)
  {
    if a == [] {
      assert a + b == b;
    } else {
      assert (a + b)[1..] == a[1..] + b;
      WeightAdds(a[1..], b);
    }
  }

  /** A pattern hands back its own window, or lowers the weight. */
  lemma TransformLightens(p: Pattern, w: Code)
    requires Matches(p, w)
    ensures Transform(p, w) == w || Weight(Transform(p, w)) < Weight(w)
  {
    hide Weight;
    var r := Transform(p, w);
    if |w| == 1 {
      assert w == [w[0]];
      WeightOfOne(w[0]);
      if r != [] {
        assert r == [r[0]];
        WeightOfOne(r[0]);
      } else {
        WeightOfNone();
      }
    } else {
      assert w == [w[0], w[1]];
      WeightOfTwo(w[0], w[1]);
      if |r| == 1 {
        assert r == [r[0]];
        WeightOfOne(r[0]);
      } else {
        assert r == [r[0], r[1]];
        WeightOfTwo(r[0], r[1]);
      }
    }
  }

  lemma WeightOfNone()
    ensures Weight([]) == 0
  {
  }

  lemma WeightOfOne(a: Instruction)
    ensures Weight([a]) == InstructionWeight(a)
  {
    assert [a][1..] == [];
  }

  lemma WeightOfTwo(a: Instruction, b: Instruction)
    ensures Weight([a, b]) == InstructionWeight(a) + InstructionWeight(b)
  {
    assert [a, b][1..] == [b];
    WeightOfOne(b);
  }

  /** The pattern the pass applies at `pos`, if any. */
  function Chosen(code: Code, pos: nat): (r: Option<Pattern>)
    requires pos < |code|
    ensures r.Some? ==> Applies(r.value, code, pos)
  {
    if !code[pos].segment.CODE? || IsSpecial(code[pos]) then None else FirstPattern(code, pos, 0)
  }

  lemma RewriteParts(code: Code, pos: nat, p: Pattern)
    requires pos < |code| && Applies(p, code, pos)
    ensures pos + Length(p) <= |code| && Window(code, pos, p) == code[pos..pos + Length(p)]
    ensures code == code[..pos] + Window(code, pos, p) + code[pos + Length(p)..]
  {
  }

  lemma RewriteLightens(code: Code, pos: nat, p: Pattern)
    requires pos < |code| && Applies(p, code, pos)
    ensures Rewrite(code, pos, p) == code || Weight(Rewrite(code, pos, p)) < Weight(code)
  {
    var w, a, b := Window(code, pos, p), code[..pos], code[pos + Length(p)..];
    RewriteParts(code, pos, p);
    TransformLightens(p, w);
    hide Matches, Transform, Weight, Length, Window;
    WeightAdds(a + w, b);
    WeightAdds(a, w);
    WeightAdds(a + Transform(p, w), b);
    WeightAdds(a, Transform(p, w));
  }

  datatype PassResult = Finished(code: Code, applied: nat) | Endless

  /** The pass from position `pos` on. It never ends once the chosen pattern hands back its own window. */
  function PassFrom(code: Code, pos: nat): PassResult
    decreases Weight(code), |code| - pos
  {
    if pos >= |code| then Finished(code, 0)
    else
      var p := Chosen(code, pos);
      if p.None? then PassFrom(code, pos + 1)
      else
        var next := Rewrite(code, pos, p.value);
        if next == code then Endless
        else
          RewriteLightens(code, pos, p.value);
          var r := PassFrom(next, pos);
          if r.Endless? then Endless else Finished(r.code, r.applied + 1)
  }

  /** Several passes, until one changes nothing. */
  function Optimize(code: Code, maxPasses: nat): PassResult
    decreases maxPasses
  {
    if maxPasses == 0 then Finished(code, 0)
    else
      var r := PassFrom(code, 0);
      if r.Endless? || r.applied == 0 then r
      else
        var q := Optimize(r.code, maxPasses - 1);
        if q.Endless? then q else Finished(q.code, r.applied + q.applied)
  }

  /** Each replacement takes something off the weight, so there are at most as many as the code weighs. */
  lemma {:induction false} PassIsBounded(code: Code, pos: nat)
    ensures var r := PassFrom(code, pos); r.Finished? ==> r.applied + Weight(r.code) <= Weight(code)
    decreases Weight(code), |code| - pos
  {
    hide Rewrite, Chosen, Weight;
    if pos < |code| {
      var p := Chosen(code, pos);
      if p.None? {
        PassIsBounded(code, pos + 1);
      } else {
        RewriteLightens(code, pos, p.value);
        if Rewrite(code, pos, p.value) != code {
          PassIsBounded(Rewrite(code, pos, p.value), pos);
        }
      }
    }
  }

  lemma {:induction false} OptimizeIsBounded(code: Code, maxPasses: nat)
    ensures var r := Optimize(code, maxPasses); r.Finished? ==> r.applied + Weight(r.code) <= Weight(code)
    decreases maxPasses
  {
    hide PassFrom, Weight;
    if maxPasses > 0 {
      PassIsBounded(code, 0);
      var r := PassFrom(code, 0);
      if r.Finished? && r.applied > 0 {
        OptimizeIsBounded(r.code, maxPasses - 1);
      }
    }
  }

  // ----- the loop of a pass, turn by turn -----

  datatype Turn = Turn(code: Code, pos: nat)

  /** One turn of the loop: a replacement without moving on, or a step forward. */
  function NextTurn(t: Turn): Turn {
    if t.pos >= |t.code| then t
    else
      var p := Chosen(t.code, t.pos);
      if p.None? then t.(pos := t.pos + 1) else t.(code := Rewrite(t.code, t.pos, p.value))
  }

  function Turns(t: Turn, n: nat): Turn
    decreases n
  {
    if n == 0 then t else Turns(NextTurn(t), n - 1)
  }

  predicate AtEnd(t: Turn) {
    t.pos >= |t.code|
  }

  lemma {:induction false} StuckForEver(t: Turn, n: nat)
    requires NextTurn(t) == t
    ensures Turns(t, n) == t
    decreases n
  {
    hide NextTurn;
    if n > 0 {
      StuckForEver(t, n - 1);
    }
  }

  lemma {:induction false} FinishedReachesEnd(t: Turn) returns (n: nat)
    requires PassFrom(t.code, t.pos).Finished?
    ensures AtEnd(Turns(t, n)) && Turns(t, n).code == PassFrom(t.code, t.pos).code
    decreases Weight(t.code), |t.code| - t.pos
  {
    hide Rewrite, Chosen, Weight;
    if AtEnd(t) {
      n := 0;
    } else {
      var p := Chosen(t.code, t.pos);
      if p.Some? {
        RewriteLightens(t.code, t.pos, p.value);
      }
      var m := FinishedReachesEnd(NextTurn(t));
      n := m + 1;
    }
  }

  lemma {:induction false} EndReachedFinishes(t: Turn, n: nat)
    requires AtEnd(Turns(t, n))
    ensures PassFrom(t.code, t.pos).Finished?
    decreases n
  {
    hide Rewrite, Chosen, Weight;
    if !AtEnd(t) && n > 0 {
      EndReachedFinishes(NextTurn(t), n - 1);
      var p := Chosen(t.code, t.pos);
      if p.Some? && Rewrite(t.code, t.pos, p.value) == t.code {
        StuckForEver(t, n);
      }
    }
  }

  /** The loop of a pass comes to an end exactly when no chosen pattern hands back its own window. */
  lemma LoopEndsExactly(code: Code)
    ensures PassFrom(code, 0).Finished? <==> exists n: nat :: AtEnd(Turns(Turn(code, 0), n))
  {
    hide PassFrom, Turns;
    var t := Turn(code, 0);
    if PassFrom(code, 0).Finished? {
      var n := FinishedReachesEnd(t);
      assert AtEnd(Turns(t, n));
    }
    if n: nat :| AtEnd(Turns(t, n)) {
      EndReachedFinishes(t, n);
    }
  }
}
