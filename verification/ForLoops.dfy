/** FOR loops count: which values the loop variable takes, and what the increment block of a graph adds to it. */
module ForLoops {
  import opened Wrappers
  import opened Ast
  import opened Machine
  import opened Liveness
  import opened StructuredSemantics
  import opened CfgLowering
  import opened CfgShape
  import opened CfgCorrectness
  import opened ConstantFolding
  import LivenessSoundness

  /** The values of the loop variable with which the body is begun, from a test of the loop onwards. */
  function Begun(c: Stmt, s: Store, fuel: nat): seq<Word>
    requires c.For?
    decreases fuel
  {
    if fuel == 0 || Lookup(s, c.variable) > Eval(c.end, s) then []
    else
      var o := Exec(c.body, s, fuel - 1);
      [Lookup(s, c.variable)] + if o.Normal? || o.Looped? then Begun(c, NextTurn(c, o.store), fuel - 1) else []
  }

  /** The body assigns neither the loop variable nor anything in the bound, which does not depend on the variable. */
  predicate LeftAlone(c: Stmt) {
    c.For? && c.variable !in Assigned(c.body) && Vars(c.end) !! Assigned(c.body) && c.variable !in Vars(c.end)
  }

  /** After a turn the bound is as before, and the variable has grown by one, or by the step if one is given. */
  lemma TurnAdds(c: Stmt, s: Store, fuel: nat)
    requires LeftAlone(c)
    ensures var o := Exec(c.body, s, fuel);
            (o.Normal? || o.Looped?) ==>
              var t := NextTurn(c, o.store);
              && Eval(c.end, t) == Eval(c.end, s)
              && Lookup(t, c.variable) == Wrap(Lookup(s, c.variable) + match c.step { case None => 1 case Some(e) => Eval(e, o.store) })
  {
    hide Eval, Assigned, Exec;
    ExecLeaves(c.body, s, fuel);
    var o := Exec(c.body, s, fuel);
    if o.Normal? || o.Looped? {
      var t := NextTurn(c, o.store);
      assert Lookup(o.store, c.variable) == Lookup(s, c.variable);
      forall x | x in Vars(c.end)
        ensures Lookup(s, x) == Lookup(t, x)
      {
        assert Lookup(o.store, x) == Lookup(s, x);
      }
      LivenessSoundness.EvalAgrees(c.end, s, t);
    }
  }

  lemma NextWord(i: int)
    requires -HALF_RANGE <= i < HALF_RANGE - 1
    ensures Wrap(i + 1) == i + 1
  {
  }

  /** Without a step the body is begun with the start, the start plus one, and so on, and never beyond the bound. */
  lemma {:induction false} CountsUp(c: Stmt, s: Store, fuel: nat, k: nat)
    requires c.For? && LeftAlone(c) && c.step.None? && Eval(c.end, s) < HALF_RANGE - 1
    requires k < |Begun(c, s, fuel)|
    ensures Begun(c, s, fuel)[k] == Lookup(s, c.variable) + k <= Eval(c.end, s)
    decreases fuel
  {
    hide Eval, Exec, LeftAlone, NextTurn, Wrap;
    if k > 0 {
      TurnAdds(c, s, fuel - 1);
      NextWord(Lookup(s, c.variable));
      CountsUp(c, NextTurn(c, Exec(c.body, s, fuel - 1).store), fuel - 1, k - 1);
    }
  }

  /** The body always goes through to its end, or on to the next turn. */
  ghost predicate GoesThrough(c: Stmt) {
    c.For? && forall s, fuel :: Exec(c.body, s, fuel).Normal? || Exec(c.body, s, fuel).Looped? || Exec(c.body, s, fuel).Timeout?
  }

  /** And when such a loop has ended, no value up to the bound was left out. */
  lemma {:induction false} CountsAll(c: Stmt, s: Store, fuel: nat)
    requires c.For? && LeftAlone(c) && c.step.None? && Eval(c.end, s) < HALF_RANGE - 1 && GoesThrough(c)
    requires Iterate(c, s, fuel).Normal?
    ensures var i, n := Lookup(s, c.variable), Eval(c.end, s);
            && |Begun(c, s, fuel)| == (if i <= n then n - i + 1 else 0)
            && Lookup(Iterate(c, s, fuel).store, c.variable) == (if i <= n then n + 1 else i)
    decreases fuel
  {
    hide Eval, Exec, LeftAlone, NextTurn, Wrap;
    if Lookup(s, c.variable) <= Eval(c.end, s) {
      var o := Exec(c.body, s, fuel - 1);
      assert o.Normal? || o.Looped? || o.Timeout?;
      TurnAdds(c, s, fuel - 1);
      NextWord(Lookup(s, c.variable));
      hide GoesThrough;
      CountsAll(c, NextTurn(c, o.store), fuel - 1);
    }
  }

  /** A FOR without a step, whose body leaves its variable and its bound alone and always goes through, runs its body
    * for the start, the start plus one, and so on up to the bound, and for no other value.
    */
  lemma ForRunsThrough(c: Stmt, s: Store, fuel: nat)
    requires c.For? && LeftAlone(c) && c.step.None? && GoesThrough(c) && Exec(c, s, fuel).Normal?
    requires Eval(c.end, s[c.variable := Eval(c.start, s)]) < HALF_RANGE - 1
    ensures var t := s[c.variable := Eval(c.start, s)];
            var first, last, begun := Eval(c.start, s), Eval(c.end, t), Begun(c, t, fuel);
            && begun == seq(if first <= last then last - first + 1 else 0, k requires 0 <= k => first + k)
  {
    hide Eval, LeftAlone, Begun, GoesThrough;
    var t := s[c.variable := Eval(c.start, s)];
    CountsAll(c, t, fuel);
    forall k | 0 <= k < |Begun(c, t, fuel)|
      ensures Begun(c, t, fuel)[k] == Eval(c.start, s) + k
    {
      CountsUp(c, t, fuel, k);
    }
  }

  /** In a finished graph the increment block of a FOR adds one to the variable, or the step if one is given, and goes
    * back to the header.
    */
  lemma IncrementBlockAdds(st: State, c: Stmt, g: seq<Block>, s: Store)
    requires WellFormed(st) && st.current.Some? && c.For? && Fits(Lower(st, c), g)
    ensures var header, x := |st.blocks|, c.variable;
            var stride := match c.step { case None => 1 case Some(e) => Eval(e, s) };
            Run(g, At(header + 2, 0, s), 2) == At(header, 0, s[x := Wrap(Lookup(s, x) + stride)])
  {
    hide WellFormed, Fits, Lower, EnterFor, Run, Increment, Eval;
    ForStatesFit(st, c, g);
    Advance(c, g, |st.blocks|, s);
  }
}
