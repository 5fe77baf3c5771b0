/** The peephole optimiser as it works, on an instruction vector changed in place. */
module PeepholeOptimizer {
  import opened Wrappers
  import opened PeepholePatterns
  import opened PeepholePass
  import opened PeepholeEnding

  class Optimizer {
    var instructions: Code
    var optimizationsApplied: nat
    var passCount: nat

    constructor (instructions: Code)
      ensures this.instructions == instructions && optimizationsApplied == 0 && passCount == 0
    {
      this.instructions := instructions;
      optimizationsApplied, passCount := 0, 0;
    }

    /** Tries the patterns in order at one position. */
    method FindPattern(pos: nat) returns (found: Option<Pattern>)
      requires pos < |instructions|
      ensures found == FirstPattern(instructions, pos, 0)
    {
      hide Applies;
      var n := 0;
      while n < |PATTERNS|
        invariant n <= |PATTERNS|
        invariant FirstPattern(instructions, pos, 0) == FirstPattern(instructions, pos, n)
      {
        if Applies(PATTERNS[n], instructions, pos) {
          return Some(PATTERNS[n]);
        }
        n := n + 1;
      }
      found := None;
    }

    /** One pass. The precondition is exactly what it takes for the loop to end: no two neighbours are stuck. */
    method ApplyOptimizationPass() returns (anyChanges: bool)
      requires !HasStuckPair(instructions)
      modifies this`instructions, this`optimizationsApplied
      ensures var r := PassFrom(old(instructions), 0);
              && r.Finished? && instructions == r.code
              && optimizationsApplied == old(optimizationsApplied) + r.applied
              && (anyChanges <==> r.applied > 0)
    {
      hide Rewrite, Weight, FirstPattern, HasStuckPair;
      PassEndsExactly(instructions);
      anyChanges := false;
      var pos := 0;
      while pos < |instructions|
        invariant PassFrom(instructions, pos).Finished?
        invariant PassFrom(instructions, pos).code == PassFrom(old(instructions), 0).code
        invariant PassFrom(instructions, pos).applied + optimizationsApplied
                  == PassFrom(old(instructions), 0).applied + old(optimizationsApplied)
        invariant anyChanges <==> optimizationsApplied > old(optimizationsApplied)
        invariant optimizationsApplied >= old(optimizationsApplied)
        decreases Weight(instructions), |instructions| - pos
      {
        if !instructions[pos].segment.CODE? || IsSpecial(instructions[pos]) {
          pos := pos + 1;
        } else {
          var p := FindPattern(pos);
          if p.Some? {
            RewriteLightens(instructions, pos, p.value);
            instructions := Rewrite(instructions, pos, p.value);
            optimizationsApplied := optimizationsApplied + 1;
            anyChanges := true;
          } else {
            pos := pos + 1;
          }
        }
      }
    }

    /** At most `maxPasses` passes, fewer if one changes nothing; so many end exactly when the code settles. */
    method Run(maxPasses: nat)
      requires Settles(instructions, maxPasses)
      modifies this
      ensures var r := Optimize(old(instructions), maxPasses);
              && r.Finished? && instructions == r.code
              && optimizationsApplied == r.applied
              && passCount <= maxPasses
              && optimizationsApplied <= Weight(old(instructions))
    {
      hide PassFrom, Weight, HasStuckPair, Settles;
      OptimizeEndsExactly(instructions, maxPasses);
      OptimizeIsBounded(instructions, maxPasses);
      passCount, optimizationsApplied := 0, 0;
      while passCount < maxPasses
        invariant passCount <= maxPasses
        invariant var r := Optimize(instructions, maxPasses - passCount);
                  && r.Finished?
                  && r.code == Optimize(old(instructions), maxPasses).code
                  && r.applied + optimizationsApplied == Optimize(old(instructions), maxPasses).applied
      {
        PassEndsExactly(instructions);
        var changes := ApplyOptimizationPass();
        passCount := passCount + 1;
        if !changes {
          return;
        }
      }
    }
  }
}
