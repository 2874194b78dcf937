/**
 Processes that die between durable steps.  A call is planned as a sequence of atomic steps; a
 process that lives to make `life` of them leaves the first `life` behind and nothing else.
 */
module Crashes {

  function FirstSteps<T>(steps: seq<T>, life: nat): seq<T> {
    if life <= |steps| then steps[..life] else steps
  }

  function RunAll<S, T>(apply: (S, T) -> S, s: S, steps: seq<T>): S {
    if steps == [] then s else apply(RunAll(apply, s, steps[..|steps| - 1]), steps[|steps| - 1])
  }

  lemma RunAllAppends<S, T>(apply: (S, T) -> S, s: S, steps: seq<T>, step: T)
    ensures RunAll(apply, s, steps + [step]) == apply(RunAll(apply, s, steps), step)
  {
    assert (steps + [step])[..|steps|] == steps;
  }

  lemma {:induction false} RunAllSplits<S, T>(apply: (S, T) -> S, s: S, before: seq<T>, after: seq<T>)
    ensures RunAll(apply, s, before + after) == RunAll(apply, RunAll(apply, s, before), after)
  {
    if after == [] {
      assert before + after == before;
    } else {
      RunAllSplits(apply, s, before, after[..|after| - 1]);
      assert (before + after)[..|before + after| - 1] == before + after[..|after| - 1];
    }
  }

  /** One more step of a plan. */
  lemma Unfold<S, T>(apply: (S, T) -> S, s: S, steps: seq<T>, k: nat)
    requires 0 < k <= |steps|
    ensures RunAll(apply, s, steps[..k]) == apply(RunAll(apply, s, steps[..k - 1]), steps[k - 1])
    ensures FirstSteps(steps, k) == steps[..k] && steps[..|steps|] == steps && steps[..0] == []
  {
    assert steps[..k][..k - 1] == steps[..k - 1];
  }

  lemma FirstOfParts<T>(before: seq<T>, after: seq<T>, life: nat)
    ensures life <= |before| ==> FirstSteps(before + after, life) == FirstSteps(before, life)
    ensures life > |before| ==> FirstSteps(before + after, life) == before + FirstSteps(after, life - |before|)
  {
  }

  /** Running the first `life` steps of a concatenation runs a prefix of each part. */
  lemma PrefixOfParts<S, T>(apply: (S, T) -> S, s: S, before: seq<T>, after: seq<T>, life: nat)
    ensures RunAll(apply, s, FirstSteps(before + after, life))
         == if life <= |before| then RunAll(apply, s, FirstSteps(before, life))
            else RunAll(apply, RunAll(apply, s, before), FirstSteps(after, life - |before|))
  {
    FirstOfParts(before, after, life);
    if life > |before| {
      RunAllSplits(apply, s, before, FirstSteps(after, life - |before|));
    }
  }

  lemma RemainingSteps<T>(steps: seq<T>, k: nat, life: nat)
    requires k <= |steps|
    ensures var j := if k + life <= |steps| then life else |steps| - k;
      FirstSteps(steps[k..], life) == steps[k..k + j]
  {
  }
}
