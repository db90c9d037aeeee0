/**
 * The progress panel beside the wizard: how many steps are completed, how
 * wide the progress bar is, and when the "All Done" banner appears.
 */
module Sidebar {
  import opened Wrappers
  import opened Steps

  /** The statuses of the steps, in order. */
  function Statuses(steps: seq<Step>): (r: seq<Status>)
    ensures |r| == |steps|
    ensures forall i | 0 <= i < |steps| :: r[i] == steps[i].status
  {
    seq(|steps|, i requires 0 <= i < |steps| => steps[i].status)
  }

  /** Counting a status step by step agrees with its multiplicity among the statuses. */
  lemma {:induction false} CountStatusIsMultiplicity(steps: seq<Step>, st: Status)
    ensures CountStatus(steps, st) == multiset(Statuses(steps))[st]
  {
    if steps != [] {
      var init := steps[..|steps| - 1];
      CountStatusIsMultiplicity(init, st);
      assert Statuses(steps) == Statuses(init) + [steps[|steps| - 1].status];
    }
  }

  /** `completedSteps`: how many steps have status completed. */
  function CompletedSteps(steps: seq<Step>): (n: nat)
    ensures n <= |steps|
    ensures n == multiset(Statuses(steps))[Completed]
  {
    CountStatusIsMultiplicity(steps, Completed);
    CountStatus(steps, Completed)
  }

  /**
   * `progressPercentage`: the completed share of the steps, in percent.
   * With no steps the division is 0 / 0, which is NaN; that is `None` here.
   */
  function ProgressPercentage(steps: seq<Step>): (p: Option<real>)
    ensures p.None? <==> steps == []
    ensures p.Some? ==> 0.0 <= p.value <= 100.0
    ensures p.Some? ==> (p.value == 0.0 <==> CompletedSteps(steps) == 0)
    ensures p.Some? ==> (p.value == 100.0 <==> CompletedSteps(steps) == |steps|)
  {
    if steps == [] then None
    else
      var n, d := CompletedSteps(steps) as real, |steps| as real;
      assert n / d <= 1.0;
      Some(n / d * 100.0)
  }

  /** The "All Done" banner: every step counted as completed. */
  predicate AllDone(steps: seq<Step>)
  {
    CompletedSteps(steps) == |steps|
  }

  /** The banner shows exactly when every step is completed. */
  lemma AllDoneIff(steps: seq<Step>)
    ensures AllDone(steps) <==> forall i | 0 <= i < |steps| :: steps[i].status == Completed
  {
    CountStatusAll(steps, Completed);
  }

  /** Under statuses derived from a cursor, the completed count is the cursor. */
  lemma CompletedOfDerived(steps: seq<Step>, c: nat)
    requires FollowsCursor(steps, c) && c < |steps|
    ensures CompletedSteps(steps) == c
    ensures ProgressPercentage(steps) == Some(c as real / |steps| as real * 100.0)
  {
    CursorCounts(steps, c);
  }

  /**
   * While the cursor is inside the list the banner never shows: the step at
   * the cursor is active, not completed.
   */
  lemma AllDoneNeverWhileRunning(steps: seq<Step>, c: nat)
    requires FollowsCursor(steps, c) && c < |steps|
    ensures !AllDone(steps)
    ensures ProgressPercentage(steps).value < 100.0
  {
    CursorCounts(steps, c);
  }
}
