/**
 * The wizard controller `OnboardingFlow`: the welcome dialog, the list of
 * steps with a cursor on the current one, and the completion screen.
 *
 * The status effect, which the source runs after every change of the cursor
 * or of the number of steps, is applied at the end of each handler that
 * triggers it.
 */
module Flow {
  import opened Steps

  /** What the controller renders. */
  datatype Phase = Welcome | Running | Done

  class OnboardingFlow {
    var showWelcome: bool
    var userGoal: string
    var steps: seq<Step>
    var currentStep: nat
    var isComplete: bool

    /**
     * The welcome dialog is open exactly while there are no steps; with
     * steps, the cursor is inside the list, every status follows the cursor
     * and the steps are the catalog's; once complete, the cursor rests on
     * the last step.
     */
    ghost predicate Valid()
      reads this
    {
      && (showWelcome <==> steps == [])
      && (steps == [] ==> currentStep == 0)
      && (steps != [] ==> currentStep < |steps| && FollowsCursor(steps, currentStep) && Ids(steps) == CatalogOrder)
      && (isComplete && steps != [] ==> currentStep == |steps| - 1)
    }

    /** The screen the controller shows: the completion screen wins over everything. */
    function CurrentPhase(): (p: Phase)
      reads this
      ensures p == Done <==> isComplete
      ensures p == Welcome <==> showWelcome && !isComplete
    {
      if isComplete then Done else if showWelcome then Welcome else Running
    }

    /** The initial state: the welcome dialog open, no goal, no steps. */
    constructor ()
      ensures Valid()
      ensures showWelcome && userGoal == [] && steps == [] && currentStep == 0 && !isComplete
      ensures CurrentPhase() == Welcome
    {
      showWelcome := true;
      userGoal := "";
      steps := [];
      currentStep := 0;
      isComplete := false;
    }

    /**
     * The status effect: while there are steps and the cursor is inside
     * them, every status is rewritten from the cursor.
     */
    method SyncStatuses()
      modifies this
      ensures |old(steps)| > 0 && currentStep < |old(steps)| ==> steps == WithStatuses(old(steps), currentStep)
      ensures !(|old(steps)| > 0 && currentStep < |old(steps)|) ==> steps == old(steps)
      ensures showWelcome == old(showWelcome) && userGoal == old(userGoal)
      ensures currentStep == old(currentStep) && isComplete == old(isComplete)
    {
      if |steps| > 0 && currentStep < |steps| {
        steps := WithStatuses(steps, currentStep);
      }
    }

    /**
     * `handleWelcomeComplete`: the dialog submits a goal; the steps are
     * generated from it and the first one becomes active. The dialog is only
     * rendered, and so can only submit, while it is open and the wizard is
     * not complete.
     */
    method HandleWelcomeComplete(goal: string)
      requires Valid() && showWelcome && !isComplete
      modifies this
      ensures Valid()
      ensures userGoal == goal && !showWelcome && !isComplete && currentStep == 0
      ensures steps == WithStatuses(GenerateStepsFromGoal(goal), 0)
      ensures CurrentPhase() == Running
    {
      userGoal := goal;
      steps := GenerateStepsFromGoal(goal);
      showWelcome := false;
      currentStep := 0;
      SyncStatuses();
    }

    /**
     * `handleStepComplete`: the cursor moves to the next step, or, on the
     * last step, the wizard completes and the cursor stays where it is, so
     * the last step keeps its active status.
     */
    method HandleStepComplete()
      requires Valid()
      modifies this
      ensures Valid()
      ensures old(currentStep) < |old(steps)| - 1 ==>
        && currentStep == old(currentStep) + 1
        && isComplete == old(isComplete)
        && steps == WithStatuses(old(steps), currentStep)
      ensures old(currentStep) >= |old(steps)| - 1 ==>
        currentStep == old(currentStep) && isComplete && steps == old(steps)
      ensures showWelcome == old(showWelcome) && userGoal == old(userGoal)
    {
      if currentStep < |steps| - 1 {
        currentStep := currentStep + 1;
        SyncStatuses();
      } else {
        isComplete := true;
      }
    }

    /**
     * `handleStepComplete` as a delayed api-keys timer runs it: the closure
     * belongs to the render in which the button was clicked, so the test
     * reads `seen`, that render's cursor, while the functional update
     * `prev => prev + 1` applies to the live cursor. The status effect then
     * runs under its own guard.
     */
    method HandleStaleStepComplete(seen: nat)
      modifies this
      ensures seen < |old(steps)| - 1 ==> currentStep == old(currentStep) + 1 && isComplete == old(isComplete)
      ensures seen >= |old(steps)| - 1 ==> currentStep == old(currentStep) && isComplete
      ensures seen < |old(steps)| - 1 && currentStep < |old(steps)| ==> steps == WithStatuses(old(steps), currentStep)
      ensures !(seen < |old(steps)| - 1 && currentStep < |old(steps)|) ==> steps == old(steps)
      ensures showWelcome == old(showWelcome) && userGoal == old(userGoal)
    {
      if seen < |steps| - 1 {
        currentStep := currentStep + 1;
        SyncStatuses();
      } else {
        isComplete := true;
      }
    }

    /** `handleRestart`: back to the initial state, whatever the state was. */
    method HandleRestart()
      modifies this
      ensures Valid()
      ensures showWelcome && userGoal == [] && steps == [] && currentStep == 0 && !isComplete
      ensures CurrentPhase() == Welcome
    {
      showWelcome := true;
      userGoal := "";
      steps := [];
      currentStep := 0;
      isComplete := false;
      SyncStatuses();
    }
  }

  /** While the wizard runs, exactly one step is active: the one under the cursor. */
  lemma ExactlyOneActive(steps: seq<Step>, c: nat)
    requires FollowsCursor(steps, c) && c < |steps|
    ensures CountStatus(steps, Active) == 1
    ensures steps[c].status == Active
  {
    CursorCounts(steps, c);
  }

  /** Deriving the statuses twice from the same cursor changes nothing. */
  lemma WithStatusesIdempotent(steps: seq<Step>, c: nat)
    ensures WithStatuses(WithStatuses(steps, c), c) == WithStatuses(steps, c)
  {
  }

  /**
   * A whole session: the goal is submitted, and the active card completes
   * six times. The first five completions move the cursor; the sixth
   * completes the wizard with the cursor, and the active status, still on
   * the last step.
   */
  method CompleteSession(goal: string) returns (flow: OnboardingFlow)
    ensures flow.Valid()
    ensures flow.isComplete && flow.CurrentPhase() == Done
    ensures flow.userGoal == goal && |flow.steps| == 6
    ensures flow.currentStep == 5 && flow.steps[5].status == Active
    ensures forall i | 0 <= i < 5 :: flow.steps[i].status == Completed
  {
    flow := new OnboardingFlow();
    flow.HandleWelcomeComplete(goal);
    var n := 0;
    while n < 6
      invariant 0 <= n <= 6
      invariant flow.Valid() && !flow.showWelcome && flow.userGoal == goal && |flow.steps| == 6
      invariant flow.currentStep == if n < 6 then n else 5
      invariant flow.isComplete <==> n == 6
    {
      flow.HandleStepComplete();
      n := n + 1;
    }
  }

  /**
   * Five quick clicks on "Generate Keys" queue five timers whose handlers all
   * saw cursor 1. Each moves the live cursor on, so the cursor ends at 6, one
   * past the last step: no card is active, the effect's guard keeps the
   * statuses of cursor 5, and the wizard never completes.
   */
  method StaleTimersOverrun(goal: string) returns (flow: OnboardingFlow)
    ensures |flow.steps| == 6 && flow.currentStep == 6 && !flow.isComplete
    ensures flow.CurrentPhase() == Running && FollowsCursor(flow.steps, 5)
    ensures !flow.Valid()
  {
    flow := new OnboardingFlow();
    flow.HandleWelcomeComplete(goal);
    flow.HandleStepComplete();
    var n := 0;
    while n < 5
      invariant 0 <= n <= 5
      invariant !flow.showWelcome && !flow.isComplete && |flow.steps| == 6
      invariant flow.currentStep == 1 + n
      invariant FollowsCursor(flow.steps, if n < 5 then 1 + n else 5)
    {
      flow.HandleStaleStepComplete(1);
      n := n + 1;
    }
  }

  /**
   * The same five completions read against the live cursor, as
   * `HandleStepComplete` does: the cursor stops on the last step and the
   * wizard completes.
   */
  method LiveTimersComplete(goal: string) returns (flow: OnboardingFlow)
    ensures flow.Valid()
    ensures |flow.steps| == 6 && flow.currentStep == 5 && flow.isComplete
    ensures flow.CurrentPhase() == Done
  {
    flow := new OnboardingFlow();
    flow.HandleWelcomeComplete(goal);
    flow.HandleStepComplete();
    var n := 0;
    while n < 5
      invariant 0 <= n <= 5
      invariant flow.Valid() && !flow.showWelcome && |flow.steps| == 6
      invariant flow.currentStep == if n < 4 then 1 + n else 5
      invariant flow.isComplete <==> n == 5
    {
      flow.HandleStepComplete();
      n := n + 1;
    }
  }
}
