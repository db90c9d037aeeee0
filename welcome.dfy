/**
 * The welcome dialog, `WelcomeModal`: a text field for the user's goal and a
 * submit button that hands the trimmed goal to the wizard.
 */
module Welcome {
  import opened Wrappers
  import opened Text

  /** The goal a submission hands on: the trimmed goal, when anything is left of it. */
  function Submission(goal: string): (r: Option<string>)
    ensures r.Some? <==> !AllWhitespace(goal)
    ensures r.Some? ==> r.value == Trim(goal) && r.value != [] && IsTrimmed(r.value)
  {
    var t := Trim(goal);
    if t != [] then Some(t) else None
  }

  /** The submit button is disabled exactly when no submission would happen. */
  function SubmitDisabled(goal: string): (disabled: bool)
    ensures disabled <==> Submission(goal).None?
    ensures disabled <==> AllWhitespace(goal)
  {
    Trim(goal) == []
  }

  class WelcomeModal {
    var goal: string

    /** The dialog opens with an empty goal, so submitting is disabled. */
    constructor ()
      ensures goal == [] && SubmitDisabled(goal)
    {
      goal := "";
    }

    /** The text field's change handler: the raw value, untrimmed. */
    method OnChange(value: string)
      modifies this
      ensures goal == value
    {
      goal := value;
    }

    /**
     * `handleSubmit`: hands on the trimmed goal when it is not empty, and
     * otherwise does nothing. The goal itself is not changed.
     */
    method HandleSubmit() returns (submitted: Option<string>)
      ensures submitted == Submission(goal)
      ensures submitted.Some? <==> !SubmitDisabled(goal)
    {
      var t := Trim(goal);
      if t != [] {
        submitted := Some(t);
      } else {
        submitted := None;
      }
    }
  }

  /** A goal typed with surrounding blanks submits the same as the bare goal. */
  lemma SubmissionIgnoresSurroundingBlanks(goal: string)
    ensures Submission(Trim(goal)) == Submission(goal)
  {
    TrimIdempotent(goal);
  }
}
