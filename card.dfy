/**
 * One step's card, `StepCard`: it reveals the code snippet, validates the
 * step and signals the wizard (`onComplete`) according to the step's
 * identifier.
 *
 * The card's reaction to each click is given as a pure transition on
 * `CardState`; the class `StepCard` holds that state in fields and its
 * methods are proved to follow the transition. Clipboard writes and the new
 * browser tab are recorded as `Effect`s; the one-second timer of the
 * api-keys step is a count of pending timers that `FireTimer` resolves.
 */
module Card {
  import opened Wrappers
  import opened Steps

  /** The outside world's view of a card: what it copied and what it opened. */
  datatype Effect = Copied(text: string) | OpenedTab

  /** The buttons a card can show. */
  datatype Control = MainButton | CopyButton | MarkAsDoneButton | OpenDashboardButton

  /** The card's own state. */
  datatype CardState = CardState(showCode: bool, isValidated: bool, pendingTimers: nat, effects: seq<Effect>)

  /** A click's result: the new state and how many times `onComplete` ran. */
  datatype Outcome = Outcome(state: CardState, completions: nat)

  /** The state of a freshly mounted card. */
  const Initial := CardState(false, false, 0, [])

  /** JavaScript truthiness of an optional string: present and not empty. */
  predicate Truthy(s: Option<string>)
  {
    s.Some? && s.value != []
  }

  /** The buttons a card renders. An inactive card renders only its title and description. */
  function Controls(step: StepDef, st: CardState, isActive: bool): (cs: set<Control>)
    ensures !isActive ==> cs == {}
    ensures isActive ==> MainButton in cs
    ensures MarkAsDoneButton in cs <==> isActive && step.id == CheckoutButton && st.showCode && !st.isValidated
    ensures OpenDashboardButton in cs <==> isActive && step.id == SearchTransaction
  {
    if !isActive then {}
    else
      {MainButton}
      + (if Truthy(step.codeSnippet) && st.showCode then {CopyButton} else {})
      + (if step.id == CheckoutButton && st.showCode && !st.isValidated then {MarkAsDoneButton} else {})
      + (if step.id == SearchTransaction then {OpenDashboardButton} else {})
  }

  /** A control that a click can reach: rendered, and not the disabled main button. */
  predicate Clickable(step: StepDef, st: CardState, isActive: bool, control: Control)
  {
    control in Controls(step, st, isActive) && !(control == MainButton && st.isValidated)
  }

  /** `handleCopyCode`: copies the snippet when it is truthy, otherwise does nothing. */
  function CopySnippet(step: StepDef, st: CardState): (r: CardState)
    ensures r.showCode == st.showCode && r.isValidated == st.isValidated && r.pendingTimers == st.pendingTimers
    ensures Truthy(step.codeSnippet) ==> r.effects == st.effects + [Copied(step.codeSnippet.value)]
    ensures !Truthy(step.codeSnippet) ==> r == st
  {
    if Truthy(step.codeSnippet) then st.(effects := st.effects + [Copied(step.codeSnippet.value)]) else st
  }

  /** `handleAction`: the main button's click, dispatched on the step's identifier. */
  function Action(step: StepDef, st: CardState): (r: Outcome)
    ensures r.completions <= 1
    ensures r.completions == 1 ==> r.state.isValidated
    ensures r.state.pendingTimers >= st.pendingTimers
  {
    match step.id
    case TestMode => Outcome(st.(isValidated := true), 1)
    case ApiKeys => Outcome(st.(pendingTimers := st.pendingTimers + 1), 0)
    case CheckoutButton => Outcome(st.(showCode := true), 0)
    case CopyCode => Outcome(CopySnippet(step, st).(isValidated := true), 1)
    case EmailNotifications => Outcome(st.(isValidated := true), 1)
    case SearchTransaction => Outcome(st.(effects := st.effects + [OpenedTab], isValidated := true), 1)
    case Other(_) => Outcome(st, 0)
  }

  /** The "Mark as Done" button: validates and signals once. */
  function MarkAsDone(st: CardState): (r: Outcome)
    ensures r.state.isValidated && r.completions == 1
    ensures r.state.showCode == st.showCode && r.state.effects == st.effects
  {
    Outcome(st.(isValidated := true), 1)
  }

  /** The api-keys timer firing: validates and signals once, whether or not the card is still active. */
  function TimerFired(st: CardState): (r: Outcome)
    requires st.pendingTimers > 0
    ensures r.state.isValidated && r.completions == 1
    ensures r.state.pendingTimers == st.pendingTimers - 1
  {
    Outcome(st.(pendingTimers := st.pendingTimers - 1, isValidated := true), 1)
  }

  /** A click on a control. The "Open Dashboard" button has no handler. */
  function Click(step: StepDef, st: CardState, control: Control): (r: Outcome)
    ensures r.completions <= 1
    ensures r.completions == 1 ==> r.state.isValidated
    ensures control != MainButton ==> r.state.pendingTimers == st.pendingTimers
  {
    match control
    case MainButton => Action(step, st)
    case CopyButton => Outcome(CopySnippet(step, st), 0)
    case MarkAsDoneButton => MarkAsDone(st)
    case OpenDashboardButton => Outcome(st, 0)
  }

  /** The main button's label. */
  function MainLabel(step: StepDef, st: CardState): (caption: string)
    ensures caption != []
    ensures st.isValidated ==> caption == "Completed"
    ensures !st.isValidated && Truthy(step.action) ==> caption == step.action.value
    ensures !st.isValidated && !Truthy(step.action) ==> caption == "Complete Step"
  {
    if st.isValidated then "Completed"
    else if Truthy(step.action) then step.action.value
    else "Complete Step"
  }

  /** Whether the snippet block is rendered. */
  predicate ShowsSnippet(step: StepDef, st: CardState, isActive: bool)
  {
    isActive && Truthy(step.codeSnippet) && st.showCode
  }

  /** Whether the validation text is rendered. */
  predicate ShowsValidation(step: StepDef, st: CardState, isActive: bool)
  {
    isActive && Truthy(step.validationText) && st.isValidated
  }

  /** The main button is rendered on the active card and can be clicked until the step is validated. */
  lemma MainButtonEnabledIff(step: StepDef, st: CardState, isActive: bool)
    ensures Clickable(step, st, isActive, MainButton) <==> isActive && !st.isValidated
  {
  }

  /** The Copy button lives in the snippet block: it is offered exactly when the snippet is shown. */
  lemma CopyButtonWithSnippet(step: StepDef, st: CardState, isActive: bool)
    ensures CopyButton in Controls(step, st, isActive) <==> ShowsSnippet(step, st, isActive)
  {
  }

  /**
   * A fresh card shows no snippet; only the checkout step's action reveals
   * one, and then only when the step carries a snippet.
   */
  lemma SnippetShownAfterReveal(step: StepDef, st: CardState)
    ensures !ShowsSnippet(step, Initial, true)
    ensures !st.showCode ==>
      (ShowsSnippet(step, Action(step, st).state, true) <==> step.id == CheckoutButton && Truthy(step.codeSnippet))
  {
  }

  /** The validation text appears on the active card once a click has validated the step. */
  lemma ValidationShownAfterSignal(step: StepDef, st: CardState, control: Control)
    requires Clickable(step, st, true, control) && Truthy(step.validationText)
    ensures Click(step, st, control).completions == 1 ==> ShowsValidation(step, Click(step, st, control).state, true)
    ensures !st.isValidated && Click(step, st, control).completions == 0 ==> !ShowsValidation(step, Click(step, st, control).state, true)
  {
  }

  /** An inactive card offers nothing to click, so a click signals only from the active card. */
  lemma OnlyActiveCardSignals(step: StepDef, st: CardState, isActive: bool, control: Control)
    requires Clickable(step, st, isActive, control)
    ensures isActive
    ensures Click(step, st, control).completions <= 1
    ensures Click(step, st, control).completions == 1 ==> Click(step, st, control).state.isValidated
  {
  }

  /** The steps that validate and signal on the first click of the main button. */
  predicate CompletesImmediately(id: StepId)
  {
    id == TestMode || id == CopyCode || id == EmailNotifications || id == SearchTransaction
  }

  /**
   * For test-mode, copy-code, email-notifications and search-transaction,
   * the main button validates the step and signals exactly once, after which
   * it is disabled and reads "Completed".
   */
  lemma ImmediateStepsCompleteOnce(step: StepDef, st: CardState)
    requires CompletesImmediately(step.id) && Clickable(step, st, true, MainButton)
    ensures Click(step, st, MainButton).completions == 1
    ensures var after := Click(step, st, MainButton).state;
      after.isValidated && after.showCode == st.showCode && after.pendingTimers == st.pendingTimers
      && !Clickable(step, after, true, MainButton) && MainLabel(step, after) == "Completed"
    ensures var after := Click(step, st, MainButton).state;
      if step.id == CopyCode then after.effects == CopySnippet(step, st).effects
      else after.effects == st.effects + (if step.id == SearchTransaction then [OpenedTab] else [])
  {
  }

  /**
   * The checkout-button step needs two clicks: the main button only reveals
   * the code, and only then does "Mark as Done" appear, which validates and
   * signals once.
   */
  lemma CheckoutNeedsTwoClicks(step: StepDef)
    requires step.id == CheckoutButton
    ensures !Clickable(step, Initial, true, MarkAsDoneButton)
    ensures var first := Click(step, Initial, MainButton);
      && first.completions == 0 && first.state.showCode && !first.state.isValidated
      && Clickable(step, first.state, true, MarkAsDoneButton)
      && Click(step, first.state, MarkAsDoneButton).completions == 1
      && Click(step, first.state, MarkAsDoneButton).state.isValidated
      && !Clickable(step, Click(step, first.state, MarkAsDoneButton).state, true, MarkAsDoneButton)
  {
    assert MarkAsDoneButton !in Controls(step, Initial, true);
  }

  /** On the checkout step the main button never signals and never validates. */
  lemma CheckoutActionOnlyReveals(step: StepDef, st: CardState)
    requires step.id == CheckoutButton
    ensures Action(step, st) == Outcome(st.(showCode := true), 0)
  {
  }

  /**
   * An identifier outside the catalog makes the main button do nothing. A
   * canonical `Other` names a string that none of the six branches matches.
   */
  lemma UnknownIdIsNoOp(step: StepDef, st: CardState)
    requires step.id.Other? && Canonical(step.id)
    ensures Action(step, st) == Outcome(st, 0)
  {
  }

  /** `k` clicks of the main button, none of them signalling anything. */
  function ClickMainTimes(step: StepDef, st: CardState, k: nat): (r: CardState)
    requires step.id == ApiKeys
    ensures r.pendingTimers == st.pendingTimers + k
    ensures r.isValidated == st.isValidated && r.showCode == st.showCode && r.effects == st.effects
    decreases k
  {
    if k == 0 then st else ClickMainTimes(step, Action(step, st).state, k - 1)
  }

  /** All pending timers firing, in turn; the result counts the signals. */
  function FireAll(st: CardState): (r: Outcome)
    ensures r.state.pendingTimers == 0
    ensures r.completions == st.pendingTimers
    ensures st.pendingTimers > 0 ==> r.state.isValidated
    decreases st.pendingTimers
  {
    if st.pendingTimers == 0 then Outcome(st, 0)
    else
      var next := TimerFired(st);
      var rest := FireAll(next.state);
      Outcome(rest.state, rest.completions + 1)
  }

  /**
   * The api-keys button stays enabled until a timer fires, so `k` clicks
   * before then schedule `k` timers, and together they signal `k` times:
   * the api-keys step does not complete at most once.
   */
  lemma ApiKeysClicksQueueCompletions(step: StepDef, k: nat)
    requires step.id == ApiKeys && k > 0
    ensures var queued := ClickMainTimes(step, Initial, k);
      && Clickable(step, queued, true, MainButton)
      && FireAll(queued).completions == k
      && FireAll(queued).state.isValidated
  {
  }

  /** The card component: the step it shows, whether it is active, and its state. */
  class StepCard {
    const step: StepDef
    var isActive: bool
    var showCode: bool
    var isValidated: bool
    var pendingTimers: nat
    var effects: seq<Effect>

    /** The fields as a `CardState`. */
    function State(): CardState
      reads this
    {
      CardState(showCode, isValidated, pendingTimers, effects)
    }

    constructor (step: StepDef, isActive: bool)
      ensures this.step == step && this.isActive == isActive
      ensures State() == Initial
    {
      this.step := step;
      this.isActive := isActive;
      showCode := false;
      isValidated := false;
      pendingTimers := 0;
      effects := [];
    }

    /** The wizard moved its cursor: the card keeps its state, only its activity changes. */
    method SetActive(active: bool)
      modifies this
      ensures isActive == active && State() == old(State())
    {
      isActive := active;
    }

    /** `handleAction`, reached by clicking the enabled main button. */
    method HandleAction() returns (completions: nat)
      requires Clickable(step, State(), isActive, MainButton)
      modifies this
      ensures Outcome(State(), completions) == Action(step, old(State()))
      ensures isActive == old(isActive)
    {
      completions := 0;
      if step.id == TestMode {
        isValidated := true;
        completions := 1;
      } else if step.id == ApiKeys {
        pendingTimers := pendingTimers + 1;
      } else if step.id == CheckoutButton {
        showCode := true;
      } else if step.id == CopyCode {
        HandleCopyCode();
        isValidated := true;
        completions := 1;
      } else if step.id == EmailNotifications {
        isValidated := true;
        completions := 1;
      } else if step.id == SearchTransaction {
        effects := effects + [OpenedTab];
        isValidated := true;
        completions := 1;
      }
    }

    /** `handleCopyCode`: from the copy-code action or the snippet's Copy button. */
    method HandleCopyCode()
      modifies this
      ensures State() == CopySnippet(step, old(State()))
      ensures isActive == old(isActive)
    {
      if step.codeSnippet.Some? && step.codeSnippet.value != [] {
        effects := effects + [Copied(step.codeSnippet.value)];
      }
    }

    /** The "Mark as Done" button's click. */
    method HandleMarkAsDone() returns (completions: nat)
      requires Clickable(step, State(), isActive, MarkAsDoneButton)
      modifies this
      ensures Outcome(State(), completions) == MarkAsDone(old(State()))
      ensures isActive == old(isActive)
    {
      isValidated := true;
      completions := 1;
    }

    /** One api-keys timer fires. */
    method FireTimer() returns (completions: nat)
      requires pendingTimers > 0
      modifies this
      ensures Outcome(State(), completions) == TimerFired(old(State()))
      ensures isActive == old(isActive)
    {
      pendingTimers := pendingTimers - 1;
      isValidated := true;
      completions := 1;
    }
  }

  /**
   * The copy-code step of the generated catalog carries no snippet, so its
   * action validates and signals without copying anything.
   */
  lemma CatalogCopyStepCopiesNothing(goal: string, st: CardState)
    ensures var step := GenerateStepsFromGoal(goal)[3].def;
      step.id == CopyCode && Action(step, st) == Outcome(st.(isValidated := true), 1)
  {
  }
}
