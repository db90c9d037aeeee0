# PayFlow onboarding wizard, modelled in Dafny

This project models the logic of a client-side onboarding wizard for a payment product.

- **Welcome dialog** (`WelcomeModal`). It asks for the user's goal and submits it only when the trimmed goal is not empty.
- **Step catalog** (`generateStepsFromGoal`). It builds six setup steps from the goal. A goal that mentions "subscription" turns the checkout step into a subscription button and rewrites the snippet's `mode: 'payment'` into `mode: 'subscription'`.
- **Wizard controller** (`OnboardingFlow`). It holds five fields: `showWelcome`, `userGoal`, `steps`, `currentStep` and `isComplete`.
  - It has three handlers: start, step complete and restart.
  - An effect rewrites every step's status from the cursor.
- **Step cards** (`StepCard`). Each card reacts to its main button by the step's identifier. Its state is `showCode` and `isValidated`.
- **Progress sidebar** (`OnboardingSidebar`). It shows the completed count, the progress percentage and the "All Done" banner.

Modules, leaves first:

| file | module | what it holds |
|---|---|---|
| `wrappers.dfy` | `Wrappers` | `Option`, for an absent prop, a `-1` search result or a NaN |
| `text.dfy` | `Text` | the JavaScript string operations the wizard uses: `includes`, `indexOf`, `replace` with a string pattern, ASCII `toLowerCase` and `trim` |
| `steps.dfy` | `Steps` | step identifiers, statuses, the step catalog with its texts and snippet, `generateStepsFromGoal`, and the status rule |
| `sidebar.dfy` | `Sidebar` | `completedSteps`, `progressPercentage` and the "All Done" condition |
| `flow.dfy` | `Flow` | the class `OnboardingFlow`, its invariant and its handlers |
| `card.dfy` | `Card` | the pure card transitions and the class `StepCard` proved against them |
| `welcome.dfy` | `Welcome` | the submit gate and the class `WelcomeModal` |

## How the model reads the source

The controller is a class. Its invariant `Valid` states four things:

- the dialog is open exactly while there are no steps;
- with no steps, the cursor is 0;
- while there are steps, the cursor is inside the list, every status follows the cursor, and the identifiers are the catalog's;
- once the wizard is complete with steps, the cursor rests on the last step.

The status effect, `useEffect` at `src/components/OnboardingFlow.tsx:98-105`, runs at the end of each handler that changes the cursor or the number of steps. It uses the source's guard.

The card's reactions are pure functions on a `CardState` (`Action`, `MarkAsDone`, `TimerFired`, `CopySnippet`). The `StepCard` methods change the class's fields and are proved to follow those functions.

The checkout snippet is stored as short pieces, each shorter than `mode: 'payment'` and each ending with a character that does not occur in that pattern. This lets the verifier prove that the first occurrence of the pattern is the one on the mode line, so the first-occurrence replacement rewrites that line, and that the rewritten snippet contains the pattern nowhere.

Two behaviours of the source follow from the code and are stated as lemmas:

- **The last step stays active.** Completing the last step sets `isComplete` but leaves the cursor on the last step, so that step keeps the `active` status (`Flow.CompleteSession`). The "All Done" banner therefore never shows while statuses follow the cursor (`Sidebar.AllDoneNeverWhileRunning`). The completion screen replaces the sidebar at that point anyway.
- **The copy-code step copies nothing.** The generated copy-code step carries no snippet, so its action validates and signals without copying anything (`Card.CatalogCopyStepCopiesNothing`).

## Model

| member | source | states |
|---|---|---|
| `Text.Contains` | src/components/OnboardingFlow.tsx:76 | `includes`: the pattern occurs at some position of the text |
| `Text.ReplaceFirst` | src/components/OnboardingFlow.tsx:81 | `replace` with a string pattern: the text unchanged when the pattern is absent; otherwise the first occurrence is replaced, so the length changes by the difference of the two lengths |
| `Text.AsciiLower` | src/components/OnboardingFlow.tsx:76 | `toLowerCase` on ASCII: same length, no upper-case ASCII letter left, every other character kept |
| `Text.IndexOf` | src/components/OnboardingFlow.tsx:81 | the search used by `replace` finds an occurrence exactly when the pattern occurs, and it is the first one |
| `Text.ReplaceFirstAt` | src/components/OnboardingFlow.tsx:81 | when the first occurrence of the pattern is the one after `a` in `a + pat + b`, the replacement yields `a + rep + b` |
| `Text.ReplaceFirstAbsent` | src/components/OnboardingFlow.tsx:81 | replacing a pattern that does not occur leaves the text unchanged |
| `Text.LowerContainsIff` | src/components/OnboardingFlow.tsx:76 | the lower-cased goal contains a lower-case word exactly when the goal matches it at some position ignoring ASCII case |
| `Text.Trim` | src/components/WelcomeModal.tsx:18-19 | the trimmed goal has no whitespace at either end, is no longer than the input, and is empty exactly when the input is all whitespace |
| `Text.TrimIsInfix` | src/components/WelcomeModal.tsx:19 | the trimmed goal is the part of the input that starts right after the leading whitespace |
| `Text.TrimRemovesOnlyWhitespace` | src/components/WelcomeModal.tsx:19 | everything trimming removes, before and after, is whitespace |
| `Text.TrimIdempotent` | src/components/WelcomeModal.tsx:19 | trimming twice is trimming once |
| `Steps.IdNameParse` | src/components/StepCard.tsx:38-56 | reading a string identifier into a `StepId` loses nothing and gives a canonical identifier |
| `Steps.ParseIdName` | src/components/StepCard.tsx:38-56 | a canonical identifier survives a round trip through its string form |
| `Steps.MentionsSubscription` | src/components/OnboardingFlow.tsx:76 | the goal, lower-cased, includes "subscription" |
| `Steps.SubscriptionVariant` | src/components/OnboardingFlow.tsx:77-82 | the spread keeps identifier, content, action and validation text; title and description become the subscription texts; a snippet is present exactly when it was |
| `Steps.BaseSteps` | src/components/OnboardingFlow.tsx:9-73 | the catalog has six steps, in the fixed identifier order |
| `Steps.GenerateStepsFromGoal` | src/components/OnboardingFlow.tsx:8-89 | for every goal: six steps, identifiers in catalog order and pairwise distinct, every status pending |
| `Steps.PaymentSnippetMode` | src/components/OnboardingFlow.tsx:32-46 | the shipped checkout snippet selects `mode: 'payment'` |
| `Steps.RewriteHitsModeLine` | src/components/OnboardingFlow.tsx:81 | the first-occurrence rewrite of the payment snippet gives exactly the snippet whose mode line says `mode: 'subscription'` |
| `Steps.SubscriptionSnippetLacksPayment` | src/components/OnboardingFlow.tsx:81 | the rewritten snippet no longer contains `mode: 'payment'` |
| `Steps.SubscriptionSnippetMode` | src/components/OnboardingFlow.tsx:81 | the rewritten snippet contains `mode: 'subscription'` and not `mode: 'payment'` |
| `Steps.CheckoutStepFollowsGoal` | src/components/OnboardingFlow.tsx:76-83 | if the goal mentions "subscription" in any ASCII case, the checkout step gets the subscription title, description and rewritten snippet and keeps everything else; otherwise it is the catalog's step unchanged |
| `Steps.SubscriptionGoalSnippet` | src/components/OnboardingFlow.tsx:76-83 | a goal that mentions "subscription" yields a checkout snippet in subscription mode with no payment mode left |
| `Steps.OtherStepsIgnoreGoal` | src/components/OnboardingFlow.tsx:76-83 | every step other than the checkout step is the same for any two goals |
| `Steps.StatusAt` | src/components/OnboardingFlow.tsx:102 | the status rule: completed before the cursor, active on it, pending after it |
| `Steps.WithStatuses` | src/components/OnboardingFlow.tsx:100-103 | the effect's mapping keeps length and step contents and makes every status follow the cursor |
| `Steps.CountStatus` | src/components/OnboardingSidebar.tsx:18 | a status count never exceeds the number of steps |
| `Steps.CountStatusAll` | src/components/OnboardingSidebar.tsx:93 | a status is counted once per step exactly when every step has that status |
| `Steps.CursorCounts` | src/components/OnboardingFlow.tsx:99-103 | under cursor-derived statuses: the cursor counts as the number of completed steps, one step is active while the cursor is inside, and the rest are pending |
| `Sidebar.CountStatusIsMultiplicity` | src/components/OnboardingSidebar.tsx:18 | counting a status agrees with its multiplicity in the multiset of statuses |
| `Sidebar.CompletedSteps` | src/components/OnboardingSidebar.tsx:18 | `completedSteps` is the number of completed statuses, at most the number of steps |
| `Sidebar.ProgressPercentage` | src/components/OnboardingSidebar.tsx:19 | NaN exactly for no steps; otherwise between 0 and 100, 0 exactly when none is completed and 100 exactly when all are |
| `Sidebar.AllDone` | src/components/OnboardingSidebar.tsx:93 | the banner condition: the completed count equals the number of steps |
| `Sidebar.AllDoneIff` | src/components/OnboardingSidebar.tsx:93 | the banner condition holds exactly when every step is completed |
| `Sidebar.CompletedOfDerived` | src/components/OnboardingSidebar.tsx:18-19 | with statuses derived from cursor `c` inside the list, `completedSteps` is `c` and the percentage is `c / length * 100` |
| `Sidebar.AllDoneNeverWhileRunning` | src/components/OnboardingSidebar.tsx:93 | with statuses derived from a cursor inside the list, the banner is not shown and the percentage stays below 100 |
| `Flow.OnboardingFlow.Valid` | src/components/OnboardingFlow.tsx:92-121 | the controller's invariant: dialog open exactly without steps, cursor 0 without steps, cursor inside the list with statuses following it and catalog identifiers, cursor on the last step once complete |
| `Flow.OnboardingFlow.CurrentPhase` | src/components/OnboardingFlow.tsx:131-173 | the completion screen shows exactly when complete, and the welcome dialog exactly when it is open and the wizard is not complete |
| `Flow.OnboardingFlow.constructor` | src/components/OnboardingFlow.tsx:92-96 | the wizard starts valid, with the dialog open, no goal, no steps, cursor 0 and not complete |
| `Flow.OnboardingFlow.SyncStatuses` | src/components/OnboardingFlow.tsx:98-105 | with steps and the cursor inside them, every status is rewritten from the cursor; otherwise the steps are untouched; nothing else changes |
| `Flow.OnboardingFlow.HandleWelcomeComplete` | src/components/OnboardingFlow.tsx:107-113 | stores the goal, generates the steps, closes the dialog, puts the cursor on step 0 with statuses derived, and keeps the invariant |
| `Flow.OnboardingFlow.HandleStepComplete` | src/components/OnboardingFlow.tsx:115-121 | before the last step the cursor advances by one and statuses follow it; on the last step the wizard completes with cursor and steps unchanged; the invariant holds, so a completion read against the live cursor never takes it to the length |
| `Flow.OnboardingFlow.HandleRestart` | src/components/OnboardingFlow.tsx:123-129 | from any state: dialog open, goal empty, no steps, cursor 0, not complete, invariant holds |
| `Flow.OnboardingFlow.HandleStaleStepComplete` | src/components/OnboardingFlow.tsx:115-121 | the handler as a delayed timer runs it: the test reads the cursor seen at click time, the increment applies to the live cursor, and the status effect runs only while the cursor is inside the list |
| `Flow.ExactlyOneActive` | src/components/OnboardingFlow.tsx:99-103 | with statuses derived from a cursor inside the list, exactly one step is active: the one under the cursor |
| `Flow.WithStatusesIdempotent` | src/components/OnboardingFlow.tsx:98-105 | running the effect twice from the same cursor is running it once |
| `Flow.CompleteSession` | src/components/OnboardingFlow.tsx:107-121 | after a goal is submitted, six completions complete the wizard with the cursor on the last step, which is still active, and the five before it completed |
| `Flow.StaleTimersOverrun` | src/components/OnboardingFlow.tsx:115-121 | five completions queued by the api-keys step, all reading cursor 1, leave the cursor at 6 on six steps: nothing active, statuses stuck at cursor 5, never complete, invariant broken |
| `Flow.LiveTimersComplete` | src/components/OnboardingFlow.tsx:115-121 | the same five completions read against the live cursor stop on the last step and complete the wizard, keeping the invariant |
| `Card.Controls` | src/components/StepCard.tsx:64-153 | an inactive card renders no button; the active card always renders the main button; "Mark as Done" exactly on the active checkout card once the code is revealed and before validation; "Open Dashboard" exactly on the active search-transaction card |
| `Card.Clickable` | src/components/StepCard.tsx:121-153 | a control can be clicked when rendered, except the main button once validated |
| `Card.Click` | src/components/StepCard.tsx:104-153 | a click on any control signals at most once, only with the step validated, and only the main button schedules a timer |
| `Card.ShowsSnippet` | src/components/StepCard.tsx:100 | the snippet block shows on the active card with a non-empty snippet once the code is revealed |
| `Card.ShowsValidation` | src/components/StepCard.tsx:156 | the validation text shows on the active card with a non-empty text once validated |
| `Card.CopySnippet` | src/components/StepCard.tsx:27-35 | copies the snippet only when it is a non-empty string, and changes nothing else |
| `Card.Action` | src/components/StepCard.tsx:37-62 | the main button signals at most once, only after validating, and never cancels a pending timer |
| `Card.MarkAsDone` | src/components/StepCard.tsx:139-142 | "Mark as Done" validates and signals once, keeping the revealed code |
| `Card.TimerFired` | src/components/StepCard.tsx:43-46 | a firing api-keys timer validates and signals once and is no longer pending |
| `Card.MainLabel` | src/components/StepCard.tsx:126-133 | the label is never empty: "Completed" once validated, else the action text when it is a non-empty string, else "Complete Step" |
| `Card.MainButtonEnabledIff` | src/components/StepCard.tsx:121-123 | the main button can be clicked exactly on the active card before validation |
| `Card.CopyButtonWithSnippet` | src/components/StepCard.tsx:100-113 | the Copy button is offered exactly when the snippet block is shown |
| `Card.SnippetShownAfterReveal` | src/components/StepCard.tsx:100 | a fresh card shows no snippet; the main button reveals one only on the checkout step carrying a snippet |
| `Card.ValidationShownAfterSignal` | src/components/StepCard.tsx:156 | after a click that signals, the validation text is shown; after a click that neither signals nor was preceded by validation, it is not |
| `Card.OnlyActiveCardSignals` | src/components/StepCard.tsx:64-76 | any clickable control belongs to the active card, and a click signals at most once and only with the step validated |
| `Card.ImmediateStepsCompleteOnce` | src/components/StepCard.tsx:37-62 | on test-mode, copy-code, email-notifications and search-transaction the main button validates, signals exactly once, and is then disabled and reads "Completed"; search-transaction also opens one tab, copy-code copies as `handleCopyCode` does, the others add no effect |
| `Card.CheckoutNeedsTwoClicks` | src/components/StepCard.tsx:136-146 | on checkout-button "Mark as Done" is absent at first; the main button reveals the code without signalling; then "Mark as Done" appears, validates, signals once and disappears |
| `Card.CheckoutActionOnlyReveals` | src/components/StepCard.tsx:47-48 | on checkout-button the main button only sets `showCode` |
| `Card.UnknownIdIsNoOp` | src/components/StepCard.tsx:37-61 | a canonical identifier outside the catalog, that is a string none of the six branches matches, makes the main button do nothing |
| `Card.ClickMainTimes` | src/components/StepCard.tsx:41-46 | repeated api-keys clicks each schedule one timer and change nothing else |
| `Card.FireAll` | src/components/StepCard.tsx:43-46 | letting every pending timer fire signals once per timer and validates the step |
| `Card.ApiKeysClicksQueueCompletions` | src/components/StepCard.tsx:41-46 | the api-keys button stays enabled until a timer fires, so `k` clicks signal `k` times: no at-most-once guarantee |
| `Card.StepCard.constructor` | src/components/StepCard.tsx:22-24 | a fresh card has the code hidden, is not validated, and has no timers and no effects |
| `Card.StepCard.SetActive` | src/components/OnboardingFlow.tsx:189-195 | a change of the active card keeps the card's state |
| `Card.StepCard.HandleAction` | src/components/StepCard.tsx:37-62 | the identifier dispatch changes the fields and returns the signal count exactly as `Action` prescribes |
| `Card.StepCard.HandleCopyCode` | src/components/StepCard.tsx:27-35 | the fields change exactly as `CopySnippet` prescribes |
| `Card.StepCard.HandleMarkAsDone` | src/components/StepCard.tsx:139-142 | the fields and signal count follow `MarkAsDone` |
| `Card.StepCard.FireTimer` | src/components/StepCard.tsx:43-46 | the fields and signal count follow `TimerFired` |
| `Card.CatalogCopyStepCopiesNothing` | src/components/OnboardingFlow.tsx:49-56 | the generated copy-code step has no snippet, so its action validates and signals without copying |
| `Welcome.Submission` | src/components/WelcomeModal.tsx:18-19 | a goal is submitted exactly when it is not all whitespace, and what is submitted is the trimmed goal: non-empty, with no whitespace at either end |
| `Welcome.SubmitDisabled` | src/components/WelcomeModal.tsx:57 | the submit button is disabled exactly when no submission would happen, that is, when the goal is all whitespace |
| `Welcome.WelcomeModal.constructor` | src/components/WelcomeModal.tsx:14 | the dialog starts with an empty goal and submitting disabled |
| `Welcome.WelcomeModal.OnChange` | src/components/WelcomeModal.tsx:47 | the field stores the raw value, untrimmed |
| `Welcome.WelcomeModal.HandleSubmit` | src/components/WelcomeModal.tsx:16-21 | the submit handler hands on the trimmed goal exactly when submitting is enabled, and otherwise hands on nothing |
| `Welcome.SubmissionIgnoresSurroundingBlanks` | src/components/WelcomeModal.tsx:19 | a goal and its trimmed form submit the same value |

## Findings

| source | as written | input that shows it | evidently intended | confidence | as-written member | corrected member |
|---|---|---|---|---|---|---|
| src/components/OnboardingFlow.tsx:115-121 | the api-keys button stays enabled until its one-second timer fires (src/components/StepCard.tsx:41-46 and 121-123), and each timer runs the `handleStepComplete` of the click's render: its test `currentStep < steps.length - 1` reads the cursor of that render while `prev => prev + 1` moves the live cursor | five clicks on "Generate Keys" at cursor 1 within one second: the cursor goes to 2, 3, 4, 5 and 6; at 6 the effect's guard fails, no card is active, `isComplete` is never set and the wizard cannot go on; two to four clicks mark the later steps completed without their actions | each completion is tested against the live cursor, so the cursor stops on the last step and the wizard completes | not executed; high, from the code | `Flow.OnboardingFlow.HandleStaleStepComplete`, exhibited by `Flow.StaleTimersOverrun` | `Flow.OnboardingFlow.HandleStepComplete`, which keeps `Valid`, exhibited by `Flow.LiveTimersComplete` |

## Left out

- Markup, styling, icons, the dialog, card and button library components, and the completion screen's texts are presentation only.
- Toast notifications, `navigator.clipboard.writeText` and `window.open` are calls into the browser. They are recorded as `Copied` and `OpenedTab` effects; the toast is not recorded.
- React scheduling and batching are not modelled. Each handler applies its state updates, then the status effect, at once.
- The one-second delay of `setTimeout` is not modelled. A click adds a pending timer, and `FireTimer` resolves one at any later point.
- The "Open Dashboard" button has no handler in the source; clicking it does nothing.
- Floating-point rounding of `progressPercentage` is not modelled. The model computes the exact ratio as a `real`. NaN for an empty list is `None`.
- `Steps.MentionsSubscription`, `Text.AsciiLower`: `toLowerCase` is modelled on ASCII letters only. The only non-ASCII characters whose lower case contains ASCII letters are U+0130, which lowers to `i` followed by a combining dot, and U+212A, which lowers to `k`. Neither can complete the word "subscription", so the test gives the same answer as the source's test for every goal. That argument is not proved here.
- `Text.ReplaceFirst`: the replacement string is used literally. JavaScript would interpret `$` patterns in it, and the one replacement the source uses has none.
- `Flow.OnboardingFlow.HandleWelcomeComplete` requires the dialog to be open and the wizard not complete, because only then is the dialog rendered. Outside that state, the source's effect would not re-run when the cursor was already 0 and the number of steps stayed the same.
- `Flow.OnboardingFlow.HandleStepComplete` reads the live cursor. The source's api-keys timer runs the handler of the render in which the button was clicked, which reads that render's cursor; that path is `Flow.OnboardingFlow.HandleStaleStepComplete`, and what it does is under "## Findings".
- `Flow.OnboardingFlow.HandleStepComplete` does not require a phase. Step cards render only while the wizard runs, and the model states what the handler does from any valid state, including setting `isComplete` when there are no steps.
- The source names its steps with strings. The model names them with `StepId` and relates the two through `Steps.IdName` and `Steps.ParseId`.
