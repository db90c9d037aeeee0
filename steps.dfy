/**
 * The step data model and the step catalog: the six onboarding steps that
 * `generateStepsFromGoal` builds from the user's goal, and the rule that
 * derives each step's display status from the wizard's cursor.
 */
module Steps {
  import opened Wrappers
  import opened Text

  /** The identifiers the step card dispatches on; any other string is `Other`. */
  datatype StepId =
    | TestMode
    | ApiKeys
    | CheckoutButton
    | CopyCode
    | EmailNotifications
    | SearchTransaction
    | Other(name: string)

  /** The identifier as the string the source uses. */
  function IdName(id: StepId): string
  {
    match id
    case TestMode => "test-mode"
    case ApiKeys => "api-keys"
    case CheckoutButton => "checkout-button"
    case CopyCode => "copy-code"
    case EmailNotifications => "email-notifications"
    case SearchTransaction => "search-transaction"
    case Other(name) => name
  }

  /** Reads a string identifier, as the `step.id === '…'` chain does. */
  function ParseId(name: string): StepId
  {
    if name == "test-mode" then TestMode
    else if name == "api-keys" then ApiKeys
    else if name == "checkout-button" then CheckoutButton
    else if name == "copy-code" then CopyCode
    else if name == "email-notifications" then EmailNotifications
    else if name == "search-transaction" then SearchTransaction
    else Other(name)
  }

  /** An identifier in canonical form: `Other` never carries a known name. */
  predicate Canonical(id: StepId)
  {
    id.Other? ==> ParseId(id.name) == id
  }

  /** Reading a string identifier loses nothing. */
  lemma IdNameParse(name: string)
    ensures IdName(ParseId(name)) == name
    ensures Canonical(ParseId(name))
  {
  }

  /** Canonical identifiers survive a round trip through their string form. */
  lemma ParseIdName(id: StepId)
    requires Canonical(id)
    ensures ParseId(IdName(id)) == id
  {
  }

  datatype Status = Pending | Active | Completed

  /** The static part of a step: what `StepCard` receives. */
  datatype StepDef = StepDef(
    id: StepId,
    title: string,
    description: string,
    action: Option<string>,
    content: Option<string>,
    codeSnippet: Option<string>,
    validationText: Option<string>)

  /** A step as the wizard and the sidebar hold it. */
  datatype Step = Step(def: StepDef, status: Status)

  /** The identifiers of a step list, in order. */
  function Ids(steps: seq<Step>): (ids: seq<StepId>)
    ensures |ids| == |steps|
    ensures forall i | 0 <= i < |steps| :: ids[i] == steps[i].def.id
  {
    seq(|steps|, i requires 0 <= i < |steps| => steps[i].def.id)
  }

  /** The fixed order of the catalog. */
  const CatalogOrder: seq<StepId> :=
    [TestMode, ApiKeys, CheckoutButton, CopyCode, EmailNotifications, SearchTransaction]

  /** The literal the subscription rule rewrites, and what it becomes. */
  const PaymentMode: string := "mode: 'payment'"
  const SubscriptionMode: string := "mode: 'subscription'"

  /**
   * The checkout snippet before and after its mode line, cut into pieces
   * shorter than `PaymentMode`, each ending with a character that does not
   * occur in `PaymentMode`. No piece can hold the payment mode, and no
   * occurrence can straddle two pieces.
   */
  const HeadPiece0: string := "<script src=\"h"
  const HeadPiece1: string := "ttps://js.payf"
  const HeadPiece2: string := "low.com/v3/\"><"
  const HeadPiece3: string := "/script>\n<bu"
  const HeadPiece4: string := "tton id=\"check"
  const HeadPiece5: string := "out-button\">Bu"
  const HeadPiece6: string := "y Now</button>"
  const HeadPiece7: string := "\n<script>\n"
  const HeadPiece8: string := "  document.g"
  const HeadPiece9: string := "etElementById("
  const HeadPiece10: string := "'checkout-bu"
  const HeadPiece11: string := "tton').addEv"
  const HeadPiece12: string := "entListener('c"
  const HeadPiece13: string := "lick', functi"
  const HeadPiece14: string := "on() {\n    P"
  const HeadPiece15: string := "ayFlow.redirec"
  const HeadPiece16: string := "tToCheckout({\n"
  const HeadPiece17: string := "      items: ["
  const HeadPiece18: string := "{\n        pric"
  const HeadPiece19: string := "e: 'price_1234"
  const HeadPiece20: string := "567890',\n"
  const HeadPiece21: string := "        quanti"
  const HeadPiece22: string := "ty: 1,\n      }"
  const HeadPiece23: string := "],\n"

  const SnippetHead: seq<string> := [
    HeadPiece0, HeadPiece1, HeadPiece2, HeadPiece3, HeadPiece4, HeadPiece5, HeadPiece6,
    HeadPiece7, HeadPiece8, HeadPiece9, HeadPiece10, HeadPiece11, HeadPiece12,
    HeadPiece13, HeadPiece14, HeadPiece15, HeadPiece16, HeadPiece17, HeadPiece18,
    HeadPiece19, HeadPiece20, HeadPiece21, HeadPiece22, HeadPiece23
  ]

  /** The indentation of the mode line. */
  const ModeIndent: string := "      "

  const TailPiece0: string := "      successU"
  const TailPiece1: string := "rl: 'https://"
  const TailPiece2: string := "your-website.c"
  const TailPiece3: string := "om/success',\n"
  const TailPiece4: string := "      cancelUr"
  const TailPiece5: string := "l: 'https://"
  const TailPiece6: string := "your-website.c"
  const TailPiece7: string := "om/cancel',\n"
  const TailPiece8: string := "    });\n  });\n"
  const TailPiece9: string := "</script>"

  const SnippetTail: seq<string> := [
    TailPiece0, TailPiece1, TailPiece2, TailPiece3, TailPiece4, TailPiece5, TailPiece6,
    TailPiece7, TailPiece8, TailPiece9
  ]

  /** The snippet with a given mode line. */
  function SnippetWithMode(mode: string): string
  {
    Concat(SnippetHead) + ModeIndent + mode + ",\n" + Concat(SnippetTail)
  }

  /** The snippet exactly as the checkout-button step carries it. */
  const PaymentSnippet: string := SnippetWithMode(PaymentMode)

  /*
   * The catalog's texts. Each is a named constant so that the verifier only
   * looks inside a text when a proof mentions it.
   */
  const TestModeTitle := "Confirm Test Mode"
  const TestModeDescription := "Ensure you're in test mode for safe development"
  const TestModeContent := "Test mode allows you to simulate payments without real transactions. Always develop in test mode first."
  const TestModeAction := "Confirm Test Mode"
  const TestModeValidation := "Test mode confirmed"
  const ApiKeysTitle := "Generate API Keys"
  const ApiKeysDescription := "Create your publishable and secret keys"
  const ApiKeysAction := "Generate Keys"
  const ApiKeysContent := "API keys authenticate your application with our payment system. Keep your secret key secure."
  const ApiKeysValidation := "API keys generated successfully"
  const CheckoutTitle := "Create Checkout Button"
  const CheckoutDescription := "Add a payment button to your website"
  const CheckoutAction := "Show Code"
  const CheckoutContent := "This button will redirect customers to a secure checkout page."
  const CheckoutValidation := "Checkout button code ready"
  const CopyCodeTitle := "Copy Integration Code"
  const CopyCodeDescription := "Copy the code snippet to your website"
  const CopyCodeAction := "Copy Code"
  const CopyCodeContent := "Paste this code into your HTML file where you want the checkout button to appear."
  const CopyCodeValidation := "Code copied to clipboard"
  const EmailTitle := "Confirm Email Notifications"
  const EmailDescription := "Set up payment confirmation emails"
  const EmailAction := "Enable Notifications"
  const EmailContent := "Email notifications keep you and your customers informed about payment status."
  const EmailValidation := "Email notifications enabled"
  const SearchTitle := "Search Transactions"
  const SearchDescription := "Learn to view and manage payments"
  const SearchAction := "View Dashboard"
  const SearchContent := "The transaction dashboard shows all your payments, refunds, and customer details."
  const SearchValidation := "Dashboard accessed successfully"
  const SubscriptionTitle := "Create Subscription Button"
  const SubscriptionDescription := "Add a recurring payment button"

  /** The six steps before any specialisation. */
  function BaseSteps(): (defs: seq<StepDef>)
    ensures |defs| == |CatalogOrder|
    ensures forall i | 0 <= i < |defs| :: defs[i].id == CatalogOrder[i]
  {
    [
      StepDef(TestMode, TestModeTitle, TestModeDescription, Some(TestModeAction),
        Some(TestModeContent), None, Some(TestModeValidation)),
      StepDef(ApiKeys, ApiKeysTitle, ApiKeysDescription, Some(ApiKeysAction),
        Some(ApiKeysContent), None, Some(ApiKeysValidation)),
      StepDef(CheckoutButton, CheckoutTitle, CheckoutDescription, Some(CheckoutAction),
        Some(CheckoutContent), Some(PaymentSnippet), Some(CheckoutValidation)),
      StepDef(CopyCode, CopyCodeTitle, CopyCodeDescription, Some(CopyCodeAction),
        Some(CopyCodeContent), None, Some(CopyCodeValidation)),
      StepDef(EmailNotifications, EmailTitle, EmailDescription, Some(EmailAction),
        Some(EmailContent), None, Some(EmailValidation)),
      StepDef(SearchTransaction, SearchTitle, SearchDescription, Some(SearchAction),
        Some(SearchContent), None, Some(SearchValidation))
    ]
  }

  /** `goal.toLowerCase().includes('subscription')`. */
  predicate MentionsSubscription(goal: string)
  {
    Contains(AsciiLower(goal), "subscription")
  }

  /** The subscription wording of the checkout step, with the snippet's first payment mode rewritten. */
  function SubscriptionVariant(d: StepDef): (r: StepDef)
    ensures r.id == d.id && r.content == d.content && r.action == d.action && r.validationText == d.validationText
    ensures r.title == SubscriptionTitle && r.description == SubscriptionDescription
    ensures r.codeSnippet.Some? <==> d.codeSnippet.Some?
  {
    d.(title := SubscriptionTitle,
       description := SubscriptionDescription,
       codeSnippet := match d.codeSnippet
                      case None => None
                      case Some(code) => Some(ReplaceFirst(code, PaymentMode, SubscriptionMode)))
  }

  /** `generateStepsFromGoal`: the catalog, specialised by the goal, every step pending. */
  function GenerateStepsFromGoal(goal: string): (steps: seq<Step>)
    ensures |steps| == 6
    ensures Ids(steps) == CatalogOrder
    ensures forall i | 0 <= i < |steps| :: steps[i].status == Pending
    ensures forall i, j | 0 <= i < j < |steps| :: steps[i].def.id != steps[j].def.id
  {
    var base := BaseSteps();
    var defs := if MentionsSubscription(goal) then base[2 := SubscriptionVariant(base[2])] else base;
    seq(|defs|, i requires 0 <= i < |defs| => Step(defs[i], Pending))
  }

  /** A snippet piece too short to hold `PaymentMode` and ending outside it. */
  predicate PlainPiece(piece: string)
  {
    0 < |piece| < |PaymentMode| && piece[|piece| - 1] !in PaymentMode
  }

  /** The characters of `PaymentMode`. */
  lemma PaymentModeChars(c: char)
    ensures c in PaymentMode ==> c in {'m', 'o', 'd', 'e', ':', ' ', '\'', 'p', 'a', 'y', 'n', 't'}
  {
  }

  lemma PlainPiecesAreSafe(pieces: seq<string>)
    requires forall i | 0 <= i < |pieces| :: PlainPiece(pieces[i])
    ensures SafePieces(pieces, PaymentMode)
  {
    forall i | 0 <= i < |pieces| ensures !Contains(pieces[i], PaymentMode) {
      assert forall k: nat | k <= |pieces[i]| :: !OccursAt(pieces[i], PaymentMode, k);
    }
  }

  lemma HeadPiecesArePlain()
    ensures forall i | 0 <= i < |SnippetHead| :: PlainPiece(SnippetHead[i])
  {
    forall i | 0 <= i < |SnippetHead| ensures PlainPiece(SnippetHead[i]) {
      var piece := SnippetHead[i];
      PaymentModeChars(piece[|piece| - 1]);
    }
  }

  lemma TailPiecesArePlain()
    ensures forall i | 0 <= i < |SnippetTail| :: PlainPiece(SnippetTail[i])
  {
    forall i | 0 <= i < |SnippetTail| ensures PlainPiece(SnippetTail[i]) {
      var piece := SnippetTail[i];
      PaymentModeChars(piece[|piece| - 1]);
    }
  }

  /**
   * The first occurrence of the payment mode in the payment snippet is the
   * one on its mode line, so the first-occurrence rewrite replaces that
   * line's literal and nothing else.
   */
  lemma RewriteHitsModeLine()
    ensures ReplaceFirst(PaymentSnippet, PaymentMode, SubscriptionMode) == SnippetWithMode(SubscriptionMode)
  {
    HeadPiecesArePlain();
    PlainPiecesAreSafe(SnippetHead);
    ConcatLacks(SnippetHead, PaymentMode);
    ConcatEndsOutside(SnippetHead, PaymentMode);
    var h := Concat(SnippetHead);
    var rest := ",\n" + Concat(SnippetTail);
    NoOccurrenceBefore(h, ModeIndent, PaymentMode, PaymentMode + rest);
    assert PaymentSnippet == h + ModeIndent + (PaymentMode + rest) == (h + ModeIndent) + PaymentMode + rest;
    ReplaceFirstAt(h + ModeIndent, PaymentMode, rest, SubscriptionMode);
    assert SnippetWithMode(SubscriptionMode) == (h + ModeIndent) + SubscriptionMode + rest;
  }

  /** The subscription mode line, cut into two plain pieces. */
  lemma SubscriptionLinePieces()
    ensures ModeIndent + SubscriptionMode + ",\n" == Concat([ModeIndent + "mode: 's", "ubscription',\n"])
    ensures PlainPiece(ModeIndent + "mode: 's") && PlainPiece("ubscription',\n")
  {
    PaymentModeChars('s');
    PaymentModeChars('\n');
    assert Concat(["ubscription',\n"]) == "ubscription',\n" + Concat([]);
  }

  /** Plain pieces, in three runs, never assemble into a string holding the payment mode. */
  lemma PlainRunsLackPaymentMode(head: seq<string>, line: seq<string>, tail: seq<string>)
    requires forall i | 0 <= i < |head| :: PlainPiece(head[i])
    requires forall i | 0 <= i < |line| :: PlainPiece(line[i])
    requires forall i | 0 <= i < |tail| :: PlainPiece(tail[i])
    ensures !Contains(Concat(head) + Concat(line) + Concat(tail), PaymentMode)
  {
    var pieces := head + line + tail;
    assert forall i | 0 <= i < |pieces| :: PlainPiece(pieces[i]) by {
      forall i | 0 <= i < |pieces| ensures PlainPiece(pieces[i]) {
        if i < |head| {
          assert pieces[i] == head[i];
        } else if i < |head| + |line| {
          assert pieces[i] == line[i - |head|];
        } else {
          assert pieces[i] == tail[i - |head| - |line|];
        }
      }
    }
    PlainPiecesAreSafe(pieces);
    ConcatLacks(pieces, PaymentMode);
    ConcatAppend(head + line, tail);
    ConcatAppend(head, line);
  }

  /** The rewritten snippet no longer mentions payment mode. */
  lemma SubscriptionSnippetLacksPayment()
    ensures !Contains(SnippetWithMode(SubscriptionMode), PaymentMode)
  {
    var line := [ModeIndent + "mode: 's", "ubscription',\n"];
    SubscriptionLinePieces();
    HeadPiecesArePlain();
    TailPiecesArePlain();
    PlainRunsLackPaymentMode(SnippetHead, line, SnippetTail);
    var h, t := Concat(SnippetHead), Concat(SnippetTail);
    assert SnippetWithMode(SubscriptionMode) == h + (ModeIndent + SubscriptionMode + ",\n") + t;
  }

  /** The rewritten snippet selects subscription mode and no longer mentions payment mode. */
  lemma SubscriptionSnippetMode()
    ensures Contains(SnippetWithMode(SubscriptionMode), SubscriptionMode)
    ensures !Contains(SnippetWithMode(SubscriptionMode), PaymentMode)
  {
    var h := Concat(SnippetHead);
    var s := SnippetWithMode(SubscriptionMode);
    assert s[|h| + |ModeIndent|..|h| + |ModeIndent| + |SubscriptionMode|] == SubscriptionMode;
    assert OccursAt(s, SubscriptionMode, |h| + |ModeIndent|);
    SubscriptionSnippetLacksPayment();
  }

  /** The payment snippet, as shipped, selects payment mode. */
  lemma PaymentSnippetMode()
    ensures Contains(PaymentSnippet, PaymentMode)
  {
    var h := Concat(SnippetHead);
    assert PaymentSnippet[|h| + |ModeIndent|..|h| + |ModeIndent| + |PaymentMode|] == PaymentMode;
    assert OccursAt(PaymentSnippet, PaymentMode, |h| + |ModeIndent|);
  }

  /**
   * A goal that mentions "subscription" in any ASCII case turns the checkout
   * step into the subscription button; any other goal leaves it as it is.
   */
  lemma CheckoutStepFollowsGoal(goal: string)
    ensures var step := GenerateStepsFromGoal(goal)[2];
      if MentionsSubscription(goal) then
        step.def == BaseSteps()[2].(title := SubscriptionTitle, description := SubscriptionDescription,
                                    codeSnippet := Some(SnippetWithMode(SubscriptionMode)))
      else
        step.def == BaseSteps()[2]
  {
    if MentionsSubscription(goal) {
      RewriteHitsModeLine();
    }
  }

  /** The subscription snippet a goal produces selects subscription mode and not payment mode. */
  lemma SubscriptionGoalSnippet(goal: string)
    requires MentionsSubscription(goal)
    ensures GenerateStepsFromGoal(goal)[2].def.codeSnippet.Some?
    ensures Contains(GenerateStepsFromGoal(goal)[2].def.codeSnippet.value, SubscriptionMode)
    ensures !Contains(GenerateStepsFromGoal(goal)[2].def.codeSnippet.value, PaymentMode)
  {
    CheckoutStepFollowsGoal(goal);
    SubscriptionSnippetMode();
  }

  /** Only the checkout step depends on the goal. */
  lemma OtherStepsIgnoreGoal(g1: string, g2: string, i: nat)
    requires i < 6 && i != 2
    ensures GenerateStepsFromGoal(g1)[i] == GenerateStepsFromGoal(g2)[i]
  {
  }

  /** The status `index` takes when the cursor is at `cursor`. */
  function StatusAt(index: nat, cursor: nat): Status
  {
    if index < cursor then Completed else if index == cursor then Active else Pending
  }

  /** Every status of `steps` is the one the cursor prescribes. */
  predicate FollowsCursor(steps: seq<Step>, cursor: nat)
  {
    forall i | 0 <= i < |steps| :: steps[i].status == StatusAt(i, cursor)
  }

  /** The steps with their statuses rewritten from the cursor, and nothing else changed. */
  function WithStatuses(steps: seq<Step>, cursor: nat): (r: seq<Step>)
    ensures |r| == |steps| && FollowsCursor(r, cursor)
    ensures forall i | 0 <= i < |steps| :: r[i].def == steps[i].def
  {
    seq(|steps|, i requires 0 <= i < |steps| => steps[i].(status := StatusAt(i, cursor)))
  }

  /** The number of steps with status `st` (`steps.filter(s => s.status === st).length`). */
  function CountStatus(steps: seq<Step>, st: Status): (n: nat)
    ensures n <= |steps|
  {
    if steps == [] then 0
    else CountStatus(steps[..|steps| - 1], st) + (if steps[|steps| - 1].status == st then 1 else 0)
  }

  /** All steps have status `st` exactly when `st` is counted once per step. */
  lemma {:induction false} CountStatusAll(steps: seq<Step>, st: Status)
    ensures CountStatus(steps, st) == |steps| <==> forall i | 0 <= i < |steps| :: steps[i].status == st
  {
    if steps != [] {
      var init := steps[..|steps| - 1];
      CountStatusAll(init, st);
      assert forall i | 0 <= i < |init| :: init[i] == steps[i];
    }
  }

  /**
   * Under statuses that follow cursor `c`, the completed steps are those
   * before the cursor, and exactly one step is active while the cursor is
   * inside the list.
   */
  lemma {:induction false} CursorCounts(steps: seq<Step>, c: nat)
    requires FollowsCursor(steps, c)
    ensures CountStatus(steps, Completed) == if c < |steps| then c else |steps|
    ensures CountStatus(steps, Active) == if c < |steps| then 1 else 0
    ensures CountStatus(steps, Pending) == if c < |steps| then |steps| - c - 1 else 0
  {
    if steps != [] {
      var init := steps[..|steps| - 1];
      assert FollowsCursor(init, c) by {
        assert forall i | 0 <= i < |init| :: init[i] == steps[i];
      }
      CursorCounts(init, c);
    }
  }
}
