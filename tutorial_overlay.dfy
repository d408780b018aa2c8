/** The guided tutorial: twelve fixed steps, a step index moved by the Back
    and Next buttons, the arrow keys and Escape, a gate at the
    "switch-cartpole" step, and the focus side each step reports to the
    page. */
module TutorialOverlay {
  import opened Replay

  /** A step's `focusSide`: "left", "right" or "both". */
  datatype Side = Left | Right | Both

  /** A tutorial step as far as navigation and focus see it: its id and its
      focus side (title, body and highlighted section are text for the DOM). */
  datatype TutorialStep = TutorialStep(id: string, focusSide: Option<Side>)

  const Steps: seq<TutorialStep> := [
    TutorialStep("welcome", Some(Both)),
    TutorialStep("layout", Some(Both)),
    TutorialStep("rl-core", Some(Both)),
    TutorialStep("cliffwalk-env", Some(Left)),
    TutorialStep("qlearning-good-match", Some(Left)),
    TutorialStep("dqn-on-cliffwalk", Some(Right)),
    TutorialStep("switch-cartpole", Some(Both)),
    TutorialStep("qlearning-bad-match-cartpole", Some(Left)),
    TutorialStep("dqn-good-match-cartpole", Some(Right)),
    TutorialStep("reward-curves", Some(Both)),
    TutorialStep("hands-on", Some(Both)),
    TutorialStep("wrap-up", Some(Both))
  ]

  /** The position of the "switch-cartpole" step. */
  const SwitchStep: nat := 6

  predicate IsFirst(i: nat)
  {
    i == 0
  }

  predicate IsLast(i: nat)
  {
    i == |Steps| - 1
  }

  /** `step.id === "switch-cartpole"`. */
  predicate RequiresCartpole(i: nat)
    requires i < |Steps|
  {
    Steps[i].id == "switch-cartpole"
  }

  /** The gate sits at exactly one step, the seventh. */
  lemma OnlySwitchStepRequiresCartpole(i: nat)
    requires i < |Steps|
    ensures RequiresCartpole(i) <==> i == SwitchStep
  {
  }

  /** `!isLast && requiresCartpole && environment !== "cartpole"`. */
  predicate NextDisabled(i: nat, environment: Option<string>)
    requires i < |Steps|
  {
    !IsLast(i) && RequiresCartpole(i) && environment != Some("cartpole")
  }

  // ---------------------------------------------------------------------
  // Navigation

  /** What a handler does: nothing, move to a step, or close the tutorial. */
  datatype Effect = Stay | MoveTo(index: nat) | Close

  /** The Next button: close on the last step, otherwise advance unless the
      gate holds. */
  function OnNext(i: nat, environment: Option<string>): (e: Effect)
    requires i < |Steps|
    ensures IsLast(i) <==> e == Close
    ensures e == Stay <==> i == SwitchStep && environment != Some("cartpole")
    ensures e.MoveTo? ==> e.index == i + 1 && e.index < |Steps|
  {
    OnlySwitchStepRequiresCartpole(i);
    if IsLast(i) then Close
    else if !NextDisabled(i, environment) then MoveTo(i + 1)
    else Stay
  }

  /** The Back button: `!isFirst && setStepIndex(i => i - 1)`. */
  function OnBack(i: nat): (e: Effect)
    requires i < |Steps|
    ensures IsFirst(i) <==> e == Stay
    ensures e != Close
    ensures e.MoveTo? ==> e.index + 1 == i
  {
    if !IsFirst(i) then MoveTo(i - 1) else Stay
  }

  datatype Key = ArrowRight | ArrowLeft | Escape | OtherKey

  /** The window key handler, with its own copy of the navigation rules; it
      agrees with the buttons, and Escape closes from every step. */
  function OnKey(i: nat, environment: Option<string>, key: Key): (e: Effect)
    requires i < |Steps|
    ensures key == ArrowRight ==> e == OnNext(i, environment)
    ensures key == ArrowLeft ==> e == OnBack(i)
    ensures key == Escape ==> e == Close
    ensures key == OtherKey ==> e == Stay
  {
    if key == ArrowRight then
      if IsLast(i) then Close
      else if !NextDisabled(i, environment) then MoveTo(i + 1)
      else Stay
    else if key == ArrowLeft then
      if !IsFirst(i) then MoveTo(i - 1) else Stay
    else if key == Escape then Close
    else Stay
  }

  /** A user action on the overlay. */
  datatype Action = NextButton | BackButton | SkipButton | KeyDown(key: Key)

  function Dispatch(i: nat, environment: Option<string>, a: Action): (e: Effect)
    requires i < |Steps|
    ensures e.MoveTo? ==> e.index < |Steps|
  {
    match a
    case NextButton => OnNext(i, environment)
    case BackButton => OnBack(i)
    case SkipButton => Close
    case KeyDown(key) => OnKey(i, environment, key)
  }

  /** The step index after a sequence of actions, or None once one of them
      closes the tutorial. */
  function Run(i: nat, environment: Option<string>, actions: seq<Action>): Option<nat>
    requires i < |Steps|
    decreases |actions|
  {
    if |actions| == 0 then Some(i)
    else
      match Dispatch(i, environment, actions[0])
      case Stay => Run(i, environment, actions[1..])
      case MoveTo(j) => Run(j, environment, actions[1..])
      case Close => None
  }

  /** Whatever the user does, the step index stays in 0 .. 11. */
  lemma {:induction false} RunStaysInRange(i: nat, environment: Option<string>, actions: seq<Action>)
    requires i < |Steps|
    ensures Run(i, environment, actions).Some? ==> Run(i, environment, actions).value < |Steps|
    decreases |actions|
  {
    if |actions| > 0 {
      match Dispatch(i, environment, actions[0])
      case Stay => RunStaysInRange(i, environment, actions[1..]);
      case MoveTo(j) => RunStaysInRange(j, environment, actions[1..]);
      case Close =>
    }
  }

  /** Without the CartPole environment the gate never opens: from any step up
      to the switch step the index never passes it, and the only way on is
      to close the tutorial. */
  lemma {:induction false} GateHoldsWithoutCartpole(i: nat, environment: Option<string>, actions: seq<Action>)
    requires i <= SwitchStep && environment != Some("cartpole")
    ensures Run(i, environment, actions).Some? ==> Run(i, environment, actions).value <= SwitchStep
    decreases |actions|
  {
    if |actions| > 0 {
      var e := Dispatch(i, environment, actions[0]);
      OnlySwitchStepRequiresCartpole(i);
      match e
      case Stay => GateHoldsWithoutCartpole(i, environment, actions[1..]);
      case MoveTo(j) => GateHoldsWithoutCartpole(j, environment, actions[1..]);
      case Close =>
    }
  }

  // ---------------------------------------------------------------------
  // Focus, layout and labels

  /** `step.focusSide || "both"`: the side reported to the page. */
  function ReportedFocus(i: nat): (s: Side)
    requires i < |Steps|
    ensures Steps[i].focusSide.Some? ==> s == Steps[i].focusSide.value
    ensures Steps[i].focusSide.None? ==> s == Both
  {
    Steps[i].focusSide.GetOr(Both)
  }

  datatype Justify = FlexStart | Center | FlexEnd

  /** Where the tutorial box sits: away from the focused side. */
  function BoxJustify(side: Option<Side>): Justify
  {
    if side == Some(Left) then FlexEnd
    else if side == Some(Right) then FlexStart
    else Center
  }

  /** `isSideFocused`: the backdrop is transparent instead of dimmed. */
  predicate TransparentBackdrop(side: Option<Side>)
  {
    side == Some(Left) || side == Some(Right)
  }

  /** The backdrop is left clear exactly when the box is pushed to one side,
      and the box then sits opposite the focused panel. */
  lemma BackdropMatchesPlacement(side: Option<Side>)
    ensures TransparentBackdrop(side) <==> BoxJustify(side) != Center
    ensures side == Some(Left) ==> BoxJustify(side) == FlexEnd
    ensures side == Some(Right) ==> BoxJustify(side) == FlexStart
  {
  }

  /** The Next button's label. */
  function NextLabel(i: nat, environment: Option<string>): string
    requires i < |Steps|
  {
    if RequiresCartpole(i) && environment != Some("cartpole") then "Switch to CartPole ↑"
    else if IsLast(i) then "Start Exploring"
    else "Next →"
  }

  /** The label announces what Next does: the switch prompt exactly when it
      is gated, "Start Exploring" exactly when it closes, "Next →" exactly
      when it advances. */
  lemma NextLabelMatchesEffect(i: nat, environment: Option<string>)
    requires i < |Steps|
    ensures NextLabel(i, environment) == "Switch to CartPole ↑" <==> OnNext(i, environment) == Stay
    ensures NextLabel(i, environment) == "Start Exploring" <==> OnNext(i, environment) == Close
    ensures NextLabel(i, environment) == "Next →" <==> OnNext(i, environment).MoveTo?
  {
    OnlySwitchStepRequiresCartpole(i);
  }

  /** "Step {stepIndex + 1} / {steps.length}". */
  function Counter(i: nat): (c: (nat, nat))
    requires i < |Steps|
    ensures c.0 == i + 1 && c.1 == 12
    ensures 1 <= c.0 <= c.1
  {
    (i + 1, |Steps|)
  }

  // ---------------------------------------------------------------------
  // The component

  /** A call the overlay makes into the page: `onFocusChange(side)` (None
      for `null`) or `onClose()`. */
  datatype Report = FocusChanged(side: Option<Side>) | Closed

  /** The step index after a handler's effect. */
  function IndexAfter(i: nat, e: Effect): nat
  {
    if e.MoveTo? then e.index else i
  }

  /** The calls made into the page by a handler's effect at step i: closing
      reports `null` and then calls `onClose`; moving re-runs the focus
      effect only when the step's `focusSide` changes. */
  function ReportsAfter(i: nat, e: Effect, rs: seq<Report>): seq<Report>
    requires i < |Steps| && (e.MoveTo? ==> e.index < |Steps|)
  {
    match e
    case Stay => rs
    case Close => rs + [FocusChanged(None), Closed]
    case MoveTo(j) =>
      if Steps[j].focusSide != Steps[i].focusSide then rs + [FocusChanged(Some(ReportedFocus(j)))] else rs
  }

  /** The page's last word from the overlay is the side of step i, or the
      close. */
  predicate InSync(i: nat, rs: seq<Report>)
    requires i < |Steps|
  {
    |rs| > 0 && (rs[|rs| - 1] == Closed || rs[|rs| - 1] == FocusChanged(Some(ReportedFocus(i))))
  }

  /** Every handler keeps the page in sync with the step on screen: skipping
      the report when the side is unchanged loses nothing, because the side
      last reported is already the new step's. */
  lemma ReportsAfterKeepSync(i: nat, e: Effect, rs: seq<Report>)
    requires i < |Steps| && (e.MoveTo? ==> e.index < |Steps|)
    requires InSync(i, rs)
    ensures IndexAfter(i, e) < |Steps|
    ensures InSync(IndexAfter(i, e), ReportsAfter(i, e, rs))
  {
    if e.MoveTo? && Steps[e.index].focusSide == Steps[i].focusSide {
      assert Steps[i].focusSide.Some?;
    }
  }

  /** A mounted overlay: its step index and the callback calls it has made
      so far. */
  class Overlay {
    const environment: Option<string>
    var stepIndex: nat
    var reports: seq<Report>

    /** The step index is on the list and the page holds the side of the
        step on screen (or has been told to close). */
    ghost predicate Valid()
      reads this
    {
      stepIndex < |Steps| && InSync(stepIndex, reports)
    }

    /** Mounting starts on the first step; the focus effect reports its
        side. */
    constructor(environment: Option<string>)
      ensures Valid()
      ensures this.environment == environment
      ensures stepIndex == 0
      ensures reports == [FocusChanged(Some(ReportedFocus(0)))]
    {
      this.environment := environment;
      stepIndex := 0;
      reports := [FocusChanged(Some(ReportedFocus(0)))];
    }

    /** `handleClose`: report `null` focus, then call `onClose`. */
    method HandleClose()
      requires Valid()
      modifies this
      ensures Valid()
      ensures stepIndex == old(stepIndex)
      ensures reports == old(reports) + [FocusChanged(None), Closed]
    {
      reports := reports + [FocusChanged(None)];
      reports := reports + [Closed];
    }

    /** `setStepIndex`: the focus effect re-runs only when the step's focus
        side changes. */
    method SetStepIndex(j: nat)
      requires Valid() && j < |Steps|
      modifies this
      ensures Valid() && stepIndex == j
      ensures Steps[j].focusSide != Steps[old(stepIndex)].focusSide ==>
        reports == old(reports) + [FocusChanged(Some(ReportedFocus(j)))]
      ensures Steps[j].focusSide == Steps[old(stepIndex)].focusSide ==> reports == old(reports)
    {
      ReportsAfterKeepSync(stepIndex, MoveTo(j), reports);
      var before := Steps[stepIndex].focusSide;
      stepIndex := j;
      if Steps[j].focusSide != before {
        reports := reports + [FocusChanged(Some(ReportedFocus(j)))];
      }
    }

    /** Performs a handler's effect. */
    method Apply(e: Effect)
      requires Valid() && (e.MoveTo? ==> e.index < |Steps|)
      modifies this
      ensures Valid()
      ensures e.MoveTo? ==> stepIndex == e.index
      ensures !e.MoveTo? ==> stepIndex == old(stepIndex)
      ensures e == Stay ==> reports == old(reports)
      ensures e == Close ==> reports == old(reports) + [FocusChanged(None), Closed]
      ensures e.MoveTo? && Steps[e.index].focusSide != Steps[old(stepIndex)].focusSide ==>
        reports == old(reports) + [FocusChanged(Some(ReportedFocus(e.index)))]
      ensures e.MoveTo? && Steps[e.index].focusSide == Steps[old(stepIndex)].focusSide ==>
        reports == old(reports)
      ensures stepIndex == IndexAfter(old(stepIndex), e)
      ensures reports == ReportsAfter(old(stepIndex), e, old(reports))
    {
      match e
      case Stay =>
      case MoveTo(j) => SetStepIndex(j);
      case Close => HandleClose();
    }

    /** The Next button. */
    method Next()
      requires Valid()
      modifies this
      ensures Valid()
      ensures old(stepIndex) == |Steps| - 1 ==>
        stepIndex == old(stepIndex) && reports == old(reports) + [FocusChanged(None), Closed]
      ensures old(stepIndex) == SwitchStep && environment != Some("cartpole") ==>
        stepIndex == old(stepIndex) && reports == old(reports)
      ensures old(stepIndex) < |Steps| - 1 && !(old(stepIndex) == SwitchStep && environment != Some("cartpole")) ==>
        stepIndex == old(stepIndex) + 1
      ensures stepIndex == old(stepIndex) + 1 && Steps[stepIndex].focusSide != Steps[old(stepIndex)].focusSide ==>
        reports == old(reports) + [FocusChanged(Some(ReportedFocus(stepIndex)))]
      ensures stepIndex == old(stepIndex) + 1 && Steps[stepIndex].focusSide == Steps[old(stepIndex)].focusSide ==>
        reports == old(reports)
      ensures reports == ReportsAfter(old(stepIndex), OnNext(old(stepIndex), environment), old(reports))
    {
      Apply(OnNext(stepIndex, environment));
    }

    /** The Back button. */
    method Back()
      requires Valid()
      modifies this
      ensures Valid()
      ensures old(stepIndex) == 0 ==> stepIndex == 0 && reports == old(reports)
      ensures old(stepIndex) > 0 ==> stepIndex == old(stepIndex) - 1
      ensures old(stepIndex) > 0 && Steps[stepIndex].focusSide != Steps[old(stepIndex)].focusSide ==>
        reports == old(reports) + [FocusChanged(Some(ReportedFocus(stepIndex)))]
      ensures old(stepIndex) > 0 && Steps[stepIndex].focusSide == Steps[old(stepIndex)].focusSide ==>
        reports == old(reports)
      ensures reports == ReportsAfter(old(stepIndex), OnBack(old(stepIndex)), old(reports))
    {
      Apply(OnBack(stepIndex));
    }

    /** The Skip button. */
    method Skip()
      requires Valid()
      modifies this
      ensures Valid() && stepIndex == old(stepIndex)
      ensures reports == old(reports) + [FocusChanged(None), Closed]
    {
      HandleClose();
    }

    /** A key press on the window. */
    method KeyDown(key: Key)
      requires Valid()
      modifies this
      ensures Valid()
      ensures var e := OnKey(old(stepIndex), environment, key);
        && (e.MoveTo? ==> stepIndex == e.index)
        && (!e.MoveTo? ==> stepIndex == old(stepIndex))
        && (e == Close ==> reports == old(reports) + [FocusChanged(None), Closed])
        && (e == Stay ==> reports == old(reports))
        && (e.MoveTo? && Steps[e.index].focusSide != Steps[old(stepIndex)].focusSide ==>
              reports == old(reports) + [FocusChanged(Some(ReportedFocus(e.index)))])
        && (e.MoveTo? && Steps[e.index].focusSide == Steps[old(stepIndex)].focusSide ==>
              reports == old(reports))
        && reports == ReportsAfter(old(stepIndex), e, old(reports))
    {
      Apply(OnKey(stepIndex, environment, key));
    }
  }
}
