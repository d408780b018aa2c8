/** The page: two replay panels side by side and the tutorial overlay,
    which dims the panel it is not talking about. */
module App {
  import opened Replay
  import opened TutorialOverlay

  /** Every focus value is one of the four the source compares against. */
  lemma SideCases(focusSide: Option<Side>)
    ensures focusSide.None? || focusSide == Some(Left) || focusSide == Some(Right) || focusSide == Some(Both)
  {
    match focusSide
    case None =>
    case Some(s) =>
      match s
      case Left =>
      case Right =>
      case Both =>
  }

  /** `isLeftFocused`: the left panel is dimmed only while the tutorial is
      shown and focused on the right. */
  function IsLeftFocused(showTutorial: bool, focusSide: Option<Side>): (focused: bool)
    ensures focused <==> !showTutorial || focusSide != Some(Right)
  {
    SideCases(focusSide);
    !showTutorial || focusSide.None? || focusSide == Some(Both) || focusSide == Some(Left)
  }

  /** `isRightFocused`: the mirror image of the left panel's rule. */
  function IsRightFocused(showTutorial: bool, focusSide: Option<Side>): (focused: bool)
    ensures focused <==> !showTutorial || focusSide != Some(Left)
  {
    SideCases(focusSide);
    !showTutorial || focusSide.None? || focusSide == Some(Both) || focusSide == Some(Right)
  }

  /** At least one panel is always focused, both are while the tutorial is
      hidden, and at most one is dimmed. */
  lemma SomePanelIsFocused(showTutorial: bool, focusSide: Option<Side>)
    ensures IsLeftFocused(showTutorial, focusSide) || IsRightFocused(showTutorial, focusSide)
    ensures !showTutorial ==> IsLeftFocused(showTutorial, focusSide) && IsRightFocused(showTutorial, focusSide)
  {
  }

  /** A panel's opacity: 1 when focused, 0.25 when dimmed. */
  function Opacity(focused: bool): real
  {
    if focused then 1.0 else 0.25
  }

  /** The highlight ring and the 1.01 scale. */
  predicate Highlighted(focused: bool, showTutorial: bool)
  {
    focused && showTutorial
  }

  /** A highlighted panel is never dimmed, and with the tutorial hidden no
      panel is highlighted and both are at full opacity. */
  lemma HighlightOnlyOnFocusedPanels(showTutorial: bool, focusSide: Option<Side>)
    ensures var l := IsLeftFocused(showTutorial, focusSide);
      var r := IsRightFocused(showTutorial, focusSide);
      && (Highlighted(l, showTutorial) ==> Opacity(l) == 1.0)
      && (Highlighted(r, showTutorial) ==> Opacity(r) == 1.0)
      && (!showTutorial ==> !Highlighted(l, showTutorial) && !Highlighted(r, showTutorial))
      && (!showTutorial ==> Opacity(l) == 1.0 && Opacity(r) == 1.0)
  {
  }

  /** While the tutorial shows step i and has reported its focus, the panel
      on the other side of a one-sided step is the only one dimmed, and both
      panels stay lit on the steps about the whole page. */
  lemma StepFocusDimsOtherPanel(i: nat)
    requires i < |Steps|
    ensures var f := Some(ReportedFocus(i));
      && (Steps[i].focusSide == Some(Left) ==> IsLeftFocused(true, f) && !IsRightFocused(true, f))
      && (Steps[i].focusSide == Some(Right) ==> !IsLeftFocused(true, f) && IsRightFocused(true, f))
      && (Steps[i].focusSide == Some(Both) ==> IsLeftFocused(true, f) && IsRightFocused(true, f))
  {
  }

  /** The page renders the overlay without an `environment`, so at the
      switch step Next and ArrowRight stay put; from there only Back, Skip
      and Escape act. */
  lemma PageNeverOpensTheGate()
    ensures OnNext(SwitchStep, None) == Stay
    ensures OnKey(SwitchStep, None, ArrowRight) == Stay
    ensures OnBack(SwitchStep) == MoveTo(SwitchStep - 1)
    ensures OnKey(SwitchStep, None, Escape) == Close
  {
  }

  /** The page's tutorial state. */
  class Page {
    var showTutorial: bool
    var focusSide: Option<Side>

    /** `useState(true)` and `useState("both")`. */
    constructor()
      ensures showTutorial && focusSide == Some(Both)
    {
      showTutorial := true;
      focusSide := Some(Both);
    }

    /** The "(?) Tutorial" button. */
    method ReopenTutorial()
      modifies this
      ensures showTutorial && focusSide == Some(Both)
    {
      showTutorial := true;
      focusSide := Some(Both);
    }

    /** The overlay's `onClose`. */
    method OnClose()
      modifies this
      ensures !showTutorial && focusSide == None
    {
      showTutorial := false;
      focusSide := None;
    }

    /** The overlay's `onFocusChange`, which is `setFocusSide` itself. */
    method OnFocusChange(side: Option<Side>)
      modifies this
      ensures focusSide == side
      ensures showTutorial == old(showTutorial)
    {
      focusSide := side;
    }

    /** Delivers one call the overlay makes. */
    method Deliver(r: Report)
      modifies this
      ensures r.FocusChanged? ==> focusSide == r.side && showTutorial == old(showTutorial)
      ensures r == Closed ==> !showTutorial && focusSide == None
    {
      match r
      case FocusChanged(side) => OnFocusChange(side);
      case Closed => OnClose();
    }

    /** Delivers the calls in order. After closing, both panels are lit. */
    method DeliverAll(rs: seq<Report>)
      modifies this
      ensures |rs| > 0 && rs[|rs| - 1] == Closed ==> !showTutorial && focusSide == None
      ensures |rs| > 0 && rs[|rs| - 1] == Closed ==>
        IsLeftFocused(showTutorial, focusSide) && IsRightFocused(showTutorial, focusSide)
      ensures |rs| > 0 && rs[|rs| - 1].FocusChanged? ==> focusSide == rs[|rs| - 1].side
      ensures (forall k :: 0 <= k < |rs| ==> rs[k].FocusChanged?) ==> showTutorial == old(showTutorial)
    {
      var i := 0;
      while i < |rs|
        invariant 0 <= i <= |rs|
        invariant i > 0 && rs[i - 1] == Closed ==> !showTutorial && focusSide == None
        invariant i > 0 && rs[i - 1].FocusChanged? ==> focusSide == rs[i - 1].side
        invariant (forall k :: 0 <= k < i ==> rs[k].FocusChanged?) ==> showTutorial == old(showTutorial)
      {
        Deliver(rs[i]);
        i := i + 1;
      }
    }
  }
}
