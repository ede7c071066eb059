/** The step wizard: the current step is the whole state, the next, previous,
    step-icon and submit actions change it, and everything on screen (panels,
    icons, progress, buttons, preview refresh) is a projection of it. */
module Wizard {
  import opened Common
  import opened Gate

  /** The wizard: the current step, the number of panels and the number of step icons. */
  datatype Wizard = Wizard(step: nat, panelCount: nat, iconCount: nat)

  /** The current step names a panel. */
  predicate Valid(w: Wizard) { w.step < w.panelCount }

  /** The page load: the wizard starts on the first panel. */
  function Init(panelCount: nat, iconCount: nat): (w: Wizard)
    requires panelCount > 0
    ensures Valid(w) && w.step == 0
    ensures w.panelCount == panelCount && w.iconCount == iconCount
  {
    Wizard(0, panelCount, iconCount)
  }

  datatype Icon = Icon(active: bool, completed: bool)

  /** What `showStep` puts on screen. `progress` is the pair (numerator,
      denominator) of the progress-bar fraction. */
  datatype View = View(
    panels: seq<bool>,
    icons: seq<Icon>,
    progress: (nat, nat),
    prevShown: bool,
    nextShown: bool,
    submitShown: bool,
    regeneratePreview: bool)

  /** `showStep(currentStep)`: the current panel alone is displayed, the icons
      mark the steps done and the current one, the progress bar reads `step + 1`
      out of the panel count, and the last panel trades next for submit and
      rebuilds the preview. */
  function ShowStep(w: Wizard): (v: View)
    ensures |v.panels| == w.panelCount && |v.icons| == w.iconCount
    ensures forall i :: 0 <= i < |v.panels| ==> (v.panels[i] <==> i == w.step)
    ensures forall i :: 0 <= i < |v.icons| ==> (v.icons[i].active <==> i == w.step)
    ensures forall i :: 0 <= i < |v.icons| ==> (v.icons[i].completed <==> i < w.step)
    ensures v.progress == (w.step + 1, w.panelCount)
    ensures v.prevShown <==> w.step > 0
    ensures v.submitShown <==> w.step + 1 == w.panelCount
    ensures v.nextShown <==> w.step + 1 != w.panelCount
    ensures v.regeneratePreview <==> w.step + 1 == w.panelCount
  {
    var last := w.panelCount - 1;
    View(
      seq(w.panelCount, i requires 0 <= i < w.panelCount => i == w.step),
      seq(w.iconCount, i requires 0 <= i < w.iconCount => Icon(i == w.step, i < w.step)),
      (w.step + 1, w.panelCount),
      w.step != 0,
      w.step != last,
      w.step == last,
      w.step == last)
  }

  function ShownPanels(v: View): set<nat>
  {
    set i: nat | i < |v.panels| && v.panels[i]
  }

  /** Exactly one panel is shown, the current one, precisely when the wizard is valid. */
  lemma OnePanelShown(w: Wizard)
    ensures Valid(w) ==> ShownPanels(ShowStep(w)) == {w.step}
    ensures !Valid(w) ==> ShownPanels(ShowStep(w)) == {}
  {
    var v := ShowStep(w);
    if Valid(w) {
      assert v.panels[w.step];
    }
  }

  /** The icons read as a trail: every icon before the current step is completed,
      the current one is active, the rest are plain, and none is both. */
  lemma IconsTrail(w: Wizard, i: nat)
    requires i < w.iconCount
    ensures var icon := ShowStep(w).icons[i];
      && !(icon.active && icon.completed)
      && (i < w.step <==> icon.completed)
      && (i == w.step <==> icon.active)
      && (i > w.step <==> !icon.active && !icon.completed)
  {
  }

  /** On a valid wizard the progress bar reads `step + 1` out of the panel
      count; submit is offered, and the preview rebuilt, exactly on the last
      step; next is offered exactly on the other steps; previous is offered on
      every step but the first. */
  lemma ControlsFollowStep(w: Wizard)
    requires Valid(w)
    ensures var v := ShowStep(w);
      && v.progress == (w.step + 1, w.panelCount)
      && (v.submitShown <==> w.step == w.panelCount - 1)
      && (v.nextShown <==> w.step < w.panelCount - 1)
      && (v.regeneratePreview <==> w.step == w.panelCount - 1)
      && (v.prevShown <==> w.step > 0)
      && (v.progress.0 == v.progress.1 <==> v.submitShown)
  {
  }

  /** The outcome of an action: the new state, and the first offending Event
      Details control when the gate refused the move. */
  datatype Transition = Transition(state: Wizard, incomplete: Option<nat>)

  /** The next button. It is hidden on the last panel, so it is only pressed
      before it. Only the first panel is checked. */
  function Next(w: Wizard, step0: seq<Control>): (r: Transition)
    requires Valid(w) && w.step + 1 < w.panelCount
    ensures Valid(r.state)
    ensures r.incomplete.Some? <==> w.step == 0 && FirstIncomplete(step0).Some?
    ensures r.incomplete.Some? ==> r.state == w && r.incomplete == FirstIncomplete(step0)
    ensures r.incomplete.None? ==> r.state == w.(step := w.step + 1)
  {
    if w.step == 0 && FirstIncomplete(step0).Some? then Transition(w, FirstIncomplete(step0))
    else Transition(w.(step := w.step + 1), None)
  }

  /** The previous button. It is hidden on the first panel. */
  function Prev(w: Wizard): (r: Wizard)
    requires Valid(w) && w.step > 0
    ensures Valid(r) && r.step + 1 == w.step
    ensures r.panelCount == w.panelCount && r.iconCount == w.iconCount
  {
    w.(step := w.step - 1)
  }

  /** A click on the step icon whose `data-step` is `target`. Moving to any
      panel other than the first is gated on the first panel. */
  function Jump(w: Wizard, target: nat, step0: seq<Control>): (r: Transition)
    requires Valid(w) && target < w.panelCount
    ensures Valid(r.state)
    ensures r.incomplete.Some? <==> target > 0 && FirstIncomplete(step0).Some?
    ensures r.incomplete.Some? ==> r.state == w && r.incomplete == FirstIncomplete(step0)
    ensures r.incomplete.None? ==> r.state == w.(step := target)
  {
    if target > 0 && FirstIncomplete(step0).Some? then Transition(w, FirstIncomplete(step0))
    else Transition(w.(step := target), None)
  }

  /** The wizard side of a submit: back to the first panel. */
  function Reset(w: Wizard): (r: Wizard)
    requires Valid(w)
    ensures Valid(r) && r.step == 0
    ensures r.panelCount == w.panelCount && r.iconCount == w.iconCount
  {
    w.(step := 0)
  }

  /** A user action, with the first panel's controls as they are when it
      happens. A submit carries whether the submit handler ran through to its
      reset: the browser's form validation let the event fire and the stored
      list parsed (`Portal.Submit` decides both). */
  datatype Action =
    | NextClick(fields: seq<Control>)
    | PrevClick
    | IconClick(target: nat, fields: seq<Control>)
    | SubmitForm(completes: bool)

  /** The action can happen: next on every panel but the last, previous past
      the first panel, icons that name a panel. A submit can happen on any
      panel: besides the button on the last panel, Enter in a text field
      submits the form through its default button even while that button is
      hidden (implicit submission, section 4.10.21.2 of the HTML standard). */
  predicate Enabled(w: Wizard, a: Action)
  {
    match a
    case NextClick(_) => w.step + 1 < w.panelCount
    case PrevClick => w.step > 0
    case IconClick(target, _) => target < w.panelCount
    case SubmitForm(_) => true
  }

  /** One action; one whose control is not on screen cannot happen and changes
      nothing. A submit that stops before its reset leaves the step alone. */
  function Apply(w: Wizard, a: Action): (r: Transition)
    requires Valid(w)
    ensures Valid(r.state)
    ensures a.SubmitForm? ==> r.incomplete.None?
    ensures a.SubmitForm? ==> (r.state.step == 0 <==> a.completes || w.step == 0)
    ensures a.SubmitForm? && !a.completes ==> r.state == w
  {
    if !Enabled(w, a) then Transition(w, None)
    else match a
      case NextClick(fields) => Next(w, fields)
      case PrevClick => Transition(Prev(w), None)
      case IconClick(target, fields) => Jump(w, target, fields)
      case SubmitForm(completes) => if completes then Transition(Reset(w), None) else Transition(w, None)
  }

  /** A session: the actions applied in order. */
  function Run(w: Wizard, actions: seq<Action>): (r: Wizard)
    requires Valid(w)
    decreases |actions|
  {
    if actions == [] then w else Run(Apply(w, actions[0]).state, actions[1..])
  }

  /** Every session keeps the step on a panel, and the screen shows exactly that
      panel, with the panel and icon counts fixed. */
  lemma {:induction false} RunKeepsInvariant(w: Wizard, actions: seq<Action>)
    requires Valid(w)
    ensures Valid(Run(w, actions))
    ensures ShownPanels(ShowStep(Run(w, actions))) == {Run(w, actions).step}
    ensures Run(w, actions).panelCount == w.panelCount && Run(w, actions).iconCount == w.iconCount
    decreases |actions|
  {
    if actions == [] {
      OnePanelShown(w);
    } else {
      var w' := Apply(w, actions[0]).state;
      assert w'.panelCount == w.panelCount && w'.iconCount == w.iconCount;
      RunKeepsInvariant(w', actions[1..]);
    }
  }

  /** An action that carries a first panel the gate refuses. */
  predicate Refused(a: Action)
  {
    (a.NextClick? || a.IconClick?) && FirstIncomplete(a.fields).Some?
  }

  /** Leaving the first panel by one action needs a first panel the gate accepts. */
  lemma LeavingStartNeedsCompleteDetails(w: Wizard, a: Action)
    requires Valid(w) && w.step == 0
    ensures Apply(w, a).state.step != 0 ==>
      (a.NextClick? || a.IconClick?) && FirstIncomplete(a.fields).None?
  {
  }

  /** While every attempt carries incomplete Event Details, a session that
      starts on the first panel never leaves it. */
  lemma {:induction false} StuckWhileIncomplete(w: Wizard, actions: seq<Action>)
    requires Valid(w) && w.step == 0
    requires forall i :: 0 <= i < |actions| && (actions[i].NextClick? || actions[i].IconClick?) ==> Refused(actions[i])
    ensures Run(w, actions).step == 0
    decreases |actions|
  {
    if actions != [] {
      var w' := Apply(w, actions[0]).state;
      LeavingStartNeedsCompleteDetails(w, actions[0]);
      assert w'.step == 0;
      StuckWhileIncomplete(w', actions[1..]);
    }
  }

  /** Scenario: with a blank required title, next on the first panel stays put
      and reports the title. */
  lemma NextRefusedOnBlankTitle()
    ensures var step0 := [Control("title", "", true), Control("coordinator", "Alice", true)];
      Next(Init(3, 3), step0) == Transition(Init(3, 3), Some(0))
  {
  }
}
