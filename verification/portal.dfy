/** The page as a whole: the wizard together with the store of saved events,
    and the two handlers that touch both, submit and delete. */
module Portal {
  import opened Common
  import Text
  import opened Gate
  import opened Conditional
  import opened Wizard
  import opened Records

  datatype Portal = Portal(wizard: Wizard, slot: Slot)

  /** A submit of the form whose controls are `controls` and whose `FormData`
      is `s`. When a required control is empty the browser does not fire the
      event, so nothing changes. Otherwise the handler reads the stored list
      first; when it does not parse the handler stops there, so neither the
      store nor the step changes. Otherwise the normalized snapshot is appended
      and the wizard goes back to the first panel. */
  function Submit(p: Portal, controls: seq<Control>, s: Snapshot): (r: Result<Portal>)
    requires Valid(p.wizard)
    ensures r.Err? <==> !FormValid(controls) || p.slot.Unparsable?
    ensures !FormValid(controls) ==> r == Err(FormInvalid)
    ensures FormValid(controls) && p.slot.Unparsable? ==> r == Err(MalformedPayload)
    ensures r.Ok? ==> Valid(r.value.wizard) && r.value.wizard.step == 0
    ensures r.Ok? ==> Load(r.value.slot) == Ok(Load(p.slot).value + [Normalize(s)])
  {
    if !FormValid(controls) then Err(FormInvalid)
    else
      var slot :- Append(p.slot, s);
      Ok(Portal(Reset(p.wizard), slot))
  }

  /** The wizard's view of a submit agrees with the handler on every panel: a
      submit that goes through resets the step, and one the browser or the
      stored list stops leaves it where it was. */
  lemma SubmitMatchesWizardAction(p: Portal, controls: seq<Control>, s: Snapshot)
    requires Valid(p.wizard)
    ensures var r := Submit(p, controls, s);
      Apply(p.wizard, SubmitForm(r.Ok?)).state == (if r.Ok? then r.value.wizard else p.wizard)
  {
  }

  /** Every control the Event Details gate accepts also passes the browser's
      check, since an empty value is blank; the converse fails on a value of
      spaces, which only the gate refuses. */
  lemma GateStricterThanBrowser(controls: seq<Control>)
    ensures FirstIncomplete(controls).None? ==> FormValid(controls)
    ensures FormValid([Control("title", " ", true)]) && FirstIncomplete([Control("title", " ", true)]).Some?
  {
    assert Text.IsBlank(" ") by { Text.BlankIffAllSpace(" "); }
  }

  /** A shown funding section with an empty input stops the submit, wherever
      the section sits among the form's controls. */
  lemma {:induction false} BlankFundingBlocksSubmit(p: Portal, before: seq<Control>, f: Funding, after: seq<Control>, s: Snapshot, j: nat)
    requires Valid(p.wizard)
    requires j < |f.inputs| && f.inputs[j].value == ""
    ensures Submit(p, before + ToggleFunding(Some(Yes), f).inputs + after, s) == Err(FormInvalid)
  {
    var controls := before + ToggleFunding(Some(Yes), f).inputs + after;
    assert ValueMissing(controls[|before| + j]);
  }

  /** The delete button of saved event `index`; the wizard is not touched. */
  function DeleteEvent(p: Portal, index: int): (r: Result<Portal>)
    ensures r.Err? <==> p.slot.Unparsable?
    ensures r.Ok? ==> r.value.wizard == p.wizard
    ensures r.Ok? ==> Load(r.value.slot) == Ok(Splice(Load(p.slot).value, index))
  {
    var slot :- Delete(p.slot, index);
    Ok(Portal(p.wizard, slot))
  }

  /** Submitting the same form twice stores it twice: submit does not deduplicate. */
  lemma {:induction false} ResubmitDuplicates(p: Portal, controls: seq<Control>, s: Snapshot)
    requires Valid(p.wizard) && !p.slot.Unparsable? && FormValid(controls)
    ensures Submit(p, controls, s).Ok? && Submit(Submit(p, controls, s).value, controls, s).Ok?
    ensures var after := Load(Submit(Submit(p, controls, s).value, controls, s).value.slot).value;
      && |after| == |Load(p.slot).value| + 2
      && after[|after| - 1] == after[|after| - 2] == Normalize(s)
  {
    var once := Submit(p, controls, s).value;
    assert !once.slot.Unparsable?;
  }

  /** A submit followed by deleting the new last record gives back the stored
      list it started from, with the wizard on the first panel. */
  lemma {:induction false} SubmitThenDeleteRestores(p: Portal, controls: seq<Control>, s: Snapshot)
    requires Valid(p.wizard) && !p.slot.Unparsable? && FormValid(controls)
    ensures var n := |Load(p.slot).value|;
      && Submit(p, controls, s).Ok?
      && DeleteEvent(Submit(p, controls, s).value, n).Ok?
      && Load(DeleteEvent(Submit(p, controls, s).value, n).value.slot) == Ok(Load(p.slot).value)
      && DeleteEvent(Submit(p, controls, s).value, n).value.wizard.step == 0
  {
    var before := Load(p.slot).value;
    var n := |before|;
    var after := before + [Normalize(s)];
    assert after[..n] == before;
    assert after[n + 1..] == [];
    assert Splice(after, n) == before;
  }
}
