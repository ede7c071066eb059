/** The two conditional sub-sections of the form. The online-link row follows
    the event mode; the funding section follows the financial-support radio
    group. In both, the inputs are required exactly while the section is shown,
    and hiding a section blanks its inputs. */
module Conditional {
  import opened Common
  import opened Text
  import opened Gate

  const Online := "Online"
  const Yes := "yes"

  /** The online-link row: whether it is displayed, and its input. */
  datatype LinkRow = LinkRow(shown: bool, input: Control)

  /** The row agrees with the selected mode: shown and required when the mode is
      online, hidden, optional and empty otherwise. */
  predicate LinkConsistent(mode: string, row: LinkRow)
  {
    && row.shown == (mode == Online)
    && row.input.required == row.shown
    && (!row.shown ==> row.input.value == "")
  }

  /** The `change` handler of the mode select. */
  function OnModeChange(mode: string, row: LinkRow): (r: LinkRow)
    ensures LinkConsistent(mode, r)
    ensures r.input.key == row.input.key
    ensures mode == Online ==> r.input.value == row.input.value
  {
    var isOnline := mode == Online;
    LinkRow(isOnline,
      row.input.(required := isOnline, value := if isOnline then row.input.value else ""))
  }

  /** The handler changes nothing exactly when the row already agrees with the
      mode, so running it twice is the same as running it once. */
  lemma ModeChangeFixesExactlyConsistent(mode: string, row: LinkRow)
    ensures OnModeChange(mode, row) == row <==> LinkConsistent(mode, row)
    ensures OnModeChange(mode, OnModeChange(mode, row)) == OnModeChange(mode, row)
  {
  }

  /** After the handler, the link can stop the Event Details gate only when the
      mode is online and the link is blank. */
  lemma LinkBlocksIffOnlineAndBlank(mode: string, row: LinkRow)
    ensures Incomplete(OnModeChange(mode, row).input) <==> mode == Online && IsBlank(row.input.value)
  {
  }

  /** The funding section: whether it is displayed, and its inputs in document order. */
  datatype Funding = Funding(shown: bool, inputs: seq<Control>)

  predicate FundingConsistent(selected: Option<string>, f: Funding)
  {
    && f.shown == (selected == Some(Yes))
    && (forall i :: 0 <= i < |f.inputs| ==> f.inputs[i].required == f.shown)
    && (!f.shown ==> forall i :: 0 <= i < |f.inputs| ==> f.inputs[i].value == "")
  }

  /** `toggleFunding`, given the value of the checked radio button, if any. */
  function ToggleFunding(selected: Option<string>, f: Funding): (r: Funding)
    ensures FundingConsistent(selected, r)
    ensures |r.inputs| == |f.inputs|
    ensures forall i :: 0 <= i < |f.inputs| ==> r.inputs[i].key == f.inputs[i].key
    ensures r.shown ==> forall i :: 0 <= i < |f.inputs| ==> r.inputs[i].value == f.inputs[i].value
  {
    if selected == Some(Yes) then
      Funding(true, seq(|f.inputs|, i requires 0 <= i < |f.inputs| => f.inputs[i].(required := true)))
    else
      Funding(false, seq(|f.inputs|, i requires 0 <= i < |f.inputs| => f.inputs[i].(required := false, value := "")))
  }

  lemma ToggleFixesExactlyConsistent(selected: Option<string>, f: Funding)
    ensures ToggleFunding(selected, f) == f <==> FundingConsistent(selected, f)
    ensures ToggleFunding(selected, ToggleFunding(selected, f)) == ToggleFunding(selected, f)
  {
    if FundingConsistent(selected, f) {
      assert ToggleFunding(selected, f).inputs == f.inputs;
    }
  }

  /** No checked radio button is handled exactly like any answer other than yes. */
  lemma MissingSelectionIsNo(f: Funding, answer: string)
    requires answer != Yes
    ensures ToggleFunding(None, f) == ToggleFunding(Some(answer), f)
  {
  }

  /** A hidden funding section never stops either form check. A shown one
      passes the Event Details gate (which applies when the section sits on
      the first panel) exactly when none of its inputs is blank, and passes the
      browser's required check at submit exactly when none is empty. */
  lemma FundingGate(selected: Option<string>, f: Funding)
    ensures selected != Some(Yes) ==> FirstIncomplete(ToggleFunding(selected, f).inputs).None?
    ensures selected != Some(Yes) ==> FormValid(ToggleFunding(selected, f).inputs)
    ensures selected == Some(Yes) ==>
      (FirstIncomplete(ToggleFunding(selected, f).inputs).None? <==>
       forall i :: 0 <= i < |f.inputs| ==> !IsBlank(f.inputs[i].value))
    ensures selected == Some(Yes) ==>
      (FormValid(ToggleFunding(selected, f).inputs) <==>
       forall i :: 0 <= i < |f.inputs| ==> f.inputs[i].value != "")
  {
    var r := ToggleFunding(selected, f);
    if selected == Some(Yes) {
      assert forall i :: 0 <= i < |f.inputs| ==> (Incomplete(r.inputs[i]) <==> IsBlank(f.inputs[i].value));
      assert forall i :: 0 <= i < |f.inputs| ==> (ValueMissing(r.inputs[i]) <==> f.inputs[i].value == "");
    }
  }
}
