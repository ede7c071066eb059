/** The Event Details gate: the first panel may be left only when none of its
    required controls holds a blank value. The result is the position of the
    first offending control in document order, the one that gets focus. */
module Gate {
  import opened Common
  import opened Text

  /** A form control as the gate sees it: its name, current value and whether it
      carries the `required` flag. */
  datatype Control = Control(key: string, value: string, required: bool)

  /** A control that stops the gate. */
  predicate Incomplete(c: Control) { c.required && IsBlank(c.value) }

  /** The first incomplete control of the first panel, or `None` when the panel
      passes. */
  function FirstIncomplete(fields: seq<Control>): (r: Option<nat>)
    ensures r.Some? ==> r.value < |fields| && Incomplete(fields[r.value])
    ensures r.Some? ==> forall j :: 0 <= j < r.value ==> !Incomplete(fields[j])
    ensures r.None? <==> forall j :: 0 <= j < |fields| ==> !Incomplete(fields[j])
  {
    if fields == [] then None
    else if Incomplete(fields[0]) then Some(0)
    else match FirstIncomplete(fields[1..])
      case None => None
      case Some(i) => Some(i + 1)
  }

  /** The panel passes exactly when every required control has a character
      other than whitespace. */
  lemma PassesIffFilled(fields: seq<Control>)
    ensures FirstIncomplete(fields).None? <==>
      forall j :: 0 <= j < |fields| && fields[j].required ==>
        exists p :: 0 <= p < |fields[j].value| && !IsSpace(fields[j].value[p])
  {
    forall j | 0 <= j < |fields| {
      BlankIffAllSpace(fields[j].value);
    }
  }

  /** Controls without the `required` flag never stop the gate, whatever they hold. */
  lemma OptionalControlsIgnored(fields: seq<Control>, values: seq<string>)
    requires |values| == |fields|
    requires forall j :: 0 <= j < |fields| && fields[j].required ==> values[j] == fields[j].value
    ensures FirstIncomplete(fields) ==
      FirstIncomplete(seq(|fields|, j requires 0 <= j < |fields| => fields[j].(value := values[j])))
  {
    var edited := seq(|fields|, j requires 0 <= j < |fields| => fields[j].(value := values[j]));
    assert forall j :: 0 <= j < |fields| ==> (Incomplete(edited[j]) <==> Incomplete(fields[j]));
    FirstIncompleteDependsOnFlags(fields, edited);
  }

  lemma {:induction false} FirstIncompleteDependsOnFlags(a: seq<Control>, b: seq<Control>)
    requires |a| == |b|
    requires forall j :: 0 <= j < |a| ==> (Incomplete(a[j]) <==> Incomplete(b[j]))
    ensures FirstIncomplete(a) == FirstIncomplete(b)
    decreases |a|
  {
    if a != [] && !Incomplete(a[0]) {
      FirstIncompleteDependsOnFlags(a[1..], b[1..]);
    }
  }

  /** The browser's `valueMissing` test: a required control whose value is the
      empty string. Unlike the Event Details gate it does not trim. */
  predicate ValueMissing(c: Control) { c.required && c.value == "" }

  /** The controls pass the browser's required-field check, which runs over
      every control of the form before `submit` is fired. */
  predicate FormValid(controls: seq<Control>)
  {
    forall i :: 0 <= i < |controls| ==> !ValueMissing(controls[i])
  }

  /** Scenario: a blank required title stops the gate at the title even when a
      later control is filled. */
  lemma BlankTitleReported()
    ensures FirstIncomplete([Control("title", "  ", true), Control("coordinator", "Alice", true)]) == Some(0)
  {
    assert IsBlank("  ") by { BlankIffAllSpace("  "); }
  }
}
