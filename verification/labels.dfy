/** Field keys turned into table labels, and the empty-value placeholder.
    The preview table humanizes a camelCase key by putting a space in front of
    every capital and upper-casing the result; the saved-record export replaces
    each capital by a space instead, which loses the letter. */
module Labels {
  import opened Text

  /** The regular-expression replacement `/([A-Z])/g -> " $1"`. */
  function SpaceBeforeCaps(k: string): (r: string)
    ensures |r| == |k| + CountUpper(k)
    ensures CountUpper(k) == 0 ==> r == k
  {
    if k == [] then [] else (if IsUpper(k[0]) then [' ', k[0]] else [k[0]]) + SpaceBeforeCaps(k[1..])
  }

  /** The preview-table label of key `k`. */
  function PreviewLabel(k: string): (r: string)
    ensures |r| == |k| + CountUpper(k)
    ensures forall i :: 0 <= i < |r| ==> !IsLower(r[i])
  {
    Upper(SpaceBeforeCaps(k))
  }

  /** What one key character contributes to its preview label. */
  function Piece(c: char): (r: string)
    ensures 1 <= |r| <= 2
  {
    if IsUpper(c) then [' ', c] else [ToUpper(c)]
  }

  lemma UpperAppend(a: string, b: string)
    ensures Upper(a + b) == Upper(a) + Upper(b)
  {
  }

  /** The preview label is built character by character, left to right. */
  lemma PreviewLabelCons(k: string)
    requires k != []
    ensures PreviewLabel(k) == Piece(k[0]) + PreviewLabel(k[1..])
  {
    var head := if IsUpper(k[0]) then [' ', k[0]] else [k[0]];
    UpperAppend(head, SpaceBeforeCaps(k[1..]));
  }

  /** A key's label contains no whitespace added by the key itself. */
  predicate SpaceFree(k: string) { forall i :: 0 <= i < |k| ==> k[i] != ' ' }

  /** Distinct space-free keys get distinct preview labels, so no two rows of a
      record's table share a label. */
  lemma {:induction false} PreviewLabelInjective(a: string, b: string)
    requires SpaceFree(a) && SpaceFree(b)
    requires PreviewLabel(a) == PreviewLabel(b)
    ensures a == b
    decreases |a|
  {
    if a == [] || b == [] {
      assert |PreviewLabel(a)| == |PreviewLabel(b)|;
    } else {
      PreviewLabelCons(a);
      PreviewLabelCons(b);
      var la := PreviewLabel(a);
      assert a[0] != ' ' && b[0] != ' ';
      if IsUpper(a[0]) {
        assert la[0] == ' ';
        assert IsUpper(b[0]);
        assert la[1] == a[0] && la[1] == b[0];
        assert la[2..] == PreviewLabel(a[1..]) == PreviewLabel(b[1..]);
      } else {
        assert la[0] == ToUpper(a[0]);
        assert !IsUpper(b[0]);
        assert a[0] == b[0];
        assert la[1..] == PreviewLabel(a[1..]) == PreviewLabel(b[1..]);
      }
      assert SpaceFree(a[1..]) && SpaceFree(b[1..]);
      PreviewLabelInjective(a[1..], b[1..]);
      assert a == [a[0]] + a[1..];
      assert b == [b[0]] + b[1..];
    }
  }

  /** The saved-record label as the export of a stored record computes it:
      `/([A-Z])/g -> " "` followed by `toUpperCase`. */
  function SavedLabelAsWritten(k: string): (r: string)
    ensures |r| == |k|
    ensures forall i :: 0 <= i < |k| && IsUpper(k[i]) ==> r[i] == ' '
    ensures forall i :: 0 <= i < |k| && !IsUpper(k[i]) ==> r[i] == ToUpper(k[i])
    ensures forall i :: 0 <= i < |r| ==> !IsLower(r[i])
  {
    Upper(seq(|k|, i requires 0 <= i < |k| => if IsUpper(k[i]) then ' ' else k[i]))
  }

  lemma CountUpperZero(k: string)
    ensures CountUpper(k) == 0 <==> forall i :: 0 <= i < |k| ==> !IsUpper(k[i])
  {
    if k != [] {
      CountUpperZero(k[1..]);
      assert forall i :: 1 <= i < |k| ==> k[i] == k[1..][i - 1];
    }
  }

  /** The two label forms agree exactly on keys without capitals. */
  lemma LabelsAgreeIffNoCaps(k: string)
    ensures PreviewLabel(k) == SavedLabelAsWritten(k) <==> CountUpper(k) == 0
  {
    CountUpperZero(k);
    if CountUpper(k) == 0 {
      assert SpaceBeforeCaps(k) == k by { NoCapsUnchanged(k); }
    } else {
      assert |PreviewLabel(k)| != |SavedLabelAsWritten(k)|;
    }
  }

  lemma NoCapsUnchanged(k: string)
    requires CountUpper(k) == 0
    ensures SpaceBeforeCaps(k) == k
  {
  }

  /** The as-written saved label cannot see which capital a key had: keys that
      differ only in their capitals share a label. */
  lemma SavedLabelForgetsCapitals(a: string, b: string)
    requires |a| == |b|
    requires forall i :: 0 <= i < |a| ==> (IsUpper(a[i]) <==> IsUpper(b[i]))
    requires forall i :: 0 <= i < |a| && !IsUpper(a[i]) ==> a[i] == b[i]
    ensures SavedLabelAsWritten(a) == SavedLabelAsWritten(b)
  {
  }

  /** The as-written saved label drops the capital letters it replaces:
      `startDate` becomes `START ATE`, and two different keys can share a label. */
  lemma SavedLabelLosesLetters()
    ensures SavedLabelAsWritten("startDate") == "START ATE"
    ensures PreviewLabel("startDate") == "START DATE"
    ensures SavedLabelAsWritten("endDate") == SavedLabelAsWritten("endGate")
  {
    var saved := SavedLabelAsWritten("startDate");
    assert saved[5] == ' ';
    assert saved == "START ATE";
    assert SpaceBeforeCaps("Date") == " Date";
    assert SpaceBeforeCaps("startDate") == "start Date";
    SavedLabelForgetsCapitals("endDate", "endGate");
  }

  /** `value || "-"`: an empty value is shown as a dash. */
  function OrDash(v: string): (r: string)
    ensures r != []
    ensures v != [] ==> r == v
    ensures v == [] ==> r == "-"
  {
    if v == [] then "-" else v
  }
}
