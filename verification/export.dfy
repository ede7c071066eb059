/** The two table sources of the export. The preview table is built from the
    live form snapshot; the saved-record report is built from one stored record.
    Both are reduced to label/value rows and handed to the same `Pdf.Render`.
    The two downloads use the rows as the page computes them; the corrected
    rows (the preview's label and a dash for every empty value) are kept
    beside them so the two forms can be compared. */
module Export {
  import opened Common
  import opened Text
  import opened Labels
  import opened Records
  import opened Pdf

  /** A preview value cell: shown text, or a download link for a chosen file. */
  datatype Cell = Shown(text: string) | DownloadLink(name: string)

  /** The preview cell as the preview builder computes it. The file branch
      needs a non-empty file name; an empty file input (a `File` with an empty
      name) then falls to the truthiness branch, where the object itself is
      interpolated as `[object File]`. */
  function PreviewCellAsWritten(v: FieldValue): (c: Cell)
    ensures v.Text? ==> c == Shown(OrDash(v.text))
    ensures v.File? && v.name != "" ==> c == DownloadLink(v.name)
  {
    match v
    case File(n) => if n != "" then DownloadLink(n) else Shown("[object File]")
    case Text(s) => if s != "" then Shown(s) else Shown("-")
  }

  /** The preview cell with every empty value, file or text, shown as a dash. */
  function PreviewCell(v: FieldValue): (c: Cell)
    ensures v.File? && v.name != "" ==> c == DownloadLink(v.name)
    ensures !(v.File? && v.name != "") ==> c.Shown?
  {
    match v
    case File(n) => if n != "" then DownloadLink(n) else Shown("-")
    case Text(s) => Shown(OrDash(s))
  }

  /** The value a cell presents to the reader: a link presents its file name. */
  function Presented(c: Cell): string
  {
    match c
    case Shown(t) => t
    case DownloadLink(n) => n
  }

  /** The preview presents every value exactly as the saved record's report
      will: the stored string, or a dash when it is empty. */
  lemma PreviewMatchesSavedValue(v: FieldValue)
    ensures Presented(PreviewCell(v)) == OrDash(Flatten(v))
    ensures Presented(PreviewCell(v)) != ""
  {
  }

  /** The preview as written breaks that agreement on exactly one input, an
      empty file input, and agrees with the dash-for-empty cell everywhere else. */
  lemma EmptyFileShownAsObject(v: FieldValue)
    ensures PreviewCellAsWritten(File("")) == Shown("[object File]")
    ensures Presented(PreviewCellAsWritten(File(""))) != OrDash(Flatten(File("")))
    ensures v != File("") ==> PreviewCellAsWritten(v) == PreviewCell(v)
  {
  }

  /** The text a cell reads back as when the preview table is exported. */
  function CellText(c: Cell): (t: string)
    ensures c.Shown? ==> t == c.text
    ensures c.DownloadLink? ==> |t| == |c.name| + 9 && t[..9] == "Download " && t[9..] == c.name
  {
    match c
    case Shown(t) => t
    case DownloadLink(n) => "Download " + n
  }

  /** The rows of the preview table, one per snapshot entry, in snapshot order,
      as the preview builder writes them. */
  function PreviewRows(s: Snapshot): (rows: seq<Row>)
    ensures |rows| == |s|
    ensures forall i :: 0 <= i < |s| ==> rows[i].caption == PreviewLabel(s[i].key)
    ensures forall i :: 0 <= i < |s| && s[i].value.Text? ==> rows[i].value == OrDash(s[i].value.text)
    ensures forall i :: 0 <= i < |s| && s[i].value == File("") ==> rows[i].value == "[object File]"
    ensures forall i :: 0 <= i < |s| && s[i].value.File? && s[i].value.name != "" ==>
      rows[i].value == "Download " + s[i].value.name
  {
    seq(|s|, i requires 0 <= i < |s| => Row(PreviewLabel(s[i].key), CellText(PreviewCellAsWritten(s[i].value))))
  }

  /** The preview rows with an empty file input shown as a dash. */
  function PreviewRowsCorrected(s: Snapshot): (rows: seq<Row>)
    ensures |rows| == |s|
  {
    seq(|s|, i requires 0 <= i < |s| => Row(PreviewLabel(s[i].key), CellText(PreviewCell(s[i].value))))
  }

  /** The rows of a saved record's report, one per entry, in the record's key
      order, as the saved-record export writes them. */
  function SavedRows(r: Record): (rows: seq<Row>)
    ensures |rows| == |r|
    ensures forall i :: 0 <= i < |r| ==> rows[i].caption == SavedLabelAsWritten(r[i].key)
    ensures forall i :: 0 <= i < |r| && r[i].value != "" ==> rows[i].value == r[i].value
    ensures forall i :: 0 <= i < |r| && r[i].value == "" ==> rows[i].value == "-"
  {
    seq(|r|, i requires 0 <= i < |r| => Row(SavedLabelAsWritten(r[i].key), OrDash(r[i].value)))
  }

  /** The saved-record rows labelled as the preview labels them. */
  function SavedRowsCorrected(r: Record): (rows: seq<Row>)
    ensures |rows| == |r|
  {
    seq(|r|, i requires 0 <= i < |r| => Row(PreviewLabel(r[i].key), OrDash(r[i].value)))
  }

  /** No exported cell is empty, from either source and in either form. */
  lemma RowsNeverEmpty(s: Snapshot, r: Record)
    ensures forall i :: 0 <= i < |s| ==> PreviewRows(s)[i].value != "" && |PreviewRows(s)[i].caption| >= |s[i].key|
    ensures forall i :: 0 <= i < |s| ==> PreviewRowsCorrected(s)[i].value != ""
    ensures forall i :: 0 <= i < |r| ==> SavedRows(r)[i].value != "" && |SavedRows(r)[i].caption| == |r[i].key|
    ensures forall i :: 0 <= i < |r| ==> SavedRowsCorrected(r)[i].value != "" && |SavedRowsCorrected(r)[i].caption| >= |r[i].key|
  {
  }

  /** The download button under the preview. */
  function PreviewPdf(s: Snapshot): (d: Document)
    ensures d.fileName == "EVENT_PREVIEW_REPORT.pdf"
    ensures d.placements == Layout(PreviewRows(s))
    ensures |d.placements| == |s|
    ensures forall i :: 0 <= i < |s| ==> d.placements[i].row.caption == PreviewLabel(s[i].key)
    ensures forall i :: 0 <= i < |s| ==> d.placements[i].row.value == CellText(PreviewCellAsWritten(s[i].value))
  {
    PreviewReportFileName();
    Render("EVENT PREVIEW REPORT", PreviewRows(s))
  }

  /** `downloadSavedPDF(index)`: a payload that does not parse, or an index
      with no record behind it, ends in an error instead of a document. */
  function SavedPdf(slot: Slot, index: int): (r: Result<Document>)
    ensures r.Err? <==> slot.Unparsable? || !(0 <= index < |Load(slot).value|)
    ensures slot.Unparsable? ==> r == Err(MalformedPayload)
    ensures !slot.Unparsable? && !(0 <= index < |Load(slot).value|) ==> r == Err(MissingRecord(index))
    ensures r.Ok? ==> r.value.fileName == "EVENT_REPORT.pdf"
    ensures r.Ok? ==> r.value.placements == Layout(SavedRows(Load(slot).value[index]))
    ensures r.Ok? ==> |r.value.placements| == |Load(slot).value[index]|
    ensures r.Ok? ==> forall i :: 0 <= i < |Load(slot).value[index]| ==>
      r.value.placements[i].row ==
        Row(SavedLabelAsWritten(Load(slot).value[index][i].key), OrDash(Load(slot).value[index][i].value))
  {
    var records :- Load(slot);
    if 0 <= index < |records| then
      PreviewReportFileName();
      Ok(Render("EVENT REPORT", SavedRows(records[index])))
    else Err(MissingRecord(index))
  }

  /** Two tables lay out the same exactly when they have the same rows. */
  lemma LayoutSameIffRowsSame(a: seq<Row>, b: seq<Row>)
    ensures Layout(a) == Layout(b) <==> a == b
  {
    LayoutSteps(a);
    LayoutSteps(b);
    if Layout(a) == Layout(b) {
      assert forall i :: 0 <= i < |a| ==> a[i] == Layout(a)[i].row == b[i];
    }
  }

  /** One submitted entry, as its saved-report row and its preview row: the two
      agree exactly when the key has no capital and the value is text. An empty
      file input reads `[object File]` against `-`, and a chosen file reads
      `Download ` and its name against the name alone. */
  lemma RowAgreesIff(f: Field)
    ensures Row(SavedLabelAsWritten(f.key), OrDash(Flatten(f.value)))
         == Row(PreviewLabel(f.key), CellText(PreviewCellAsWritten(f.value)))
      <==> CountUpper(f.key) == 0 && f.value.Text?
  {
    LabelsAgreeIffNoCaps(f.key);
  }

  /** The same comparison with the corrected label and cell: the rows agree
      exactly when the value is not a chosen file. */
  lemma CorrectedRowAgreesIff(f: Field)
    ensures Row(PreviewLabel(f.key), OrDash(Flatten(f.value)))
         == Row(PreviewLabel(f.key), CellText(PreviewCell(f.value)))
      <==> !(f.value.File? && f.value.name != "")
  {
  }

  /** Row `i` of the two tables built from one form with distinct keys, as
      written: they agree exactly when key `i` has no capital and value `i` is text. */
  lemma SavedRowMatchesPreviewRow(s: Snapshot, i: nat)
    requires DistinctKeys(s) && i < |s|
    ensures |SavedRows(Normalize(s))| == |s|
    ensures SavedRows(Normalize(s))[i] == PreviewRows(s)[i]
      <==> CountUpper(s[i].key) == 0 && s[i].value.Text?
  {
    NormalizeDistinct(s);
    assert Normalize(s)[i] == Pair(s[i].key, Flatten(s[i].value));
    assert SavedRows(Normalize(s))[i] == Row(SavedLabelAsWritten(s[i].key), OrDash(Flatten(s[i].value)));
    RowAgreesIff(s[i]);
  }

  /** As written, a record built from a form with distinct keys gives the same
      report rows as the form's preview exactly when no key has a capital and
      every value is text. */
  lemma SavedRowsMatchPreviewRows(s: Snapshot)
    requires DistinctKeys(s)
    ensures SavedRows(Normalize(s)) == PreviewRows(s)
      <==> forall i :: 0 <= i < |s| ==> CountUpper(s[i].key) == 0 && s[i].value.Text?
  {
    var saved := SavedRows(Normalize(s));
    var preview := PreviewRows(s);
    if s != [] {
      SavedRowMatchesPreviewRow(s, 0);
    }
    if forall i :: 0 <= i < |s| ==> CountUpper(s[i].key) == 0 && s[i].value.Text? {
      forall i | 0 <= i < |s| ensures saved[i] == preview[i] {
        SavedRowMatchesPreviewRow(s, i);
      }
      assert saved == preview;
    } else {
      var i :| 0 <= i < |s| && !(CountUpper(s[i].key) == 0 && s[i].value.Text?);
      SavedRowMatchesPreviewRow(s, i);
      assert saved[i] != preview[i];
    }
  }

  /** Row `i` with the corrected label and cell: the rows agree exactly when
      value `i` is not a chosen file. */
  lemma CorrectedRowMatches(s: Snapshot, i: nat)
    requires DistinctKeys(s) && i < |s|
    ensures |SavedRowsCorrected(Normalize(s))| == |s|
    ensures SavedRowsCorrected(Normalize(s))[i] == PreviewRowsCorrected(s)[i]
      <==> !(s[i].value.File? && s[i].value.name != "")
  {
    NormalizeDistinct(s);
    assert Normalize(s)[i] == Pair(s[i].key, Flatten(s[i].value));
    CorrectedRowAgreesIff(s[i]);
  }

  /** With the corrected label and cell, the same rows agree exactly when no
      value is a chosen file. */
  lemma CorrectedRowsMatch(s: Snapshot)
    requires DistinctKeys(s)
    ensures SavedRowsCorrected(Normalize(s)) == PreviewRowsCorrected(s)
      <==> forall i :: 0 <= i < |s| ==> !(s[i].value.File? && s[i].value.name != "")
  {
    var saved := SavedRowsCorrected(Normalize(s));
    var preview := PreviewRowsCorrected(s);
    if s != [] {
      CorrectedRowMatches(s, 0);
    }
    if forall i :: 0 <= i < |s| ==> !(s[i].value.File? && s[i].value.name != "") {
      forall i | 0 <= i < |s| ensures saved[i] == preview[i] {
        CorrectedRowMatches(s, i);
      }
      assert saved == preview;
    } else {
      var i :| 0 <= i < |s| && !(!(s[i].value.File? && s[i].value.name != ""));
      CorrectedRowMatches(s, i);
      assert saved[i] != preview[i];
    }
  }

  /** As the page is written, the report of a just-submitted form with
      distinct keys places the same rows as the preview of that form exactly
      when no key has a capital and every value is text. */
  lemma SavedReportMatchesPreviewAsWritten(slot: Slot, s: Snapshot)
    requires !slot.Unparsable?
    requires DistinctKeys(s)
    ensures var index := |Load(slot).value|;
      && SavedPdf(Append(slot, s).value, index).Ok?
      && (SavedPdf(Append(slot, s).value, index).value.placements == PreviewPdf(s).placements
          <==> forall i :: 0 <= i < |s| ==> CountUpper(s[i].key) == 0 && s[i].value.Text?)
  {
    var records := Load(slot).value;
    var stored := Load(Append(slot, s).value).value;
    assert stored == records + [Normalize(s)];
    assert stored[|records|] == Normalize(s);
    LayoutSameIffRowsSame(SavedRows(Normalize(s)), PreviewRows(s));
    SavedRowsMatchPreviewRows(s);
  }

  /** With the corrected rows, the report of a just-submitted form with
      distinct keys places the same rows, in the same order, as the preview of
      that form exactly when no value is a chosen file (a chosen file reads as
      its link text in the preview and as its name in the report). */
  lemma SavedReportMatchesPreview(slot: Slot, s: Snapshot)
    requires !slot.Unparsable?
    requires DistinctKeys(s)
    ensures var index := |Load(slot).value|;
      var stored := Load(Append(slot, s).value).value;
      && index < |stored|
      && (Layout(SavedRowsCorrected(stored[index])) == Layout(PreviewRowsCorrected(s))
          <==> forall i :: 0 <= i < |s| ==> !(s[i].value.File? && s[i].value.name != ""))
  {
    var records := Load(slot).value;
    var stored := Load(Append(slot, s).value).value;
    assert stored == records + [Normalize(s)];
    assert stored[|records|] == Normalize(s);
    LayoutSameIffRowsSame(SavedRowsCorrected(Normalize(s)), PreviewRowsCorrected(s));
    CorrectedRowsMatch(s);
  }
}
