/** The table export: where each label/value row lands in an A4 portrait
    document, measured in millimetres from the top of the page, and the file
    name the document is saved under. Drawing itself is not modelled; a
    placement says on which page, and at which text baseline, a row's two
    cells are drawn. */
module Pdf {

  datatype Row = Row(caption: string, value: string)

  /** A row drawn on page `page` (0 is the first) with its baseline at `y`. */
  datatype Placement = Placement(page: nat, y: int, row: Row)

  /** Baseline of the first row, below the title and its rule. */
  const FirstTop := 30
  /** Baseline of the first row on every later page. */
  const PageTop := 25
  /** A row whose baseline would be past this starts a new page. */
  const Bottom := 270
  const RowHeight := 8
  /** The y of the rule drawn under the title on the first page. */
  const TitleRule := 22
  /** The y of the footer text. */
  const FooterY := 290

  /** The row loop from a cursor: before each row, a cursor past `Bottom` moves
      to a new page at `PageTop`; each row then advances the cursor by `RowHeight`. */
  function Place(rows: seq<Row>, page: nat, y: int): (r: seq<Placement>)
    requires PageTop <= y <= Bottom + RowHeight
    ensures |r| == |rows|
    ensures forall i :: 0 <= i < |r| ==> r[i].row == rows[i]
    ensures forall i :: 0 <= i < |r| ==> PageTop <= r[i].y <= Bottom && page <= r[i].page
    ensures rows != [] && y > Bottom ==> r[0].page == page + 1 && r[0].y == PageTop
    ensures rows != [] && y <= Bottom ==> r[0].page == page && r[0].y == y
    decreases |rows|
  {
    if rows == [] then []
    else
      var p := if y > Bottom then page + 1 else page;
      var top := if y > Bottom then PageTop else y;
      [Placement(p, top, rows[0])] + Place(rows[1..], p, top + RowHeight)
  }

  /** `generateTablePDF`'s row loop, with the cursor starting at `FirstTop`. */
  function Layout(rows: seq<Row>): (r: seq<Placement>)
    ensures |r| == |rows|
    ensures forall i :: 0 <= i < |r| ==> r[i].row == rows[i] && PageTop <= r[i].y <= Bottom
    ensures rows != [] ==> r[0] == Placement(0, FirstTop, rows[0])
  {
    Place(rows, 0, FirstTop)
  }

  /** Consecutive rows: the next one goes 8 mm lower on the same page, or to the
      top of the next page exactly when the cursor has passed the bottom line. */
  lemma {:induction false} PlaceSteps(rows: seq<Row>, page: nat, y: int, i: nat)
    requires PageTop <= y <= Bottom + RowHeight
    requires i + 1 < |rows|
    ensures var r := Place(rows, page, y);
      && (r[i].y + RowHeight > Bottom ==> r[i + 1].page == r[i].page + 1 && r[i + 1].y == PageTop)
      && (r[i].y + RowHeight <= Bottom ==> r[i + 1].page == r[i].page && r[i + 1].y == r[i].y + RowHeight)
    decreases |rows|
  {
    var p := if y > Bottom then page + 1 else page;
    var top := if y > Bottom then PageTop else y;
    if i > 0 {
      PlaceSteps(rows[1..], p, top + RowHeight, i - 1);
    }
  }

  /** Every row is placed once, in input order, between the top and bottom lines,
      and pages advance only as the layout steps prescribe. */
  lemma LayoutSteps(rows: seq<Row>)
    ensures var r := Layout(rows);
      && |r| == |rows|
      && (forall i :: 0 <= i < |r| ==> r[i].row == rows[i] && PageTop <= r[i].y <= Bottom)
      && (rows != [] ==> r[0].page == 0 && r[0].y == FirstTop)
      && (forall i :: 0 <= i < |r| - 1 ==>
            (r[i].y + RowHeight > Bottom ==> r[i + 1].page == r[i].page + 1 && r[i + 1].y == PageTop)
            && (r[i].y + RowHeight <= Bottom ==> r[i + 1].page == r[i].page && r[i + 1].y == r[i].y + RowHeight))
  {
    forall i | 0 <= i < |rows| - 1 {
      PlaceSteps(rows, 0, FirstTop, i);
    }
  }

  lemma DivModStep(i: nat)
    requires i > 0
    ensures (i - 1) % 31 == 30 ==> i / 31 == (i - 1) / 31 + 1 && i % 31 == 0
    ensures (i - 1) % 31 < 30 ==> i / 31 == (i - 1) / 31 && i % 31 == (i - 1) % 31 + 1
  {
  }

  /** Row `i` lands on page `i / 31`, `i % 31` rows below the top of that page:
      a page holds 31 rows, since 30 + 8 * 30 and 25 + 8 * 30 are within the
      bottom line and one row more is not. */
  lemma {:induction false} LayoutClosedForm(rows: seq<Row>, i: nat)
    requires i < |rows|
    ensures Layout(rows)[i] ==
      Placement(i / 31, (if i < 31 then FirstTop else PageTop) + 8 * (i % 31), rows[i])
    decreases i
  {
    LayoutSteps(rows);
    if i > 0 {
      LayoutClosedForm(rows, i - 1);
      DivModStep(i);
    }
  }

  /** Each row's two cell boxes run from 6 mm above to 2 mm below its baseline.
      They stay below the title rule on the first page, above the footer line,
      and rows that share a page touch without overlapping. */
  lemma BoxesFitThePage(rows: seq<Row>)
    ensures var r := Layout(rows);
      && (forall i :: 0 <= i < |r| ==> r[i].y + 2 < FooterY)
      && (forall i :: 0 <= i < |r| && r[i].page == 0 ==> r[i].y - RowHeight + 2 > TitleRule)
      && (forall i :: 0 <= i < |r| - 1 && r[i + 1].page == r[i].page ==>
            r[i + 1].y - RowHeight + 2 == r[i].y + 2)
  {
    LayoutSteps(rows);
    var r := Layout(rows);
    forall i | 0 <= i < |r| && r[i].page == 0
      ensures r[i].y - RowHeight + 2 > TitleRule
    {
      LayoutClosedForm(rows, i);
    }
  }

  /** Pages the document has: the page of the last row, and one page for an empty table. */
  function PageCount(rows: seq<Row>): (n: nat)
    ensures n >= 1
  {
    if rows == [] then 1 else Layout(rows)[|rows| - 1].page + 1
  }

  lemma PageCountClosedForm(rows: seq<Row>)
    ensures PageCount(rows) == if rows == [] then 1 else (|rows| - 1) / 31 + 1
    ensures forall i :: 0 <= i < |rows| ==> Layout(rows)[i].page < PageCount(rows)
  {
    if rows != [] {
      LayoutClosedForm(rows, |rows| - 1);
      forall i | 0 <= i < |rows| ensures Layout(rows)[i].page < PageCount(rows) {
        LayoutClosedForm(rows, i);
      }
    }
  }

  /** `title.replace(/ /g, "_")`. */
  function Underscores(t: string): (r: string)
    ensures |r| == |t|
    ensures forall i :: 0 <= i < |r| ==> r[i] != ' '
    ensures forall i :: 0 <= i < |t| && t[i] != ' ' ==> r[i] == t[i]
    ensures forall i :: 0 <= i < |t| && t[i] == ' ' ==> r[i] == '_'
  {
    seq(|t|, i requires 0 <= i < |t| => if t[i] == ' ' then '_' else t[i])
  }

  /** The saved file's name: the title with underscores for spaces, then `.pdf`. */
  function FileName(title: string): (r: string)
    ensures |r| == |title| + 4
    ensures forall i :: 0 <= i < |r| ==> r[i] != ' '
    ensures r[..|title|] == Underscores(title) && r[|title|..] == ".pdf"
  {
    Underscores(title) + ".pdf"
  }

  /** The exported document: its title, file name, row placements, page count and
      the one page the footer is drawn on. */
  datatype Document = Document(
    title: string,
    fileName: string,
    placements: seq<Placement>,
    pageCount: nat,
    footerPage: nat)

  /** `generateTablePDF(title, rows)`. The footer is drawn once, after the row
      loop, so it lands on the last page only. */
  function Render(title: string, rows: seq<Row>): (d: Document)
    ensures d.fileName == FileName(title)
    ensures d.placements == Layout(rows)
    ensures forall i :: 0 <= i < |rows| ==> d.placements[i].row == rows[i]
    ensures d.pageCount == if rows == [] then 1 else (|rows| - 1) / 31 + 1
    ensures forall i :: 0 <= i < |rows| ==> d.placements[i].page < d.pageCount
    ensures rows != [] ==> d.placements[|rows| - 1].page == d.footerPage
    ensures d.footerPage == d.pageCount - 1
  {
    LayoutSteps(rows);
    PageCountClosedForm(rows);
    Document(title, FileName(title), Layout(rows), PageCount(rows), PageCount(rows) - 1)
  }

  /** A table of 40 rows spills onto a second page after row 31, and only that
      second page carries the footer. */
  lemma FortyRowsTwoPages(title: string, rows: seq<Row>)
    requires |rows| == 40
    ensures Render(title, rows).pageCount == 2
    ensures Render(title, rows).footerPage == 1
    ensures Render(title, rows).placements[30].page == 0 && Render(title, rows).placements[30].y == Bottom
    ensures Render(title, rows).placements[31].page == 1 && Render(title, rows).placements[31].y == PageTop
  {
    PageCountClosedForm(rows);
    LayoutClosedForm(rows, 30);
    LayoutClosedForm(rows, 31);
  }

  lemma PreviewReportFileName()
    ensures FileName("EVENT PREVIEW REPORT") == "EVENT_PREVIEW_REPORT.pdf"
    ensures FileName("EVENT REPORT") == "EVENT_REPORT.pdf"
  {
    assert Underscores("EVENT PREVIEW REPORT") == "EVENT_PREVIEW_REPORT";
    assert Underscores("EVENT REPORT") == "EVENT_REPORT";
  }
}
