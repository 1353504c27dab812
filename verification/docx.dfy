/**
  The abstract Word document the engine edits: body paragraphs and tables
  whose cells hold paragraphs, each paragraph a sequence of runs. Only the
  parts the engine reads or writes are kept.
 */
module Docx {
  import opened Optional

  /**
    A run: text with one character formatting. `style` is the character
    style id and `bold` the tri-state bold of python-docx (`None` means
    inherited); a run made by `add_run(text)` has neither.
   */
  datatype Run = Run(text: string, style: Option<string>, bold: Option<bool>)

  datatype Paragraph = Paragraph(runs: seq<Run>)

  datatype Cell = Cell(paragraphs: seq<Paragraph>)

  datatype Row = Row(cells: seq<Cell>)

  datatype Table = Table(rows: seq<Row>)

  /** `body` is `doc.paragraphs`, `tables` is `doc.tables`. */
  datatype Doc = Doc(body: seq<Paragraph>, tables: seq<Table>)

  /** `"".join(r.text for r in runs)`. */
  function RunsText(runs: seq<Run>): string
    decreases |runs|
  {
    if runs == [] then [] else RunsText(runs[..|runs| - 1]) + runs[|runs| - 1].text
  }

  /** `p.text`, taken to be the concatenation of the paragraph's runs. */
  function Text(p: Paragraph): string {
    RunsText(p.runs)
  }

  /** The run `p.add_run(t)` creates. */
  function NewRun(t: string): Run {
    Run(t, None, None)
  }

  /** The paragraph `doc.add_paragraph(t)` creates: a run only when `t` is non-empty. */
  function NewParagraph(t: string): (p: Paragraph)
    ensures Text(p) == t
  {
    if t == [] then Paragraph([]) else RunsTextLeading([NewRun(t)]); Paragraph([NewRun(t)])
  }

  /** A paragraph holding one bold run, as `doc.add_paragraph().add_run(t).bold = True` makes. */
  function BoldParagraph(t: string): (p: Paragraph)
    ensures Text(p) == t
  {
    RunsTextLeading([Run(t, None, Some(true))]);
    Paragraph([Run(t, None, Some(true))])
  }

  /** When every run but the first is blank, the first run holds the whole text. */
  lemma {:induction false} RunsTextLeading(runs: seq<Run>)
    requires |runs| > 0
    requires forall i :: 1 <= i < |runs| ==> runs[i].text == []
    ensures RunsText(runs) == runs[0].text
    decreases |runs|
  {
    if |runs| == 1 {
      assert runs[..0] == [];
    } else {
      RunsTextLeading(runs[..|runs| - 1]);
    }
  }

  /** The paragraphs of a table row by row, cell by cell, as the nested loops visit them. */
  function CellsParagraphs(cells: seq<Cell>): seq<Paragraph>
    decreases |cells|
  {
    if cells == [] then []
    else CellsParagraphs(cells[..|cells| - 1]) + cells[|cells| - 1].paragraphs
  }

  function RowsParagraphs(rows: seq<Row>): seq<Paragraph>
    decreases |rows|
  {
    if rows == [] then []
    else RowsParagraphs(rows[..|rows| - 1]) + CellsParagraphs(rows[|rows| - 1].cells)
  }

  function TablesParagraphs(tables: seq<Table>): seq<Paragraph>
    decreases |tables|
  {
    if tables == [] then []
    else TablesParagraphs(tables[..|tables| - 1]) + RowsParagraphs(tables[|tables| - 1].rows)
  }

  /** Every paragraph the rewrite visits: the body first, then the table cells. */
  function AllParagraphs(d: Doc): seq<Paragraph> {
    d.body + TablesParagraphs(d.tables)
  }

  /** How many of `ps` have exactly the text `t`. */
  function CountText(ps: seq<Paragraph>, t: string): nat
    decreases |ps|
  {
    if ps == [] then 0
    else CountText(ps[..|ps| - 1], t) + (if Text(ps[|ps| - 1]) == t then 1 else 0)
  }

  lemma {:induction false} CountTextAppend(a: seq<Paragraph>, b: seq<Paragraph>, t: string)
    ensures CountText(a + b, t) == CountText(a, t) + CountText(b, t)
    decreases |b|
  {
    if b != [] {
      assert (a + b)[..|a + b| - 1] == a + b[..|b| - 1];
      CountTextAppend(a, b[..|b| - 1], t);
    } else {
      assert a + b == a;
    }
  }

  /** No paragraph of `ps` has the text `t`. */
  lemma {:induction false} CountTextNone(ps: seq<Paragraph>, t: string)
    requires forall i :: 0 <= i < |ps| ==> Text(ps[i]) != t
    ensures CountText(ps, t) == 0
    decreases |ps|
  {
    if ps != [] {
      CountTextNone(ps[..|ps| - 1], t);
    }
  }
}
