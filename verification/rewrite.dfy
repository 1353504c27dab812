/**
  `docx_replace_text`: style-preserving text replacement. For every
  paragraph, body first and then table cells, the keys of the replacement
  map are applied one after another; a key that changes the paragraph's text
  puts the whole new text into the first run and blanks the others, so the
  runs (and their formatting) survive while the text moves into run 0.
 */
module Rewrite {
  import opened PyStr
  import opened Docx

  /** A replacement map in its iteration order, as `(old, new)` pairs. */
  type Replacements = seq<(string, string)>

  /** The runs with `t` in run 0 and every other run's text blanked; nothing else is touched. */
  function Collapse(runs: seq<Run>, t: string): seq<Run>
    requires |runs| > 0
  {
    seq(|runs|, i requires 0 <= i < |runs| => runs[i].(text := if i == 0 then t else []))
  }

  /**
    One key on one paragraph: the paragraph afterwards and what the key
    adds to the count. The text is only written back when it changed; a
    paragraph without runs receives a fresh run holding the new text.
   */
  function ApplyKey(p: Paragraph, pat: string, sub: string): (Paragraph, nat) {
    if Contains(Text(p), pat) then
      var full := Text(p);
      var fullNew := Replace(full, pat, sub);
      if full != fullNew then
        if |p.runs| > 0 then (Paragraph(Collapse(p.runs, fullNew)), Count(full, pat))
        else (Paragraph([NewRun(fullNew)]), Count(full, pat))
      else (p, 0)
    else (p, 0)
  }

  /** All keys on one paragraph, in map order; each key sees the previous keys' output. */
  function ApplyKeys(p: Paragraph, repl: Replacements): (Paragraph, nat)
    decreases |repl|
  {
    if repl == [] then (p, 0)
    else
      var (q, n) := ApplyKeys(p, repl[..|repl| - 1]);
      var (q', m) := ApplyKey(q, repl[|repl| - 1].0, repl[|repl| - 1].1);
      (q', n + m)
  }

  /** Reference text: the keys applied in order to a plain string. */
  function ReplaceAll(s: string, repl: Replacements): string
    decreases |repl|
  {
    if repl == [] then s
    else Replace(ReplaceAll(s, repl[..|repl| - 1]), repl[|repl| - 1].0, repl[|repl| - 1].1)
  }

  /**
    Reference count: for each key, the occurrences in the text as it stands
    when that key is applied, counted only when the key occurs and differs
    from its replacement.
   */
  function KeysHits(s: string, repl: Replacements): nat
    decreases |repl|
  {
    if repl == [] then 0
    else
      var t := ReplaceAll(s, repl[..|repl| - 1]);
      var (pat, sub) := repl[|repl| - 1];
      KeysHits(s, repl[..|repl| - 1]) + (if Contains(t, pat) && pat != sub then Count(t, pat) else 0)
  }

  /** Two run sequences with the same runs carrying the same formatting. */
  predicate SameFormat(a: seq<Run>, b: seq<Run>) {
    |a| == |b| && forall i :: 0 <= i < |a| ==> a[i].style == b[i].style && a[i].bold == b[i].bold
  }

  /** Every run but the first is blank, so run 0 holds the paragraph's whole text. */
  predicate Collapsed(runs: seq<Run>) {
    |runs| > 0 && forall i :: 1 <= i < |runs| ==> runs[i].text == []
  }

  /** After one key the paragraph's text is the Python replacement of its old text. */
  lemma ApplyKeyRewritesText(p: Paragraph, pat: string, sub: string)
    ensures Text(ApplyKey(p, pat, sub).0) == Replace(Text(p), pat, sub)
    ensures ApplyKey(p, pat, sub).1 == if Contains(Text(p), pat) && pat != sub then Count(Text(p), pat) else 0
  {
    var full := Text(p);
    ReplaceChangesIff(full, pat, sub);
    if Contains(full, pat) && full != Replace(full, pat, sub) && |p.runs| > 0 {
      RunsTextLeading(Collapse(p.runs, Replace(full, pat, sub)));
    } else if Contains(full, pat) && full != Replace(full, pat, sub) {
      RunsTextLeading([NewRun(Replace(full, pat, sub))]);
    }
  }

  /**
    A key keeps the run count and every run's formatting; when it changes
    the paragraph, run 0 holds the whole text and the other runs are blank.
   */
  lemma ApplyKeyKeepsRuns(p: Paragraph, pat: string, sub: string)
    ensures var q := ApplyKey(p, pat, sub).0;
      && (|p.runs| > 0 ==> SameFormat(p.runs, q.runs))
      && (q != p ==> Collapsed(q.runs) && (|p.runs| == 0 ==> q.runs == [NewRun(Text(q))]))
  {
    ApplyKeyRewritesText(p, pat, sub);
  }

  /** A key leaves a paragraph untouched, and counts nothing, exactly when it does not occur or maps to itself. */
  lemma ApplyKeyUntouched(p: Paragraph, pat: string, sub: string)
    ensures ApplyKey(p, pat, sub) == (p, 0) <==> !Contains(Text(p), pat) || pat == sub
  {
    ApplyKeyRewritesText(p, pat, sub);
    ReplaceChangesIff(Text(p), pat, sub);
    if Contains(Text(p), pat) && pat != sub {
      CountPositiveIff(Text(p), pat);
    }
  }

  /** The paragraph's text after all keys is the reference `ReplaceAll`. */
  lemma {:induction false} ApplyKeysText(p: Paragraph, repl: Replacements)
    ensures Text(ApplyKeys(p, repl).0) == ReplaceAll(Text(p), repl)
    decreases |repl|
  {
    if repl != [] {
      ApplyKeysText(p, repl[..|repl| - 1]);
      ApplyKeyRewritesText(ApplyKeys(p, repl[..|repl| - 1]).0, repl[|repl| - 1].0, repl[|repl| - 1].1);
    }
  }

  /** The count for a paragraph is the reference `KeysHits` of its text. */
  lemma {:induction false} ApplyKeysHits(p: Paragraph, repl: Replacements)
    ensures ApplyKeys(p, repl).1 == KeysHits(Text(p), repl)
    decreases |repl|
  {
    if repl != [] {
      ApplyKeysHits(p, repl[..|repl| - 1]);
      ApplyKeysText(p, repl[..|repl| - 1]);
      ApplyKeyRewritesText(ApplyKeys(p, repl[..|repl| - 1]).0, repl[|repl| - 1].0, repl[|repl| - 1].1);
    }
  }

  /**
    However many keys fire, the runs keep their number and formatting, and a
    changed paragraph ends with its whole text in run 0.
   */
  lemma {:induction false} ApplyKeysKeepsRuns(p: Paragraph, repl: Replacements)
    ensures var q := ApplyKeys(p, repl).0;
      && (|p.runs| > 0 ==> SameFormat(p.runs, q.runs))
      && (q != p ==> Collapsed(q.runs) && (|p.runs| == 0 ==> q.runs == [NewRun(Text(q))]))
    decreases |repl|
  {
    if repl != [] {
      var q := ApplyKeys(p, repl[..|repl| - 1]).0;
      ApplyKeysKeepsRuns(p, repl[..|repl| - 1]);
      ApplyKeyKeepsRuns(q, repl[|repl| - 1].0, repl[|repl| - 1].1);
      var q' := ApplyKey(q, repl[|repl| - 1].0, repl[|repl| - 1].1).0;
      if q' != q && |p.runs| == 0 && |q.runs| == 1 {
        RunsTextLeading(q'.runs);
      }
    }
  }

  /** A paragraph in which no key occurs (or every key maps to itself) is left exactly as it was. */
  lemma {:induction false} ApplyKeysUntouched(p: Paragraph, repl: Replacements)
    requires forall i :: 0 <= i < |repl| ==> !Contains(Text(p), repl[i].0) || repl[i].0 == repl[i].1
    ensures ApplyKeys(p, repl) == (p, 0)
    decreases |repl|
  {
    if repl != [] {
      ApplyKeysUntouched(p, repl[..|repl| - 1]);
      ApplyKeyUntouched(p, repl[|repl| - 1].0, repl[|repl| - 1].1);
    }
  }

  /** Every paragraph rewritten by the keys. */
  function RewriteParagraphs(ps: seq<Paragraph>, repl: Replacements): seq<Paragraph> {
    seq(|ps|, i requires 0 <= i < |ps| => ApplyKeys(ps[i], repl).0)
  }

  function RewriteCells(cells: seq<Cell>, repl: Replacements): seq<Cell> {
    seq(|cells|, i requires 0 <= i < |cells| => Cell(RewriteParagraphs(cells[i].paragraphs, repl)))
  }

  function RewriteRows(rows: seq<Row>, repl: Replacements): seq<Row> {
    seq(|rows|, i requires 0 <= i < |rows| => Row(RewriteCells(rows[i].cells, repl)))
  }

  function RewriteTables(tables: seq<Table>, repl: Replacements): seq<Table> {
    seq(|tables|, i requires 0 <= i < |tables| => Table(RewriteRows(tables[i].rows, repl)))
  }

  /** The document with every body and cell paragraph rewritten; its structure is kept. */
  function RewriteDoc(d: Doc, repl: Replacements): Doc {
    Doc(RewriteParagraphs(d.body, repl), RewriteTables(d.tables, repl))
  }

  /** The reference total: `KeysHits` summed over paragraphs. */
  function SumHits(ps: seq<Paragraph>, repl: Replacements): nat
    decreases |ps|
  {
    if ps == [] then 0 else SumHits(ps[..|ps| - 1], repl) + KeysHits(Text(ps[|ps| - 1]), repl)
  }

  lemma {:induction false} SumHitsAppend(a: seq<Paragraph>, b: seq<Paragraph>, repl: Replacements)
    ensures SumHits(a + b, repl) == SumHits(a, repl) + SumHits(b, repl)
    decreases |b|
  {
    if b == [] {
      assert a + b == a;
    } else {
      assert (a + b)[..|a + b| - 1] == a + b[..|b| - 1];
      SumHitsAppend(a, b[..|b| - 1], repl);
    }
  }

  lemma RewriteParagraphsAppend(a: seq<Paragraph>, b: seq<Paragraph>, repl: Replacements)
    ensures RewriteParagraphs(a + b, repl) == RewriteParagraphs(a, repl) + RewriteParagraphs(b, repl)
  {
  }

  lemma {:induction false} RewriteCellsFlatten(cells: seq<Cell>, repl: Replacements)
    ensures CellsParagraphs(RewriteCells(cells, repl)) == RewriteParagraphs(CellsParagraphs(cells), repl)
    decreases |cells|
  {
    if cells != [] {
      var n := |cells| - 1;
      assert RewriteCells(cells, repl)[..n] == RewriteCells(cells[..n], repl);
      RewriteCellsFlatten(cells[..n], repl);
      RewriteParagraphsAppend(CellsParagraphs(cells[..n]), cells[n].paragraphs, repl);
    }
  }

  lemma {:induction false} RewriteRowsFlatten(rows: seq<Row>, repl: Replacements)
    ensures RowsParagraphs(RewriteRows(rows, repl)) == RewriteParagraphs(RowsParagraphs(rows), repl)
    decreases |rows|
  {
    if rows != [] {
      var n := |rows| - 1;
      assert RewriteRows(rows, repl)[..n] == RewriteRows(rows[..n], repl);
      RewriteRowsFlatten(rows[..n], repl);
      RewriteCellsFlatten(rows[n].cells, repl);
      RewriteParagraphsAppend(RowsParagraphs(rows[..n]), CellsParagraphs(rows[n].cells), repl);
    }
  }

  lemma {:induction false} RewriteTablesFlatten(tables: seq<Table>, repl: Replacements)
    ensures TablesParagraphs(RewriteTables(tables, repl)) == RewriteParagraphs(TablesParagraphs(tables), repl)
    decreases |tables|
  {
    if tables != [] {
      var n := |tables| - 1;
      assert RewriteTables(tables, repl)[..n] == RewriteTables(tables[..n], repl);
      RewriteTablesFlatten(tables[..n], repl);
      RewriteRowsFlatten(tables[n].rows, repl);
      RewriteParagraphsAppend(TablesParagraphs(tables[..n]), RowsParagraphs(tables[n].rows), repl);
    }
  }

  /** Table-cell paragraphs are rewritten exactly like body paragraphs, and the order of visits is kept. */
  lemma RewriteDocParagraphs(d: Doc, repl: Replacements)
    ensures AllParagraphs(RewriteDoc(d, repl)) == RewriteParagraphs(AllParagraphs(d), repl)
  {
    RewriteTablesFlatten(d.tables, repl);
    RewriteParagraphsAppend(d.body, TablesParagraphs(d.tables), repl);
  }

  /** The loop over the keys for one paragraph in `docx_replace_text`: the inner loop over `repl.items()`. */
  method ReplaceInParagraph(p: Paragraph, repl: Replacements) returns (q: Paragraph, hits: nat)
    ensures q == ApplyKeys(p, repl).0
    ensures Text(q) == ReplaceAll(Text(p), repl)
    ensures hits == KeysHits(Text(p), repl)
  {
    q, hits := p, 0;
    var k := 0;
    while k < |repl|
      invariant 0 <= k <= |repl|
      invariant (q, hits) == ApplyKeys(p, repl[..k])
    {
      assert repl[..k + 1][..k] == repl[..k];
      var (q', h) := ApplyKey(q, repl[k].0, repl[k].1);
      q, hits := q', hits + h;
      k := k + 1;
    }
    assert repl[..k] == repl;
    ApplyKeysText(p, repl);
    ApplyKeysHits(p, repl);
  }

  /** The loop over a list of paragraphs (`doc.paragraphs` or `cell.paragraphs`). */
  method ReplaceInParagraphs(ps: seq<Paragraph>, repl: Replacements) returns (qs: seq<Paragraph>, hits: nat)
    ensures qs == RewriteParagraphs(ps, repl)
    ensures hits == SumHits(ps, repl)
  {
    qs, hits := [], 0;
    var i := 0;
    while i < |ps|
      invariant 0 <= i <= |ps|
      invariant qs == RewriteParagraphs(ps[..i], repl)
      invariant hits == SumHits(ps[..i], repl)
    {
      var q, h := ReplaceInParagraph(ps[i], repl);
      assert ps[..i + 1][..i] == ps[..i];
      qs, hits := qs + [q], hits + h;
      i := i + 1;
    }
    assert ps[..i] == ps;
  }

  method ReplaceInCells(cells: seq<Cell>, repl: Replacements) returns (out: seq<Cell>, hits: nat)
    ensures out == RewriteCells(cells, repl)
    ensures hits == SumHits(CellsParagraphs(cells), repl)
  {
    out, hits := [], 0;
    var i := 0;
    while i < |cells|
      invariant 0 <= i <= |cells|
      invariant out == RewriteCells(cells[..i], repl)
      invariant hits == SumHits(CellsParagraphs(cells[..i]), repl)
    {
      var qs, h := ReplaceInParagraphs(cells[i].paragraphs, repl);
      assert cells[..i + 1][..i] == cells[..i];
      SumHitsAppend(CellsParagraphs(cells[..i]), cells[i].paragraphs, repl);
      out, hits := out + [Cell(qs)], hits + h;
      i := i + 1;
    }
    assert cells[..i] == cells;
  }

  method ReplaceInRows(rows: seq<Row>, repl: Replacements) returns (out: seq<Row>, hits: nat)
    ensures out == RewriteRows(rows, repl)
    ensures hits == SumHits(RowsParagraphs(rows), repl)
  {
    out, hits := [], 0;
    var i := 0;
    while i < |rows|
      invariant 0 <= i <= |rows|
      invariant out == RewriteRows(rows[..i], repl)
      invariant hits == SumHits(RowsParagraphs(rows[..i]), repl)
    {
      var cs, h := ReplaceInCells(rows[i].cells, repl);
      assert rows[..i + 1][..i] == rows[..i];
      SumHitsAppend(RowsParagraphs(rows[..i]), CellsParagraphs(rows[i].cells), repl);
      out, hits := out + [Row(cs)], hits + h;
      i := i + 1;
    }
    assert rows[..i] == rows;
  }

  method ReplaceInTables(tables: seq<Table>, repl: Replacements) returns (out: seq<Table>, hits: nat)
    ensures out == RewriteTables(tables, repl)
    ensures hits == SumHits(TablesParagraphs(tables), repl)
  {
    out, hits := [], 0;
    var i := 0;
    while i < |tables|
      invariant 0 <= i <= |tables|
      invariant out == RewriteTables(tables[..i], repl)
      invariant hits == SumHits(TablesParagraphs(tables[..i]), repl)
    {
      var rs, h := ReplaceInRows(tables[i].rows, repl);
      assert tables[..i + 1][..i] == tables[..i];
      SumHitsAppend(TablesParagraphs(tables[..i]), RowsParagraphs(tables[i].rows), repl);
      out, hits := out + [Table(rs)], hits + h;
      i := i + 1;
    }
    assert tables[..i] == tables;
  }

  /**
    `docx_replace_text`: the rewritten document and the number of
    replacements, which is the reference count summed over every body and
    table-cell paragraph.
   */
  method DocxReplaceText(doc: Doc, repl: Replacements) returns (out: Doc, count: nat)
    ensures out == RewriteDoc(doc, repl)
    ensures count == SumHits(AllParagraphs(doc), repl)
  {
    var body, n := ReplaceInParagraphs(doc.body, repl);
    var tables, m := ReplaceInTables(doc.tables, repl);
    out := Doc(body, tables);
    count := n + m;
    SumHitsAppend(doc.body, TablesParagraphs(doc.tables), repl);
  }
}
