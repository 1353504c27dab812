/**
  The DOCX branch of "Generate draft now": detect the old fiscal years in
  the body, build the replacement map from them, rewrite the document with
  `docx_replace_text` and append the conditional sections.
 */
module RollForward {
  import opened Optional
  import opened Decimal
  import opened Docx
  import opened Rewrite
  import opened FiscalYear
  import opened ReplacementMap
  import opened Lines
  import opened Appendix

  /**
    `for y in old_years`: the elements of the set, each once, in an order
    the model does not fix (Python's set order depends on string hashing).
   */
  method SetOrder(s: set<string>) returns (order: seq<string>)
    ensures NoDuplicates(order)
    ensures forall y :: y in order <==> y in s
    ensures |order| == |s|
  {
    order := [];
    var left := s;
    while left != {}
      invariant left <= s
      invariant NoDuplicates(order)
      invariant forall y :: y in order <==> y in s && y !in left
      invariant |order| + |left| == |s|
      decreases |left|
    {
      var y :| y in left;
      order := order + [y];
      left := left - {y};
    }
  }

  /**
    `old_years` and `repl`: the years found in the body (or the year before
    `newFy`), in the set's order, and the map holding exactly the three
    spellings of each of them and, for a non-empty report date, the
    `"Report Date"` label.
   */
  method DetectAndBuild(d: Doc, newFy: int, reportDate: string) returns (years: seq<string>, repl: Replacements)
    requires MinFy <= newFy <= MaxFy
    ensures NoDuplicates(years)
    ensures forall y :: y in years <==> y in OldYears(d, newFy)
    ensures repl == BuildReplacements(years, newFy, reportDate)
    ensures |repl| == 3 * |years| + (if reportDate != [] then 1 else 0)
    ensures forall i :: 0 <= i < 3 * |years| ==> repl[i] == YearEntry(i % 3, years[i / 3], NatToString(newFy))
    ensures DistinctKeys(repl)
    ensures forall y, kind :: y in OldYears(d, newFy) && 0 <= kind < 3 ==>
              Lookup(repl, Prefix(kind) + y) == Some(Prefix(kind) + NatToString(newFy))
    ensures Lookup(repl, ReportDateKey) == (if reportDate != [] then Some(ReportDateKey + ": " + reportDate) else None)
  {
    years := SetOrder(OldYears(d, newFy));
    OldYearsFourDigits(d, newFy);
    repl := BuildReplacements(years, newFy, reportDate);
    BuildReplacementsLayout(years, newFy, reportDate);
    BuildReplacementsLookup(years, newFy, reportDate);
    forall y, kind | y in OldYears(d, newFy) && 0 <= kind < 3
      ensures Lookup(repl, Prefix(kind) + y) == Some(Prefix(kind) + NatToString(newFy))
    {
      var j :| 0 <= j < |years| && years[j] == y;
    }
  }

  /**
    The whole roll-forward of a DOCX draft. `urlsText` is the text area of
    source URLs, `title` the page title fetched for a URL, `bench` the
    Decision column of a loaded benchmark and `irl` the loaded client text.
   */
  method RollForwardDocx(d: Doc, newFy: int, reportDate: string, bench: Option<seq<string>>,
                         irl: Option<string>, urlsText: string, title: string -> string)
    returns (years: seq<string>, out: Doc, hits: nat)
    requires MinFy <= newFy <= MaxFy
    ensures NoDuplicates(years) && forall y :: y in years <==> y in OldYears(d, newFy)
    ensures var repl := BuildReplacements(years, newFy, reportDate);
      && out == AppendSections(RewriteDoc(d, repl), bench, irl, CleanLines(urlsText), title)
      && hits == SumHits(AllParagraphs(d), repl)
    ensures out.tables == RewriteDoc(d, BuildReplacements(years, newFy, reportDate)).tables
    ensures var repl := BuildReplacements(years, newFy, reportDate);
      && |out.body| == |d.body| + |Sections(bench, irl, CleanLines(urlsText), title)|
      && out.body[..|d.body|] == RewriteParagraphs(d.body, repl)
      && out.body[|d.body|..] == Sections(bench, irl, CleanLines(urlsText), title)
  {
    var repl;
    years, repl := DetectAndBuild(d, newFy, reportDate);
    var rewritten;
    rewritten, hits := DocxReplaceText(d, repl);
    out := AppendSections(rewritten, bench, irl, CleanLines(urlsText), title);
  }
}
