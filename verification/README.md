# TPD roll-forward engine, modelled in Dafny

`app.py` is a Streamlit tool that turns a prior-year transfer-pricing
documentation (TPD) file into a draft for a new fiscal year. This project
models its DOCX branch: the part that runs when "Generate draft now" is
pressed on a `.docx` file.

- **Fiscal-year detection.** The body paragraphs' texts are joined with
  newlines. `re.findall(r"FY\s*-?_?\s*(20\d{2})", ..., flags=re.I)`
  collects the years. When nothing matches, the year before the new FY is
  used. The regular expression is modelled as a greedy scanner
  (`FiscalYear.MatchAt`) and a declarative match predicate
  (`FiscalYear.TokenAt`), which are proved equivalent.
- **The replacement map.** For every detected year `y`, in set order, the
  map gets `FY{y}`, `FY {y}` and `FYE {y}`, each mapped to the same spelling
  of the new FY. When a report date is given, it also gets
  `"Report Date"` ↦ `"Report Date: <date>"`. A Python `dict` is modelled as
  a list of pairs in insertion order; assignment overwrites in place.
- **`docx_replace_text`.** The rewrite visits every body paragraph, then
  every cell paragraph of every table. For each key it tests `old in p.text`
  and rebuilds the runs' text with `str.replace`. When the text changed, it
  adds `str.count` to the total, puts the new text into run 0 and blanks the
  other runs, so each run keeps its formatting. A paragraph with no runs
  gets a new run instead. Python's `in`, `replace` and `count` are modelled
  exactly, including the empty pattern.
- **The URL list.** `[u.strip() for u in urls.splitlines() if u.strip()]`
  is modelled with Python's Unicode `isspace`, its `splitlines` line
  boundaries and `strip()`.
- **The conditional sections appended after the body.**
  - The benchmark summary.
  - One `"• "` bullet per non-blank client-information line.
  - The industry update. It holds one `- See: {title} [^i]` reference per
    URL, then `Sources:`, then one `  ^i url` line per URL.
- **`summarize_benchmark`.** Counts the `Decision` values that lower-case to
  `accept` and to `reject`, plus the row total.

The comment on the report-date key promises that the label is "appended
later" when it is not in the document. The code never appends it. The model
follows the code: the key only rewrites an existing `Report Date` label.

Modules, in dependency order:

| Module | Contents |
|---|---|
| `Optional` | `Option` |
| `PyStr` | `in`, `replace`, `count` |
| `PyText` | `isspace`, `strip`, `splitlines`, `"\n".join`, lower-casing |
| `Decimal` | `str(n)` and reading it back |
| `Docx` | runs, paragraphs, cells, rows, tables, documents |
| `Rewrite` | `docx_replace_text` |
| `FiscalYear` | the year regular expression and `old_years` |
| `ReplacementMap` | `repl` |
| `Lines` | cleaned line lists |
| `Benchmark` | `summarize_benchmark` |
| `Footnotes` | reference and source lines and their parsers |
| `Appendix` | the appended sections |
| `RollForward` | the whole DOCX roll-forward |

## Model

| member | source | states |
|---|---|---|
| PyStr.ContainsIffOccurs | app.py:200 | `old in text` holds exactly when the pattern occurs at some index of the text |
| PyStr.CountPositiveIff | app.py:204 | `count` is positive exactly when the pattern occurs |
| PyStr.ReplaceLength | app.py:202 | each occurrence that `replace` rewrites changes the length by `len(new) - len(old)`, and `count` occurrences are rewritten |
| PyStr.ReplaceChangesIff | app.py:202-203 | `full != full.replace(old, new)` exactly when `old` occurs and differs from `new`, so the source's change test is the same as "the key occurs and is not mapped to itself" |
| PyText.Strip | app.py:302 | `strip()` is no longer than its input and has no whitespace at either end |
| PyText.SplitLines | app.py:302 | no line that `splitlines()` returns contains a line break |
| PyText.StripIdempotent | app.py:302 | stripping a stripped line changes nothing |
| PyText.StripEmptyIff | app.py:302 | a line strips to `""` exactly when it is all whitespace |
| PyText.SplitJoinLines | app.py:302 | lines without line breaks, joined with `"\n"` and split again, come back unchanged when the last one is non-empty |
| Decimal.NatToString | app.py:322-324 | `str(n)` is a non-empty string of ASCII digits with no leading zero unless `n` is 0 |
| Decimal.NatToStringRoundTrip | app.py:322-324 | the numeral of the new FY written into the keys reads back as the same number |
| Decimal.NatToStringInjective | app.py:322-324 | different years are written as different numerals |
| Docx.NewParagraph | app.py:336 | a paragraph added with text `t` has text `t` |
| Docx.BoldParagraph | app.py:334-335 | a paragraph with one added bold run has that run's text |
| Docx.RunsTextLeading | app.py:206-209 | once every run but the first is blank, the paragraph's text is run 0's text |
| Rewrite.ApplyKeyRewritesText | app.py:200-204 | after one key the paragraph's text is `text.replace(old, new)`; the key adds `text.count(old)` when it occurs and `old != new`, and 0 otherwise |
| Rewrite.ApplyKeyUntouched | app.py:200-204 | one key leaves the paragraph exactly as it was, and counts nothing, if and only if it does not occur or maps to itself |
| Rewrite.ApplyKeysText | app.py:199-209 | after all keys the text is the keys applied to the text one after another in map order, each key seeing the previous keys' output |
| Rewrite.ApplyKeysHits | app.py:199-204 | a paragraph's count is the sum over keys of the occurrences present when that key is applied, for keys that occur and change the text |
| Rewrite.ApplyKeysKeepsRuns | app.py:205-212 | the runs keep their number, style and bold setting; a paragraph that changed has its whole text in run 0 and blank runs after it; a paragraph with no runs gets exactly one new run holding the text |
| Rewrite.ApplyKeysUntouched | app.py:199-203 | a paragraph where no key occurs, or every key maps to itself, is left exactly as it was and counts nothing |
| Rewrite.RewriteDocParagraphs | app.py:213-231 | table-cell paragraphs are rewritten exactly like body paragraphs, in the order the nested loops visit them |
| Rewrite.ReplaceInParagraph | app.py:198-212 | the key loop yields the rewritten paragraph, its text is the in-order replacement of the old text, and its count is the reference count |
| Rewrite.ReplaceInParagraphs | app.py:198-212 | the paragraph loop rewrites each paragraph and sums their counts |
| Rewrite.ReplaceInTables | app.py:214-231 | the table, row, cell and paragraph loops rewrite every cell paragraph and sum their counts |
| Rewrite.DocxReplaceText | app.py:194-232 | the result is the document with every body and cell paragraph rewritten, and the returned count is the sum of the per-paragraph counts over all visited paragraphs |
| FiscalYear.MatchAt | app.py:317 | one match attempt at `i`: a match ends within the text and covers at least `FY` and the four year characters |
| FiscalYear.FindFrom | app.py:317 | every string `re.findall` returns is a year token: `20` and two digits |
| FiscalYear.MatchAtIffToken | app.py:317 | the scanner matches at `i` ending at `e` exactly when `s[i..e]` is `F`/`f`, `Y`/`y`, whitespace, an optional `-`, an optional `_`, whitespace, then `20` and two digits |
| FiscalYear.FindFromNonEmptyIff | app.py:317 | `findall` returns something exactly when the pattern matches at some position |
| FiscalYear.FindFromSound | app.py:317 | every year `findall` returns is the last four characters of a match in the text |
| FiscalYear.FindFromComplete | app.py:317 | the year of every match at or after the scan position is among those `findall` returns; no match can start inside an earlier one, so skipping past a match loses none |
| FiscalYear.OldYearsFound | app.py:316-317 | when the body has a match, `old_years` is exactly the set of years in the matches, and it is non-empty |
| FiscalYear.OldYearsDefault | app.py:316-317 | when the body has no match, `old_years` is exactly `{str(new_fy - 1)}` |
| FiscalYear.OldYearsFourDigits | app.py:316-317 | every year in `old_years`, detected or default, is four digits |
| ReplacementMap.LookupNoneIff | app.py:320-327 | `repl.get(k)` finds nothing exactly when no entry has key `k` |
| ReplacementMap.DictSet | app.py:322-327 | after `repl[k] = v`, looking up `k` gives `v`; a new key is appended at the end; an existing key keeps its position, and every key stays where it was |
| ReplacementMap.DictSetKeepsOthers | app.py:322-327 | assigning one key leaves the value of every other key unchanged |
| ReplacementMap.KeysInjective | app.py:322-324 | two year keys are equal only when they have the same spelling and the same year |
| ReplacementMap.BuildReplacementsLayout | app.py:320-327 | `repl` holds the three entries of each year in the years' order, then the `Report Date` entry only when a date was given; no key appears twice |
| ReplacementMap.BuildReplacementsLookup | app.py:320-327 | every spelling of every old year maps to the same spelling of the new FY, and `Report Date` maps to `Report Date: <date>` exactly when a date was given |
| Lines.NonBlankKeepsOrder | app.py:302 | the cleaned list holds the stripped non-blank lines, in input order: the kept positions increase, and a position is kept exactly when its line is not blank |
| Lines.NonBlankStripped | app.py:302 | every element of the cleaned list is non-empty and its own `strip()` |
| Lines.CleanLines | app.py:302 | no element of the cleaned list contains a line break |
| Lines.CleanLinesOfJoin | app.py:302 | a list of non-empty, already stripped lines without line breaks, typed one per line, is cleaned back into itself |
| Benchmark.CountDecision | app.py:247-248 | the number of rows with a given decision never exceeds the number of rows |
| Benchmark.Summarize | app.py:244-250 | the result is "Benchmark not provided." exactly when the study has no rows |
| Benchmark.SummarizeRoundTrip | app.py:244-250 | the summary sentence reads back as the accept count, the reject count and the row total; the empty-study notice reads back as nothing |
| Benchmark.AcceptedPlusRejectedAtMostTotal | app.py:247-249 | accepted plus rejected never exceeds the total, because no row counts as both |
| Benchmark.PaddedDecisionNotCounted | app.py:247-248 | a value with whitespace at either end counts as neither accepted nor rejected, because nothing is trimmed |
| Footnotes.RefLineRoundTrip | app.py:349 | a reference line reads back as its title and its number |
| Footnotes.SourceLineRoundTrip | app.py:354 | a source line reads back as its number and its URL |
| Appendix.BenchmarkSection | app.py:332-336 | the benchmark section is present exactly when a study with rows was loaded; it is a bold header paragraph followed by the summary |
| Appendix.Bullets | app.py:340-342 | one bullet paragraph per cleaned line, whose text is `"• "` followed by that line |
| Appendix.BulletsSpellLines | app.py:340-342 | removing the marker from the i-th bullet gives back the i-th cleaned client line |
| Appendix.ClientSection | app.py:337-342 | the client section is present exactly when the client text is non-empty; it is a bold header followed by the bullets of the cleaned lines |
| Appendix.References | app.py:347-349 | one reference paragraph per URL; the i-th reads `- See: {title} [^i]` with the i-th URL's title, counting from 1 |
| Appendix.Sources | app.py:350-354 | one source paragraph per URL; the i-th reads `  ^i {url}` with the i-th URL, counting from 1 |
| Appendix.IndustrySection | app.py:343-354 | the industry update is present exactly when the URL list is non-empty; it has `2n + 3` paragraphs: a blank one, the heading, the `n` references, `Sources:` and the `n` source lines |
| Appendix.FootnotesCorrespond | app.py:346-354 | the i-th reference carries number i and the title of the i-th URL; the i-th source line carries the same number i and that URL |
| Appendix.SourcesHeaderOnce | app.py:351-352 | the industry update has exactly one `Sources:` paragraph when there is a URL |
| Appendix.AppendSections | app.py:331-354 | the sections are appended after the existing body, which is kept unchanged, as are the tables |
| RollForward.SetOrder | app.py:321 | `for y in old_years` visits each element of the set exactly once |
| RollForward.DetectAndBuild | app.py:316-327 | `old_years` and `repl` for the document: the years are the detected set, each once; `repl` is laid out year by year with distinct keys; every spelling of every old year maps to the new FY; the report-date entry is present exactly when a date was given |
| RollForward.RollForwardDocx | app.py:312-354 | the draft is the rewritten document with the sections appended; `hits` is the reference count; the tables are the rewritten tables; the body is the original body paragraphs, each rewritten, followed by exactly the appended sections |

## Left out

- The Streamlit user interface, the PDF branch, the IRL e-mail template and every page other than "TPD Draft" are not modelled. They are user-interface code with no logic to prove.
- Loading and saving documents with python-docx and `io.BytesIO` is left out. It is I/O. A document is given as a value, and the draft is returned as one.
- Reading the benchmark and client files with pandas or `decode` is left out. It is I/O. The benchmark is given as its `Decision` column, each value already converted with `astype(str)`. The client text is given as a string.
- `fetch_title` is left out. It does HTTP, BeautifulSoup parsing, `strip()` and truncation to 120 characters. It is replaced by a parameter `title: string -> string`, an uninterpreted function the model never looks inside.
- Rewrite.DocxReplaceText: horizontally spanned and vertically merged table cells are not modelled. python-docx's `row.cells` returns the same cell once per grid column it covers, so the source rewrites that cell again and counts again. A `Report Date` paragraph in a cell spanning two columns becomes `Report Date: X: X` with a count of 2. The model treats each entry of `row.cells` as a cell of its own.
- Rewrite.DocxReplaceText: nested tables inside cells are not visited by the source, and the model has none.
- Rewrite.ApplyKeysKeepsRuns: the source reads run 0's style and writes it back (`if style: p.runs[0].style = style`). python-docx's getter returns the default character style when the run's `w:rStyle` id is missing, names no style, or names a style that is not a character style. Its setter stores nothing for the default style and removes `w:rStyle`. So a run 0 whose `w:rStyle` is dangling, or names the default character style explicitly, loses that id in the source. The model keeps every run's style id. The document's style table is not modelled.
- Docx.Text: `p.text` is taken to be the concatenation of the runs' texts. In python-docx, `p.text` also includes the text of `w:hyperlink` elements, which `p.runs` omits. So a key that occurs only inside a hyperlink passes `old in p.text` but changes nothing. Tabs and breaks, which `r.text` renders as `"\t"` and `"\n"`, are treated as ordinary characters of a run's text.
- Docx.NewParagraph: the model always builds the paragraph and promises its text is `t`. python-docx writes the text through lxml, which raises `ValueError` for NUL and for the C0 control characters other than tab, line feed and carriage return. So the source produces no draft at all when such a character reaches `add_paragraph`. python-docx also writes `"\r"` as a break, which reads back as `"\n"`.
- Appendix.ClientSection: the source fails when a cleaned client line holds an XML-forbidden character, and the model builds the section anyway. A realistic case is a UTF-16 text file, which `decode("utf-8", errors="ignore")` turns into text with a NUL after every character. The same failure applies to a title or URL reaching `Appendix.References` or `Appendix.Sources`, and to a report date written into run 0 by `Rewrite.DocxReplaceText`.
- Docx.Run: a run is modelled only by its text, style and bold setting. In the source, `r.text = ""` also deletes everything else a run holds: pictures, fields, footnote references and tabs.
- FiscalYear.YearToken: the two digits after `20` are ASCII only. Python's `\d` also matches other Unicode decimal digits (category Nd), such as Arabic-Indic digits.
- FiscalYear.MatchAtIffToken: inherits the ASCII-only digits of `YearToken`. A year written with non-ASCII digits is found by the source but not by the model.
- FiscalYear.BodyText: tables are not scanned for years, because the source joins only `doc.paragraphs`. This is a fact about the source, not a gap in the model.
- ReplacementMap.BuildReplacements: the model takes the years in any order. Python's set iteration order depends on string hashing, so the source's key order is not fixed either. `RollForward.SetOrder` promises only that each year is taken once.
- RollForward.SetOrder: which order the set yields is left open, for the same reason.
- Benchmark.Summarize: a study without a `Decision` column is not modelled. There, `df.get("Decision", "")` returns a `str` with no `astype`, and the source raises `AttributeError`.
- Benchmark.Summarize: a study with rows but zero columns is not modelled. `df.empty` is true for it, so the source prints the "not provided" notice.
- Benchmark.Summarize: missing values are not modelled separately. They reach the model as the strings `astype(str)` makes of them, such as `"nan"`, which match neither word.
- PyText.LowerAscii: `str.lower` is modelled on ASCII letters only. For the comparison with `accept` and `reject` this loses nothing. The only non-ASCII characters whose lower-case forms contain ASCII letters are U+0130 and U+212A, which lower to `i̇` and `k`, and neither letter appears in those words.
