/**
  The two numbered lines of an industry-update footnote: the reference
  `- See: {title} [^i]` and the source `  ^i {url}`, with parsers that read
  the number and the text back.
 */
module Footnotes {
  import opened Optional
  import opened PyStr
  import opened Decimal

  const SeePrefix: string := "- See: "
  const RefOpen: string := " [^"
  const RefClose: string := "]"
  const SourcePrefix: string := "  ^"

  /** `f"- See: {title} [^{i}]"`. */
  function RefLine(title: string, i: nat): string {
    SeePrefix + title + (RefOpen + (NatToString(i) + RefClose))
  }

  /** `f"  ^{i} {url}"`. */
  function SourceLine(i: nat, url: string): string {
    SourcePrefix + (NatToString(i) + (" " + url))
  }

  /** Reads the title and the footnote number back from a reference line. */
  function ParseRef(line: string): Option<(string, nat)> {
    if !StartsWith(line, SeePrefix) || line == [] || line[|line| - 1] != ']' then None
    else RefBody(line[..|line| - 1])
  }

  /** The title and number of a reference line without its closing `]`. */
  function RefBody(body: string): Option<(string, nat)> {
    SplitRef(body, DigitSuffix(body))
  }

  /** Splits `body` before its last `k` characters, which must be a numeral after `" [^"`. */
  function SplitRef(body: string, k: nat): Option<(string, nat)>
    requires k <= |body| && AllDigits(body[|body| - k..])
  {
    var e := |body| - k;
    if k == 0 || e < |SeePrefix| + |RefOpen| || body[e - |RefOpen|..e] != RefOpen then None
    else Some((body[|SeePrefix|..e - |RefOpen|], DigitsValue(body[e..])))
  }

  /** Reads the footnote number and the URL back from a source line. */
  function ParseSource(line: string): Option<(nat, string)> {
    if !StartsWith(line, SourcePrefix) then None
    else
      var rest := line[|SourcePrefix|..];
      var k := DigitPrefix(rest);
      if k == 0 || k == |rest| || rest[k] != ' ' then None
      else Some((DigitsValue(rest[..k]), rest[k + 1..]))
  }

  lemma RefLineRoundTrip(title: string, i: nat)
    ensures ParseRef(RefLine(title, i)) == Some((title, i))
  {
    var d := NatToString(i);
    var front := SeePrefix + title + RefOpen;
    assert RefLine(title, i) == (front + d) + RefClose;
    assert front[|front| - |RefOpen|..] == RefOpen;
    assert front[|SeePrefix|..|front| - |RefOpen|] == title;
    ParseRefOf(front, d);
    NatToStringRoundTrip(i);
  }

  lemma ParseRefOf(front: string, d: string)
    requires StartsWith(front, SeePrefix) && |front| >= |SeePrefix| + |RefOpen|
    requires front[|front| - |RefOpen|..] == RefOpen
    requires d != [] && AllDigits(d)
    ensures ParseRef((front + d) + RefClose)
            == Some((front[|SeePrefix|..|front| - |RefOpen|], DigitsValue(d)))
  {
    var body := front + d;
    var line := body + RefClose;
    assert line[..|SeePrefix|] == front[..|SeePrefix|];
    assert line[..|line| - 1] == body;
    RefBodyOf(front, d);
  }

  lemma RefBodyOf(front: string, d: string)
    requires |front| >= |SeePrefix| + |RefOpen|
    requires front[|front| - |RefOpen|..] == RefOpen
    requires d != [] && AllDigits(d)
    ensures RefBody(front + d) == Some((front[|SeePrefix|..|front| - |RefOpen|], DigitsValue(d)))
  {
    NumberAfterRefOpen(front, d);
    ConcatSlices(front, d, |SeePrefix|, |front| - |RefOpen|);
    ConcatSlices(front, d, |front| - |RefOpen|, |front|);
    RefBodyAt(front + d, |front|);
  }

  lemma NumberAfterRefOpen(front: string, d: string)
    requires |front| >= |RefOpen| && front[|front| - |RefOpen|..] == RefOpen
    requires AllDigits(d)
    ensures DigitSuffix(front + d) == |d|
    ensures (front + d)[|front|..] == d
  {
    assert front[|front| - 1] == front[|front| - |RefOpen|..][|RefOpen| - 1];
    DigitSuffixOfNumeral(front, d);
  }

  /** A slice inside the first part of a concatenation is a slice of that part. */
  lemma ConcatSlices(a: string, b: string, i: nat, j: nat)
    requires i <= j <= |a|
    ensures (a + b)[i..j] == a[i..j]
  {
  }

  lemma RefBodyAt(body: string, e: nat)
    requires |SeePrefix| + |RefOpen| <= e < |body| && DigitSuffix(body) == |body| - e
    requires body[e - |RefOpen|..e] == RefOpen
    ensures RefBody(body) == Some((body[|SeePrefix|..e - |RefOpen|], DigitsValue(body[e..])))
  {
    SplitRefAt(body, e);
  }

  lemma SplitRefAt(body: string, e: nat)
    requires |SeePrefix| + |RefOpen| <= e < |body| && AllDigits(body[e..])
    requires body[e - |RefOpen|..e] == RefOpen
    ensures SplitRef(body, |body| - e) == Some((body[|SeePrefix|..e - |RefOpen|], DigitsValue(body[e..])))
  {
  }

  lemma SourceLineRoundTrip(i: nat, url: string)
    ensures ParseSource(SourceLine(i, url)) == Some((i, url))
  {
    var d := NatToString(i);
    var line := SourceLine(i, url);
    assert line[..|SourcePrefix|] == SourcePrefix;
    var rest := line[|SourcePrefix|..];
    assert rest == d + (" " + url);
    DigitPrefixOfNumeral(d, " " + url);
    assert rest[..|d|] == d;
    assert rest[|d| + 1..] == url;
    NatToStringRoundTrip(i);
  }
}
