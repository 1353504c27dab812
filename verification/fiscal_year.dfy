/**
  Fiscal-year detection: the years captured by the case-insensitive
  pattern `FY\s*-?_?\s*(20\d{2})` in the body text, as `re.findall` returns
  them, and the default year when nothing matches.
 */
module FiscalYear {
  import opened Optional
  import opened PyText
  import opened Decimal
  import Docx

  /** The range the "New FY" input admits. */
  const MinFy: int := 1990
  const MaxFy: int := 2100

  predicate IsF(c: char) { c == 'F' || c == 'f' }

  predicate IsY(c: char) { c == 'Y' || c == 'y' }

  /** A captured year: `20` and two digits. */
  predicate YearToken(y: string) {
    |y| == 4 && y[0] == '2' && y[1] == '0' && IsDigit(y[2]) && IsDigit(y[3])
  }

  /** The separator the pattern admits between `FY` and the year: whitespace, an optional `-`, an optional `_`, whitespace. */
  ghost predicate Separator(u: string) {
    exists p, q :: 0 <= p <= q <= |u| && AllSpace(u[..p]) && u[p..q] in ["", "-", "_", "-_"] && AllSpace(u[q..])
  }

  /** `s[i..e]` is a whole match of the pattern; the year is its last four characters. */
  ghost predicate TokenAt(s: string, i: int, e: int) {
    && 0 <= i && i + 6 <= e <= |s|
    && IsF(s[i]) && IsY(s[i + 1])
    && Separator(s[i + 2..e - 4])
    && YearToken(s[e - 4..e])
  }

  /** The first index at or after `i` that is not whitespace (greedy `\s*`). */
  function SkipSpaces(s: string, i: nat): (j: nat)
    requires i <= |s|
    ensures i <= j <= |s|
    ensures AllSpace(s[i..j])
    ensures j == |s| || !IsSpace(s[j])
    decreases |s| - i
  {
    if i < |s| && IsSpace(s[i]) then
      var j := SkipSpaces(s, i + 1);
      assert s[i..j] == [s[i]] + s[i + 1..j];
      j
    else i
  }

  /** Where the year must start after `FY` at `a`: `\s*`, an optional `-`, an optional `_`, `\s*`, each greedy. */
  function SeparatorEnd(s: string, a: nat): (j: nat)
    requires a <= |s|
    ensures a <= j <= |s|
  {
    SkipSpaces(s, Marks(s, SkipSpaces(s, a)))
  }

  /** After `-?_?` at `j`. */
  function Marks(s: string, j: nat): (k: nat)
    requires j <= |s|
    ensures j <= k <= |s|
  {
    var j2 := if j < |s| && s[j] == '-' then j + 1 else j;
    if j2 < |s| && s[j2] == '_' then j2 + 1 else j2
  }

  /** The end of the match starting at `i`, if the pattern matches there. */
  function MatchAt(s: string, i: nat): (m: Option<nat>)
    ensures m.Some? ==> i + 6 <= m.value <= |s|
  {
    if i + 2 <= |s| && IsF(s[i]) && IsY(s[i + 1]) then
      var j := SeparatorEnd(s, i + 2);
      if j + 4 <= |s| && YearToken(s[j..j + 4]) then Some(j + 4) else None
    else None
  }

  /** Greedy skipping stops exactly at the end of a run of whitespace. */
  lemma {:induction false} SkipSpacesStopsAt(s: string, i: nat, j: nat)
    requires i <= j <= |s| && AllSpace(s[i..j]) && (j == |s| || !IsSpace(s[j]))
    ensures SkipSpaces(s, i) == j
    decreases j - i
  {
    if i < j {
      assert s[i] == s[i..j][0];
      assert s[i + 1..j] == s[i..j][1..];
      SkipSpacesStopsAt(s, i + 1, j);
    }
  }

  /** The greedy scan only ever crosses a separator the pattern admits. */
  lemma SeparatorEndSound(s: string, a: nat)
    requires a <= |s|
    ensures Separator(s[a..SeparatorEnd(s, a)])
  {
    var j1 := SkipSpaces(s, a);
    var j3 := Marks(s, j1);
    var j4 := SkipSpaces(s, j3);
    var u := s[a..j4];
    var p, q := j1 - a, j3 - a;
    assert u[..p] == s[a..j1];
    assert u[q..] == s[j3..j4];
    assert forall k :: 0 <= k < q - p ==> u[p..q][k] == s[j1..j3][k];
    assert u[p..q] == s[j1..j3];
    MarksShape(s, j1);
  }

  lemma MarksShape(s: string, j: nat)
    requires j <= |s|
    ensures s[j..Marks(s, j)] in ["", "-", "_", "-_"]
  {
    var k := Marks(s, j);
    if k == j + 2 {
      assert s[j..k] == [s[j], s[j + 1]];
    } else if k == j + 1 {
      assert s[j..k] == [s[j]];
    }
  }

  /** Any admitted separator followed by a `2` is crossed completely by the greedy scan. */
  lemma SeparatorEndComplete(s: string, a: nat, d: nat)
    requires a <= d < |s| && s[d] == '2' && Separator(s[a..d])
    ensures SeparatorEnd(s, a) == d
  {
    var u := s[a..d];
    var p, q :| 0 <= p <= q <= |u| && AllSpace(u[..p]) && u[p..q] in ["", "-", "_", "-_"] && AllSpace(u[q..]);
    assert s[a..a + p] == u[..p];
    assert s[a + q..d] == u[q..];
    assert forall k :: 0 <= k < q - p ==> u[p..q][k] == s[a + p..a + q][k];
    assert s[a + p..a + q] == u[p..q];
    SeparatorEndAt(s, a, a + p, a + q, d);
  }

  lemma SeparatorEndAt(s: string, a: nat, b: nat, c: nat, d: nat)
    requires a <= b <= c <= d < |s| && s[d] == '2'
    requires AllSpace(s[a..b]) && s[b..c] in ["", "-", "_", "-_"] && AllSpace(s[c..d])
    ensures SeparatorEnd(s, a) == d
  {
    if b == c {
      assert s[a..d] == s[a..b] + s[c..d];
      SkipSpacesStopsAt(s, a, d);
      assert Marks(s, d) == d;
    } else {
      assert s[b] == s[b..c][0];
      SkipSpacesStopsAt(s, a, b);
      MarksAt(s, b, c, d);
    }
    SkipSpacesStopsAt(s, Marks(s, SkipSpaces(s, a)), d);
  }

  lemma MarksAt(s: string, b: nat, c: nat, d: nat)
    requires b < c <= d < |s| && s[d] == '2'
    requires s[b..c] in ["-", "_", "-_"] && AllSpace(s[c..d])
    ensures Marks(s, b) == c
  {
    assert s[b] == s[b..c][0];
    if s[b..c] == "-" {
      assert c == d || IsSpace(s[c]) by {
        if c < d { assert s[c] == s[c..d][0]; }
      }
    } else if s[b..c] == "-_" {
      assert s[b + 1] == s[b..c][1];
    }
  }

  /** The scanner finds a match at `i` ending at `e` exactly when the pattern matches `s[i..e]`. */
  lemma MatchAtIffToken(s: string, i: nat, e: nat)
    ensures MatchAt(s, i) == Some(e) <==> TokenAt(s, i, e)
  {
    if MatchAt(s, i) == Some(e) {
      MatchAtSound(s, i);
    }
    if TokenAt(s, i, e) {
      MatchAtComplete(s, i, e);
    }
  }

  lemma MatchAtSound(s: string, i: nat)
    requires MatchAt(s, i).Some?
    ensures TokenAt(s, i, MatchAt(s, i).value)
  {
    SeparatorEndSound(s, i + 2);
  }

  lemma MatchAtComplete(s: string, i: nat, e: nat)
    requires TokenAt(s, i, e)
    ensures MatchAt(s, i) == Some(e)
  {
    assert s[e - 4] == s[e - 4..e][0];
    SeparatorEndComplete(s, i + 2, e - 4);
  }

  /** `re.findall` from position `pos`: the year of every match, left to right, matches not overlapping. */
  function FindFrom(s: string, pos: nat): (years: seq<string>)
    requires pos <= |s|
    ensures forall k :: 0 <= k < |years| ==> YearToken(years[k])
    decreases |s| - pos
  {
    if pos == |s| then []
    else match MatchAt(s, pos)
      case Some(e) => [s[e - 4..e]] + FindFrom(s, e)
      case None => FindFrom(s, pos + 1)
  }

  function FindAll(s: string): seq<string> {
    FindFrom(s, 0)
  }

  /** `findall` returns something exactly when the pattern matches somewhere from `pos` on. */
  lemma {:induction false} FindFromNonEmptyIff(s: string, pos: nat)
    requires pos <= |s|
    ensures FindFrom(s, pos) != [] <==> exists i :: pos <= i < |s| && MatchAt(s, i).Some?
    decreases |s| - pos
  {
    if pos < |s| && MatchAt(s, pos).None? {
      FindFromNonEmptyIff(s, pos + 1);
    }
  }

  /** Every year `findall` returns is the capture of a match in `s`. */
  lemma {:induction false} FindFromSound(s: string, pos: nat)
    requires pos <= |s|
    ensures forall y :: y in FindFrom(s, pos) ==> exists i, e :: pos <= i && TokenAt(s, i, e) && y == s[e - 4..e]
    decreases |s| - pos
  {
    if pos < |s| {
      match MatchAt(s, pos)
      case Some(e) =>
        FindFromSound(s, e);
        MatchAtSound(s, pos);
      case None =>
        FindFromSound(s, pos + 1);
    }
  }

  /** Every match `TokenAt(s, i, e)` at or after `pos` has its year among those `findall` returns from `pos`. */
  lemma {:induction false} FindFromComplete(s: string, pos: nat, i: nat, e: nat)
    requires pos <= i && TokenAt(s, i, e)
    ensures s[e - 4..e] in FindFrom(s, pos)
    decreases |s| - pos
  {
    if pos == i {
      MatchAtComplete(s, i, e);
    } else {
      match MatchAt(s, pos)
      case None =>
        FindFromComplete(s, pos + 1, i, e);
      case Some(e') =>
        if i < e' {
          NotFInMatch(s, pos, i);
        }
        FindFromComplete(s, e', i, e);
    }
  }

  /** No character after the leading `F` of a match is an `F`, so matches cannot start inside one another. */
  lemma NotFInMatch(s: string, p: nat, k: nat)
    requires MatchAt(s, p).Some? && p < k < MatchAt(s, p).value
    ensures !IsF(s[k])
  {
    var j1 := SkipSpaces(s, p + 2);
    var j3 := Marks(s, j1);
    var j4 := SkipSpaces(s, j3);
    if k == p + 1 {
    } else if k < j1 {
      assert s[k] == s[p + 2..j1][k - p - 2];
    } else if k < j3 {
      assert s[k] == '-' || s[k] == '_';
    } else if k < j4 {
      assert s[k] == s[j3..j4][k - j3];
    } else {
      assert s[k] == s[j4..j4 + 4][k - j4];
    }
  }

  /** `txt_all`: the body paragraphs' texts joined by newlines; tables are not scanned. */
  function BodyText(d: Docx.Doc): string {
    JoinLines(seq(|d.body|, i requires 0 <= i < |d.body| => Docx.Text(d.body[i])))
  }

  /** `old_years`: the detected years, or just the year before the new one when none is found. */
  function OldYears(d: Docx.Doc, newFy: int): set<string>
    requires MinFy <= newFy <= MaxFy
  {
    var found := FindAll(BodyText(d));
    if found != [] then set y | y in found else {NatToString(newFy - 1)}
  }

  /** With no match in the body text, the years are exactly the year before the new one. */
  lemma OldYearsDefault(d: Docx.Doc, newFy: int)
    requires MinFy <= newFy <= MaxFy
    requires forall i, e :: !TokenAt(BodyText(d), i, e)
    ensures OldYears(d, newFy) == {NatToString(newFy - 1)}
  {
    var s := BodyText(d);
    FindFromNonEmptyIff(s, 0);
    if FindAll(s) != [] {
      var i :| 0 <= i < |s| && MatchAt(s, i).Some?;
      MatchAtSound(s, i);
    }
  }

  /** With some match, the years are exactly the captures `findall` returns, and there is one at least. */
  lemma OldYearsFound(d: Docx.Doc, newFy: int)
    requires MinFy <= newFy <= MaxFy
    requires exists i, e :: TokenAt(BodyText(d), i, e)
    ensures OldYears(d, newFy) == set y | y in FindAll(BodyText(d))
    ensures OldYears(d, newFy) != {}
    ensures forall y :: y in OldYears(d, newFy) ==> exists i, e :: TokenAt(BodyText(d), i, e) && y == BodyText(d)[e - 4..e]
    ensures forall i, e :: TokenAt(BodyText(d), i, e) ==> BodyText(d)[e - 4..e] in OldYears(d, newFy)
  {
    var s := BodyText(d);
    FindFromNonEmptyIff(s, 0);
    FindFromSound(s, 0);
    var i, e :| TokenAt(s, i, e);
    MatchAtComplete(s, i, e);
    assert FindAll(s)[0] in OldYears(d, newFy);
    forall i, e | TokenAt(s, i, e)
      ensures s[e - 4..e] in OldYears(d, newFy)
    {
      FindFromComplete(s, 0, i, e);
    }
  }

  /** Every year in the set, detected or default, has four digits. */
  lemma OldYearsFourDigits(d: Docx.Doc, newFy: int)
    requires MinFy <= newFy <= MaxFy
    ensures forall y :: y in OldYears(d, newFy) ==> FourDigits(y)
  {
    FourDigitNumeral(newFy - 1);
  }
}
