/**
  `summarize_benchmark`: the one-line summary of a benchmark study, over the
  `Decision` column given as its values converted to strings.
 */
module Benchmark {
  import opened Optional
  import opened PyStr
  import opened PyText
  import opened Decimal

  const NotProvided: string := "Benchmark not provided."
  const Accept: string := "accept"
  const Reject: string := "reject"

  /** A row carries decision `w` when its lower-cased value is exactly `w`; nothing is trimmed. */
  predicate HasDecision(x: string, w: string) {
    LowerAscii(x) == w
  }

  /** The number of rows whose decision is `w`. */
  function CountDecision(rows: seq<string>, w: string): (n: nat)
    ensures n <= |rows|
    decreases |rows|
  {
    if rows == [] then 0
    else CountDecision(rows[..|rows| - 1], w) + (if HasDecision(rows[|rows| - 1], w) then 1 else 0)
  }

  const Head: string := "Vendor study summary: "
  const AcceptedText: string := " accepted, "
  const RejectedText: string := " rejected, "
  const TotalText: string := " total comparables."

  /** Three numbers, each followed by its label, after a heading. */
  function Sentence(head: string, a: nat, l1: string, r: nat, l2: string, t: nat, l3: string): string {
    head + (NatToString(a) + (l1 + (NatToString(r) + (l2 + (NatToString(t) + l3)))))
  }

  /** The summary sentence for the three counts. */
  function SummaryLine(accepted: nat, rejected: nat, total: nat): string {
    Sentence(Head, accepted, AcceptedText, rejected, RejectedText, total, TotalText)
  }

  /** `summarize_benchmark(df)`: the fixed notice for an empty study, the counts otherwise. */
  function Summarize(rows: seq<string>): (r: string)
    ensures r == NotProvided <==> rows == []
  {
    if rows == [] then NotProvided
    else
      var r := SummaryLine(CountDecision(rows, Accept), CountDecision(rows, Reject), |rows|);
      assert r[0] == 'V';
      r
  }

  /** No row is counted both accepted and rejected, so the two counts never exceed the total. */
  lemma {:induction false} AcceptedPlusRejectedAtMostTotal(rows: seq<string>)
    ensures CountDecision(rows, Accept) + CountDecision(rows, Reject) <= |rows|
    decreases |rows|
  {
    if rows != [] {
      AcceptedPlusRejectedAtMostTotal(rows[..|rows| - 1]);
    }
  }

  /** A value with whitespace at either end is neither accepted nor rejected. */
  lemma PaddedDecisionNotCounted(x: string)
    requires x != [] && (IsSpace(x[0]) || IsSpace(x[|x| - 1]))
    ensures !HasDecision(x, Accept) && !HasDecision(x, Reject)
  {
    assert LowerAscii(x)[0] == LowerChar(x[0]);
    assert LowerAscii(x)[|x| - 1] == LowerChar(x[|x| - 1]);
  }

  /** Reads a numeral followed by the text `lit`: the number and what follows `lit`. */
  function ReadNumber(s: string, lit: string): Option<(nat, string)> {
    var k := DigitPrefix(s);
    if k > 0 && StartsWith(s[k..], lit) then Some((DigitsValue(s[..k]), s[k + |lit|..])) else None
  }

  lemma ReadNumberOfNumeral(n: nat, lit: string, rest: string)
    requires lit != [] && !IsDigit(lit[0])
    ensures ReadNumber(NatToString(n) + (lit + rest), lit) == Some((n, rest))
  {
    var d := NatToString(n);
    var s := d + (lit + rest);
    DigitPrefixOfNumeral(d, lit + rest);
    assert s[..|d|] == d;
    assert s[|d|..] == lit + rest;
    assert s[|d|..][..|lit|] == lit;
    assert s[|d| + |lit|..] == rest;
    NatToStringRoundTrip(n);
  }

  /** Reads the three numbers back from a `Sentence` with the given heading and labels. */
  function ParseSentence(s: string, head: string, l1: string, l2: string, l3: string): Option<(nat, nat, nat)> {
    if !StartsWith(s, head) then None
    else match ReadNumber(s[|head|..], l1)
      case None => None
      case Some((a, rest)) =>
        match ParseTwo(rest, l2, l3)
        case None => None
        case Some((r, t)) => Some((a, r, t))
  }

  /** Reads two numbers with their labels, which must end the text. */
  function ParseTwo(s: string, l2: string, l3: string): Option<(nat, nat)> {
    match ReadNumber(s, l2)
    case None => None
    case Some((r, rest)) =>
      match ReadNumber(rest, l3)
      case None => None
      case Some((t, tail)) => if tail == [] then Some((r, t)) else None
  }

  lemma ParseTwoRoundTrip(r: nat, l2: string, t: nat, l3: string)
    requires l2 != [] && !IsDigit(l2[0])
    requires l3 != [] && !IsDigit(l3[0])
    ensures ParseTwo(NatToString(r) + (l2 + (NatToString(t) + l3)), l2, l3) == Some((r, t))
  {
    ReadNumberOfNumeral(r, l2, NatToString(t) + l3);
    assert l3 + [] == l3;
    ReadNumberOfNumeral(t, l3, []);
  }

  lemma SentenceRoundTrip(head: string, a: nat, l1: string, r: nat, l2: string, t: nat, l3: string)
    requires l1 != [] && !IsDigit(l1[0])
    requires l2 != [] && !IsDigit(l2[0])
    requires l3 != [] && !IsDigit(l3[0])
    ensures ParseSentence(Sentence(head, a, l1, r, l2, t, l3), head, l1, l2, l3) == Some((a, r, t))
  {
    var tail := NatToString(r) + (l2 + (NatToString(t) + l3));
    var body := NatToString(a) + (l1 + tail);
    HeadPrefix(head, body);
    ReadNumberOfNumeral(a, l1, tail);
    ParseTwoRoundTrip(r, l2, t, l3);
  }

  lemma HeadPrefix(head: string, body: string)
    ensures StartsWith(head + body, head) && (head + body)[|head|..] == body
  {
    assert (head + body)[..|head|] == head;
  }

  /** Reads the three counts back from a summary sentence. */
  function ParseSummary(s: string): Option<(nat, nat, nat)> {
    ParseSentence(s, Head, AcceptedText, RejectedText, TotalText)
  }

  /** The summary states the accepted, rejected and total counts; the empty-study notice states none. */
  lemma SummarizeRoundTrip(rows: seq<string>)
    ensures rows == [] ==> ParseSummary(Summarize(rows)) == None
    ensures rows != [] ==>
      ParseSummary(Summarize(rows)) == Some((CountDecision(rows, Accept), CountDecision(rows, Reject), |rows|))
  {
    if rows == [] {
      assert NotProvided[0] != Head[0];
    } else {
      SentenceRoundTrip(Head, CountDecision(rows, Accept), AcceptedText, CountDecision(rows, Reject), RejectedText, |rows|, TotalText);
    }
  }
}
