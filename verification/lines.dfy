/**
  Cleaning a multi-line text box into a list of lines, as the roll-forward
  does for the source URLs and for the client information:
  `[x.strip() for x in text.splitlines() if x.strip()]`.
 */
module Lines {
  import opened PyText

  /** A line that `strip()` reduces to `""`. */
  predicate Blank(line: string) {
    Strip(line) == []
  }

  /** `[x.strip() for x in lines if x.strip()]`. */
  function NonBlank(lines: seq<string>): seq<string>
    decreases |lines|
  {
    if lines == [] then []
    else if Blank(lines[|lines| - 1]) then NonBlank(lines[..|lines| - 1])
    else NonBlank(lines[..|lines| - 1]) + [Strip(lines[|lines| - 1])]
  }

  /** The positions of the lines that are not blank, in increasing order. */
  function KeptLines(lines: seq<string>): seq<nat>
    decreases |lines|
  {
    if lines == [] then []
    else if Blank(lines[|lines| - 1]) then KeptLines(lines[..|lines| - 1])
    else KeptLines(lines[..|lines| - 1]) + [|lines| - 1]
  }

  predicate Increasing(xs: seq<nat>) {
    forall i, j :: 0 <= i < j < |xs| ==> xs[i] < xs[j]
  }

  /** The kept positions are positions of the input. */
  lemma {:induction false} KeptLinesBounded(lines: seq<string>)
    ensures forall i :: 0 <= i < |KeptLines(lines)| ==> KeptLines(lines)[i] < |lines|
    decreases |lines|
  {
    if lines != [] {
      KeptLinesBounded(lines[..|lines| - 1]);
    }
  }
  /** The kept positions increase. */
  lemma {:induction false} KeptLinesIncreasing(lines: seq<string>)
    ensures Increasing(KeptLines(lines))
    decreases |lines|
  {
    if lines != [] {
      var init := lines[..|lines| - 1];
      KeptLinesIncreasing(init);
      KeptLinesBounded(init);
      var ks := KeptLines(init);
      if !Blank(lines[|lines| - 1]) {
        AppendIncreasing(ks, |lines| - 1);
      }
    }
  }
  lemma AppendIncreasing(xs: seq<nat>, x: nat)
    requires Increasing(xs)
    requires forall i :: 0 <= i < |xs| ==> xs[i] < x
    ensures Increasing(xs + [x])
  {
    var ys := xs + [x];
    assert forall i :: 0 <= i < |xs| ==> ys[i] == xs[i];
  }

  /** A line's position is kept exactly when the line is not blank. */
  lemma {:induction false} KeptLinesIff(lines: seq<string>)
    ensures forall j :: 0 <= j < |lines| ==> (j in KeptLines(lines) <==> !Blank(lines[j]))
    decreases |lines|
  {
    if lines != [] {
      var init := lines[..|lines| - 1];
      KeptLinesIff(init);
      KeptLinesBounded(init);
      forall j | 0 <= j < |lines|
        ensures j in KeptLines(lines) <==> !Blank(lines[j])
      {
        KeptLinesStep(lines, KeptLines(init), j);
      }
    }
  }

  lemma KeptLinesStep(lines: seq<string>, ks: seq<nat>, j: nat)
    requires lines != [] && ks == KeptLines(lines[..|lines| - 1]) && j < |lines|
    requires forall i :: 0 <= i < |ks| ==> ks[i] < |lines| - 1
    requires j < |lines| - 1 ==> (j in ks <==> !Blank(lines[..|lines| - 1][j]))
    ensures j in KeptLines(lines) <==> !Blank(lines[j])
  {
    var init := lines[..|lines| - 1];
    var n := |lines| - 1;
    assert n !in ks;
    if j < n {
      assert init[j] == lines[j];
      assert j in ks + [n] <==> j in ks;
    }
  }

  /**
    The cleaned list is the stripped form of exactly the lines that are not
    blank, in their input order: its i-th element comes from line
    `KeptLines(lines)[i]`, those positions increase, and a line is among them
    exactly when it is not blank.
   */
  lemma NonBlankKeepsOrder(lines: seq<string>)
    ensures |NonBlank(lines)| == |KeptLines(lines)|
    ensures Increasing(KeptLines(lines))
    ensures forall i :: 0 <= i < |KeptLines(lines)| ==>
              KeptLines(lines)[i] < |lines| && NonBlank(lines)[i] == Strip(lines[KeptLines(lines)[i]])
    ensures forall j :: 0 <= j < |lines| ==> (j in KeptLines(lines) <==> !Blank(lines[j]))
  {
    KeptLinesIncreasing(lines);
    KeptLinesBounded(lines);
    KeptLinesIff(lines);
    NonBlankAtKept(lines);
  }

  lemma {:induction false} NonBlankAtKept(lines: seq<string>)
    ensures |NonBlank(lines)| == |KeptLines(lines)|
    ensures forall i :: 0 <= i < |KeptLines(lines)| ==>
              KeptLines(lines)[i] < |lines| && NonBlank(lines)[i] == Strip(lines[KeptLines(lines)[i]])
    decreases |lines|
  {
    if lines != [] {
      var init := lines[..|lines| - 1];
      NonBlankAtKept(init);
      NonBlankAtKeptStep(lines, init, KeptLines(init), NonBlank(init));
    }
  }

  lemma NonBlankAtKeptStep(lines: seq<string>, init: seq<string>, ks: seq<nat>, ns: seq<string>)
    requires lines != [] && init == lines[..|lines| - 1]
    requires ks == KeptLines(init) && ns == NonBlank(init) && |ns| == |ks|
    requires forall i :: 0 <= i < |ks| ==> ks[i] < |init| && ns[i] == Strip(init[ks[i]])
    ensures |NonBlank(lines)| == |KeptLines(lines)|
    ensures forall i :: 0 <= i < |KeptLines(lines)| ==>
              KeptLines(lines)[i] < |lines| && NonBlank(lines)[i] == Strip(lines[KeptLines(lines)[i]])
  {
    var n := |lines| - 1;
    var kept, clean := KeptLines(lines), NonBlank(lines);
    if Blank(lines[n]) {
      assert kept == ks && clean == ns;
    } else {
      assert kept == ks + [n] && clean == ns + [Strip(lines[n])];
    }
    forall i | 0 <= i < |kept|
      ensures kept[i] < |lines| && clean[i] == Strip(lines[kept[i]])
    {
      if i < |ks| {
        assert kept[i] == ks[i] && clean[i] == ns[i];
        assert init[ks[i]] == lines[ks[i]];
      }
    }
  }

  /** Every element of the cleaned list is non-empty, has no whitespace at either end and is its own `strip()`. */
  lemma {:induction false} NonBlankStripped(lines: seq<string>)
    ensures forall i :: 0 <= i < |NonBlank(lines)| ==>
              NonBlank(lines)[i] != [] && Strip(NonBlank(lines)[i]) == NonBlank(lines)[i]
    decreases |lines|
  {
    if lines != [] {
      NonBlankStripped(lines[..|lines| - 1]);
      StripIdempotent(lines[|lines| - 1]);
    }
  }

  /** `strip()` of a line without line breaks has none either. */
  lemma StripNoLineBreak(s: string)
    requires NoLineBreak(s)
    ensures NoLineBreak(Strip(s))
  {
    StripIsSlice(s);
    var r := Strip(s);
    var a := StripStart(s);
    assert forall k :: 0 <= k < |r| ==> r[k] == s[a + k];
  }

  /** `[u.strip() for u in text.splitlines() if u.strip()]`: the URL list, and the client-information lines. */
  function CleanLines(text: string): (r: seq<string>)
    ensures forall i :: 0 <= i < |r| ==> NoLineBreak(r[i])
  {
    var lines := SplitLines(text);
    NonBlankKeepsOrder(lines);
    forall i | 0 <= i < |NonBlank(lines)|
      ensures NoLineBreak(NonBlank(lines)[i])
    {
      StripNoLineBreak(lines[KeptLines(lines)[i]]);
    }
    NonBlank(lines)
  }

  /**
    Lines that are already clean, joined with `"\n"`, come back from
    `CleanLines` unchanged: the cleaning loses nothing of a clean list.
   */
  lemma CleanLinesOfJoin(parts: seq<string>)
    requires forall j :: 0 <= j < |parts| ==> NoLineBreak(parts[j])
    requires forall j :: 0 <= j < |parts| ==> Clean(parts[j])
    ensures CleanLines(JoinLines(parts)) == parts
  {
    SplitJoinLines(parts);
    NonBlankOfClean(parts);
  }

  /** A non-empty line with no whitespace at either end. */
  predicate Clean(line: string) {
    line != [] && !IsSpace(line[0]) && !IsSpace(line[|line| - 1])
  }

  /** The clean lines are exactly the non-empty lines that are their own `strip()`. */
  lemma CleanIff(line: string)
    ensures Clean(line) <==> line != [] && Strip(line) == line
  {
    if Clean(line) {
      StripStripped(line);
    }
  }

  lemma NonBlankOfClean(parts: seq<string>)
    requires forall j :: 0 <= j < |parts| ==> Clean(parts[j])
    ensures NonBlank(parts) == parts
  {
    NonBlankOfCleanPrefix(parts, |parts|);
    assert parts[..|parts|] == parts;
  }

  lemma {:induction false} NonBlankOfCleanPrefix(parts: seq<string>, n: nat)
    requires n <= |parts|
    requires forall j :: 0 <= j < |parts| ==> Clean(parts[j])
    ensures NonBlank(parts[..n]) == parts[..n]
    decreases n
  {
    if n > 0 {
      NonBlankOfCleanPrefix(parts, n - 1);
      CleanIff(parts[n - 1]);
      SnocPrefix(parts, n);
      NonBlankSnoc(parts[..n - 1], parts[n - 1]);
    }
  }

  lemma SnocPrefix(xs: seq<string>, n: nat)
    requires 0 < n <= |xs|
    ensures xs[..n] == xs[..n - 1] + [xs[n - 1]]
  {
  }

  lemma NonBlankSnoc(init: seq<string>, last: string)
    requires !Blank(last)
    ensures NonBlank(init + [last]) == NonBlank(init) + [Strip(last)]
  {
    assert (init + [last])[..|init|] == init;
  }
}
