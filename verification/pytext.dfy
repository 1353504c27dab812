/**
  Python's line and whitespace handling on `str`: `str.isspace` (which is
  also what `str.strip()` and the regular-expression class `\s` use),
  `str.splitlines`, `"\n".join` and `str.strip()`.
 */
module PyText {

  /** `c.isspace()`: the Unicode whitespace characters. */
  predicate IsSpace(c: char) {
    || ('\U{9}' <= c <= '\U{D}')
    || ('\U{1C}' <= c <= '\U{20}')
    || c == '\U{85}' || c == '\U{A0}' || c == '\U{1680}'
    || ('\U{2000}' <= c <= '\U{200A}')
    || c == '\U{2028}' || c == '\U{2029}' || c == '\U{202F}'
    || c == '\U{205F}' || c == '\U{3000}'
  }

  /** The characters at which `str.splitlines` ends a line. */
  predicate IsLineBreak(c: char) {
    || c == '\n' || c == '\r' || c == '\U{B}' || c == '\U{C}'
    || c == '\U{1C}' || c == '\U{1D}' || c == '\U{1E}'
    || c == '\U{85}' || c == '\U{2028}' || c == '\U{2029}'
  }

  predicate AllSpace(s: string) {
    forall k :: 0 <= k < |s| ==> IsSpace(s[k])
  }

  predicate NoLineBreak(s: string) {
    forall k :: 0 <= k < |s| ==> !IsLineBreak(s[k])
  }

  /** `s.lstrip()`: the suffix left after dropping leading whitespace. */
  function LStrip(s: string): (r: string)
    ensures |r| <= |s| && r == s[|s| - |r|..]
    ensures AllSpace(s[..|s| - |r|])
    ensures r == [] || !IsSpace(r[0])
    decreases |s|
  {
    if s != [] && IsSpace(s[0]) then
      var r := LStrip(s[1..]);
      assert s[1..][..|s[1..]| - |r|] == s[1..|s| - |r|];
      r
    else s
  }

  /** `s.rstrip()`: the prefix left after dropping trailing whitespace. */
  function RStrip(s: string): (r: string)
    ensures |r| <= |s| && r == s[..|r|]
    ensures AllSpace(s[|r|..])
    ensures r == [] || !IsSpace(r[|r| - 1])
    decreases |s|
  {
    if s != [] && IsSpace(s[|s| - 1]) then
      var r := RStrip(s[..|s| - 1]);
      assert s[..|s| - 1][|r|..] + [s[|s| - 1]] == s[|r|..];
      r
    else s
  }

  /** `s.strip()`: the slice of `s` between its leading and trailing whitespace. */
  function Strip(s: string): (r: string)
    ensures |r| <= |s|
    ensures r == [] || (!IsSpace(r[0]) && !IsSpace(r[|r| - 1]))
  {
    RStrip(LStrip(s))
  }

  /** Where `strip()` starts: the number of leading whitespace characters. */
  function StripStart(s: string): (a: nat)
    ensures a <= |s|
  {
    |s| - |LStrip(s)|
  }

  /** `strip()` keeps a slice of `s` and removes only whitespace around it. */
  lemma StripIsSlice(s: string)
    ensures StripStart(s) + |Strip(s)| <= |s|
    ensures Strip(s) == s[StripStart(s)..StripStart(s) + |Strip(s)|]
    ensures AllSpace(s[..StripStart(s)]) && AllSpace(s[StripStart(s) + |Strip(s)|..])
  {
    var l := LStrip(s);
    var r := RStrip(l);
    assert Strip(s) == r && StripStart(s) == |s| - |l|;
    StripSlices(s, l, r);
  }

  lemma StripSlices(s: string, l: string, r: string)
    requires |l| <= |s| && l == s[|s| - |l|..]
    requires |r| <= |l| && r == l[..|r|] && AllSpace(l[|r|..])
    ensures r == s[|s| - |l|..|s| - |l| + |r|]
    ensures AllSpace(s[|s| - |l| + |r|..])
  {
    var a := |s| - |l|;
    assert s[a + |r|..] == l[|r|..];
  }

  /** A string with no whitespace at either end is its own `strip()`. */
  lemma StripStripped(s: string)
    requires s == [] || (!IsSpace(s[0]) && !IsSpace(s[|s| - 1]))
    ensures Strip(s) == s
  {
  }

  /** `strip()` is idempotent. */
  lemma StripIdempotent(s: string)
    ensures Strip(Strip(s)) == Strip(s)
  {
    StripStripped(Strip(s));
  }

  /** A string strips to `""` exactly when it is all whitespace. */
  lemma StripEmptyIff(s: string)
    ensures Strip(s) == [] <==> AllSpace(s)
  {
    StripIsSlice(s);
  }

  /** The index of the first line break at or after `i`, or `|s|`. */
  function LineEnd(s: string, i: nat): (k: nat)
    requires i <= |s|
    ensures i <= k <= |s|
    ensures k == |s| || IsLineBreak(s[k])
    ensures NoLineBreak(s[i..k])
    decreases |s| - i
  {
    if i == |s| || IsLineBreak(s[i]) then i else LineEnd(s, i + 1)
  }

  /**
    `s.splitlines()`: the lines of `s` without their terminators; `"\r\n"`
    ends a single line and a final terminator opens no empty line.
   */
  function SplitLines(s: string): (lines: seq<string>)
    ensures forall j :: 0 <= j < |lines| ==> NoLineBreak(lines[j])
    decreases |s|
  {
    if s == [] then []
    else
      var k := LineEnd(s, 0);
      var next := if k == |s| then k
                  else if s[k] == '\r' && k + 1 < |s| && s[k + 1] == '\n' then k + 2
                  else k + 1;
      [s[..k]] + SplitLines(s[next..])
  }

  /** `"\n".join(parts)`. */
  function JoinLines(parts: seq<string>): string
    decreases |parts|
  {
    if parts == [] then []
    else if |parts| == 1 then parts[0]
    else parts[0] + "\n" + JoinLines(parts[1..])
  }

  /**
    Joining lines with `"\n"` and splitting again gives them back, unless
    the last line is empty (Python drops a final empty line).
   */
  lemma {:induction false} SplitJoinLines(parts: seq<string>)
    requires forall j :: 0 <= j < |parts| ==> NoLineBreak(parts[j])
    requires parts != [] ==> parts[|parts| - 1] != []
    ensures SplitLines(JoinLines(parts)) == parts
    decreases |parts|
  {
    if |parts| == 1 {
      SplitLinesSingle(parts[0]);
    } else if |parts| > 1 {
      var rest := JoinLines(parts[1..]);
      assert JoinLines(parts) == parts[0] + ("\n" + rest);
      SplitLinesCons(parts[0], rest);
      SplitJoinLines(parts[1..]);
      assert parts == [parts[0]] + parts[1..];
    }
  }

  /** A non-empty line without line breaks splits into itself. */
  lemma SplitLinesSingle(s: string)
    requires s != [] && NoLineBreak(s)
    ensures SplitLines(s) == [s]
  {
    LineEndNoBreak(s, 0);
    assert s[..|s|] == s;
  }

  /** A line without line breaks followed by `"\n"` is split off as the first line. */
  lemma SplitLinesCons(first: string, rest: string)
    requires NoLineBreak(first)
    ensures SplitLines(first + ("\n" + rest)) == [first] + SplitLines(rest)
  {
    var s := first + ("\n" + rest);
    assert s[..|first|] == first;
    assert s[|first|] == '\n';
    LineEndAt(s, 0, |first|);
    assert s[|first| + 1..] == rest;
  }

  lemma {:induction false} LineEndNoBreak(s: string, i: nat)
    requires i <= |s| && NoLineBreak(s[i..])
    ensures LineEnd(s, i) == |s|
    decreases |s| - i
  {
    if i < |s| {
      assert s[i] == s[i..][0];
      assert s[i + 1..] == s[i..][1..];
      LineEndNoBreak(s, i + 1);
    }
  }

  lemma {:induction false} LineEndAt(s: string, i: nat, k: nat)
    requires i <= k < |s| && NoLineBreak(s[i..k]) && IsLineBreak(s[k])
    ensures LineEnd(s, i) == k
    decreases k - i
  {
    if i < k {
      assert s[i] == s[i..k][0];
      assert s[i + 1..k] == s[i..k][1..];
      LineEndAt(s, i + 1, k);
    }
  }

  /** ASCII lower-casing of one character. */
  function LowerChar(c: char): char {
    if 'A' <= c <= 'Z' then (c as int + 32) as char else c
  }

  /** `s.lower()` restricted to ASCII letters. */
  function LowerAscii(s: string): (r: string)
    ensures |r| == |s|
  {
    seq(|s|, i requires 0 <= i < |s| => LowerChar(s[i]))
  }
}
