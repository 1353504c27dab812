/**
  The three Python `str` operations the text rewrite is built from, with
  CPython's semantics: `pat in s`, `s.replace(pat, sub)` and `s.count(pat)`.
  Occurrences are found left to right and never overlap; the empty pattern
  occurs at every position, as in Python.
  (`old` is reserved in Dafny, so the pattern is called `pat` and its
  replacement `sub`.)
 */
module PyStr {

  /** `w` is a prefix of `s`. */
  predicate StartsWith(s: string, w: string) {
    |w| <= |s| && s[..|w|] == w
  }

  /** Python's `w in s`. */
  predicate Contains(s: string, w: string)
    decreases |s|
  {
    StartsWith(s, w) || (s != [] && Contains(s[1..], w))
  }

  /** `w` occurs in `s` at index `i`. */
  ghost predicate OccursAt(s: string, w: string, i: int) {
    0 <= i && i + |w| <= |s| && s[i..i + |w|] == w
  }

  /** Python's `s.replace(pat, sub)`: every non-overlapping occurrence, left to right. */
  function Replace(s: string, pat: string, sub: string): string
    decreases |s|
  {
    if pat == [] then
      (if s == [] then sub else sub + [s[0]] + Replace(s[1..], pat, sub))
    else if StartsWith(s, pat) then sub + Replace(s[|pat|..], pat, sub)
    else if s == [] then []
    else [s[0]] + Replace(s[1..], pat, sub)
  }

  /** Python's `s.count(pat)`: the number of occurrences `Replace` rewrites. */
  function Count(s: string, pat: string): nat
    decreases |s|
  {
    if pat == [] then |s| + 1
    else if StartsWith(s, pat) then 1 + Count(s[|pat|..], pat)
    else if s == [] then 0
    else Count(s[1..], pat)
  }

  /** `in` agrees with the positional definition of an occurrence. */
  lemma {:induction false} ContainsIffOccurs(s: string, w: string)
    ensures Contains(s, w) <==> exists i :: OccursAt(s, w, i)
    decreases |s|
  {
    if StartsWith(s, w) {
      assert OccursAt(s, w, 0);
    } else if s != [] {
      ContainsIffOccurs(s[1..], w);
      if exists i :: OccursAt(s, w, i) {
        var i :| OccursAt(s, w, i);
        assert i != 0;
        assert s[1..][i - 1..i - 1 + |w|] == s[i..i + |w|];
        assert OccursAt(s[1..], w, i - 1);
      }
      if Contains(s[1..], w) {
        var i :| OccursAt(s[1..], w, i);
        assert s[1..][i..i + |w|] == s[i + 1..i + 1 + |w|];
        assert OccursAt(s, w, i + 1);
      }
    }
  }

  /** `count` is positive exactly when the pattern occurs. */
  lemma {:induction false} CountPositiveIff(s: string, pat: string)
    ensures Count(s, pat) > 0 <==> Contains(s, pat)
    decreases |s|
  {
    if pat != [] && !StartsWith(s, pat) && s != [] {
      CountPositiveIff(s[1..], pat);
    }
  }

  /** Each rewritten occurrence changes the length by `|sub| - |pat|`. */
  lemma {:induction false} ReplaceLength(s: string, pat: string, sub: string)
    ensures |Replace(s, pat, sub)| == |s| + Count(s, pat) * (|sub| - |pat|)
    decreases |s|
  {
    if pat == [] {
      if s != [] {
        ReplaceLength(s[1..], pat, sub);
        calc {
          |Replace(s, pat, sub)|;
          |sub| + 1 + |Replace(s[1..], pat, sub)|;
          |sub| + 1 + (|s| - 1) + |s| * |sub|;
          |s| + (|s| + 1) * |sub|;
        }
      }
    } else if StartsWith(s, pat) {
      var rest := s[|pat|..];
      ReplaceLength(rest, pat, sub);
      calc {
        |Replace(s, pat, sub)|;
        |sub| + |Replace(rest, pat, sub)|;
        |sub| + |rest| + Count(rest, pat) * (|sub| - |pat|);
        |s| + (1 + Count(rest, pat)) * (|sub| - |pat|);
      }
    } else if s != [] {
      ReplaceLength(s[1..], pat, sub);
    }
  }

  /** A pattern that does not occur leaves the string as it is. */
  lemma {:induction false} ReplaceAbsent(s: string, pat: string, sub: string)
    requires !Contains(s, pat)
    ensures Replace(s, pat, sub) == s
    decreases |s|
  {
    if s != [] {
      ReplaceAbsent(s[1..], pat, sub);
    }
  }

  /** Replacing a pattern by itself leaves the string as it is. */
  lemma {:induction false} ReplaceSelf(s: string, pat: string)
    ensures Replace(s, pat, pat) == s
    decreases |s|
  {
    if pat == [] {
      if s != [] {
        ReplaceSelf(s[1..], pat);
        assert [s[0]] + s[1..] == s;
      }
    } else if StartsWith(s, pat) {
      ReplaceSelf(s[|pat|..], pat);
      assert s[..|pat|] + s[|pat|..] == s;
    } else if s != [] {
      ReplaceSelf(s[1..], pat);
      assert [s[0]] + s[1..] == s;
    }
  }

  /** With a same-length replacement, the first occurrence already shows a change. */
  lemma {:induction false} ReplaceSameLengthChanges(s: string, pat: string, sub: string)
    requires pat != [] && |sub| == |pat| && sub != pat
    requires Contains(s, pat)
    ensures Replace(s, pat, sub) != s
    decreases |s|
  {
    if StartsWith(s, pat) {
      var r := Replace(s, pat, sub);
      assert r[..|sub|] == sub;
      assert s[..|pat|] == pat;
    } else {
      ReplaceSameLengthChanges(s[1..], pat, sub);
      var r := Replace(s, pat, sub);
      assert r == [s[0]] + Replace(s[1..], pat, sub);
      assert r[1..] == Replace(s[1..], pat, sub);
    }
  }

  /**
    The test `full != full_new` the rewrite uses: replacing changes the
    string exactly when the pattern occurs and differs from its replacement.
   */
  lemma ReplaceChangesIff(s: string, pat: string, sub: string)
    ensures Replace(s, pat, sub) != s <==> Contains(s, pat) && pat != sub
  {
    if !Contains(s, pat) {
      ReplaceAbsent(s, pat, sub);
    } else if pat == sub {
      ReplaceSelf(s, pat);
    } else if |sub| != |pat| {
      ReplaceLength(s, pat, sub);
      CountPositiveIff(s, pat);
      ProductNonZero(Count(s, pat), |sub| - |pat|);
    } else {
      assert pat != [];
      ReplaceSameLengthChanges(s, pat, sub);
    }
  }

  lemma ProductNonZero(a: int, b: int)
    requires a != 0 && b != 0
    ensures a * b != 0
  {
  }
}
