/**
  The replacement map `repl` that the draft generator builds from the detected years. A
  Python dict keeps insertion order and an assignment to an existing key
  overwrites the value in place, which `DictSet` models.
 */
module ReplacementMap {
  import opened Optional
  import opened Decimal
  import opened Rewrite

  /** `m.get(k)`: the value of the first entry with key `k`. */
  function Lookup(m: Replacements, k: string): Option<string>
    decreases |m|
  {
    if m == [] then None else if m[0].0 == k then Some(m[0].1) else Lookup(m[1..], k)
  }

  /** No entry of `m` has key `k`. */
  predicate Fresh(m: Replacements, k: string) {
    forall i :: 0 <= i < |m| ==> m[i].0 != k
  }

  /** `get` finds nothing exactly when no entry has the key. */
  lemma {:induction false} LookupNoneIff(m: Replacements, k: string)
    ensures Lookup(m, k).None? <==> Fresh(m, k)
    decreases |m|
  {
    if m != [] {
      LookupNoneIff(m[1..], k);
      if m[0].0 != k && Lookup(m, k).Some? {
        var i :| 0 <= i < |m[1..]| && m[1..][i].0 == k;
        assert m[i + 1].0 == k;
      }
    }
  }

  /** Assigning one key leaves the value of every other key as it was. */
  lemma {:induction false} DictSetKeepsOthers(m: Replacements, k: string, v: string, k': string)
    requires k' != k
    ensures Lookup(DictSet(m, k, v), k') == Lookup(m, k')
    decreases |m|
  {
    if m != [] && m[0].0 != k {
      DictSetKeepsOthers(m[1..], k, v, k');
    }
  }

  /** `m[k] = v`: overwrite in place when `k` is present, append otherwise. */
  function DictSet(m: Replacements, k: string, v: string): (r: Replacements)
    ensures Lookup(r, k) == Some(v)
    ensures Lookup(m, k).None? ==> r == m + [(k, v)]
    ensures Lookup(m, k).Some? ==> |r| == |m| && forall i :: 0 <= i < |m| ==> r[i].0 == m[i].0
    decreases |m|
  {
    if m == [] then [(k, v)]
    else if m[0].0 == k then [(k, v)] + m[1..]
    else
      var r := [m[0]] + DictSet(m[1..], k, v);
      assert r[1..] == DictSet(m[1..], k, v);
      r
  }

  predicate NoDuplicates(s: seq<string>) {
    forall i, j :: 0 <= i < j < |s| ==> s[i] != s[j]
  }

  predicate DistinctKeys(m: Replacements) {
    forall i, j :: 0 <= i < j < |m| ==> m[i].0 != m[j].0
  }

  /** The three spellings keyed per year: `FY{y}`, `FY {y}`, `FYE {y}`. */
  function Prefix(kind: nat): string
    requires kind < 3
  {
    if kind == 0 then "FY" else if kind == 1 then "FY " else "FYE "
  }

  /** The `kind`-th entry for year `y`: its spelling with `y` mapped to the same spelling with `fy`. */
  function YearEntry(kind: nat, y: string, fy: string): (string, string)
    requires kind < 3
  {
    (Prefix(kind) + y, Prefix(kind) + fy)
  }

  /** The loop over the years: three assignments per year. */
  function YearEntries(years: seq<string>, fy: string): Replacements
    decreases |years|
  {
    if years == [] then []
    else
      var y := years[|years| - 1];
      var m := YearEntries(years[..|years| - 1], fy);
      DictSet(DictSet(DictSet(m, Prefix(0) + y, Prefix(0) + fy), Prefix(1) + y, Prefix(1) + fy), Prefix(2) + y, Prefix(2) + fy)
  }

  const ReportDateKey: string := "Report Date"

  /**
    `repl` for the years in the order the set yields them: the year entries,
    then `"Report Date"` when a report date was given.
   */
  function BuildReplacements(years: seq<string>, newFy: nat, reportDate: string): Replacements {
    var m := YearEntries(years, NatToString(newFy));
    if reportDate != [] then DictSet(m, ReportDateKey, ReportDateKey + ": " + reportDate) else m
  }

  /** Keys of different years or spellings never coincide, because years are four digits. */
  lemma KeysInjective(k1: nat, y1: string, k2: nat, y2: string)
    requires k1 < 3 && k2 < 3 && FourDigits(y1) && FourDigits(y2)
    ensures Prefix(k1) + y1 == Prefix(k2) + y2 <==> k1 == k2 && y1 == y2
  {
    if Prefix(k1) + y1 == Prefix(k2) + y2 {
      var a, b := Prefix(k1) + y1, Prefix(k2) + y2;
      assert a[2] == b[2];
      assert k1 == k2;
      assert a[|Prefix(k1)|..] == y1;
      assert b[|Prefix(k2)|..] == y2;
    }
  }

  /** No year key is `"Report Date"`. */
  lemma ReportDateNotYearKey(k: nat, y: string)
    requires k < 3
    ensures Prefix(k) + y != ReportDateKey
  {
    assert (Prefix(k) + y)[0] == 'F';
  }

  /** The entries laid out for the years `years`: entry `i` belongs to year `i / 3`. */
  predicate Laid(m: Replacements, years: seq<string>, fy: string) {
    && |m| == 3 * |years|
    && forall i :: 0 <= i < |m| ==> m[i] == YearEntry(i % 3, years[i / 3], fy)
  }

  /** Because the keys are all new, every assignment appends: entry `i` belongs to year `i / 3`. */
  lemma {:induction false} YearEntriesLayout(years: seq<string>, fy: string)
    requires NoDuplicates(years)
    requires forall j :: 0 <= j < |years| ==> FourDigits(years[j])
    ensures |YearEntries(years, fy)| == 3 * |years|
    ensures forall i :: 0 <= i < 3 * |years| ==> YearEntries(years, fy)[i] == YearEntry(i % 3, years[i / 3], fy)
    decreases |years|
  {
    if years != [] {
      var n := |years| - 1;
      var init := years[..n];
      var m := YearEntries(init, fy);
      YearEntriesLayout(init, fy);
      assert Laid(m, init, fy);
      NewYearFresh(years, m, fy);
      YearEntriesAppend(m, years[n], fy);
      LaidSnoc(years, m, fy);
    }
  }

  /** The keys of the last year are not among the entries laid out for the years before it. */
  lemma NewYearFresh(years: seq<string>, m: Replacements, fy: string)
    requires years != [] && NoDuplicates(years)
    requires forall j :: 0 <= j < |years| ==> FourDigits(years[j])
    requires Laid(m, years[..|years| - 1], fy)
    ensures forall kind :: 0 <= kind < 3 ==> Fresh(m, Prefix(kind) + years[|years| - 1])
  {
    var n := |years| - 1;
    var y := years[n];
    forall kind | 0 <= kind < 3
      ensures Fresh(m, Prefix(kind) + y)
    {
      forall i | 0 <= i < |m|
        ensures m[i].0 != Prefix(kind) + y
      {
        var j := i / 3;
        assert years[..n][j] == years[j];
        KeysInjective(i % 3, years[j], kind, y);
      }
    }
  }

  /** Appending the three entries of the last year extends the layout to all the years. */
  lemma LaidSnoc(years: seq<string>, m: Replacements, fy: string)
    requires years != [] && Laid(m, years[..|years| - 1], fy)
    ensures var y := years[|years| - 1];
      Laid(m + [YearEntry(0, y, fy), YearEntry(1, y, fy), YearEntry(2, y, fy)], years, fy)
  {
    var n := |years| - 1;
    var y := years[n];
    var r := m + [YearEntry(0, y, fy), YearEntry(1, y, fy), YearEntry(2, y, fy)];
    forall i | 0 <= i < |r|
      ensures r[i] == YearEntry(i % 3, years[i / 3], fy)
    {
      if i >= 3 * n {
        DivMod3(n, i - 3 * n);
      } else {
        assert years[..n][i / 3] == years[i / 3];
      }
    }
  }

  lemma DivMod3(j: nat, kind: nat)
    requires kind < 3
    ensures (3 * j + kind) / 3 == j && (3 * j + kind) % 3 == kind
  {
  }

  lemma YearEntriesAppend(m: Replacements, y: string, fy: string)
    requires FourDigits(y)
    requires Fresh(m, Prefix(0) + y) && Fresh(m, Prefix(1) + y) && Fresh(m, Prefix(2) + y)
    ensures DictSet(DictSet(DictSet(m, Prefix(0) + y, Prefix(0) + fy), Prefix(1) + y, Prefix(1) + fy), Prefix(2) + y, Prefix(2) + fy)
            == m + [YearEntry(0, y, fy), YearEntry(1, y, fy), YearEntry(2, y, fy)]
  {
    var e0, e1, e2 := YearEntry(0, y, fy), YearEntry(1, y, fy), YearEntry(2, y, fy);
    KeysInjective(0, y, 1, y);
    KeysInjective(0, y, 2, y);
    KeysInjective(1, y, 2, y);
    var m1 := DictSet(m, e0.0, e0.1);
    assert m1 == m + [e0] by { DictSetFresh(m, e0.0, e0.1); }
    FreshAppend(m, e0, e1.0);
    FreshAppend(m, e0, e2.0);
    var m2 := DictSet(m1, e1.0, e1.1);
    assert m2 == m1 + [e1] by { DictSetFresh(m1, e1.0, e1.1); }
    FreshAppend(m1, e1, e2.0);
    var m3 := DictSet(m2, e2.0, e2.1);
    assert m3 == m2 + [e2] by { DictSetFresh(m2, e2.0, e2.1); }
    assert m2 + [e2] == m + [e0, e1, e2];
  }

  lemma FreshAppend(m: Replacements, e: (string, string), k: string)
    requires Fresh(m, k) && e.0 != k
    ensures Fresh(m + [e], k)
  {
  }

  /** Assigning a key not yet present appends it. */
  lemma DictSetFresh(m: Replacements, k: string, v: string)
    requires Fresh(m, k)
    ensures DictSet(m, k, v) == m + [(k, v)]
  {
    LookupNoneIff(m, k);
  }

  /** The year entries have pairwise different keys. */
  lemma YearEntriesDistinct(years: seq<string>, fy: string)
    requires NoDuplicates(years)
    requires forall j :: 0 <= j < |years| ==> FourDigits(years[j])
    ensures DistinctKeys(YearEntries(years, fy))
  {
    var m := YearEntries(years, fy);
    YearEntriesLayout(years, fy);
    forall i, j | 0 <= i < j < |m|
      ensures m[i].0 != m[j].0
    {
      KeysInjective(i % 3, years[i / 3], j % 3, years[j / 3]);
    }
  }

  /**
    The map holds, in order, the three entries of each year and then, iff a
    report date was given, `"Report Date"` mapped to `"Report Date: <date>"`;
    no key appears twice.
   */
  lemma BuildReplacementsLayout(years: seq<string>, newFy: nat, reportDate: string)
    requires NoDuplicates(years)
    requires forall j :: 0 <= j < |years| ==> FourDigits(years[j])
    ensures var r := BuildReplacements(years, newFy, reportDate);
      && |r| == 3 * |years| + (if reportDate != [] then 1 else 0)
      && (forall i :: 0 <= i < 3 * |years| ==> r[i] == YearEntry(i % 3, years[i / 3], NatToString(newFy)))
      && (reportDate != [] ==> r[3 * |years|] == (ReportDateKey, ReportDateKey + ": " + reportDate))
      && DistinctKeys(r)
  {
    var fy := NatToString(newFy);
    var m := YearEntries(years, fy);
    YearEntriesLayout(years, fy);
    YearEntriesDistinct(years, fy);
    if reportDate != [] {
      var e := (ReportDateKey, ReportDateKey + ": " + reportDate);
      ReportDateFresh(years, fy);
      DictSetFresh(m, e.0, e.1);
      DistinctSnoc(m, e);
    }
  }

  /** `"Report Date"` is not among the year entries. */
  lemma ReportDateFresh(years: seq<string>, fy: string)
    requires NoDuplicates(years)
    requires forall j :: 0 <= j < |years| ==> FourDigits(years[j])
    ensures Fresh(YearEntries(years, fy), ReportDateKey)
  {
    var m := YearEntries(years, fy);
    YearEntriesLayout(years, fy);
    forall i | 0 <= i < |m|
      ensures m[i].0 != ReportDateKey
    {
      ReportDateNotYearKey(i % 3, years[i / 3]);
    }
  }

  lemma DistinctSnoc(m: Replacements, e: (string, string))
    requires DistinctKeys(m) && Fresh(m, e.0)
    ensures DistinctKeys(m + [e])
  {
    var r := m + [e];
    assert forall i :: 0 <= i < |m| ==> r[i] == m[i];
  }

  /** Looked up as a dict, each spelling of each year maps to the same spelling of the new year. */
  lemma BuildReplacementsLookup(years: seq<string>, newFy: nat, reportDate: string)
    requires NoDuplicates(years)
    requires forall j :: 0 <= j < |years| ==> FourDigits(years[j])
    ensures var r := BuildReplacements(years, newFy, reportDate);
      && (forall j, kind :: 0 <= j < |years| && 0 <= kind < 3 ==>
            Lookup(r, Prefix(kind) + years[j]) == Some(Prefix(kind) + NatToString(newFy)))
      && Lookup(r, ReportDateKey) == (if reportDate != [] then Some(ReportDateKey + ": " + reportDate) else None)
  {
    var fy := NatToString(newFy);
    var m := YearEntries(years, fy);
    var r := BuildReplacements(years, newFy, reportDate);
    BuildReplacementsLayout(years, newFy, reportDate);
    forall j, kind | 0 <= j < |years| && 0 <= kind < 3
      ensures Lookup(r, Prefix(kind) + years[j]) == Some(Prefix(kind) + fy)
    {
      YearKeyLookup(r, years, fy, j, kind);
    }
    if reportDate != [] {
      LookupDistinct(r, 3 * |years|);
    } else {
      ReportDateFresh(years, fy);
      LookupNoneIff(m, ReportDateKey);
    }
  }

  /** A year's key, looked up in a map laid out year by year, yields the same spelling of `fy`. */
  lemma YearKeyLookup(r: Replacements, years: seq<string>, fy: string, j: nat, kind: nat)
    requires DistinctKeys(r) && 3 * |years| <= |r|
    requires forall i :: 0 <= i < 3 * |years| ==> r[i] == YearEntry(i % 3, years[i / 3], fy)
    requires j < |years| && kind < 3
    ensures Lookup(r, Prefix(kind) + years[j]) == Some(Prefix(kind) + fy)
  {
    DivMod3(j, kind);
    LookupDistinct(r, 3 * j + kind);
  }

  /** In a map without repeated keys, looking up the key of entry `i` yields entry `i`'s value. */
  lemma {:induction false} LookupDistinct(m: Replacements, i: nat)
    requires DistinctKeys(m) && i < |m|
    ensures Lookup(m, m[i].0) == Some(m[i].1)
    decreases i
  {
    if i > 0 {
      assert m[1..][i - 1] == m[i];
      LookupDistinct(m[1..], i - 1);
    }
  }
}
