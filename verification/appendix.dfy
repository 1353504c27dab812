/**
  The sections the roll-forward appends after the body: the benchmark
  summary, the client-information bullets and the industry update, whose
  numbered references `[^i]` are matched by numbered source lines `^i url`.
 */
module Appendix {
  import opened Optional
  import opened PyStr
  import opened PyText
  import opened Decimal
  import opened Docx
  import opened Benchmark
  import opened Lines
  import opened Footnotes

  const Bullet: string := "\U{2022} "
  const BenchmarkHeader: string := "\nEconomic Analysis \U{2014} Benchmark Update: "
  const ClientHeader: string := "\nClient Information Provided:"
  const IndustryHeader: string := "Industry Update (Current Year)"
  const SourcesHeader: string := "Sources:"

  /** The benchmark summary, only for a study that was loaded and has rows. */
  function BenchmarkSection(bench: Option<seq<string>>): (ps: seq<Paragraph>)
    ensures ps != [] <==> bench.Some? && bench.value != []
    ensures ps != [] ==> |ps| == 2 && Text(ps[0]) == BenchmarkHeader && ps[0].runs[0].bold == Some(true)
                         && Text(ps[1]) == Summarize(bench.value)
  {
    match bench
    case None => []
    case Some(rows) =>
      if rows == [] then []
      else [BoldParagraph(BenchmarkHeader), NewParagraph(Summarize(rows))]
  }

  /** One `"• " + line` paragraph per cleaned line. */
  function Bullets(lines: seq<string>): (ps: seq<Paragraph>)
    ensures |ps| == |lines|
    ensures forall i :: 0 <= i < |lines| ==> Text(ps[i]) == Bullet + lines[i]
  {
    seq(|lines|, i requires 0 <= i < |lines| => NewParagraph(Bullet + lines[i]))
  }

  /** The client-information section, only for a non-empty text. */
  function ClientSection(irl: Option<string>): (ps: seq<Paragraph>)
    ensures ps != [] <==> irl.Some? && irl.value != []
    ensures ps != [] ==> Text(ps[0]) == ClientHeader && ps[0].runs[0].bold == Some(true)
                         && ps[1..] == Bullets(CleanLines(irl.value))
  {
    match irl
    case None => []
    case Some(text) =>
      if text == [] then [] else [BoldParagraph(ClientHeader)] + Bullets(CleanLines(text))
  }

  /** Each bullet, with its marker removed, is the client line it was made from, so the bullets follow the lines one for one. */
  lemma BulletsSpellLines(lines: seq<string>)
    ensures forall i :: 0 <= i < |lines| ==>
              StartsWith(Text(Bullets(lines)[i]), Bullet) && Text(Bullets(lines)[i])[|Bullet|..] == lines[i]
  {
    forall i | 0 <= i < |lines|
      ensures StartsWith(Text(Bullets(lines)[i]), Bullet) && Text(Bullets(lines)[i])[|Bullet|..] == lines[i]
    {
      var t := Bullet + lines[i];
      assert t[..|Bullet|] == Bullet;
      assert t[|Bullet|..] == lines[i];
    }
  }

  /** The reference paragraphs, numbered from 1. */
  function References(urls: seq<string>, title: string -> string): (ps: seq<Paragraph>)
    ensures |ps| == |urls|
    ensures forall i :: 0 <= i < |urls| ==> Text(ps[i]) == RefLine(title(urls[i]), i + 1)
  {
    seq(|urls|, i requires 0 <= i < |urls| => NewParagraph(RefLine(title(urls[i]), i + 1)))
  }

  /** The source paragraphs, numbered from 1. */
  function Sources(urls: seq<string>): (ps: seq<Paragraph>)
    ensures |ps| == |urls|
    ensures forall i :: 0 <= i < |urls| ==> Text(ps[i]) == SourceLine(i + 1, urls[i])
  {
    seq(|urls|, i requires 0 <= i < |urls| => NewParagraph(SourceLine(i + 1, urls[i])))
  }

  /**
    The industry update, only for a non-empty URL list: a blank paragraph,
    the heading, one reference per URL, `Sources:` and one source per URL.
    `title` stands for the page title fetched for a URL.
   */
  function IndustrySection(urls: seq<string>, title: string -> string): (ps: seq<Paragraph>)
    ensures ps != [] <==> urls != []
    ensures ps != [] ==> |ps| == 2 * |urls| + 3
    ensures ps != [] ==> Text(ps[0]) == "" && Text(ps[1]) == IndustryHeader && Text(ps[|urls| + 2]) == SourcesHeader
    ensures ps != [] ==> ps[2..|urls| + 2] == References(urls, title) && ps[|urls| + 3..] == Sources(urls)
  {
    if urls == [] then []
    else
      var ps := [NewParagraph(""), NewParagraph(IndustryHeader)] + References(urls, title)
                + [NewParagraph(SourcesHeader)] + Sources(urls);
      assert ps[2..|urls| + 2] == References(urls, title);
      assert ps[|urls| + 3..] == Sources(urls);
      ps
  }

  /**
    The i-th reference (counting from 1) and the i-th source line carry the
    same number i, the reference names the URL's title and the source line
    the URL itself: the numbers run 1, 2, …, n in both lists.
   */
  lemma FootnotesCorrespond(urls: seq<string>, title: string -> string)
    ensures forall i :: 0 <= i < |urls| ==>
              ParseRef(Text(References(urls, title)[i])) == Some((title(urls[i]), i + 1))
              && ParseSource(Text(Sources(urls)[i])) == Some((i + 1, urls[i]))
  {
    ReferencesNumbered(urls, title);
    SourcesNumbered(urls);
  }

  lemma ReferencesNumbered(urls: seq<string>, title: string -> string)
    ensures forall i :: 0 <= i < |urls| ==>
              ParseRef(Text(References(urls, title)[i])) == Some((title(urls[i]), i + 1))
  {
    forall i | 0 <= i < |urls|
      ensures ParseRef(Text(References(urls, title)[i])) == Some((title(urls[i]), i + 1))
    {
      RefLineRoundTrip(title(urls[i]), i + 1);
    }
  }

  lemma SourcesNumbered(urls: seq<string>)
    ensures forall i :: 0 <= i < |urls| ==> ParseSource(Text(Sources(urls)[i])) == Some((i + 1, urls[i]))
  {
    forall i | 0 <= i < |urls|
      ensures ParseSource(Text(Sources(urls)[i])) == Some((i + 1, urls[i]))
    {
      SourceLineRoundTrip(i + 1, urls[i]);
    }
  }

  /** The industry update holds one `Sources:` paragraph when there is a URL and none otherwise. */
  lemma SourcesHeaderOnce(urls: seq<string>, title: string -> string)
    ensures CountText(IndustrySection(urls, title), SourcesHeader) == if urls == [] then 0 else 1
  {
    if urls != [] {
      var refs := References(urls, title);
      var srcs := Sources(urls);
      var lead := [NewParagraph(""), NewParagraph(IndustryHeader)];
      var header := [NewParagraph(SourcesHeader)];
      NoHeaderInReferences(urls, title);
      NoHeaderInSources(urls);
      CountTextNone(lead, SourcesHeader);
      assert CountText(header, SourcesHeader) == 1;
      CountTextAppend(lead, refs, SourcesHeader);
      CountTextAppend(lead + refs, header, SourcesHeader);
      CountTextAppend(lead + refs + header, srcs, SourcesHeader);
    }
  }

  lemma NoHeaderInReferences(urls: seq<string>, title: string -> string)
    ensures CountText(References(urls, title), SourcesHeader) == 0
  {
    var refs := References(urls, title);
    forall i | 0 <= i < |refs| ensures Text(refs[i]) != SourcesHeader {
      assert Text(refs[i])[0] == '-';
    }
    CountTextNone(refs, SourcesHeader);
  }

  lemma NoHeaderInSources(urls: seq<string>)
    ensures CountText(Sources(urls), SourcesHeader) == 0
  {
    var srcs := Sources(urls);
    forall i | 0 <= i < |srcs| ensures Text(srcs[i]) != SourcesHeader {
      assert Text(srcs[i])[0] == ' ';
    }
    CountTextNone(srcs, SourcesHeader);
  }

  /** Everything appended after the body, in the order the sections are added. */
  function Sections(bench: Option<seq<string>>, irl: Option<string>, urls: seq<string>, title: string -> string): seq<Paragraph> {
    BenchmarkSection(bench) + ClientSection(irl) + IndustrySection(urls, title)
  }

  /** Appends the sections to the body; existing paragraphs and the tables stay as they are. */
  function AppendSections(d: Doc, bench: Option<seq<string>>, irl: Option<string>, urls: seq<string>,
                          title: string -> string): (r: Doc)
    ensures r.tables == d.tables
    ensures |r.body| == |d.body| + |Sections(bench, irl, urls, title)|
    ensures r.body[..|d.body|] == d.body && r.body[|d.body|..] == Sections(bench, irl, urls, title)
  {
    var r := Doc(d.body + Sections(bench, irl, urls, title), d.tables);
    assert r.body[..|d.body|] == d.body;
    r
  }
}
