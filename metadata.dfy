/**
 * The metadata written next to a chapter's pages: the ComicBookInfo record, the ComicRack
 * ComicInfo record and a plain record, all built by NewMetadata from what a manga and a
 * chapter provide. The clock reading is a parameter.
 */
module Metadata {
  import opened Sequences

  /** What NewMetadata asks of a manga, as a plain record: the values its interface returns. */
  datatype MangaProvider = MangaProvider(
    titles: map<string, string>,
    descriptions: map<string, string>,
    publisher: string,
    year: int,
    authorsArr: seq<string>,
    authors: string,
    artistsArr: seq<string>,
    artists: string,
    tagsArr: seq<string>,
    tags: string,
    linksArr: seq<string>,
    links: string)
  {
    /** The title in `language`, "" when there is none. */
    function Title(language: string): (t: string)
      ensures language in titles ==> t == titles[language]
      ensures language !in titles ==> t == ""
    {
      if language in titles then titles[language] else ""
    }

    /** The description in `language`, "" when there is none. */
    function Description(language: string): (d: string)
      ensures language in descriptions ==> d == descriptions[language]
      ensures language !in descriptions ==> d == ""
    {
      if language in descriptions then descriptions[language] else ""
    }
  }

  /** What NewMetadata asks of a chapter. */
  datatype ChapterProvider = ChapterProvider(title: string, number: string, volume: string, language: string,
                                             pagesCount: int)

  datatype Credit = Credit(person: string, role: string)

  datatype ComicBookInfo = ComicBookInfo(series: string, title: string, publisher: string, issue: string,
                                         volume: string, language: string, credits: seq<Credit>, tags: seq<string>)

  datatype ComicBookMetadata = ComicBookMetadata(appId: string, lastModified: string, info: ComicBookInfo)

  datatype ComicInfoMetadata = ComicInfoMetadata(
    xmlName: string,
    title: string,
    number: string,
    volume: string,
    year: int,
    writer: string,
    penciller: string,
    inker: string,
    publisher: string,
    pageCount: int,
    languageIso: string,
    format: string,
    manga: string,
    summary: string)

  datatype PlainMetadata = PlainMetadata(authors: string, artists: string, tags: string)

  datatype Metadata = Metadata(cbi: ComicBookMetadata, ci: ComicInfoMetadata, p: PlainMetadata)

  const WriterRole: string := "Writer"
  const ArtistRole: string := "Artist"
  const ComicInfoName: string := "ComicInfo"
  const ComicBookFormat: string := "Comic Book"
  const NotManga: string := "No"
  const SummaryHeader: string := "<br>Read or Buy here:<br>"
  const LineBreak: string := "<br>"

  /** Every author as a "Writer", in order, then every artist as an "Artist", in order. */
  function CreditsOf(authors: seq<string>, artists: seq<string>): (cs: seq<Credit>)
    ensures |cs| == |authors| + |artists|
    ensures forall i :: 0 <= i < |authors| ==> cs[i] == Credit(authors[i], WriterRole)
    ensures forall j :: 0 <= j < |artists| ==> cs[|authors| + j] == Credit(artists[j], ArtistRole)
  {
    seq(|authors|, i requires 0 <= i < |authors| => Credit(authors[i], WriterRole))
      + seq(|artists|, j requires 0 <= j < |artists| => Credit(artists[j], ArtistRole))
  }

  /** The two append loops of NewMetadata. */
  method BuildCredits(authors: seq<string>, artists: seq<string>) returns (credits: seq<Credit>)
    ensures credits == CreditsOf(authors, artists)
  {
    credits := [];
    for i := 0 to |authors|
      invariant |credits| == i
      invariant forall k :: 0 <= k < i ==> credits[k] == Credit(authors[k], WriterRole)
    {
      credits := credits + [Credit(authors[i], WriterRole)];
    }
    for j := 0 to |artists|
      invariant |credits| == |authors| + j
      invariant forall k :: 0 <= k < |authors| ==> credits[k] == Credit(authors[k], WriterRole)
      invariant forall k :: 0 <= k < j ==> credits[|authors| + k] == Credit(artists[k], ArtistRole)
    {
      credits := credits + [Credit(artists[j], ArtistRole)];
    }
  }

  /** Each link followed by "<br>", in order. */
  function LinkLines(links: seq<string>): string
    decreases |links|
  {
    if links == [] then ""
    else LinkLines(links[..|links| - 1]) + links[|links| - 1] + LineBreak
  }

  lemma LinkLinesSnoc(links: seq<string>, link: string)
    ensures LinkLines(links + [link]) == LinkLines(links) + link + LineBreak
  {
    assert (links + [link])[..|links|] == links;
  }

  /** The lines of two runs of links follow each other. */
  lemma {:induction false} LinkLinesConcat(a: seq<string>, b: seq<string>)
    ensures LinkLines(a + b) == LinkLines(a) + LinkLines(b)
    decreases |b|
  {
    if b == [] {
      assert a + b == a;
    } else {
      var init, last := b[..|b| - 1], b[|b| - 1];
      assert a + b == (a + init) + [last];
      assert b == init + [last];
      LinkLinesSnoc(a + init, last);
      LinkLinesSnoc(init, last);
      LinkLinesConcat(a, init);
    }
  }

  /** The English description, the "Read or Buy here" line, then every link on a line of its own. */
  function SummaryOf(description: string, links: seq<string>): string
  {
    description + SummaryHeader + LinkLines(links)
  }

  /** The `+=` loop of NewMetadata. */
  method BuildSummary(description: string, links: seq<string>) returns (summary: string)
    ensures summary == SummaryOf(description, links)
  {
    summary := description + SummaryHeader;
    for i := 0 to |links|
      invariant summary == description + SummaryHeader + LinkLines(links[..i])
    {
      assert links[..i + 1] == links[..i] + [links[i]];
      LinkLinesSnoc(links[..i], links[i]);
      summary := summary + links[i] + LineBreak;
    }
    assert links[..|links|] == links;
  }

  /**
   * The summary starts with the description and the "Read or Buy here" line, and the `i`-th
   * link sits, followed by "<br>", right after the lines of the links before it.
   */
  lemma SummaryHoldsLinks(description: string, links: seq<string>, i: int)
    requires 0 <= i < |links|
    ensures var s, p := SummaryOf(description, links), |description + SummaryHeader + LinkLines(links[..i])|;
            s[..|description + SummaryHeader|] == description + SummaryHeader
            && p + |links[i]| + 4 <= |s| && s[p..p + |links[i]| + 4] == links[i] + LineBreak
  {
    var before, rest := links[..i], links[i + 1..];
    assert links == before + [links[i]] + rest;
    LinkLinesConcat(before + [links[i]], rest);
    LinkLinesSnoc(before, links[i]);
    var h := description + SummaryHeader;
    var s := SummaryOf(description, links);
    assert s == h + LinkLines(before) + (links[i] + LineBreak) + LinkLines(rest);
    var p := |h + LinkLines(before)|;
    assert s[p..p + |links[i]| + 4] == links[i] + LineBreak;
  }

  /** The series and ComicInfo title: "language | title volV chN". */
  function SeriesTitle(language: string, title: string, volume: string, number: string): string
  {
    language + " | " + title + " vol" + volume + " ch" + number
  }

  /** The records NewMetadata builds for manga `m` and chapter `c` at time `lastModified`. */
  function MetadataOf(appId: string, m: MangaProvider, c: ChapterProvider, lastModified: string): (md: Metadata)
    ensures md.cbi.info.series == md.ci.title == SeriesTitle(c.language, m.Title("en"), c.volume, c.number)
    ensures md.cbi.info.issue == md.ci.number == c.number && md.cbi.info.volume == md.ci.volume == c.volume
    ensures md.cbi.info.language == md.ci.languageIso == c.language && md.cbi.info.title == c.title
    ensures md.cbi.info.publisher == md.ci.publisher == m.publisher && md.ci.year == m.year
    ensures md.cbi.info.credits == CreditsOf(m.authorsArr, m.artistsArr) && md.cbi.info.tags == m.tagsArr
    ensures md.ci.summary == SummaryOf(m.Description("en"), m.linksArr)
    ensures md.ci.writer == m.authors && md.ci.penciller == md.ci.inker == m.artists
    ensures md.p == PlainMetadata(m.authors, m.artists, m.tags)
    ensures md.ci.format == ComicBookFormat && md.ci.manga == NotManga && md.ci.xmlName == ComicInfoName
    ensures md.cbi.appId == appId && md.cbi.lastModified == lastModified && md.ci.pageCount == c.pagesCount
  {
    var title := SeriesTitle(c.language, m.Title("en"), c.volume, c.number);
    Metadata(
      ComicBookMetadata(appId, lastModified,
        ComicBookInfo(title, c.title, m.publisher, c.number, c.volume, c.language,
                      CreditsOf(m.authorsArr, m.artistsArr), m.tagsArr)),
      ComicInfoMetadata(ComicInfoName, title, c.number, c.volume, m.year, m.authors, m.artists, m.artists,
                        m.publisher, c.pagesCount, c.language, ComicBookFormat, NotManga,
                        SummaryOf(m.Description("en"), m.linksArr)),
      PlainMetadata(m.authors, m.artists, m.tags))
  }

  /** NewMetadata, with the UTC clock reading passed in as `lastModified`. */
  method NewMetadata(appId: string, m: MangaProvider, c: ChapterProvider, lastModified: string) returns (md: Metadata)
    ensures md == MetadataOf(appId, m, c, lastModified)
  {
    var credits := BuildCredits(m.authorsArr, m.artistsArr);
    var mangaTitle := c.language + " | " + m.Title("en") + " vol" + c.volume + " ch" + c.number;
    var mangaDescription := BuildSummary(m.Description("en"), m.linksArr);
    md := Metadata(
      ComicBookMetadata(appId, lastModified,
        ComicBookInfo(mangaTitle, c.title, m.publisher, c.number, c.volume, c.language, credits, m.tagsArr)),
      ComicInfoMetadata(ComicInfoName, mangaTitle, c.number, c.volume, m.year, m.authors, m.artists, m.artists,
                        m.publisher, c.pagesCount, c.language, ComicBookFormat, NotManga, mangaDescription),
      PlainMetadata(m.authors, m.artists, m.tags));
  }

  /** Two builds from the same inputs differ at most in the time stamp. */
  lemma OnlyTimeStampDiffers(appId: string, m: MangaProvider, c: ChapterProvider, t1: string, t2: string)
    ensures var a, b := MetadataOf(appId, m, c, t1), MetadataOf(appId, m, c, t2);
            a.ci == b.ci && a.p == b.p && a.cbi.appId == b.cbi.appId && a.cbi.info == b.cbi.info
            && (a == b <==> t1 == t2)
  {
  }
}
