/**
 * The earlier snapshot of the MangaDex client: a link is parsed as given, without a
 * scheme put in front; GetChapters keeps repeated numbers; and the window loop starts at
 * offset 0 for a low bound of at most 10 and pages up to at least offset 10. The error
 * message and the manga accessors of this snapshot are the code of ErrorFormat and Manga.
 */
module ClientApi {
  import opened Wrappers
  import opened Strings
  import opened Urls
  import opened Chapters
  import opened Api

  // Manga ids in links.

  /** The id in a link parsed exactly as given. */
  function GetMangaIdFromUrl(link: string): string
  {
    IdFromParsed(Parse(link))
  }

  /** "https://mangadex.org/kind/id" followed by a path tail gives the id, as in the later client. */
  lemma MangaIdFromHttpsLink(kind: string, id: string, tail: string)
    requires IsSegment(kind) && IsSegment(id) && IsPathTail(tail)
    ensures GetMangaIdFromUrl("https://" + MangaDexHost + "/" + kind + "/" + id + tail) == id
  {
    var link := "https://" + MangaDexHost + "/" + kind + "/" + id + tail;
    Api.MangaIdFromHttpsLink(kind, id, tail);
    assert link[..8] == "https://";
    SameIdWithScheme(link);
  }

  /** With an explicit scheme both clients read the id from the same parsed link. */
  lemma SameIdWithScheme(link: string)
    requires HasPrefix(link, "https://")
    ensures GetMangaIdFromUrl(link) == Api.GetMangaIdFromUrl(link)
  {
  }

  /**
   * Without a scheme, "mangadex.org/kind/id" parses as a relative path with no host and
   * gives "", while the later client reads the id out of the same link.
   */
  lemma BareLinkHasNoId(kind: string, id: string, tail: string)
    requires IsSegment(kind) && IsSegment(id) && IsPathTail(tail)
    ensures GetMangaIdFromUrl(MangaDexHost + "/" + kind + "/" + id + tail) == ""
    ensures Api.GetMangaIdFromUrl(MangaDexHost + "/" + kind + "/" + id + tail) == id
  {
    var pathTail := "/" + kind + "/" + id + tail;
    assert MangaDexHost + "/" + kind + "/" + id + tail == MangaDexHost + pathTail;
    PathTailOfSegments(kind, id, tail);
    MangaDexHostPlain();
    ParseWithoutScheme(MangaDexHost, pathTail);
    MangaIdFromBareLink(kind, id, tail);
  }

  /** The id each argument yields, in argument order. */
  function IdsOfArgs(args: seq<string>): (ids: seq<string>)
    ensures |ids| == |args|
    decreases |args|
  {
    if args == [] then [] else [GetMangaIdFromUrl(args[0])] + IdsOfArgs(args[1..])
  }

  lemma {:induction false} IdsOfArgsAt(args: seq<string>)
    ensures forall i :: 0 <= i < |args| ==> IdsOfArgs(args)[i] == GetMangaIdFromUrl(args[i])
    decreases |args|
  {
    if args != [] {
      var rest := IdsOfArgs(args[1..]);
      assert IdsOfArgs(args) == [GetMangaIdFromUrl(args[0])] + rest;
      IdsOfArgsAt(args[1..]);
      forall i | 1 <= i < |args| ensures IdsOfArgs(args)[i] == GetMangaIdFromUrl(args[i]) {
        assert IdsOfArgs(args)[i] == rest[i - 1];
        assert args[1..][i - 1] == args[i];
      }
    }
  }

  /**
   * The id of the first argument that yields one, in argument order, or "" when none
   * does.
   */
  method GetMangaIdFromArg(args: seq<string>) returns (id: string)
    ensures id == FirstNonEmpty(IdsOfArgs(args))
  {
    for i := 0 to |args|
      invariant FirstNonEmpty(IdsOfArgs(args)) == FirstNonEmpty(IdsOfArgs(args[i..]))
    {
      var u := GetMangaIdFromUrl(args[i]);
      assert args[i..][0] == args[i] && args[i..][1..] == args[i + 1..];
      assert IdsOfArgs(args[i..]) == [u] + IdsOfArgs(args[i + 1..]);
      if u != "" {
        return u;
      }
    }
    assert args[|args|..] == [];
    return "";
  }

  /**
   * GetMangaIdFromArg gives "" exactly when every argument yields "", and otherwise the
   * id of an argument all of whose predecessors yield "".
   */
  lemma FirstArgumentId(args: seq<string>)
    ensures var id := FirstNonEmpty(IdsOfArgs(args));
            (id == "" <==> forall i :: 0 <= i < |args| ==> GetMangaIdFromUrl(args[i]) == "")
            && (id != "" ==> exists i :: 0 <= i < |args| && id == GetMangaIdFromUrl(args[i])
                                         && forall j :: 0 <= j < i ==> GetMangaIdFromUrl(args[j]) == "")
  {
    IdsOfArgsAt(args);
  }

  // The earlier page selection.

  /**
   * The entries whose number (or the integer part of an "a.b" number) lies in
   * [lowest, highest] and whose translator contains `group`, repeats included; and the
   * number of extra chapters.
   */
  method GetChapters(list: ChapterList, lowest: int, highest: int, group: string) returns (found: seq<Chapter>, extra: nat)
    ensures found == Filtered(list.data, InRange(lowest, highest, group))
    ensures extra == CountExtra(list.data)
  {
    var data := list.data;
    if |data| == 0 {
      return [], 0;
    }
    ghost var sel := InRange(lowest, highest, group);
    found := [];
    extra := 0;
    for i := 0 to |data|
      invariant found == Filtered(data[..i], sel)
      invariant extra == CountExtra(data[..i])
    {
      assert data[..i + 1] == data[..i] + [data[i]];
      FilteredStep(data[..i], data[i], sel);
      CountExtraStep(data[..i], data[i]);
      found, extra := VisitChapter(found, extra, data[i], lowest, highest, group);
    }
    assert data[..|data|] == data;
  }

  /**
   * One round of the earlier GetChapters loop: the same tests as the current one, but a
   * passing entry is always kept, even when it repeats the last kept number.
   */
  method VisitChapter(found: seq<Chapter>, extra: nat, chapter: Chapter, lowest: int, highest: int, group: string)
    returns (found': seq<Chapter>, extra': nat)
    ensures found' == if Passes(InRange(lowest, highest, group), chapter) then found + [chapter] else found
    ensures extra' == extra + if IsExtra(chapter.number) then 1 else 0
  {
    found', extra' := found, extra;
    if chapter.number == "" {
      return;
    }
    var num := Atoi(chapter.number);
    if num.Some? {
      if num.value >= lowest && num.value <= highest && chapter.IsTranslatedByGroup(group) {
        found' := found' + [chapter];
      }
      return;
    }
    extra' := extra' + 1;
    var nums := Split(chapter.number, ".");
    if |nums| != 2 {
      return;
    }
    num := Atoi(nums[0]);
    if num.None? {
      return;
    }
    if num.value >= lowest && num.value <= highest && chapter.IsTranslatedByGroup(group) {
      found' := found' + [chapter];
    }
  }

  // The earlier window.

  /** The first offset: 0 for a low bound of at most 10, else the low bound. */
  function EarlyLow(lowest: int): (off: int)
    ensures lowest <= 10 ==> off == 0
    ensures lowest > 10 ==> off == lowest
  {
    if lowest <= 10 then 0 else lowest
  }

  /** The first high bound: at least 10. */
  function EarlyHigh(highest: int): (h: int)
    ensures highest < 10 ==> h == 10
    ensures highest >= 10 ==> h == highest
  {
    if highest < 10 then 10 else highest
  }

  /** The result of the earlier GetFullChaptersInfo. */
  function FullChaptersInfo(feed: Feed, images: string -> Result<ChapterImages, ApiError>, mangaId: string,
                            language: string, group: string, lowest: int, highest: int)
    : Result<seq<ChapterFullInfo>, ApiError>
  {
    if BadRange(mangaId, language, lowest, highest) then Failure(BadInput)
    else
      match Window(feed, Keep(Early, InRange(lowest, highest, group)), EarlyLow(lowest), EarlyHigh(highest))
      case Failure(e) => Failure(e)
      case Success(chapters) => FullInfos(chapters, images)
  }

  /** A successful earlier GetFullChaptersInfo returns only chapters that pass the selection. */
  lemma FullChaptersInfoSound(feed: Feed, images: string -> Result<ChapterImages, ApiError>, mangaId: string,
                              language: string, group: string, lowest: int, highest: int)
    requires FullChaptersInfo(feed, images, mangaId, language, group, lowest, highest).Success?
    ensures !BadRange(mangaId, language, lowest, highest)
    ensures var infos := FullChaptersInfo(feed, images, mangaId, language, group, lowest, highest).value;
            forall k :: 0 <= k < |infos| ==> Passes(InRange(lowest, highest, group), infos[k].info)
  {
    InfosPass(feed, images, Early, InRange(lowest, highest, group), EarlyLow(lowest), EarlyHigh(highest));
  }

  /**
   * ErrBadInput on a bad range and without any request; otherwise the window from
   * EarlyLow(lowest) to EarlyHigh(highest) with every page selected by the earlier
   * GetChapters, then one image lookup per selected chapter.
   */
  method GetFullChaptersInfo(feed: Feed, images: string -> Result<ChapterImages, ApiError>, mangaId: string,
                             language: string, group: string, lowest: int, highest: int)
    returns (r: Result<seq<ChapterFullInfo>, ApiError>)
    ensures r == FullChaptersInfo(feed, images, mangaId, language, group, lowest, highest)
  {
    if mangaId == "" || language == "" || lowest > highest || lowest < 0 || highest < 0 {
      return Failure(BadInput);
    }
    var lowBound := lowest;
    if lowBound <= 10 {
      lowBound := 0;
    }
    var highBound := highest;
    if highBound < 10 {
      highBound := 10;
    }
    ghost var keep := EarlyFilter(InRange(lowest, highest, group));
    var window := CollectPages(feed, group, lowest, highest, lowBound, highBound, keep);
    EarlyWindow(feed, keep, InRange(lowest, highest, group), lowBound, highBound);
    if window.Failure? {
      return Failure(window.error);
    }
    r := LookUpImages(window.value, images);
  }

  /** The page filter of the earlier revision, known only on pages the earlier GetChapters has read. */
  lemma EarlyFilter(sel: Selection) returns (keep: PageFilter)
    ensures forall p: seq<Chapter> {:trigger Filtered(p, sel)} :: keep(p) == Filtered(p, sel)
  {
    keep := Keep(Early, sel);
  }

  /** Such a filter gives the window of the earlier revision. */
  lemma EarlyWindow(feed: Feed, keep: PageFilter, sel: Selection, lo: int, hi: int)
    requires lo >= 0
    requires forall p: seq<Chapter> {:trigger Filtered(p, sel)} :: keep(p) == Filtered(p, sel)
    ensures Window(feed, keep, lo, hi) == Window(feed, Keep(Early, sel), lo, hi)
  {
    forall p: seq<Chapter> ensures keep(p) == Keep(Early, sel)(p) {
      assert Keep(Early, sel)(p) == Filtered(p, sel);
    }
    WindowAgree(feed, keep, Keep(Early, sel), lo, hi);
  }

  /** One round of the earlier paging loop: the feed request at `lo`, then the earlier GetChapters. */
  method PageRound(feed: Feed, lo: int, lowest: int, highest: int, group: string, ghost keep: PageFilter)
    returns (r: Result<(seq<Chapter>, nat), ApiError>)
    requires forall p: seq<Chapter> {:trigger Filtered(p, InRange(lowest, highest, group))} ::
               keep(p) == Filtered(p, InRange(lowest, highest, group))
    ensures lo in feed.failing ==> r == Failure(feed.failing[lo])
    ensures lo !in feed.failing ==> r == Success((keep(Page(feed.catalog, lo)), CountExtra(Page(feed.catalog, lo))))
  {
    if lo in feed.failing {
      return Failure(feed.failing[lo]);
    }
    var list := ChapterList(Page(feed.catalog, lo));
    var found, extra := GetChapters(list, lowest, highest, group);
    return Success((found, extra));
  }

  /** The paging loop of the earlier GetFullChaptersInfo. */
  method CollectPages(feed: Feed, group: string, lowest: int, highest: int, lowBound: int, highBound: int,
                      ghost keep: PageFilter)
    returns (r: Result<seq<Chapter>, ApiError>)
    requires lowBound >= 0
    requires forall p: seq<Chapter> {:trigger Filtered(p, InRange(lowest, highest, group))} ::
               keep(p) == Filtered(p, InRange(lowest, highest, group))
    ensures r == Window(feed, keep, lowBound, highBound)
  {
    var chapters: seq<Chapter> := [];
    var lo, hi := lowBound, highBound;
    PrependEmpty(Window(feed, keep, lo, hi));
    while lo <= hi
      invariant lo >= 0
      invariant Collected(feed, keep, lowBound, highBound, chapters, lo, hi)
      decreases Unread(feed.catalog, lo), hi - lo
    {
      var round := PageRound(feed, lo, lowest, highest, group, keep);
      if round.Failure? {
        CollectedFailure(feed, keep, lowBound, highBound, chapters, lo, hi);
        return Failure(round.error);
      }
      var (found, extra) := round.value;
      var nextLow, nextHigh := lo + 10, hi + extra;
      CollectedRound(feed, keep, lowBound, highBound, chapters, lo, hi, found, extra);
      chapters := chapters + found;
      lo, hi := nextLow, nextHigh;
    }
    CollectedDone(feed, keep, lowBound, highBound, chapters, lo, hi);
    return Success(chapters);
  }

  /**
   * For a low bound of at most 10 the earlier window starts at the first record, so it
   * misses no passing record up to its first high bound, wherever the numbers sit.
   */
  lemma EarlyWindowCovers(feed: Feed, group: string, lowest: int, highest: int, i: int)
    requires 0 <= lowest <= 10 && lowest <= highest
    requires Window(feed, Keep(Early, InRange(lowest, highest, group)), EarlyLow(lowest), EarlyHigh(highest)).Success?
    requires 0 <= i < |feed.catalog| && i <= EarlyHigh(highest)
    requires Passes(InRange(lowest, highest, group), feed.catalog[i])
    ensures var w := Window(feed, Keep(Early, InRange(lowest, highest, group)), EarlyLow(lowest), EarlyHigh(highest));
            exists k :: 0 <= k < |w.value| && w.value[k].number == feed.catalog[i].number
  {
    SelectionWindowCovers(feed, Early, InRange(lowest, highest, group), EarlyLow(lowest), EarlyHigh(highest), i);
  }

  /** The earlier window finds chapter "1" for the range [1, 1], which the later one skips. */
  lemma EarlyFindsFirst(c: Chapter)
    requires c.number == "1"
    ensures Window(Feed([c], map[]), Keep(Early, InRange(1, 1, "")), EarlyLow(1), EarlyHigh(1)) == Success([c])
  {
    var feed, sel := Feed([c], map[]), InRange(1, 1, "");
    var keep := Keep(Early, sel);
    assert keep([c]) == [c] by {
      assert Atoi("1") == Some(1);
      EmptyGroupMatchesAll(c);
      assert [c][..0] == [];
      assert Filtered([c], sel) == [c];
    }
    EmptyPage(sel);
    assert keep([]) == [];
    assert Page(feed.catalog, 0) == [c] && Page(feed.catalog, 10) == [];
    assert CountExtra([c]) == 0;
    WindowPage(feed, keep, 10, 10, [], []);
    WindowPage(feed, keep, 0, 10, [c], []);
    assert [c] + [] == [c];
  }
}
