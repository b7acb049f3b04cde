/**
 * The client side of the MangaDex API that does not depend on the transport: reading a
 * manga id out of a link, the input guards of the requests, the choice of the image
 * path, and the window loop that pages through a chapter feed. The feed is a finite
 * sequence of chapter records; a request for the page at an offset either fails with the
 * error recorded for that offset or returns the records in
 * [offset, offset + 10), clipped to the catalog.
 */
module Api {
  import opened Wrappers
  import opened Strings
  import opened Sequences
  import opened Urls
  import opened Chapters
  import opened ErrorFormat

  /** The errors a request can return. */
  datatype ApiError = BadInput | Connection | Upstream(body: ErrorResponse) | UnexpectedHeader

  const MangaDexHost: string := "mangadex.org"

  // Manga ids in links.

  /**
   * What GetMangaIdFromUrl does with the parsed link: "" unless the parse succeeded, the
   * host is exactly mangadex.org and the path has at least three "/"-separated parts;
   * otherwise the third part.
   */
  function IdFromParsed(parsed: Option<Url>): (id: string)
    ensures parsed.None? || parsed.value.host != MangaDexHost ==> id == ""
    ensures parsed.Some? && parsed.value.host == MangaDexHost && |Split(parsed.value.path, "/")| >= 3
            ==> id == Split(parsed.value.path, "/")[2]
    ensures parsed.Some? && |Split(parsed.value.path, "/")| < 3 ==> id == ""
  {
    match parsed
    case None => ""
    case Some(u) =>
      if u.host != MangaDexHost then ""
      else
        var paths := Split(u.path, "/");
        if |paths| < 3 then "" else paths[2]
  }

  function GetMangaIdFromUrl(link: string): string
  {
    if !HasPrefix(link, "https://") && !HasPrefix(link, "http://") then IdFromParsed(Parse("https://" + link))
    else IdFromParsed(Parse(link))
  }

  /** The parts of "/kind/id" followed by a path tail, split on "/". */
  lemma SplitMangaPath(kind: string, id: string, tail: string)
    requires '/' !in kind && '/' !in id && IsPathTail(tail)
    ensures var parts := Split("/" + kind + "/" + id + tail, "/");
            |parts| >= 3 && parts[..3] == ["", kind, id] && parts[2] == id
  {
    var path := "/" + kind + "/" + id + tail;
    var rest2 := id + tail;
    var rest1 := kind + "/" + rest2;
    assert path == "" + "/" + rest1;
    SplitAfterFirst("", "/", rest1);
    SplitAfterFirst(kind, "/", rest2);
    var last := Split(rest2, "/");
    assert last[0] == id by {
      if tail == "" {
        assert rest2 == id;
        SplitWithoutSep(id, "/");
      } else {
        assert rest2 == id + "/" + tail[1..];
        SplitAfterFirst(id, "/", tail[1..]);
      }
    }
    assert Split(path, "/") == [""] + ([kind] + last);
  }

  /** The path segments a manga link is built from: plain text without '/'. */
  predicate IsSegment(s: string)
  {
    IsPlain(s)
  }

  /** "https://mangadex.org/kind/id" followed by a path tail gives the id. */
  lemma MangaIdFromHttpsLink(kind: string, id: string, tail: string)
    requires IsSegment(kind) && IsSegment(id) && IsPathTail(tail)
    ensures GetMangaIdFromUrl("https://" + MangaDexHost + "/" + kind + "/" + id + tail) == id
  {
    var pathTail := "/" + kind + "/" + id + tail;
    assert "https://" + MangaDexHost + "/" + kind + "/" + id + tail == "https://" + MangaDexHost + pathTail;
    PathTailOfSegments(kind, id, tail);
    SplitMangaPath(kind, id, tail);
    IdOfHttpsLink(pathTail);
    assert Split(pathTail, "/")[2] == id;
  }

  /** A link "https://mangadex.org" followed by a path tail gives the path's third part. */
  lemma IdOfHttpsLink(pathTail: string)
    requires IsPathTail(pathTail) && |Split(pathTail, "/")| >= 3
    ensures GetMangaIdFromUrl("https://" + MangaDexHost + pathTail) == Split(pathTail, "/")[2]
  {
    var link := "https://" + MangaDexHost + pathTail;
    assert link[..8] == "https://";
    MangaDexHostPlain();
    ParseHttpsLink(MangaDexHost, pathTail);
  }

  lemma MangaDexHostPlain()
    ensures IsPlain(MangaDexHost) && MangaDexHost != "" && IsLetter(MangaDexHost[0])
  {
    assert forall k :: 0 <= k < |MangaDexHost| ==> !IsControl(MangaDexHost[k]);
  }

  /** "/kind/id" followed by a path tail is itself a path tail. */
  lemma PathTailOfSegments(kind: string, id: string, tail: string)
    requires IsSegment(kind) && IsSegment(id) && IsPathTail(tail)
    ensures IsPathTail("/" + kind + "/" + id + tail)
  {
    var t := "/" + kind + "/" + id + tail;
    HasControlConcat("/", kind);
    HasControlConcat("/" + kind, "/");
    HasControlConcat("/" + kind + "/", id);
    HasControlConcat("/" + kind + "/" + id, tail);
    assert !HasControl("/") by {
      assert "/"[0] == '/';
    }
  }

  /** The same link without a scheme gets "https://" and gives the same id. */
  lemma MangaIdFromBareLink(kind: string, id: string, tail: string)
    requires IsSegment(kind) && IsSegment(id) && IsPathTail(tail)
    ensures GetMangaIdFromUrl(MangaDexHost + "/" + kind + "/" + id + tail) == id
  {
    var bare := MangaDexHost + "/" + kind + "/" + id + tail;
    assert bare[0] == 'm';
    FirstCharDiffers(bare, "https://");
    FirstCharDiffers(bare, "http://");
    assert "https://" + bare == "https://" + MangaDexHost + "/" + kind + "/" + id + tail;
    MangaIdFromHttpsLink(kind, id, tail);
  }

  /** The id each argument yields, in argument order. */
  function IdsOfArgs(args: seq<string>): (ids: seq<string>)
    ensures |ids| == |args|
    decreases |args|
  {
    if args == [] then [] else [GetMangaIdFromUrl(args[0])] + IdsOfArgs(args[1..])
  }

  lemma {:induction false} IdsOfArgsAt(args: seq<string>)
    ensures forall i :: 0 <= i < |args| ==> IdsOfArgs(args)[i] == GetMangaIdFromUrl(args[i])
    decreases |args|
  {
    if args != [] {
      var rest := IdsOfArgs(args[1..]);
      assert IdsOfArgs(args) == [GetMangaIdFromUrl(args[0])] + rest;
      IdsOfArgsAt(args[1..]);
      forall i | 1 <= i < |args| ensures IdsOfArgs(args)[i] == GetMangaIdFromUrl(args[i]) {
        assert IdsOfArgs(args)[i] == rest[i - 1];
        assert args[1..][i - 1] == args[i];
      }
    }
  }

  /**
   * The id of the first argument that yields one, in argument order, or "" when none
   * does.
   */
  method GetMangaIdFromArg(args: seq<string>) returns (id: string)
    ensures id == FirstNonEmpty(IdsOfArgs(args))
  {
    for i := 0 to |args|
      invariant FirstNonEmpty(IdsOfArgs(args)) == FirstNonEmpty(IdsOfArgs(args[i..]))
    {
      var u := GetMangaIdFromUrl(args[i]);
      assert args[i..][0] == args[i] && args[i..][1..] == args[i + 1..];
      assert IdsOfArgs(args[i..]) == [u] + IdsOfArgs(args[i + 1..]);
      if u != "" {
        return u;
      }
    }
    assert args[|args|..] == [];
    return "";
  }

  /**
   * GetMangaIdFromArg gives "" exactly when every argument yields "", and otherwise the
   * id of an argument all of whose predecessors yield "".
   */
  lemma FirstArgumentId(args: seq<string>)
    ensures var id := FirstNonEmpty(IdsOfArgs(args));
            (id == "" <==> forall i :: 0 <= i < |args| ==> GetMangaIdFromUrl(args[i]) == "")
            && (id != "" ==> exists i :: 0 <= i < |args| && id == GetMangaIdFromUrl(args[i])
                                         && forall j :: 0 <= j < i ==> GetMangaIdFromUrl(args[j]) == "")
  {
    IdsOfArgsAt(args);
  }

  // Input guards.

  /** Find refuses an empty title, a zero limit and a negative offset before any request. */
  function FindGuard(title: string, limit: int, offset: int): (r: Option<ApiError>)
    ensures r.Some? <==> title == "" || limit == 0 || offset < 0
    ensures r.Some? ==> r.value == BadInput
  {
    if title == "" || limit == 0 || offset < 0 then Some(BadInput) else None
  }

  // Image download.

  const HighQualityPath: string := "/data/{chapterHash}/{imageFilename}"
  const DataSaverPath: string := "/data-saver/{chapterHash}/{imageFilename}"

  /** What the image server answered: no reply at all, an error status, or a body with its header. */
  datatype ImageReply = NoReply | ErrorStatus(body: ErrorResponse) | Image(contentType: string, bytes: seq<bv8>)

  /**
   * DownloadImage, given the server's reply to the request it sends to `ImagePath(isJpg)`.
   * On an error status the error is the response value the request was given to fill, which
   * the client passes by value: the server's body never reaches it.
   */
  function DownloadImage(baseUrl: string, chapterHash: string, imageFilename: string,
                         isJpg: bool, reply: ImageReply): (r: Result<seq<bv8>, ApiError>)
    ensures baseUrl == "" || chapterHash == "" || imageFilename == "" ==> r == Failure(BadInput)
    ensures r.Failure? && r.error.Upstream? ==> r.error.body == ErrorResponse("", [])
    ensures r.Success? <==> (baseUrl != "" && chapterHash != "" && imageFilename != ""
                            && reply.Image? && (reply.contentType == "image/jpeg" || reply.contentType == "image/png"))
    ensures r.Success? ==> r.value == reply.bytes
  {
    if baseUrl == "" || chapterHash == "" || imageFilename == "" then Failure(BadInput)
    else
      var respErr := ErrorResponse("", []);
      match reply
      case NoReply => Failure(Connection)
      case ErrorStatus(body) => Failure(Upstream(respErr))
      case Image(h, bytes) =>
        if h != "image/jpeg" && h != "image/png" then Failure(UnexpectedHeader) else Success(bytes)
  }

  /** The path template of the request: the data-saver path exactly for jpg images. */
  function ImagePath(isJpg: bool): (p: string)
    ensures p == DataSaverPath <==> isJpg
    ensures p == HighQualityPath <==> !isJpg
  {
    if isJpg then DataSaverPath else HighQualityPath
  }

  /** An error status loses the server's error body: the message is always the empty one. */
  lemma DownloadErrorBodyLost(baseUrl: string, chapterHash: string, imageFilename: string,
                              isJpg: bool, body: ErrorResponse)
    requires baseUrl != "" && chapterHash != "" && imageFilename != ""
    ensures DownloadImage(baseUrl, chapterHash, imageFilename, isJpg, ErrorStatus(body))
         == Failure(Upstream(ErrorResponse("", [])))
    ensures Message(ErrorResponse("", [])) == "result:  ; errors: []"
  {
    MessageWithoutDetails("");
  }

  /** DownloadImage as intended: an error status returns the error body the server sent. */
  function DownloadImageKeepingError(baseUrl: string, chapterHash: string, imageFilename: string,
                                     isJpg: bool, reply: ImageReply): (r: Result<seq<bv8>, ApiError>)
    ensures reply.ErrorStatus? && baseUrl != "" && chapterHash != "" && imageFilename != ""
            ==> r == Failure(Upstream(reply.body))
    ensures !reply.ErrorStatus? ==> r == DownloadImage(baseUrl, chapterHash, imageFilename, isJpg, reply)
  {
    if baseUrl == "" || chapterHash == "" || imageFilename == "" then Failure(BadInput)
    else
      match reply
      case NoReply => Failure(Connection)
      case ErrorStatus(body) => Failure(Upstream(body))
      case Image(h, bytes) =>
        if h != "image/jpeg" && h != "image/png" then Failure(UnexpectedHeader) else Success(bytes)
  }

  // The chapter feed and its window loop.

  /** The chapter catalog of one manga and language, and the offsets whose request fails. */
  datatype Feed = Feed(catalog: seq<Chapter>, failing: map<int, ApiError>)

  const PageSize: nat := 10

  function Clip(catalog: seq<Chapter>, off: int): (k: nat)
    ensures k <= |catalog|
    ensures 0 <= off <= |catalog| ==> k == off
  {
    if off < 0 then 0 else if off < |catalog| then off else |catalog|
  }

  /** The records a request with limit 10 at offset `off` returns. */
  function Page(catalog: seq<Chapter>, off: int): (p: seq<Chapter>)
    ensures |p| <= PageSize
  {
    catalog[Clip(catalog, off)..Clip(catalog, off + PageSize)]
  }

  /** The extra chapters in the records from offset `off` on. */
  function ExtraFrom(catalog: seq<Chapter>, off: int): nat
  {
    CountExtra(catalog[Clip(catalog, off)..])
  }

  /** How many records lie at or after offset `off`: the window loop's progress measure. */
  function Unread(catalog: seq<Chapter>, off: int): nat
  {
    if off < |catalog| then |catalog| - off else 0
  }

  /** Consecutive pages tile the catalog, so the extra chapters after an offset are used up page by page. */
  lemma PageSplit(catalog: seq<Chapter>, off: int)
    requires off >= 0
    ensures catalog[Clip(catalog, off)..] == Page(catalog, off) + catalog[Clip(catalog, off + PageSize)..]
    ensures ExtraFrom(catalog, off) == CountExtra(Page(catalog, off)) + ExtraFrom(catalog, off + PageSize)
  {
    var a, b := Clip(catalog, off), Clip(catalog, off + PageSize);
    assert catalog[a..] == catalog[a..b] + catalog[b..];
    CountExtraConcat(catalog[a..b], catalog[b..]);
  }

  /** What one call of GetChapters keeps of a page. */
  type PageFilter = seq<Chapter> -> seq<Chapter>

  /**
   * The window loop from bounds (lo, hi): while lo <= hi, fetch the page at lo (stopping
   * at the first failing request), keep what `keep` keeps of it, move lo on by 10 and
   * raise hi by the page's extra chapters.
   */
  function Window(feed: Feed, keep: PageFilter, lo: int, hi: int): Result<seq<Chapter>, ApiError>
    requires lo >= 0
    decreases Unread(feed.catalog, lo), hi - lo
  {
    if lo > hi then Success([])
    else if lo in feed.failing then Failure(feed.failing[lo])
    else
      var page := Page(feed.catalog, lo);
      Prepend(keep(page), Window(feed, keep, lo + PageSize, hi + CountExtra(page)))
  }

  /** One round of the window loop: the page at `lo`, then the window from the next page on. */
  lemma WindowStep(feed: Feed, keep: PageFilter, lo: int, hi: int)
    requires 0 <= lo <= hi && lo !in feed.failing
    ensures Window(feed, keep, lo, hi)
         == Prepend(keep(Page(feed.catalog, lo)), Window(feed, keep, lo + PageSize, hi + CountExtra(Page(feed.catalog, lo))))
  {
  }

  /** WindowStep with the page's kept entries and extra count as the loop has them. */
  lemma WindowRound(feed: Feed, keep: PageFilter, lo: int, hi: int, kept: seq<Chapter>, extra: int)
    requires 0 <= lo <= hi && lo !in feed.failing
    requires kept == keep(Page(feed.catalog, lo)) && extra == CountExtra(Page(feed.catalog, lo))
    ensures Window(feed, keep, lo, hi) == Prepend(kept, Window(feed, keep, lo + 10, hi + extra))
  {
    WindowStep(feed, keep, lo, hi);
  }

  /** A page without extra chapters adds what `keep` keeps of it before the rest of the window. */
  lemma WindowPage(feed: Feed, keep: PageFilter, lo: int, hi: int, kept: seq<Chapter>, rest: seq<Chapter>)
    requires 0 <= lo <= hi && lo !in feed.failing
    requires kept == keep(Page(feed.catalog, lo)) && CountExtra(Page(feed.catalog, lo)) == 0
    requires Window(feed, keep, lo + PageSize, hi) == Success(rest)
    ensures Window(feed, keep, lo, hi) == Success(kept + rest)
  {
    WindowRound(feed, keep, lo, hi, kept, 0);
  }

  /** A successful window spanning `lo` got the page at `lo` and succeeded from the next page on. */
  lemma WindowSuccessStep(feed: Feed, keep: PageFilter, lo: int, hi: int)
    requires 0 <= lo <= hi && Window(feed, keep, lo, hi).Success?
    ensures lo !in feed.failing
    ensures var next := Window(feed, keep, lo + PageSize, hi + CountExtra(Page(feed.catalog, lo)));
            next.Success? && Window(feed, keep, lo, hi).value == keep(Page(feed.catalog, lo)) + next.value
  {
    WindowStep(feed, keep, lo, hi);
  }

  /** WindowSuccessStep with the page, the next bounds and both parts of the result named. */
  lemma WindowSplit(feed: Feed, keep: PageFilter, lo: int, hi: int)
    returns (page: seq<Chapter>, next: int, nextHi: int, kept: seq<Chapter>, rest: seq<Chapter>)
    requires 0 <= lo <= hi && Window(feed, keep, lo, hi).Success?
    ensures page == Page(feed.catalog, lo) && kept == keep(page)
    ensures next == lo + PageSize && nextHi == hi + CountExtra(page) && hi <= nextHi
    ensures Unread(feed.catalog, next) < Unread(feed.catalog, lo)
            || (Unread(feed.catalog, next) == Unread(feed.catalog, lo) && nextHi - next < hi - lo)
    ensures Window(feed, keep, next, nextHi) == Success(rest)
    ensures Window(feed, keep, lo, hi).value == kept + rest
  {
    page := Page(feed.catalog, lo);
    next, nextHi := lo + PageSize, hi + CountExtra(page);
    kept := keep(page);
    WindowSuccessStep(feed, keep, lo, hi);
    rest := Window(feed, keep, next, nextHi).value;
    if lo >= |feed.catalog| {
      assert page == [];
    }
  }

  /** A record at an offset of the page at `lo` is in that page. */
  lemma PageAt(catalog: seq<Chapter>, lo: int, i: int)
    requires 0 <= lo <= i < |catalog| && i < lo + PageSize
    ensures i - lo < |Page(catalog, lo)| && Page(catalog, lo)[i - lo] == catalog[i]
  {
  }

  /** Instantiates CoversNumbers at one entry. */
  lemma CoversAt(keep: PageFilter, ok: Chapter -> bool, p: seq<Chapter>, j: int)
    requires CoversNumbers(keep, ok) && 0 <= j < |p| && ok(p[j])
    ensures exists k :: 0 <= k < |keep(p)| && keep(p)[k].number == p[j].number
  {
  }

  function Prepend(xs: seq<Chapter>, r: Result<seq<Chapter>, ApiError>): (p: Result<seq<Chapter>, ApiError>)
    ensures p.Failure? <==> r.Failure?
    ensures r.Failure? ==> p == r
    ensures r.Success? ==> p == Success(xs + r.value)
  {
    match r
    case Success(v) => Success(xs + v)
    case Failure(e) => Failure(e)
  }

  lemma PrependPrepend(xs: seq<Chapter>, ys: seq<Chapter>, r: Result<seq<Chapter>, ApiError>)
    ensures Prepend(xs, Prepend(ys, r)) == Prepend(xs + ys, r)
  {
    if r.Success? {
      assert xs + (ys + r.value) == (xs + ys) + r.value;
    }
  }

  /** The offsets the window loop requests, up to and including a failing one. */
  function Offsets(feed: Feed, lo: int, hi: int): seq<int>
    requires lo >= 0
    decreases Unread(feed.catalog, lo), hi - lo
  {
    if lo > hi then []
    else if lo in feed.failing then [lo]
    else
      var page := Page(feed.catalog, lo);
      [lo] + Offsets(feed, lo + PageSize, hi + CountExtra(page))
  }

  /** The high bound the loop ends with when no request fails. */
  function FinalHigh(feed: Feed, lo: int, hi: int): int
    requires lo >= 0
    decreases Unread(feed.catalog, lo), hi - lo
  {
    if lo > hi then hi
    else
      var page := Page(feed.catalog, lo);
      FinalHigh(feed, lo + PageSize, hi + CountExtra(page))
  }

  /** The requested offsets step by 10 from the first one, and only the last can fail. */
  lemma {:induction false} OffsetsStep(feed: Feed, lo: int, hi: int)
    requires lo >= 0
    ensures forall k :: 0 <= k < |Offsets(feed, lo, hi)| ==> Offsets(feed, lo, hi)[k] == lo + PageSize * k
    ensures forall k :: 0 <= k < |Offsets(feed, lo, hi)| - 1 ==> Offsets(feed, lo, hi)[k] !in feed.failing
    decreases Unread(feed.catalog, lo), hi - lo
  {
    if lo <= hi && lo !in feed.failing {
      var page := Page(feed.catalog, lo);
      OffsetsStep(feed, lo + PageSize, hi + CountExtra(page));
      var rest := Offsets(feed, lo + PageSize, hi + CountExtra(page));
      assert Offsets(feed, lo, hi) == [lo] + rest;
      forall k | 0 < k < |[lo] + rest| ensures ([lo] + rest)[k] == rest[k - 1] {
      }
    }
  }

  /**
   * The high bound only grows, and by no more than the extra chapters at and after the
   * first offset: the loop ends for every finite catalog.
   */
  lemma {:induction false} FinalHighBound(feed: Feed, lo: int, hi: int)
    requires lo >= 0
    ensures hi <= FinalHigh(feed, lo, hi) <= hi + ExtraFrom(feed.catalog, lo)
    decreases Unread(feed.catalog, lo), hi - lo
  {
    if lo <= hi {
      var page := Page(feed.catalog, lo);
      PageSplit(feed.catalog, lo);
      FinalHighBound(feed, lo + PageSize, hi + CountExtra(page));
    }
  }

  /** Without failures the loop requests pages until the offset passes the final high bound. */
  lemma {:induction false} OffsetsReachFinalHigh(feed: Feed, lo: int, hi: int)
    requires lo >= 0 && feed.failing == map[]
    ensures var offs := Offsets(feed, lo, hi);
            (offs == [] <==> lo > hi)
            && (offs != [] ==> offs[|offs| - 1] <= FinalHigh(feed, lo, hi) < offs[|offs| - 1] + PageSize)
    decreases Unread(feed.catalog, lo), hi - lo
  {
    if lo <= hi {
      var page := Page(feed.catalog, lo);
      OffsetsReachFinalHigh(feed, lo + PageSize, hi + CountExtra(page));
      FinalHighBound(feed, lo + PageSize, hi + CountExtra(page));
      var rest := Offsets(feed, lo + PageSize, hi + CountExtra(page));
      assert Offsets(feed, lo, hi) == [lo] + rest;
      if rest != [] {
        assert ([lo] + rest)[|rest|] == rest[|rest| - 1];
      }
    }
  }

  /** `keep` returns an ordered selection of every page. */
  ghost predicate KeepsSubsequence(keep: PageFilter)
  {
    forall p: seq<Chapter> :: IsSubsequence(keep(p), p)
  }

  /** What the window returns is an ordered selection of the records from its first offset on. */
  lemma {:induction false} WindowSubsequence(feed: Feed, keep: PageFilter, lo: int, hi: int)
    requires lo >= 0 && KeepsSubsequence(keep) && Window(feed, keep, lo, hi).Success?
    ensures IsSubsequence(Window(feed, keep, lo, hi).value, feed.catalog[Clip(feed.catalog, lo)..])
    decreases Unread(feed.catalog, lo), hi - lo
  {
    if lo <= hi {
      var page := Page(feed.catalog, lo);
      var next, nextHi := lo + PageSize, hi + CountExtra(page);
      WindowSuccessStep(feed, keep, lo, hi);
      PageSplit(feed.catalog, lo);
      WindowSubsequence(feed, keep, next, nextHi);
      SubsequenceConcat(keep(page), page, Window(feed, keep, next, nextHi).value, feed.catalog[Clip(feed.catalog, next)..]);
    }
  }

  /** A property every kept entry of every page has, every returned chapter has. */
  lemma {:induction false} WindowAll(feed: Feed, keep: PageFilter, ok: Chapter -> bool, lo: int, hi: int)
    requires lo >= 0 && Window(feed, keep, lo, hi).Success?
    requires forall p: seq<Chapter>, k :: 0 <= k < |keep(p)| ==> ok(keep(p)[k])
    ensures forall k :: 0 <= k < |Window(feed, keep, lo, hi).value| ==> ok(Window(feed, keep, lo, hi).value[k])
    decreases Unread(feed.catalog, lo), hi - lo
  {
    if lo <= hi {
      var page := Page(feed.catalog, lo);
      var next, nextHi := lo + PageSize, hi + CountExtra(page);
      WindowAll(feed, keep, ok, next, nextHi);
      var kept, rest := keep(page), Window(feed, keep, next, nextHi).value;
      forall k | 0 <= k < |kept + rest| ensures ok((kept + rest)[k]) {
        if k >= |kept| {
          assert (kept + rest)[k] == rest[k - |kept|];
        } else {
          assert (kept + rest)[k] == kept[k];
        }
      }
    }
  }

  /** `keep` keeps, of every entry of a page with property `ok`, at least an entry with its number. */
  ghost predicate CoversNumbers(keep: PageFilter, ok: Chapter -> bool)
  {
    forall p: seq<Chapter>, j :: 0 <= j < |p| && ok(p[j]) ==> exists k :: 0 <= k < |keep(p)| && keep(p)[k].number == p[j].number
  }

  /**
   * A record with property `ok` at an offset from `lo` through `hi` has its number among
   * the chapters the window returns.
   */
  lemma {:induction false} WindowCovers(feed: Feed, keep: PageFilter, ok: Chapter -> bool, lo: int, hi: int, i: int)
    requires lo >= 0 && Window(feed, keep, lo, hi).Success? && CoversNumbers(keep, ok)
    requires lo <= i <= hi && i < |feed.catalog| && ok(feed.catalog[i])
    ensures exists k :: 0 <= k < |Window(feed, keep, lo, hi).value|
                        && Window(feed, keep, lo, hi).value[k].number == feed.catalog[i].number
    decreases Unread(feed.catalog, lo), hi - lo
  {
    var page, next, nextHi, kept, rest := WindowSplit(feed, keep, lo, hi);
    var w := Window(feed, keep, lo, hi).value;
    if i < next {
      PageAt(feed.catalog, lo, i);
      CoversAt(keep, ok, page, i - lo);
      var k :| 0 <= k < |kept| && kept[k].number == page[i - lo].number;
      assert w[k] == kept[k];
    } else {
      WindowCovers(feed, keep, ok, next, nextHi, i);
      var k :| 0 <= k < |rest| && rest[k].number == feed.catalog[i].number;
      assert w[|kept| + k] == rest[k];
    }
  }

  // The page filters of the two revisions of GetChapters.

  /** Which GetChapters a revision of the client runs on each page. */
  datatype Revision = Current | Early

  function Keep(rev: Revision, sel: Selection): PageFilter
  {
    match rev
    case Current => p => Selected(p, sel)
    case Early => p => Filtered(p, sel)
  }

  /** Both revisions keep ordered selections of the page. */
  lemma KeepSubsequence(rev: Revision, sel: Selection)
    ensures KeepsSubsequence(Keep(rev, sel))
  {
    forall p: seq<Chapter> ensures IsSubsequence(Keep(rev, sel)(p), p) {
      if rev == Current {
        SelectedSubsequence(p, sel);
      } else {
        FilteredSubsequence(p, sel);
      }
    }
  }

  /** Both revisions keep passing entries only. */
  lemma KeepPasses(rev: Revision, sel: Selection)
    ensures forall p: seq<Chapter>, k :: 0 <= k < |Keep(rev, sel)(p)| ==> Passes(sel, Keep(rev, sel)(p)[k])
  {
    forall p: seq<Chapter> ensures forall k :: 0 <= k < |Keep(rev, sel)(p)| ==> Passes(sel, Keep(rev, sel)(p)[k]) {
      if rev == Current {
        SelectedPass(p, sel);
      } else {
        FilteredExactly(p, sel);
      }
    }
  }

  /** Both revisions keep, of every passing entry, an entry with its number. */
  lemma KeepCovers(rev: Revision, sel: Selection)
    ensures CoversNumbers(Keep(rev, sel), (c: Chapter) => Passes(sel, c))
  {
    forall p: seq<Chapter>, j | 0 <= j < |p| && Passes(sel, p[j])
      ensures exists k :: 0 <= k < |Keep(rev, sel)(p)| && Keep(rev, sel)(p)[k].number == p[j].number
    {
      if rev == Current {
        SelectedCoversNumbers(p, sel, j);
        assert Keep(rev, sel)(p) == Selected(p, sel);
      } else {
        var kept := Filtered(p, sel);
        assert Keep(rev, sel)(p) == kept;
        FilteredExactly(p, sel);
        assert p[j] in p;
        var k :| 0 <= k < |kept| && kept[k] == p[j];
        assert kept[k].number == p[j].number;
      }
    }
  }

  /**
   * Whatever a successful window returns is an ordered selection of the records from its
   * first offset on, and every returned chapter passes the selection.
   */
  lemma SelectionWindowSound(feed: Feed, rev: Revision, sel: Selection, lo: int, hi: int)
    requires lo >= 0 && Window(feed, Keep(rev, sel), lo, hi).Success?
    ensures IsSubsequence(Window(feed, Keep(rev, sel), lo, hi).value, feed.catalog[Clip(feed.catalog, lo)..])
    ensures forall k :: 0 <= k < |Window(feed, Keep(rev, sel), lo, hi).value|
              ==> Passes(sel, Window(feed, Keep(rev, sel), lo, hi).value[k])
  {
    KeepSubsequence(rev, sel);
    KeepPasses(rev, sel);
    WindowSubsequence(feed, Keep(rev, sel), lo, hi);
    WindowAll(feed, Keep(rev, sel), (c: Chapter) => Passes(sel, c), lo, hi);
  }

  /** A passing record at an offset the window spans has its number among the returned chapters. */
  lemma SelectionWindowCovers(feed: Feed, rev: Revision, sel: Selection, lo: int, hi: int, i: int)
    requires lo >= 0 && Window(feed, Keep(rev, sel), lo, hi).Success?
    requires lo <= i <= hi && i < |feed.catalog| && Passes(sel, feed.catalog[i])
    ensures exists k :: 0 <= k < |Window(feed, Keep(rev, sel), lo, hi).value|
                        && Window(feed, Keep(rev, sel), lo, hi).value[k].number == feed.catalog[i].number
  {
    KeepCovers(rev, sel);
    WindowCovers(feed, Keep(rev, sel), (c: Chapter) => Passes(sel, c), lo, hi, i);
  }

  /** Windows under two filters that agree on every page are equal. */
  lemma {:induction false} WindowAgree(feed: Feed, k1: PageFilter, k2: PageFilter, lo: int, hi: int)
    requires lo >= 0 && forall p: seq<Chapter> :: k1(p) == k2(p)
    ensures Window(feed, k1, lo, hi) == Window(feed, k2, lo, hi)
    decreases Unread(feed.catalog, lo), hi - lo
  {
    if lo <= hi && lo !in feed.failing {
      var page := Page(feed.catalog, lo);
      WindowAgree(feed, k1, k2, lo + PageSize, hi + CountExtra(page));
    }
  }

  /**
   * The page filter of the current revision, known to the caller only by its value on
   * the pages GetChapters has been run on.
   */
  lemma CurrentFilter(sel: Selection) returns (keep: PageFilter)
    ensures forall p: seq<Chapter> {:trigger Selected(p, sel)} :: keep(p) == Selected(p, sel)
  {
    keep := Keep(Current, sel);
  }

  /** Such a filter gives the window of the current revision. */
  lemma CurrentWindow(feed: Feed, keep: PageFilter, sel: Selection, lo: int, hi: int)
    requires lo >= 0
    requires forall p: seq<Chapter> {:trigger Selected(p, sel)} :: keep(p) == Selected(p, sel)
    ensures Window(feed, keep, lo, hi) == Window(feed, Keep(Current, sel), lo, hi)
  {
    forall p: seq<Chapter> ensures keep(p) == Keep(Current, sel)(p) {
      assert Keep(Current, sel)(p) == Selected(p, sel);
    }
    WindowAgree(feed, keep, Keep(Current, sel), lo, hi);
  }

  // GetFullChaptersInfo.

  /** The guard of GetFullChaptersInfo: an empty id or language, a reversed or negative range. */
  predicate BadRange(mangaId: string, language: string, lowest: int, highest: int)
  {
    mangaId == "" || language == "" || lowest > highest || lowest < 0 || highest < 0
  }

  /** The window's first high bound: a range narrower than a page is widened by one page. */
  function InitialHigh(lowest: int, highest: int): (h: int)
    ensures highest - lowest < PageSize ==> h == highest + PageSize
    ensures highest - lowest >= PageSize ==> h == highest
  {
    if highest - lowest < PageSize then highest + PageSize else highest
  }

  /** What the chapter-images endpoint returns for one chapter. */
  datatype ChapterImages = ChapterImages(baseUrl: string, hash: string, data: seq<string>, dataSaver: seq<string>)

  /** A chapter with its image server, hash, full-quality and data-saver file names. */
  function FullInfo(c: Chapter, img: ChapterImages): (f: ChapterFullInfo)
    ensures f.info == c && f.downloadBaseUrl == img.baseUrl && f.hashId == img.hash
    ensures f.pngFiles == img.data && f.jpgFiles == img.dataSaver
  {
    ChapterFullInfo(c, img.baseUrl, img.hash, img.data, img.dataSaver)
  }

  /**
   * The image lookups of a list of chapters, in order: the first failing lookup ends
   * them with its error. `images` is what the endpoint answers for a chapter id.
   */
  function FullInfos(chapters: seq<Chapter>, images: string -> Result<ChapterImages, ApiError>)
    : Result<seq<ChapterFullInfo>, ApiError>
    decreases |chapters|
  {
    if chapters == [] then Success([])
    else
      var c := chapters[|chapters| - 1];
      match FullInfos(chapters[..|chapters| - 1], images)
      case Failure(e) => Failure(e)
      case Success(infos) =>
        match images(c.id)
        case Failure(e) => Failure(e)
        case Success(img) => Success(infos + [FullInfo(c, img)])
  }

  /** Successful lookups give one entry per chapter, in order, each built from that chapter's answer. */
  lemma {:induction false} FullInfosSuccess(chapters: seq<Chapter>, images: string -> Result<ChapterImages, ApiError>)
    requires FullInfos(chapters, images).Success?
    ensures |FullInfos(chapters, images).value| == |chapters|
    ensures forall k :: 0 <= k < |chapters| ==>
              images(chapters[k].id).Success?
              && FullInfos(chapters, images).value[k] == FullInfo(chapters[k], images(chapters[k].id).value)
    decreases |chapters|
  {
    if chapters != [] {
      var init := chapters[..|chapters| - 1];
      FullInfosSuccess(init, images);
      forall k | 0 <= k < |init| ensures chapters[k] == init[k] {
      }
    }
  }

  /**
   * The lookups fail exactly when some chapter's answer is an error, and then with the
   * error of the first such chapter.
   */
  lemma {:induction false} FullInfosFailure(chapters: seq<Chapter>, images: string -> Result<ChapterImages, ApiError>)
    ensures FullInfos(chapters, images).Failure?
            <==> exists k :: 0 <= k < |chapters| && images(chapters[k].id).Failure?
    ensures FullInfos(chapters, images).Failure? ==>
              exists k :: 0 <= k < |chapters| && images(chapters[k].id) == Failure(FullInfos(chapters, images).error)
                          && forall j :: 0 <= j < k ==> images(chapters[j].id).Success?
    decreases |chapters|
  {
    if chapters != [] {
      var init := chapters[..|chapters| - 1];
      var last := |chapters| - 1;
      FullInfosFailure(init, images);
      if FullInfos(init, images).Failure? {
        var k :| 0 <= k < |init| && images(init[k].id) == Failure(FullInfos(init, images).error)
                 && forall j :: 0 <= j < k ==> images(init[j].id).Success?;
        assert chapters[k] == init[k];
        assert forall j :: 0 <= j < k ==> chapters[j] == init[j];
      } else {
        FullInfosSuccess(init, images);
        assert forall j :: 0 <= j < last ==> chapters[j] == init[j];
        if images(chapters[last].id).Success? {
          forall k | 0 <= k < |chapters| ensures images(chapters[k].id).Success? {
            if k < last {
              assert chapters[k] == init[k];
            }
          }
        }
      }
    }
  }

  /** Once a prefix of lookups has failed, the whole list fails with the same error. */
  lemma {:induction false} FullInfosFailureSticks(chapters: seq<Chapter>, n: int,
                                                  images: string -> Result<ChapterImages, ApiError>)
    requires 0 <= n <= |chapters| && FullInfos(chapters[..n], images).Failure?
    ensures FullInfos(chapters, images) == FullInfos(chapters[..n], images)
    decreases |chapters|
  {
    if n < |chapters| {
      var init := chapters[..|chapters| - 1];
      assert init[..n] == chapters[..n];
      FullInfosFailureSticks(init, n, images);
    } else {
      assert chapters[..n] == chapters;
    }
  }

  /** The result of GetFullChaptersInfo. */
  function FullChaptersInfo(feed: Feed, images: string -> Result<ChapterImages, ApiError>, mangaId: string,
                            language: string, group: string, lowest: int, highest: int)
    : Result<seq<ChapterFullInfo>, ApiError>
  {
    if BadRange(mangaId, language, lowest, highest) then Failure(BadInput)
    else
      match Window(feed, Keep(Current, InRange(lowest, highest, group)), lowest, InitialHigh(lowest, highest))
      case Failure(e) => Failure(e)
      case Success(chapters) => FullInfos(chapters, images)
  }

  /** FullChaptersInfo past the guard, with the window given. */
  lemma FullChaptersInfoOf(feed: Feed, images: string -> Result<ChapterImages, ApiError>, mangaId: string,
                           language: string, group: string, lowest: int, highest: int,
                           window: Result<seq<Chapter>, ApiError>)
    requires !BadRange(mangaId, language, lowest, highest)
    requires window == Window(feed, Keep(Current, InRange(lowest, highest, group)), lowest, InitialHigh(lowest, highest))
    ensures window.Failure? ==> FullChaptersInfo(feed, images, mangaId, language, group, lowest, highest) == Failure(window.error)
    ensures window.Success? ==> FullChaptersInfo(feed, images, mangaId, language, group, lowest, highest) == FullInfos(window.value, images)
  {
  }

  /** Every chapter of a successful lookup over a selection window passes the selection. */
  lemma InfosPass(feed: Feed, images: string -> Result<ChapterImages, ApiError>, rev: Revision, sel: Selection,
                  lo: int, hi: int)
    requires lo >= 0 && Window(feed, Keep(rev, sel), lo, hi).Success?
    requires FullInfos(Window(feed, Keep(rev, sel), lo, hi).value, images).Success?
    ensures var infos := FullInfos(Window(feed, Keep(rev, sel), lo, hi).value, images).value;
            |infos| == |Window(feed, Keep(rev, sel), lo, hi).value|
            && forall k :: 0 <= k < |infos| ==> Passes(sel, infos[k].info)
  {
    SelectionWindowSound(feed, rev, sel, lo, hi);
    FullInfosSuccess(Window(feed, Keep(rev, sel), lo, hi).value, images);
  }

  /**
   * A successful GetFullChaptersInfo had a valid range, and every chapter it returns has
   * a number in [lowest, highest] (or an "a.b" number with integer part there) and the
   * requested translator.
   */
  lemma FullChaptersInfoSound(feed: Feed, images: string -> Result<ChapterImages, ApiError>, mangaId: string,
                              language: string, group: string, lowest: int, highest: int)
    requires FullChaptersInfo(feed, images, mangaId, language, group, lowest, highest).Success?
    ensures !BadRange(mangaId, language, lowest, highest)
    ensures var infos := FullChaptersInfo(feed, images, mangaId, language, group, lowest, highest).value;
            forall k :: 0 <= k < |infos| ==> Passes(InRange(lowest, highest, group), infos[k].info)
  {
    InfosPass(feed, images, Current, InRange(lowest, highest, group), lowest, InitialHigh(lowest, highest));
  }

  /**
   * ErrBadInput on a bad range and without any request; otherwise the window from offset
   * `lowest` with every page selected by GetChapters(lowest, highest, group), then one
   * image lookup per selected chapter.
   */
  method GetFullChaptersInfo(feed: Feed, images: string -> Result<ChapterImages, ApiError>, mangaId: string,
                             language: string, group: string, lowest: int, highest: int)
    returns (r: Result<seq<ChapterFullInfo>, ApiError>)
    ensures r == FullChaptersInfo(feed, images, mangaId, language, group, lowest, highest)
  {
    if mangaId == "" || language == "" || lowest > highest || lowest < 0 || highest < 0 {
      return Failure(BadInput);
    }
    var lowBound := lowest;
    var highBound := highest;
    if highBound - lowBound < 10 {
      highBound := highBound + 10;
    }
    assert highBound == InitialHigh(lowest, highest);
    ghost var keep := CurrentFilter(InRange(lowest, highest, group));
    var window := CollectPages(feed, group, lowest, highest, lowBound, highBound, keep);
    CurrentWindow(feed, keep, InRange(lowest, highest, group), lowBound, highBound);
    FullChaptersInfoOf(feed, images, mangaId, language, group, lowest, highest, window);
    if window.Failure? {
      return Failure(window.error);
    }
    r := LookUpImages(window.value, images);
  }

  /** The second loop of GetFullChaptersInfo: one image lookup per chapter, stopping at the first error. */
  method LookUpImages(chapters: seq<Chapter>, images: string -> Result<ChapterImages, ApiError>)
    returns (r: Result<seq<ChapterFullInfo>, ApiError>)
    ensures r == FullInfos(chapters, images)
  {
    var infos: seq<ChapterFullInfo> := [];
    for i := 0 to |chapters|
      invariant FullInfos(chapters[..i], images) == Success(infos)
    {
      assert chapters[..i + 1][..i] == chapters[..i];
      var reply := images(chapters[i].id);
      if reply.Failure? {
        FullInfosFailureSticks(chapters, i + 1, images);
        return Failure(reply.error);
      }
      infos := infos + [FullInfo(chapters[i], reply.value)];
    }
    assert chapters[..|chapters|] == chapters;
    return Success(infos);
  }

  /**
   * The paging loop of GetFullChaptersInfo from bounds (lowBound, highBound): each page
   * goes through GetChapters(lowest, highest, group), the offset moves on by 10 and the
   * high bound grows by the page's extra chapters; the first failing request ends it.
   */
  method CollectPages(feed: Feed, group: string, lowest: int, highest: int, lowBound: int, highBound: int,
                      ghost keep: PageFilter)
    returns (r: Result<seq<Chapter>, ApiError>)
    requires lowBound >= 0
    requires forall p: seq<Chapter> {:trigger Selected(p, InRange(lowest, highest, group))} ::
               keep(p) == Selected(p, InRange(lowest, highest, group))
    ensures r == Window(feed, keep, lowBound, highBound)
  {
    var chapters: seq<Chapter> := [];
    var lo, hi := lowBound, highBound;
    PrependEmpty(Window(feed, keep, lo, hi));
    while lo <= hi
      invariant lo >= 0
      invariant Collected(feed, keep, lowBound, highBound, chapters, lo, hi)
      decreases Unread(feed.catalog, lo), hi - lo
    {
      var round := PageRound(feed, lo, lowest, highest, group, keep);
      if round.Failure? {
        CollectedFailure(feed, keep, lowBound, highBound, chapters, lo, hi);
        return Failure(round.error);
      }
      var (found, extra) := round.value;
      var nextLow, nextHigh := lo + 10, hi + extra;
      CollectedRound(feed, keep, lowBound, highBound, chapters, lo, hi, found, extra);
      chapters := chapters + found;
      lo, hi := nextLow, nextHigh;
    }
    CollectedDone(feed, keep, lowBound, highBound, chapters, lo, hi);
    return Success(chapters);
  }

  /**
   * One round of the paging loop: the feed request at offset `lo`, which fails with the
   * error the feed has for it, then GetChapters on the page it returns.
   */
  method PageRound(feed: Feed, lo: int, lowest: int, highest: int, group: string, ghost keep: PageFilter)
    returns (r: Result<(seq<Chapter>, nat), ApiError>)
    requires forall p: seq<Chapter> {:trigger Selected(p, InRange(lowest, highest, group))} ::
               keep(p) == Selected(p, InRange(lowest, highest, group))
    ensures lo in feed.failing ==> r == Failure(feed.failing[lo])
    ensures lo !in feed.failing ==> r == Success((keep(Page(feed.catalog, lo)), CountExtra(Page(feed.catalog, lo))))
  {
    if lo in feed.failing {
      return Failure(feed.failing[lo]);
    }
    var list := ChapterList(Page(feed.catalog, lo));
    var found, extra := list.GetChapters(lowest, highest, group);
    return Success((found, extra));
  }

  /** The loop invariant of the paging loop: what is collected, then the window from (lo, hi). */
  predicate Collected(feed: Feed, keep: PageFilter, lowBound: int, highBound: int,
                      chapters: seq<Chapter>, lo: int, hi: int)
    requires lowBound >= 0 && lo >= 0
  {
    Window(feed, keep, lowBound, highBound) == Prepend(chapters, Window(feed, keep, lo, hi))
  }

  /** A round of the paging loop keeps the invariant. */
  lemma CollectedRound(feed: Feed, keep: PageFilter, lowBound: int, highBound: int,
                       chapters: seq<Chapter>, lo: int, hi: int, found: seq<Chapter>, extra: int)
    requires lowBound >= 0 && 0 <= lo <= hi && lo !in feed.failing
    requires Collected(feed, keep, lowBound, highBound, chapters, lo, hi)
    requires found == keep(Page(feed.catalog, lo)) && extra == CountExtra(Page(feed.catalog, lo))
    ensures Collected(feed, keep, lowBound, highBound, chapters + found, lo + 10, hi + extra)
    ensures Unread(feed.catalog, lo + 10) < Unread(feed.catalog, lo)
            || (Unread(feed.catalog, lo + 10) == Unread(feed.catalog, lo) && hi + extra - (lo + 10) < hi - lo)
  {
    if lo >= |feed.catalog| {
      assert Page(feed.catalog, lo) == [];
    }
    WindowRound(feed, keep, lo, hi, found, extra);
    PrependPrepend(chapters, found, Window(feed, keep, lo + 10, hi + extra));
  }

  /** A failing request ends the loop with the window's failure. */
  lemma CollectedFailure(feed: Feed, keep: PageFilter, lowBound: int, highBound: int,
                         chapters: seq<Chapter>, lo: int, hi: int)
    requires lowBound >= 0 && 0 <= lo <= hi && lo in feed.failing
    requires Collected(feed, keep, lowBound, highBound, chapters, lo, hi)
    ensures Window(feed, keep, lowBound, highBound) == Failure(feed.failing[lo])
  {
  }

  /** Past the high bound, what is collected is the window. */
  lemma CollectedDone(feed: Feed, keep: PageFilter, lowBound: int, highBound: int,
                      chapters: seq<Chapter>, lo: int, hi: int)
    requires lowBound >= 0 && 0 <= lo && lo > hi
    requires Collected(feed, keep, lowBound, highBound, chapters, lo, hi)
    ensures Window(feed, keep, lowBound, highBound) == Success(chapters)
  {
    assert chapters + [] == chapters;
  }

  lemma PrependEmpty(r: Result<seq<Chapter>, ApiError>)
    ensures Prepend([], r) == r
  {
    if r.Success? {
      assert [] + r.value == r.value;
    }
  }

  // Where the window starts.

  /**
   * Chapter numbers never run ahead of positions: the record at index i has an integer
   * key of at most i + 1, as in a catalog holding every chapter from 1 on, with extra and
   * repeated entries in between.
   */
  ghost predicate NotAhead(catalog: seq<Chapter>)
  {
    forall i :: 0 <= i < |catalog| && RangeKey(catalog[i].number).Some? ==> RangeKey(catalog[i].number).value <= i + 1
  }

  /**
   * The window starts at offset `lowest`, so the record of chapter `lowest` itself, at
   * index lowest - 1, is never requested: a catalog holding only chapter "1" gives an
   * empty result for the range [1, 1].
   */
  lemma FirstChapterSkipped(c: Chapter)
    requires c.number == "1"
    ensures NotAhead([c]) && Passes(InRange(1, 1, ""), c)
    ensures Window(Feed([c], map[]), Keep(Current, InRange(1, 1, "")), 1, InitialHigh(1, 1)) == Success([])
  {
    var feed, keep := Feed([c], map[]), Keep(Current, InRange(1, 1, ""));
    assert Atoi("1") == Some(1);
    EmptyGroupMatchesAll(c);
    assert Page(feed.catalog, 1) == [] && Page(feed.catalog, 11) == [];
    EmptyPage(InRange(1, 1, ""));
    WindowStep(feed, keep, 1, 11);
    WindowStep(feed, keep, 11, 11);
  }

  /** The offset the window evidently should start at: the position of chapter `lowest` when no number runs ahead. */
  function CorrectedStart(lowest: int): (off: int)
    ensures off >= 0
    ensures lowest >= 1 ==> off + 1 == lowest
  {
    if lowest >= 1 then lowest - 1 else 0
  }

  /**
   * Started at CorrectedStart(lowest), the window misses no passing record up to its
   * first high bound when no number runs ahead of its position.
   */
  lemma CorrectedWindowCovers(feed: Feed, group: string, lowest: int, highest: int, i: int)
    requires 0 <= lowest <= highest && NotAhead(feed.catalog)
    requires Window(feed, Keep(Current, InRange(lowest, highest, group)), CorrectedStart(lowest), InitialHigh(lowest, highest)).Success?
    requires 0 <= i < |feed.catalog| && i <= InitialHigh(lowest, highest)
    requires Passes(InRange(lowest, highest, group), feed.catalog[i])
    ensures var w := Window(feed, Keep(Current, InRange(lowest, highest, group)), CorrectedStart(lowest), InitialHigh(lowest, highest));
            exists k :: 0 <= k < |w.value| && w.value[k].number == feed.catalog[i].number
  {
    assert RangeKey(feed.catalog[i].number).value <= i + 1;
    SelectionWindowCovers(feed, Current, InRange(lowest, highest, group), CorrectedStart(lowest), InitialHigh(lowest, highest), i);
  }

  /** The corrected start requests chapter "1" in the same catalog. */
  lemma CorrectedStartFindsFirst(c: Chapter)
    requires c.number == "1"
    ensures Window(Feed([c], map[]), Keep(Current, InRange(1, 1, "")), CorrectedStart(1), InitialHigh(1, 1)) == Success([c])
  {
    var feed, sel := Feed([c], map[]), InRange(1, 1, "");
    var keep := Keep(Current, sel);
    assert keep([c]) == [c] by {
      assert Atoi("1") == Some(1);
      EmptyGroupMatchesAll(c);
      assert [c][..0] == [];
      assert Selected([c], sel) == [c];
    }
    EmptyPage(sel);
    assert keep([]) == [];
    assert Page(feed.catalog, 0) == [c] && Page(feed.catalog, 10) == [];
    assert CountExtra([c]) == 0;
    WindowPage(feed, keep, 10, 11, [], []);
    WindowPage(feed, keep, 0, 11, [c], []);
    assert [c] + [] == [c];
  }
}
