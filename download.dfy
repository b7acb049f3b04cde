/**
 * The downloader's own logic: the numbered options of the interactive prompts and the
 * numbers read back from them, the saving formats, the output file names, and the page
 * loop that stages a chapter's images in an EPUB container.
 */
module Download {
  import opened Wrappers
  import opened Strings
  import opened Manga
  import opened Chapters
  import opened Api
  import opened Containers
  import opened Epub

  const OptionSep: string := " | "

  // Numbered options.

  /** An option cut to its first `maxOptionSize - margin` characters when it would not fit with the margin. */
  function Truncate(option: string, maxOptionSize: int, margin: nat): (r: string)
    requires maxOptionSize >= margin
    ensures |r| <= maxOptionSize - margin && |r| <= |option|
    ensures r == option[..|r|]
    ensures |option| + margin < maxOptionSize ==> r == option
  {
    if |option| + margin >= maxOptionSize then option[..maxOptionSize - margin] else option
  }

  /** The number shown for the option at position i: i + 1 in decimal. */
  function OptionNumber(i: nat): (n: string)
    ensures IsDigits(n)
  {
    Itoa(i + 1)
  }

  /** "N | authors | title" for the manga at position N-1. */
  function MangaOption(i: nat, authors: string, title: string): string
  {
    OptionNumber(i) + OptionSep + authors + OptionSep + title
  }

  /** "N | vol. V | ch. C | title" for the chapter at position N-1. */
  function ChapterOption(i: nat, volume: string, number: string, title: string): string
  {
    OptionNumber(i) + OptionSep + "vol. " + volume + OptionSep + "ch. " + number + OptionSep + title
  }

  /** The map from each option's number (1, 2, ...) to the id at that position. */
  function Numbering(ids: seq<string>): (m: map<string, string>)
    decreases |ids|
  {
    if ids == [] then map[]
    else Numbering(ids[..|ids| - 1])[OptionNumber(|ids| - 1) := ids[|ids| - 1]]
  }

  /** Distinct positions are shown as distinct numbers. */
  lemma OptionNumberInjective(i: nat, j: nat)
    requires OptionNumber(i) == OptionNumber(j)
    ensures i == j
  {
    ItoaInjective(i + 1, j + 1);
  }

  /** The keys are exactly the numbers of the positions. */
  lemma {:induction false} NumberingKeys(ids: seq<string>)
    ensures forall k :: k in Numbering(ids) <==> exists i :: 0 <= i < |ids| && k == OptionNumber(i)
    decreases |ids|
  {
    if ids != [] {
      var init := ids[..|ids| - 1];
      NumberingKeys(init);
      forall k | k in Numbering(ids) ensures exists i :: 0 <= i < |ids| && k == OptionNumber(i) {
        if k != OptionNumber(|ids| - 1) {
          assert k in Numbering(init);
          var i :| 0 <= i < |init| && k == OptionNumber(i);
        }
      }
    }
  }

  /** The number of position i leads to the i-th id. */
  lemma {:induction false} NumberingLookup(ids: seq<string>, i: nat)
    requires i < |ids|
    ensures OptionNumber(i) in Numbering(ids) && Numbering(ids)[OptionNumber(i)] == ids[i]
    decreases |ids|
  {
    var init := ids[..|ids| - 1];
    if i < |init| {
      NumberingLookup(init, i);
      if OptionNumber(i) == OptionNumber(|ids| - 1) {
        OptionNumberInjective(i, |ids| - 1);
      }
    }
  }

  lemma NumberingSnoc(ids: seq<string>, id: string)
    ensures Numbering(ids + [id]) == Numbering(ids)[OptionNumber(|ids|) := id]
  {
    assert (ids + [id])[..|ids|] == ids;
  }

  /** Numbering one more id of a sequence adds that id under the next option number. */
  lemma NumberingPrefix(ids: seq<string>, i: nat)
    requires i < |ids|
    ensures Numbering(ids[..i + 1]) == Numbering(ids[..i])[OptionNumber(i) := ids[i]]
  {
    assert ids[..i + 1] == ids[..i] + [ids[i]];
    NumberingSnoc(ids[..i], ids[i]);
  }

  function MangaIds(m: seq<MangaInfo>): (ids: seq<string>)
    ensures |ids| == |m| && forall i :: 0 <= i < |m| ==> ids[i] == m[i].id
  {
    seq(|m|, i requires 0 <= i < |m| => m[i].id)
  }

  function ChapterIds(c: seq<Chapter>): (ids: seq<string>)
    ensures |ids| == |c| && forall i :: 0 <= i < |c| ==> ids[i] == c[i].id
  {
    seq(|c|, i requires 0 <= i < |c| => c[i].id)
  }

  /** The option of every manga, in order. */
  function MangaOptions(m: seq<MangaInfo>, maxOptionSize: int): (options: seq<string>)
    requires maxOptionSize >= 2
    ensures |options| == |m|
  {
    seq(|m|, i requires 0 <= i < |m| =>
      Truncate(MangaOption(i, Join(NamesOfType(m[i].relationships, "author"), ", "), m[i].Title("en")), maxOptionSize, 2))
  }

  /**
   * toMangaInfoOptions: one option per manga, cut to fit `maxOptionSize` with a margin of 2,
   * and the map from each option number to that manga's id.
   */
  method ToMangaInfoOptions(m: seq<MangaInfo>, maxOptionSize: int)
    returns (printOptions: seq<string>, associationNums: map<string, string>)
    requires maxOptionSize >= 2
    ensures printOptions == MangaOptions(m, maxOptionSize)
    ensures associationNums == Numbering(MangaIds(m))
  {
    printOptions := [];
    associationNums := map[];
    for i := 0 to |m|
      invariant printOptions == MangaOptions(m, maxOptionSize)[..i]
      invariant associationNums == Numbering(MangaIds(m)[..i])
    {
      var authors := m[i].Authors();
      var option := OptionNumber(i) + OptionSep + authors + OptionSep + m[i].Title("en");
      ghost var full := option;
      if |option| + 2 >= maxOptionSize {
        option := option[..maxOptionSize - 2];
      }
      MangaOptionStep(m, maxOptionSize, i, printOptions, authors, full, option);
      printOptions := printOptions + [option];
      associationNums := associationNums[OptionNumber(i) := m[i].id];
    }
    assert MangaIds(m)[..|m|] == MangaIds(m);
    assert MangaOptions(m, maxOptionSize)[..|m|] == MangaOptions(m, maxOptionSize);
  }

  lemma MangaOptionStep(m: seq<MangaInfo>, maxOptionSize: int, i: nat, options: seq<string>,
                        authors: string, full: string, option: string)
    requires maxOptionSize >= 2 && i < |m| && options == MangaOptions(m, maxOptionSize)[..i]
    requires authors == Join(NamesOfType(m[i].relationships, "author"), ", ")
    requires full == OptionNumber(i) + OptionSep + authors + OptionSep + m[i].Title("en")
    requires option == if |full| + 2 >= maxOptionSize then full[..maxOptionSize - 2] else full
    ensures options + [option] == MangaOptions(m, maxOptionSize)[..i + 1]
    ensures Numbering(MangaIds(m)[..i + 1]) == Numbering(MangaIds(m)[..i])[OptionNumber(i) := m[i].id]
  {
    var all := MangaOptions(m, maxOptionSize);
    assert options + [option] == all[..i + 1] by {
      assert full == MangaOption(i, authors, m[i].Title("en"));
      assert all[i] == option;
      assert all[..i + 1] == all[..i] + [all[i]];
    }
    NumberingPrefix(MangaIds(m), i);
  }

  /** The option of every chapter, in order. */
  function ChapterOptions(c: seq<Chapter>, maxOptionSize: int): (options: seq<string>)
    requires maxOptionSize >= 6
    ensures |options| == |c|
  {
    seq(|c|, i requires 0 <= i < |c| =>
      Truncate(ChapterOption(i, c[i].volume, c[i].number, c[i].title), maxOptionSize, 6))
  }

  /**
   * toChaptersOptions: one option per chapter, cut to fit `maxOptionSize` with a margin of 6,
   * and the map from each option number to that chapter's id.
   */
  method ToChaptersOptions(c: seq<Chapter>, maxOptionSize: int)
    returns (options: seq<string>, associationNums: map<string, string>)
    requires maxOptionSize >= 6
    ensures options == ChapterOptions(c, maxOptionSize)
    ensures associationNums == Numbering(ChapterIds(c))
  {
    options := [];
    associationNums := map[];
    for i := 0 to |c|
      invariant options == ChapterOptions(c, maxOptionSize)[..i]
      invariant associationNums == Numbering(ChapterIds(c)[..i])
    {
      var option := OptionNumber(i) + OptionSep + "vol. " + c[i].volume + OptionSep + "ch. " + c[i].number
                    + OptionSep + c[i].title;
      ghost var full := option;
      if |option| + 6 >= maxOptionSize {
        option := option[..maxOptionSize - 6];
      }
      ChapterOptionStep(c, maxOptionSize, i, options, full, option);
      options := options + [option];
      associationNums := associationNums[OptionNumber(i) := c[i].id];
    }
    assert ChapterIds(c)[..|c|] == ChapterIds(c);
    assert ChapterOptions(c, maxOptionSize)[..|c|] == ChapterOptions(c, maxOptionSize);
  }

  lemma ChapterOptionStep(c: seq<Chapter>, maxOptionSize: int, i: nat, options: seq<string>,
                          full: string, option: string)
    requires maxOptionSize >= 6 && i < |c| && options == ChapterOptions(c, maxOptionSize)[..i]
    requires full == OptionNumber(i) + OptionSep + "vol. " + c[i].volume + OptionSep + "ch. " + c[i].number
                     + OptionSep + c[i].title
    requires option == if |full| + 6 >= maxOptionSize then full[..maxOptionSize - 6] else full
    ensures options + [option] == ChapterOptions(c, maxOptionSize)[..i + 1]
    ensures Numbering(ChapterIds(c)[..i + 1]) == Numbering(ChapterIds(c)[..i])[OptionNumber(i) := c[i].id]
  {
    assert full == ChapterOption(i, c[i].volume, c[i].number, c[i].title);
    NumberingPrefix(ChapterIds(c), i);
  }

  /** getMangaNumOption: the text before the first " | ". */
  function GetMangaNumOption(option: string): string
  {
    Split(option, OptionSep)[0]
  }

  /** getChapterNumsFromOptions: the text before the first " | " of each option, in order. */
  method GetChapterNumsFromOptions(options: seq<string>) returns (nums: seq<string>)
    ensures |nums| == |options|
    ensures forall i :: 0 <= i < |options| ==> nums[i] == GetMangaNumOption(options[i])
  {
    nums := [];
    for i := 0 to |options|
      invariant |nums| == i
      invariant forall j :: 0 <= j < i ==> nums[j] == GetMangaNumOption(options[j])
    {
      nums := nums + [Split(options[i], OptionSep)[0]];
    }
  }

  /** An option that still holds its number and the separator after it reads back as that number. */
  lemma NumberReadBack(i: nat, rest: string, maxOptionSize: int, margin: nat)
    requires maxOptionSize >= margin && maxOptionSize - margin >= |OptionNumber(i)| + 3
    ensures GetMangaNumOption(Truncate(OptionNumber(i) + OptionSep + rest, maxOptionSize, margin)) == OptionNumber(i)
  {
    var n := OptionNumber(i);
    var full := n + OptionSep + rest;
    var t := Truncate(full, maxOptionSize, margin);
    assert |t| >= |n| + 3 by {
      if |full| + margin >= maxOptionSize {
      } else {
        assert t == full;
      }
    }
    var tail := t[|n| + 3..];
    assert t == n + OptionSep + tail by {
      assert t[..|n| + 3] == full[..|n| + 3] == n + OptionSep;
    }
    DigitsExclude(n, ' ');
    SplitAfterFirst(n, OptionSep, tail);
  }

  /**
   * Picking the k-th manga option leads back to the k-th manga's id, as long as the option
   * is wide enough to keep its number and the separator.
   */
  lemma MangaOptionRoundTrip(m: seq<MangaInfo>, maxOptionSize: int, i: nat)
    requires i < |m| && maxOptionSize - 2 >= |OptionNumber(i)| + 3
    ensures var num := GetMangaNumOption(MangaOptions(m, maxOptionSize)[i]);
            num in Numbering(MangaIds(m)) && Numbering(MangaIds(m))[num] == m[i].id
  {
    var authors := Join(NamesOfType(m[i].relationships, "author"), ", ");
    assert MangaOption(i, authors, m[i].Title("en")) == OptionNumber(i) + OptionSep + (authors + OptionSep + m[i].Title("en"));
    NumberReadBack(i, authors + OptionSep + m[i].Title("en"), maxOptionSize, 2);
    NumberingLookup(MangaIds(m), i);
  }

  /** The same for the chapter options: the number read back leads to the chapter's id. */
  lemma ChapterOptionRoundTrip(c: seq<Chapter>, maxOptionSize: int, i: nat)
    requires i < |c| && maxOptionSize - 6 >= |OptionNumber(i)| + 3
    ensures var num := GetMangaNumOption(ChapterOptions(c, maxOptionSize)[i]);
            num in Numbering(ChapterIds(c)) && Numbering(ChapterIds(c))[num] == c[i].id
  {
    var rest := "vol. " + c[i].volume + OptionSep + "ch. " + c[i].number + OptionSep + c[i].title;
    assert ChapterOption(i, c[i].volume, c[i].number, c[i].title) == OptionNumber(i) + OptionSep + rest;
    NumberReadBack(i, rest, maxOptionSize, 6);
    NumberingLookup(ChapterIds(c), i);
  }

  // Saving formats.

  const MergeSuffix: string := " + merge chapters in one file"

  /** The k-th saving option, "k | format" with " + merge chapters in one file" for 4 to 6. */
  function SavingOption(k: nat): string
  {
    Itoa(k) + OptionSep + SavingLabel(k)
  }

  function SavingLabel(k: nat): string
  {
    match k
    case 1 => CbzExt
    case 2 => PdfExt
    case 3 => EpubExt
    case 4 => CbzExt + MergeSuffix
    case 5 => PdfExt + MergeSuffix
    case _ => EpubExt + MergeSuffix
  }

  lemma SavingLabelWithoutBar(k: nat)
    ensures '|' !in SavingLabel(k)
  {
    assert '|' !in CbzExt && '|' !in PdfExt && '|' !in EpubExt && '|' !in MergeSuffix;
  }

  /** toSavingOptions: the six options, numbered 1 to 6. */
  function ToSavingOptions(): (options: seq<string>)
    ensures |options| == 6 && forall k :: 1 <= k <= 6 ==> options[k - 1] == SavingOption(k)
  {
    [SavingOption(1), SavingOption(2), SavingOption(3), SavingOption(4), SavingOption(5), SavingOption(6)]
  }

  /** The format and merge flag an option number stands for; any other number means cbz without merging. */
  function FormatOfNumber(num: int): (string, bool)
  {
    match num
    case 1 => (CbzExt, false)
    case 2 => (PdfExt, false)
    case 3 => (EpubExt, false)
    case 4 => (CbzExt, true)
    case 5 => (PdfExt, true)
    case 6 => (EpubExt, true)
    case _ => (CbzExt, false)
  }

  /**
   * getSavingOption: ("", false) unless the option is exactly two " | "-separated parts with
   * an integer first part; otherwise the format of that number.
   */
  function GetSavingOption(option: string): (r: (string, bool))
    ensures |Split(option, OptionSep)| != 2 ==> r == ("", false)
    ensures |Split(option, OptionSep)| == 2 && Atoi(Split(option, OptionSep)[0]).None? ==> r == ("", false)
    ensures |Split(option, OptionSep)| == 2 && Atoi(Split(option, OptionSep)[0]).Some? ==>
              r == FormatOfNumber(Atoi(Split(option, OptionSep)[0]).value) && r.0 != ""
    ensures r.1 ==> r.0 != ""
  {
    var parts := Split(option, OptionSep);
    if |parts| != 2 then ("", false)
    else match Atoi(parts[0])
      case None => ("", false)
      case Some(num) => FormatOfNumber(num)
  }

  /** Every offered saving option reads back as its format, merging exactly for 4 to 6. */
  lemma SavingRoundTrip(k: nat)
    requires 1 <= k <= 6
    ensures GetSavingOption(ToSavingOptions()[k - 1])
         == (if k == 1 || k == 4 then CbzExt else if k == 2 || k == 5 then PdfExt else EpubExt, k >= 4)
  {
    var num, suffix := Itoa(k), SavingLabel(k);
    var parts := Split(ToSavingOptions()[k - 1], OptionSep);
    assert parts == [num, suffix] by {
      assert ToSavingOptions()[k - 1] == num + OptionSep + suffix;
      DigitsExclude(num, ' ');
      SavingLabelWithoutBar(k);
      SplitWithoutSepChar(suffix, OptionSep, 1);
      SplitAfterFirst(num, OptionSep, suffix);
    }
    assert Atoi(parts[0]) == Some(k) by {
      AtoiItoa(k);
    }
  }

  // Output names.

  /** The merged file's chapter label: the first number, and "-" with the last number when there are several. */
  function ChaptersRange(chapters: seq<ChapterFullInfo>): string
    requires |chapters| >= 1
  {
    chapters[0].info.number + (if |chapters| > 1 then "-" + chapters[|chapters| - 1].info.number else "")
  }

  /** The label splits back on "-" into the first and last numbers when neither holds a "-". */
  lemma ChaptersRangeSplits(chapters: seq<ChapterFullInfo>)
    requires |chapters| >= 1
    requires '-' !in chapters[0].info.number && '-' !in chapters[|chapters| - 1].info.number
    ensures Split(ChaptersRange(chapters), "-")
         == if |chapters| == 1 then [chapters[0].info.number]
            else [chapters[0].info.number, chapters[|chapters| - 1].info.number]
  {
    var first, last := chapters[0].info.number, chapters[|chapters| - 1].info.number;
    if |chapters| == 1 {
      assert ChaptersRange(chapters) == first;
      SplitWithoutSep(first, "-");
    } else {
      assert ChaptersRange(chapters) == first + "-" + last;
      SplitWithoutSep(last, "-");
      SplitAfterFirst(first, "-", last);
    }
  }

  /** " | translator" when there is a translator, nothing otherwise. */
  function TranslatorSuffix(translator: string): (s: string)
    ensures translator == "" <==> s == ""
  {
    if translator == "" then "" else OptionSep + translator
  }

  /** The name of one chapter's file: "[lang] title vol. V ch. N", then " | translator" if there is one. */
  function ChapterFileName(language: string, mangaTitle: string, chapter: ChapterFullInfo): string
  {
    "[" + language + "] " + mangaTitle + " vol. " + chapter.info.volume + " ch. " + chapter.info.number
      + TranslatorSuffix(chapter.info.Translator())
  }

  /** The name of the merged file: "[lang] title ch. RANGE", then " | translator" of the first chapter if there is one. */
  function MergedFileName(language: string, mangaTitle: string, chapters: seq<ChapterFullInfo>): string
    requires |chapters| >= 1
  {
    "[" + language + "] " + mangaTitle + " ch. " + ChaptersRange(chapters) + TranslatorSuffix(chapters[0].info.Translator())
  }

  /**
   * A single chapter's merged name differs from its own name only by the missing volume, and
   * both end in the translator's name exactly when there is one.
   */
  lemma FileNamesAgree(language: string, mangaTitle: string, chapter: ChapterFullInfo)
    ensures var plain := "[" + language + "] " + mangaTitle;
            var suffix := TranslatorSuffix(chapter.info.Translator());
            ChapterFileName(language, mangaTitle, chapter)
              == plain + " vol. " + chapter.info.volume + " ch. " + chapter.info.number + suffix
            && MergedFileName(language, mangaTitle, [chapter]) == plain + " ch. " + chapter.info.number + suffix
    ensures chapter.info.Translator() != "" ==>
              var name := ChapterFileName(language, mangaTitle, chapter);
              var t := OptionSep + chapter.info.Translator();
              |t| <= |name| && name[|name| - |t|..] == t
  {
    var t := chapter.info.Translator();
    if t != "" {
      var name := ChapterFileName(language, mangaTitle, chapter);
      var head := "[" + language + "] " + mangaTitle + " vol. " + chapter.info.volume + " ch. " + chapter.info.number;
      assert name == head + (OptionSep + t);
      assert name[|head|..] == OptionSep + t;
    }
  }

  // The page loop.

  datatype DownloadError = EmptyChapters | ApiFailed(apiError: ApiError) | ContainerFailed(containerError: EpubError)

  /** The image files of a chapter and their extension: the data-saver jpg files exactly when `isJpg`. */
  function PageFiles(chapter: ChapterFullInfo, isJpg: bool): (r: (seq<string>, string))
    ensures isJpg ==> r == (chapter.jpgFiles, "jpg")
    ensures !isJpg ==> r == (chapter.pngFiles, "png")
  {
    if isJpg then (chapter.jpgFiles, "jpg") else (chapter.pngFiles, "png")
  }

  /** What DownloadImage gives for one page file, given the server's replies. */
  function FetchPage(chapter: ChapterFullInfo, file: string, isJpg: bool, replies: string -> ImageReply)
    : Result<seq<bv8>, ApiError>
  {
    DownloadImage(chapter.downloadBaseUrl, chapter.hashId, file, isJpg, replies(file))
  }

  /**
   * The page loop from position `i`, on the staged paths and stored files of a container
   * whose temporary directory is `dir`: each page is fetched and then staged under
   * dir/names[i]; the first failing fetch or write ends the loop with its error.
   */
  function Staging(paths: seq<string>, stored: map<string, seq<bv8>>, dir: string, blocked: set<string>,
                   dirExists: bool, chapter: ChapterFullInfo, files: seq<string>, names: seq<string>,
                   isJpg: bool, replies: string -> ImageReply, i: nat)
    : (seq<string>, map<string, seq<bv8>>, Option<DownloadError>)
    requires |names| == |files| && i <= |files|
    decreases |files| - i
  {
    if i == |files| then (paths, stored, None)
    else match FetchPage(chapter, files[i], isJpg, replies)
      case Failure(e) => (paths, stored, Some(ApiFailed(e)))
      case Success(bytes) =>
        var path := PathJoin(dir, names[i]);
        if path in blocked || !dirExists then (paths, stored, Some(ContainerFailed(WriteFileFailed(path))))
        else Staging(paths + [path], stored[path := bytes], dir, blocked, dirExists, chapter, files, names,
                     isJpg, replies, i + 1)
  }

  /** The staging loop of downloadProcess, with the name each page is written under. */
  method StagePages(container: EpubArchive, chapter: ChapterFullInfo, files: seq<string>, names: seq<string>,
                    isJpg: bool, replies: string -> ImageReply)
    returns (err: Option<DownloadError>)
    requires |names| == |files|
    modifies container
    ensures (container.filesPaths, container.tempFiles, err)
         == Staging(old(container.filesPaths), old(container.tempFiles), container.tempDir, container.unwritable,
                    container.tempDirExists, chapter, files, names, isJpg, replies, 0)
    ensures container.book == old(container.book) && container.tempDir == old(container.tempDir)
    ensures container.tempDirExists == old(container.tempDirExists) && container.written == old(container.written)
  {
    for i := 0 to |files|
      invariant container.book == old(container.book) && container.tempDir == old(container.tempDir)
      invariant container.tempDirExists == old(container.tempDirExists) && container.written == old(container.written)
      invariant Staging(old(container.filesPaths), old(container.tempFiles), container.tempDir, container.unwritable,
                        container.tempDirExists, chapter, files, names, isJpg, replies, 0)
             == Staging(container.filesPaths, container.tempFiles, container.tempDir, container.unwritable,
                        container.tempDirExists, chapter, files, names, isJpg, replies, i)
    {
      var outputImage := DownloadImage(chapter.downloadBaseUrl, chapter.hashId, files[i], isJpg, replies(files[i]));
      if outputImage.Failure? {
        return Some(ApiFailed(outputImage.error));
      }
      var e := container.AddFile(names[i], outputImage.value);
      if e.Some? {
        return Some(ContainerFailed(e.value));
      }
    }
    return None;
  }

  /** The name downloadProcess writes every page of a chapter under: the bare extension. */
  function SameNames(n: nat, imgExt: string): (names: seq<string>)
    ensures |names| == n && forall i :: 0 <= i < n ==> names[i] == imgExt
  {
    seq(n, _ => imgExt)
  }

  /**
   * downloadProcess: ErrEmptyChapters when the download has no chapters at all; otherwise
   * every page file of the chapter (jpg files exactly when `isJpg`) is fetched and added to
   * the container under the file name `imgExt`, and the first error ends the loop.
   */
  method DownloadProcess(chaptersCount: nat, container: EpubArchive, chapter: ChapterFullInfo, isJpg: bool,
                         replies: string -> ImageReply)
    returns (err: Option<DownloadError>)
    modifies container
    ensures chaptersCount == 0 ==>
              (err == Some(EmptyChapters) && container.filesPaths == old(container.filesPaths)
               && container.tempFiles == old(container.tempFiles))
    ensures chaptersCount > 0 ==>
              var (files, imgExt) := PageFiles(chapter, isJpg);
              (container.filesPaths, container.tempFiles, err)
              == Staging(old(container.filesPaths), old(container.tempFiles), container.tempDir, container.unwritable,
                         container.tempDirExists, chapter, files, SameNames(|files|, imgExt), isJpg, replies, 0)
    ensures container.book == old(container.book) && container.tempDir == old(container.tempDir)
    ensures container.tempDirExists == old(container.tempDirExists) && container.written == old(container.written)
  {
    if chaptersCount == 0 {
      return Some(EmptyChapters);
    }
    var files := chapter.pngFiles;
    var imgExt := "png";
    if isJpg {
      files := chapter.jpgFiles;
      imgExt := "jpg";
    }
    err := StagePages(container, chapter, files, SameNames(|files|, imgExt), isJpg, replies);
  }

  /** The stored files after writing bytes[k] under dir/names[k] for k = i, i+1, ... in turn. */
  function StoreFrom(stored: map<string, seq<bv8>>, dir: string, names: seq<string>, bytes: seq<seq<bv8>>, i: nat)
    : map<string, seq<bv8>>
    requires |bytes| == |names| && i <= |names|
    decreases |names| - i
  {
    if i == |names| then stored
    else StoreFrom(stored[PathJoin(dir, names[i]) := bytes[i]], dir, names, bytes, i + 1)
  }

  /** The paths dir/names[k] for k = i, i+1, ... */
  function PathsFrom(dir: string, names: seq<string>, i: nat): (r: seq<string>)
    requires i <= |names|
    ensures |r| == |names| - i && forall k :: 0 <= k < |r| ==> r[k] == PathJoin(dir, names[i + k])
  {
    seq(|names| - i, k requires 0 <= k < |names| - i => PathJoin(dir, names[i + k]))
  }

  /** The bytes of every page, when each fetch succeeds. */
  function PagesOf(chapter: ChapterFullInfo, files: seq<string>, isJpg: bool, replies: string -> ImageReply)
    : (r: seq<seq<bv8>>)
    ensures |r| == |files|
    ensures forall k :: 0 <= k < |files| && FetchPage(chapter, files[k], isJpg, replies).Success?
              ==> r[k] == FetchPage(chapter, files[k], isJpg, replies).value
  {
    seq(|files|, k requires 0 <= k < |files| =>
      match FetchPage(chapter, files[k], isJpg, replies) case Success(b) => b case Failure(_) => [])
  }

  /** When every fetch succeeds and every path is writable, each page is staged in order. */
  lemma {:induction false} StagingClean(paths: seq<string>, stored: map<string, seq<bv8>>, dir: string,
                                        blocked: set<string>, chapter: ChapterFullInfo, files: seq<string>,
                                        names: seq<string>, isJpg: bool, replies: string -> ImageReply, i: nat)
    requires |names| == |files| && i <= |files|
    requires forall k :: i <= k < |files| ==>
               FetchPage(chapter, files[k], isJpg, replies).Success? && PathJoin(dir, names[k]) !in blocked
    ensures Staging(paths, stored, dir, blocked, true, chapter, files, names, isJpg, replies, i)
         == (paths + PathsFrom(dir, names, i), StoreFrom(stored, dir, names, PagesOf(chapter, files, isJpg, replies), i),
             None)
    decreases |files| - i
  {
    var pages := PagesOf(chapter, files, isJpg, replies);
    if i < |files| {
      var path, bytes := PathJoin(dir, names[i]), pages[i];
      StagingStep(paths, stored, dir, blocked, chapter, files, names, isJpg, replies, i, bytes);
      StagingClean(paths + [path], stored[path := bytes], dir, blocked, chapter, files, names, isJpg, replies, i + 1);
      PathsFromCons(dir, names, i);
      assert paths + [path] + PathsFrom(dir, names, i + 1) == paths + PathsFrom(dir, names, i);
    } else {
      assert paths + PathsFrom(dir, names, i) == paths;
    }
  }

  /** A page that is fetched and written is staged, and the loop goes on with the next one. */
  lemma StagingStep(paths: seq<string>, stored: map<string, seq<bv8>>, dir: string, blocked: set<string>,
                    chapter: ChapterFullInfo, files: seq<string>, names: seq<string>, isJpg: bool,
                    replies: string -> ImageReply, i: nat, bytes: seq<bv8>)
    requires |names| == |files| && i < |files|
    requires FetchPage(chapter, files[i], isJpg, replies) == Success(bytes) && PathJoin(dir, names[i]) !in blocked
    ensures Staging(paths, stored, dir, blocked, true, chapter, files, names, isJpg, replies, i)
         == Staging(paths + [PathJoin(dir, names[i])], stored[PathJoin(dir, names[i]) := bytes], dir, blocked, true,
                    chapter, files, names, isJpg, replies, i + 1)
  {
  }

  lemma PathsFromCons(dir: string, names: seq<string>, i: nat)
    requires i < |names|
    ensures PathsFrom(dir, names, i) == [PathJoin(dir, names[i])] + PathsFrom(dir, names, i + 1)
  {
  }

  /** Writing every page under one name keeps only the last page, under that one path. */
  lemma {:induction false} StoreSameName(stored: map<string, seq<bv8>>, dir: string, names: seq<string>,
                                         bytes: seq<seq<bv8>>, name: string, i: nat)
    requires |bytes| == |names| && i < |names|
    requires forall k :: i <= k < |names| ==> names[k] == name
    ensures StoreFrom(stored, dir, names, bytes, i) == stored[PathJoin(dir, name) := bytes[|names| - 1]]
    decreases |names| - i
  {
    if i + 1 < |names| {
      StoreSameName(stored[PathJoin(dir, name) := bytes[i]], dir, names, bytes, name, i + 1);
    }
  }

  /**
   * As the loop is written, a chapter of n pages leaves n copies of the one path
   * tempDir/png (or jpg) among the staged paths, and that file holds only the last page:
   * every image of the book is the last page.
   */
  lemma PagesOverwriteEachOther(paths: seq<string>, stored: map<string, seq<bv8>>, dir: string,
                                blocked: set<string>, chapter: ChapterFullInfo, isJpg: bool,
                                replies: string -> ImageReply)
    requires var (files, imgExt) := PageFiles(chapter, isJpg);
             |files| > 0 && PathJoin(dir, imgExt) !in blocked
             && forall k :: 0 <= k < |files| ==> FetchPage(chapter, files[k], isJpg, replies).Success?
    ensures var (files, imgExt) := PageFiles(chapter, isJpg);
            var path := PathJoin(dir, imgExt);
            var (newPaths, newStored, err) := Staging(paths, stored, dir, blocked, true, chapter, files,
                                                      SameNames(|files|, imgExt), isJpg, replies, 0);
            err == None && |newPaths| == |paths| + |files|
            && (forall k :: |paths| <= k < |newPaths| ==> newPaths[k] == path)
            && newStored == stored[path := PagesOf(chapter, files, isJpg, replies)[|files| - 1]]
  {
    var (files, imgExt) := PageFiles(chapter, isJpg);
    var names := SameNames(|files|, imgExt);
    StagingClean(paths, stored, dir, blocked, chapter, files, names, isJpg, replies, 0);
    StoreSameName(stored, dir, names, PagesOf(chapter, files, isJpg, replies), imgExt, 0);
  }

  /** The name each page is meant to have: its position counted from 1, then the extension. */
  function PageFileName(i: nat, imgExt: string): string
  {
    Itoa(i + 1) + "." + imgExt
  }

  function NumberedNames(n: nat, imgExt: string): (names: seq<string>)
    ensures |names| == n && forall i :: 0 <= i < n ==> names[i] == PageFileName(i, imgExt)
  {
    seq(n, i requires 0 <= i < n => PageFileName(i, imgExt))
  }

  /** The page loop with a distinct file name per page. */
  method DownloadProcessNumbered(chaptersCount: nat, container: EpubArchive, chapter: ChapterFullInfo, isJpg: bool,
                                 replies: string -> ImageReply)
    returns (err: Option<DownloadError>)
    modifies container
    ensures chaptersCount == 0 ==>
              (err == Some(EmptyChapters) && container.filesPaths == old(container.filesPaths)
               && container.tempFiles == old(container.tempFiles))
    ensures chaptersCount > 0 ==>
              var (files, imgExt) := PageFiles(chapter, isJpg);
              (container.filesPaths, container.tempFiles, err)
              == Staging(old(container.filesPaths), old(container.tempFiles), container.tempDir, container.unwritable,
                         container.tempDirExists, chapter, files, NumberedNames(|files|, imgExt), isJpg, replies, 0)
    ensures container.book == old(container.book) && container.tempDir == old(container.tempDir)
    ensures container.tempDirExists == old(container.tempDirExists) && container.written == old(container.written)
  {
    if chaptersCount == 0 {
      return Some(EmptyChapters);
    }
    var (files, imgExt) := PageFiles(chapter, isJpg);
    err := StagePages(container, chapter, files, NumberedNames(|files|, imgExt), isJpg, replies);
  }

  /** Distinct positions give distinct page paths. */
  lemma PagePathsDistinct(dir: string, imgExt: string, a: nat, b: nat)
    requires a != b
    ensures PathJoin(dir, PageFileName(a, imgExt)) != PathJoin(dir, PageFileName(b, imgExt))
  {
    if PathJoin(dir, PageFileName(a, imgExt)) == PathJoin(dir, PageFileName(b, imgExt)) {
      PathJoinInjective(dir, PageFileName(a, imgExt), PageFileName(b, imgExt));
      var x, y, t := Itoa(a + 1), Itoa(b + 1), "." + imgExt;
      assert PageFileName(a, imgExt) == x + t && PageFileName(b, imgExt) == y + t;
      assert |x| == |y|;
      assert x == (x + t)[..|x|] && y == (y + t)[..|y|];
      ItoaInjective(a + 1, b + 1);
    }
  }

  /** A path none of the later writes uses keeps what it held. */
  lemma {:induction false} StoreFromOutside(stored: map<string, seq<bv8>>, dir: string, names: seq<string>,
                                            bytes: seq<seq<bv8>>, i: nat, p: string)
    requires |bytes| == |names| && i <= |names| && p in stored
    requires forall k :: i <= k < |names| ==> PathJoin(dir, names[k]) != p
    ensures p in StoreFrom(stored, dir, names, bytes, i) && StoreFrom(stored, dir, names, bytes, i)[p] == stored[p]
    decreases |names| - i
  {
    if i < |names| {
      StoreFromOutside(stored[PathJoin(dir, names[i]) := bytes[i]], dir, names, bytes, i + 1, p);
    }
  }

  /** With distinct paths every page is kept, each under its own path. */
  lemma {:induction false} StoreDistinct(stored: map<string, seq<bv8>>, dir: string, names: seq<string>,
                                         bytes: seq<seq<bv8>>, i: nat, k: nat)
    requires |bytes| == |names| && i <= k < |names|
    requires forall a, b :: i <= a < b < |names| ==> PathJoin(dir, names[a]) != PathJoin(dir, names[b])
    ensures var s := StoreFrom(stored, dir, names, bytes, i);
            PathJoin(dir, names[k]) in s && s[PathJoin(dir, names[k])] == bytes[k]
    decreases |names| - i
  {
    var next := stored[PathJoin(dir, names[i]) := bytes[i]];
    if k == i {
      StoreFromOutside(next, dir, names, bytes, i + 1, PathJoin(dir, names[i]));
    } else {
      StoreDistinct(next, dir, names, bytes, i + 1, k);
    }
  }

  /** With numbered names every page of the chapter is staged under its own path and keeps its bytes. */
  lemma NumberedPagesKept(paths: seq<string>, stored: map<string, seq<bv8>>, dir: string,
                          blocked: set<string>, chapter: ChapterFullInfo, isJpg: bool,
                          replies: string -> ImageReply)
    requires var (files, imgExt) := PageFiles(chapter, isJpg);
             (forall k :: 0 <= k < |files| ==> PathJoin(dir, PageFileName(k, imgExt)) !in blocked)
             && forall k :: 0 <= k < |files| ==> FetchPage(chapter, files[k], isJpg, replies).Success?
    ensures var (files, imgExt) := PageFiles(chapter, isJpg);
            var (newPaths, newStored, err) := Staging(paths, stored, dir, blocked, true, chapter, files,
                                                      NumberedNames(|files|, imgExt), isJpg, replies, 0);
            err == None && newPaths == paths + PathsFrom(dir, NumberedNames(|files|, imgExt), 0)
            && forall k :: 0 <= k < |files| ==>
                 var p := PathJoin(dir, PageFileName(k, imgExt));
                 p in newStored && newStored[p] == PagesOf(chapter, files, isJpg, replies)[k]
  {
    var (files, imgExt) := PageFiles(chapter, isJpg);
    var names := NumberedNames(|files|, imgExt);
    var pages := PagesOf(chapter, files, isJpg, replies);
    StagingClean(paths, stored, dir, blocked, chapter, files, names, isJpg, replies, 0);
    forall a, b | 0 <= a < b < |names| ensures PathJoin(dir, names[a]) != PathJoin(dir, names[b]) {
      PagePathsDistinct(dir, imgExt, a, b);
    }
    forall k | 0 <= k < |files|
      ensures PathJoin(dir, PageFileName(k, imgExt)) in StoreFrom(stored, dir, names, pages, 0)
              && StoreFrom(stored, dir, names, pages, 0)[PathJoin(dir, PageFileName(k, imgExt))] == pages[k]
    {
      StoreDistinct(stored, dir, names, pages, 0, k);
    }
  }
}
