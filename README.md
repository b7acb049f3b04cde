# mdx in Dafny: chapter selection, paging, naming and packaging

This project models the logic of the `mdx` MangaDex downloader that sits between the MangaDex HTTP client and the output writers, and proves properties of that model.

**Chapter selection.** A page of the chapter feed is filtered by a chapter-number range and a translation-group substring. An entry is dropped when it repeats the number of the last entry kept. Non-integer numbers are counted as "extra" chapters.

**Paging window.** The `GetFullChaptersInfo` loop requests pages of 10 records. It widens its high bound by each page's extra count and stops at the first failing request. It then looks up the image server of every selected chapter. The earlier client snapshot (`clientapi.go`) is modelled beside the current one: it starts the window differently and keeps repeated numbers.

**Supporting logic:**
- reading a manga id out of a link or a list of arguments;
- the manga accessors (title, description, authors, artists, tags, https links, alternative titles);
- the metadata records a chapter is written with;
- the container factory and the collision-free output path;
- the EPUB container, a class whose staged files and book are updated in place;
- the downloader's numbered prompt options and the numbers read back from them, the saving formats, the output file names, and the page loop that feeds a container;
- the text of an API error;
- the ids of a volume listing;
- the update check.

**Library behaviour modelled.** Where the code relies on Go library behaviour, the model states that behaviour explicitly: `strconv.Atoi` (sign, digits, 64-bit range), `strings.Split`/`Join`/`Contains`/`ReplaceAll`, `fmt`'s `%d`, and `net/url.Parse` reduced to scheme, host and path (module `Urls`). A Go `map` loop visits its keys in an order the model leaves open. Each such loop is a method that picks keys with `:|` and returns the order it used as a ghost value. Lemmas then show what does not depend on that order.

**Inputs in place of effects.** Every effect is an input of the model:
- the feed is a finite catalog of records plus the set of offsets whose request fails;
- the image server's replies are a function of the file name;
- the file system is a set of existing paths, or a map of stored files;
- each library or file-system call that can fail takes its outcome as a parameter;
- the clock reading is a string argument.

Modules:
- `Wrappers`, `Strings`, `Sequences` and `Urls`: shared helpers;
- `Chapters`: `mangadexapi/chapter.go`;
- `Api`: `mangadexapi/api.go`;
- `ClientApi`: the earlier `mangadexapi/clientapi.go`;
- `Manga`: `mangadexapi/manga.go`;
- `ErrorFormat`: `mangadexapi/error.go`;
- `Volumes`: `mangadexapi/volume.go`;
- `Metadata`: `filekit/metadata/metadata.go`;
- `Containers`: `filekit/container.go`;
- `Epub`: `filekit/epub.go`;
- `Download`: `internal/mdx/download.go`;
- `Update`: the update check of `internal/mdx/update.go` and `cmd/update.go`.

**Earlier-snapshot code that is the same as the current code.** Several functions of `clientapi.go` have bodies identical to the current ones, and the current members model both copies:
- `ErrorResponse.Error` (clientapi.go:49-61) is `ErrorFormat.ErrorResponse.Error`;
- `GetAuthors`, `GetArtists` and `GetTags` (clientapi.go:184-212) are `Manga.MangaInfo.Authors`, `Manga.MangaInfo.Artists` and `Manga.MangaInfo.Tags`.

## Model

| member | source | states |
|---|---|---|
| Chapters.Chapter.Translator | mangadexapi/chapter.go:63-70 | the name of the first "scanlation_group" relationship; "" when there is none |
| Chapters.Chapter.UploadedBy | mangadexapi/chapter.go:46-53 | the user name of the first "user" relationship; "" when there is none |
| Chapters.Chapter.MangaId | mangadexapi/chapter.go:72-79 | the id of the first "manga" relationship; "" when there is none |
| Chapters.FirstIndexOfType | mangadexapi/chapter.go:64-69 | the scan stops at the first relationship of the type, or at the end; no earlier relationship has the type |
| Chapters.RangeKey | mangadexapi/chapter.go:129-155 | the number compared with the range: Atoi of the number, else Atoi of the part before "." of a two-part "a.b" number, else none |
| Chapters.ChapterList.GetChapters | mangadexapi/chapter.go:116-168 | the loop returns exactly the selection specification `Selected` for the range and group, plus the extra count `CountExtra` of the page |
| Chapters.ChapterList.GetAllChapters | mangadexapi/chapter.go:100-114 | the loop returns `Selected` with the group filter only: a repeat of the last kept number is skipped, and otherwise an entry is kept when its translator matches |
| Chapters.VisitChapter | mangadexapi/chapter.go:125-164 | one loop round: a passing entry is appended unless it repeats the last kept number, and the extra count grows exactly for a non-empty number that Atoi rejects |
| Chapters.EmptyPage | mangadexapi/chapter.go:117-119 | an empty page selects nothing and counts no extra chapter |
| Chapters.SelectedSubsequence | mangadexapi/chapter.go:124-165 | the kept entries are a subsequence of the page, in page order |
| Chapters.SelectedPass | mangadexapi/chapter.go:125-163 | every kept entry has a non-empty number whose range key lies in [lowest, highest], and a translator containing the group |
| Chapters.SelectedNoAdjacentRepeat | mangadexapi/chapter.go:134-138 | no two neighbouring kept entries share a number string |
| Chapters.SelectedStep | mangadexapi/chapter.go:131-141 | a passing entry is dropped exactly when the last kept entry has its number string; a failing entry is always dropped |
| Chapters.SelectedPrefix | mangadexapi/chapter.go:124-165 | reading further entries never removes an entry already kept |
| Chapters.SelectedCoversNumbers | mangadexapi/chapter.go:157-163 | every passing entry has its number among the kept entries |
| Chapters.SeparatedRepeatSurvives | mangadexapi/chapter.go:134-138 | the same number twice with another number between them is kept both times |
| Chapters.AdjacentRepeatDropped | mangadexapi/chapter.go:134-138 | two passing neighbours with equal numbers: the current selection keeps one, the earlier selection keeps both |
| Chapters.CountExtraConcat | mangadexapi/chapter.go:145 | the extra counts of two consecutive pieces add up |
| Chapters.CountExtraIndices | mangadexapi/chapter.go:125-145 | the extra count is the number of positions with a non-empty number that Atoi rejects, whatever the range and group |
| Chapters.ExtraNeverInRange | mangadexapi/chapter.go:145-155 | "abc" and "1.2.3" are extra, and neither has a range key, so no range selects them |
| Chapters.FractionalNumberUsesIntegerPart | mangadexapi/chapter.go:147-157 | "10.5" is extra and is compared by its integer part 10 |
| Chapters.EmptyGroupMatchesAll | mangadexapi/chapter.go:59-61 | the empty group matches every chapter |
| Chapters.FilteredExactly | mangadexapi/clientapi.go:383-411 | the earlier selection keeps only passing entries, and it keeps every passing entry, repeats included |
| Chapters.FilteredSubsequence | mangadexapi/clientapi.go:383-411 | the earlier selection is a subsequence of the page |
| Chapters.SelectedWithinFiltered | mangadexapi/chapter.go:134-140 | what the current selection keeps, the earlier one keeps too, in the same order |
| Api.IdFromParsed | mangadexapi/api.go:40-53 | "" for a failed parse, for a host other than mangadex.org, or for a path with fewer than three "/" parts; otherwise the third part |
| Api.MangaIdFromHttpsLink | mangadexapi/api.go:34-54 | "https://mangadex.org/kind/id" followed by a path tail gives the id |
| Api.MangaIdFromBareLink | mangadexapi/api.go:36-38 | the same link without a scheme gets "https://" in front and gives the same id |
| Api.IdOfHttpsLink | mangadexapi/api.go:49-53 | an https link to mangadex.org whose path has at least three parts gives the third part |
| Api.GetMangaIdFromArg | mangadexapi/api.go:56-63 | the loop returns the first non-empty id among the arguments' ids, in argument order |
| Api.FirstArgumentId | mangadexapi/api.go:56-63 | the result is "" exactly when every argument gives ""; otherwise it is the id of an argument all of whose predecessors give "" |
| Api.FindGuard | mangadexapi/api.go:105-108 | Find refuses an empty title, a zero limit or a negative offset with ErrBadInput, and nothing else |
| Api.DownloadImage | mangadexapi/api.go:217-252 | ErrBadInput for any empty argument; ErrConnection without a reply; the empty error body on an error status; ErrUnexpectedHeader unless the Content-Type is image/jpeg or image/png; success exactly otherwise, with the reply's bytes |
| Api.ImagePath | mangadexapi/api.go:223-226 | the data-saver path exactly when isJpg |
| Api.PageSplit | mangadexapi/api.go:273-277 | consecutive pages of 10 tile the catalog, so the extra count after an offset is the page's count plus the count after the next page |
| Api.WindowRound | mangadexapi/api.go:272-300 | one round: the page at lo is kept, followed by the window from lo + 10 with the high bound raised by the page's extra count |
| Api.OffsetsStep | mangadexapi/api.go:272-298 | the requested offsets step by 10 from the first one, and only the last of them can fail |
| Api.FinalHighBound | mangadexapi/api.go:272-299 | the high bound grows by at most the extra chapters at and after the first offset, so the loop ends on every finite catalog |
| Api.OffsetsReachFinalHigh | mangadexapi/api.go:272-300 | without failures, pages are requested until the offset passes the final high bound |
| Api.WindowSubsequence | mangadexapi/api.go:295-297 | a window returns an ordered selection of the records from its first offset on |
| Api.WindowCovers | mangadexapi/api.go:272-300 | a record at an offset from lo through hi with a covered property has its number among the returned chapters |
| Api.SelectionWindowSound | mangadexapi/api.go:295-297 | for both revisions, a successful window is an ordered selection of the catalog, and every chapter in it passes the selection |
| Api.SelectionWindowCovers | mangadexapi/api.go:272-300 | a passing record at an offset the window spans has its number among the returned chapters |
| Api.InitialHigh | mangadexapi/api.go:267-271 | the first high bound is highest + 10 when the range is narrower than 10, and highest otherwise |
| Api.FullInfo | mangadexapi/api.go:319-325 | a chapter together with its image server, hash, full-quality and data-saver file names |
| Api.FullInfosSuccess | mangadexapi/api.go:302-328 | successful lookups give one entry per chapter, in order, each built from that chapter's answer |
| Api.FullInfosFailure | mangadexapi/api.go:311-317 | the lookups fail exactly when some chapter's answer is an error, and then with the error of the first such chapter |
| Api.FullChaptersInfoSound | mangadexapi/api.go:254-331 | a successful result had a valid range, and every chapter it returns has a range key in [lowest, highest] and the requested translator |
| Api.GetFullChaptersInfo | mangadexapi/api.go:254-331 | ErrBadInput on a bad range with no request; otherwise the window from offset lowest to InitialHigh, or its error, and then the image lookups |
| Api.CollectPages | mangadexapi/api.go:272-300 | the paging loop returns exactly the window function from its bounds |
| Api.LookUpImages | mangadexapi/api.go:302-328 | the second loop returns exactly the image lookups, stopping at the first error |
| Api.PageRound | mangadexapi/api.go:282-295 | a failing offset's error, or the page's current selection with its extra count |
| Api.FirstChapterSkipped | mangadexapi/api.go:267-277 | with chapter "1" at position 0, the window for [1, 1] starts at offset 1 and returns nothing |
| Api.DownloadErrorBodyLost | mangadexapi/api.go:228-243 | on an error status the returned error is the empty response, whatever the server sent |
| Api.DownloadImageKeepingError | mangadexapi/api.go:228-243 | the intended download returns the server's error body on an error status, and agrees with DownloadImage otherwise |
| Api.CorrectedStart | mangadexapi/api.go:267 | the intended first offset: the position of chapter lowest, which is lowest - 1 |
| Api.CorrectedWindowCovers | mangadexapi/api.go:267-300 | started at CorrectedStart, the window misses no passing record up to its first high bound when no number runs ahead of its position |
| Api.CorrectedStartFindsFirst | mangadexapi/api.go:267-300 | the corrected window returns chapter "1" for [1, 1] |
| ClientApi.MangaIdFromHttpsLink | mangadexapi/clientapi.go:63-78 | the earlier parser gives the id of "https://mangadex.org/kind/id" followed by a path tail |
| ClientApi.SameIdWithScheme | mangadexapi/clientapi.go:63-78 | with an "https://" scheme, both clients read the same id |
| ClientApi.BareLinkHasNoId | mangadexapi/clientapi.go:64-71 | without a scheme the earlier client finds no host and gives "", while the current one finds the id |
| ClientApi.GetMangaIdFromArg | mangadexapi/clientapi.go:80-87 | the first non-empty id among the arguments' ids, in argument order |
| ClientApi.FirstArgumentId | mangadexapi/clientapi.go:80-87 | "" exactly when every argument gives ""; otherwise the id of an argument all of whose predecessors give "" |
| ClientApi.GetChapters | mangadexapi/clientapi.go:375-414 | the earlier loop returns `Filtered`, every passing entry with repeats included, plus the extra count |
| ClientApi.VisitChapter | mangadexapi/clientapi.go:384-410 | one earlier loop round: a passing entry is always appended, and the extra count grows exactly for a non-empty number that Atoi rejects |
| ClientApi.EarlyLow | mangadexapi/clientapi.go:573-576 | the earlier first offset is 0 for a low bound of at most 10, and the low bound otherwise |
| ClientApi.EarlyHigh | mangadexapi/clientapi.go:577-580 | the earlier first high bound is 10 for a high bound below 10, and the high bound otherwise |
| ClientApi.GetFullChaptersInfo | mangadexapi/clientapi.go:560-640 | ErrBadInput on a bad range; otherwise the earlier window from EarlyLow to EarlyHigh, then the image lookups |
| ClientApi.FullChaptersInfoSound | mangadexapi/clientapi.go:560-640 | a successful earlier result had a valid range, and all of its chapters pass the selection |
| ClientApi.CollectPages | mangadexapi/clientapi.go:581-609 | the earlier paging loop returns exactly the window with the earlier page filter |
| ClientApi.EarlyWindowCovers | mangadexapi/clientapi.go:573-609 | for a low bound of at most 10, the earlier window misses no passing record up to its first high bound |
| ClientApi.EarlyFindsFirst | mangadexapi/clientapi.go:573-609 | the earlier window finds chapter "1" for [1, 1] |
| Manga.MangaInfo.Title | mangadexapi/manga.go:65-67 | the title in the language, or "" when there is none |
| Manga.MangaInfo.Description | mangadexapi/manga.go:115-117 | the description in the language, or "" when there is none |
| Manga.MangaInfo.Authors | mangadexapi/manga.go:79-87 | the ", " join of the names of the "author" relationships, in relationship order |
| Manga.MangaInfo.Artists | mangadexapi/manga.go:89-97 | the ", " join of the names of the "artist" relationships, in relationship order |
| Manga.MangaInfo.Tags | mangadexapi/manga.go:119-127 | the ", " join of the English names of the entries of type "tag", in order |
| Manga.MangaInfo.Links | mangadexapi/manga.go:129-138 | the https links of the map's values, in the order the map loop visited the keys |
| Manga.MangaInfo.AltTitles | mangadexapi/manga.go:69-77 | the " \| " join of the "title (language)" items, map by map, in each map's visiting order |
| Manga.FormatLanguages | mangadexapi/manga.go:72-74 | the inner loop gives one "title (language)" item per key of the map, in visiting order |
| Manga.NamesOfTypeMembers | mangadexapi/manga.go:81-85 | one name per relationship of the type; every such name is listed, and every listed name comes from such a relationship |
| Manga.NamesOfTypeConcat | mangadexapi/manga.go:81-85 | filtering by type distributes over concatenation, so relationship order is kept |
| Manga.NoneOfTypeEmpty | mangadexapi/manga.go:79-87 | with no relationship of the type, the result is "" |
| Manga.AuthorsSplitBack | mangadexapi/manga.go:86 | when no name holds a comma, splitting the joined list at ", " gives the names back |
| Manga.EnglishTagNamesOne | mangadexapi/manga.go:121-124 | a "tag" entry contributes its English name (or "" when it has none); any other type contributes nothing |
| Manga.LinksSound | mangadexapi/manga.go:129-138 | a link is returned exactly when it is a value of the map that parses with scheme "https" |
| Manga.LinksOrderIrrelevant | mangadexapi/manga.go:131 | as a multiset, the returned links do not depend on the map's visiting order |
| Manga.AltTitleItemsForm | mangadexapi/manga.go:72-74 | every item is "title (language)" for a language of one of the maps |
| Manga.AltTitlesOrderIrrelevant | mangadexapi/manga.go:71-75 | as a multiset, the items do not depend on the visiting orders |
| Manga.AltTitlesCount | mangadexapi/manga.go:69-77 | one item per (language, title) pair: the number of items is the total size of the maps |
| Manga.AltTitlesComplete | mangadexapi/manga.go:69-77 | every (language, title) pair of every map appears as the item "title (language)" |
| ErrorFormat.ErrorResponse.Error | mangadexapi/error.go:18-30 | the loop builds exactly the message: header, the rendered details joined by ", ", then "]" |
| ErrorFormat.MessageFrame | mangadexapi/error.go:19-27 | the message starts with "result: R ; errors: [" and ends with "]" |
| ErrorFormat.MessageWithoutDetails | mangadexapi/error.go:19-29 | with no details the message is "result: R ; errors: []" |
| ErrorFormat.MessageOneMore | mangadexapi/error.go:20-25 | a further detail is preceded by ", " when there are details already, and never otherwise |
| ErrorFormat.MessageOneDetail | mangadexapi/error.go:20-25 | a single detail sits between the brackets with no separator |
| ErrorFormat.RenderFrame | mangadexapi/error.go:21-22 | a rendered detail opens with "{id: I, status: " and ends with "}" |
| ErrorFormat.RenderAll | mangadexapi/error.go:20-22 | one rendering per detail, in slice order |
| Volumes.VolumeChapter.AllIds | mangadexapi/volume.go:51-56 | the main id followed by the other ids: length 1 + \|others\|, and exactly those ids |
| Volumes.Volume.ChapterIds | mangadexapi/volume.go:25-32 | the loop visits every chapter once and appends each chapter's block (main id, then the others) in visiting order |
| Volumes.ChapterBlockInPlace | mangadexapi/volume.go:28-29 | each chapter's main id is immediately followed by its other ids, right after the blocks of the chapters visited before it |
| Volumes.ChapterIdsLength | mangadexapi/volume.go:25-32 | the collected ids number one plus the others, per chapter |
| Volumes.ChapterIdsMembers | mangadexapi/volume.go:25-32 | an id is collected exactly when it is among some visited chapter's ids |
| Volumes.ChapterIdsOrderIrrelevant | mangadexapi/volume.go:27 | the multiset of ids does not depend on the visiting order, and it holds every id of every chapter |
| Metadata.MangaProvider.Title | filekit/metadata/metadata.go:65 | the title in the language, or "" |
| Metadata.CreditsOf | filekit/metadata/metadata.go:89-103 | \|authors\| + \|artists\| credits: every author as "Writer" in order, then every artist as "Artist" in order |
| Metadata.BuildCredits | filekit/metadata/metadata.go:89-103 | the two append loops build exactly CreditsOf |
| Metadata.BuildSummary | filekit/metadata/metadata.go:108-111 | the += loop builds exactly the summary: description, "<br>Read or Buy here:<br>", each link followed by "<br>" |
| Metadata.SummaryHoldsLinks | filekit/metadata/metadata.go:108-111 | the summary starts with the description and header, and the i-th link with its "<br>" sits right after the lines of the links before it |
| Metadata.LinkLinesConcat | filekit/metadata/metadata.go:109-111 | the lines of two runs of links follow each other |
| Metadata.MetadataOf | filekit/metadata/metadata.go:87-152 | the series and ComicInfo title are "lang \| title volV chN"; every CBI, CI and plain field as the record literal assigns it, including the fixed format, manga flag and XML name |
| Metadata.NewMetadata | filekit/metadata/metadata.go:87-152 | the builder returns MetadataOf, with the clock reading passed in |
| Metadata.OnlyTimeStampDiffers | filekit/metadata/metadata.go:113-149 | two builds from the same inputs differ at most in LastModified |
| Containers.NewContainer | filekit/container.go:26-38 | success exactly for "cbz", "pdf" and "epub"; ErrExtensionNotSupport otherwise |
| Containers.NewContainerRoundTrip | filekit/container.go:28-35 | each kind is built from its own extension and from no other |
| Containers.Sanitize | filekit/container.go:41-42 | same length; every "/" and "\" becomes "_"; every other character is unchanged |
| Containers.SanitizeIdempotent | filekit/container.go:41-42 | sanitising twice changes nothing more, and a name without separators is kept |
| Containers.SafeOutputPath | filekit/container.go:40-55 | the result does not exist, and it is the first try that does not exist among "name.ext", "name (1).ext", ... |
| Containers.CandidateInjective | filekit/container.go:44-52 | different tries give different paths |
| Containers.FirstFreeBound | filekit/container.go:46-53 | the first free try is unique and is at most the number of existing paths, so the loop ends |
| Containers.ResolveTwice | filekit/container.go:44-54 | resolving a free name gives "name.ext"; once that path exists, resolving again gives "name (1).ext" |
| Epub.EpubArchive.constructor | filekit/epub.go:32-36 | a new archive has the empty book, the temporary directory, no staged paths and no stored files |
| Epub.NewEpubArchive | filekit/epub.go:21-37 | the library's failure or the temporary directory's failure is returned; otherwise a fresh, empty archive |
| Epub.EpubArchive.AddFile | filekit/epub.go:84-94 | a successful write appends tempDir/name to the staged paths and stores the bytes there, replacing older ones; a failed write changes nothing |
| Epub.EpubArchive.AddAllPages | filekit/epub.go:42-53 | the image loop leaves the book and error of AddPages and changes nothing else |
| Epub.EpubArchive.WriteOnDiskAndClose | filekit/epub.go:39-82 | the pages are added first; on success the title, author, language and description are set, and then the directory, write and removal outcomes follow in order, each error returning at once; the temporary files go only when all succeed |
| Epub.AddPagesClean | filekit/epub.go:42-53 | with no failing call, every staged file becomes an image labelled i + 1 and a section, in staged order |
| Epub.AddPagesFailure | filekit/epub.go:44-51 | the first failing call ends the loop with its error; the earlier files are in the book, and the failing file's image too when only its section failed |
| Epub.SectionLabelsDistinct | filekit/epub.go:43-49 | section labels are distinct, and the i-th reads back as i + 1 |
| Epub.ImagesFrom | filekit/epub.go:43-44 | the images of the staged files in order, each named by its index label |
| Epub.BookTitle | filekit/epub.go:55-58 | "T volV chN" without a chapter range, "T chR" with one |
| Epub.BookTitleRepeatsVolume | filekit/epub.go:55-58 | for one chapter, the book title names the volume and the chapter twice |
| Epub.OutputPath | filekit/epub.go:73-76 | the book is written to the sanitised name with ".epub", inside the output directory |
| Download.Truncate | internal/mdx/download.go:325-327 | an option that would not fit with the margin is cut to its first maxOptionSize - margin characters; any other option is unchanged |
| Download.ToMangaInfoOptions | internal/mdx/download.go:320-332 | one option "N \| authors \| title" per manga, cut with margin 2, and the map from each number to that manga's id |
| Download.ToChaptersOptions | internal/mdx/download.go:338-351 | one option "N \| vol. V \| ch. C \| title" per chapter, cut with margin 6, and the map from each number to that chapter's id |
| Download.NumberingKeys | internal/mdx/download.go:329-348 | the map's keys are exactly the option numbers 1..n |
| Download.NumberingLookup | internal/mdx/download.go:329-348 | option number i + 1 leads to the i-th id |
| Download.OptionNumberInjective | internal/mdx/download.go:324-343 | distinct positions are shown as distinct numbers |
| Download.GetChapterNumsFromOptions | internal/mdx/download.go:353-359 | one number per option, in order, each the text before the first " \| " |
| Download.MangaOptionRoundTrip | internal/mdx/download.go:320-336 | the number read back from the i-th manga option leads to the i-th manga's id, when the option keeps its number and separator |
| Download.ChapterOptionRoundTrip | internal/mdx/download.go:338-358 | the number read back from the i-th chapter option leads to the i-th chapter's id |
| Download.ToSavingOptions | internal/mdx/download.go:361-373 | the six options numbered 1 to 6 |
| Download.GetSavingOption | internal/mdx/download.go:375-402 | ("", false) unless there are exactly two parts with an integer first part; otherwise the format of that number, where 1-3 are unmerged, 4-6 merged and any other number cbz unmerged |
| Download.SavingRoundTrip | internal/mdx/download.go:361-398 | the k-th offered option reads back as the k-th format, merging exactly for k of 4 or more |
| Download.ChaptersRangeSplits | internal/mdx/download.go:96-99 | the range label is the first number, with "-" and the last number exactly when there are several chapters |
| Download.TranslatorSuffix | internal/mdx/download.go:102-108 | " \| translator" exactly when there is a translator |
| Download.FileNamesAgree | internal/mdx/download.go:101-144 | "[lang] title vol. V ch. N" and "[lang] title ch. RANGE", each ending in " \| translator" exactly when there is one |
| Download.PageFiles | internal/mdx/download.go:164-169 | the data-saver files and "jpg" exactly when isJpg; the full-quality files and "png" otherwise |
| Download.StagePages | internal/mdx/download.go:176-191 | the page loop fetches, then adds each page in list order, and stops at the first error |
| Download.DownloadProcess | internal/mdx/download.go:154-194 | ErrEmptyChapters with no chapters; otherwise the page loop, with every page added under the bare extension; the book, directory and written file of the container are unchanged |
| Download.StagingClean | internal/mdx/download.go:176-191 | when every fetch and write succeeds, every page is staged in order |
| Download.PagesOverwriteEachOther | internal/mdx/download.go:176-191 | as written, n pages give n copies of one staged path, and that path holds only the last page |
| Download.DownloadProcessNumbered | internal/mdx/download.go:154-194 | the corrected page loop: each page is added under its own numbered name; the book, directory and written file of the container are unchanged |
| Download.NumberedPagesKept | internal/mdx/download.go:176-191 | with numbered names, every page is staged under its own path and keeps its bytes |
| Strings.Atoi | mangadexapi/chapter.go:129 | an optional sign then one or more decimal digits, within the 64-bit range; anything else is an error |
| Strings.AtoiItoa | internal/mdx/download.go:329-380 | the decimal text of n reads back as n |
| Update.ShouldUpdate | internal/mdx/update.go:35-60 | a tag that is not three dot-parts triggers an update exactly when it differs from the current version |
| Update.FlagIsDisjunction | internal/mdx/update.go:35-57 | the flag is never reset: with a three-part tag, the decision is the disjunction of the major, minor and patch reasons |
| Update.NonNumericComponent | internal/mdx/update.go:48-54 | a minor or patch part that does not convert triggers an update |
| Update.GreaterComponent | internal/mdx/update.go:50-56 | a greater minor, or a greater patch, triggers an update on its own |
| Update.NoReasonNoUpdate | internal/mdx/update.go:35-57 | without any of the three reasons there is no update |
| Update.SameVersionNoUpdate | internal/mdx/update.go:39-57 | a three-part version with numeric minor and patch is not an update over itself |
| Update.OwnVersionsNoUpdate | cmd/update.go:51-74 | a tag equal to "v1.10.2" or, for the older command, to "v1.0.0" is not an update |
| Update.OlderReleaseReported | internal/mdx/update.go:50-56 | the older release "v1.9.5" is reported over "v1.10.2" because its patch 5 exceeds 2 |
| Update.NewerMajorMissed | cmd/update.go:58-61 | the newer major "v10.0.0" is not reported over "v1.0.0", because "v10" contains "v1" |
| Update.IsNewerReleaseSound | internal/mdx/update.go:35-60 | the intended decision never reports one's own version, and never reports in both directions |
| Update.OlderStrictTotal | internal/mdx/update.go:35-60 | release order by major, then minor, then patch, is a strict total order |
| Update.IsNewerReleaseExamples | internal/mdx/update.go:35-60 | the intended decision reports "v10.0.0" over "v1.0.0" and does not report "v1.9.5" over "v1.10.2" |

## Left out

- HTTP transport. The resty clients, headers, query strings, `Ping`, `Find`, `GetMangaInfo`, `GetChaptersList` and `GetChapterImageList` requests are not modelled. A feed request is the catalog slice at its offset, or the error recorded for that offset. An image reply is a function of the file name. `Find` keeps only its input guard.
- JSON and XML encoding. The metadata records are plain datatypes, and their marshalling is out of scope.
- `net/url.Parse` is modelled only as far as the scheme, host and path the program reads. Escapes, userinfo validation, IPv6 hosts and ports are not modelled; the host is the text after the last '@' of the authority.
- `filepath.Join` is modelled as `dir + "/" + file`, without Go's clean-up of "..", "." and doubled separators.
- Option truncation cuts characters, where Go cuts bytes. Only the two agree on ASCII text.
- Download.Truncate, Download.MangaOptions, Download.ToMangaInfoOptions, Download.ChapterOptions, Download.ToChaptersOptions: they require a width of at least 2 (manga) or 6 (chapters). Below that width, Go panics with a slice-bounds error on `option[:maxOptionSize-2]` or `option[:maxOptionSize-6]` (download.go:325-326, 344-345) as soon as the list is non-empty. An empty list accepts any width. The model does not capture that panic.
- go-epub internals. The book is the record of the images, sections and descriptive fields added to it. `AddImage` and `AddSection` outcomes and the in-book image path are inputs.
- File-system effects. `MkdirAll`, `Write`, `RemoveAll` and `os.Stat` are inputs: a set of existing paths, unwritable paths or boolean outcomes. The `MkdirTemp` name is an input.
- `cbz.go` and `pdf.go` are not part of this model. Neither is any container but EPUB: the page loop is stated for the EPUB container.
- Printing, progress bars, tables and interactive prompts. The `ru` notification in `downloadProcess` and the printing in `getSavingOption` are output only.
- `time.Now()`: it is the `lastModified` argument of `NewMetadata`.
- The command handlers: `RunInteractiveDownload`, `DownloadSpecificChapter`, `DownloadLastChapter`, `DownloadChapters`, `DownloadAllChapters`, `downloadMergeChapters`/`downloadChapters` beyond their range labels and file names, and the cobra wiring. They are I/O sequencing around the modelled functions.
- Go map iteration order. The order is a ghost output of each map loop, and only order-independent facts (multisets, membership) are proved about it.
- The field getters of `Chapter`, `ChapterFullInfo`, `MangaInfo`, `Volume` and `VolumeChapter` that return a stored field unchanged are the datatype fields themselves.
- Api.FullChaptersInfoSound and ClientApi.FullChaptersInfoSound: they state membership and filtering. That no chapter is missed is stated separately, by the window-covering lemmas.

## Findings

| source | as written | input that shows it | evidently intended | confidence | as-written member | corrected member |
|---|---|---|---|---|---|---|
| internal/mdx/update.go:44-57 | here and in cmd/update.go:58-71 the major part is compared by substring containment, and the minor and patch parts are each compared on their own | "v1.9.5" against "v1.10.2" is reported as an update; "v10.0.0" against "v1.0.0" is not | an update exactly when the tag names a later release in (major, minor, patch) order | not executed | Update.OlderReleaseReported, Update.NewerMajorMissed | Update.IsNewerRelease, proved by Update.IsNewerReleaseSound and Update.IsNewerReleaseExamples |
| mangadexapi/api.go:228-243 | `SetError(respErr)` receives the error struct by value, so the returned `&respErr` is always empty | any error status with a non-empty error body | the server's error body is returned, as `SetError(&respErr)` does elsewhere in the same file | not executed | Api.DownloadErrorBodyLost | Api.DownloadImageKeepingError |
| mangadexapi/api.go:267-277 | the first request uses the lowest chapter number as a record offset | a catalog holding chapter "1" at position 0, with the range [1, 1], returns no chapter | the window starts at the position of the lowest chapter, as the earlier client did for low bounds of at most 10 | not executed | Api.FirstChapterSkipped | Api.CorrectedStart, proved by Api.CorrectedWindowCovers and Api.CorrectedStartFindsFirst |
| internal/mdx/download.go:185 | every page is added under the file name "png" (or "jpg"), which filekit/epub.go:85 joins to the temporary directory | any chapter of two or more pages: each staged path is the same one, which holds only the last page | one file per page | not executed | Download.DownloadProcess, Download.PagesOverwriteEachOther | Download.DownloadProcessNumbered, Download.NumberedPagesKept |
