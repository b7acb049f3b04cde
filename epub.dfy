/**
 * The EPUB container: pages are first written to a temporary directory and remembered in
 * order, then added to the book as images, one section per image, before the book is
 * written and the temporary directory removed. The book library is reduced to the record
 * of what was added to it; the file system to the temporary directory's contents; each
 * outcome the model cannot compute (a failing write, a failing library call) is an input.
 */
module Epub {
  import opened Wrappers
  import opened Strings
  import opened Containers
  import opened Metadata

  datatype EpubError =
    | WriteFileFailed(path: string)
    | AddImageFailed(index: nat)
    | AddSectionFailed(index: nat)
    | MkdirFailed
    | WriteFailed
    | RemoveFailed
    | NewEpubFailed
    | MkdirTempFailed

  datatype BookImage = BookImage(source: string, name: string)

  datatype Section = Section(body: string, title: string)

  /** What the book holds: its images and sections in the order added, and its descriptive fields. */
  datatype Book = Book(images: seq<BookImage>, sections: seq<Section>, title: string, author: string,
                       language: string, description: string)

  const EmptyBook: Book := Book([], [], "", "", "", "")

  /** The section body of one image: `<img src="SRC" alt="ALT" />`. */
  function SectionBody(src: string, alt: string): string
  {
    "<img src=\"" + src + "\" alt=\"" + alt + "\" />"
  }

  /** The label of the `i`-th staged file: its position counted from 1. */
  function IndexLabel(i: nat): (s: string)
    ensures IsDigits(s)
  {
    Itoa(i + 1)
  }

  /** The images for the staged files at positions i..j-1, each named by its index label. */
  function ImagesFrom(paths: seq<string>, i: nat, j: nat): (r: seq<BookImage>)
    requires i <= j <= |paths|
    ensures |r| == j - i
    ensures forall k :: 0 <= k < j - i ==> r[k] == BookImage(paths[i + k], IndexLabel(i + k))
  {
    seq(j - i, k requires 0 <= k < j - i => BookImage(paths[i + k], IndexLabel(i + k)))
  }

  /** The sections for the images at positions i..j-1, each showing its image and titled by its label. */
  function SectionsFrom(i: nat, j: nat, imageRef: string -> string): (r: seq<Section>)
    requires i <= j
    ensures |r| == j - i
    ensures forall k :: 0 <= k < j - i ==> r[k] == PageSection(i + k, imageRef)
  {
    seq(j - i, k requires 0 <= k < j - i => PageSection(i + k, imageRef))
  }

  /** The section of the image at position i. */
  function PageSection(i: nat, imageRef: string -> string): Section
  {
    Section(SectionBody(imageRef(IndexLabel(i)), IndexLabel(i)), IndexLabel(i))
  }

  /** Section labels are distinct: the `i`-th is i+1 in decimal. */
  lemma SectionLabelsDistinct(i: nat, j: nat, imageRef: string -> string)
    requires i != j
    ensures PageSection(i, imageRef).title != PageSection(j, imageRef).title
    ensures i + 1 <= IntMax ==> Atoi(PageSection(i, imageRef).title) == Some(i + 1)
  {
    if IndexLabel(i) == IndexLabel(j) {
      ItoaInjective(i + 1, j + 1);
    }
    if i + 1 <= IntMax {
      AtoiItoa(i + 1);
    }
  }

  /** Whether the library call at position i fails. */
  predicate Fails(i: nat, imageFails: set<nat>, sectionFails: set<nat>)
  {
    i in imageFails || i in sectionFails
  }

  /**
   * The image loop of WriteOnDiskAndClose from position `i`: the image of each staged file,
   * then its section, until the end or the first failing call, which ends the loop with
   * its error.
   */
  function AddPages(book: Book, paths: seq<string>, imageRef: string -> string,
                    imageFails: set<nat>, sectionFails: set<nat>, i: nat): (Book, Option<EpubError>)
    requires i <= |paths|
    decreases |paths| - i
  {
    if i == |paths| then (book, None)
    else if i in imageFails then (book, Some(AddImageFailed(i)))
    else
      var withImage := book.(images := book.images + [BookImage(paths[i], IndexLabel(i))]);
      if i in sectionFails then (withImage, Some(AddSectionFailed(i)))
      else AddPages(withImage.(sections := withImage.sections + [PageSection(i, imageRef)]),
                    paths, imageRef, imageFails, sectionFails, i + 1)
  }

  /** `book` with `images` and `sections` appended and every other field unchanged. */
  function Added(book: Book, images: seq<BookImage>, sections: seq<Section>): (r: Book)
    ensures r.images == book.images + images && r.sections == book.sections + sections
    ensures r.(images := book.images, sections := book.sections) == book
  {
    book.(images := book.images + images, sections := book.sections + sections)
  }

  /** Appending in two steps is appending the concatenations. */
  lemma AddedTwice(book: Book, i1: seq<BookImage>, s1: seq<Section>, i2: seq<BookImage>, s2: seq<Section>)
    ensures Added(Added(book, i1, s1), i2, s2) == Added(book, i1 + i2, s1 + s2)
  {
    assert book.images + i1 + i2 == book.images + (i1 + i2);
    assert book.sections + s1 + s2 == book.sections + (s1 + s2);
  }

  /**
   * Without a failing call every staged file becomes an image and a section, in order, and
   * the rest of the book is unchanged.
   */
  lemma {:induction false} AddPagesClean(book: Book, paths: seq<string>, imageRef: string -> string,
                                         imageFails: set<nat>, sectionFails: set<nat>, i: nat)
    requires i <= |paths|
    requires forall k :: i <= k < |paths| ==> !Fails(k, imageFails, sectionFails)
    ensures AddPages(book, paths, imageRef, imageFails, sectionFails, i)
         == (Added(book, ImagesFrom(paths, i, |paths|), SectionsFrom(i, |paths|, imageRef)), None)
    decreases |paths| - i
  {
    var n := |paths|;
    if i < n {
      assert !Fails(i, imageFails, sectionFails);
      var next := AddPagesStep(book, paths, imageRef, imageFails, sectionFails, i);
      AddPagesClean(next, paths, imageRef, imageFails, sectionFails, i + 1);
      ImagesFromCons(paths, i, n);
      SectionsFromCons(i, n, imageRef);
      AddedTwice(book, [BookImage(paths[i], IndexLabel(i))], [PageSection(i, imageRef)],
                 ImagesFrom(paths, i + 1, n), SectionsFrom(i + 1, n, imageRef));
    } else {
      assert ImagesFrom(paths, i, n) == [] && SectionsFrom(i, n, imageRef) == [];
      AddedNothing(book);
    }
  }

  lemma AddedNothing(book: Book)
    ensures Added(book, [], []) == book
  {
    assert book.images + [] == book.images && book.sections + [] == book.sections;
  }

  /**
   * At the first failing call the loop stops with its error: the images and sections of the
   * earlier files are in the book, and the failing file's image too when only its section failed.
   */
  lemma {:induction false} AddPagesFailure(book: Book, paths: seq<string>, imageRef: string -> string,
                                           imageFails: set<nat>, sectionFails: set<nat>, i: nat, f: nat)
    requires i <= f < |paths| && Fails(f, imageFails, sectionFails)
    requires forall k :: i <= k < f ==> !Fails(k, imageFails, sectionFails)
    ensures AddPages(book, paths, imageRef, imageFails, sectionFails, i)
         == (Added(book, ImagesFrom(paths, i, if f in imageFails then f else f + 1), SectionsFrom(i, f, imageRef)),
             Some(if f in imageFails then AddImageFailed(f) else AddSectionFailed(f)))
    decreases |paths| - i
  {
    var imaged := if f in imageFails then f else f + 1;
    if i < f {
      assert !Fails(i, imageFails, sectionFails);
      var next := AddPagesStep(book, paths, imageRef, imageFails, sectionFails, i);
      AddPagesFailure(next, paths, imageRef, imageFails, sectionFails, i + 1, f);
      ImagesFromCons(paths, i, imaged);
      SectionsFromCons(i, f, imageRef);
      AddedTwice(book, [BookImage(paths[i], IndexLabel(i))], [PageSection(i, imageRef)],
                 ImagesFrom(paths, i + 1, imaged), SectionsFrom(i + 1, f, imageRef));
    } else if f in imageFails {
      assert ImagesFrom(paths, i, i) == [] && SectionsFrom(i, i, imageRef) == [];
      AddedNothing(book);
    } else {
      assert ImagesFrom(paths, i, i + 1) == [BookImage(paths[i], IndexLabel(i))];
      assert SectionsFrom(i, i, imageRef) == [];
      assert book.sections + [] == book.sections;
    }
  }

  /** A file whose calls succeed adds its image and its section, then the loop goes on. */
  lemma AddPagesStep(book: Book, paths: seq<string>, imageRef: string -> string,
                     imageFails: set<nat>, sectionFails: set<nat>, i: nat) returns (next: Book)
    requires i < |paths| && !Fails(i, imageFails, sectionFails)
    ensures next == Added(book, [BookImage(paths[i], IndexLabel(i))], [PageSection(i, imageRef)])
    ensures AddPages(book, paths, imageRef, imageFails, sectionFails, i)
         == AddPages(next, paths, imageRef, imageFails, sectionFails, i + 1)
  {
    next := book.(images := book.images + [BookImage(paths[i], IndexLabel(i))],
                  sections := book.sections + [PageSection(i, imageRef)]);
  }

  lemma ImagesFromCons(paths: seq<string>, i: nat, j: nat)
    requires i < j <= |paths|
    ensures ImagesFrom(paths, i, j) == [BookImage(paths[i], IndexLabel(i))] + ImagesFrom(paths, i + 1, j)
  {
  }

  lemma SectionsFromCons(i: nat, j: nat, imageRef: string -> string)
    requires i < j
    ensures SectionsFrom(i, j, imageRef) == [PageSection(i, imageRef)] + SectionsFrom(i + 1, j, imageRef)
  {
  }

  /** The book title: "T volV chN", or "T chR" when a chapter range is given. */
  function BookTitle(ci: ComicInfoMetadata, chapterRange: string): (t: string)
    ensures chapterRange == "" ==> t == ci.title + " vol" + ci.volume + " ch" + ci.number
    ensures chapterRange != "" ==> t == ci.title + " ch" + chapterRange
  {
    if chapterRange != "" then ci.title + " ch" + chapterRange
    else ci.title + " vol" + ci.volume + " ch" + ci.number
  }

  /**
   * The ComicInfo title already ends in " volV chN", so for one chapter the book title
   * names the volume and chapter twice.
   */
  lemma BookTitleRepeatsVolume(appId: string, m: MangaProvider, c: ChapterProvider, lastModified: string)
    ensures BookTitle(MetadataOf(appId, m, c, lastModified).ci, "")
         == c.language + " | " + m.Title("en") + " vol" + c.volume + " ch" + c.number + " vol" + c.volume + " ch" + c.number
  {
  }

  /** The book author: the plain authors, " | ", the plain artists. */
  function BookAuthor(p: PlainMetadata): string
  {
    p.authors + " | " + p.artists
  }

  /** The path the book is written to: the sanitised name with ".epub", inside `outputDir`. */
  function OutputPath(outputDir: string, outputFileName: string): (path: string)
    ensures path == PathJoin(outputDir, Sanitize(outputFileName) + "." + EpubExt)
  {
    PathJoin(outputDir, Sanitize(outputFileName) + ".epub")
  }

  /** What WriteFile(dir/name) leaves in a directory: the bytes stored under that path, replacing older ones. */
  function Stage(files: map<string, seq<bv8>>, dir: string, name: string, bytes: seq<bv8>): map<string, seq<bv8>>
  {
    files[PathJoin(dir, name) := bytes]
  }

  class EpubArchive {
    var book: Book
    var tempDir: string
    var filesPaths: seq<string>
    /** The files in the temporary directory, by path. */
    var tempFiles: map<string, seq<bv8>>
    var tempDirExists: bool
    /** The paths WriteFile fails on. */
    const unwritable: set<string>
    /** Where the book was written, once it was. */
    var written: Option<string>

    /** newEpubArchive once the book and the temporary directory `dir` were created. */
    constructor (dir: string, unwritable: set<string>)
      ensures book == EmptyBook && tempDir == dir && filesPaths == [] && tempFiles == map[]
      ensures tempDirExists && this.unwritable == unwritable && written == None
    {
      book := EmptyBook;
      tempDir := dir;
      filesPaths := [];
      tempFiles := map[];
      tempDirExists := true;
      this.unwritable := unwritable;
      written := None;
    }

    /**
     * AddFile: write the bytes to tempDir/fileName; on success remember that path after the
     * earlier ones. A failed write changes nothing.
     */
    method AddFile(fileName: string, imageBytes: seq<bv8>) returns (err: Option<EpubError>)
      modifies this
      ensures var path := PathJoin(tempDir, fileName);
              if path in unwritable || !tempDirExists then
                err == Some(WriteFileFailed(path)) && filesPaths == old(filesPaths) && tempFiles == old(tempFiles)
              else
                err == None && filesPaths == old(filesPaths) + [path]
                && tempFiles == Stage(old(tempFiles), tempDir, fileName, imageBytes)
      ensures book == old(book) && tempDir == old(tempDir) && tempDirExists == old(tempDirExists)
      ensures written == old(written)
    {
      var filePath := PathJoin(tempDir, fileName);
      if filePath in unwritable || !tempDirExists {
        return Some(WriteFileFailed(filePath));
      }
      tempFiles := tempFiles[filePath := imageBytes];
      filesPaths := filesPaths + [filePath];
      return None;
    }

    /**
     * WriteOnDiskAndClose: every staged file as an image labelled by its position, each
     * followed by its section (AddPages); then the title, author, language and description;
     * then the output directory, the book file, and the removal of the temporary directory.
     * Each step's error returns at once. The library's answers are inputs: `imageFails` and
     * `sectionFails` hold the positions whose AddImage or AddSection fails, `imageRef` the
     * in-book path AddImage returns for a label.
     */
    method WriteOnDiskAndClose(outputDir: string, outputFileName: string, m: Metadata, chapterRange: string,
                               imageRef: string -> string, imageFails: set<nat>, sectionFails: set<nat>,
                               mkdirOk: bool, writeOk: bool, removeOk: bool)
      returns (err: Option<EpubError>)
      modifies this
      ensures filesPaths == old(filesPaths) && tempDir == old(tempDir)
      ensures var (added, addErr) := AddPages(old(book), filesPaths, imageRef, imageFails, sectionFails, 0);
              if addErr.Some? then
                err == addErr && book == added && written == old(written)
                && tempDirExists == old(tempDirExists) && tempFiles == old(tempFiles)
              else
                book == added.(title := BookTitle(m.ci, chapterRange), author := BookAuthor(m.p),
                               language := m.ci.languageIso, description := m.ci.summary)
                && err == (if !mkdirOk then Some(MkdirFailed) else if !writeOk then Some(WriteFailed)
                           else if !removeOk then Some(RemoveFailed) else None)
                && written == (if mkdirOk && writeOk then Some(OutputPath(outputDir, outputFileName)) else old(written))
                && tempDirExists == (old(tempDirExists) && err != None)
                && tempFiles == (if err == None then map[] else old(tempFiles))
    {
      var addErr := AddAllPages(imageRef, imageFails, sectionFails);
      if addErr.Some? {
        return addErr;
      }
      book := book.(title := BookTitle(m.ci, chapterRange));
      book := book.(author := m.p.authors + " | " + m.p.artists);
      book := book.(language := m.ci.languageIso);
      book := book.(description := m.ci.summary);
      if !mkdirOk {
        return Some(MkdirFailed);
      }
      var name := ReplaceChar(outputFileName, '/', '_');
      name := ReplaceChar(name, '\\', '_');
      if !writeOk {
        return Some(WriteFailed);
      }
      written := Some(PathJoin(outputDir, name + ".epub"));
      if !removeOk {
        return Some(RemoveFailed);
      }
      tempDirExists := false;
      tempFiles := map[];
      return None;
    }

    /** The image loop of WriteOnDiskAndClose. */
    method AddAllPages(imageRef: string -> string, imageFails: set<nat>, sectionFails: set<nat>)
      returns (err: Option<EpubError>)
      modifies this
      ensures (book, err) == AddPages(old(book), filesPaths, imageRef, imageFails, sectionFails, 0)
      ensures filesPaths == old(filesPaths) && tempDir == old(tempDir) && written == old(written)
      ensures tempDirExists == old(tempDirExists) && tempFiles == old(tempFiles)
    {
      for i := 0 to |filesPaths|
        invariant filesPaths == old(filesPaths) && tempDir == old(tempDir) && written == old(written)
        invariant AddPages(old(book), filesPaths, imageRef, imageFails, sectionFails, 0)
               == AddPages(book, filesPaths, imageRef, imageFails, sectionFails, i)
        invariant tempDirExists == old(tempDirExists) && tempFiles == old(tempFiles)
      {
        var indexStr := Itoa(i + 1);
        if i in imageFails {
          return Some(AddImageFailed(i));
        }
        book := book.(images := book.images + [BookImage(filesPaths[i], indexStr)]);
        var imageEpubPath := imageRef(indexStr);
        if i in sectionFails {
          return Some(AddSectionFailed(i));
        }
        book := book.(sections := book.sections + [Section(SectionBody(imageEpubPath, indexStr), indexStr)]);
      }
      return None;
    }
  }

  /** newEpubArchive: the library's and the temporary directory's outcomes are inputs. */
  method NewEpubArchive(newEpubOk: bool, tempDir: Option<string>, unwritable: set<string>)
    returns (r: Result<EpubArchive, EpubError>)
    ensures !newEpubOk ==> r == Failure(NewEpubFailed)
    ensures newEpubOk && tempDir.None? ==> r == Failure(MkdirTempFailed)
    ensures newEpubOk && tempDir.Some? ==>
              (r.Success? && fresh(r.value) && r.value.filesPaths == []
               && r.value.tempDir == tempDir.value && r.value.tempFiles == map[] && r.value.tempDirExists
               && r.value.book == EmptyBook && r.value.unwritable == unwritable)
  {
    if !newEpubOk {
      return Failure(NewEpubFailed);
    }
    if tempDir.None? {
      return Failure(MkdirTempFailed);
    }
    var e := new EpubArchive(tempDir.value, unwritable);
    return Success(e);
  }
}
