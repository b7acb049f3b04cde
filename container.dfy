/**
 * The output containers: the factory that picks a container by file extension, and the
 * choice of an output path that does not overwrite an existing file. The file system is
 * the set of paths that exist.
 */
module Containers {
  import opened Wrappers
  import opened Strings

  const CbzExt: string := "cbz"
  const PdfExt: string := "pdf"
  const EpubExt: string := "epub"

  /** The container kinds NewContainer can build. */
  datatype ContainerKind = Cbz | Pdf | Epub

  datatype ContainerError = ExtensionNotSupport

  /** The extension a container kind is chosen by. */
  function ExtensionOf(kind: ContainerKind): string
  {
    match kind
    case Cbz => CbzExt
    case Pdf => PdfExt
    case Epub => EpubExt
  }

  /** The container for an extension: "cbz", "pdf" and "epub" only, ErrExtensionNotSupport for any other string. */
  function NewContainer(extension: string): (r: Result<ContainerKind, ContainerError>)
    ensures r.Success? <==> extension == CbzExt || extension == PdfExt || extension == EpubExt
    ensures r.Failure? ==> r.error == ExtensionNotSupport
  {
    if extension == CbzExt then Success(Cbz)
    else if extension == PdfExt then Success(Pdf)
    else if extension == EpubExt then Success(Epub)
    else Failure(ExtensionNotSupport)
  }

  /** The factory and the extensions are inverse: each kind is built from its own extension and no other. */
  lemma NewContainerRoundTrip(extension: string, kind: ContainerKind)
    ensures NewContainer(ExtensionOf(kind)) == Success(kind)
    ensures NewContainer(extension) == Success(kind) ==> ExtensionOf(kind) == extension
  {
  }

  /** The file name with every "/" and every "\" replaced by "_". */
  function Sanitize(name: string): (r: string)
    ensures |r| == |name| && '/' !in r && '\\' !in r
    ensures forall i :: 0 <= i < |name| ==> r[i] == if name[i] == '/' || name[i] == '\\' then '_' else name[i]
  {
    ReplaceChar(ReplaceChar(name, '/', '_'), '\\', '_')
  }

  /** A name without separators is kept as it is, so sanitising twice changes nothing more. */
  lemma SanitizeIdempotent(name: string)
    ensures Sanitize(Sanitize(name)) == Sanitize(name)
    ensures '/' !in name && '\\' !in name ==> Sanitize(name) == name
  {
    var once := Sanitize(name);
    assert Sanitize(once) == once;
    if '/' !in name && '\\' !in name {
      assert forall i :: 0 <= i < |name| ==> name[i] != '/' && name[i] != '\\';
    }
  }

  /** filepath.Join of a directory and a file name, without its clean-up of the directory. */
  function PathJoin(dir: string, file: string): string
  {
    if dir == "" then file else dir + "/" + file
  }

  /** The `k`-th output path tried: "name.ext" first, then "name (k).ext". */
  function Candidate(dir: string, name: string, ext: string, k: nat): string
  {
    if k == 0 then PathJoin(dir, name + "." + ext)
    else PathJoin(dir, name + " (" + Itoa(k) + ")." + ext)
  }

  /** `k` is the first try whose path does not exist. */
  ghost predicate IsFirstFree(existing: set<string>, dir: string, name: string, ext: string, k: nat)
  {
    Candidate(dir, name, ext, k) !in existing
    && forall j: nat {:trigger Candidate(dir, name, ext, j)} :: j < k ==> Candidate(dir, name, ext, j) in existing
  }

  /**
   * safeOutputPath: after sanitising the name, the first of "dir/name.ext", "dir/name (1).ext",
   * "dir/name (2).ext", ... that does not exist.
   */
  method SafeOutputPath(outputDir: string, outputFileName: string, extension: string, existing: set<string>)
    returns (path: string)
    ensures path !in existing
    ensures exists k: nat :: IsFirstFree(existing, outputDir, Sanitize(outputFileName), extension, k)
                             && path == Candidate(outputDir, Sanitize(outputFileName), extension, k)
  {
    var name := ReplaceChar(outputFileName, '/', '_');
    name := ReplaceChar(name, '\\', '_');
    path := PathJoin(outputDir, name + "." + extension);
    var count: nat := 1;
    ghost var tried: set<string> := {};
    assert Tried(outputDir, name, extension, 0) == {};
    while path in existing
      invariant count >= 1 && path == Candidate(outputDir, name, extension, count - 1)
      invariant tried == Tried(outputDir, name, extension, count - 1) && tried <= existing
      decreases |existing - tried|
    {
      TriedStep(outputDir, name, extension, count - 1);
      assert existing - (tried + {path}) < existing - tried;
      tried := tried + {path};
      path := PathJoin(outputDir, name + " (" + Itoa(count) + ")." + extension);
      count := count + 1;
    }
    assert name == Sanitize(outputFileName);
    TriedMembers(outputDir, name, extension, count - 1);
  }

  /** Different tries give different paths. */
  lemma CandidateInjective(dir: string, name: string, ext: string, a: nat, b: nat)
    requires Candidate(dir, name, ext, a) == Candidate(dir, name, ext, b)
    ensures a == b
  {
    var fa := if a == 0 then name + "." + ext else name + " (" + Itoa(a) + ")." + ext;
    var fb := if b == 0 then name + "." + ext else name + " (" + Itoa(b) + ")." + ext;
    PathJoinInjective(dir, fa, fb);
    if a != 0 && b != 0 {
      assert fa == (name + " (") + Itoa(a) + (")." + ext);
      assert fb == (name + " (") + Itoa(b) + (")." + ext);
      CancelAround(name + " (", Itoa(a), Itoa(b), ")." + ext);
      ItoaInjective(a, b);
    }
  }

  lemma PathJoinInjective(dir: string, f1: string, f2: string)
    requires PathJoin(dir, f1) == PathJoin(dir, f2)
    ensures f1 == f2
  {
    if dir != "" {
      assert f1 == PathJoin(dir, f1)[|dir| + 1..];
      assert f2 == PathJoin(dir, f2)[|dir| + 1..];
    }
  }

  lemma CancelAround(p: string, x: string, y: string, t: string)
    requires p + x + t == p + y + t
    ensures x == y
  {
    assert x == (p + x + t)[|p|..|p| + |x|];
    assert y == (p + y + t)[|p|..|p| + |y|];
  }

  /** The first free try is unique, and it never lies beyond the number of existing paths. */
  lemma FirstFreeBound(existing: set<string>, dir: string, name: string, ext: string, k: nat, m: nat)
    requires IsFirstFree(existing, dir, name, ext, k)
    ensures IsFirstFree(existing, dir, name, ext, m) ==> m == k
    ensures k <= |existing|
  {
    var tried := Tried(dir, name, ext, k);
    TriedSize(dir, name, ext, k);
    assert tried <= existing by {
      forall s | s in tried ensures s in existing {
        var j: nat :| j < k && s == Candidate(dir, name, ext, j);
      }
    }
    SubsetSize(tried, existing);
  }

  /** The paths of the first `k` tries. */
  ghost function Tried(dir: string, name: string, ext: string, k: nat): set<string>
  {
    set j: nat | j < k :: Candidate(dir, name, ext, j)
  }

  /** One more try adds its path, which no earlier try had. */
  lemma TriedStep(dir: string, name: string, ext: string, k: nat)
    ensures Tried(dir, name, ext, k + 1) == Tried(dir, name, ext, k) + {Candidate(dir, name, ext, k)}
    ensures Candidate(dir, name, ext, k) !in Tried(dir, name, ext, k)
  {
    var c := Candidate(dir, name, ext, k);
    if c in Tried(dir, name, ext, k) {
      var j: nat :| j < k && c == Candidate(dir, name, ext, j);
      CandidateInjective(dir, name, ext, j, k);
    }
  }

  lemma TriedMembers(dir: string, name: string, ext: string, k: nat)
    ensures forall j: nat {:trigger Candidate(dir, name, ext, j)} :: j < k ==> Candidate(dir, name, ext, j) in Tried(dir, name, ext, k)
  {
  }

  lemma {:induction false} TriedSize(dir: string, name: string, ext: string, k: nat)
    ensures |Tried(dir, name, ext, k)| == k
  {
    if k > 0 {
      TriedSize(dir, name, ext, k - 1);
      TriedStep(dir, name, ext, k - 1);
    } else {
      assert Tried(dir, name, ext, 0) == {};
    }
  }

  lemma SubsetSize(a: set<string>, b: set<string>)
    requires a <= b
    ensures |a| <= |b|
  {
    assert b == a + (b - a);
  }

  /**
   * Resolving a free name gives "name.ext"; once that path exists, resolving again gives
   * "name (1).ext".
   */
  lemma ResolveTwice(existing: set<string>, dir: string, name: string, ext: string)
    requires PathJoin(dir, name + "." + ext) !in existing
    requires PathJoin(dir, name + " (1)." + ext) !in existing
    ensures IsFirstFree(existing, dir, name, ext, 0)
    ensures Candidate(dir, name, ext, 0) == PathJoin(dir, name + "." + ext)
    ensures IsFirstFree(existing + {PathJoin(dir, name + "." + ext)}, dir, name, ext, 1)
    ensures Candidate(dir, name, ext, 1) == PathJoin(dir, name + " (1)." + ext)
  {
    assert Itoa(1) == "1";
    assert name + " (" + Itoa(1) + ")." + ext == name + " (1)." + ext;
    if Candidate(dir, name, ext, 1) == Candidate(dir, name, ext, 0) {
      CandidateInjective(dir, name, ext, 1, 0);
    }
  }
}
