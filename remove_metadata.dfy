/**
 * The decision and path logic of the metadata remover: whether an image is
 * flattened onto white or copied, where the clean copy is saved, which encoder
 * arguments are passed, which files a folder run picks up and how many it
 * counts, and the exit status of the command.  Pillow's decoding, conversion,
 * compositing and encoding are not modelled; their inputs are recorded instead.
 */
module RemoveMetadata {
  import opened Wrappers
  import opened PathOps
  import opened FileSystem

  /** The extensions `process_folder` accepts, compared after lower-casing. */
  const SUPPORTED_EXTENSIONS: set<string> := {".jpg", ".jpeg", ".png", ".tiff", ".tif", ".bmp", ".webp"}
  /** Inserted before the extension when the original is preserved. */
  const NO_METADATA_SUFFIX: string := "_no_metadata"
  /** The formats saved with a quality setting and flattened when they carry alpha or a palette. */
  const JPEG_FORMATS: set<string> := {"JPEG", "JPG"}
  /** Modes with an alpha band or a palette. */
  const ALPHA_OR_PALETTE_MODES: set<string> := {"RGBA", "LA", "P"}
  const WHITE: Pixel := [255, 255, 255]

  predicate NeedsFlatten(format: string, mode: string)
  {
    format in JPEG_FORMATS && mode in ALPHA_OR_PALETTE_MODES
  }

  /** The image pasted onto the white background: as decoded, or after `convert('RGBA')`. */
  datatype Layer = AsDecoded(image: Image) | ConvertedToRGBA(image: Image)
  {
    function Mode(): string
    {
      if ConvertedToRGBA? then "RGBA" else image.mode
    }
  }

  /** The `mask` argument of `paste`: none, or the last band of the pasted image. */
  datatype PasteMask = NoMask | LastBand

  /**
   * The image that is saved.  It has no metadata mapping at all: either a
   * new image with the source's mode, size and pixel data, or a new RGB image
   * of the source's size filled with white with the layer pasted on it (the
   * compositing itself is Pillow's and is not modelled).
   */
  datatype CleanImage =
    | Copied(mode: string, size: Size, pixels: seq<Pixel>)
    | FlattenedOnWhite(size: Size, background: Pixel, layer: Layer, mask: PasteMask)
  {
    function Mode(): string
    {
      if Copied? then mode else "RGB"
    }
  }

  /** The metadata-free image built from a decoded one. */
  function Clean(img: Image): (c: CleanImage)
    ensures c.FlattenedOnWhite? <==> NeedsFlatten(img.format, img.mode)
    ensures c.size == img.size
    ensures c.Mode() == if NeedsFlatten(img.format, img.mode) then "RGB" else img.mode
    ensures c.FlattenedOnWhite? ==> c.background == WHITE
    ensures c.FlattenedOnWhite? && img.mode == "P" ==> c.layer == ConvertedToRGBA(img) && c.mask == LastBand
    ensures c.FlattenedOnWhite? && img.mode == "RGBA" ==> c.layer == AsDecoded(img) && c.mask == LastBand
    ensures c.FlattenedOnWhite? && img.mode == "LA" ==> c.layer == AsDecoded(img) && c.mask == NoMask
    ensures c.Copied? ==> c.pixels == img.pixels
  {
    if NeedsFlatten(img.format, img.mode) then
      var layer := if img.mode == "P" then ConvertedToRGBA(img) else AsDecoded(img);
      FlattenedOnWhite(img.size, WHITE, layer, if layer.Mode() == "RGBA" then LastBand else NoMask)
    else
      Copied(img.mode, img.size, img.pixels)
  }

  /**
   * Where the clean image is saved: the explicit output path, else the input
   * with `_no_metadata` before its extension, else the input itself.
   */
  function Destination(inputPath: string, outputPath: Option<string>, preserveOriginal: bool): (r: string)
    ensures outputPath.Some? ==> r == outputPath.value
    ensures outputPath.None? && !preserveOriginal ==> r == inputPath
    ensures outputPath.None? && preserveOriginal ==>
      && r != inputPath
      && DirPrefix(r) == DirPrefix(inputPath)
      && SplitExt(r) == (SplitExt(inputPath).0 + NO_METADATA_SUFFIX, SplitExt(inputPath).1)
  {
    match outputPath
    case Some(path) => path
    case None =>
      if preserveOriginal then
        NoMetadataPathShape(inputPath);
        SplitExt(inputPath).0 + NO_METADATA_SUFFIX + SplitExt(inputPath).1
      else
        inputPath
  }

  /** The `_no_metadata` name keeps the directory and the extension of the input and differs from it. */
  lemma NoMetadataPathShape(p: string)
    ensures var (root, ext) := SplitExt(p);
      var d := root + NO_METADATA_SUFFIX + ext;
      && d != p
      && DirPrefix(d) == DirPrefix(p)
      && SplitExt(d) == (root + NO_METADATA_SUFFIX, ext)
  {
    var (root, ext) := SplitExt(p);
    var d := root + NO_METADATA_SUFFIX + ext;
    ExtensionShape(p);
    assert |d| == |p| + |NO_METADATA_SUFFIX|;
    assert '/' !in NO_METADATA_SUFFIX + ext;
    assert d == root + (NO_METADATA_SUFFIX + ext);
    BasenameAppend(root, NO_METADATA_SUFFIX + ext);
    BasenameAppend(root, ext);
    if ext != "" {
      NoMetadataSplitWithExt(p);
    } else {
      NoMetadataSplitNoExt(p);
    }
  }

  lemma NoMetadataSplitWithExt(p: string)
    requires SplitExt(p).1 != ""
    ensures var (root, ext) := SplitExt(p);
      SplitExt(root + NO_METADATA_SUFFIX + ext) == (root + NO_METADATA_SUFFIX, ext)
  {
    var (root, ext) := SplitExt(p);
    var d := root + NO_METADATA_SUFFIX + ext;
    ExtensionShape(p);
    var k := |root| + |NO_METADATA_SUFFIX|;
    assert d[k..] == ext;
    assert d[..k] == root + NO_METADATA_SUFFIX;
    assert d[k - 1] == 'a';
    forall j | k < j < |d| ensures d[j] != '.' && d[j] != '/' {
      assert d[j] == ext[1..][j - k - 1];
    }
    assert ExtensionAt(d, k);
    SplitExtAt(d, k);
  }

  lemma NoMetadataSplitNoExt(p: string)
    requires SplitExt(p).1 == ""
    ensures SplitExt(p + NO_METADATA_SUFFIX) == (p + NO_METADATA_SUFFIX, "")
  {
    var d := p + NO_METADATA_SUFFIX;
    SplitExtSpec(p);
    forall k ensures !ExtensionAt(d, k) {
      if ExtensionAt(d, k) {
        assert k < |p|;
        var j :| 0 <= j < k && d[j] != '.' && forall m :: j <= m < k ==> d[m] != '/';
        forall m | 0 <= m < |p| ensures p[m] == d[m] {
        }
        assert p[j] != '.' && forall m :: j <= m < k ==> p[m] != '/';
        assert forall m :: k < m < |p| ==> p[m] != '.' && p[m] != '/';
        assert ExtensionAt(p, k);
      }
    }
    SplitExtNone(d);
  }

  /** A keyword argument of `save`. */
  datatype SaveArg = IntArg(i: int) | BoolArg(b: bool)

  /**
   * The keyword arguments passed to `save` besides the format: none of them
   * carries metadata (no `exif`, `pnginfo` or `icc_profile`).
   */
  function SaveKwargs(format: string): (kw: map<string, SaveArg>)
    ensures format in JPEG_FORMATS ==> kw == map["quality" := IntArg(95), "optimize" := BoolArg(true)]
    ensures format == "PNG" ==> kw == map["optimize" := BoolArg(true)]
    ensures format !in JPEG_FORMATS && format != "PNG" ==> kw == map[]
    ensures kw.Keys <= {"quality", "optimize"}
  {
    if format in JPEG_FORMATS then map["quality" := IntArg(95), "optimize" := BoolArg(true)]
    else if format == "PNG" then map["optimize" := BoolArg(true)]
    else map[]
  }

  /** One call of `clean_img.save(path, format=..., **kwargs)`. */
  datatype SaveRequest = SaveRequest(path: string, image: CleanImage, format: string, kwargs: map<string, SaveArg>)

  /** What one `remove_metadata_from_image` call does: nothing saved (it returned `False`) or one save. */
  datatype Outcome = Failed | Saved(request: SaveRequest)

  /**
   * `remove_metadata_from_image`: any exception (the file does not decode,
   * the destination cannot be written) becomes `Failed`, i.e. `False`.
   */
  function RemoveMetadataFromImage(fs: Fs, inputPath: string, outputPath: Option<string>, preserveOriginal: bool): (o: Outcome)
    ensures o.Saved? <==> inputPath in fs.images && CanWrite(fs, Destination(inputPath, outputPath, preserveOriginal))
    ensures o.Saved? ==>
      var img := fs.images[inputPath];
      o.request == SaveRequest(Destination(inputPath, outputPath, preserveOriginal), Clean(img), img.format, SaveKwargs(img.format))
    ensures o.Saved? && outputPath.None? ==> (o.request.path == inputPath <==> !preserveOriginal)
  {
    match Open(fs, inputPath)
    case None => Failed
    case Some(img) =>
      var path := Destination(inputPath, outputPath, preserveOriginal);
      if CanWrite(fs, path) then Saved(SaveRequest(path, Clean(img), img.format, SaveKwargs(img.format)))
      else Failed
  }

  /** The batch filter: the lower-cased `splitext` extension is in the allowlist. */
  predicate IsCandidate(file: string)
  {
    Lower(SplitExt(file).1) in SUPPORTED_EXTENSIONS
  }

  /** A file is a candidate iff it has an extension whose lower-cased form is allowlisted. */
  lemma CandidateIffExtension(file: string)
    ensures IsCandidate(file) <==> exists k :: ExtensionAt(file, k) && Lower(file[k..]) in SUPPORTED_EXTENSIONS
  {
    SplitExtSpec(file);
    if exists k :: ExtensionAt(file, k) {
      var k :| ExtensionAt(file, k);
      SplitExtAt(file, k);
    } else {
      assert Lower("") == "";
    }
  }

  /** The filter looks only at the lower-cased name, so upper and lower case are accepted alike. */
  lemma CandidateIgnoresCase(file: string)
    ensures IsCandidate(file) <==> SplitExt(Lower(file)).1 in SUPPORTED_EXTENSIONS
  {
    SplitExtLower(file);
  }

  /** An upper-case extension is accepted. */
  lemma UpperCaseExtensionAccepted()
    ensures IsCandidate("X.JPG")
  {
    var upper := "X.JPG";
    assert RFind(upper, '/') == -1;
    assert upper[0] != '.' && upper[1] == '.' && upper[2] != '.' && upper[3] != '.' && upper[4] != '.';
    assert RFind(upper, '.') == 1;
    assert NonDotIn(upper, 0, 1);
    assert SplitExt(upper).1 == ".JPG";
    assert Lower(".JPG") == ".jpg";
  }

  /** A name made of a leading dot and an allowlisted word has no extension and is skipped. */
  lemma HiddenNameRejected()
    ensures !IsCandidate(".png")
  {
    var hidden := ".png";
    forall k ensures !ExtensionAt(hidden, k) {
    }
    SplitExtNone(hidden);
    assert Lower("") == "";
  }

  /** An extension outside the allowlist is skipped. */
  lemma GifRejected()
    ensures !IsCandidate("a.gif")
  {
    var gif := "a.gif";
    assert RFind(gif, '/') == -1;
    assert gif[0] != '.' && gif[1] == '.' && gif[2] != '.' && gif[3] != '.' && gif[4] != '.';
    assert RFind(gif, '.') == 1;
    assert NonDotIn(gif, 0, 1);
    assert SplitExt(gif).1 == ".gif";
    assert Lower(".gif") == ".gif";
  }

  /** One call that `process_folder` makes: the input path and the `output_path` argument. */
  datatype Call = Call(inputPath: string, outputPath: Option<string>)

  /** Python truthiness of an optional string: present and non-empty. */
  predicate Truthy(s: Option<string>)
  {
    s.Some? && s.value != ""
  }

  /**
   * The `output_path` a folder run passes for `file` in the walk root `rel`:
   * the file under the output folder's mirror of that root, or `None`.
   */
  function MirroredOutput(outputFolder: Option<string>, rel: seq<string>, file: string): Option<string>
  {
    if Truthy(outputFolder) then Some(Join(Join(outputFolder.value, RelPath(rel)), file)) else None
  }

  function CallFor(folderPath: string, outputFolder: Option<string>, rel: seq<string>, file: string): Call
  {
    Call(Join(Root(folderPath, rel), file), MirroredOutput(outputFolder, rel, file))
  }

  /** The calls made for the files of one walk root, in order. */
  function FileCalls(folderPath: string, outputFolder: Option<string>, rel: seq<string>, files: seq<string>): seq<Call>
  {
    if files == [] then []
    else
      var calls := FileCalls(folderPath, outputFolder, rel, files[..|files| - 1]);
      var file := files[|files| - 1];
      if IsCandidate(file) then calls + [CallFor(folderPath, outputFolder, rel, file)] else calls
  }

  /** The calls made for a whole walk, in order. */
  function WalkCalls(folderPath: string, outputFolder: Option<string>, entries: seq<WalkEntry>): seq<Call>
  {
    if entries == [] then []
    else
      var last := entries[|entries| - 1];
      WalkCalls(folderPath, outputFolder, entries[..|entries| - 1]) + FileCalls(folderPath, outputFolder, last.rel, last.files)
  }

  /** The files of `files` that pass the filter, in order. */
  function Candidates(files: seq<string>): seq<string>
  {
    if files == [] then []
    else Candidates(files[..|files| - 1]) + if IsCandidate(files[|files| - 1]) then [files[|files| - 1]] else []
  }

  /**
   * The walk that `process_folder` iterates: `os.walk(folder_path)` when
   * recursive, otherwise a single root whose files are the directory's
   * regular files.
   */
  function Listing(recursive: bool, walk: seq<WalkEntry>, topFiles: seq<string>): seq<WalkEntry>
  {
    if recursive then walk else [WalkEntry([], topFiles)]
  }

  /** How many calls returned `True`. */
  function CountSaved(fs: Fs, preserveOriginal: bool, calls: seq<Call>): (n: nat)
    ensures n <= |calls|
  {
    if calls == [] then 0
    else
      var last := calls[|calls| - 1];
      CountSaved(fs, preserveOriginal, calls[..|calls| - 1])
        + if RemoveMetadataFromImage(fs, last.inputPath, last.outputPath, preserveOriginal).Saved? then 1 else 0
  }

  /** The calls for one root are exactly its candidate files, in order and once each. */
  lemma {:induction false} FileCallsAreCandidates(folderPath: string, outputFolder: Option<string>, rel: seq<string>, files: seq<string>)
    ensures var calls := FileCalls(folderPath, outputFolder, rel, files);
      && |calls| == |Candidates(files)|
      && forall n :: 0 <= n < |calls| ==> calls[n] == CallFor(folderPath, outputFolder, rel, Candidates(files)[n])
  {
    if files != [] {
      var init := files[..|files| - 1];
      var file := files[|files| - 1];
      FileCallsAreCandidates(folderPath, outputFolder, rel, init);
      var calls := FileCalls(folderPath, outputFolder, rel, init);
      if IsCandidate(file) {
        assert FileCalls(folderPath, outputFolder, rel, files) == calls + [CallFor(folderPath, outputFolder, rel, file)];
        assert Candidates(files) == Candidates(init) + [file];
      } else {
        assert FileCalls(folderPath, outputFolder, rel, files) == calls;
        assert Candidates(files) == Candidates(init);
      }
    }
  }

  /** How many files of the whole walk pass the filter. */
  function TotalCandidates(entries: seq<WalkEntry>): nat
  {
    if entries == [] then 0
    else TotalCandidates(entries[..|entries| - 1]) + |Candidates(entries[|entries| - 1].files)|
  }

  /** A walk makes exactly one call per candidate file. */
  lemma {:induction false} WalkCallsLength(folderPath: string, outputFolder: Option<string>, entries: seq<WalkEntry>)
    ensures |WalkCalls(folderPath, outputFolder, entries)| == TotalCandidates(entries)
  {
    if entries != [] {
      var last := entries[|entries| - 1];
      WalkCallsLength(folderPath, outputFolder, entries[..|entries| - 1]);
      FileCallsAreCandidates(folderPath, outputFolder, last.rel, last.files);
    }
  }

  /** The count a folder run reports never exceeds the number of candidate files it walked. */
  lemma ProcessedAtMostCandidates(fs: Fs, folderPath: string, outputFolder: Option<string>, preserveOriginal: bool,
                                  entries: seq<WalkEntry>)
    ensures CountSaved(fs, preserveOriginal, WalkCalls(folderPath, outputFolder, entries)) <= TotalCandidates(entries)
  {
    WalkCallsLength(folderPath, outputFolder, entries);
  }

  /** A file is in `Candidates(files)` iff it is one of `files` and passes the filter. */
  lemma {:induction false} CandidatesMembership(files: seq<string>, f: string)
    ensures f in Candidates(files) <==> f in files && IsCandidate(f)
  {
    if files != [] {
      CandidatesMembership(files[..|files| - 1], f);
      assert files == files[..|files| - 1] + [files[|files| - 1]];
    }
  }

  /** Every call of a walk comes from a candidate file of some root, and every candidate file gets a call. */
  lemma {:induction false} WalkCallsMembership(folderPath: string, outputFolder: Option<string>, entries: seq<WalkEntry>, c: Call)
    ensures c in WalkCalls(folderPath, outputFolder, entries) <==>
      exists i, j :: 0 <= i < |entries| && 0 <= j < |entries[i].files| && IsCandidate(entries[i].files[j])
        && c == CallFor(folderPath, outputFolder, entries[i].rel, entries[i].files[j])
  {
    if entries != [] {
      var init := entries[..|entries| - 1];
      var last := entries[|entries| - 1];
      WalkCallsMembership(folderPath, outputFolder, init, c);
      FileCallsAreCandidates(folderPath, outputFolder, last.rel, last.files);
      var tail := FileCalls(folderPath, outputFolder, last.rel, last.files);
      var cands := Candidates(last.files);
      if c in tail {
        var n :| 0 <= n < |tail| && tail[n] == c;
        CandidatesMembership(last.files, cands[n]);
        assert cands[n] in cands;
        var j :| 0 <= j < |last.files| && last.files[j] == cands[n];
        assert entries[|entries| - 1].files[j] == cands[n];
      }
      if exists i, j :: 0 <= i < |entries| && 0 <= j < |entries[i].files| && IsCandidate(entries[i].files[j])
          && c == CallFor(folderPath, outputFolder, entries[i].rel, entries[i].files[j]) {
        var i, j :| 0 <= i < |entries| && 0 <= j < |entries[i].files| && IsCandidate(entries[i].files[j])
          && c == CallFor(folderPath, outputFolder, entries[i].rel, entries[i].files[j]);
        if i == |entries| - 1 {
          var f := last.files[j];
          assert f in last.files;
          CandidatesMembership(last.files, f);
          var n :| 0 <= n < |cands| && cands[n] == f;
          assert tail[n] == c;
        } else {
          assert init[i] == entries[i];
        }
      }
    }
  }

  /** Input and mirrored output keep the file's own name; without an output folder no path is passed. */
  lemma MirrorKeepsName(folderPath: string, outputFolder: Option<string>, rel: seq<string>, file: string)
    requires '/' !in file
    ensures var c := CallFor(folderPath, outputFolder, rel, file);
      && Basename(c.inputPath) == file
      && (Truthy(outputFolder) ==> c.outputPath.Some? && Basename(c.outputPath.value) == file)
      && (!Truthy(outputFolder) ==> c.outputPath.None?)
  {
    BasenameOfJoin(Root(folderPath, rel), file);
    if Truthy(outputFolder) {
      BasenameOfJoin(Join(outputFolder.value, RelPath(rel)), file);
    }
  }

  lemma CountSavedAppend(fs: Fs, preserveOriginal: bool, calls: seq<Call>, c: Call)
    ensures CountSaved(fs, preserveOriginal, calls + [c]) == CountSaved(fs, preserveOriginal, calls)
      + if RemoveMetadataFromImage(fs, c.inputPath, c.outputPath, preserveOriginal).Saved? then 1 else 0
  {
    assert (calls + [c])[..|calls|] == calls;
  }

  lemma FileCallsAppend(folderPath: string, outputFolder: Option<string>, rel: seq<string>, files: seq<string>, j: int)
    requires 0 <= j < |files|
    ensures FileCalls(folderPath, outputFolder, rel, files[..j + 1]) ==
      FileCalls(folderPath, outputFolder, rel, files[..j])
        + if IsCandidate(files[j]) then [CallFor(folderPath, outputFolder, rel, files[j])] else []
  {
    assert files[..j + 1][..j] == files[..j];
  }

  lemma WalkCallsAppend(folderPath: string, outputFolder: Option<string>, entries: seq<WalkEntry>, i: int)
    requires 0 <= i < |entries|
    ensures WalkCalls(folderPath, outputFolder, entries[..i + 1]) ==
      WalkCalls(folderPath, outputFolder, entries[..i]) + FileCalls(folderPath, outputFolder, entries[i].rel, entries[i].files)
  {
    assert entries[..i + 1][..i] == entries[..i];
  }

  /**
   * `process_folder`: walks the listing, calls `remove_metadata_from_image`
   * for each candidate file and counts the calls that returned `True`.
   * Returns the count it prints and the calls it made.
   */
  method ProcessFolder(fs: Fs, folderPath: string, outputFolder: Option<string>, preserveOriginal: bool,
                       recursive: bool, walk: seq<WalkEntry>, topFiles: seq<string>)
    returns (processedCount: nat, calls: seq<Call>)
    ensures calls == WalkCalls(folderPath, outputFolder, Listing(recursive, walk, topFiles))
    ensures processedCount == CountSaved(fs, preserveOriginal, calls)
  {
    var entries := Listing(recursive, walk, topFiles);
    processedCount := 0;
    calls := [];
    var i := 0;
    while i < |entries|
      invariant 0 <= i <= |entries|
      invariant calls == WalkCalls(folderPath, outputFolder, entries[..i])
      invariant processedCount == CountSaved(fs, preserveOriginal, calls)
    {
      processedCount, calls := ProcessRoot(fs, folderPath, outputFolder, preserveOriginal,
                                           entries[i].rel, entries[i].files, processedCount, calls);
      WalkCallsAppend(folderPath, outputFolder, entries, i);
      i := i + 1;
    }
    assert entries[..i] == entries;
  }

  /** The inner loop of `process_folder`: the files of one walk root, continuing the count and the calls. */
  method ProcessRoot(fs: Fs, folderPath: string, outputFolder: Option<string>, preserveOriginal: bool,
                     rel: seq<string>, files: seq<string>, countBefore: nat, callsBefore: seq<Call>)
    returns (processedCount: nat, calls: seq<Call>)
    requires countBefore == CountSaved(fs, preserveOriginal, callsBefore)
    ensures calls == callsBefore + FileCalls(folderPath, outputFolder, rel, files)
    ensures processedCount == CountSaved(fs, preserveOriginal, calls)
  {
    processedCount, calls := countBefore, callsBefore;
    var root := Root(folderPath, rel);
    var j := 0;
    while j < |files|
      invariant 0 <= j <= |files|
      invariant calls == callsBefore + FileCalls(folderPath, outputFolder, rel, files[..j])
      invariant processedCount == CountSaved(fs, preserveOriginal, calls)
    {
      var file := files[j];
      ghost var rootCalls := FileCalls(folderPath, outputFolder, rel, files[..j]);
      FileCallsAppend(folderPath, outputFolder, rel, files, j);
      var fileExt := Lower(SplitExt(file).1);
      if fileExt in SUPPORTED_EXTENSIONS {
        var inputPath := Join(root, file);
        var outputPath: Option<string>;
        if Truthy(outputFolder) {
          var relPath := RelPath(rel);
          var outputDir := Join(outputFolder.value, relPath);
          outputPath := Some(Join(outputDir, file));
        } else {
          outputPath := None;
        }
        var call := Call(inputPath, outputPath);
        assert call == CallFor(folderPath, outputFolder, rel, file);
        CountSavedAppend(fs, preserveOriginal, calls, call);
        AppendAssoc(callsBefore, rootCalls, [call]);
        calls := calls + [call];
        if RemoveMetadataFromImage(fs, inputPath, outputPath, preserveOriginal).Saved? {
          processedCount := processedCount + 1;
        }
      } else {
        assert rootCalls + [] == rootCalls;
      }
      j := j + 1;
    }
    assert files[..j] == files;
  }

  /** How `main` classifies its input path. */
  datatype PathKind = Missing | RegularFile | Directory | OtherKind

  /** The parsed command line: `input`, `-o/--output`, `--no-preserve`, `--no-recursive`. */
  datatype Args = Args(input: string, output: Option<string>, noPreserve: bool, noRecursive: bool)

  /** The work `main` starts. */
  datatype Action =
    | NoAction
    | SingleFile(inputPath: string, outputPath: Option<string>, preserveOriginal: bool)
    | Folder(folderPath: string, outputFolder: Option<string>, preserveOriginal: bool, recursive: bool)

  datatype Run = Run(action: Action, exitCode: int)

  /**
   * `main`: a missing input exits 1 before any work; a file is processed and
   * exits 0 iff that succeeded; a directory is processed as a folder and exits
   * 0 whatever happened to its files; anything else exits 1.
   */
  function RunCommand(fs: Fs, args: Args, kind: PathKind): (r: Run)
    ensures r.exitCode == 0 || r.exitCode == 1
    ensures kind == Missing ==> r == Run(NoAction, 1)
    ensures kind == OtherKind ==> r == Run(NoAction, 1)
    ensures kind == RegularFile ==>
      && r.action == SingleFile(args.input, args.output, !args.noPreserve)
      && (r.exitCode == 0 <==> RemoveMetadataFromImage(fs, args.input, args.output, !args.noPreserve).Saved?)
    ensures kind == Directory ==> r == Run(Folder(args.input, args.output, !args.noPreserve, !args.noRecursive), 0)
  {
    var preserveOriginal := !args.noPreserve;
    var recursive := !args.noRecursive;
    match kind
    case Missing => Run(NoAction, 1)
    case RegularFile =>
      var success := RemoveMetadataFromImage(fs, args.input, args.output, preserveOriginal).Saved?;
      Run(SingleFile(args.input, args.output, preserveOriginal), if success then 0 else 1)
    case Directory => Run(Folder(args.input, args.output, preserveOriginal, recursive), 0)
    case OtherKind => Run(NoAction, 1)
  }
}
