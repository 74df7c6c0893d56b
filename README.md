# ComfyUI image-metadata tools, modelled in Dafny

The repository ships two command-line scripts around Pillow.

`remove_metadata.py` writes a metadata-free copy of an image, or of every
supported image in a folder tree. Whether the image is flattened onto white,
where the copy goes, which encoder arguments are used, which files a folder
run picks up and how many it counts, and the exit status are all decided in
the script itself. This model captures those decisions.

`extract_comfyui.py` reads the `workflow` and `prompt` entries that ComfyUI
stores in an image's metadata. It writes each as a JSON file and prints a
one-line summary of each. The model covers:
- which keys trigger work;
- what the output files are called;
- the numbers on the summary line;
- how an exception ends the processing of a file;
- which files the folder scan hands to the extractor.

The extractor uses `os.path.splitext`, `os.path.basename` and `os.path.join`.
The remover uses `os.path.splitext`, `os.path.join` and `os.path.relpath`.
The POSIX behaviour (`posixpath`) of `splitext`, `basename` and `join` is
modelled exactly as pure functions on strings, in `path_ops.dfy`; `relpath`
is modelled only for walk roots (see "## Left out").

Files:
- `wrappers.dfy`: `Option` and a sequence lemma.
- `path_ops.dfy`: the path and string operations.
- `file_system.dfy`: decoded images, the filesystem as the scripts see it, and `os.walk` entries.
- `remove_metadata.dfy`: the remover.
- `extract_comfyui.dfy`: the extractor.

The two folder loops (`process_folder` and `scan_folder_for_pngs`) are
imperative in the source. They are methods with `while` loops here, each
proved against a left-recursive specification function of the walk. Every
other operation is a function.

The world outside the scripts enters as values:
- An `Fs` lists the paths that decode as images and the destinations whose write raises.
- The walk is a given sequence of `(relative directory names, file names)` entries.
- `json.loads` is a parameter `loads: string -> Option<Json>`.
- Whether the input path of `main` is missing, a file, a directory or something else is a parameter.

Where the code and the documented intent differ, the model follows the code:
- The extractor handles `workflow` before `prompt`, inside one `try` block. A malformed workflow, an unwritable workflow file, or a workflow whose summary cannot be computed therefore ends the call with `False`, and the prompt key is never looked at. There is no partial success within one file (`ExtractComfyUI.ExtractWorkflowFailure`).
- An exception in the workflow summary comes after the workflow file has been written. That file stays written, yet the call returns `False` (`ExtractComfyUI.ExtractSummaryFailureKeepsFile`).
- A workflow document missing `nodes` or `links` reports 0 for that count.
- The folder scan is named for PNG files and documented as scanning PNGs. Its filter is a `.comfy` suffix, and that is what is modelled (`ExtractComfyUI.PngNeverScanned`). Which filter was intended cannot be derived from the code, so no finding is claimed.

## Model

| member | source | states |
|---|---|---|
| PathOps.SplitExtSpec | remove_metadata.py:56 | `splitext` cuts exactly at the last dot of the final component when some non-dot character precedes it there, and otherwise returns `(p, "")` |
| PathOps.NonDotInSpec | remove_metadata.py:56 | the leading-dot scan of `splitext` succeeds iff the scanned range holds a character other than a dot |
| PathOps.ExtensionShape | remove_metadata.py:56 | an extension is empty or one dot followed by neither dots nor separators |
| PathOps.SplitExtLower | remove_metadata.py:102 | lower-casing a path and then splitting it gives the lower-cased parts of the original split |
| PathOps.BasenameSpec | extract_comfyui.py:16 | the base name is the longest separator-free suffix of the path |
| PathOps.DirPrefixSpec | remove_metadata.py:55-57 | the directory prefix (everything up to the last separator) and the base name together are the path; the prefix is what "keeps the directory" means for the `_no_metadata` name |
| PathOps.JoinSpec | remove_metadata.py:104 | `join(a, b)`: an absolute `b` is the result; otherwise `b` ends the result, preceded by `a` or by `a` and one separator |
| PathOps.BasenameOfJoin | extract_comfyui.py:20 | joining a separator-free name makes that name the base name of the result |
| PathOps.BasenameAppend | remove_metadata.py:57 | appending separator-free text extends the base name and keeps the directory prefix |
| RemoveMetadata.Clean | remove_metadata.py:41-51 | flattening happens iff the format is JPEG/JPG and the mode is RGBA, LA or P; a flattened image is RGB of the source size on white, where P is converted to RGBA first, RGBA and converted P use the last band as mask, and LA has no mask; otherwise the copy has the source mode, size and pixel data |
| RemoveMetadata.Destination | remove_metadata.py:54-59 | an explicit output path is used verbatim; otherwise, when preserving, the path gets `_no_metadata` before its extension, keeps directory and extension, and differs from the input; otherwise it is the input itself |
| RemoveMetadata.NoMetadataPathShape | remove_metadata.py:55-57 | the `_no_metadata` name differs from the input, has the same directory prefix, and splits into the suffixed root and the original extension |
| RemoveMetadata.SaveKwargs | remove_metadata.py:63-67 | quality 95 and optimize for JPEG/JPG, optimize for PNG, nothing for other formats; no argument other than quality and optimize is ever passed |
| RemoveMetadata.RemoveMetadataFromImage | remove_metadata.py:19-79 | succeeds iff the input decodes and its destination can be written; the one save writes the clean image with the original format and the format's arguments to the destination; without an output path it overwrites the input iff the original is not preserved |
| RemoveMetadata.CandidateIffExtension | remove_metadata.py:102-103 | a file is a batch candidate iff it has an extension whose lower-cased form is one of the seven allowlisted ones |
| RemoveMetadata.CandidateIgnoresCase | remove_metadata.py:102-103 | candidacy depends only on the lower-cased name |
| RemoveMetadata.UpperCaseExtensionAccepted | remove_metadata.py:92-103 | `X.JPG` is a candidate |
| RemoveMetadata.HiddenNameRejected | remove_metadata.py:92-103 | `.png` has no extension and is not a candidate |
| RemoveMetadata.GifRejected | remove_metadata.py:92-103 | `a.gif` is not a candidate |
| RemoveMetadata.CountSaved | remove_metadata.py:116-117 | the success count of a sequence of calls never exceeds the number of calls |
| RemoveMetadata.FileCallsAreCandidates | remove_metadata.py:101-114 | the calls for one walk root correspond one-to-one and in order to its candidate files |
| RemoveMetadata.CandidatesMembership | remove_metadata.py:101-103 | a file is among the candidates iff it is listed and passes the filter |
| RemoveMetadata.WalkCallsMembership | remove_metadata.py:100-114 | a call is made iff it belongs to a candidate file of some walk root, with that root's input and output paths |
| RemoveMetadata.WalkCallsLength | remove_metadata.py:100-114 | a folder run makes exactly one call per candidate file of the walk |
| RemoveMetadata.ProcessedAtMostCandidates | remove_metadata.py:93-117 | the reported count never exceeds the number of candidate files |
| RemoveMetadata.MirrorKeepsName | remove_metadata.py:104-114 | input and mirrored output paths both end in the file's own name; without an output folder the output argument is `None` |
| RemoveMetadata.ProcessFolder | remove_metadata.py:82-119 | the calls made are those of the specification, over `os.walk` or over the top directory alone, and the count is the number of those calls that succeed |
| RemoveMetadata.ProcessRoot | remove_metadata.py:101-117 | one root appends exactly its candidate files' calls and adds their successes to the count |
| RemoveMetadata.RunCommand | remove_metadata.py:135-153 | a missing or otherwise invalid input exits 1 without work; a file is processed and exits 0 iff it succeeded; a directory is processed as a folder and exits 0 |
| ExtractComfyUI.TypeList | extract_comfyui.py:27 | the comprehension succeeds iff every node is an object, and then lists each node's `type` entry, or `None` where it is absent or `null` |
| ExtractComfyUI.SampleOfNodeList | extract_comfyui.py:27 | the sample of a node list has length `min(5, len(nodes))` and holds the first nodes' types, or the comprehension raises because one of those nodes is not an object |
| ExtractComfyUI.SummarizeWorkflow | extract_comfyui.py:25-28 | a non-object document raises; a missing `nodes` or `links` counts 0 instead of failing: without `nodes` the summary exists iff `links` has a length, without `links` iff the node sample computes, and with both missing it is 0 nodes, 0 links and an empty sample; a summary of an object reports exactly `len(nodes)`, `len(links)` and the node sample, with each key defaulting to `[]` |
| ExtractComfyUI.SummaryOfNodeList | extract_comfyui.py:25-28 | with a node list, the summary exists iff the sampled nodes are objects and `links` has a length, and it reports `len(nodes)`, `len(links)` and the sample of the first types |
| ExtractComfyUI.SummaryExample | extract_comfyui.py:25-28 | two typed nodes and three links report 2 nodes, 3 links and the sample `['A', 'B']` |
| ExtractComfyUI.HandleWorkflowWrites | extract_comfyui.py:18-28 | the workflow step writes its parsed document exactly when it parses and the file opens, even if the summary then raises; it raises iff parsing, opening or the summary fails; without an exception it prints that document's summary |
| ExtractComfyUI.HandlePromptWrites | extract_comfyui.py:30-36 | the prompt step writes its parsed document exactly when it parses and the file opens, even if `len` then raises; it raises iff parsing, opening or `len` fails; without an exception it prints `len(prompt_data)` |
| ExtractComfyUI.ExtractInfo | extract_comfyui.py:10-38 | with neither key truthy nothing is written or printed and the result is `False`; at most two files are written, and a `True` result printed one summary per written file |
| ExtractComfyUI.ExtractResult | extract_comfyui.py:13-42 | the result is `True` iff some key is truthy and every truthy key is parsed, written and summarised without an exception |
| ExtractComfyUI.ExtractWritten | extract_comfyui.py:18-38 | only the workflow and prompt files are written, each holding exactly the parsed value of its truthy key, the workflow file first; on success one file per truthy key |
| ExtractComfyUI.ExtractWorkflowFailure | extract_comfyui.py:18-42 | an exception on the workflow key gives `False`, no summary, and no file other than the workflow file |
| ExtractComfyUI.ExtractSummaryFailureKeepsFile | extract_comfyui.py:18-28 | a workflow that parses and opens but whose summary raises leaves exactly its file written, prints nothing, and the call returns `False` |
| ExtractComfyUI.ExtractSummaries | extract_comfyui.py:24-36 | a successful call prints the workflow's summary and then the prompt's length, one line per truthy key |
| ExtractComfyUI.ExtractMetadata | extract_comfyui.py:5-42 | an image that does not open yields `False` with no effect; an image with neither `workflow` nor `prompt` truthy likewise |
| ExtractComfyUI.BaseNameHasNoSeparator | extract_comfyui.py:16 | the base name contains no separator |
| ExtractComfyUI.WorkflowFileName | extract_comfyui.py:16-20 | the workflow file's own name is the base name followed by `_workflow.json` |
| ExtractComfyUI.PromptFileName | extract_comfyui.py:32 | the prompt file's own name is the base name followed by `_prompt.json` |
| ExtractComfyUI.OutputFilesDistinct | extract_comfyui.py:20-32 | the workflow and prompt files of one image are different paths |
| ExtractComfyUI.OutputNamesDropDirectory | extract_comfyui.py:16-32 | the output paths do not depend on the directory the image sits in |
| ExtractComfyUI.ComfyFilterIgnoresCase | extract_comfyui.py:51 | the scan filter treats a name and its lower-cased form alike |
| ExtractComfyUI.PngNeverScanned | extract_comfyui.py:51 | a name ending in `.png`, in any case, is never scanned |
| ExtractComfyUI.ComfyExamples | extract_comfyui.py:51 | `Graph.COMFY` and `a.comfy` are scanned, `image.png` is not |
| ExtractComfyUI.ComfyFilesMembership | extract_comfyui.py:50-51 | a file is among a root's matches iff it is listed and passes the filter |
| ExtractComfyUI.RootScanIsFiltered | extract_comfyui.py:50-52 | the paths for one root are the root joined with its matching files, in order and once each |
| ExtractComfyUI.RootScanSound | extract_comfyui.py:50-52 | every path passed for a root comes from one of its matching files |
| ExtractComfyUI.RootScanComplete | extract_comfyui.py:50-52 | every matching file of a root is passed |
| ExtractComfyUI.ScanPathsLength | extract_comfyui.py:49-53 | the scan calls the extractor exactly once per matching file of the walk |
| ExtractComfyUI.ScanPathsMembership | extract_comfyui.py:49-53 | a path is passed iff it is a walk root joined with one of that root's matching files |
| ExtractComfyUI.ScanFolder | extract_comfyui.py:45-53 | the loop passes exactly the specified paths, in walk order, and each gets the extractor's outcome for that path |
| ExtractComfyUI.ScanRoot | extract_comfyui.py:50-53 | one root appends exactly its matching files' paths and their outcomes |

## Left out

- Pillow is not modelled: decoding, `_getexif`, `convert`, `split`, `paste`, `putdata` and the encoders. An image is an abstract value. A flattened image records its size, the white background, the layer and the mask, but not the composited pixels.
- RemoveMetadata.Clean: does not state the pixel values of a flattened image, because alpha compositing is Pillow's code.
- RemoveMetadata.RemoveMetadataFromImage: only `Image.open` and the save can fail. Any other Pillow call is taken to succeed, because the model has no view of Pillow's internal errors.
- `json.loads` and `json.dump` are not modelled. Parsing is a parameter, and dumping a parsed value always succeeds. JSON numbers are integers in `Json`, because only lengths and the `type` entries matter.
- ExtractComfyUI.ExtractMetadata: does not state the file names it passes to the `try` block. Its properties are stated on `ExtractInfo`, with the two paths as parameters, and the path lemmas cover the names. Stating both together makes proofs about the folder scan too expensive.
- Image metadata values are strings. Pillow also stores non-string entries such as `dpi`, but only the string-valued `workflow` and `prompt` entries are used.
- Filesystem I/O is not modelled: `os.path.exists`, `os.path.isfile`, `os.path.isdir`, the `os.makedirs` calls of both scripts, and their exceptions. `Fs` is a snapshot taken before the run, so a file written during a folder run does not become visible to later steps of that run.
- `os.walk` and `os.listdir` are not modelled. Their listing and its order are inputs, including the `isfile` filter of the non-recursive listing. Exceptions raised by the walk are not modelled.
- `os.path.relpath` is modelled only for the roots a walk yields. There it is `.` or the directory names joined; general normalisation is left out.
- RemoveMetadata.MirroredOutput and FileSystem.RelPath: they assume that the directory names in a walk entry are non-empty, contain no separator and are never `.` or `..`, as `os.walk` yields them. `WalkEntry` does not enforce this, and for other names `RelPath` differs from the normalising `relpath`.
- Windows path rules are not modelled. On Windows `os.path` is `ntpath`, with `\` separators and drive letters; the model is `posixpath` only.
- `str.lower` is modelled for ASCII letters only. Unicode case mapping is beyond `seq<char>`.
- All console output is left out except the numbers on the extractor's summary lines.
- The command line is not parsed. `argparse`, the unused `-v/--verbose` flag, the usage banner, and the hard-coded folders of the extractor's `__main__` block are left out. `RunCommand` receives the parsed arguments and the kind of the input path.
