/**
 * The decision logic of the ComfyUI metadata extractor: which metadata keys
 * trigger work, what the output files are called, what the summary line
 * reports, how an exception anywhere ends the file's processing, and which
 * files a folder scan hands to the extractor.  `json.loads` is a parameter;
 * `json.dump`, `print` and directory creation are not modelled.
 */
module ExtractComfyUI {
  import opened Wrappers
  import opened PathOps
  import opened FileSystem

  const WORKFLOW_KEY: string := "workflow"
  const PROMPT_KEY: string := "prompt"
  const WORKFLOW_SUFFIX: string := "_workflow.json"
  const PROMPT_SUFFIX: string := "_prompt.json"
  /** The only suffix the scan accepts, compared after lower-casing. */
  const COMFY_SUFFIX: string := ".comfy"
  /** How many node types the workflow summary samples. */
  const SAMPLE_SIZE: nat := 5

  /** A value as `json.loads` returns it (numbers are abstracted to integers). */
  datatype Json =
    | JNull
    | JBool(b: bool)
    | JNum(n: int)
    | JStr(s: string)
    | JArr(items: seq<Json>)
    | JObj(fields: map<string, Json>)

  function Min(a: nat, b: nat): nat
  {
    if a <= b then a else b
  }

  /** Python's `len` on a decoded value; `None` where `len` raises `TypeError`. */
  function PyLen(v: Json): Option<nat>
  {
    match v
    case JStr(s) => Some(|s|)
    case JArr(items) => Some(|items|)
    case JObj(fields) => Some(|fields|)
    case _ => None
  }

  /** `fields.get(key, [])`. */
  function GetOrEmpty(fields: map<string, Json>, key: string): Json
  {
    if key in fields then fields[key] else JArr([])
  }

  /** `n.get("type")` on an object node: its `type` entry, `None` when it has none or it is JSON `null`. */
  function TypeOf(n: Json): Option<Json>
  {
    if n.JObj? && "type" in n.fields && n.fields["type"] != JNull then Some(n.fields["type"]) else None
  }

  /** `[n.get("type") for n in items]`; `None` where an element is not an object and `get` raises. */
  function TypeList(items: seq<Json>): (r: Option<seq<Option<Json>>>)
    ensures r.Some? <==> forall i :: 0 <= i < |items| ==> items[i].JObj?
    ensures r.Some? ==> |r.value| == |items| && forall i :: 0 <= i < |items| ==> r.value[i] == TypeOf(items[i])
  {
    if items == [] then Some([])
    else if !items[0].JObj? then None
    else
      match TypeList(items[1..])
      case None => None
      case Some(rest) => Some([TypeOf(items[0])] + rest)
  }

  /**
   * `[n.get("type") for n in nodes[:5]]`.  Slicing works on lists and
   * strings only, and the characters of a non-empty string have no `get`.
   */
  function NodeTypeSample(nodes: Json): (r: Option<seq<Option<Json>>>)
  {
    match nodes
    case JArr(items) => TypeList(items[..Min(SAMPLE_SIZE, |items|)])
    case JStr(s) => if s == "" then Some([]) else None
    case _ => None
  }

  /** The sample of a node list is its first `min(5, len(nodes))` types, or the comprehension raised. */
  lemma SampleOfNodeList(items: seq<Json>)
    ensures var r := NodeTypeSample(JArr(items));
      && (r.Some? <==> forall i :: 0 <= i < Min(SAMPLE_SIZE, |items|) ==> items[i].JObj?)
      && (r.Some? ==> |r.value| == Min(SAMPLE_SIZE, |items|)
                      && forall i :: 0 <= i < |r.value| ==> r.value[i] == TypeOf(items[i]))
  {
    var prefix := items[..Min(SAMPLE_SIZE, |items|)];
    assert forall i :: 0 <= i < |prefix| ==> prefix[i] == items[i];
  }

  /** What the summary lines report for one file. */
  datatype Summary =
    | WorkflowSummary(base: string, nodes: nat, links: nat, sample: seq<Option<Json>>)
    | PromptSummary(base: string, entries: nat)

  /**
   * The `[WORKFLOW]` line's numbers: `len(nodes)`, `len(links)` and the
   * type sample, each key defaulting to `[]`; `None` where any of
   * `doc.get`, the sample or `len` raises.
   */
  function SummarizeWorkflow(base: string, doc: Json): (r: Option<Summary>)
    ensures !doc.JObj? ==> r.None?
    ensures r.Some? ==> r.value.WorkflowSummary? && r.value.base == base
    ensures doc.JObj? && "nodes" !in doc.fields ==> r.Some? ==> r.value.nodes == 0 && r.value.sample == []
    ensures doc.JObj? && "links" !in doc.fields ==> r.Some? ==> r.value.links == 0
    ensures doc.JObj? && "nodes" !in doc.fields && "links" !in doc.fields ==> r == Some(WorkflowSummary(base, 0, 0, []))
    ensures doc.JObj? && "nodes" !in doc.fields ==> (r.Some? <==> PyLen(GetOrEmpty(doc.fields, "links")).Some?)
    ensures doc.JObj? && "links" !in doc.fields ==> (r.Some? <==> NodeTypeSample(GetOrEmpty(doc.fields, "nodes")).Some?)
    ensures doc.JObj? && r.Some? ==>
      && Some(r.value.nodes) == PyLen(GetOrEmpty(doc.fields, "nodes"))
      && Some(r.value.links) == PyLen(GetOrEmpty(doc.fields, "links"))
      && Some(r.value.sample) == NodeTypeSample(GetOrEmpty(doc.fields, "nodes"))
  {
    match doc
    case JObj(fields) =>
      var nodes := GetOrEmpty(fields, "nodes");
      var links := GetOrEmpty(fields, "links");
      var sample := NodeTypeSample(nodes);
      var nodeCount := PyLen(nodes);
      var linkCount := PyLen(links);
      if sample.Some? && nodeCount.Some? && linkCount.Some? then
        Some(WorkflowSummary(base, nodeCount.value, linkCount.value, sample.value))
      else
        None
    case _ => None
  }

  /** A workflow whose `nodes` is a list reports its length and the sample of its first five types. */
  lemma SummaryOfNodeList(base: string, fields: map<string, Json>, items: seq<Json>)
    requires "nodes" in fields && fields["nodes"] == JArr(items)
    ensures var r := SummarizeWorkflow(base, JObj(fields));
      && (r.Some? <==> (forall i :: 0 <= i < Min(SAMPLE_SIZE, |items|) ==> items[i].JObj?)
                       && PyLen(GetOrEmpty(fields, "links")).Some?)
      && (r.Some? ==> r.value.nodes == |items| && r.value.links == PyLen(GetOrEmpty(fields, "links")).value
                      && |r.value.sample| == Min(SAMPLE_SIZE, |items|)
                      && forall i :: 0 <= i < |r.value.sample| ==> r.value.sample[i] == TypeOf(items[i]))
  {
    SampleOfNodeList(items);
  }

  /** Two typed nodes and three links: "2 nodes, 3 links, sample: ['A', 'B']". */
  lemma SummaryExample(base: string)
    ensures SummarizeWorkflow(base, JObj(map[
      "nodes" := JArr([JObj(map["type" := JStr("A")]), JObj(map["type" := JStr("B")])]),
      "links" := JArr([JNum(1), JNum(2), JNum(3)])]))
      == Some(WorkflowSummary(base, 2, 3, [Some(JStr("A")), Some(JStr("B"))]))
  {
    var a := JObj(map["type" := JStr("A")]);
    var b := JObj(map["type" := JStr("B")]);
    var fields := map["nodes" := JArr([a, b]), "links" := JArr([JNum(1), JNum(2), JNum(3)])];
    assert GetOrEmpty(fields, "nodes") == JArr([a, b]);
    assert GetOrEmpty(fields, "links") == JArr([JNum(1), JNum(2), JNum(3)]);
    assert [a, b][..Min(SAMPLE_SIZE, 2)] == [a, b];
    assert TypeOf(a) == Some(JStr("A")) && TypeOf(b) == Some(JStr("B"));
    var r := TypeList([a, b]);
    assert [a, b][0].JObj? && [a, b][1].JObj?;
    assert r.Some? && |r.value| == 2 && r.value[0] == TypeOf(a) && r.value[1] == TypeOf(b);
    assert r.value == [r.value[0], r.value[1]];
  }

  /** A file written by the extractor: its path and the document dumped into it. */
  datatype Written = Written(path: string, doc: Json)

  /**
   * What one `extract_comfyui_metadata` call does: the files it writes in
   * order, the summaries it prints, and the value it returns.
   */
  datatype Extraction = Extraction(written: seq<Written>, summaries: seq<Summary>, result: bool)

  /** Python truthiness of `info.get(key)`: present and non-empty. */
  predicate Present(info: map<string, string>, key: string)
  {
    key in info && info[key] != ""
  }

  /** `os.path.splitext(os.path.basename(image_path))[0]`. */
  function BaseName(imagePath: string): string
  {
    SplitExt(Basename(imagePath)).0
  }

  /** `os.path.join(output_dir, f"{base_name}_workflow.json")`. */
  function WorkflowFile(outputDir: string, imagePath: string): string
  {
    Join(outputDir, BaseName(imagePath) + WORKFLOW_SUFFIX)
  }

  /** `os.path.join(output_dir, f"{base_name}_prompt.json")`. */
  function PromptFile(outputDir: string, imagePath: string): string
  {
    Join(outputDir, BaseName(imagePath) + PROMPT_SUFFIX)
  }

  /** The workflow key is handled without an exception: it parses, its file opens, and its summary computes. */
  predicate WorkflowHandled(fs: Fs, raw: string, path: string, base: string, loads: string -> Option<Json>)
  {
    loads(raw).Some? && CanWrite(fs, path) && SummarizeWorkflow(base, loads(raw).value).Some?
  }

  /** The prompt key is handled without an exception: it parses, its file opens, and `len` applies. */
  predicate PromptHandled(fs: Fs, raw: string, path: string, loads: string -> Option<Json>)
  {
    loads(raw).Some? && CanWrite(fs, path) && PyLen(loads(raw).value).Some?
  }

  /** The effects of handling one key, and whether an exception left the `try` block. */
  datatype Step = Step(written: seq<Written>, summaries: seq<Summary>, raised: bool)

  function HandleWorkflow(fs: Fs, raw: string, path: string, base: string, loads: string -> Option<Json>): Step
  {
    match loads(raw)
    case None => Step([], [], true)
    case Some(doc) =>
      if !CanWrite(fs, path) then Step([], [], true)
      else
        match SummarizeWorkflow(base, doc)
        case None => Step([Written(path, doc)], [], true)
        case Some(summary) => Step([Written(path, doc)], [summary], false)
  }

  function HandlePrompt(fs: Fs, raw: string, path: string, base: string, loads: string -> Option<Json>): Step
  {
    match loads(raw)
    case None => Step([], [], true)
    case Some(doc) =>
      if !CanWrite(fs, path) then Step([], [], true)
      else
        match PyLen(doc)
        case None => Step([Written(path, doc)], [], true)
        case Some(n) => Step([Written(path, doc)], [PromptSummary(base, n)], false)
  }

  /**
   * Handling the workflow key writes its parsed document as soon as it
   * parses and the file opens, even when the summary then raises; without
   * an exception it prints that document's summary.
   */
  lemma HandleWorkflowWrites(fs: Fs, raw: string, path: string, base: string, loads: string -> Option<Json>)
    ensures var s := HandleWorkflow(fs, raw, path, base, loads);
      && s.written == (if loads(raw).Some? && CanWrite(fs, path) then [Written(path, loads(raw).value)] else [])
      && (s.raised <==> !WorkflowHandled(fs, raw, path, base, loads))
      && (s.raised ==> s.summaries == [])
      && (!s.raised ==> s.summaries == [SummarizeWorkflow(base, loads(raw).value).value])
  {
  }

  /**
   * Handling the prompt key writes its parsed document as soon as it parses
   * and the file opens, even when `len` then raises; without an exception it
   * prints the document's length.
   */
  lemma HandlePromptWrites(fs: Fs, raw: string, path: string, base: string, loads: string -> Option<Json>)
    ensures var s := HandlePrompt(fs, raw, path, base, loads);
      && s.written == (if loads(raw).Some? && CanWrite(fs, path) then [Written(path, loads(raw).value)] else [])
      && (s.raised <==> !PromptHandled(fs, raw, path, loads))
      && (s.raised ==> s.summaries == [])
      && (!s.raised ==> s.summaries == [PromptSummary(base, PyLen(loads(raw).value).value)])
  {
  }

  /**
   * The `try` block of `extract_comfyui_metadata` for an opened image with
   * metadata `info`, writing to `wf` and `pf`.  The workflow key is handled
   * before the prompt key, and the first exception ends the call with
   * `False`, keeping what was already written.
   */
  function ExtractInfo(fs: Fs, info: map<string, string>, wf: string, pf: string, base: string,
                       loads: string -> Option<Json>): (x: Extraction)
    ensures !Present(info, WORKFLOW_KEY) && !Present(info, PROMPT_KEY) ==> x == Extraction([], [], false)
    ensures |x.summaries| <= |x.written| <= 2
    ensures x.result ==> |x.summaries| == |x.written|
  {
    if !Present(info, WORKFLOW_KEY) && !Present(info, PROMPT_KEY) then Extraction([], [], false)
    else
      var w := if Present(info, WORKFLOW_KEY) then HandleWorkflow(fs, info[WORKFLOW_KEY], wf, base, loads)
        else Step([], [], false);
      if w.raised then Extraction(w.written, w.summaries, false)
      else
        var p := if Present(info, PROMPT_KEY) then HandlePrompt(fs, info[PROMPT_KEY], pf, base, loads)
          else Step([], [], false);
        Extraction(w.written + p.written, w.summaries + p.summaries, !p.raised)
  }

  /**
   * The call returns `True` iff some key is present and every present key
   * is handled without an exception.
   */
  lemma ExtractResult(fs: Fs, info: map<string, string>, wf: string, pf: string, base: string,
                      loads: string -> Option<Json>)
    ensures ExtractInfo(fs, info, wf, pf, base, loads).result <==>
      && (Present(info, WORKFLOW_KEY) || Present(info, PROMPT_KEY))
      && (Present(info, WORKFLOW_KEY) ==> WorkflowHandled(fs, info[WORKFLOW_KEY], wf, base, loads))
      && (Present(info, PROMPT_KEY) ==> PromptHandled(fs, info[PROMPT_KEY], pf, loads))
  {
    if Present(info, WORKFLOW_KEY) {
      HandleWorkflowWrites(fs, info[WORKFLOW_KEY], wf, base, loads);
    }
    if Present(info, PROMPT_KEY) {
      HandlePromptWrites(fs, info[PROMPT_KEY], pf, base, loads);
    }
  }

  /**
   * Only the two output files are written, each holding exactly the
   * document its present key parsed to, the workflow file first.
   */
  lemma ExtractWritten(fs: Fs, info: map<string, string>, wf: string, pf: string, base: string,
                       loads: string -> Option<Json>)
    ensures var x := ExtractInfo(fs, info, wf, pf, base, loads);
      && (forall k :: 0 <= k < |x.written| ==>
            || (x.written[k].path == wf && Present(info, WORKFLOW_KEY) && loads(info[WORKFLOW_KEY]) == Some(x.written[k].doc))
            || (x.written[k].path == pf && Present(info, PROMPT_KEY) && loads(info[PROMPT_KEY]) == Some(x.written[k].doc)))
      && (|x.written| == 2 ==> x.written[0].path == wf && x.written[1].path == pf)
      && (x.result ==> |x.written| == (if Present(info, WORKFLOW_KEY) then 1 else 0) + (if Present(info, PROMPT_KEY) then 1 else 0))
  {
    if Present(info, WORKFLOW_KEY) {
      HandleWorkflowWrites(fs, info[WORKFLOW_KEY], wf, base, loads);
    }
    if Present(info, PROMPT_KEY) {
      HandlePromptWrites(fs, info[PROMPT_KEY], pf, base, loads);
    }
  }

  /** An exception while handling the workflow key stops before the prompt key is looked at. */
  lemma ExtractWorkflowFailure(fs: Fs, info: map<string, string>, wf: string, pf: string, base: string,
                               loads: string -> Option<Json>)
    requires Present(info, WORKFLOW_KEY) && !WorkflowHandled(fs, info[WORKFLOW_KEY], wf, base, loads)
    ensures var x := ExtractInfo(fs, info, wf, pf, base, loads);
      && !x.result && x.summaries == [] && |x.written| <= 1
      && forall k :: 0 <= k < |x.written| ==> x.written[k].path == wf
  {
    HandleWorkflowWrites(fs, info[WORKFLOW_KEY], wf, base, loads);
  }

  /**
   * A workflow that parses and whose file opens but whose summary raises
   * stays written, and the call returns `False` with nothing printed.
   */
  lemma ExtractSummaryFailureKeepsFile(fs: Fs, info: map<string, string>, wf: string, pf: string, base: string,
                                       loads: string -> Option<Json>)
    requires Present(info, WORKFLOW_KEY) && loads(info[WORKFLOW_KEY]).Some? && CanWrite(fs, wf)
    requires SummarizeWorkflow(base, loads(info[WORKFLOW_KEY]).value).None?
    ensures var x := ExtractInfo(fs, info, wf, pf, base, loads);
      x == Extraction([Written(wf, loads(info[WORKFLOW_KEY]).value)], [], false)
  {
    HandleWorkflowWrites(fs, info[WORKFLOW_KEY], wf, base, loads);
  }

  /** A successful call prints the workflow summary, then the prompt's length, for each truthy key. */
  lemma ExtractSummaries(fs: Fs, info: map<string, string>, wf: string, pf: string, base: string,
                         loads: string -> Option<Json>)
    ensures var x := ExtractInfo(fs, info, wf, pf, base, loads);
      x.result ==>
        x.summaries ==
          (if Present(info, WORKFLOW_KEY) then [SummarizeWorkflow(base, loads(info[WORKFLOW_KEY]).value).value] else [])
          + (if Present(info, PROMPT_KEY) then [PromptSummary(base, PyLen(loads(info[PROMPT_KEY]).value).value)] else [])
  {
    if Present(info, WORKFLOW_KEY) {
      HandleWorkflowWrites(fs, info[WORKFLOW_KEY], wf, base, loads);
    }
    if Present(info, PROMPT_KEY) {
      HandlePromptWrites(fs, info[PROMPT_KEY], pf, base, loads);
    }
  }

  /**
   * `extract_comfyui_metadata`: an image that does not open returns `False`
   * with no effect; otherwise the `try` block runs with the output files
   * named after the image's base name inside `outputDir`.
   */
  function ExtractMetadata(fs: Fs, imagePath: string, outputDir: string, loads: string -> Option<Json>): (x: Extraction)
    ensures imagePath !in fs.images ==> x == Extraction([], [], false)
    ensures (imagePath in fs.images && !Present(fs.images[imagePath].info, WORKFLOW_KEY)
             && !Present(fs.images[imagePath].info, PROMPT_KEY)) ==> x == Extraction([], [], false)
  {
    match Open(fs, imagePath)
    case None => Extraction([], [], false)
    case Some(img) =>
      ExtractInfo(fs, img.info, WorkflowFile(outputDir, imagePath), PromptFile(outputDir, imagePath),
                  BaseName(imagePath), loads)
  }

  /** The base name has no separator: it comes from the final path component. */
  lemma BaseNameHasNoSeparator(imagePath: string)
    ensures '/' !in BaseName(imagePath)
  {
    var (root, ext) := SplitExt(Basename(imagePath));
    assert Basename(imagePath) == root + ext;
    assert forall i :: 0 <= i < |root| ==> root[i] == Basename(imagePath)[i];
  }

  /** Appending a separator-free suffix to a separator-free name keeps it separator-free. */
  lemma NoSeparatorAppend(s: string, suffix: string)
    requires '/' !in s && '/' !in suffix
    ensures '/' !in s + suffix
  {
    var t := s + suffix;
    forall i | 0 <= i < |t| ensures t[i] != '/' {
      if i < |s| {
        assert t[i] == s[i];
      } else {
        assert t[i] == suffix[i - |s|];
      }
    }
  }

  /** The workflow file's own name is the base name followed by `_workflow.json`. */
  lemma WorkflowFileName(outputDir: string, imagePath: string)
    ensures Basename(WorkflowFile(outputDir, imagePath)) == BaseName(imagePath) + WORKFLOW_SUFFIX
  {
    BaseNameHasNoSeparator(imagePath);
    NoSeparatorAppend(BaseName(imagePath), WORKFLOW_SUFFIX);
    BasenameOfJoin(outputDir, BaseName(imagePath) + WORKFLOW_SUFFIX);
  }

  /** The prompt file's own name is the base name followed by `_prompt.json`. */
  lemma PromptFileName(outputDir: string, imagePath: string)
    ensures Basename(PromptFile(outputDir, imagePath)) == BaseName(imagePath) + PROMPT_SUFFIX
  {
    BaseNameHasNoSeparator(imagePath);
    NoSeparatorAppend(BaseName(imagePath), PROMPT_SUFFIX);
    BasenameOfJoin(outputDir, BaseName(imagePath) + PROMPT_SUFFIX);
  }

  /** The two outputs of one image never overwrite each other. */
  lemma OutputFilesDistinct(outputDir: string, imagePath: string)
    ensures WorkflowFile(outputDir, imagePath) != PromptFile(outputDir, imagePath)
  {
    WorkflowFileName(outputDir, imagePath);
    PromptFileName(outputDir, imagePath);
    var wn := BaseName(imagePath) + WORKFLOW_SUFFIX;
    var pn := BaseName(imagePath) + PROMPT_SUFFIX;
    assert |wn| != |pn|;
  }

  /**
   * The output files are named after the image's own name only: the
   * directory the image sits in plays no part.
   */
  lemma OutputNamesDropDirectory(outputDir: string, dir: string, name: string)
    requires '/' !in name
    ensures WorkflowFile(outputDir, Join(dir, name)) == WorkflowFile(outputDir, name)
    ensures PromptFile(outputDir, Join(dir, name)) == PromptFile(outputDir, name)
  {
    BasenameOfJoin(dir, name);
    BasenameOfJoin("", name);
    assert Join("", name) == name;
  }

  /** The scan filter: the lower-cased name ends with `.comfy`. */
  predicate IsComfyFile(file: string)
  {
    EndsWith(Lower(file), COMFY_SUFFIX)
  }

  /** The filter ignores case: a name and its lower-cased form are treated alike. */
  lemma ComfyFilterIgnoresCase(file: string)
    ensures IsComfyFile(file) <==> IsComfyFile(Lower(file))
  {
    assert Lower(Lower(file)) == Lower(file);
  }

  /** A name ending in `.png`, in any case, is never scanned. */
  lemma PngNeverScanned(file: string)
    requires EndsWith(Lower(file), ".png")
    ensures !IsComfyFile(file)
  {
    var l := Lower(file);
    assert l[|l| - 1] == ".png"[3];
  }

  lemma ComfyExamples()
    ensures IsComfyFile("Graph.COMFY")
    ensures IsComfyFile("a.comfy")
    ensures !IsComfyFile("image.png")
  {
    assert Lower("Graph.COMFY") == "graph.comfy";
    assert Lower("a.comfy") == "a.comfy";
    assert Lower("image.png") == "image.png";
  }

  /** The files of one root that pass the filter, in order. */
  function ComfyFiles(files: seq<string>): seq<string>
  {
    if files == [] then []
    else ComfyFiles(files[..|files| - 1]) + if IsComfyFile(files[|files| - 1]) then [files[|files| - 1]] else []
  }

  /** The image paths the scan passes for the files of one walk root, in order. */
  function RootScan(folder: string, rel: seq<string>, files: seq<string>): seq<string>
  {
    if files == [] then []
    else
      var paths := RootScan(folder, rel, files[..|files| - 1]);
      var file := files[|files| - 1];
      if IsComfyFile(file) then paths + [Join(Root(folder, rel), file)] else paths
  }

  /** The image paths the scan passes for a whole walk, in order. */
  function ScanPaths(folder: string, walk: seq<WalkEntry>): seq<string>
  {
    if walk == [] then []
    else
      var last := walk[|walk| - 1];
      ScanPaths(folder, walk[..|walk| - 1]) + RootScan(folder, last.rel, last.files)
  }

  /** How many files of the whole walk pass the filter. */
  function TotalComfy(walk: seq<WalkEntry>): nat
  {
    if walk == [] then 0 else TotalComfy(walk[..|walk| - 1]) + |ComfyFiles(walk[|walk| - 1].files)|
  }

  /** A file is in `ComfyFiles(files)` iff it is one of `files` and passes the filter. */
  lemma {:induction false} ComfyFilesMembership(files: seq<string>, f: string)
    ensures f in ComfyFiles(files) <==> f in files && IsComfyFile(f)
  {
    if files != [] {
      ComfyFilesMembership(files[..|files| - 1], f);
      assert files == files[..|files| - 1] + [files[|files| - 1]];
    }
  }

  /** The paths for one root are the root joined with its matching files, in order and once each. */
  lemma {:induction false} RootScanIsFiltered(folder: string, rel: seq<string>, files: seq<string>)
    ensures var paths := RootScan(folder, rel, files);
      && |paths| == |ComfyFiles(files)|
      && forall n :: 0 <= n < |paths| ==> paths[n] == Join(Root(folder, rel), ComfyFiles(files)[n])
  {
    if files != [] {
      var init := files[..|files| - 1];
      var file := files[|files| - 1];
      RootScanIsFiltered(folder, rel, init);
      var paths := RootScan(folder, rel, init);
      if IsComfyFile(file) {
        assert RootScan(folder, rel, files) == paths + [Join(Root(folder, rel), file)];
        assert ComfyFiles(files) == ComfyFiles(init) + [file];
      } else {
        assert RootScan(folder, rel, files) == paths;
        assert ComfyFiles(files) == ComfyFiles(init);
      }
    }
  }

  /** The scan makes exactly one call per matching file of the walk. */
  lemma {:induction false} ScanPathsLength(folder: string, walk: seq<WalkEntry>)
    ensures |ScanPaths(folder, walk)| == TotalComfy(walk)
  {
    if walk != [] {
      ScanPathsLength(folder, walk[..|walk| - 1]);
      RootScanIsFiltered(folder, walk[|walk| - 1].rel, walk[|walk| - 1].files);
    }
  }

  /** Every path passed for a root is the root joined with one of its matching files. */
  lemma RootScanSound(folder: string, rel: seq<string>, files: seq<string>, p: string)
    requires p in RootScan(folder, rel, files)
    ensures exists j :: 0 <= j < |files| && IsComfyFile(files[j]) && p == Join(Root(folder, rel), files[j])
  {
    RootScanIsFiltered(folder, rel, files);
    var tail := RootScan(folder, rel, files);
    var cands := ComfyFiles(files);
    var n :| 0 <= n < |tail| && tail[n] == p;
    ComfyFilesMembership(files, cands[n]);
    assert cands[n] in cands;
    var j :| 0 <= j < |files| && files[j] == cands[n];
  }

  /** Every matching file of a root gets its path passed. */
  lemma RootScanComplete(folder: string, rel: seq<string>, files: seq<string>, j: int)
    requires 0 <= j < |files| && IsComfyFile(files[j])
    ensures Join(Root(folder, rel), files[j]) in RootScan(folder, rel, files)
  {
    RootScanIsFiltered(folder, rel, files);
    var f := files[j];
    assert f in files;
    ComfyFilesMembership(files, f);
    var n :| 0 <= n < |ComfyFiles(files)| && ComfyFiles(files)[n] == f;
    assert RootScan(folder, rel, files)[n] == Join(Root(folder, rel), f);
  }

  /** A path is passed by the scan iff it is a walk root joined with one of that root's matching files. */
  lemma {:induction false} ScanPathsMembership(folder: string, walk: seq<WalkEntry>, p: string)
    ensures p in ScanPaths(folder, walk) <==>
      exists i, j :: 0 <= i < |walk| && 0 <= j < |walk[i].files| && IsComfyFile(walk[i].files[j])
        && p == Join(Root(folder, walk[i].rel), walk[i].files[j])
  {
    if walk != [] {
      var init := walk[..|walk| - 1];
      var last := walk[|walk| - 1];
      ScanPathsMembership(folder, init, p);
      if p in RootScan(folder, last.rel, last.files) {
        RootScanSound(folder, last.rel, last.files, p);
        var j :| 0 <= j < |last.files| && IsComfyFile(last.files[j]) && p == Join(Root(folder, last.rel), last.files[j]);
        assert walk[|walk| - 1] == last;
      }
      if exists i, j :: 0 <= i < |walk| && 0 <= j < |walk[i].files| && IsComfyFile(walk[i].files[j])
          && p == Join(Root(folder, walk[i].rel), walk[i].files[j]) {
        var i, j :| 0 <= i < |walk| && 0 <= j < |walk[i].files| && IsComfyFile(walk[i].files[j])
          && p == Join(Root(folder, walk[i].rel), walk[i].files[j]);
        if i == |walk| - 1 {
          RootScanComplete(folder, last.rel, last.files, j);
        } else {
          assert init[i] == walk[i];
        }
      }
    }
  }

  lemma RootScanAppend(folder: string, rel: seq<string>, files: seq<string>, j: int)
    requires 0 <= j < |files|
    ensures RootScan(folder, rel, files[..j + 1]) ==
      RootScan(folder, rel, files[..j]) + if IsComfyFile(files[j]) then [Join(Root(folder, rel), files[j])] else []
  {
    assert files[..j + 1][..j] == files[..j];
  }

  lemma ScanPathsAppend(folder: string, walk: seq<WalkEntry>, i: int)
    requires 0 <= i < |walk|
    ensures ScanPaths(folder, walk[..i + 1]) == ScanPaths(folder, walk[..i]) + RootScan(folder, walk[i].rel, walk[i].files)
  {
    assert walk[..i + 1][..i] == walk[..i];
  }

  /** Each passed path got the extractor's outcome for that path. */
  ghost predicate Extracted(fs: Fs, outputDir: string, loads: string -> Option<Json>, paths: seq<string>, results: seq<Extraction>)
  {
    |results| == |paths| && forall n :: 0 <= n < |paths| ==> results[n] == ExtractMetadata(fs, paths[n], outputDir, loads)
  }

  lemma ExtractedAppend(fs: Fs, outputDir: string, loads: string -> Option<Json>, paths: seq<string>,
                        results: seq<Extraction>, p: string)
    requires Extracted(fs, outputDir, loads, paths, results)
    ensures Extracted(fs, outputDir, loads, paths + [p], results + [ExtractMetadata(fs, p, outputDir, loads)])
  {
  }

  /**
   * `scan_folder_for_pngs`: walks the tree and calls the extractor on every
   * file whose lower-cased name ends with `.comfy`.  Returns the paths it
   * passed and the extractor's outcome for each.
   */
  method ScanFolder(fs: Fs, folder: string, outputDir: string, walk: seq<WalkEntry>, loads: string -> Option<Json>)
    returns (paths: seq<string>, results: seq<Extraction>)
    ensures paths == ScanPaths(folder, walk)
    ensures Extracted(fs, outputDir, loads, paths, results)
  {
    paths, results := [], [];
    var i := 0;
    while i < |walk|
      invariant 0 <= i <= |walk|
      invariant paths == ScanPaths(folder, walk[..i])
      invariant Extracted(fs, outputDir, loads, paths, results)
    {
      paths, results := ScanRoot(fs, folder, outputDir, walk[i].rel, walk[i].files, loads, paths, results);
      ScanPathsAppend(folder, walk, i);
      i := i + 1;
    }
    assert walk[..i] == walk;
  }

  /** The inner loop of `scan_folder_for_pngs`: the files of one walk root. */
  method ScanRoot(fs: Fs, folder: string, outputDir: string, rel: seq<string>, files: seq<string>,
                  loads: string -> Option<Json>, pathsBefore: seq<string>, resultsBefore: seq<Extraction>)
    returns (paths: seq<string>, results: seq<Extraction>)
    requires Extracted(fs, outputDir, loads, pathsBefore, resultsBefore)
    ensures paths == pathsBefore + RootScan(folder, rel, files)
    ensures Extracted(fs, outputDir, loads, paths, results)
  {
    paths, results := pathsBefore, resultsBefore;
    var root := Root(folder, rel);
    var j := 0;
    while j < |files|
      invariant 0 <= j <= |files|
      invariant paths == pathsBefore + RootScan(folder, rel, files[..j])
      invariant Extracted(fs, outputDir, loads, paths, results)
    {
      var file := files[j];
      ghost var rootPaths := RootScan(folder, rel, files[..j]);
      RootScanAppend(folder, rel, files, j);
      if IsComfyFile(file) {
        var imagePath := Join(root, file);
        var outcome := ExtractMetadata(fs, imagePath, outputDir, loads);
        AppendAssoc(pathsBefore, rootPaths, [imagePath]);
        ExtractedAppend(fs, outputDir, loads, paths, results, imagePath);
        paths, results := paths + [imagePath], results + [outcome];
      } else {
        assert rootPaths + [] == rootPaths;
      }
      j := j + 1;
    }
    assert files[..j] == files;
  }
}
