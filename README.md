# Converting a topic-mapped AsciiDoc tree to text

This project models, in Dafny, the two pieces of logic in `rag-content` that
turn an OpenShift-style AsciiDoc documentation tree into plain text:

* the **topic-map resolver** and **batch loop** of
  `examples/asciidoctor_text/convert_it_all.py`. `node_in_distro` decides
  whether a topic-map node applies to a distro. `process_node` walks the tree
  of `Topics` groups and `File` leaves and appends each in-scope leaf's path
  to a list it threads through the recursion. `get_file_list` resolves every
  YAML document of the topic map and concatenates the results. The
  `__main__` loop maps each logical path to an `.adoc` input and a `.txt`
  output and converts them one by one;
* the **asciidoctor invocation builder** `AsciidocConverter` of
  `src/lightspeed_rag_content/asciidoc/asciidoc_converter.py`. It covers the
  attribute list built from a YAML file, the default ruby converter script,
  the lookup of the `asciidoctor` executable, and the argument vector and
  destination branch of `convert`.

Modules:

| module | file | contents |
|---|---|---|
| `Wrappers` | `wrappers.dfy` | `Option`, `Result`, and the Python exceptions that escape the code |
| `PyStrings` | `pystrings.dfy` | `str.split`, `str.join`, `str(int)` |
| `PurePaths` | `purepaths.dfy` | the `pathlib` operations used: `joinpath`, `parent`, `absolute()`, `str()`, `suffix`/`stem`/`with_suffix` |
| `TopicMap` | `topic_map.dfy` | `node_in_distro`, `process_node` (a method over a mutable `PathList`), `get_file_list`, and the pure functions specifying them |
| `TopicMapProofs` | `topic_map_proofs.dfy` | what the walk computes, stated over node addresses: leaf count, pre-order, labels, exact failure condition |
| `Asciidoc` | `asciidoc_converter.dfy` | `_get_attribute_list`, `_get_default_converter_file`, `_get_asciidoctor_path`, `__init__` (class `AsciidocConverter` with its factory `Create`), `convert` |
| `ConvertItAll` | `convert_it_all.dfy` | the `__main__` block: job paths, the conversion loop, the whole script |

The environment is made explicit. `shutil.which("asciidoctor")` is an
`Option<string>` argument. The working directory used by `absolute()` is a
`cwd` argument. `Path.exists()` is a `pathExists` predicate. `subprocess.run`
is a `run` predicate that says whether asciidoctor exits with status 0 for a
given argument vector. YAML parsing is done before the model is entered: the
topic map arrives as `Node` trees and the attributes file as a parsed
`YamlDoc` or the parser's error. A topic-map path is a sequence of names, one
per `Dir` and the final `File`.

Behaviour of the code that a reader might not expect, and what the model
does with it:

* A node with `Topics` but no `Dir`, or with neither `Topics` nor `File`,
  raises `KeyError` (convert_it_all.py:29, :35). The model raises it too.
* The batch loop catches nothing, so the first failed conversion ends the
  run (convert_it_all.py:121-126). The model stops there as well.
* `convert` does not check that the source file exists before running
  asciidoctor. Neither does the model.
* `convert` calls `mkdir` on the destination path itself, not on its parent
  (asciidoc_converter.py:161). `CreatedDirAsWritten` models that line, and
  Findings records it. `Plan` and `Convert` create the destination's parent,
  the evidently intended directory; "## Left out" says so under their names.
* The default-converter error message lacks its `f` prefix
  (asciidoc_converter.py:112). `MissingDefaultMessageAsWritten` models that
  line. `DefaultConverterFile` and `Setup` use the corrected message.
* The script parses a `--converter-file` option but never passes it to
  `AsciidocConverter`. `ConvertItAll.Script` builds the converter with no
  converter file, as the code does.

## Model

| member | source | states |
|---|---|---|
| TopicMap.NodeInDistro | examples/asciidoctor_text/convert_it_all.py:16-18 | a node with no `Distros`, or an empty one, is in scope for every distro; for a distro containing "," a node is in scope exactly when its `Distros` is missing or empty, since no split piece holds a comma |
| TopicMap.NodeInDistroFields | examples/asciidoctor_text/convert_it_all.py:16-18 | with a non-empty `Distros`, a node is in scope exactly when the distro holds no "," and stands in `Distros` between commas or the ends of the string |
| TopicMap.NoTrimming | examples/asciidoctor_text/convert_it_all.py:18 | tags are not trimmed: `Distros: "a, b"` matches "a" and " b" but not "b" |
| PyStrings.SplitFields | examples/asciidoctor_text/convert_it_all.py:18 | a string is a piece of `s.split(sep)` exactly when it holds no separator and is delimited in `s` by separators or the ends |
| PyStrings.JoinSplit | examples/asciidoctor_text/convert_it_all.py:18 | joining the pieces of a split with the separator gives back the string |
| PyStrings.SplitJoin | examples/asciidoctor_text/convert_it_all.py:18 | splitting a join of separator-free pieces gives back the pieces |
| PyStrings.Split | examples/asciidoctor_text/convert_it_all.py:18 | a split always has at least one piece, and no piece holds the separator |
| TopicMap.Resolve | examples/asciidoctor_text/convert_it_all.py:20-37 | the walk fails only with `KeyError("Dir")` or `KeyError("File")` |
| TopicMap.TopicsFailurePersists | examples/asciidoctor_text/convert_it_all.py:30-33 | once a child of a group fails, the later children do not change the result: the first error is the group's error |
| TopicMap.ProcessNode | examples/asciidoctor_text/convert_it_all.py:20-37 | the list only grows, also when a KeyError escapes; the call succeeds exactly when the resolution does; on success the list is the old list followed by the resolved paths; on failure the error is the resolution's |
| TopicMap.PathList.Append | examples/asciidoctor_text/convert_it_all.py:35 | `append` adds one path at the end of the list |
| TopicMap.PathList.constructor | examples/asciidoctor_text/convert_it_all.py:46 | each document starts from an empty list |
| TopicMapProofs.ResolveEnumeratesLeaves | examples/asciidoctor_text/convert_it_all.py:20-37 | the number of paths equals the number of leaves reachable through in-scope nodes only; they come in strict depth-first pre-order with children in listed order; each is the `Dir` names of its ancestors followed by its `File` |
| TopicMapProofs.LeafAddressesExact | examples/asciidoctor_text/convert_it_all.py:25-35 | a leaf is enumerated exactly when it and every group above it are in scope, so an out-of-scope group hides its whole subtree |
| TopicMapProofs.LeafAddressesPreOrder | examples/asciidoctor_text/convert_it_all.py:28-33 | the enumeration is strictly increasing in lexicographic address order, which is depth-first pre-order |
| TopicMapProofs.TopicAddressesExact | examples/asciidoctor_text/convert_it_all.py:30-33 | the leaves under the first k children of a group are those reachable through those children |
| TopicMapProofs.TopicAddressesPreOrder | examples/asciidoctor_text/convert_it_all.py:30-33 | the leaves of earlier children come before those of later children |
| TopicMapProofs.ResolveLabels | examples/asciidoctor_text/convert_it_all.py:29-35 | each resolved path is the prefix followed by the names along the leaf's address |
| TopicMapProofs.ResolveTopicsLabels | examples/asciidoctor_text/convert_it_all.py:29-33 | within a group each child's paths carry the group's `Dir` |
| TopicMapProofs.ResolveFailsExactly | examples/asciidoctor_text/convert_it_all.py:25-35 | the walk fails exactly when some node reachable through in-scope nodes is a group without `Dir` or a leaf without `File` |
| TopicMapProofs.MalformedFails | examples/asciidoctor_text/convert_it_all.py:29 | a reachable group without `Dir` or leaf without `File` makes the whole walk fail |
| TopicMapProofs.ChildFailureFailsTopics | examples/asciidoctor_text/convert_it_all.py:30-33 | a failing child makes its group fail |
| TopicMapProofs.FailureWitness | examples/asciidoctor_text/convert_it_all.py:29-35 | a failing walk has a reachable malformed node |
| TopicMapProofs.TopicsFailureWitness | examples/asciidoctor_text/convert_it_all.py:30-33 | a failing group has a failing child |
| TopicMap.ChapterScenario | examples/asciidoctor_text/convert_it_all.py:16-37 | `ch1` with leaf `intro` and an "enterprise"-only group `sub` holding `advanced` resolves to `ch1/intro`, `ch1/sub/advanced` for "enterprise" and to `ch1/intro` alone for "community" |
| TopicMap.ResolveDocuments | examples/asciidoctor_text/convert_it_all.py:39-50 | resolving the documents fails only with `KeyError("Dir")` or `KeyError("File")` |
| TopicMap.ResolveDocumentsAppend | examples/asciidoctor_text/convert_it_all.py:44-48 | resolving two runs of documents one after the other is resolving their concatenation; an error in the first run is the error of the whole; when the first run succeeds and the second fails, the second's error is the error of the whole |
| TopicMap.DocumentsFailurePersists | examples/asciidoctor_text/convert_it_all.py:45-48 | the first failing document's error is the error of the whole list |
| TopicMap.GetFileList | examples/asciidoctor_text/convert_it_all.py:39-50 | each document is walked from an empty list and prefix, and the results are concatenated in document order, or the first KeyError escapes |
| PurePaths.JoinPath | examples/asciidoctor_text/convert_it_all.py:122-123 | joining keeps the base's names and appends the given ones |
| PurePaths.Parent | examples/asciidoctor_text/convert_it_all.py:125 | the parent drops the last name; a path without names is its own parent |
| PurePaths.Absolute | examples/asciidoctor_text/convert_it_all.py:114-115 | an absolute path is kept, a relative one is put under the working directory |
| PurePaths.PathStringParts | src/lightspeed_rag_content/asciidoc/asciidoc_converter.py:168 | the names of an absolute path can be read back from its string |
| PurePaths.StemSuffix | examples/asciidoctor_text/convert_it_all.py:122-123 | a name is its stem followed by its suffix, and only the empty name has an empty stem |
| PurePaths.WithSuffixReadsBack | examples/asciidoctor_text/convert_it_all.py:122-123 | after `with_suffix`, the name has the new suffix and keeps its stem |
| PurePaths.WithSuffixTwice | examples/asciidoctor_text/convert_it_all.py:122-123 | replacing a suffix twice is replacing it once with the second suffix |
| PurePaths.WithSuffixPath | examples/asciidoctor_text/convert_it_all.py:122-123 | `with_suffix` succeeds exactly when the suffix is valid and the last name is non-empty; it then changes only the last name |
| PyStrings.LastIndexOf | examples/asciidoctor_text/convert_it_all.py:122-123 | the index found is that of the last occurrence, or -1 when there is none |
| ConvertItAll.JobFor | examples/asciidoctor_text/convert_it_all.py:122-123 | a job exists exactly when the logical path has a non-empty last name |
| ConvertItAll.JobPaths | examples/asciidoctor_text/convert_it_all.py:122-125 | the input is the path under the input directory with its last suffix replaced by ".adoc", the output likewise under the output directory with ".txt"; both keep the stem; the output's parent is the path's directory under the output directory |
| ConvertItAll.RunStepsInOrder | examples/asciidoctor_text/convert_it_all.py:121-126 | the steps taken are the first prepared steps, in order, and every step but the last converted its file |
| ConvertItAll.RunStepsStopsAtFirstFailure | examples/asciidoctor_text/convert_it_all.py:121-126 | the loop succeeds exactly when every step was taken and converted; otherwise it failed preparing the next step or converting the last one, and nothing after that was attempted |
| ConvertItAll.BatchSteps | examples/asciidoctor_text/convert_it_all.py:121-126 | the steps taken are the steps for the first paths, in order, and all but the last converted their files |
| ConvertItAll.BatchOutcome | examples/asciidoctor_text/convert_it_all.py:121-126 | the loop succeeds exactly when every path was converted; otherwise the next path's `with_suffix` failed, or the last step's run did |
| ConvertItAll.RunStepsSecondFails | examples/asciidoctor_text/convert_it_all.py:121-126 | when the first conversion succeeds and the second fails, exactly those two steps are taken, the run ends with the second one's `CalledProcessError`, and no later path is attempted |
| ConvertItAll.BatchSucceeds | examples/asciidoctor_text/convert_it_all.py:121-126 | a loop that succeeds took one step per path, in order; the k-th step is the conversion of the k-th path's job, and its asciidoctor run exited with 0 |
| ConvertItAll.ConvertFiles | examples/asciidoctor_text/convert_it_all.py:121-126 | the loop takes exactly the steps `Batch` defines and ends as it does, so the lemmas about `Batch` hold of it |
| ConvertItAll.ScriptStopsEarly | examples/asciidoctor_text/convert_it_all.py:109-119 | a malformed topic map ends the run before the output directory is made; a failing attributes file or a missing asciidoctor ends it after that, with no file processed |
| ConvertItAll.Script | examples/asciidoctor_text/convert_it_all.py:109-126 | no output directory is made only when the run failed before any file; once a step was taken or the run succeeded, the absolute output directory was made |
| ConvertItAll.ScriptConvertsAll | examples/asciidoctor_text/convert_it_all.py:109-126 | a run that succeeds resolved the topic map and built the "text" converter with no converter file; it took one step per resolved path, in order; each step converts that path's job under the absolute input and output directories, and each asciidoctor run exited with 0 |
| ConvertItAll.Run | examples/asciidoctor_text/convert_it_all.py:109-126 | the script takes the steps and ends with the outcome `Script` defines: file list, output directory, converter, loop |
| Asciidoc.EntryFlagsTypeError | src/lightspeed_rag_content/asciidoc/asciidoc_converter.py:140-141 | building the flags fails only with a TypeError |
| Asciidoc.EntryFlagsExact | src/lightspeed_rag_content/asciidoc/asciidoc_converter.py:140-141 | the flags succeed exactly when every key is a string; there are then 2n of them, `-a` then `key=value` per entry in order; otherwise the error is the TypeError of the first non-string key |
| Asciidoc.EntryFlagsSucceed | src/lightspeed_rag_content/asciidoc/asciidoc_converter.py:140-141 | building the flags raises exactly when some key is not a string |
| Asciidoc.EntryFlagsLayout | src/lightspeed_rag_content/asciidoc/asciidoc_converter.py:140-141 | with string keys there are 2n flags: `-a` at each even position, the k-th entry's `key=value` right after it |
| Asciidoc.EntryFlagsFirstBadKey | src/lightspeed_rag_content/asciidoc/asciidoc_converter.py:140-141 | a failure is the TypeError of a non-string key all of whose predecessors have string keys |
| Asciidoc.ParseFlagsAppend | src/lightspeed_rag_content/asciidoc/asciidoc_converter.py:141 | one more `-a key=value` with a key free of "=" reads back as one more name and value |
| Asciidoc.EntryFlagsFailurePersists | src/lightspeed_rag_content/asciidoc/asciidoc_converter.py:140-141 | the first bad key's error is the error for the whole mapping |
| Asciidoc.EntryFlagsRoundTrip | src/lightspeed_rag_content/asciidoc/asciidoc_converter.py:141 | when keys hold no "=", splitting each flag at its first "=" gives back the names and the `%s` text of the values, in order |
| Asciidoc.AttributeScenario | src/lightspeed_rag_content/asciidoc/asciidoc_converter.py:126-143 | `{a: 1, b: "x"}` gives `-a a=1 -a b=x` |
| Asciidoc.AttributeList | src/lightspeed_rag_content/asciidoc/asciidoc_converter.py:126-143 | no attributes file gives no flags, and neither does an empty document; a failure is the open or parse error passed through, a TypeError for a key, or the AttributeError of a document that is not a mapping |
| Asciidoc.AsciidocConverter.GetAttributeList | src/lightspeed_rag_content/asciidoc/asciidoc_converter.py:126-143 | no file gives `[]`; an open or parse error propagates; an empty document gives `[]`; a mapping gives its flags; any other document fails on `.items()` |
| PyStrings.IntToStringRoundTrip | src/lightspeed_rag_content/asciidoc/asciidoc_converter.py:141 | the decimal text of an integer value reads back as that integer |
| PyStrings.NatToString | src/lightspeed_rag_content/asciidoc/asciidoc_converter.py:141 | the text of a natural number is a non-empty string of digits without leading zeros: it starts with "0" only for zero, and then it is "0" alone |
| Asciidoc.DefaultConverterFile | src/lightspeed_rag_content/asciidoc/asciidoc_converter.py:103-114 | only "text" has a default script, `asciidoc_text_converter.rb` in the ruby directory; any other format is a FileNotFoundError carrying the corrected message, which names the format |
| Asciidoc.MissingDefaultMessageAsWrittenIgnoresFormat | src/lightspeed_rag_content/asciidoc/asciidoc_converter.py:112 | as written, every format gets the same message, so the message cannot name the format |
| Asciidoc.MissingDefaultMessageNamesFormat | src/lightspeed_rag_content/asciidoc/asciidoc_converter.py:112 | the corrected message holds the format after its fixed prefix, and two formats share a message only when they are equal |
| Asciidoc.AsciidoctorPath | src/lightspeed_rag_content/asciidoc/asciidoc_converter.py:116-124 | the lookup succeeds exactly when `which` found a non-empty path, which it returns; otherwise FileNotFoundError "asciidoctor executable not found" |
| Asciidoc.Setup | src/lightspeed_rag_content/asciidoc/asciidoc_converter.py:93-101 | construction succeeds exactly when the attributes load, a converter is given or the format is "text", and asciidoctor is found; errors come in that order; the fields are the format, the flags, the given or default converter, and the tool path |
| Asciidoc.AsciidocConverter.Create | src/lightspeed_rag_content/asciidoc/asciidoc_converter.py:78-101 | the converter is created exactly when construction succeeds, with the fields `Setup` computes, else the constructor's exception |
| Asciidoc.AsciidocConverter.constructor | src/lightspeed_rag_content/asciidoc/asciidoc_converter.py:93-101 | the four fields hold the given values |
| Asciidoc.CommandOf | src/lightspeed_rag_content/asciidoc/asciidoc_converter.py:163-179 | the vector has 10 entries more than the attribute list; the tool comes first, the attribute flags right after it, and the source last |
| Asciidoc.CommandRoundTrip | src/lightspeed_rag_content/asciidoc/asciidoc_converter.py:163-179 | the vector is 10 entries longer than the attribute list and reads back as tool, attributes, `-r` converter, `-b` format, `-o` destination, `--trace`, `--quiet`, source |
| Asciidoc.ParseCommandInverse | src/lightspeed_rag_content/asciidoc/asciidoc_converter.py:163-179 | a vector that reads back is exactly the vector built from what it read |
| Asciidoc.PlanCommand | src/lightspeed_rag_content/asciidoc/asciidoc_converter.py:163-179 | the planned vector carries the converter's tool, flags, absolute converter path and format, then the absolute destination and source |
| Asciidoc.Plan | src/lightspeed_rag_content/asciidoc/asciidoc_converter.py:158-161 | the overwrite warning is given exactly when the destination exists, and a directory is created exactly when it does not: the destination's parent (the corrected behaviour) |
| Asciidoc.CreatedDirAsWritten | src/lightspeed_rag_content/asciidoc/asciidoc_converter.py:158-161 | as written, a directory is made exactly when the destination is absent, and it is the destination itself |
| Asciidoc.CreatedDir | src/lightspeed_rag_content/asciidoc/asciidoc_converter.py:158-161 | corrected, a directory is made exactly when the destination is absent, and it is the destination's parent |
| Asciidoc.CreatedDirAsWrittenBlocksOutput | src/lightspeed_rag_content/asciidoc/asciidoc_converter.py:158-161 | as written, an absent destination itself becomes a directory |
| Asciidoc.CreatedDirLeavesOutputFree | src/lightspeed_rag_content/asciidoc/asciidoc_converter.py:158-161 | corrected, the destination's directory exists afterwards and the destination is not made a directory |
| Asciidoc.AsciidocConverter.Convert | src/lightspeed_rag_content/asciidoc/asciidoc_converter.py:146-181 | one call makes the planned warning, directory and vector; it succeeds exactly when asciidoctor exits with 0, otherwise it raises CalledProcessError with the vector |

## Left out

- YAML parsing (`yaml.safe_load`, `yaml.safe_load_all`): a foreign library. Topic maps arrive as `Node` trees. The attributes file arrives as a parsed document or the parser's error. A parse error in a later topic-map document, which `safe_load_all` only raises once the loop reaches it, is not modelled.
- YAML values other than strings, integers, booleans and null in the attributes file (floats, dates, lists, nested mappings) are not modelled, and neither are duplicate keys. Attribute keys are modelled as the scalars YAML gives, so a non-string key gives Python's TypeError.
- Topic-map nodes of other shapes are not modelled: a non-string `Distros`, `Topics: null`, or a document that is not a mapping.
- `pathlib` normalisation is not modelled: names that are empty, ".", contain "/" or are absolute are taken as single components. So are `Path` truthiness and `str()` of relative paths beyond the cases shown.
- `Asciidoc.AsciidocConverter.Convert`: `if self.converter_file:` is always true for a `Path`, so `-r` is always emitted. The given converter is an `Option<FsPath>`; a falsy non-`Path` value passed as `converter_file` is not modelled.
- Asciidoc.Plan: an absent destination makes it plan `mkdir` on the destination's parent, the corrected behaviour of the first finding. Line 161 of asciidoc_converter.py creates the destination path itself; `Asciidoc.CreatedDirAsWritten` models that line.
- Asciidoc.AsciidocConverter.Convert: like `Plan`, it creates the destination's parent, not the destination itself as line 161 does.
- Asciidoc.DefaultConverterFile: an unsupported format fails with the corrected message, which names the format (second finding). Line 112 raises the text with a literal `{target_format}`; `Asciidoc.MissingDefaultMessageAsWritten` models that line.
- Asciidoc.Setup: a missing default converter carries the corrected message, as in `DefaultConverterFile`.
- A `converter_file` given as a `str` fails at `.absolute()` (asciidoc_converter.py:168), so only a `Path` works there; the model takes an `FsPath` and leaves that failure out.
- Logging (`LOG.info`, `LOG.warning`): only the overwrite warning is recorded, as a flag of the invocation.
- Filesystem effects: `mkdir` is recorded as the directory requested. Only the Findings lemmas use a small directory-set model. `pathExists` is one fixed predicate, so files created by earlier conversions in the same run are not tracked.
- `subprocess.run`: only the vector and whether the exit status is 0 are modelled. The captured output and the return code carried by `CalledProcessError` are not.
- `get_arg_parser` and argument parsing, `src/lightspeed_rag_content/asciidoc/util.py`, `asciidoc_metadata_reader.py` and `__main__.py` are not part of this model.
- `get_file_list` reads the global `args`; here the parsed documents and the distro are passed in.
- The mutable default `file_list=[]` of `process_node` is not modelled: every caller passes its own list.
- `TopicMap.ProcessNode` returns the list in Python. Here the list is the mutated `PathList`, and the result says whether an exception escaped.

## Findings

| source | as written | input that shows it | evidently intended | confidence | as-written member | corrected member |
|---|---|---|---|---|---|---|
| src/lightspeed_rag_content/asciidoc/asciidoc_converter.py:158-161 | an absent destination is created with `mkdir(parents=True, exist_ok=True)` on the destination path itself | `convert(Path("in.adoc"), Path("out/a.txt"))` with `out/a.txt` absent: `out/a.txt` becomes a directory, and asciidoctor is then told to write its output file there | create the directory the destination goes into | high; not executed | Asciidoc.CreatedDirAsWrittenBlocksOutput | Asciidoc.CreatedDirLeavesOutputFree |
| src/lightspeed_rag_content/asciidoc/asciidoc_converter.py:112 | the message string has no `f` prefix, so `{target_format}` appears literally | target formats "html" and "pdf" raise the same message | the message names the format that has no default | high; not executed | Asciidoc.MissingDefaultMessageAsWrittenIgnoresFormat | Asciidoc.MissingDefaultMessageNamesFormat |
