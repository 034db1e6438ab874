# Example catalog and Markdown renderer, modelled in Dafny

This project models the two pieces of logic in the example repository's
`internal/utils.py`.

- **The Markdown renderer** (`render_example_md`). It makes one pass over
  the lines of an example's source. Comment lines (`#` alone, or starting
  with `# `) become prose. The code between comment lines becomes fenced
  `python` blocks. After the lines are joined, a post-pass cuts a leading
  `---` frontmatter block.
- **The catalog builder** (`gather_example_files`, `get_examples`). It walks
  the example tree: categories (the root's directories that are neither
  hidden nor internal) in name order, and inside each category, entries in
  name order, one directory level deep. Each entry it meets is classified
  by suffix:
  - a `.py` file other than `__init__.py` becomes a MODULE record, with its
    import path, repository path, metadata, command line and stem;
  - an image or video file becomes an ASSET record;
  - anything else goes on the ignored list.

Files:

- `wrappers.dfy`: `Option` and `Result`.
- `seqs.dfy`: `FlatMap` and its algebra.
- `pystr.dfy`: the Python `str` behaviour the code relies on: `startswith`,
  clamped slicing, `join`, `re.split(r"\r?\n")`, and the code-point order
  `sorted` uses.
- `tree.dfy`: directory entries, `pathlib`'s `suffix` and `stem`, and
  sorting entries by name.
- `renderer.dfy`: the renderer as a left fold over the lines (`Step`,
  `Fold`, `Flush`), and the frontmatter pattern `^---$` under `MULTILINE`,
  written out by hand. It also holds an independent block-by-block
  reference, `Segment`.
- `renderer_proofs.dfy`, `frontmatter_proofs.dfy`, `renderer_examples.dfy`:
  the fold matches the reference; what the prose, separators and fences
  hold; what the post-pass cuts; and whole files worked out.
- `catalog.dfy`: the builder.
  - `Visits` lists, in walk order, the entries that reach the
    classification branch.
  - `Classify` is that branch, for one entry.
  - `Collect` runs `Classify` over the visits in order and stops at the
    first failure.
  - `GetExamples` checks the root, then walks and collects.
- `catalog_walk.dfy`, `catalog_order.dfy`, `catalog_proofs.dfy`,
  `catalog_paths.dfy`, `catalog_examples.dfy`: what the walk reaches and in
  which order; what a build returns, or how it fails; the names on each
  record; and whole builds over small trees.
- `catalog_build.dfy`: a whole build of an existing directory, stated
  without the walk or the fold.

Inputs the code reads from the outside world are parameters of the model.
The renderer takes the text `f.read()` returns for the file. Text mode
has already turned every newline convention, a lone `\r` included, into
`\n` by then; the renderer's own split on `\r?\n` is modelled as
written. The builder takes the directory tree as an `Entry` value, which
is `None` when the root does not exist. It also takes a `Host` with two functions:

- `resolve`: gives an entry's absolute path, standing in for
  `Path.resolve()`;
- `notebook`: gives the `jupytext` metadata section of a file, or `None`
  when the file cannot be opened or parsed.

Some consequences of the code that are easy to miss:

- A non-comment line adds a blank Markdown line at the point it is met,
  before the fence that later holds it. So `"# Title\nprint(1)\n"`
  renders as `Title`, two blank lines, then the fence around `print(1)`
  and the empty last line (`RendererExamples.TitleThenCode`).
- For the same reason, a file with no comment lines renders as one blank
  line per line, then a single fence (`RendererProofs.NoCommentFile`).
- A raw `---` block at the top of a file is Python code to the renderer.
  The joined Markdown then starts with a blank line, not `---`, so nothing
  is stripped (`RendererExamples.RawFrontmatterKept`). Only frontmatter
  written as comments (`# ---`) is cut (`RendererExamples.FrontmatterInComments`).
- The ignored list holds `str(filename)`: the path below the root,
  prefixed with the root as given, not resolved.
- One level below a category whose name has a suffix (`a.b`), the code
  builds a repository path that is not the file's (see "## Findings").
  The model's records carry the corrected path. Everywhere else the two
  are equal (`CatalogProofs.RecordPathAsWritten`).

## Model

| member | source | states |
|---|---|---|
| PyStr.SplitNewlinesJoin | internal/utils.py:47 | Splitting on `\r?\n` and joining with `\n` gives the text back with every `\r\n` turned into `\n`; nothing else changes |
| PyStr.SplitJoinedLines | internal/utils.py:47 | Lines with no `\n` and no trailing `\r`, joined by `\n`, split back into exactly those lines |
| PyStr.LexLeTotal | internal/utils.py:79 | Python's string order compares any two names |
| PyStr.LexLeTransitive | internal/utils.py:79 | Python's string order is transitive |
| PyStr.LexLeAntisymmetric | internal/utils.py:79 | Two names each `<=` the other are equal, so `sorted` order between distinct names is strict |
| Tree.SuffixWhen | internal/utils.py:87 | `suffix` is non-empty exactly when the name holds a dot, neither first nor last, with no dot after it |
| Tree.StemSuffixSplit | internal/utils.py:95 | A name is its `stem` followed by its `suffix`; a non-empty name has a non-empty stem |
| Tree.SortByName | internal/utils.py:79 | `sorted` gives the same entries (as a multiset) in ascending name order |
| Tree.SortByNameMembers | internal/utils.py:79 | Sorting neither adds nor drops an entry |
| Renderer.CommentText | internal/utils.py:51-55 | A comment line contributes `line[2:]`: `""` for `#`, and the text after `# ` otherwise |
| Renderer.FindMarker | internal/utils.py:67 | `search(text, from)` finds the leftmost standalone `---` line at or after `from`, or reports that there is none |
| Renderer.StripFrontmatter | internal/utils.py:65-68 | The result is a suffix of the text. It differs from the text exactly when the text opens with a `---` line and another starts at offset 4 or later; it is then what follows the first such line |
| RendererProofs.RenderLinesIsSegmented | internal/utils.py:47-64 | The loop's Markdown lines equal the block-by-block reference: one prose line per comment, one blank per code line, one fence per run of code less its leading blank lines |
| RendererProofs.ProseIsCommentText | internal/utils.py:51-55 | The prose lines of the output are the texts of all the comment lines, in order |
| RendererProofs.GapPerCodeLine | internal/utils.py:56-57 | There are exactly as many separator lines as non-comment lines |
| RendererProofs.CodeKeepsCodeLines | internal/utils.py:56-62 | Leaving blank lines aside, the fenced code is exactly the non-comment lines, in their original order |
| RendererProofs.SegmentFencesWellFormed | internal/utils.py:52-62 | Every fenced block is non-empty, starts with a non-blank line, and is followed by prose or by the end of the output |
| RendererProofs.NoCommentFile | internal/utils.py:56-62 | A file with no comment lines renders as one blank line per line, then a single fence of its code from the first non-blank line on |
| RendererProofs.CommentCutsFile | internal/utils.py:51-55 | A comment line splits a file into two parts that render independently, with the comment's text between them |
| RendererProofs.CommentsFirst | internal/utils.py:50-55 | Leading comment lines contribute their texts, in order, ahead of whatever the rest renders to |
| RendererProofs.FoldShift | internal/utils.py:50-59 | The loop's effect does not depend on the Markdown emitted before it |
| FrontmatterProofs.MarkersAreDashLines | internal/utils.py:38 | On lines joined by `\n`, `^---$` matches exactly at the start of each line that is `---` |
| FrontmatterProofs.StripsThroughSecondDashLine | internal/utils.py:65-68 | When the first line is `---`, the post-pass keeps exactly what follows the next `---` line, starting with the newline that ends it |
| FrontmatterProofs.KeepsTextWithoutFrontmatter | internal/utils.py:65-68 | Without a `---` first line followed by another `---` line, the post-pass changes nothing |
| FrontmatterProofs.RenderLinesNoNewline | internal/utils.py:50-62 | No Markdown line the loop emits holds a newline |
| FrontmatterProofs.RenderStripsFrontmatter | internal/utils.py:41-69 | When the rendered Markdown opens with a `---` line and has a later one, the result is the text after that later line |
| FrontmatterProofs.RenderKeepsText | internal/utils.py:41-69 | Otherwise the result is the Markdown lines joined by newlines |
| RendererExamples.EmptyFileRendersEmpty | internal/utils.py:41-69 | An empty file renders to the empty string |
| RendererExamples.TitleThenCode | internal/utils.py:41-69 | `# <title>`, one statement and a final newline render as the title, two blank lines, and a fence holding the statement and an empty line |
| RendererExamples.FencedWhole | internal/utils.py:56-62 | Comment-free lines that open with a non-blank line are fenced whole, after one blank line each |
| RendererExamples.FrontmatterInComments | internal/utils.py:41-69 | Frontmatter written as comment lines is cut through its closing `---`; the rest, starting with that line's newline, is kept |
| RendererExamples.RawFrontmatterKept | internal/utils.py:41-69 | Frontmatter written as plain lines is fenced as code and nothing is cut |
| Catalog.Categories | internal/utils.py:136-142 | The categories are exactly the root's entries that are directories whose names start with neither `.` nor `internal` |
| Catalog.DirVisits | internal/utils.py:79-85 | With `recurse` off, one visit per entry; every visit lies at most one directory below the walked one, and only when `recurse` is on |
| Catalog.Visits | internal/utils.py:136-145 | Every classified entry lies one or two directories below the root |
| Catalog.LastComponent | internal/utils.py:114 | The last `/`-separated component of a path: a slash-free tail, preceded by `/` unless it is the whole path |
| Catalog.ModuleRecord | internal/utils.py:95-115 | A MODULE record carries the resolved path, the dotted import path, the corrected repository path and the stem of the resolved path; any failure is a metadata error for that path |
| Catalog.Classify | internal/utils.py:86-123 | Classifying one entry fails only by an unreadable file or bad metadata |
| Catalog.CollectWith | internal/utils.py:79-123 | A build over no entries is empty; a successful one has one record or one ignored path per entry |
| Catalog.Collect | internal/utils.py:79-123 | The same counts for the builder's own classification |
| CatalogWalk.FlatWalk | internal/utils.py:79-85 | With `recurse` off every entry is visited exactly once, in the given order, at the same depth: nothing is entered |
| CatalogWalk.DeepWalkMembers | internal/utils.py:79-85 | A category's walk reaches exactly its non-directory entries and every entry of its subdirectories |
| CatalogWalk.VisitsMembers | internal/utils.py:136-145 | An entry is classified exactly when it is reached from a category of the root, said without the walk |
| CatalogWalk.NoThirdLevel | internal/utils.py:80-84 | A visit two directories deep is an entry of a subdirectory of a category; nothing deeper is ever visited, and a directory directly in a category is entered rather than classified |
| CatalogOrder.SortDistinct | internal/utils.py:79 | Sorting entries with distinct names puts them in strictly ascending order |
| CatalogOrder.VisitsInPathOrder | internal/utils.py:136-145 | In a tree without repeated names, entries are classified in strictly ascending path order |
| CatalogProofs.CollectWithSucceeds | internal/utils.py:79-123 | For any classifier, the build succeeds exactly when every entry classifies |
| CatalogProofs.CollectWithContents | internal/utils.py:79-123 | For any classifier, a successful build holds each entry's record and each ignored path, in walk order |
| CatalogProofs.CollectWithFailure | internal/utils.py:79-123 | For any classifier, a failed build reports the error of the first entry that fails |
| CatalogProofs.CollectSucceeds | internal/utils.py:79-123 | The builder succeeds exactly when every visited entry classifies |
| CatalogProofs.CollectContents | internal/utils.py:79-123 | The builder's records and ignored paths are each visit's contribution, in walk order |
| CatalogProofs.CollectFailure | internal/utils.py:79-123 | The builder reports the error of the first visited entry whose classification fails |
| CatalogProofs.CollectSound | internal/utils.py:95-123 | Every record comes from a visited module or asset file, with the import path and the corrected repository path of where the walk found it; every ignored path is a visited entry that is neither |
| CatalogProofs.RecordPathAsWritten | internal/utils.py:83-93 | When no directory above a file's own has a suffix, its record's repository path is exactly the one the code builds |
| CatalogProofs.ClassifyOutcomes | internal/utils.py:95-123 | Exactly one outcome per entry: an asset exactly for a non-module name with an image or video suffix, an ignored path (its own) exactly for a name that is neither, and a read failure exactly for a module name that is a directory or cannot be read |
| CatalogProofs.InitIgnored | internal/utils.py:95 | `__init__.py` files land on the ignored list |
| CatalogProofs.InitName | internal/utils.py:95 | `__init__.py` has suffix `.py` and stem `__init__` |
| CatalogProofs.ModuleNotAsset | internal/utils.py:95-116 | No name is both a module and an asset |
| CatalogProofs.DefaultCliArgs | internal/utils.py:102-106 | Without `cmd` and `args`, a module's command line is `modal run <corrected repo path>`, which is the code's `repo_filename` when no directory above the file's own has a suffix; without root-level metadata, its metadata is empty |
| CatalogProofs.CliArgsFromMetadata | internal/utils.py:102-113 | For any section with root-level metadata whose `cmd` and `args` are lists where present, the command line is `cmd` (or `modal run <repo path>`) followed by `args` (or nothing), and the metadata is kept |
| CatalogProofs.OverriddenCliArgs | internal/utils.py:105-113 | Given lists for `cmd` and `args`, whatever else the section holds, the command line is `cmd` followed by `args`, and the metadata is kept as given |
| CatalogProofs.CliArgsNeedLists | internal/utils.py:101-113 | A module record is made exactly when the section and the root-level metadata are mappings and each `cmd` or `args` present is a list |
| CatalogProofs.StemOfResolved | internal/utils.py:114 | When the resolved path is some directory followed by `/` and the entry's own name, a module record's stem is that name's stem |
| CatalogPaths.RepoFilenameShapes | internal/utils.py:88-93 | The corrected repository path is `<category>/<file>`, or `<category>/<dir>/<file>` one level down |
| CatalogPaths.RepoFilenameAsWrittenShapes | internal/utils.py:83-93 | As the code writes it: `<category>/<file>`, but `<category stem>/<dir>/<file>` one level down |
| CatalogPaths.DottedCategoryLosesSuffix | internal/utils.py:83-91 | For a category whose name has a suffix, the path as written differs from the real one and does not start with the category's name |
| CatalogPaths.DottedCategoryInstance | internal/utils.py:83-91 | Category `a.b`, directory `d`, file `x.py`: the path as written is `a/d/x.py`, while the file is `a.b/d/x.py` |
| CatalogPaths.RepoFilenameIsPath | internal/utils.py:88-93 | The repository path is the walk's directory names joined by `/`, then `/` and the file name, so it starts with the category's name |
| CatalogPaths.RepoFilenameAgreement | internal/utils.py:83-93 | The two agree whenever the category's name is its own stem |
| CatalogPaths.RepoFilenameAgreesUndotted | internal/utils.py:83-93 | At any depth, the two agree when no directory above the file's own has a suffix |
| CatalogPaths.RepoFilenameAgreesIff | internal/utils.py:83-93 | One level down, the two agree exactly when the category's name has no suffix |
| CatalogPaths.ModulePathShapes | internal/utils.py:96-100 | The import path is `<category stem>.<file stem>`, or `<category stem>.<dir stem>.<file stem>` one level down |
| CatalogBuild.GetExamplesOfDir | internal/utils.py:126-145 | For an existing directory: the classified entries are exactly those reached from a category; the build succeeds exactly when each of them classifies; it then holds their records and ignored paths in walk order, and otherwise reports the first failing one's error |
| CatalogBuild.SucceedsOnReached | internal/utils.py:79-145 | The fold over the walk succeeds exactly when every entry reached from a category classifies |
| CatalogBuild.ClassifiedAreReached | internal/utils.py:136-145 | The walk lists exactly the entries reached from a category |
| CatalogExamples.ModuleAndAsset | internal/utils.py:72-145 | A category listing, in either order, a module with empty metadata and an asset whose name sorts after the module's builds to the module and then the asset, with their paths and default command line, and ignores nothing |
| CatalogExamples.NestedModule | internal/utils.py:72-145 | A module in a subdirectory of a category gets a three-part import path and the corrected three-part repository path, which is the code's exactly when the category's name has no suffix |
| CatalogExamples.NoCategories | internal/utils.py:136-145 | A root with no category builds to nothing, with nothing ignored |

## Left out

- File I/O is not modelled: `open`/`read` of the example in the renderer, `open` in the builder, `Path.exists`, `iterdir` and `Path.resolve`. The content, the tree, `resolve` and the notebook reader are parameters.
- `jupytext.read` and its configuration are not modelled. The `Host.notebook` oracle gives the `jupytext` metadata section or `None`, and `None` makes the build fail with `ReadFailed`.
- `cmd + args` succeeds in the model only for two lists. Python would also add two strings or two tuples, and the record's list-typed field then decides. JSON-like metadata has no tuples, and a string is not a list.
- Metadata values cover strings, integers, booleans, null, lists and mappings. Floating-point values are left out.
- pydantic validation and serialisation, `get_examples_json`, the JSON dump and the `__main__` block are not modelled.
- Printing the ignored list, and the `silent` flag that turns the printing off, are not modelled. The ignored list is returned as part of the result.
- Generator laziness is not modelled. A build is a finite result: a failure keeps none of the records a consumer would already have received before the exception.
- The ignored list holds each entry's path components below the root. The code holds `str(filename)`, which also carries the root as it was given.
- `DEFAULT_DIRECTORY` and the `warnings` suppression around the `jupytext` import are not modelled; the root is an explicit parameter.
- ModuleRecord: the record carries the corrected repository path, not `<category stem>/<dir>/<file>` as line 83 makes it one level below a dotted category. The model keeps the correction the Findings table proposes; `CatalogProofs.RecordPathAsWritten` shows the two agree everywhere else.
- Classify: module and asset records carry the corrected repository path, for the reason given for ModuleRecord.
- CollectSound: ties each record to the corrected repository path, for the reason given for ModuleRecord.
- DefaultCliArgs: the default command line names the corrected repository path. It equals the code's exactly when no directory above the file's own has a suffix, and the lemma states that case.
- CliArgsFromMetadata: without `cmd`, the command line names the corrected repository path, for the reason given for ModuleRecord; `DefaultCliArgs` states when that is the code's path.
- RepoFilenameShapes: states the corrected path; the code's shapes are `CatalogPaths.RepoFilenameAsWrittenShapes`.
- NestedModule: the record carries the corrected path `<category>/<dir>/<file>`; the lemma also states when that is the code's path.
- CatalogOrder.VisitsInPathOrder: requires that no two entries of a directory share a name, as every file system guarantees.
- The renderer's idempotence (rendering the same file twice gives the same text) holds because `Render` is a function; no lemma states it.

## Findings

| source | as written | input that shows it | evidently intended | confidence | as-written member | corrected member |
|---|---|---|---|---|---|---|
| internal/utils.py:83-91 | The recursive call passes the category's `stem` in `parents`, and `repo_filename` joins `parents` with `/`. So a file one level down gets `<category stem>/<dir>/<file>` | Category `a.b` holding directory `d` with `x.py`: `repo_filename` is `a/d/x.py`, and the default command line runs `modal run a/d/x.py`, a path that does not exist | The repository-relative path of the file, `<category>/<dir>/<file>`, as the field's comment and the one-level case say | medium, not executed | CatalogPaths.DottedCategoryLosesSuffix | CatalogPaths.RepoFilenameIsPath |

The as-written path is `Catalog.RepoFilenameAsWritten`, and
`CatalogPaths.DottedCategoryInstance` works the example out. The model's
records use the corrected `Catalog.RepoFilename`. This is the one place
where the model corrects the code; "## Left out" lists the members
it affects. The import path keeps the
stems, as the code does (`CatalogPaths.ModulePathShapes`). The two
repository paths agree for every category name without a dot
(`CatalogPaths.RepoFilenameAgreement`).
