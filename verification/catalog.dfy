/**
 The catalog builder: it walks the example tree two directory levels deep,
 classifies every entry it meets by its suffix, and turns `.py` files into
 MODULE records (with their import path and command line) and image or
 video files into ASSET records, putting everything else on an ignored
 list. The walk is split in two: `Visits` lists, in the order the
 generator meets them, the entries that reach the classification branch,
 and `Collect` classifies them one by one, stopping at the first failure.
 */
module Catalog {
  import opened Wrappers
  import opened PyStr
  import opened Seqs
  import opened Tree

  // ---------------------------------------------------------------------------
  // Records.
  // ---------------------------------------------------------------------------

  /** A JSON-like value as the notebook reader hands metadata back. */
  datatype Value =
    | Str(s: string)
    | Num(n: int)
    | Bool(b: bool)
    | Null
    | List(items: seq<Value>)
    | Object(fields: map<string, Value>)

  /** `ExampleType`, an `int` enum. */
  datatype ExampleType = ModuleType | AssetType

  /** The integer each kind serialises as. */
  function TypeCode(t: ExampleType): (c: int)
    ensures c == 1 <==> t == ModuleType
    ensures c == 2 <==> t == AssetType
  {
    match t
    case ModuleType => 1
    case AssetType => 2
  }

  /**
   `Example`, with its two kinds as two cases: only a module carries an
   import path, metadata, a command line and a stem; an asset leaves all
   four unset.
   */
  datatype Example =
    | Module(filename: string, importPath: string, metadata: map<string, Value>,
             repoFilename: string, cliArgs: seq<Value>, stem: string)
    | Asset(filename: string, repoFilename: string)

  function TypeOf(e: Example): (t: ExampleType)
    ensures t == ModuleType <==> e.Module?
    ensures t == AssetType <==> e.Asset?
  {
    if e.Module? then ModuleType else AssetType
  }

  /**
   What the builder needs from the host, which the model does not see:
   `resolve` gives the resolved absolute path of an entry (its components
   below the root), and `notebook` reads a file through the notebook reader
   and gives back the `jupytext` section of its metadata, or `None` when the
   file cannot be opened or parsed or has no such section.
   */
  datatype Host = Host(resolve: Path -> string, notebook: string -> Option<Value>)

  /** Why a build stops. */
  datatype Error =
    | DirectoryNotFound   // the root does not exist
    | NotADirectory       // the root exists but `iterdir` cannot list it
    | ReadFailed(path: Path)
    | BadMetadata(path: Path)

  /** The builder's result: the records in order, and the paths it ignored. */
  datatype Catalog = Catalog(examples: seq<Example>, ignored: seq<Path>)

  const Tool: string := "modal"
  const RunCommand: string := "run"
  const AssetSuffixes: seq<string> := [".png", ".jpeg", ".jpg", ".gif", ".mp4"]

  // ---------------------------------------------------------------------------
  // The walk.
  // ---------------------------------------------------------------------------

  /** An entry the walk reached, with the directory names leading to it from the root. */
  datatype Visit = Visit(dirs: seq<string>, entry: Entry)

  /** The entry's path below the root. */
  function PathOf(v: Visit): (p: Path)
    ensures |p| == |v.dirs| + 1 && p[..|v.dirs|] == v.dirs && p[|v.dirs|] == v.entry.name
  {
    v.dirs + [v.entry.name]
  }

  /** A root entry that names a category: a directory, neither hidden nor internal tooling. */
  predicate IsCategory(e: Entry) {
    e.Dir? && !StartsWith(e.name, ".") && !StartsWith(e.name, "internal")
  }

  /** The root's categories, in the order the listing gave them. */
  function Categories(entries: seq<Entry>): (r: seq<Entry>)
    ensures |r| <= |entries|
    ensures forall e :: e in r <==> e in entries && IsCategory(e)
    decreases |entries|
  {
    if |entries| == 0 then []
    else if IsCategory(entries[0]) then [entries[0]] + Categories(entries[1..])
    else Categories(entries[1..])
  }

  /**
   The entries of one directory, met in the given order: a directory met
   while `recurse` holds is walked (its children sorted by name) with
   `recurse` off; anything else reaches the classification branch, a
   directory included.
   */
  function DirVisits(dirs: seq<string>, entries: seq<Entry>, recurse: bool): (r: seq<Visit>)
    ensures !recurse ==> |r| == |entries|
    ensures forall v :: v in r ==> |dirs| <= |v.dirs| <= |dirs| + (if recurse then 1 else 0)
    decreases if recurse then 1 else 0, |entries|
  {
    if |entries| == 0 then []
    else
      var e := entries[0];
      var here := if e.Dir? && recurse then DirVisits(dirs + [e.name], SortByName(e.children), false)
                  else [Visit(dirs, e)];
      here + DirVisits(dirs, entries[1..], recurse)
  }

  /** Each category walked in turn, two levels deep. */
  function CategoryVisits(cats: seq<Entry>): (r: seq<Visit>)
    ensures forall v :: v in r ==> 1 <= |v.dirs| <= 2
    decreases |cats|
  {
    if |cats| == 0 then []
    else
      var c := cats[0];
      var here := if c.Dir? then DirVisits([c.name], SortByName(c.children), true) else [];
      here + CategoryVisits(cats[1..])
  }

  /** Every entry that reaches the classification branch, in the order the walk meets it. */
  function Visits(rootEntries: seq<Entry>): (r: seq<Visit>)
    ensures forall v :: v in r ==> 1 <= |v.dirs| <= 2
  {
    CategoryVisits(SortByName(Categories(rootEntries)))
  }

  // ---------------------------------------------------------------------------
  // Names derived from a visit.
  // ---------------------------------------------------------------------------

  /** Each directory name replaced by its stem. */
  function Stems(names: seq<string>): (r: seq<string>)
    ensures |r| == |names|
    ensures forall i :: 0 <= i < |names| ==> r[i] == Stem(names[i])
  {
    seq(|names|, i requires 0 <= i < |names| => Stem(names[i]))
  }

  /**
   `repo_filename` as the source builds it: the `parents` list holds the
   category's stem, not its name, so a dotted category name loses its
   suffix here.
   */
  function RepoFilenameAsWritten(dirs: seq<string>, name: string): (r: string)
    requires |dirs| > 0
  {
    Join(Stems(dirs[..|dirs| - 1]) + [dirs[|dirs| - 1], name], "/")
  }

  /** `repo_filename` as a repository-relative path: the directory names and the file name. */
  function RepoFilename(dirs: seq<string>, name: string): (r: string)
  {
    Join(dirs + [name], "/")
  }

  /** `module`: the stems of the directories and of the file, dotted. */
  function ModulePath(dirs: seq<string>, name: string): (r: string)
  {
    Join(Stems(dirs) + [Stem(name)], ".")
  }

  /** The last component of a `/`-separated path. */
  function LastComponent(path: string): (r: string)
    ensures |r| <= |path| && r == path[|path| - |r|..]
    ensures forall k :: |path| - |r| <= k < |path| ==> path[k] != '/'
    ensures |r| < |path| ==> path[|path| - |r| - 1] == '/'
  {
    path[LastIndexOf(path, '/') + 1..]
  }

  /** A module file: suffix `.py`, and any stem but `__init__`. */
  predicate IsModuleName(name: string) {
    Suffix(name) == ".py" && Stem(name) != "__init__"
  }

  predicate IsAssetName(name: string) {
    Suffix(name) in AssetSuffixes
  }

  // ---------------------------------------------------------------------------
  // Classification.
  // ---------------------------------------------------------------------------

  /** What one visited entry turns into: a record, or a path on the ignored list. */
  datatype Outcome = Yield(example: Example) | Ignore(path: Path)

  /** `d.get(key, default)`. */
  function Get(d: map<string, Value>, key: string, fallback: Value): (r: Value)
    ensures key in d ==> r == d[key]
    ensures key !in d ==> r == fallback
  {
    if key in d then d[key] else fallback
  }

  /**
   The MODULE record for a file whose notebook metadata section is
   `section`: `root_level_metadata` defaults to an empty mapping, `cmd` to
   `modal run <repo_filename>` and `args` to nothing; the command line is
   `cmd + args`, which only a list and a list make.
   */
  function ModuleRecord(dirs: seq<string>, name: string, abs: string, section: Value): (r: Result<Example, Error>)
    ensures r.Success? ==>
      && r.value.Module? && r.value.filename == abs
      && r.value.importPath == ModulePath(dirs, name)
      && r.value.repoFilename == RepoFilename(dirs, name)
      && r.value.stem == Stem(LastComponent(abs))
    ensures r.Failure? ==> r.error == BadMetadata(dirs + [name])
  {
    var path := dirs + [name];
    var repo := RepoFilename(dirs, name);
    if !section.Object? then Failure(BadMetadata(path))
    else
      var md := Get(section.fields, "root_level_metadata", Object(map[]));
      if !md.Object? then Failure(BadMetadata(path))
      else
        var cmd := Get(md.fields, "cmd", List([Str(Tool), Str(RunCommand), Str(repo)]));
        var args := Get(md.fields, "args", List([]));
        if cmd.List? && args.List? then
          Success(Module(abs, ModulePath(dirs, name), md.fields, repo, cmd.items + args.items, Stem(LastComponent(abs))))
        else Failure(BadMetadata(path))
  }

  /** The classification branch of the walk, for one visited entry. */
  function Classify(v: Visit, host: Host): (r: Result<Outcome, Error>)
    ensures r.Failure? ==> r.error.ReadFailed? || r.error.BadMetadata?
  {
    var name := v.entry.name;
    var path := PathOf(v);
    if IsModuleName(name) then
      if v.entry.Dir? then Failure(ReadFailed(path))
      else
        var abs := host.resolve(path);
        match host.notebook(abs)
        case None => Failure(ReadFailed(path))
        case Some(section) =>
          match ModuleRecord(v.dirs, name, abs, section)
          case Failure(e) => Failure(e)
          case Success(ex) => Success(Yield(ex))
    else if IsAssetName(name) then
      Success(Yield(Asset(host.resolve(path), RepoFilename(v.dirs, name))))
    else
      Success(Ignore(path))
  }

  /** The outcome appended to what the rest of the walk collects. */
  function Prepend(o: Outcome, c: Catalog): (r: Catalog)
  {
    match o
    case Yield(ex) => Catalog([ex] + c.examples, c.ignored)
    case Ignore(p) => Catalog(c.examples, [p] + c.ignored)
  }

  /**
   Classify the visits in order with `classify`; the first failure ends
   the build. Written for any classifier, so that what the fold does is
   stated apart from what one classification does.
   */
  function CollectWith(visits: seq<Visit>, classify: Visit -> Result<Outcome, Error>): (r: Result<Catalog, Error>)
    ensures |visits| == 0 ==> r == Success(Catalog([], []))
    ensures r.Success? ==> |r.value.examples| + |r.value.ignored| == |visits|
    decreases |visits|
  {
    if |visits| == 0 then Success(Catalog([], []))
    else
      match classify(visits[0])
      case Failure(e) => Failure(e)
      case Success(o) =>
        match CollectWith(visits[1..], classify)
        case Failure(e) => Failure(e)
        case Success(c) => Success(Prepend(o, c))
  }

  /** The build's loop: every visit classified against the host. */
  function Collect(visits: seq<Visit>, host: Host): (r: Result<Catalog, Error>)
    ensures |visits| == 0 ==> r == Success(Catalog([], []))
    ensures r.Success? ==> |r.value.examples| + |r.value.ignored| == |visits|
  {
    CollectWith(visits, v => Classify(v, host))
  }

  /**
   `get_examples`: the root must exist and be a directory; its categories
   are walked in name order and every visited entry classified.
   */
  function GetExamples(root: Option<Entry>, host: Host): (r: Result<Catalog, Error>)
    ensures root.None? ==> r == Failure(DirectoryNotFound)
    ensures root.Some? && root.value.File? ==> r == Failure(NotADirectory)
    ensures root.Some? && root.value.Dir? ==> r == Collect(Visits(root.value.children), host)
  {
    match root
    case None => Failure(DirectoryNotFound)
    case Some(File(_)) => Failure(NotADirectory)
    case Some(Dir(_, children)) => Collect(Visits(children), host)
  }
}
