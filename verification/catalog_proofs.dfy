/**
 What a build collects, said without the fold: it succeeds exactly when
 every visited entry classifies, it then holds each visit's contribution
 in walk order, and otherwise it reports the error of the first entry that
 fails. Also what one classification yields, case by case, and how the
 command line of a module is put together.
 */
module CatalogProofs {
  import opened Wrappers
  import opened PyStr
  import opened Seqs
  import opened Tree
  import opened Catalog
  import CatalogPaths

  // ---------------------------------------------------------------------------
  // The build as a whole.
  // ---------------------------------------------------------------------------

  /** The records one classification contributes: its record, when it yields one. */
  function YieldedOf(r: Result<Outcome, Error>): (yielded: seq<Example>) {
    match r
    case Success(Yield(ex)) => [ex]
    case _ => []
  }

  /** The paths one classification puts on the ignored list. */
  function IgnoredOf(r: Result<Outcome, Error>): (ignored: seq<Path>) {
    match r
    case Success(Ignore(p)) => [p]
    case _ => []
  }

  /** Visit `k` is the first one `classify` fails on. */
  predicate FirstFailure(visits: seq<Visit>, classify: Visit -> Result<Outcome, Error>, k: int) {
    && 0 <= k < |visits|
    && classify(visits[k]).Failure?
    && forall j :: 0 <= j < k ==> classify(visits[j]).Success?
  }

  lemma {:induction false} CollectWithSucceeds(visits: seq<Visit>, classify: Visit -> Result<Outcome, Error>)
    ensures CollectWith(visits, classify).Success? <==>
      forall i :: 0 <= i < |visits| ==> classify(visits[i]).Success?
    decreases |visits|
  {
    if |visits| > 0 {
      var rest := visits[1..];
      CollectWithSucceeds(rest, classify);
      assert forall i :: 0 < i < |visits| ==> visits[i] == rest[i - 1];
    }
  }

  /** `yielded` and `ignored` give, for each visit, what `classify` contributes to either list. */
  lemma {:induction false} CollectWithContents(visits: seq<Visit>, classify: Visit -> Result<Outcome, Error>,
                                               yielded: Visit -> seq<Example>, ignored: Visit -> seq<Path>)
    requires CollectWith(visits, classify).Success?
    requires forall v :: yielded(v) == YieldedOf(classify(v)) && ignored(v) == IgnoredOf(classify(v))
    ensures CollectWith(visits, classify).value == Catalog(FlatMap(yielded, visits), FlatMap(ignored, visits))
    decreases |visits|
  {
    if |visits| > 0 {
      CollectWithContents(visits[1..], classify, yielded, ignored);
    }
  }

  lemma {:induction false} CollectWithFailure(visits: seq<Visit>, classify: Visit -> Result<Outcome, Error>)
    requires CollectWith(visits, classify).Failure?
    ensures exists k :: FirstFailure(visits, classify, k) && CollectWith(visits, classify).error == classify(visits[k]).error
    decreases |visits|
  {
    var rest := visits[1..];
    if classify(visits[0]).Failure? {
      assert FirstFailure(visits, classify, 0);
    } else {
      CollectWithFailure(rest, classify);
      var k :| FirstFailure(rest, classify, k) && CollectWith(rest, classify).error == classify(rest[k]).error;
      assert forall j :: 0 < j <= k + 1 ==> visits[j] == rest[j - 1];
      assert FirstFailure(visits, classify, k + 1);
    }
  }

  /** A build succeeds exactly when every visited entry classifies. */
  lemma CollectSucceeds(visits: seq<Visit>, host: Host)
    ensures Collect(visits, host).Success? <==>
      forall i :: 0 <= i < |visits| ==> Classify(visits[i], host).Success?
  {
    CollectWithSucceeds(visits, v => Classify(v, host));
  }

  /** A successful build holds each visit's record and each ignored path, in walk order. */
  lemma CollectContents(visits: seq<Visit>, host: Host)
    requires Collect(visits, host).Success?
    ensures Collect(visits, host).value
      == Catalog(FlatMap(v => YieldedOf(Classify(v, host)), visits), FlatMap(v => IgnoredOf(Classify(v, host)), visits))
  {
    CollectWithContents(visits, v => Classify(v, host),
                        v => YieldedOf(Classify(v, host)), v => IgnoredOf(Classify(v, host)));
  }

  /** A failed build reports the error of the first entry whose classification fails. */
  lemma CollectFailure(visits: seq<Visit>, host: Host)
    requires Collect(visits, host).Failure?
    ensures exists k :: FirstFailure(visits, v => Classify(v, host), k)
                     && Collect(visits, host).error == Classify(visits[k], host).error
  {
    CollectWithFailure(visits, v => Classify(v, host));
  }

  /**
   Everything a successful build returns comes from a visited entry: a
   module record from a `.py` file that is not `__init__`, with its import
   path and repository path taken from where the walk found it; an asset
   from a name with an image or video suffix; and an ignored path from an
   entry that is neither.
   */
  lemma CollectSound(visits: seq<Visit>, host: Host)
    requires Collect(visits, host).Success?
    ensures forall e :: e in Collect(visits, host).value.examples ==>
      exists v :: v in visits && YieldedFrom(v, e)
    ensures forall p :: p in Collect(visits, host).value.ignored ==>
      exists v :: v in visits && p == PathOf(v) && !IsModuleName(v.entry.name) && !IsAssetName(v.entry.name)
  {
    CollectContents(visits, host);
    forall e | e in Collect(visits, host).value.examples
      ensures exists v :: v in visits && YieldedFrom(v, e)
    {
      ExampleFromVisit(visits, host, e);
    }
    forall p | p in Collect(visits, host).value.ignored
      ensures exists v :: v in visits && p == PathOf(v) && !IsModuleName(v.entry.name) && !IsAssetName(v.entry.name)
    {
      IgnoredFromVisit(visits, host, p);
    }
  }

  lemma ExampleFromVisit(visits: seq<Visit>, host: Host, e: Example)
    requires e in FlatMap(v => YieldedOf(Classify(v, host)), visits)
    ensures exists v :: v in visits && YieldedFrom(v, e)
  {
    FlatMapMember(v => YieldedOf(Classify(v, host)), visits, e);
    var i :| 0 <= i < |visits| && e in YieldedOf(Classify(visits[i], host));
    ClassifyYield(visits[i], host);
  }

  lemma IgnoredFromVisit(visits: seq<Visit>, host: Host, p: Path)
    requires p in FlatMap(v => IgnoredOf(Classify(v, host)), visits)
    ensures exists v :: v in visits && p == PathOf(v) && !IsModuleName(v.entry.name) && !IsAssetName(v.entry.name)
  {
    FlatMapMember(v => IgnoredOf(Classify(v, host)), visits, p);
    var i :| 0 <= i < |visits| && p in IgnoredOf(Classify(visits[i], host));
    ClassifyIgnore(visits[i], host);
  }

  /** A record classification yields is read off the visit. */
  lemma ClassifyYield(v: Visit, host: Host)
    ensures forall e :: e in YieldedOf(Classify(v, host)) ==> YieldedFrom(v, e)
  {
  }

  /** A path classification ignores is the visit's own, for a name that is neither module nor asset. */
  lemma ClassifyIgnore(v: Visit, host: Host)
    ensures forall p :: p in IgnoredOf(Classify(v, host)) ==>
      p == PathOf(v) && !IsModuleName(v.entry.name) && !IsAssetName(v.entry.name)
  {
  }

  /**
   Where no directory above the file's own has a suffix, every record
   carries the repository path the source builds: the corrected path and
   the one as written only part one directory below a dotted category.
   */
  lemma RecordPathAsWritten(v: Visit, host: Host)
    requires |v.dirs| > 0
    requires forall i :: 0 <= i < |v.dirs| - 1 ==> Suffix(v.dirs[i]) == ""
    ensures var r := Classify(v, host);
      r.Success? && r.value.Yield? ==> r.value.example.repoFilename == RepoFilenameAsWritten(v.dirs, v.entry.name)
  {
    CatalogPaths.RepoFilenameAgreesUndotted(v.dirs, v.entry.name);
    ClassifyOutcomes(v, host);
  }

  /** Record `e` is what classifying visit `v` yields, read off the visit alone. */
  predicate YieldedFrom(v: Visit, e: Example) {
    var name := v.entry.name;
    || (&& e.Module? && IsModuleName(name) && !v.entry.Dir?
        && e.importPath == ModulePath(v.dirs, name) && e.repoFilename == RepoFilename(v.dirs, name))
    || (&& e.Asset? && !IsModuleName(name) && IsAssetName(name)
        && e.repoFilename == RepoFilename(v.dirs, name))
  }

  // ---------------------------------------------------------------------------
  // One classification.
  // ---------------------------------------------------------------------------

  /**
   The classification branch, case by case: a `.py` name other than
   `__init__.py` is read as a module (which fails for a directory or an
   unreadable file); otherwise an image or video suffix makes an asset,
   and anything else is ignored under its own path.
   */
  lemma ClassifyOutcomes(v: Visit, host: Host)
    ensures var r := Classify(v, host);
      && (r.Success? && r.value.Yield? ==> YieldedFrom(v, r.value.example))
      && (r.Success? && r.value.Yield? && r.value.example.Asset? <==>
            !IsModuleName(v.entry.name) && IsAssetName(v.entry.name))
      && (r.Success? && r.value.Yield? && r.value.example.Asset? ==>
            r.value.example.filename == host.resolve(PathOf(v)))
      && (r.Success? && r.value.Ignore? <==> !IsModuleName(v.entry.name) && !IsAssetName(v.entry.name))
      && (r.Success? && r.value.Ignore? ==> r.value.path == PathOf(v))
      && (r == Failure(ReadFailed(PathOf(v))) <==>
            IsModuleName(v.entry.name) && (v.entry.Dir? || host.notebook(host.resolve(PathOf(v))).None?))
  {
  }

  /** `__init__.py` files are neither modules nor assets: they land on the ignored list. */
  lemma InitIgnored(v: Visit, host: Host)
    requires Suffix(v.entry.name) == ".py" && Stem(v.entry.name) == "__init__"
    ensures Classify(v, host) == Success(Ignore(PathOf(v)))
  {
    assert !IsAssetName(v.entry.name) by {
      assert ".py" !in AssetSuffixes;
    }
  }

  /** The name `__init__.py` itself has suffix `.py` and stem `__init__`. */
  lemma InitName()
    ensures Suffix("__init__.py") == ".py" && Stem("__init__.py") == "__init__"
  {
    var n := "__init__.py";
    assert n[8] == '.';
    assert LastIndexOf(n, '.') == 8 by {
      assert n[..|n| - 1] == "__init__.p";
      assert n[..|n| - 1][..9] == "__init__.";
      assert n[..|n| - 1][..10] == "__init__.p";
    }
  }

  /** The suffixes of modules and of assets never overlap. */
  lemma ModuleNotAsset(name: string)
    requires IsModuleName(name)
    ensures !IsAssetName(name)
  {
    assert ".py" !in AssetSuffixes;
  }

  // ---------------------------------------------------------------------------
  // The module record.
  // ---------------------------------------------------------------------------

  /**
   Without `cmd` and `args` in the root-level metadata (or without
   root-level metadata at all), a module runs as `modal run <repo path>`.
   */
  lemma DefaultCliArgs(dirs: seq<string>, name: string, abs: string, fields: map<string, Value>)
    requires
      || "root_level_metadata" !in fields
      || (&& fields["root_level_metadata"].Object?
          && "cmd" !in fields["root_level_metadata"].fields
          && "args" !in fields["root_level_metadata"].fields)
    ensures var r := ModuleRecord(dirs, name, abs, Object(fields));
      && r.Success?
      && r.value.cliArgs == [Str("modal"), Str("run"), Str(RepoFilename(dirs, name))]
      && ("root_level_metadata" !in fields ==> r.value.metadata == map[])
      && (|dirs| > 0 && (forall i :: 0 <= i < |dirs| - 1 ==> Suffix(dirs[i]) == "") ==>
            r.value.cliArgs == [Str("modal"), Str("run"), Str(RepoFilenameAsWritten(dirs, name))])
  {
    DefaultRecord(dirs, name, abs, fields);
    if |dirs| > 0 && forall i :: 0 <= i < |dirs| - 1 ==> Suffix(dirs[i]) == "" {
      CatalogPaths.RepoFilenameAgreesUndotted(dirs, name);
    }
  }

  /** The default command line and metadata, with the corrected repository path. */
  lemma DefaultRecord(dirs: seq<string>, name: string, abs: string, fields: map<string, Value>)
    requires
      || "root_level_metadata" !in fields
      || (&& fields["root_level_metadata"].Object?
          && "cmd" !in fields["root_level_metadata"].fields
          && "args" !in fields["root_level_metadata"].fields)
    ensures var r := ModuleRecord(dirs, name, abs, Object(fields));
      && r.Success?
      && r.value.cliArgs == [Str("modal"), Str("run"), Str(RepoFilename(dirs, name))]
      && ("root_level_metadata" !in fields ==> r.value.metadata == map[])
  {
    var md := Get(fields, "root_level_metadata", Object(map[]));
    assert md.Object? && "cmd" !in md.fields && "args" !in md.fields;
    var cmd := [Str(Tool), Str(RunCommand), Str(RepoFilename(dirs, name))];
    assert Get(md.fields, "cmd", List(cmd)) == List(cmd);
    assert Get(md.fields, "args", List([])) == List([]);
    assert cmd + [] == cmd;
  }

  /**
   Given lists for `cmd` and `args` in the root-level metadata (whatever
   else the section holds), the command line is the one followed by the
   other.
   */
  lemma OverriddenCliArgs(dirs: seq<string>, name: string, abs: string, fields: map<string, Value>,
                          md: map<string, Value>, cmd: seq<Value>, args: seq<Value>)
    requires "root_level_metadata" in fields && fields["root_level_metadata"] == Object(md)
    requires "cmd" in md && md["cmd"] == List(cmd)
    requires "args" in md && md["args"] == List(args)
    ensures var r := ModuleRecord(dirs, name, abs, Object(fields));
      r.Success? && r.value.cliArgs == cmd + args && r.value.metadata == md
  {
  }

  /**
   The command line of a module with root-level metadata, for every
   combination of `cmd` and `args` being present: `cmd`, or
   `modal run <repo path>` without it, followed by `args`, or nothing
   without them.
   */
  lemma CliArgsFromMetadata(dirs: seq<string>, name: string, abs: string, fields: map<string, Value>,
                            md: map<string, Value>)
    requires "root_level_metadata" in fields && fields["root_level_metadata"] == Object(md)
    requires "cmd" in md ==> md["cmd"].List?
    requires "args" in md ==> md["args"].List?
    ensures var r := ModuleRecord(dirs, name, abs, Object(fields));
      && r.Success?
      && r.value.metadata == md
      && r.value.cliArgs
         == (if "cmd" in md then md["cmd"].items else [Str("modal"), Str("run"), Str(RepoFilename(dirs, name))])
          + (if "args" in md then md["args"].items else [])
  {
  }

  /**
   `cmd + args` only makes a list out of two lists: a `cmd` or `args`
   that is present and not a list fails the build, and so does metadata
   that is not a mapping.
   */
  lemma CliArgsNeedLists(dirs: seq<string>, name: string, abs: string, section: Value)
    ensures var r := ModuleRecord(dirs, name, abs, section);
      r.Success? <==>
        && section.Object?
        && var md := Get(section.fields, "root_level_metadata", Object(map[]));
        && md.Object?
        && ("cmd" in md.fields ==> md.fields["cmd"].List?)
        && ("args" in md.fields ==> md.fields["args"].List?)
  {
  }

  /**
   When the resolved path ends in the entry's own name (no link was
   followed), the record's stem is the stem of that name.
   */
  lemma StemOfResolved(v: Visit, host: Host, prefix: string)
    requires '/' !in v.entry.name
    requires host.resolve(PathOf(v)) == prefix + "/" + v.entry.name
    ensures var r := Classify(v, host);
      r.Success? && r.value.Yield? && r.value.example.Module? ==> r.value.example.stem == Stem(v.entry.name)
  {
    var abs := host.resolve(PathOf(v));
    assert LastComponent(abs) == v.entry.name by {
      ResolvedLastComponent(prefix, v.entry.name);
    }
    RecordStem(v, host);
  }

  /** A module record's stem is the stem of the last component of the resolved path. */
  lemma RecordStem(v: Visit, host: Host)
    ensures var r := Classify(v, host);
      r.Success? && r.value.Yield? && r.value.example.Module? ==>
        r.value.example.stem == Stem(LastComponent(host.resolve(PathOf(v))))
  {
    var abs := host.resolve(PathOf(v));
    if IsModuleName(v.entry.name) && v.entry.File? && host.notebook(abs).Some? {
      var m := ModuleRecord(v.dirs, v.entry.name, abs, host.notebook(abs).value);
      assert m.Success? ==> m.value.stem == Stem(LastComponent(abs));
    }
  }

  lemma ResolvedLastComponent(prefix: string, name: string)
    requires '/' !in name
    ensures LastComponent(prefix + "/" + name) == name
  {
    var path := prefix + "/" + name;
    var r := LastComponent(path);
    assert path[|prefix|] == '/';
    assert forall k :: |prefix| < k < |path| ==> path[k] == name[k - |prefix| - 1];
    assert path[|path| - |name|..] == name;
  }
}
