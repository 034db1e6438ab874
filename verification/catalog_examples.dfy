/**
 Whole builds over small trees, for any names that fit the shape: a
 category holding a module and an asset, a module one directory down, and
 a root with no category at all.
 */
module CatalogExamples {
  import opened Wrappers
  import opened PyStr
  import opened Tree
  import opened Catalog
  import CatalogPaths

  /** Two entries whose names are in strict order come out of `sorted` in that order, whatever order they came in. */
  lemma SortTwo(x: Entry, y: Entry)
    requires LexLe(x.name, y.name) && x.name != y.name
    ensures SortByName([y, x]) == [x, y]
    ensures SortByName([x, y]) == [x, y]
  {
    assert [y, x][1..] == [x] && [x][1..] == [];
    assert [x, y][1..] == [y] && [y][1..] == [];
    assert !LexLe(y.name, x.name) by {
      if LexLe(y.name, x.name) {
        LexLeAntisymmetric(x.name, y.name);
      }
    }
  }

  lemma SortOne(x: Entry)
    ensures SortByName([x]) == [x]
  {
    assert [x][1..] == [];
  }

  /** The walk of a root holding one category: the category's own walk. */
  lemma OneCategoryVisits(c: Entry)
    requires IsCategory(c)
    ensures Visits([c]) == DirVisits([c.name], SortByName(c.children), true)
  {
    assert [c][1..] == [];
    SortOne(c);
    assert Categories([c]) == [c];
    assert CategoryVisits([c]) == DirVisits([c.name], SortByName(c.children), true) + CategoryVisits([]);
  }

  /** Two files of a directory are visited where they stand. */
  lemma TwoFilesVisits(dirs: seq<string>, x: string, y: string)
    ensures DirVisits(dirs, [File(x), File(y)], true) == [Visit(dirs, File(x)), Visit(dirs, File(y))]
  {
    assert [File(x), File(y)][1..] == [File(y)] && [File(y)][1..] == [];
    assert DirVisits(dirs, [File(y)], true) == [Visit(dirs, File(y))] + DirVisits(dirs, [], true);
    assert DirVisits(dirs, [File(x), File(y)], true) == [Visit(dirs, File(x))] + DirVisits(dirs, [File(y)], true);
  }

  /** A lone subdirectory is entered, and its entries visited one level down. */
  lemma OneDirVisits(dirs: seq<string>, d: string, children: seq<Entry>)
    ensures DirVisits(dirs, [Dir(d, children)], true) == DirVisits(dirs + [d], SortByName(children), false)
  {
    assert [Dir(d, children)][1..] == [];
  }

  /** Visits that each yield a record collect into exactly those records, in order. */
  lemma {:induction false} CollectWithYields(vs: seq<Visit>, exs: seq<Example>, classify: Visit -> Result<Outcome, Error>)
    requires |vs| == |exs|
    requires forall i :: 0 <= i < |vs| ==> classify(vs[i]) == Success(Yield(exs[i]))
    ensures CollectWith(vs, classify) == Success(Catalog(exs, []))
    decreases |vs|
  {
    if |vs| > 0 {
      CollectWithYields(vs[1..], exs[1..], classify);
      assert exs == [exs[0]] + exs[1..];
    }
  }

  lemma CollectYields(vs: seq<Visit>, exs: seq<Example>, host: Host)
    requires |vs| == |exs|
    requires forall i :: 0 <= i < |vs| ==> Classify(vs[i], host) == Success(Yield(exs[i]))
    ensures Collect(vs, host) == Success(Catalog(exs, []))
  {
    CollectWithYields(vs, exs, v => Classify(v, host));
  }

  lemma CollectTwo(v: Visit, w: Visit, e: Example, f: Example, host: Host)
    requires Classify(v, host) == Success(Yield(e)) && Classify(w, host) == Success(Yield(f))
    ensures Collect([v, w], host) == Success(Catalog([e, f], []))
  {
    CollectYields([v, w], [e, f], host);
  }

  lemma CollectOne(v: Visit, e: Example, host: Host)
    requires Classify(v, host) == Success(Yield(e))
    ensures Collect([v], host) == Success(Catalog([e], []))
  {
    CollectYields([v], [e], host);
  }

  /** A category entry whose name is neither hidden nor internal. */
  predicate CategoryName(c: string) {
    !StartsWith(c, ".") && !StartsWith(c, "internal")
  }

  /** The MODULE record a file with an empty metadata section gets. */
  function PlainModule(host: Host, dirs: seq<string>, name: string): (r: Example) {
    var abs := host.resolve(dirs + [name]);
    Module(abs, ModulePath(dirs, name), map[], RepoFilename(dirs, name),
           [Str(Tool), Str(RunCommand), Str(RepoFilename(dirs, name))], Stem(LastComponent(abs)))
  }

  /** An empty metadata section: no root-level metadata, so every default applies. */
  lemma EmptySectionRecord(dirs: seq<string>, name: string, abs: string)
    ensures ModuleRecord(dirs, name, abs, Object(map[]))
         == Success(Module(abs, ModulePath(dirs, name), map[], RepoFilename(dirs, name),
                           [Str(Tool), Str(RunCommand), Str(RepoFilename(dirs, name))], Stem(LastComponent(abs))))
  {
    var cmd := [Str(Tool), Str(RunCommand), Str(RepoFilename(dirs, name))];
    assert Get(map[], "root_level_metadata", Object(map[])) == Object(map[]);
    assert Get(map[], "cmd", List(cmd)) == List(cmd);
    assert Get(map[], "args", List([])) == List([]);
    assert cmd + [] == cmd;
  }

  lemma ClassifyPlainModule(host: Host, dirs: seq<string>, name: string)
    requires IsModuleName(name)
    requires host.notebook(host.resolve(dirs + [name])) == Some(Object(map[]))
    ensures Classify(Visit(dirs, File(name)), host) == Success(Yield(PlainModule(host, dirs, name)))
  {
    var v := Visit(dirs, File(name));
    assert PathOf(v) == dirs + [name];
    EmptySectionRecord(dirs, name, host.resolve(dirs + [name]));
  }

  lemma ClassifyAsset(host: Host, dirs: seq<string>, name: string)
    requires IsAssetName(name)
    ensures Classify(Visit(dirs, File(name)), host)
         == Success(Yield(Asset(host.resolve(dirs + [name]), RepoFilename(dirs, name))))
  {
    assert ".py" !in AssetSuffixes;
  }

  /** The category of `ModuleAndAsset` is walked in name order, whichever order it lists its files in. */
  lemma ModuleAndAssetVisits(c: string, a: string, b: string, listing: seq<Entry>)
    requires CategoryName(c)
    requires LexLe(a, b) && a != b
    requires listing == [File(b), File(a)] || listing == [File(a), File(b)]
    ensures Visits([Dir(c, listing)]) == [Visit([c], File(a)), Visit([c], File(b))]
  {
    var cat := Dir(c, listing);
    assert Visits([cat]) == DirVisits([c], [File(a), File(b)], true) by {
      OneCategoryVisits(cat);
      SortTwo(File(a), File(b));
    }
    TwoFilesVisits([c], a, b);
  }

  /** The records of a module `a` and an asset `b` directly in category `c`, spelled out. */
  lemma ModuleAndAssetRecords(c: string, a: string, b: string, host: Host)
    ensures PlainModule(host, [c], a)
         == Module(host.resolve([c, a]), Stem(c) + "." + Stem(a), map[], c + "/" + a,
                   [Str("modal"), Str("run"), Str(c + "/" + a)], Stem(LastComponent(host.resolve([c, a]))))
    ensures Asset(host.resolve([c] + [b]), RepoFilename([c], b)) == Asset(host.resolve([c, b]), c + "/" + b)
  {
    assert [c] + [a] == [c, a] && [c] + [b] == [c, b];
    CatalogPaths.RepoFilenameShapes(c, "", a);
    CatalogPaths.RepoFilenameShapes(c, "", b);
    CatalogPaths.ModulePathShapes(c, "", a);
  }

  /** Classifying the module and then the asset of `ModuleAndAsset`. */
  lemma ModuleAndAssetCollect(c: string, a: string, b: string, host: Host)
    requires IsModuleName(a) && IsAssetName(b)
    requires host.notebook(host.resolve([c, a])) == Some(Object(map[]))
    ensures Collect([Visit([c], File(a)), Visit([c], File(b))], host)
         == Success(Catalog([PlainModule(host, [c], a), Asset(host.resolve([c] + [b]), RepoFilename([c], b))], []))
  {
    assert [c] + [a] == [c, a];
    ClassifyPlainModule(host, [c], a);
    ClassifyAsset(host, [c], b);
    CollectTwo(Visit([c], File(a)), Visit([c], File(b)), PlainModule(host, [c], a),
               Asset(host.resolve([c] + [b]), RepoFilename([c], b)), host);
  }

  /**
   A category `c` listing, in either order, a module `a` whose metadata
   is empty and an asset `b` whose name sorts after it: the build is the
   module, then the asset, named after where they sit, and nothing is
   ignored.
   */
  lemma ModuleAndAsset(r: string, c: string, a: string, b: string, listing: seq<Entry>, host: Host)
    requires CategoryName(c)
    requires IsModuleName(a) && IsAssetName(b)
    requires LexLe(a, b) && a != b
    requires listing == [File(b), File(a)] || listing == [File(a), File(b)]
    requires host.notebook(host.resolve([c, a])) == Some(Object(map[]))
    ensures GetExamples(Some(Dir(r, [Dir(c, listing)])), host)
         == Success(Catalog([Module(host.resolve([c, a]), Stem(c) + "." + Stem(a), map[], c + "/" + a,
                                    [Str("modal"), Str("run"), Str(c + "/" + a)],
                                    Stem(LastComponent(host.resolve([c, a])))),
                             Asset(host.resolve([c, b]), c + "/" + b)],
                            []))
  {
    var vs := [Visit([c], File(a)), Visit([c], File(b))];
    assert GetExamples(Some(Dir(r, [Dir(c, listing)])), host) == Collect(vs, host) by {
      ModuleAndAssetVisits(c, a, b, listing);
    }
    ModuleAndAssetCollect(c, a, b, host);
    ModuleAndAssetRecords(c, a, b, host);
  }

  /** The category of `NestedModule` is walked into its one directory, whose one file is visited. */
  lemma NestedModuleVisits(c: string, d: string, a: string)
    requires CategoryName(c)
    ensures Visits([Dir(c, [Dir(d, [File(a)])])]) == [Visit([c, d], File(a))]
  {
    var sub := Dir(d, [File(a)]);
    var cat := Dir(c, [sub]);
    assert Visits([cat]) == DirVisits([c, d], [File(a)], false) by {
      OneCategoryVisits(cat);
      SortOne(sub);
      OneDirVisits([c], d, [File(a)]);
      SortOne(File(a));
      assert [c] + [d] == [c, d];
    }
    assert [File(a)][1..] == [];
  }

  /** The record of a module `a` in directory `d` of category `c`, spelled out. */
  lemma NestedModuleRecord(c: string, d: string, a: string, host: Host)
    ensures PlainModule(host, [c, d], a)
         == Module(host.resolve([c, d, a]), Stem(c) + "." + Stem(d) + "." + Stem(a), map[],
                   c + "/" + d + "/" + a,
                   [Str("modal"), Str("run"), Str(c + "/" + d + "/" + a)],
                   Stem(LastComponent(host.resolve([c, d, a]))))
  {
    assert [c, d] + [a] == [c, d, a];
    CatalogPaths.RepoFilenameShapes(c, d, a);
    CatalogPaths.ModulePathShapes(c, d, a);
  }

  /** The build of `NestedModule`: the one module, with the real repository path. */
  lemma NestedModuleBuild(r: string, c: string, d: string, a: string, host: Host)
    requires CategoryName(c)
    requires IsModuleName(a)
    requires host.notebook(host.resolve([c, d, a])) == Some(Object(map[]))
    ensures GetExamples(Some(Dir(r, [Dir(c, [Dir(d, [File(a)])])])), host)
         == Success(Catalog([Module(host.resolve([c, d, a]), Stem(c) + "." + Stem(d) + "." + Stem(a), map[],
                                    c + "/" + d + "/" + a,
                                    [Str("modal"), Str("run"), Str(c + "/" + d + "/" + a)],
                                    Stem(LastComponent(host.resolve([c, d, a]))))],
                            []))
  {
    var v := Visit([c, d], File(a));
    assert GetExamples(Some(Dir(r, [Dir(c, [Dir(d, [File(a)])])])), host) == Collect([v], host) by {
      NestedModuleVisits(c, d, a);
    }
    assert Collect([v], host) == Success(Catalog([PlainModule(host, [c, d], a)], [])) by {
      assert [c, d] + [a] == [c, d, a];
      ClassifyPlainModule(host, [c, d], a);
      CollectOne(v, PlainModule(host, [c, d], a), host);
    }
    NestedModuleRecord(c, d, a, host);
  }

  /**
   A module `a` inside directory `d` of category `c`: its import path and
   repository path name all three levels. The repository path the source
   builds is that one exactly when `c` has no suffix.
   */
  lemma NestedModule(r: string, c: string, d: string, a: string, host: Host)
    requires CategoryName(c)
    requires IsModuleName(a)
    requires host.notebook(host.resolve([c, d, a])) == Some(Object(map[]))
    ensures GetExamples(Some(Dir(r, [Dir(c, [Dir(d, [File(a)])])])), host)
         == Success(Catalog([Module(host.resolve([c, d, a]), Stem(c) + "." + Stem(d) + "." + Stem(a), map[],
                                    c + "/" + d + "/" + a,
                                    [Str("modal"), Str("run"), Str(c + "/" + d + "/" + a)],
                                    Stem(LastComponent(host.resolve([c, d, a]))))],
                            []))
    ensures c + "/" + d + "/" + a == RepoFilenameAsWritten([c, d], a) <==> Suffix(c) == ""
  {
    NestedModuleBuild(r, c, d, a, host);
    CatalogPaths.RepoFilenameShapes(c, d, a);
    CatalogPaths.RepoFilenameAgreesIff(c, d, a);
  }

  /** A root whose entries are all hidden, internal or plain files yields nothing and ignores nothing. */
  lemma NoCategories(r: string, entries: seq<Entry>, host: Host)
    requires forall i :: 0 <= i < |entries| ==> !IsCategory(entries[i])
    ensures GetExamples(Some(Dir(r, entries)), host) == Success(Catalog([], []))
  {
    NoneAreCategories(entries);
  }

  lemma {:induction false} NoneAreCategories(entries: seq<Entry>)
    requires forall i :: 0 <= i < |entries| ==> !IsCategory(entries[i])
    ensures Categories(entries) == []
    decreases |entries|
  {
    if |entries| > 0 {
      NoneAreCategories(entries[1..]);
    }
  }
}
