/**
 The names a record carries, for the two depths the walk reaches: the
 repository path (as written, and corrected) and the dotted import path.
 */
module CatalogPaths {
  import opened PyStr
  import opened Tree
  import opened Catalog

  /** A file directly in a category, and a file one directory further down. */
  lemma RepoFilenameShapes(c: string, d: string, name: string)
    ensures RepoFilename([c], name) == c + "/" + name
    ensures RepoFilename([c, d], name) == c + "/" + d + "/" + name
  {
    assert [c] + [name] == [c, name];
    JoinTwo(c, name, "/");
    assert [c, d] + [name] == [c, d, name];
    JoinThree(c, d, name, "/");
  }

  /** Two parts joined: one separator between them. */
  lemma JoinTwo(a: string, b: string, sep: string)
    ensures Join([a, b], sep) == a + sep + b
  {
    assert [a, b][1..] == [b];
  }

  /** Three parts joined: the separator goes between each neighbouring pair. */
  lemma JoinThree(a: string, b: string, c: string, sep: string)
    ensures Join([a, b, c], sep) == a + sep + b + sep + c
  {
    assert [a, b, c][1..] == [b, c] && [b, c][1..] == [c];
    assert Join([b, c], sep) == b + sep + c;
    assert a + sep + (b + sep + c) == a + sep + b + sep + c;
  }

  lemma PrefixStartsWith(a: string, b: string)
    ensures StartsWith(a + b, a)
  {
    assert (a + b)[..|a|] == a;
  }

  /**
   The repository path as the source writes it: a file in a category is
   `<category>/<file>`, but one a level down is `<category stem>/<dir>/<file>`.
   */
  lemma RepoFilenameAsWrittenShapes(c: string, d: string, name: string)
    ensures RepoFilenameAsWritten([c], name) == c + "/" + name
    ensures RepoFilenameAsWritten([c, d], name) == Stem(c) + "/" + d + "/" + name
  {
    assert [c][..0] == [];
    assert Stems([]) + [c, name] == [c, name];
    JoinTwo(c, name, "/");
    assert [c, d][..1] == [c];
    assert Stems([c]) + [d, name] == [Stem(c), d, name];
    JoinThree(Stem(c), d, name, "/");
  }

  /**
   A category whose name has a suffix (a dot past its first character, as
   in `a.b`) gives its files one level down a repository path that is not
   theirs: the suffix is gone, so the path names no directory of the
   repository, and it does not even start with the category's name.
   */
  lemma DottedCategoryLosesSuffix(c: string, d: string, name: string)
    requires Suffix(c) != ""
    ensures RepoFilenameAsWritten([c, d], name) != RepoFilename([c, d], name)
    ensures !StartsWith(RepoFilenameAsWritten([c, d], name), c + "/")
  {
    RepoFilenameAsWrittenShapes(c, d, name);
    RepoFilenameShapes(c, d, name);
    StemSuffixSplit(c);
    var w := RepoFilenameAsWritten([c, d], name);
    var k := |Stem(c)|;
    assert k < |c|;
    assert w[k] == '/';
    assert c[k] == Suffix(c)[0] == '.';
    assert (c + "/")[k] == '.';
  }

  /** The instance: a category `a.b` with a directory `d` holding `x.py`. */
  lemma DottedCategoryInstance()
    ensures RepoFilenameAsWritten(["a.b", "d"], "x.py") == "a/d/x.py"
    ensures RepoFilename(["a.b", "d"], "x.py") == "a.b/d/x.py"
  {
    var c := "a.b";
    assert LastIndexOf(c, '.') == 1 by {
      assert c[..2] == "a.";
    }
    assert Stem(c) == "a";
    RepoFilenameAsWrittenShapes(c, "d", "x.py");
    RepoFilenameShapes(c, "d", "x.py");
  }

  /**
   The corrected repository path is the walk's directories and the file
   name joined by `/`, so it starts with the category's name.
   */
  lemma RepoFilenameIsPath(dirs: seq<string>, name: string)
    requires |dirs| > 0
    ensures RepoFilename(dirs, name) == Join(dirs, "/") + "/" + name
    ensures StartsWith(RepoFilename(dirs, name), dirs[0] + "/")
  {
    JoinSnoc(dirs, name, "/");
    var parts := dirs + [name];
    var head := dirs[0] + "/";
    var rest := Join(parts[1..], "/");
    assert Join(parts, "/") == parts[0] + "/" + rest;
    assert RepoFilename(dirs, name) == head + rest;
    PrefixStartsWith(head, rest);
  }

  /** The two agree whenever the category's name is its own stem, as it is for undotted names. */
  lemma RepoFilenameAgreement(c: string, d: string, name: string)
    requires Stem(c) == c
    ensures RepoFilenameAsWritten([c], name) == RepoFilename([c], name)
    ensures RepoFilenameAsWritten([c, d], name) == RepoFilename([c, d], name)
  {
    RepoFilenameAsWrittenShapes(c, d, name);
    RepoFilenameShapes(c, d, name);
  }

  /** Names without a suffix are their own stems. */
  lemma StemsUnchanged(names: seq<string>)
    requires forall i :: 0 <= i < |names| ==> Suffix(names[i]) == ""
    ensures Stems(names) == names
  {
    forall i | 0 <= i < |names|
      ensures Stems(names)[i] == names[i]
    {
      StemSuffixSplit(names[i]);
    }
  }

  /**
   When no directory above the file's own has a suffix, the path as
   written is the real one.
   */
  lemma RepoFilenameAgreesUndotted(dirs: seq<string>, name: string)
    requires |dirs| > 0
    requires forall i :: 0 <= i < |dirs| - 1 ==> Suffix(dirs[i]) == ""
    ensures RepoFilenameAsWritten(dirs, name) == RepoFilename(dirs, name)
  {
    var above := dirs[..|dirs| - 1];
    StemsUnchanged(above);
    assert above + [dirs[|dirs| - 1], name] == dirs + [name];
  }

  /** One directory down, the two agree exactly when the category's name has no suffix. */
  lemma RepoFilenameAgreesIff(c: string, d: string, name: string)
    ensures RepoFilenameAsWritten([c, d], name) == RepoFilename([c, d], name) <==> Suffix(c) == ""
  {
    if Suffix(c) == "" {
      RepoFilenameAgreesUndotted([c, d], name);
    } else {
      DottedCategoryLosesSuffix(c, d, name);
    }
  }

  /**
   The import path: the category's stem and the file's stem for a file in a
   category, with the directory's stem between them one level down.
   */
  lemma ModulePathShapes(c: string, d: string, name: string)
    ensures ModulePath([c], name) == Stem(c) + "." + Stem(name)
    ensures ModulePath([c, d], name) == Stem(c) + "." + Stem(d) + "." + Stem(name)
  {
    assert Stems([c]) + [Stem(name)] == [Stem(c), Stem(name)];
    JoinTwo(Stem(c), Stem(name), ".");
    assert Stems([c, d]) + [Stem(name)] == [Stem(c), Stem(d), Stem(name)];
    JoinThree(Stem(c), Stem(d), Stem(name), ".");
  }
}
