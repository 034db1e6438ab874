/**
 What the walk reaches: a declarative description of the entries that get
 classified, checked against `Visits` in both directions, and the fact that
 a directory below a category is classified as it stands, never entered.
 */
module CatalogWalk {
  import opened PyStr
  import opened Tree
  import opened Catalog

  /** `DirVisits` distributes over the concatenation of the entries it walks. */
  lemma {:induction false} DirVisitsAppend(dirs: seq<string>, a: seq<Entry>, b: seq<Entry>, recurse: bool)
    ensures DirVisits(dirs, a + b, recurse) == DirVisits(dirs, a, recurse) + DirVisits(dirs, b, recurse)
    decreases |a|
  {
    if |a| == 0 {
      assert a + b == b;
    } else {
      assert (a + b)[0] == a[0];
      assert (a + b)[1..] == a[1..] + b;
      DirVisitsAppend(dirs, a[1..], b, recurse);
    }
  }

  /**
   With `recurse` off, every entry is visited exactly once, in the given
   order, at the same depth: nothing is entered.
   */
  lemma {:induction false} FlatWalk(dirs: seq<string>, entries: seq<Entry>)
    ensures |DirVisits(dirs, entries, false)| == |entries|
    ensures forall i :: 0 <= i < |entries| ==> DirVisits(dirs, entries, false)[i] == Visit(dirs, entries[i])
    decreases |entries|
  {
    if |entries| > 0 {
      FlatWalk(dirs, entries[1..]);
    }
  }

  /** A visit of a flat walk is an entry of the walked directory, and each entry is visited. */
  lemma FlatWalkMembers(dirs: seq<string>, entries: seq<Entry>, v: Visit)
    ensures v in DirVisits(dirs, entries, false) <==> v.dirs == dirs && v.entry in entries
  {
    var r := DirVisits(dirs, entries, false);
    FlatWalk(dirs, entries);
    if v.dirs == dirs && v.entry in entries {
      var i :| 0 <= i < |entries| && entries[i] == v.entry;
      assert r[i] == v;
    }
  }

  /** What the walk of a category's entries reaches: its files, and the entries of its directories. */
  predicate ReachedFrom(dirs: seq<string>, entries: seq<Entry>, v: Visit) {
    || (v.dirs == dirs && v.entry in entries && !v.entry.Dir?)
    || (exists d :: d in entries && d.Dir? && v.dirs == dirs + [d.name] && v.entry in d.children)
  }

  lemma {:induction false} DeepWalkMembers(dirs: seq<string>, entries: seq<Entry>, v: Visit)
    ensures v in DirVisits(dirs, entries, true) <==> ReachedFrom(dirs, entries, v)
    decreases |entries|
  {
    if |entries| > 0 {
      var e := entries[0];
      var rest := entries[1..];
      DeepWalkMembers(dirs, rest, v);
      assert entries == [e] + rest;
      if e.Dir? {
        FlatWalkMembers(dirs + [e.name], SortByName(e.children), v);
        SortByNameMembers(e.children, v.entry);
        DeepWalkDirHead(dirs, e, rest, v);
      } else {
        DeepWalkFileHead(dirs, e, rest, v);
      }
    }
  }

  lemma DeepWalkDirHead(dirs: seq<string>, e: Entry, rest: seq<Entry>, v: Visit)
    requires e.Dir?
    requires v in DirVisits(dirs, rest, true) <==> ReachedFrom(dirs, rest, v)
    requires v in DirVisits(dirs + [e.name], SortByName(e.children), false) <==> v.dirs == dirs + [e.name] && v.entry in e.children
    ensures v in DirVisits(dirs, [e] + rest, true) <==> ReachedFrom(dirs, [e] + rest, v)
  {
    var entries := [e] + rest;
    assert entries[0] == e && entries[1..] == rest;
    if ReachedFrom(dirs, entries, v) && !ReachedFrom(dirs, rest, v) {
      if !(v.dirs == dirs && v.entry in entries && !v.entry.Dir?) {
        var d :| d in entries && d.Dir? && v.dirs == dirs + [d.name] && v.entry in d.children;
        assert d == e;
      }
    }
  }

  lemma DeepWalkFileHead(dirs: seq<string>, e: Entry, rest: seq<Entry>, v: Visit)
    requires !e.Dir?
    requires v in DirVisits(dirs, rest, true) <==> ReachedFrom(dirs, rest, v)
    ensures v in DirVisits(dirs, [e] + rest, true) <==> ReachedFrom(dirs, [e] + rest, v)
  {
    var entries := [e] + rest;
    assert entries[0] == e && entries[1..] == rest;
  }

  lemma {:induction false} CategoryVisitsMembers(cats: seq<Entry>, v: Visit)
    ensures v in CategoryVisits(cats) <==>
      exists c :: c in cats && c.Dir? && ReachedFrom([c.name], c.children, v)
    decreases |cats|
  {
    if |cats| > 0 {
      var c := cats[0];
      CategoryVisitsMembers(cats[1..], v);
      assert cats == [c] + cats[1..];
      if c.Dir? {
        DeepWalkMembers([c.name], SortByName(c.children), v);
        SortedReach([c.name], c.children, v);
      }
    }
  }

  /** Sorting a directory's entries does not change what its walk reaches. */
  lemma SortedReach(dirs: seq<string>, entries: seq<Entry>, v: Visit)
    ensures ReachedFrom(dirs, SortByName(entries), v) <==> ReachedFrom(dirs, entries, v)
  {
    SortByNameMembers(entries, v.entry);
    forall d
      ensures d in SortByName(entries) <==> d in entries
    {
      SortByNameMembers(entries, d);
    }
  }

  /**
   The entries a build classifies, said without the walk: below a category
   of the root (a directory, neither hidden nor internal), each non-directory
   entry, and each entry of each directory one level down, whatever it is.
   */
  predicate Reached(rootEntries: seq<Entry>, v: Visit) {
    exists c :: c in rootEntries && IsCategory(c) && ReachedFrom([c.name], c.children, v)
  }

  lemma VisitsMembers(rootEntries: seq<Entry>, v: Visit)
    ensures v in Visits(rootEntries) <==> Reached(rootEntries, v)
  {
    var cats := Categories(rootEntries);
    CategoryVisitsMembers(SortByName(cats), v);
    forall c
      ensures c in SortByName(cats) <==> c in rootEntries && IsCategory(c)
    {
      SortByNameMembers(cats, c);
    }
  }

  /**
   A visit two directories deep is an entry of a directory of a category,
   met as it stands: its own children, if any, are never visited.
   */
  lemma NoThirdLevel(rootEntries: seq<Entry>, v: Visit)
    requires v in Visits(rootEntries)
    ensures 1 <= |v.dirs| <= 2
    ensures |v.dirs| == 1 ==> !v.entry.Dir?
    ensures |v.dirs| == 2 ==>
      exists c, d :: (c in rootEntries && IsCategory(c) && d in c.children && d.Dir?
                      && v.dirs == [c.name, d.name] && v.entry in d.children)
  {
    VisitsMembers(rootEntries, v);
  }
}
