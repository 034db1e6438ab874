/**
 The order of the walk. In a directory no two entries share a name, so
 `sorted` puts them in strictly ascending name order, and the walk meets
 the entries of the whole tree in path order: of two visits, the earlier
 one's path is smaller at the first component where the two paths differ.
 */
module CatalogOrder {
  import opened PyStr
  import opened Tree
  import opened Catalog

  /** No two entries of a directory share a name, as in any file system. */
  predicate DistinctNames(es: seq<Entry>) {
    forall i, j :: 0 <= i < j < |es| ==> es[i].name != es[j].name
  }

  /** Names are distinct in this directory and in every directory below it. */
  predicate WellNamed(e: Entry) {
    e.File? || (DistinctNames(e.children) && forall c :: c in e.children ==> WellNamed(c))
  }

  /** `p` comes before `q`: at the first component where they differ, `p`'s is smaller. */
  predicate Precedes(p: Path, q: Path) {
    exists k :: 0 <= k < |p| && k < |q| && p[..k] == q[..k] && p[k] != q[k] && LexLe(p[k], q[k])
  }

  /** Visits in strictly ascending path order. */
  predicate InPathOrder(vs: seq<Visit>) {
    forall i, j :: 0 <= i < j < |vs| ==> Precedes(PathOf(vs[i]), PathOf(vs[j]))
  }

  /** Every visit lies below `dirs`, in an entry named like one of `es`. */
  predicate HeadsIn(vs: seq<Visit>, dirs: seq<string>, es: seq<Entry>) {
    forall i :: 0 <= i < |vs| ==>
      |dirs| < |PathOf(vs[i])| && PathOf(vs[i])[..|dirs|] == dirs &&
      exists m :: 0 <= m < |es| && PathOf(vs[i])[|dirs|] == es[m].name
  }

  // ---------------------------------------------------------------------------
  // Sorting keeps names distinct.
  // ---------------------------------------------------------------------------

  lemma {:induction false} InsertDistinct(x: Entry, s: seq<Entry>)
    requires SortedByName(s) && DistinctNames(s)
    requires forall k :: 0 <= k < |s| ==> s[k].name != x.name
    ensures DistinctNames(InsertByName(x, s))
    decreases |s|
  {
    if |s| == 0 {
    } else if LexLe(x.name, s[0].name) {
      InsertFrontSorted(x, s);
      assert InsertByName(x, s) == [x] + s;
      PrependDistinct(x, s, s);
    } else {
      var t := InsertByName(x, s[1..]);
      InsertDistinct(x, s[1..]);
      InsertedNames(x, s, t);
      LexLeTotal(x.name, s[0].name);
      InsertBehindSorted(s[0], t, s[1..], x);
      assert InsertByName(x, s) == [s[0]] + t;
      PrependDistinct(s[0], t, t);
    }
  }

  /** After the head of distinct entries, inserting a new name keeps the head's name unique. */
  lemma InsertedNames(x: Entry, s: seq<Entry>, t: seq<Entry>)
    requires |s| > 0 && DistinctNames(s) && x.name != s[0].name
    requires multiset(t) == multiset(s[1..]) + multiset{x}
    ensures forall j :: 0 <= j < |t| ==> t[j].name != s[0].name
  {
    forall j | 0 <= j < |t|
      ensures t[j].name != s[0].name
    {
      assert t[j] in multiset(t);
      if t[j] != x {
        assert t[j] in multiset(s[1..]);
        var k :| 0 <= k < |s[1..]| && s[1..][k] == t[j];
        assert s[k + 1] == t[j];
      }
    }
  }

  /** An entry whose name is new, put in front of distinct entries. */
  lemma PrependDistinct(x: Entry, s: seq<Entry>, same: seq<Entry>)
    requires same == s && DistinctNames(s)
    requires forall k :: 0 <= k < |s| ==> s[k].name != x.name
    ensures DistinctNames([x] + s)
  {
    var r := [x] + s;
    forall i, j | 0 <= i < j < |r|
      ensures r[i].name != r[j].name
    {
      assert r[j] == s[j - 1];
      if i > 0 {
        assert r[i] == s[i - 1];
      }
    }
  }

  lemma {:induction false} SortDistinct(s: seq<Entry>)
    requires DistinctNames(s)
    ensures DistinctNames(SortByName(s))
    decreases |s|
  {
    if |s| > 0 {
      var t := SortByName(s[1..]);
      SortDistinct(s[1..]);
      forall k | 0 <= k < |t|
        ensures t[k].name != s[0].name
      {
        SortByNameMembers(s[1..], t[k]);
        var m :| 0 <= m < |s[1..]| && s[1..][m] == t[k];
        assert s[m + 1] == t[k];
      }
      InsertDistinct(s[0], t);
    }
  }

  lemma {:induction false} CategoriesDistinct(es: seq<Entry>)
    requires DistinctNames(es)
    ensures DistinctNames(Categories(es))
    decreases |es|
  {
    if |es| > 0 {
      CategoriesDistinct(es[1..]);
      var r := Categories(es[1..]);
      forall k | 0 <= k < |r|
        ensures r[k].name != es[0].name
      {
        assert r[k] in es[1..];
        var m :| 0 <= m < |es[1..]| && es[1..][m] == r[k];
        assert es[m + 1] == r[k];
      }
    }
  }

  // ---------------------------------------------------------------------------
  // Path order of the walk.
  // ---------------------------------------------------------------------------

  /** Two runs in path order, every visit of the first before every visit of the second. */
  lemma ConcatInPathOrder(a: seq<Visit>, b: seq<Visit>)
    requires InPathOrder(a) && InPathOrder(b)
    requires forall i, j :: 0 <= i < |a| && 0 <= j < |b| ==> Precedes(PathOf(a[i]), PathOf(b[j]))
    ensures InPathOrder(a + b)
  {
    forall i, j | 0 <= i < j < |a + b|
      ensures Precedes(PathOf((a + b)[i]), PathOf((a + b)[j]))
    {
      if j < |a| {
        assert (a + b)[i] == a[i] && (a + b)[j] == a[j];
      } else if i < |a| {
        assert (a + b)[i] == a[i] && (a + b)[j] == b[j - |a|];
      } else {
        assert (a + b)[i] == b[i - |a|] && (a + b)[j] == b[j - |a|];
      }
    }
  }

  /** Visits in the entry named `e.name` come before visits under a later sibling. */
  lemma SiblingBlocks(a: seq<Visit>, b: seq<Visit>, dirs: seq<string>, e: Entry, rest: seq<Entry>)
    requires SortedByName([e] + rest) && DistinctNames([e] + rest)
    requires HeadsIn(a, dirs, [e]) && HeadsIn(b, dirs, rest)
    ensures forall i, j :: 0 <= i < |a| && 0 <= j < |b| ==> Precedes(PathOf(a[i]), PathOf(b[j]))
  {
    var es := [e] + rest;
    forall i, j | 0 <= i < |a| && 0 <= j < |b|
      ensures Precedes(PathOf(a[i]), PathOf(b[j]))
    {
      var p, q, k := PathOf(a[i]), PathOf(b[j]), |dirs|;
      var m :| 0 <= m < |rest| && q[k] == rest[m].name;
      assert p[k] == [e][0].name;
      assert es[0] == e && es[m + 1] == rest[m];
      assert p[..k] == q[..k];
    }
  }

  lemma HeadsWidenFront(vs: seq<Visit>, dirs: seq<string>, e: Entry, rest: seq<Entry>)
    requires HeadsIn(vs, dirs, [e])
    ensures HeadsIn(vs, dirs, [e] + rest)
  {
    var es := [e] + rest;
    forall i | 0 <= i < |vs|
      ensures |dirs| < |PathOf(vs[i])| && PathOf(vs[i])[..|dirs|] == dirs
      ensures exists m :: 0 <= m < |es| && PathOf(vs[i])[|dirs|] == es[m].name
    {
      var m :| 0 <= m < 1 && PathOf(vs[i])[|dirs|] == [e][m].name;
      assert m == 0 && es[0] == e;
      assert PathOf(vs[i])[|dirs|] == es[0].name;
    }
  }

  lemma HeadsWidenBack(vs: seq<Visit>, dirs: seq<string>, e: Entry, rest: seq<Entry>)
    requires HeadsIn(vs, dirs, rest)
    ensures HeadsIn(vs, dirs, [e] + rest)
  {
    var es := [e] + rest;
    forall i | 0 <= i < |vs|
      ensures |dirs| < |PathOf(vs[i])| && PathOf(vs[i])[..|dirs|] == dirs
      ensures exists m :: 0 <= m < |es| && PathOf(vs[i])[|dirs|] == es[m].name
    {
      var m :| 0 <= m < |rest| && PathOf(vs[i])[|dirs|] == rest[m].name;
      assert es[m + 1] == rest[m];
    }
  }

  lemma HeadsConcat(a: seq<Visit>, b: seq<Visit>, dirs: seq<string>, es: seq<Entry>)
    requires HeadsIn(a, dirs, es) && HeadsIn(b, dirs, es)
    ensures HeadsIn(a + b, dirs, es)
  {
    forall i | 0 <= i < |a + b|
      ensures (a + b)[i] == if i < |a| then a[i] else b[i - |a|]
    {
    }
  }

  /** The one visit of an entry met as it stands. */
  lemma SingleVisit(dirs: seq<string>, e: Entry)
    ensures InPathOrder([Visit(dirs, e)])
    ensures HeadsIn([Visit(dirs, e)], dirs, [e])
  {
    var p := PathOf(Visit(dirs, e));
    assert p[..|dirs|] == dirs && p[|dirs|] == [e][0].name;
  }

  /** The visits of a directory entered one level below `dirs` all lie in that directory. */
  lemma NestedHeads(vs: seq<Visit>, dirs: seq<string>, e: Entry, children: seq<Entry>)
    requires HeadsIn(vs, dirs + [e.name], children)
    ensures HeadsIn(vs, dirs, [e])
  {
    forall i | 0 <= i < |vs|
      ensures |dirs| < |PathOf(vs[i])| && PathOf(vs[i])[..|dirs|] == dirs && PathOf(vs[i])[|dirs|] == [e][0].name
    {
      var p := PathOf(vs[i]);
      assert p[..|dirs| + 1] == dirs + [e.name];
      assert p[..|dirs|] == p[..|dirs| + 1][..|dirs|];
      assert p[|dirs|] == p[..|dirs| + 1][|dirs|];
    }
  }

  /**
   The walk of a directory whose entries are sorted and distinct (and, when
   it enters them, so are its subdirectories') meets them in path order.
   */
  lemma {:induction false} DirVisitsInPathOrder(dirs: seq<string>, es: seq<Entry>, recurse: bool)
    requires SortedByName(es) && DistinctNames(es)
    requires recurse ==> forall k :: 0 <= k < |es| && es[k].Dir? ==> DistinctNames(es[k].children)
    ensures InPathOrder(DirVisits(dirs, es, recurse))
    ensures HeadsIn(DirVisits(dirs, es, recurse), dirs, es)
    decreases if recurse then 1 else 0, |es|
  {
    if |es| > 0 {
      var e, rest := es[0], es[1..];
      assert es == [e] + rest;
      var here := if e.Dir? && recurse then DirVisits(dirs + [e.name], SortByName(e.children), false)
                  else [Visit(dirs, e)];
      var tail := DirVisits(dirs, rest, recurse);
      assert DirVisits(dirs, es, recurse) == here + tail;
      if e.Dir? && recurse {
        SortDistinct(e.children);
        DirVisitsInPathOrder(dirs + [e.name], SortByName(e.children), false);
        NestedHeads(here, dirs, e, SortByName(e.children));
      } else {
        SingleVisit(dirs, e);
      }
      DirVisitsInPathOrder(dirs, rest, recurse);
      SiblingBlocks(here, tail, dirs, e, rest);
      ConcatInPathOrder(here, tail);
      HeadsWidenFront(here, dirs, e, rest);
      HeadsWidenBack(tail, dirs, e, rest);
      HeadsConcat(here, tail, dirs, es);
    }
  }

  /** Categories sorted and distinct, each well named: the walk meets them in path order. */
  lemma {:induction false} CategoryVisitsInPathOrder(cats: seq<Entry>)
    requires SortedByName(cats) && DistinctNames(cats)
    requires forall k :: 0 <= k < |cats| ==> WellNamed(cats[k])
    ensures InPathOrder(CategoryVisits(cats))
    ensures HeadsIn(CategoryVisits(cats), [], cats)
    decreases |cats|
  {
    if |cats| > 0 {
      var c, rest := cats[0], cats[1..];
      assert cats == [c] + rest;
      var here := if c.Dir? then DirVisits([c.name], SortByName(c.children), true) else [];
      var tail := CategoryVisits(rest);
      if c.Dir? {
        CategoryBlock(c);
        NestedHeads(here, [], c, SortByName(c.children));
      }
      CategoryVisitsInPathOrder(rest);
      SiblingBlocks(here, tail, [], c, rest);
      ConcatInPathOrder(here, tail);
      HeadsWidenFront(here, [], c, rest);
      HeadsWidenBack(tail, [], c, rest);
      HeadsConcat(here, tail, [], cats);
    }
  }

  lemma CategoryBlock(c: Entry)
    requires c.Dir? && WellNamed(c)
    ensures InPathOrder(DirVisits([c.name], SortByName(c.children), true))
    ensures HeadsIn(DirVisits([c.name], SortByName(c.children), true), [] + [c.name], SortByName(c.children))
  {
    var s := SortByName(c.children);
    SortDistinct(c.children);
    forall k | 0 <= k < |s| && s[k].Dir?
      ensures DistinctNames(s[k].children)
    {
      SortByNameMembers(c.children, s[k]);
      assert WellNamed(s[k]);
    }
    DirVisitsInPathOrder([c.name], s, true);
    assert [] + [c.name] == [c.name];
  }

  /**
   In a well-named tree the build classifies entries in strictly ascending
   path order: categories by name, and inside a category each file or
   directory by name, a directory's entries coming together where its
   name falls.
   */
  lemma VisitsInPathOrder(rootEntries: seq<Entry>)
    requires DistinctNames(rootEntries)
    requires forall k :: 0 <= k < |rootEntries| ==> WellNamed(rootEntries[k])
    ensures InPathOrder(Visits(rootEntries))
  {
    var cats := Categories(rootEntries);
    CategoriesDistinct(rootEntries);
    SortDistinct(cats);
    var s := SortByName(cats);
    forall k | 0 <= k < |s|
      ensures WellNamed(s[k])
    {
      SortByNameMembers(cats, s[k]);
      var m :| 0 <= m < |rootEntries| && rootEntries[m] == s[k];
    }
    CategoryVisitsInPathOrder(s);
  }
}
