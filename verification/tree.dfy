/**
 The directory tree the catalog builder walks, and the parts of `pathlib`
 it reads off an entry: `name`, `suffix`, `stem`, and the order `sorted`
 puts the entries of one directory in.
 */
module Tree {
  import opened PyStr

  /** A directory entry: a plain file or a directory with its children (in any order). */
  datatype Entry = File(name: string) | Dir(name: string, children: seq<Entry>)

  /** A path as its list of components. */
  type Path = seq<string>

  /** `s.rfind(c)`: the index of the last `c`, or -1. */
  function LastIndexOf(s: string, c: char): (r: int)
    ensures -1 <= r < |s|
    ensures r >= 0 ==> s[r] == c
    ensures forall j :: r < j < |s| ==> s[j] != c
    decreases |s|
  {
    if |s| == 0 then -1
    else if s[|s| - 1] == c then |s| - 1
    else LastIndexOf(s[..|s| - 1], c)
  }

  /**
   `PurePath.suffix` of a name: from the last dot on, provided that dot is
   neither the first nor the last character; otherwise empty.
   */
  function Suffix(name: string): (r: string)
    ensures r == "" || (|r| >= 2 && r[0] == '.' && '.' !in r[1..])
    ensures |r| < |name| || r == ""
    ensures r == name[|name| - |r|..]
  {
    var i := LastIndexOf(name, '.');
    if 0 < i < |name| - 1 then name[i..] else ""
  }

  /**
   A name has a suffix exactly when it holds a dot, neither its first nor
   its last character, with no dot after it.
   */
  lemma SuffixWhen(name: string)
    ensures Suffix(name) != "" <==> exists i :: 0 < i < |name| - 1 && name[i] == '.' && '.' !in name[i + 1..]
  {
    var i := LastIndexOf(name, '.');
    if 0 < i < |name| - 1 {
      assert name[i] == '.' && '.' !in name[i + 1..];
    } else {
      forall k | 0 < k < |name| - 1 && name[k] == '.'
        ensures '.' in name[k + 1..]
      {
        assert k <= i;
        assert name[k + 1..][i - k - 1] == name[i];
      }
    }
  }

  /** `PurePath.stem` of a name: the name without its suffix. */
  function Stem(name: string): (r: string)
  {
    var i := LastIndexOf(name, '.');
    if 0 < i < |name| - 1 then name[..i] else name
  }

  /** A name is exactly its stem followed by its suffix; a non-empty name has a non-empty stem. */
  lemma StemSuffixSplit(name: string)
    ensures Stem(name) + Suffix(name) == name
    ensures |name| > 0 ==> |Stem(name)| > 0
    ensures Suffix(name) == "" ==> Stem(name) == name
  {
  }

  /** Entries in ascending name order, as `sorted` leaves the paths of one directory. */
  predicate SortedByName(s: seq<Entry>) {
    forall i, j :: 0 <= i < j < |s| ==> LexLe(s[i].name, s[j].name)
  }

  function InsertByName(x: Entry, s: seq<Entry>): (r: seq<Entry>)
    requires SortedByName(s)
    ensures SortedByName(r)
    ensures multiset(r) == multiset(s) + multiset{x}
    decreases |s|
  {
    if |s| == 0 then [x]
    else if LexLe(x.name, s[0].name) then
      InsertFrontSorted(x, s);
      [x] + s
    else
      LexLeTotal(x.name, s[0].name);
      var t := InsertByName(x, s[1..]);
      assert s == [s[0]] + s[1..];
      InsertBehindSorted(s[0], t, s[1..], x);
      [s[0]] + t
  }

  lemma InsertFrontSorted(x: Entry, s: seq<Entry>)
    requires SortedByName(s) && |s| > 0 && LexLe(x.name, s[0].name)
    ensures SortedByName([x] + s)
  {
    forall j | 0 < j < |s| + 1
      ensures LexLe(([x] + s)[0].name, ([x] + s)[j].name)
    {
      if j == 1 {
        assert ([x] + s)[j] == s[0];
      } else {
        assert 0 < j - 1 && LexLe(s[0].name, s[j - 1].name);
        LexLeTransitive(x.name, s[0].name, s[j - 1].name);
      }
    }
  }

  lemma InsertBehindSorted(h: Entry, t: seq<Entry>, rest: seq<Entry>, x: Entry)
    requires SortedByName(t) && SortedByName([h] + rest)
    requires LexLe(h.name, x.name)
    requires multiset(t) == multiset(rest) + multiset{x}
    ensures SortedByName([h] + t)
  {
    forall j | 0 <= j < |t|
      ensures LexLe(h.name, t[j].name)
    {
      assert t[j] in multiset(t);
      if t[j] != x {
        assert t[j] in multiset(rest);
        var k :| 0 <= k < |rest| && rest[k] == t[j];
        assert ([h] + rest)[k + 1] == t[j];
        assert ([h] + rest)[0] == h;
      } else {
        assert t[j].name == x.name;
      }
    }
  }

  /** `sorted(entries)`: the same entries, in ascending name order. */
  function SortByName(s: seq<Entry>): (r: seq<Entry>)
    ensures SortedByName(r)
    ensures multiset(r) == multiset(s)
    decreases |s|
  {
    if |s| == 0 then []
    else
      assert s == [s[0]] + s[1..];
      InsertByName(s[0], SortByName(s[1..]))
  }

  /** Sorting neither adds nor drops an entry. */
  lemma SortByNameMembers(s: seq<Entry>, e: Entry)
    ensures e in SortByName(s) <==> e in s
  {
    assert e in SortByName(s) <==> e in multiset(SortByName(s));
    assert e in s <==> e in multiset(s);
  }
}
