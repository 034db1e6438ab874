/** Sequence combinators used to state what a traversal keeps and in which order. */
module Seqs {

  /** Each element replaced by the (possibly empty) run of values `f` gives it, in order. */
  function FlatMap<T, U>(f: T -> seq<U>, s: seq<T>): (r: seq<U>)
    ensures |s| == 0 ==> r == []
    decreases |s|
  {
    if |s| == 0 then [] else f(s[0]) + FlatMap(f, s[1..])
  }

  /** FlatMap distributes over concatenation, so it keeps the relative order of its input. */
  lemma {:induction false} FlatMapAppend<T, U>(f: T -> seq<U>, a: seq<T>, b: seq<T>)
    ensures FlatMap(f, a + b) == FlatMap(f, a) + FlatMap(f, b)
    decreases |a|
  {
    if |a| == 0 {
      assert a + b == b;
    } else {
      assert (a + b)[1..] == a[1..] + b;
      FlatMapAppend(f, a[1..], b);
    }
  }

  lemma FlatMapCons<T, U>(f: T -> seq<U>, x: T, s: seq<T>)
    ensures FlatMap(f, [x] + s) == f(x) + FlatMap(f, s)
  {
    assert ([x] + s)[1..] == s;
  }

  lemma FlatMapSingle<T, U>(f: T -> seq<U>, x: T)
    ensures FlatMap(f, [x]) == f(x)
  {
    assert [x][1..] == [];
  }

  /** Elements that contribute nothing leave nothing behind. */
  lemma {:induction false} FlatMapNone<T, U>(f: T -> seq<U>, s: seq<T>)
    requires forall i :: 0 <= i < |s| ==> f(s[i]) == []
    ensures FlatMap(f, s) == []
    decreases |s|
  {
    if |s| > 0 {
      FlatMapNone(f, s[1..]);
    }
  }

  /** Elements that each contribute themselves are all kept, in order. */
  lemma {:induction false} FlatMapKeepAll<T>(f: T -> seq<T>, s: seq<T>)
    requires forall i :: 0 <= i < |s| ==> f(s[i]) == [s[i]]
    ensures FlatMap(f, s) == s
    decreases |s|
  {
    if |s| > 0 {
      FlatMapKeepAll(f, s[1..]);
      assert s == [s[0]] + s[1..];
    }
  }

  /** Every value of a FlatMap comes from some element's run. */
  lemma {:induction false} FlatMapMember<T, U>(f: T -> seq<U>, s: seq<T>, x: U)
    requires x in FlatMap(f, s)
    ensures exists i :: 0 <= i < |s| && x in f(s[i])
    decreases |s|
  {
    if x !in f(s[0]) {
      FlatMapMember(f, s[1..], x);
      var i :| 0 <= i < |s[1..]| && x in f(s[1..][i]);
      assert s[1..][i] == s[i + 1];
    }
  }
}
