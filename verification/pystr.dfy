/**
 The few pieces of Python's `str` semantics the core relies on: `startswith`,
 open-ended slicing, `sep.join`, splitting on the regular expression `\r?\n`,
 and the code-point ordering that `sorted` uses.
 */
module PyStr {

  /** `s.startswith(prefix)`. */
  predicate StartsWith(s: string, prefix: string) {
    |prefix| <= |s| && s[..|prefix|] == prefix
  }

  /** `s[n:]`: Python slicing clamps an index past the end to the end. */
  function SliceFrom(s: string, n: nat): (r: string)
    ensures |r| == if n <= |s| then |s| - n else 0
    ensures forall i :: 0 <= i < |r| ==> r[i] == s[n + i]
  {
    if n <= |s| then s[n..] else ""
  }

  /** `sep.join(parts)`. */
  function Join(parts: seq<string>, sep: string): (r: string)
    decreases |parts|
  {
    if |parts| == 0 then ""
    else if |parts| == 1 then parts[0]
    else parts[0] + sep + Join(parts[1..], sep)
  }

  /** Appending one more part adds exactly one separator. */
  lemma {:induction false} JoinSnoc(parts: seq<string>, x: string, sep: string)
    requires |parts| > 0
    ensures Join(parts + [x], sep) == Join(parts, sep) + sep + x
    decreases |parts|
  {
    if |parts| == 1 {
      assert parts + [x] == [parts[0], x];
      assert [parts[0], x][1..] == [x];
    } else {
      assert (parts + [x])[1..] == parts[1..] + [x];
      JoinSnoc(parts[1..], x, sep);
    }
  }

  /** Joining two non-empty lists of parts puts one separator between them. */
  lemma {:induction false} JoinAppend(a: seq<string>, b: seq<string>, sep: string)
    requires |a| > 0 && |b| > 0
    ensures Join(a + b, sep) == Join(a, sep) + sep + Join(b, sep)
    decreases |a|
  {
    if |a| == 1 {
      assert (a + b)[1..] == b;
    } else {
      assert (a + b)[1..] == a[1..] + b;
      JoinAppend(a[1..], b, sep);
    }
  }

  /** Prefixing the first part prefixes the joined text. */
  lemma {:induction false} JoinConsHead(c: string, parts: seq<string>, sep: string)
    requires |parts| > 0
    ensures Join([c + parts[0]] + parts[1..], sep) == c + Join(parts, sep)
  {
    var q := [c + parts[0]] + parts[1..];
    assert q[1..] == parts[1..];
  }

  /**
   `re.split(r"\r?\n", s)`: the matcher scans left to right, so a `\r`
   is consumed only when a `\n` follows it; the result always has at least
   one piece (`""` splits into `[""]`).
   */
  function SplitNewlines(s: string): (r: seq<string>)
    ensures |r| >= 1
    ensures forall i :: 0 <= i < |r| ==> '\n' !in r[i]
    decreases |s|
  {
    if |s| == 0 then [""]
    else if s[0] == '\n' then [""] + SplitNewlines(s[1..])
    else if |s| >= 2 && s[0] == '\r' && s[1] == '\n' then [""] + SplitNewlines(s[2..])
    else
      var rest := SplitNewlines(s[1..]);
      [[s[0]] + rest[0]] + rest[1..]
  }

  /** Text without a newline is a single piece. */
  lemma {:induction false} SplitNewlinesNoBreak(a: string)
    requires '\n' !in a
    ensures SplitNewlines(a) == [a]
    decreases |a|
  {
    if |a| > 0 {
      SplitNewlinesNoBreak(a[1..]);
      assert a == [a[0]] + a[1..];
    }
  }

  /** A line that does not end in `\r`, then `\n`: the line is the first piece. */
  lemma {:induction false} SplitNewlinesLine(a: string, b: string)
    requires '\n' !in a && (|a| == 0 || a[|a| - 1] != '\r')
    ensures SplitNewlines(a + "\n" + b) == [a] + SplitNewlines(b)
    decreases |a|
  {
    var s := a + "\n" + b;
    if |a| == 0 {
      assert s == "\n" + b;
      assert s[1..] == b;
    } else {
      assert s[1..] == a[1..] + "\n" + b;
      if |a| == 1 {
        assert s[0] == a[0] && s[1] == '\n';
      }
      SplitNewlinesLine(a[1..], b);
      assert a == [a[0]] + a[1..];
    }
  }

  /** Lines that hold no `\n` and do not end in `\r` survive a join and a split unchanged. */
  lemma {:induction false} SplitJoinedLines(ls: seq<string>)
    requires |ls| > 0
    requires forall i :: 0 <= i < |ls| ==> '\n' !in ls[i] && (|ls[i]| == 0 || ls[i][|ls[i]| - 1] != '\r')
    ensures SplitNewlines(Join(ls, "\n")) == ls
    decreases |ls|
  {
    if |ls| == 1 {
      SplitNewlinesNoBreak(ls[0]);
    } else {
      SplitJoinedLines(ls[1..]);
      SplitNewlinesLine(ls[0], Join(ls[1..], "\n"));
    }
  }

  /** The text with every `\r\n` pair replaced by a single `\n`. */
  function NormalizeNewlines(s: string): (r: string)
    decreases |s|
  {
    if |s| == 0 then ""
    else if |s| >= 2 && s[0] == '\r' && s[1] == '\n' then "\n" + NormalizeNewlines(s[2..])
    else [s[0]] + NormalizeNewlines(s[1..])
  }

  /** Splitting on `\r?\n` and joining with `\n` only normalises line endings. */
  lemma {:induction false} SplitNewlinesJoin(s: string)
    ensures Join(SplitNewlines(s), "\n") == NormalizeNewlines(s)
    decreases |s|
  {
    if |s| == 0 {
    } else if s[0] == '\n' {
      SplitNewlinesJoin(s[1..]);
      JoinAppend([""], SplitNewlines(s[1..]), "\n");
    } else if |s| >= 2 && s[0] == '\r' && s[1] == '\n' {
      SplitNewlinesJoin(s[2..]);
      JoinAppend([""], SplitNewlines(s[2..]), "\n");
    } else {
      SplitNewlinesJoin(s[1..]);
      JoinConsHead([s[0]], SplitNewlines(s[1..]), "\n");
    }
  }

  /** Python's `a <= b` on `str`: code-point lexicographic order, a prefix sorting first. */
  predicate LexLe(a: string, b: string)
    decreases |a|
  {
    |a| == 0 || (|b| > 0 && (a[0] < b[0] || (a[0] == b[0] && LexLe(a[1..], b[1..]))))
  }

  lemma {:induction false} LexLeTotal(a: string, b: string)
    ensures LexLe(a, b) || LexLe(b, a)
    decreases |a|
  {
    if |a| > 0 && |b| > 0 && a[0] == b[0] {
      LexLeTotal(a[1..], b[1..]);
    }
  }

  lemma {:induction false} LexLeTransitive(a: string, b: string, c: string)
    requires LexLe(a, b) && LexLe(b, c)
    ensures LexLe(a, c)
    decreases |a|
  {
    if |a| > 0 && a[0] == b[0] && b[0] == c[0] {
      LexLeTransitive(a[1..], b[1..], c[1..]);
    }
  }

  lemma {:induction false} LexLeAntisymmetric(a: string, b: string)
    requires LexLe(a, b) && LexLe(b, a)
    ensures a == b
    decreases |a|
  {
    if |a| > 0 {
      LexLeAntisymmetric(a[1..], b[1..]);
      assert a == [a[0]] + a[1..];
      assert b == [b[0]] + b[1..];
    }
  }
}
