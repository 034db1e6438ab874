/**
 The frontmatter pattern read at the level of Markdown lines: on text made
 by joining lines that hold no newline, `^---$` matches exactly at the
 start of a line that is `---`, so the post-pass cuts the text after the
 second `---` line when the first line is `---`, and otherwise leaves it.
 */
module FrontmatterProofs {
  import opened PyStr
  import opened Renderer

  predicate NoNewline(ls: seq<string>) {
    forall i :: 0 <= i < |ls| ==> '\n' !in ls[i]
  }

  /** Where line `i` starts in `Join(ls, "\n")`. */
  function Offset(ls: seq<string>, i: nat): (r: nat)
    requires i <= |ls|
    decreases i
  {
    if i == 0 then 0 else |ls[0]| + 1 + Offset(ls[1..], i - 1)
  }

  lemma {:induction false} OffsetIncreasing(ls: seq<string>, i: nat, j: nat)
    requires i < j <= |ls|
    ensures Offset(ls, i) + |ls[i]| + 1 <= Offset(ls, j)
    decreases i
  {
    if i == 0 {
      assert Offset(ls, j) == |ls[0]| + 1 + Offset(ls[1..], j - 1);
    } else {
      OffsetIncreasing(ls[1..], i - 1, j - 1);
    }
  }

  /** The text from the start of line `i` on is the join of the lines from `i` on. */
  lemma {:induction false} JoinFrom(ls: seq<string>, i: nat)
    requires i < |ls|
    ensures Offset(ls, i) <= |Join(ls, "\n")|
    ensures Join(ls, "\n")[Offset(ls, i)..] == Join(ls[i..], "\n")
    decreases i
  {
    if i > 0 {
      JoinFrom(ls[1..], i - 1);
      assert ls[1..][i - 1..] == ls[i..];
      var t := Join(ls[1..], "\n");
      assert Join(ls, "\n") == ls[0] + "\n" + t;
      assert (ls[0] + "\n" + t)[|ls[0]| + 1..] == t;
    }
  }

  /** On a single line, a marker can only start at 0, and does exactly when the line is `---`. */
  lemma MarkerInLine(a: string, p: nat)
    requires '\n' !in a
    ensures MarkerAt(a, p) <==> p == 0 && a == "---"
  {
    if p == 0 && MarkerAt(a, p) {
      assert a[..3] == "---";
      assert a == a[..3];
    }
    if 0 < p <= |a| {
      assert a[p - 1] in a;
    }
  }

  /** In `a + "\n" + t`, the positions inside `a` behave as in a single line, and the rest as in `t`. */
  lemma MarkerInJoin(a: string, t: string, p: nat)
    requires '\n' !in a
    ensures p <= |a| ==> (MarkerAt(a + "\n" + t, p) <==> p == 0 && a == "---")
    ensures p > |a| ==> (MarkerAt(a + "\n" + t, p) <==> MarkerAt(t, p - |a| - 1))
  {
    var s := a + "\n" + t;
    if p == 0 {
      if MarkerAt(s, 0) {
        assert s[|a|] == '\n';
        assert forall i :: 0 <= i < 3 ==> s[..3][i] == '-';
        assert |a| >= 3;
        assert forall i :: 0 <= i < |a| ==> s[i] == a[i] && a[i] in a;
        assert |a| <= 3;
        assert s[..3] == a;
      }
      if a == "---" {
        assert s[..3] == a;
      }
    } else if p <= |a| {
      assert s[p - 1] == a[p - 1];
      assert a[p - 1] in a;
    } else {
      var q := p - |a| - 1;
      if p + 3 <= |s| {
        var u, v := s[p..p + 3], t[q..q + 3];
        assert forall i :: 0 <= i < 3 ==> u[i] == v[i];
        assert u == v;
        if q > 0 {
          assert s[p - 1] == t[q - 1];
        }
        if p + 3 < |s| {
          assert s[p + 3] == t[q + 3];
        }
      }
    }
  }

  /**
   On joined lines, `^---$` matches at the start of every `---` line and
   nowhere else.
   */
  lemma {:induction false} MarkersAreDashLines(ls: seq<string>, p: nat)
    requires NoNewline(ls)
    ensures MarkerAt(Join(ls, "\n"), p) <==>
      exists i :: 0 <= i < |ls| && Offset(ls, i) == p && ls[i] == "---"
    decreases |ls|
  {
    if |ls| == 0 {
      assert !MarkerAt("", p);
    } else if |ls| == 1 {
      MarkerInLine(ls[0], p);
      if p == 0 && ls[0] == "---" {
        assert Offset(ls, 0) == 0;
      }
    } else {
      var t := Join(ls[1..], "\n");
      assert Join(ls, "\n") == ls[0] + "\n" + t;
      MarkerInJoin(ls[0], t, p);
      if p <= |ls[0]| {
        if p == 0 && ls[0] == "---" {
          assert Offset(ls, 0) == 0;
        }
        forall i | 0 < i < |ls|
          ensures Offset(ls, i) != p
        {
          OffsetIncreasing(ls, 0, i);
        }
      } else {
        var q := p - |ls[0]| - 1;
        MarkersAreDashLines(ls[1..], q);
        if MarkerAt(t, q) {
          var i :| 0 <= i < |ls| - 1 && Offset(ls[1..], i) == q && ls[1..][i] == "---";
          assert Offset(ls, i + 1) == p && ls[i + 1] == "---";
        }
        if exists i :: 0 <= i < |ls| && Offset(ls, i) == p && ls[i] == "---" {
          var i :| 0 <= i < |ls| && Offset(ls, i) == p && ls[i] == "---";
          assert i > 0;
          assert Offset(ls[1..], i - 1) == q && ls[1..][i - 1] == "---";
        }
      }
    }
  }

  /**
   When the first line is `---` and line `i` is the next `---` line, the
   post-pass keeps exactly what follows line `i`: the newline that ends it
   and the lines after it.
   */
  lemma StripsThroughSecondDashLine(ls: seq<string>, i: nat)
    requires NoNewline(ls)
    requires 1 <= i < |ls| && ls[0] == "---" && ls[i] == "---"
    requires forall j :: 1 <= j < i ==> ls[j] != "---"
    ensures StripFrontmatter(Join(ls, "\n"))
         == if i + 1 == |ls| then "" else "\n" + Join(ls[i + 1..], "\n")
  {
    var text := Join(ls, "\n");
    var p := Offset(ls, i);
    assert MarkerAt(text, 0) by {
      MarkersAreDashLines(ls, 0);
      assert Offset(ls, 0) == 0;
    }
    assert MarkerAt(text, p) by {
      MarkersAreDashLines(ls, p);
    }
    OffsetIncreasing(ls, 0, i);
    assert p >= 4;
    forall q | 4 <= q < p
      ensures !MarkerAt(text, q)
    {
      MarkersAreDashLines(ls, q);
      if MarkerAt(text, q) {
        var j :| 0 <= j < |ls| && Offset(ls, j) == q && ls[j] == "---";
        if j > i {
          OffsetIncreasing(ls, i, j);
        }
      }
    }
    var r := StripFrontmatter(text);
    var p' :| 4 <= p' && MarkerAt(text, p') && r == text[p' + 3..] &&
      forall q :: 4 <= q < p' ==> !MarkerAt(text, q);
    assert p' == p;
    JoinFrom(ls, i);
    assert text[p + 3..] == text[p..][3..];
    DashLineThenRest(ls[i..]);
    assert ls[i..][1..] == ls[i + 1..];
  }

  lemma DashLineThenRest(ls: seq<string>)
    requires |ls| > 0 && ls[0] == "---"
    ensures Join(ls, "\n")[3..] == if |ls| == 1 then "" else "\n" + Join(ls[1..], "\n")
  {
    if |ls| > 1 {
      assert Join(ls, "\n") == "---" + "\n" + Join(ls[1..], "\n");
    }
  }

  /** Without a `---` first line followed by another `---` line, the post-pass changes nothing. */
  lemma KeepsTextWithoutFrontmatter(ls: seq<string>)
    requires NoNewline(ls)
    requires |ls| == 0 || ls[0] != "---" || forall j :: 1 <= j < |ls| ==> ls[j] != "---"
    ensures StripFrontmatter(Join(ls, "\n")) == Join(ls, "\n")
  {
    var text := Join(ls, "\n");
    if |ls| > 0 && ls[0] == "---" {
      forall p | 4 <= p
        ensures !MarkerAt(text, p)
      {
        MarkersAreDashLines(ls, p);
      }
    } else {
      MarkersAreDashLines(ls, 0);
    }
  }

  // ---------------------------------------------------------------------------
  // The renderer's Markdown lines never hold a newline.
  // ---------------------------------------------------------------------------

  lemma {:induction false} FoldNoNewline(st: RenderState, lines: seq<string>)
    requires NoNewline(st.markdown) && NoNewline(st.code) && NoNewline(lines)
    ensures NoNewline(Fold(st, lines).markdown) && NoNewline(Fold(st, lines).code)
    decreases |lines|
  {
    if |lines| > 0 {
      var line := lines[0];
      assert '\n' !in line;
      assert '\n' !in FenceOpen && '\n' !in FenceClose;
      if IsComment(line) {
        var t := CommentText(line);
        assert forall k :: 0 <= k < |t| ==> t[k] == line[k + 2];
        assert '\n' !in t;
      }
      FoldNoNewline(Step(st, line), lines[1..]);
    }
  }

  /** Every Markdown line the renderer emits is free of newlines when its input lines are. */
  lemma RenderLinesNoNewline(lines: seq<string>)
    requires NoNewline(lines)
    ensures NoNewline(RenderLines(lines))
  {
    var st := Fold(RenderState([], []), lines);
    FoldNoNewline(RenderState([], []), lines);
    assert '\n' !in FenceOpen && '\n' !in FenceClose;
  }

  /**
   Rendering a file whose Markdown opens with a `---` line and has a later
   `---` line (the first being line `i`) yields what follows line `i`.
   */
  lemma RenderStripsFrontmatter(content: string, i: nat)
    requires var md := RenderLines(SplitNewlines(content));
      1 <= i < |md| && md[0] == "---" && md[i] == "---" && forall j :: 1 <= j < i ==> md[j] != "---"
    ensures var md := RenderLines(SplitNewlines(content));
      Render(content) == if i + 1 == |md| then "" else "\n" + Join(md[i + 1..], "\n")
  {
    RenderLinesNoNewline(SplitNewlines(content));
    StripsThroughSecondDashLine(RenderLines(SplitNewlines(content)), i);
  }

  /** Otherwise the rendered text is the Markdown lines joined by newlines. */
  lemma RenderKeepsText(content: string)
    requires var md := RenderLines(SplitNewlines(content));
      |md| == 0 || md[0] != "---" || forall j :: 1 <= j < |md| ==> md[j] != "---"
    ensures Render(content) == Join(RenderLines(SplitNewlines(content)), "\n")
  {
    RenderLinesNoNewline(SplitNewlines(content));
    KeepsTextWithoutFrontmatter(RenderLines(SplitNewlines(content)));
  }
}
