/**
 What the line loop of the renderer guarantees: it produces exactly the
 block-by-block output `Segment` describes, so prose lines, separators
 and fenced blocks come out in input order and no fence is ever empty.
 */
module RendererProofs {
  import opened PyStr
  import opened Seqs
  import opened Renderer

  /** The code buffer after a run of code lines that met buffer `code`. */
  function Buffered(code: seq<string>, run: seq<string>): (r: seq<string>) {
    if |code| > 0 then code + run else DropLeadingBlanks(run)
  }

  lemma {:induction false} FoldAppend(st: RenderState, a: seq<string>, b: seq<string>)
    ensures Fold(st, a + b) == Fold(Fold(st, a), b)
    decreases |a|
  {
    if |a| == 0 {
      assert a + b == b;
    } else {
      assert (a + b)[0] == a[0];
      assert (a + b)[1..] == a[1..] + b;
      FoldAppend(Step(st, a[0]), a[1..], b);
    }
  }

  /** A run of code lines adds one blank Markdown line each and extends the buffer. */
  lemma {:induction false} FoldCodeRun(st: RenderState, run: seq<string>)
    requires forall i :: 0 <= i < |run| ==> !IsComment(run[i])
    ensures Fold(st, run) == RenderState(st.markdown + Blanks(|run|), Buffered(st.code, run))
    decreases |run|
  {
    if |run| == 0 {
      assert st.markdown + Blanks(0) == st.markdown;
      assert |st.code| == 0 ==> st.code == [];
    } else {
      var st' := Step(st, run[0]);
      FoldCodeRun(st', run[1..]);
      assert [""] + Blanks(|run| - 1) == Blanks(|run|);
      assert run == [run[0]] + run[1..];
      if |st.code| > 0 {
        assert st'.code == st.code + [run[0]];
      } else if run[0] != "" {
        assert st'.code == [run[0]];
      } else {
        assert st'.code == [];
      }
    }
  }

  lemma {:induction false} EmitAppend(a: seq<Piece>, b: seq<Piece>)
    ensures Emit(a + b) == Emit(a) + Emit(b)
    decreases |a|
  {
    if |a| == 0 {
      assert a + b == b;
    } else {
      assert (a + b)[1..] == a[1..] + b;
      EmitAppend(a[1..], b);
    }
  }

  lemma EmitSingle(p: Piece)
    ensures Emit([p]) == EmitPiece(p)
  {
  }

  lemma {:induction false} EmitGaps(n: nat)
    ensures Emit(Gaps(n)) == Blanks(n)
    decreases n
  {
    if n > 0 {
      assert Gaps(n) == [Gap] + Gaps(n - 1);
      assert Blanks(n) == [""] + Blanks(n - 1);
      EmitAppend([Gap], Gaps(n - 1));
      EmitSingle(Gap);
      EmitGaps(n - 1);
    }
  }

  lemma EmitBlockOf(code: seq<string>)
    ensures Emit(BlockOf(code)) == (if |code| > 0 then Fence(code) else [])
  {
    if |code| > 0 {
      EmitSingle(Block(code));
    }
  }

  /**
   From a state with no pending code (or at a comment line, which flushes
   it), the loop emits exactly what `Segment` describes.
   */
  lemma {:induction false} FoldMatchesSegment(st: RenderState, lines: seq<string>)
    requires st.code == [] || |lines| == 0 || IsComment(lines[0])
    ensures Flush(Fold(st, lines)) == Flush(st) + Emit(Segment(lines))
    decreases |lines|, 1
  {
    if |lines| == 0 {
    } else if IsComment(lines[0]) {
      FoldMatchesSegmentComment(st, lines);
    } else {
      FoldMatchesSegmentRun(st, lines);
    }
  }

  /** The case of `FoldMatchesSegment` where the lines open with a comment line. */
  lemma {:induction false} FoldMatchesSegmentComment(st: RenderState, lines: seq<string>)
    requires |lines| > 0 && IsComment(lines[0])
    ensures Flush(Fold(st, lines)) == Flush(st) + Emit(Segment(lines))
    decreases |lines|, 0
  {
    var text := CommentText(lines[0]);
    var st' := RenderState(Flush(st) + [text], []);
    calc {
      Flush(Fold(st, lines));
      { FoldComment(st, lines); }
      Flush(Fold(st', lines[1..]));
      { FoldMatchesSegment(st', lines[1..]); }
      Flush(st) + [text] + Emit(Segment(lines[1..]));
      { EmitProseFirst(lines); }
      Flush(st) + Emit(Segment(lines));
    }
  }

  /** A comment line flushes the buffer and appends its text. */
  lemma FoldComment(st: RenderState, lines: seq<string>)
    requires |lines| > 0 && IsComment(lines[0])
    ensures Fold(st, lines) == Fold(RenderState(Flush(st) + [CommentText(lines[0])], []), lines[1..])
  {
  }

  lemma EmitProseFirst(lines: seq<string>)
    requires |lines| > 0 && IsComment(lines[0])
    ensures Emit(Segment(lines)) == [CommentText(lines[0])] + Emit(Segment(lines[1..]))
  {
    var p := Prose(CommentText(lines[0]));
    assert Segment(lines) == [p] + Segment(lines[1..]);
    EmitAppend([p], Segment(lines[1..]));
    EmitSingle(p);
  }

  /** The case of `FoldMatchesSegment` where the lines open with a run of code. */
  lemma {:induction false} FoldMatchesSegmentRun(st: RenderState, lines: seq<string>)
    requires st.code == [] && |lines| > 0 && !IsComment(lines[0])
    ensures Flush(Fold(st, lines)) == Flush(st) + Emit(Segment(lines))
    decreases |lines|, 0
  {
    var k := RunLength(lines);
    var code := DropLeadingBlanks(lines[..k]);
    var mid := RenderState(st.markdown + Blanks(k), code);
    var rest := lines[k..];
    var e1, e2 := Emit(Gaps(k) + BlockOf(code)), Emit(Segment(rest));
    calc {
      Flush(Fold(st, lines));
      { FoldOverRun(st, lines); }
      Flush(Fold(mid, rest));
      { FoldMatchesSegment(mid, rest); }
      Flush(mid) + e2;
      { FlushAfterRun(st.markdown, k, code); }
      (st.markdown + e1) + e2;
      st.markdown + (e1 + e2);
      { EmitSegmentRun(lines); }
      st.markdown + Emit(Segment(lines));
    }
  }

  /** Folding over a leading run of code leaves a state with one blank per line and the run buffered. */
  lemma FoldOverRun(st: RenderState, lines: seq<string>)
    requires st.code == [] && |lines| > 0 && !IsComment(lines[0])
    ensures Fold(st, lines) ==
      Fold(RenderState(st.markdown + Blanks(RunLength(lines)), DropLeadingBlanks(lines[..RunLength(lines)])),
           lines[RunLength(lines)..])
  {
    var k := RunLength(lines);
    assert lines == lines[..k] + lines[k..];
    FoldAppend(st, lines[..k], lines[k..]);
    FoldCodeRun(st, lines[..k]);
  }

  lemma EmitSegmentRun(lines: seq<string>)
    requires |lines| > 0 && !IsComment(lines[0])
    ensures Emit(Segment(lines)) ==
      Emit(Gaps(RunLength(lines)) + BlockOf(DropLeadingBlanks(lines[..RunLength(lines)])))
      + Emit(Segment(lines[RunLength(lines)..]))
  {
    var k := RunLength(lines);
    var front := Gaps(k) + BlockOf(DropLeadingBlanks(lines[..k]));
    assert Segment(lines) == front + Segment(lines[k..]);
    EmitAppend(front, Segment(lines[k..]));
  }

  lemma FlushAfterRun(markdown: seq<string>, k: nat, code: seq<string>)
    ensures Flush(RenderState(markdown + Blanks(k), code)) == markdown + Emit(Gaps(k) + BlockOf(code))
  {
    EmitGaps(k);
    EmitBlockOf(code);
    EmitAppend(Gaps(k), BlockOf(code));
  }

  /** The renderer's line loop produces the block-by-block Markdown of `Segment`. */
  lemma RenderLinesIsSegmented(lines: seq<string>)
    ensures RenderLines(lines) == Emit(Segment(lines))
  {
    FoldMatchesSegment(RenderState([], []), lines);
  }

  // ---------------------------------------------------------------------------
  // What the pieces carry, against what the input lines hold.
  // ---------------------------------------------------------------------------

  function ProseOfPiece(p: Piece): (r: seq<string>) { if p.Prose? then [p.text] else [] }
  function GapOfPiece(p: Piece): (r: seq<Piece>) { if p.Gap? then [p] else [] }
  function CodeOfPiece(p: Piece): (r: seq<string>) { if p.Block? then p.code else [] }

  function CommentTextOf(line: string): (r: seq<string>) { if IsComment(line) then [CommentText(line)] else [] }
  function CodeLineOf(line: string): (r: seq<string>) { if IsComment(line) then [] else [line] }
  function NonBlankOf(line: string): (r: seq<string>) { if line == "" then [] else [line] }

  /** The shape `Segment` gives input that opens with a run of code. */
  lemma SegmentRunSplit(lines: seq<string>)
    requires |lines| > 0 && !IsComment(lines[0])
    ensures Segment(lines) ==
      Gaps(RunLength(lines)) + BlockOf(DropLeadingBlanks(lines[..RunLength(lines)])) + Segment(lines[RunLength(lines)..])
  {
  }

  lemma RunSplit(lines: seq<string>)
    ensures lines == lines[..RunLength(lines)] + lines[RunLength(lines)..]
  {
  }

  /** Dropping the leading blank lines of a run keeps all of its non-blank lines. */
  lemma DropLeadingBlanksNonBlank(code: seq<string>)
    ensures FlatMap(NonBlankOf, DropLeadingBlanks(code)) == FlatMap(NonBlankOf, code)
  {
    var d := DropLeadingBlanks(code);
    var j := |code| - |d|;
    assert code == code[..j] + d;
    FlatMapAppend(NonBlankOf, code[..j], d);
    FlatMapNone(NonBlankOf, code[..j]);
  }

  /** The prose lines of the Markdown are the comment lines' texts, all of them and in order. */
  lemma {:induction false} ProseIsCommentText(lines: seq<string>)
    ensures FlatMap(ProseOfPiece, Segment(lines)) == FlatMap(CommentTextOf, lines)
    decreases |lines|
  {
    if |lines| == 0 {
    } else if IsComment(lines[0]) {
      ProseIsCommentText(lines[1..]);
      CommentIsProse(lines);
    } else {
      var k := RunLength(lines);
      ProseIsCommentText(lines[k..]);
      SegmentRunSplit(lines);
      ProseOfRunPieces(k, DropLeadingBlanks(lines[..k]), Segment(lines[k..]));
      RunHasNoComment(lines);
    }
  }

  lemma CommentIsProse(lines: seq<string>)
    requires |lines| > 0 && IsComment(lines[0])
    ensures FlatMap(ProseOfPiece, Segment(lines)) == [CommentText(lines[0])] + FlatMap(ProseOfPiece, Segment(lines[1..]))
    ensures FlatMap(CommentTextOf, lines) == [CommentText(lines[0])] + FlatMap(CommentTextOf, lines[1..])
  {
    var p := Prose(CommentText(lines[0]));
    assert Segment(lines) == [p] + Segment(lines[1..]);
    FlatMapCons(ProseOfPiece, p, Segment(lines[1..]));
  }

  lemma ProseOfRunPieces(k: nat, code: seq<string>, tail: seq<Piece>)
    ensures FlatMap(ProseOfPiece, Gaps(k) + BlockOf(code) + tail) == FlatMap(ProseOfPiece, tail)
  {
    var block := BlockOf(code);
    FlatMapAppend(ProseOfPiece, Gaps(k) + block, tail);
    FlatMapAppend(ProseOfPiece, Gaps(k), block);
    FlatMapNone(ProseOfPiece, Gaps(k));
    FlatMapNone(ProseOfPiece, block);
  }

  lemma RunHasNoComment(lines: seq<string>)
    requires |lines| > 0 && !IsComment(lines[0])
    ensures FlatMap(CommentTextOf, lines) == FlatMap(CommentTextOf, lines[RunLength(lines)..])
  {
    var k := RunLength(lines);
    RunSplit(lines);
    FlatMapAppend(CommentTextOf, lines[..k], lines[k..]);
    FlatMapNone(CommentTextOf, lines[..k]);
  }

  /** There is one separator line per code line of the input. */
  lemma {:induction false} GapPerCodeLine(lines: seq<string>)
    ensures |FlatMap(GapOfPiece, Segment(lines))| == |FlatMap(CodeLineOf, lines)|
    decreases |lines|
  {
    if |lines| == 0 {
    } else if IsComment(lines[0]) {
      GapPerCodeLine(lines[1..]);
      CommentIsNoGap(lines);
    } else {
      var k := RunLength(lines);
      GapPerCodeLine(lines[k..]);
      SegmentRunSplit(lines);
      GapsOfRunPieces(k, DropLeadingBlanks(lines[..k]), Segment(lines[k..]));
      RunCodeLines(lines);
    }
  }

  lemma CommentIsNoGap(lines: seq<string>)
    requires |lines| > 0 && IsComment(lines[0])
    ensures FlatMap(GapOfPiece, Segment(lines)) == FlatMap(GapOfPiece, Segment(lines[1..]))
    ensures FlatMap(CodeLineOf, lines) == FlatMap(CodeLineOf, lines[1..])
  {
    var p := Prose(CommentText(lines[0]));
    assert Segment(lines) == [p] + Segment(lines[1..]);
    FlatMapCons(GapOfPiece, p, Segment(lines[1..]));
  }

  lemma GapsOfRunPieces(k: nat, code: seq<string>, tail: seq<Piece>)
    ensures FlatMap(GapOfPiece, Gaps(k) + BlockOf(code) + tail) == Gaps(k) + FlatMap(GapOfPiece, tail)
  {
    var block := BlockOf(code);
    FlatMapAppend(GapOfPiece, Gaps(k) + block, tail);
    FlatMapAppend(GapOfPiece, Gaps(k), block);
    FlatMapKeepAll(GapOfPiece, Gaps(k));
    FlatMapNone(GapOfPiece, block);
  }

  /**
   The fenced code holds the input's code lines in their original order:
   leaving blank lines aside on both sides, the two are equal.
   */
  lemma {:induction false} CodeKeepsCodeLines(lines: seq<string>)
    ensures FlatMap(NonBlankOf, FlatMap(CodeOfPiece, Segment(lines)))
         == FlatMap(NonBlankOf, FlatMap(CodeLineOf, lines))
    decreases |lines|
  {
    if |lines| == 0 {
    } else if IsComment(lines[0]) {
      CodeKeepsCodeLines(lines[1..]);
      CommentAddsNoCode(lines);
    } else {
      CodeKeepsCodeLines(lines[RunLength(lines)..]);
      CodeKeepsCodeLinesRun(lines);
    }
  }

  /** A leading comment line adds no code, on either side. */
  lemma CommentAddsNoCode(lines: seq<string>)
    requires |lines| > 0 && IsComment(lines[0])
    ensures FlatMap(CodeOfPiece, Segment(lines)) == FlatMap(CodeOfPiece, Segment(lines[1..]))
    ensures FlatMap(CodeLineOf, lines) == FlatMap(CodeLineOf, lines[1..])
  {
    var p := Prose(CommentText(lines[0]));
    assert Segment(lines) == [p] + Segment(lines[1..]);
    FlatMapCons(CodeOfPiece, p, Segment(lines[1..]));
  }

  lemma CodeKeepsCodeLinesRun(lines: seq<string>)
    requires |lines| > 0 && !IsComment(lines[0])
    requires FlatMap(NonBlankOf, FlatMap(CodeOfPiece, Segment(lines[RunLength(lines)..])))
          == FlatMap(NonBlankOf, FlatMap(CodeLineOf, lines[RunLength(lines)..]))
    ensures FlatMap(NonBlankOf, FlatMap(CodeOfPiece, Segment(lines)))
         == FlatMap(NonBlankOf, FlatMap(CodeLineOf, lines))
  {
    var k := RunLength(lines);
    var run, rest := lines[..k], lines[k..];
    var code := DropLeadingBlanks(run);
    var restCode := FlatMap(CodeOfPiece, Segment(rest));
    RunCodeFenced(lines);
    RunCodeLines(lines);
    FlatMapAppend(NonBlankOf, code, restCode);
    DropLeadingBlanksNonBlank(run);
    FlatMapAppend(NonBlankOf, run, FlatMap(CodeLineOf, rest));
  }

  /** A run of code contributes its lines, less the leading blanks, to the fenced code. */
  lemma RunCodeFenced(lines: seq<string>)
    requires |lines| > 0 && !IsComment(lines[0])
    ensures FlatMap(CodeOfPiece, Segment(lines))
         == DropLeadingBlanks(lines[..RunLength(lines)]) + FlatMap(CodeOfPiece, Segment(lines[RunLength(lines)..]))
  {
    var k := RunLength(lines);
    SegmentRunSplit(lines);
    CodeOfRunPieces(k, DropLeadingBlanks(lines[..k]), Segment(lines[k..]));
  }

  lemma CodeOfRunPieces(k: nat, code: seq<string>, tail: seq<Piece>)
    ensures FlatMap(CodeOfPiece, Gaps(k) + BlockOf(code) + tail) == code + FlatMap(CodeOfPiece, tail)
  {
    var block := BlockOf(code);
    FlatMapAppend(CodeOfPiece, Gaps(k) + block, tail);
    FlatMapAppend(CodeOfPiece, Gaps(k), block);
    FlatMapNone(CodeOfPiece, Gaps(k));
    if |code| > 0 {
      FlatMapSingle(CodeOfPiece, Block(code));
    }
  }

  /** A run of code lines is kept whole by the code-line filter. */
  lemma RunCodeLines(lines: seq<string>)
    requires |lines| > 0 && !IsComment(lines[0])
    ensures FlatMap(CodeLineOf, lines)
         == lines[..RunLength(lines)] + FlatMap(CodeLineOf, lines[RunLength(lines)..])
  {
    var k := RunLength(lines);
    RunSplit(lines);
    FlatMapAppend(CodeLineOf, lines[..k], lines[k..]);
    FlatMapKeepAll(CodeLineOf, lines[..k]);
  }

  // ---------------------------------------------------------------------------
  // Fences: never empty, and only ever closed by a comment line or the end.
  // ---------------------------------------------------------------------------

  /**
   Every fenced block holds at least one line and starts with a non-blank
   one, and what follows a block is a prose line or the end of the output.
   */
  predicate FencesWellFormed(ps: seq<Piece>) {
    forall i :: 0 <= i < |ps| && ps[i].Block? ==>
      |ps[i].code| > 0 && ps[i].code[0] != "" && (i + 1 == |ps| || ps[i + 1].Prose?)
  }

  lemma {:induction false} SegmentFencesWellFormed(lines: seq<string>)
    ensures FencesWellFormed(Segment(lines))
    ensures |lines| > 0 && IsComment(lines[0]) ==> |Segment(lines)| > 0 && Segment(lines)[0].Prose?
    decreases |lines|
  {
    if |lines| == 0 {
    } else if IsComment(lines[0]) {
      var p := Prose(CommentText(lines[0]));
      SegmentFencesWellFormed(lines[1..]);
      assert Segment(lines) == [p] + Segment(lines[1..]);
    } else {
      var k := RunLength(lines);
      SegmentFencesWellFormed(lines[k..]);
      SegmentRunSplit(lines);
      RunPiecesWellFormed(k, DropLeadingBlanks(lines[..k]), Segment(lines[k..]));
    }
  }

  lemma RunPiecesWellFormed(k: nat, code: seq<string>, tail: seq<Piece>)
    requires |code| > 0 ==> code[0] != ""
    requires FencesWellFormed(tail)
    requires |tail| == 0 || tail[0].Prose?
    ensures FencesWellFormed(Gaps(k) + BlockOf(code) + tail)
  {
    var ps := Gaps(k) + BlockOf(code) + tail;
    forall i | 0 <= i < |ps| && ps[i].Block?
      ensures |ps[i].code| > 0 && ps[i].code[0] != "" && (i + 1 == |ps| || ps[i + 1].Prose?)
    {
      if i >= k + |BlockOf(code)| {
        assert ps[i] == tail[i - k - |BlockOf(code)|];
        if i + 1 < |ps| {
          assert ps[i + 1] == tail[i + 1 - k - |BlockOf(code)|];
        }
      } else {
        assert i == k && ps[i] == Block(code);
        if i + 1 < |ps| {
          assert ps[i + 1] == tail[0];
        }
      }
    }
  }

  // ---------------------------------------------------------------------------
  // Consequences for whole files.
  // ---------------------------------------------------------------------------

  /**
   A file without comment lines renders as one blank line per source line
   followed by a single block of all its code (less the leading blank
   lines), or by nothing when the file holds only blank lines.
   */
  lemma NoCommentFile(lines: seq<string>)
    requires forall i :: 0 <= i < |lines| ==> !IsComment(lines[i])
    ensures var code := DropLeadingBlanks(lines);
      RenderLines(lines) == Blanks(|lines|) + (if |code| > 0 then Fence(code) else [])
  {
    FoldCodeRun(RenderState([], []), lines);
    assert [] + Blanks(|lines|) == Blanks(|lines|);
  }

  /** Shifting the Markdown already emitted does not change what the loop adds after it. */
  lemma {:induction false} FoldShift(m: seq<string>, st: RenderState, lines: seq<string>)
    ensures Fold(RenderState(m + st.markdown, st.code), lines)
         == RenderState(m + Fold(st, lines).markdown, Fold(st, lines).code)
    decreases |lines|
  {
    if |lines| > 0 {
      var st' := Step(st, lines[0]);
      assert Step(RenderState(m + st.markdown, st.code), lines[0]) == RenderState(m + st'.markdown, st'.code) by {
        if IsComment(lines[0]) {
          assert Flush(RenderState(m + st.markdown, st.code)) == m + Flush(st);
        }
      }
      FoldShift(m, st', lines[1..]);
    }
  }

  /**
   A comment line cuts a file in two parts that render independently: the
   Markdown is the first part's, the comment's text, then the second part's.
   */
  lemma CommentCutsFile(before: seq<string>, comment: string, after: seq<string>)
    requires IsComment(comment)
    ensures RenderLines(before + [comment] + after)
         == RenderLines(before) + [CommentText(comment)] + RenderLines(after)
  {
    var empty := RenderState([], []);
    var m := RenderLines(before) + [CommentText(comment)];
    FoldAppend(empty, before + [comment], after);
    FoldAppend(empty, before, [comment]);
    assert Fold(empty, before + [comment]) == RenderState(m, []);
    FoldShift(m, empty, after);
    assert RenderState(m + empty.markdown, empty.code) == RenderState(m, []);
  }

  /** A leading comment line contributes its text and nothing else. */
  lemma CommentFirst(comment: string, after: seq<string>)
    requires IsComment(comment)
    ensures RenderLines([comment] + after) == [CommentText(comment)] + RenderLines(after)
  {
    var empty := RenderState([], []);
    var m := [CommentText(comment)];
    FoldComment(empty, [comment] + after);
    assert ([comment] + after)[1..] == after;
    assert Flush(empty) + m == m;
    FoldShift(m, empty, after);
    assert RenderState(m + empty.markdown, empty.code) == RenderState(m, []);
    var st := Fold(empty, after);
    assert Flush(RenderState(m + st.markdown, st.code)) == m + Flush(st);
  }

  /**
   Comment lines at the head of a file contribute their text, in order,
   ahead of whatever the rest of the file renders to.
   */
  lemma {:induction false} CommentsFirst(comments: seq<string>, texts: seq<string>, rest: seq<string>)
    requires |texts| == |comments|
    requires forall i :: 0 <= i < |comments| ==> IsComment(comments[i]) && CommentText(comments[i]) == texts[i]
    ensures RenderLines(comments + rest) == texts + RenderLines(rest)
    decreases |comments|
  {
    if |comments| == 0 {
      assert comments + rest == rest;
      assert texts == [];
    } else {
      CommentsFirst(comments[1..], texts[1..], rest);
      CommentThenRendered(comments, texts, rest);
    }
  }

  lemma CommentThenRendered(comments: seq<string>, texts: seq<string>, rest: seq<string>)
    requires |comments| > 0 && IsComment(comments[0]) && |texts| == |comments| && CommentText(comments[0]) == texts[0]
    requires RenderLines(comments[1..] + rest) == texts[1..] + RenderLines(rest)
    ensures RenderLines(comments + rest) == texts + RenderLines(rest)
  {
    var c, after := comments[0], comments[1..] + rest;
    assert comments + rest == [c] + after;
    CommentFirst(c, after);
    assert texts == [texts[0]] + texts[1..];
  }
}
