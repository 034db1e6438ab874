/**
 Rendering of an example's source text as Markdown (`render_example_md`):
 comment lines become prose, the code between them becomes fenced blocks,
 and a leading `---` frontmatter block is cut off the assembled text.
 */
module Renderer {
  import opened PyStr
  import opened Seqs
  import opened Wrappers

  const FenceOpen: string := "```python"
  const FenceClose: string := "```"

  /** A prose line: exactly `#`, or starting with `# ` (so `#x` is code). */
  predicate IsComment(line: string) {
    line == "#" || StartsWith(line, "# ")
  }

  /** What a comment line contributes to the Markdown: `line[2:]`. */
  function CommentText(line: string): (r: string)
    requires IsComment(line)
    ensures line == "#" ==> r == ""
    ensures line != "#" ==> line == "# " + r
  {
    SliceFrom(line, 2)
  }

  /** The lines a flushed code buffer adds: opening fence, the code, closing fence, a blank line. */
  function Fence(code: seq<string>): (r: seq<string>) {
    [FenceOpen] + code + [FenceClose, ""]
  }

  function Blanks(n: nat): (r: seq<string>)
    ensures |r| == n && forall i :: 0 <= i < n ==> r[i] == ""
  {
    if n == 0 then [] else [""] + Blanks(n - 1)
  }

  // ---------------------------------------------------------------------------
  // The loop over the lines, as the source runs it.
  // ---------------------------------------------------------------------------

  /** The loop's two accumulators: Markdown emitted so far and code not yet fenced. */
  datatype RenderState = RenderState(markdown: seq<string>, code: seq<string>)

  /** Emit the pending code, if any, as a fenced block. */
  function Flush(st: RenderState): (r: seq<string>)
    ensures |st.code| == 0 ==> r == st.markdown
    ensures |st.code| > 0 ==> r == st.markdown + Fence(st.code)
  {
    if |st.code| > 0 then st.markdown + Fence(st.code) else st.markdown
  }

  /** One iteration of the loop. */
  function Step(st: RenderState, line: string): (r: RenderState)
    ensures IsComment(line) ==> r.code == []
    ensures !IsComment(line) ==> r.markdown == st.markdown + [""]
    ensures !IsComment(line) ==> r.code == (if |st.code| > 0 || line != "" then st.code + [line] else [])
  {
    if IsComment(line) then
      RenderState(Flush(st) + [CommentText(line)], [])
    else
      RenderState(st.markdown + [""], if |st.code| > 0 || |line| > 0 then st.code + [line] else st.code)
  }

  function Fold(st: RenderState, lines: seq<string>): (r: RenderState)
    decreases |lines|
  {
    if |lines| == 0 then st else Fold(Step(st, lines[0]), lines[1..])
  }

  /** The Markdown lines for the lines of a source file, before they are joined. */
  function RenderLines(lines: seq<string>): (r: seq<string>) {
    Flush(Fold(RenderState([], []), lines))
  }

  // ---------------------------------------------------------------------------
  // Frontmatter: `^---$` under re.MULTILINE, written out by hand.
  // ---------------------------------------------------------------------------

  /** `^` under MULTILINE: the start of the text or just after a newline. */
  predicate LineStartAt(text: string, p: nat) {
    p == 0 || (p <= |text| && text[p - 1] == '\n')
  }

  /** `$` under MULTILINE: the end of the text or just before a newline. */
  predicate LineEndAt(text: string, p: nat) {
    p == |text| || (p < |text| && text[p] == '\n')
  }

  /** A standalone `---` line begins at offset `p`. */
  predicate MarkerAt(text: string, p: nat) {
    p + 3 <= |text| && LineStartAt(text, p) && text[p..p + 3] == "---" && LineEndAt(text, p + 3)
  }

  /**
   `_RE_FRONTMATTER.search(text, from)`: the leftmost marker at or after
   `from`. Python clamps a start past the end to the end, where a
   three-character marker cannot fit either, so None is the same answer.
   */
  function FindMarker(text: string, from: nat): (r: Option<nat>)
    ensures r.Some? ==> from <= r.value && MarkerAt(text, r.value)
    ensures r.Some? ==> forall q :: from <= q < r.value ==> !MarkerAt(text, q)
    ensures r.None? ==> forall q :: from <= q ==> !MarkerAt(text, q)
    decreases |text| - from
  {
    if from + 3 > |text| then None
    else if MarkerAt(text, from) then Some(from)
    else FindMarker(text, from + 1)
  }

  /**
   The frontmatter post-pass: when the text opens with a `---` line, cut
   everything up to the end of the next `---` line found from offset 4 on
   (the newline after it stays); with no second marker, keep the text.
   */
  function StripFrontmatter(text: string): (r: string)
    ensures |r| <= |text| && r == text[|text| - |r|..]
    ensures r != text <==> MarkerAt(text, 0) && exists p :: 4 <= p && MarkerAt(text, p)
    ensures r != text ==>
      exists p :: 4 <= p && MarkerAt(text, p) && r == text[p + 3..] &&
        forall q :: 4 <= q < p ==> !MarkerAt(text, q)
  {
    if MarkerAt(text, 0) then
      match FindMarker(text, 4)
      case Some(p) => text[p + 3..]
      case None => text
    else text
  }

  /**
   `render_example_md` on the text `f.read()` returns for the example's
   file (text mode has already turned a lone `\r` into a newline).
   */
  function Render(content: string): (r: string) {
    StripFrontmatter(Join(RenderLines(SplitNewlines(content)), "\n"))
  }

  // ---------------------------------------------------------------------------
  // Reference: the Markdown described block by block.
  // ---------------------------------------------------------------------------

  /** A unit of the output: one prose line, one separator line, or one fenced code block. */
  datatype Piece = Prose(text: string) | Gap | Block(code: seq<string>)

  function EmitPiece(p: Piece): (r: seq<string>) {
    match p
    case Prose(t) => [t]
    case Gap => [""]
    case Block(c) => Fence(c)
  }

  function Emit(pieces: seq<Piece>): (r: seq<string>)
    decreases |pieces|
  {
    if |pieces| == 0 then [] else EmitPiece(pieces[0]) + Emit(pieces[1..])
  }

  /** The length of the run of non-comment lines the input starts with. */
  function RunLength(lines: seq<string>): (k: nat)
    ensures k <= |lines|
    ensures forall i :: 0 <= i < k ==> !IsComment(lines[i])
    ensures k == |lines| || IsComment(lines[k])
    decreases |lines|
  {
    if |lines| == 0 || IsComment(lines[0]) then 0 else 1 + RunLength(lines[1..])
  }

  /** A run of code without its leading blank lines. */
  function DropLeadingBlanks(code: seq<string>): (r: seq<string>)
    ensures |r| <= |code| && r == code[|code| - |r|..]
    ensures forall i :: 0 <= i < |code| - |r| ==> code[i] == ""
    ensures |r| > 0 ==> r[0] != ""
    decreases |code|
  {
    if |code| > 0 && code[0] == "" then DropLeadingBlanks(code[1..]) else code
  }

  function Gaps(n: nat): (r: seq<Piece>)
    ensures |r| == n && forall i :: 0 <= i < n ==> r[i] == Gap
  {
    if n == 0 then [] else [Gap] + Gaps(n - 1)
  }

  /** A code block, unless there is no code to fence. */
  function BlockOf(code: seq<string>): (r: seq<Piece>)
    ensures |code| == 0 ==> r == []
    ensures |code| > 0 ==> r == [Block(code)]
  {
    if |code| > 0 then [Block(code)] else []
  }

  /**
   The output block by block: each comment line is a prose line; each
   maximal run of code lines gives one separator per line and then the
   run, less its leading blank lines, as a single fenced block.
   */
  function Segment(lines: seq<string>): (r: seq<Piece>)
    decreases |lines|
  {
    if |lines| == 0 then []
    else if IsComment(lines[0]) then [Prose(CommentText(lines[0]))] + Segment(lines[1..])
    else
      var k := RunLength(lines);
      Gaps(k) + BlockOf(DropLeadingBlanks(lines[..k])) + Segment(lines[k..])
  }
}
