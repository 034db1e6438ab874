/** The renderer on small concrete files, worked out line by line. */
module RendererExamples {
  import opened PyStr
  import opened Wrappers
  import opened Renderer
  import opened RendererProofs
  import FrontmatterProofs

  lemma CommentLine(text: string)
    ensures IsComment("# " + text) && CommentText("# " + text) == text
  {
    assert ("# " + text)[..2] == "# ";
  }

  lemma CodeLine(line: string)
    requires |line| > 0 && line[0] != '#'
    ensures !IsComment(line)
  {
  }

  /** An empty file renders to the empty string. */
  lemma EmptyFileRendersEmpty()
    ensures Render("") == ""
  {
    assert SplitNewlines("") == [""];
    assert !IsComment("");
    assert RenderLines([""]) == [""];
  }

  /** A line as `re.split` leaves it: no `\n`, and no `\r` at the end. */
  predicate PlainLine(s: string) {
    '\n' !in s && (|s| == 0 || s[|s| - 1] != '\r')
  }

  lemma CommentedPlainLine(text: string)
    requires PlainLine(text)
    ensures PlainLine("# " + text)
  {
    var c := "# " + text;
    assert forall k :: 2 <= k < |c| ==> c[k] == text[k - 2];
    assert c[0] == '#' && c[1] == ' ';
  }

  /** Joined plain lines split back into the same lines. */
  lemma SplitsBack(lines: seq<string>)
    requires |lines| > 0
    requires forall i :: 0 <= i < |lines| ==> PlainLine(lines[i])
    ensures SplitNewlines(Join(lines, "\n")) == lines
  {
    SplitJoinedLines(lines);
  }

  lemma RenderTitleLines(title: string, stmt: string)
    requires stmt != "" && !IsComment(stmt)
    ensures RenderLines(["# " + title, stmt, ""])
         == [title, "", "", FenceOpen, stmt, "", FenceClose, ""]
  {
    var code := [stmt, ""];
    assert RenderLines(["# " + title, stmt, ""]) == [title] + RenderLines(code) by {
      CommentLine(title);
      assert ["# " + title, stmt, ""] == ["# " + title] + code;
      CommentsFirst(["# " + title], [title], code);
    }
    FencedWhole(code);
    assert Blanks(2) == ["", ""];
  }

  /**
   A title comment followed by one statement and a final newline: the
   trailing empty line is code once the statement is pending, so it stays
   in the block, and each code line has put a blank line before the fence.
   */
  lemma TitleThenCode(title: string, stmt: string)
    requires PlainLine(title) && title != "---"
    requires PlainLine(stmt) && stmt != "" && !IsComment(stmt)
    ensures Render(Join(["# " + title, stmt, ""], "\n"))
         == Join([title, "", "", FenceOpen, stmt, "", FenceClose, ""], "\n")
  {
    var lines := ["# " + title, stmt, ""];
    CommentedPlainLine(title);
    SplitsBack(lines);
    RenderTitleLines(title, stmt);
    FrontmatterProofs.RenderKeepsText(Join(lines, "\n"));
  }

  lemma RenderCommentedFrontmatterLines(key: string, body: string)
    requires body != "" && !IsComment(body)
    ensures RenderLines(["# ---", "# " + key, "# ---", body])
         == ["---", key, "---", "", FenceOpen, body, FenceClose, ""]
  {
    var comments := ["# ---", "# " + key, "# ---"];
    var texts := ["---", key, "---"];
    CommentLine("---");
    CommentLine(key);
    assert "# ---" == "# " + "---";
    assert ["# ---", "# " + key, "# ---", body] == comments + [body];
    CommentsFirst(comments, texts, [body]);
    NoCommentFile([body]);
    assert DropLeadingBlanks([body]) == [body];
    assert Blanks(1) == [""];
  }

  /**
   Frontmatter written as comments becomes a `---` block in the Markdown
   and is cut away, up to and including the second `---` line.
   */
  lemma FrontmatterInComments(key: string, body: string)
    requires PlainLine(key) && key != "---"
    requires PlainLine(body) && body != "" && !IsComment(body)
    ensures Render(Join(["# ---", "# " + key, "# ---", body], "\n"))
         == "\n" + Join(["", FenceOpen, body, FenceClose, ""], "\n")
  {
    var lines := ["# ---", "# " + key, "# ---", body];
    CommentedPlainLine("---");
    CommentedPlainLine(key);
    assert "# ---" == "# " + "---";
    SplitsBack(lines);
    RenderCommentedFrontmatterLines(key, body);
    var md := ["---", key, "---", "", FenceOpen, body, FenceClose, ""];
    assert md[3..] == ["", FenceOpen, body, FenceClose, ""];
    FrontmatterProofs.RenderStripsFrontmatter(Join(lines, "\n"), 2);
  }

  /** Comment-free code that opens with a non-blank line is fenced whole, after one blank line per line. */
  lemma FencedWhole(lines: seq<string>)
    requires |lines| > 0 && lines[0] != ""
    requires forall i :: 0 <= i < |lines| ==> !IsComment(lines[i])
    ensures RenderLines(lines) == Blanks(|lines|) + Fence(lines)
  {
    NoCommentFile(lines);
  }

  lemma RenderRawFrontmatterLines(key: string, body: string)
    requires key != "" && !IsComment(key)
    requires body != "" && !IsComment(body)
    ensures RenderLines(["---", key, "---", body])
         == ["", "", "", "", FenceOpen, "---", key, "---", body, FenceClose, ""]
  {
    var lines := ["---", key, "---", body];
    assert forall i :: 0 <= i < |lines| ==> !IsComment(lines[i]) by {
      CodeLine("---");
    }
    FencedWhole(lines);
    assert Blanks(4) == ["", "", "", ""];
  }

  /**
   Frontmatter left as plain Python lines is code: every line is fenced,
   the Markdown opens with blank lines, and the post-pass finds no `---`
   at the start, so nothing is cut.
   */
  lemma RawFrontmatterKept(key: string, body: string)
    requires PlainLine(key) && key != "" && !IsComment(key)
    requires PlainLine(body) && body != "" && !IsComment(body)
    ensures Render(Join(["---", key, "---", body], "\n"))
         == Join(["", "", "", "", FenceOpen, "---", key, "---", body, FenceClose, ""], "\n")
  {
    var lines := ["---", key, "---", body];
    SplitsBack(lines);
    RenderRawFrontmatterLines(key, body);
    FrontmatterProofs.RenderKeepsText(Join(lines, "\n"));
  }
}
