/**
 * Text layout helpers of the article detail view: shortening a url, wrapping
 * a summary to a column width, and drawing the summary in a box. Display
 * widths come from a per-character oracle (`width`), the Unicode width
 * table with unknown characters counted as one column.
 */
module ArticleDetail {
  import Text
  import Numeric

  /** The box title, 12 columns wide. */
  const TITLE: string := " AI Summary "

  /** `truncate_url`: unchanged when short enough, else a prefix and "..." in `max(maxLen, 3)` characters. */
  function TruncateUrl(url: string, maxLen: nat): (r: string)
    ensures |url| <= maxLen ==> r == url
    ensures |url| > maxLen ==>
      && |r| == Numeric.Max(maxLen, 3)
      && Text.EndsWith(r, "...")
      && r[..|r| - 3] == url[..|r| - 3]
  {
    if |url| <= maxLen then url
    else url[..Numeric.SatSub(maxLen, 3)] + "..."
  }

  /** Display width of a string: the sum of its characters' widths. */
  function Width(s: string, width: char -> nat): nat
  {
    if s == [] then 0 else Width(s[..|s| - 1], width) + width(s[|s| - 1])
  }

  lemma {:induction false} WidthAppend(a: string, b: string, width: char -> nat)
    ensures Width(a + b, width) == Width(a, width) + Width(b, width)
    decreases |b|
  {
    if b == [] {
      assert a + b == a;
    } else {
      assert (a + b)[..|a + b| - 1] == a + b[..|b| - 1];
      WidthAppend(a, b[..|b| - 1], width);
    }
  }

  /** A wrapped line that fits, or holds one character too wide for any line. */
  predicate Fits(line: string, maxWidth: nat, width: char -> nat)
  {
    Width(line, width) <= maxWidth || |line| == 1
  }

  /** The lines finished so far, the line being filled and its width. */
  datatype WrapState = WrapState(done: seq<string>, current: string, currentWidth: nat)

  /** One character: start a new line first when it would overflow the current one. */
  function WrapStep(st: WrapState, ch: char, maxWidth: nat, width: char -> nat): WrapState
  {
    if st.currentWidth + width(ch) > maxWidth then
      WrapState(st.done + (if st.current != [] then [st.current] else []), [ch], width(ch))
    else
      WrapState(st.done, st.current + [ch], st.currentWidth + width(ch))
  }

  /** The state after the characters of `p`. */
  function WrapFold(p: string, maxWidth: nat, width: char -> nat): WrapState
  {
    if p == [] then WrapState([], [], 0)
    else WrapStep(WrapFold(p[..|p| - 1], maxWidth, width), p[|p| - 1], maxWidth, width)
  }

  /** The lines of one non-empty paragraph. */
  function WrapParagraph(p: string, maxWidth: nat, width: char -> nat): seq<string>
  {
    var st := WrapFold(p, maxWidth, width);
    st.done + (if st.current != [] then [st.current] else [])
  }

  /** The lines of the paragraphs in order; an empty paragraph gives one empty line. */
  function WrapParagraphs(ps: seq<string>, maxWidth: nat, width: char -> nat): seq<string>
  {
    if ps == [] then []
    else
      var last := ps[|ps| - 1];
      WrapParagraphs(ps[..|ps| - 1], maxWidth, width) + (if last == [] then [[]] else WrapParagraph(last, maxWidth, width))
  }

  /** `wrap_text_unicode` as a specification: never an empty list. */
  function WrapText(text: string, maxWidth: nat, width: char -> nat): (r: seq<string>)
    ensures |r| >= 1
  {
    var lines := WrapParagraphs(Text.Lines(text), maxWidth, width);
    if lines == [] then [[]] else lines
  }

  /** While wrapping, the recorded width is the current line's, and the current line is empty only before the first character. */
  lemma {:induction false} WrapFoldWidth(p: string, maxWidth: nat, width: char -> nat)
    ensures WrapFold(p, maxWidth, width).currentWidth == Width(WrapFold(p, maxWidth, width).current, width)
    ensures p != [] ==> WrapFold(p, maxWidth, width).current != []
  {
    if p != [] {
      var prefix, ch := p[..|p| - 1], p[|p| - 1];
      WrapFoldWidth(prefix, maxWidth, width);
      var st := WrapFold(prefix, maxWidth, width);
      if st.currentWidth + width(ch) > maxWidth {
        assert [ch][..0] == [];
      } else {
        assert (st.current + [ch])[..|st.current|] == st.current;
      }
    }
  }

  /** While wrapping, the finished lines and the current one spell out what was read. */
  lemma {:induction false} WrapFoldJoins(p: string, maxWidth: nat, width: char -> nat)
    ensures Text.Concat(WrapFold(p, maxWidth, width).done) + WrapFold(p, maxWidth, width).current == p
  {
    if p != [] {
      var prefix, ch := p[..|p| - 1], p[|p| - 1];
      WrapFoldJoins(prefix, maxWidth, width);
      var st := WrapFold(prefix, maxWidth, width);
      assert prefix + [ch] == p;
      if st.currentWidth + width(ch) > maxWidth {
        var pushed := if st.current != [] then [st.current] else [];
        Text.ConcatAppend(st.done, pushed);
        assert Text.Concat(pushed) == st.current by {
          if st.current != [] {
            assert pushed[1..] == [];
          }
        }
      }
    }
  }

  /** While wrapping, every finished line is non-empty and fits, and so does the current one. */
  lemma {:induction false} WrapFoldFits(p: string, maxWidth: nat, width: char -> nat)
    ensures var st := WrapFold(p, maxWidth, width);
      && (forall k :: 0 <= k < |st.done| ==> st.done[k] != [] && Fits(st.done[k], maxWidth, width))
      && Fits(st.current, maxWidth, width)
  {
    if p != [] {
      var prefix, ch := p[..|p| - 1], p[|p| - 1];
      WrapFoldFits(prefix, maxWidth, width);
      WrapFoldWidth(prefix, maxWidth, width);
      var st := WrapFold(prefix, maxWidth, width);
      if st.currentWidth + width(ch) <= maxWidth {
        assert (st.current + [ch])[..|st.current|] == st.current;
      }
    }
  }

  /** A paragraph's lines joined give the paragraph back. */
  lemma WrapParagraphJoins(p: string, maxWidth: nat, width: char -> nat)
    ensures Text.Concat(WrapParagraph(p, maxWidth, width)) == p
  {
    var st := WrapFold(p, maxWidth, width);
    WrapFoldJoins(p, maxWidth, width);
    var tail := if st.current != [] then [st.current] else [];
    Text.ConcatAppend(st.done, tail);
    if st.current != [] {
      assert tail[1..] == [];
    }
  }

  /** Every line of a paragraph is non-empty and fits, unless it is a single over-wide character. */
  lemma WrapParagraphFits(p: string, maxWidth: nat, width: char -> nat)
    ensures forall k :: 0 <= k < |WrapParagraph(p, maxWidth, width)| ==>
      WrapParagraph(p, maxWidth, width)[k] != [] && Fits(WrapParagraph(p, maxWidth, width)[k], maxWidth, width)
  {
    WrapFoldFits(p, maxWidth, width);
  }

  /** Every line of the wrapped text fits, unless it is a single over-wide character. */
  lemma {:induction false} WrapParagraphsFit(ps: seq<string>, maxWidth: nat, width: char -> nat)
    ensures forall k :: 0 <= k < |WrapParagraphs(ps, maxWidth, width)| ==> Fits(WrapParagraphs(ps, maxWidth, width)[k], maxWidth, width)
  {
    if ps != [] {
      WrapParagraphsFit(ps[..|ps| - 1], maxWidth, width);
      WrapParagraphFits(ps[|ps| - 1], maxWidth, width);
    }
  }

  /** `wrap_text_unicode`. */
  method WrapTextUnicode(text: string, maxWidth: nat, width: char -> nat) returns (result: seq<string>)
    ensures result == WrapText(text, maxWidth, width)
  {
    result := [];
    var paragraphs := Text.Lines(text);
    for k := 0 to |paragraphs|
      invariant result == WrapParagraphs(paragraphs[..k], maxWidth, width)
    {
      var paragraph := paragraphs[k];
      assert paragraphs[..k + 1][..k] == paragraphs[..k];
      if paragraph == [] {
        result := result + [[]];
      } else {
        result := AppendParagraph(result, paragraph, maxWidth, width);
      }
    }
    assert paragraphs[..|paragraphs|] == paragraphs;
    if result == [] {
      result := result + [[]];
    }
  }

  /** The inner loop of `wrap_text_unicode`: one paragraph's lines pushed onto `result`. */
  method AppendParagraph(start: seq<string>, paragraph: string, maxWidth: nat, width: char -> nat) returns (result: seq<string>)
    ensures result == start + WrapParagraph(paragraph, maxWidth, width)
  {
    result := start;
    var currentLine: string := [];
    var currentWidth: nat := 0;
    for i := 0 to |paragraph|
      invariant |start| <= |result| && result[..|start|] == start
      invariant WrapState(result[|start|..], currentLine, currentWidth) == WrapFold(paragraph[..i], maxWidth, width)
    {
      var ch := paragraph[i];
      var chWidth := width(ch);
      assert paragraph[..i + 1][..i] == paragraph[..i];
      if currentWidth + chWidth > maxWidth {
        if currentLine != [] {
          result := result + [currentLine];
        }
        currentLine := [];
        currentWidth := 0;
      }
      currentLine := currentLine + [ch];
      currentWidth := currentWidth + chWidth;
    }
    assert paragraph[..|paragraph|] == paragraph;
    if currentLine != [] {
      result := result + [currentLine];
    }
  }

  /** `c` repeated `n` times. */
  function Repeat(c: char, n: nat): (r: string)
    ensures |r| == n && forall i :: 0 <= i < n ==> r[i] == c
  {
    if n == 0 then [] else Repeat(c, n - 1) + [c]
  }

  lemma {:induction false} RepeatWidth(c: char, n: nat, width: char -> nat)
    ensures Width(Repeat(c, n), width) == n * width(c)
  {
    if n > 0 {
      assert Repeat(c, n)[..n - 1] == Repeat(c, n - 1);
      RepeatWidth(c, n - 1, width);
    }
  }

  /** The column arithmetic of `render_summary_box`. */
  datatype BoxLayout = BoxLayout(innerWidth: nat, boxWidth: nat, leftDashes: nat, rightDashes: nat)

  function Layout(maxWidth: nat, titleWidth: nat): (b: BoxLayout)
    ensures b.innerWidth >= 20 && b.innerWidth >= maxWidth - 4
    ensures b.boxWidth == b.innerWidth + 2
    ensures b.leftDashes + b.rightDashes == Numeric.SatSub(b.boxWidth, titleWidth)
    ensures b.leftDashes <= b.rightDashes <= b.leftDashes + 1
  {
    var inner := Numeric.Max(Numeric.SatSub(maxWidth, 4), 20);
    var boxWidth := inner + 2;
    var remaining := Numeric.SatSub(boxWidth, titleWidth);
    var left := remaining / 2;
    BoxLayout(inner, boxWidth, left, remaining - left)
  }

  /** The rows of `render_summary_box`: top border with the title, one row per wrapped line, bottom border. */
  function SummaryBox(summary: string, maxWidth: nat, width: char -> nat): seq<string>
  {
    var b := Layout(maxWidth, Width(TITLE, width));
    var top := "╭" + Repeat('─', b.leftDashes) + TITLE + Repeat('─', b.rightDashes) + "╮";
    var body := WrapText(summary, b.innerWidth, width);
    var rows := seq(|body|, i requires 0 <= i < |body| =>
      "│ " + body[i] + Repeat(' ', Numeric.SatSub(b.innerWidth, Width(body[i], width))) + " │");
    [top] + rows + ["╰" + Repeat('─', b.boxWidth) + "╯"]
  }

  /** The width table the box relies on: borders, spaces and the title's letters one column, nothing wider than two. */
  predicate NarrowBox(width: char -> nat)
  {
    && width('╭') == 1 && width('╮') == 1 && width('╰') == 1 && width('╯') == 1
    && width('─') == 1 && width('│') == 1 && width(' ') == 1
    && width('A') == 1 && width('I') == 1 && width('S') == 1 && width('u') == 1
    && width('m') == 1 && width('a') == 1 && width('r') == 1 && width('y') == 1
    && forall c :: width(c) <= 2
  }

  /** A string of one-column characters is as wide as it is long. */
  lemma {:induction false} OneColumnWidth(s: string, width: char -> nat)
    requires forall i :: 0 <= i < |s| ==> width(s[i]) == 1
    ensures Width(s, width) == |s|
  {
    if s != [] {
      OneColumnWidth(s[..|s| - 1], width);
    }
  }

  lemma TitleWidth(width: char -> nat)
    requires NarrowBox(width)
    ensures Width(TITLE, width) == 12
  {
    OneColumnWidth(TITLE, width);
  }

  /** Widths of short literal pieces. */
  lemma PieceWidths(width: char -> nat)
    requires NarrowBox(width)
    ensures Width("╭", width) == 1 && Width("╮", width) == 1 && Width("╰", width) == 1 && Width("╯", width) == 1
    ensures Width("│ ", width) == 2 && Width(" │", width) == 2
  {
    assert "╭"[..0] == [] && "╮"[..0] == [] && "╰"[..0] == [] && "╯"[..0] == [];
    assert "│ "[..1] == "│" && "│"[..0] == [];
    assert " │"[..1] == " " && " "[..0] == [];
  }

  /** A content row is as wide as the box's outer width when its line fits. */
  lemma RowWidth(line: string, inner: nat, width: char -> nat)
    requires NarrowBox(width) && Width(line, width) <= inner
    ensures Width("│ " + line + Repeat(' ', Numeric.SatSub(inner, Width(line, width))) + " │", width) == inner + 4
  {
    PieceWidths(width);
    WidthAppend("│ " + line + Repeat(' ', Numeric.SatSub(inner, Width(line, width))), " │", width);
    WidthAppend("│ " + line, Repeat(' ', Numeric.SatSub(inner, Width(line, width))), width);
    WidthAppend("│ ", line, width);
    RepeatWidth(' ', Numeric.SatSub(inner, Width(line, width)), width);
  }

  /** The top border is as wide as the box's outer width. */
  lemma TopWidth(b: BoxLayout, width: char -> nat)
    requires NarrowBox(width) && b.leftDashes + b.rightDashes + 12 == b.boxWidth
    ensures Width("╭" + Repeat('─', b.leftDashes) + TITLE + Repeat('─', b.rightDashes) + "╮", width) == b.boxWidth + 2
  {
    PieceWidths(width);
    TitleWidth(width);
    var l, r := Repeat('─', b.leftDashes), Repeat('─', b.rightDashes);
    WidthAppend("╭" + l + TITLE + r, "╮", width);
    WidthAppend("╭" + l + TITLE, r, width);
    WidthAppend("╭" + l, TITLE, width);
    WidthAppend("╭", l, width);
    RepeatWidth('─', b.leftDashes, width);
    RepeatWidth('─', b.rightDashes, width);
  }

  /** The bottom border is as wide as the box's outer width. */
  lemma BottomWidth(n: nat, width: char -> nat)
    requires NarrowBox(width)
    ensures Width("╰" + Repeat('─', n) + "╯", width) == n + 2
  {
    PieceWidths(width);
    WidthAppend("╰" + Repeat('─', n), "╯", width);
    WidthAppend("╰", Repeat('─', n), width);
    RepeatWidth('─', n, width);
  }

  /** With one-column borders, every row of the summary box has the same width: the box is a rectangle. */
  lemma SummaryBoxIsRectangular(summary: string, maxWidth: nat, width: char -> nat)
    requires NarrowBox(width)
    ensures var rows := SummaryBox(summary, maxWidth, width);
      var outer := Layout(maxWidth, 12).boxWidth + 2;
      |rows| >= 3 && forall k :: 0 <= k < |rows| ==> Width(rows[k], width) == outer
  {
    TitleWidth(width);
    var b := Layout(maxWidth, 12);
    var body := WrapText(summary, b.innerWidth, width);
    var rows := SummaryBox(summary, maxWidth, width);
    TopWidth(b, width);
    BottomWidth(b.boxWidth, width);
    WrapParagraphsFit(Text.Lines(summary), b.innerWidth, width);
    forall j | 1 <= j <= |body|
      ensures Width(rows[j], width) == b.boxWidth + 2
    {
      var k := j - 1;
      assert Fits(body[k], b.innerWidth, width) by {
        if body != WrapParagraphs(Text.Lines(summary), b.innerWidth, width) {
          assert body == [[]];
        }
      }
      if |body[k]| == 1 {
        assert body[k] == [] + [body[k][0]];
        assert body[k][..0] == [];
      }
      RowWidth(body[k], b.innerWidth, width);
    }
  }
}
