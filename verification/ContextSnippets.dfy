/** Which lines of a span survive a line cap: a window around the anchor. */
module ContextSnippets {
  import opened Wrappers
  import opened ContextDomain

  datatype Window = Window(start: int, end: int, truncated: bool) {
    function Length(): int { end - start + 1 }

    predicate Contains(line: int) { start <= line <= end }
  }

  function Clamp(anchor: Option<int>, start: int, end: int): int {
    Min(Max(anchor.GetOr(start), start), end)
  }

  function TrimWindow(start: int, end: int, maxLines: int, anchor: Option<int>): Window {
    if end - start + 1 <= maxLines then Window(start, end, false)
    else
      var from := Max(start, Clamp(anchor, start, end) - maxLines / 2);
      var to := from + maxLines - 1;
      if to > end then Window(Max(start, end - maxLines + 1), end, true) else Window(from, to, true)
  }

  /** The window lies in the span, is at most the cap long and exactly that when it truncates, and keeps the anchor. */
  lemma WindowKeepsAnchor(start: int, end: int, maxLines: int, anchor: Option<int>)
    requires start <= end && maxLines >= 1
    ensures var w := TrimWindow(start, end, maxLines, anchor);
      && start <= w.start <= w.end <= end
      && w.Length() <= maxLines
      && (w.truncated <==> end - start + 1 > maxLines)
      && w.Length() == (if w.truncated then maxLines else end - start + 1)
      && w.Contains(Clamp(anchor, start, end))
  {
  }

  /** A smaller cap gives a window inside that of a larger one, so a second, stricter trim stays inside the first. */
  lemma WindowsNest(start: int, end: int, small: int, large: int, anchor: Option<int>)
    requires start <= end && 1 <= small <= large
    ensures var w, v := TrimWindow(start, end, small, anchor), TrimWindow(start, end, large, anchor);
      v.start <= w.start && w.end <= v.end
  {
  }

  /**
    * The lead-in is kept whenever half a window reaches back to it; so without an anchor it is the first lines that
    * survive.
    */
  lemma LeadInIsKept(start: int, end: int, maxLines: int, anchor: Option<int>)
    requires start <= end && maxLines >= 1 && Clamp(anchor, start, end) - start <= maxLines / 2
    ensures TrimWindow(start, end, maxLines, anchor).start == start
    ensures Clamp(None, start, end) == start
  {
  }

  ghost function Away(a: int, b: int): int { if a <= b then b - a else a - b }

  /** Of all windows as long as the cap, the one chosen begins nearest to half a cap before the anchor. */
  lemma WindowIsNearest(start: int, end: int, maxLines: int, anchor: Option<int>, from: int)
    requires 1 <= maxLines < end - start + 1 && start <= from <= end - maxLines + 1
    ensures var w, ideal := TrimWindow(start, end, maxLines, anchor), Clamp(anchor, start, end) - maxLines / 2;
      && start <= w.start <= end - maxLines + 1 && w.end == w.start + maxLines - 1
      && Away(w.start, ideal) <= Away(from, ideal) && (from != w.start ==> Away(w.start, ideal) < Away(from, ideal))
  {
  }

  /** The lines of a text, cut at its newlines. */
  ghost function LinesOf(text: string): (lines: seq<string>)
    ensures lines != []
  {
    if text == "" then [""]
    else
      var rest := LinesOf(text[1..]);
      if text[0] == '\n' then [""] + rest else [[text[0]] + rest[0]] + rest[1..]
  }

  lemma {:induction false} LinesOfPlain(line: string, text: string)
    requires '\n' !in line
    ensures LinesOf(line + text) == [line + LinesOf(text)[0]] + LinesOf(text)[1..]
    decreases |line|
  {
    var first, others := LinesOf(text)[0], LinesOf(text)[1..];
    if line == "" {
      assert line + text == text && line + first == first;
    } else {
      assert line == [line[0]] + line[1..] && (line + text)[1..] == line[1..] + text;
      LinesOfPlain(line[1..], text);
      assert (line + text)[0] == line[0] && line[0] in line;
      var rest := LinesOf(line[1..] + text);
      assert rest[0] == line[1..] + first && rest[1..] == others;
      assert [line[0]] + (line[1..] + first) == line + first;
    }
  }

  /** Cutting the joined text at its newlines gives the lines back. */
  lemma {:induction false} JoinRoundTrip(lines: seq<string>)
    requires lines != [] && forall line | line in lines :: '\n' !in line
    ensures LinesOf(JoinLines(lines)) == lines
    decreases |lines|
  {
    assert lines[0] in lines;
    if |lines| == 1 {
      LinesOfPlain(lines[0], "");
      assert lines[0] + "" == lines[0] && lines == [lines[0]];
    } else {
      var rest := JoinLines(lines[1..]);
      JoinRoundTrip(lines[1..]);
      LinesOfPlain(lines[0], "\n" + rest);
      assert ("\n" + rest)[1..] == rest;
      assert JoinLines(lines) == lines[0] + ("\n" + rest);
      assert lines[0] + "" == lines[0] && lines == [lines[0]] + lines[1..];
    }
  }

  function JoinLines(lines: seq<string>): string {
    if lines == [] then "" else if |lines| == 1 then lines[0] else lines[0] + "\n" + JoinLines(lines[1..])
  }

  datatype Snippet = Snippet(content: string, window: Window)

  /** `file` is the text of a readable file as lines; `None` stands for a file that cannot be read as text. */
  function Extract(file: Option<seq<string>>, startLine: int, endLine: int, maxLines: int, anchor: Option<int>)
    : (r: Option<Snippet>)
    requires maxLines >= 1
    ensures r.Some? <==> file.Some? && 1 <= startLine <= Min(endLine, |file.value|)
    ensures r.Some? ==>
      var w := r.value.window;
      && w == TrimWindow(startLine, Min(endLine, |file.value|), maxLines, anchor)
      && startLine <= w.start <= w.end <= Min(endLine, |file.value|) && w.Length() <= maxLines
      && r.value.content == JoinLines(file.value[w.start - 1..w.end])
  {
    if file.None? || startLine < 1 || startLine > |file.value| || Min(endLine, |file.value|) < startLine then None
    else
      var clampedEnd := Min(endLine, |file.value|);
      var w := TrimWindow(startLine, clampedEnd, maxLines, anchor);
      WindowKeepsAnchor(startLine, clampedEnd, maxLines, anchor);
      Some(Snippet(JoinLines(file.value[w.start - 1..w.end]), w))
  }
}
