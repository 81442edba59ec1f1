/** What a bundle takes of each candidate, in terms of what was taken before it and of the limits alone. */
module ContextReport {
  import opened Wrappers
  import opened ContextDomain
  import opened ContextSnippets
  import opened ContextBudget

  // ----- The caps on one item

  /** The whole number next to zero of a fraction. */
  ghost predicate IsWhole(x: real, n: int) {
    if x >= 0.0 then n as real <= x < (n + 1) as real else (n - 1) as real < x <= n as real
  }

  ghost predicate IsReserved(total: int, fraction: real, part: int) { IsWhole(total as real * fraction, part) }

  /** What the limits allow one item: the usual share, or for a target the reserved part if that is more. */
  ghost predicate IsAllowed(perItem: int, total: int, reserved: real, target: bool, n: int) {
    if !target then n == perItem
    else exists part :: IsReserved(total, reserved, part) && n == if part > perItem then part else perItem
  }

  ghost predicate IsLeast(n: int, bounds: set<int>) { n in bounds && forall x | x in bounds :: n <= x }

  ghost predicate OfTarget(c: Candidate) { c.kind in {TargetSymbolItem, TargetFileRegion} }

  /** The lines an item may take: what it is allowed, what is left, and for a far one what is left for those. */
  ghost predicate IsLineCap(l: Limits, items: seq<Item>, c: Candidate, n: int) {
    exists allowed :: IsAllowed(l.maxLinesPerItem, l.maxLines, l.targetReservation, OfTarget(c), allowed)
      && IsLeast(n, {allowed, l.maxLines - TotalLines(items)}
                    + if c.distance >= 2 && l.maxExpansionLines.Some? then
                        {l.maxExpansionLines.value - ExpansionLines(items)} else {})
  }

  ghost predicate IsTokenCap(l: Limits, items: seq<Item>, c: Candidate, n: int) {
    exists allowed :: IsAllowed(l.maxTokensPerItem, l.maxTokens, l.targetReservation, OfTarget(c), allowed)
      && IsLeast(n, {allowed, l.maxTokens - TotalTokens(items)}
                    + if c.distance >= 2 && l.maxExpansionTokens.Some? then
                        {l.maxExpansionTokens.value - ExpansionTokens(items)} else {})
  }

  lemma TruncateMeans(x: real)
    ensures IsWhole(x, Truncate(x))
  {
  }

  lemma LineAllowed(l: Limits, c: Candidate)
    ensures IsAllowed(l.maxLinesPerItem, l.maxLines, l.targetReservation, OfTarget(c), LineCapOf(l, c))
  {
    var part := Truncate(l.maxLines as real * l.targetReservation);
    TruncateMeans(l.maxLines as real * l.targetReservation);
    assert IsReserved(l.maxLines, l.targetReservation, part);
  }

  lemma LineCapMeans(l: Limits, b: Budget, c: Candidate)
    requires Balanced(l, b)
    ensures IsLineCap(l, b.items, c, LineCap(l, b, c))
  {
    hide TotalLines, ExpansionLines, Truncate;
    LineAllowed(l, c);
  }

  lemma TokenAllowed(l: Limits, c: Candidate)
    ensures IsAllowed(l.maxTokensPerItem, l.maxTokens, l.targetReservation, OfTarget(c), TokenCapOf(l, c))
  {
    var part := Truncate(l.maxTokens as real * l.targetReservation);
    TruncateMeans(l.maxTokens as real * l.targetReservation);
    assert IsReserved(l.maxTokens, l.targetReservation, part);
  }

  lemma TokenCapMeans(l: Limits, b: Budget, c: Candidate)
    requires Balanced(l, b)
    ensures IsTokenCap(l, b.items, c, TokenCap(l, b, c))
  {
    hide TotalTokens, ExpansionTokens, Truncate;
    TokenAllowed(l, c);
  }

  // ----- The lines taken

  ghost predicate HasText(file: Option<seq<string>>, c: Candidate) {
    file.Some? && 1 <= c.startLine <= |file.value| && c.startLine <= c.endLine
  }

  ghost function LastLine(file: seq<string>, c: Candidate): int { if c.endLine <= |file| then c.endLine else |file| }

  ghost function TextOf(file: seq<string>, w: Window): string
    requires 1 <= w.start <= w.end <= |file|
  {
    JoinLines(file[w.start - 1..w.end])
  }

  /** The window under the line cap, or, if its text costs too much, one of lines in proportion, but at least one. */
  ghost predicate IsTakenWindow(file: seq<string>, c: Candidate, lineCap: int, tokenCap: int, w: Window)
    requires lineCap >= 1 && tokenCap >= 1
  {
    var last := LastLine(file, c);
    var first := TrimWindow(c.startLine, last, lineCap, c.anchorLine);
    && 1 <= first.start <= first.end <= |file|
    && var tokens := EstimateTokens(TextOf(file, first));
       if tokens <= tokenCap then w == first
       else
         var share := first.Length() * tokenCap / tokens;
         w == TrimWindow(c.startLine, last, if share >= 1 then share else 1, c.anchorLine)
  }

  ghost predicate Takes(files: Files, s: Scored, lineCap: int, tokenCap: int, item: Item)
    requires lineCap >= 1 && tokenCap >= 1
  {
    var c := s.candidate;
    && HasText(files(c.filePath), c) && item.source == s
    && IsTakenWindow(files(c.filePath).value, c, lineCap, tokenCap, item.window)
    && 1 <= item.window.start <= item.window.end <= |files(c.filePath).value|
    && item.content == TextOf(files(c.filePath).value, item.window) && item.content != ""
    && item.tokens == EstimateTokens(item.content)
  }

  /** Nothing is taken: the relationship is full, a cap leaves no room, or there is no text or only an empty line. */
  ghost predicate Skips(files: Files, l: Limits, items: seq<Item>, s: Scored, lineCap: int, tokenCap: int) {
    var c := s.candidate;
    || (!OfTarget(c) && HowMany(items, c.relationship) >= l.maxItemsPerRelationship)
    || lineCap < 1 || tokenCap < 1 || !HasText(files(c.filePath), c)
    || exists w :: IsTakenWindow(files(c.filePath).value, c, lineCap, tokenCap, w)
                   && 1 <= w.start == w.end <= |files(c.filePath).value| && files(c.filePath).value[w.start - 1] == ""
  }

  /** One turn: the candidate is skipped, or exactly its text is taken. */
  ghost predicate IsTurn(files: Files, l: Limits, before: Budget, s: Scored, after: Budget) {
    exists lineCap, tokenCap ::
      && IsLineCap(l, before.items, s.candidate, lineCap) && IsTokenCap(l, before.items, s.candidate, tokenCap)
      && if Skips(files, l, before.items, s, lineCap, tokenCap) then
           after.items == before.items && after.dropped == before.dropped + 1
         else
           && after.items != [] && after.items[..|after.items| - 1] == before.items
           && Takes(files, s, lineCap, tokenCap, after.items[|after.items| - 1]) && after.dropped == before.dropped
  }

  lemma FitIsTaken(file: Option<seq<string>>, c: Candidate, lineCap: int, tokenCap: int)
    requires lineCap >= 1 && tokenCap >= 1
    ensures Fit(file, c, lineCap, tokenCap).Some? <==> HasText(file, c)
    ensures HasText(file, c) ==>
      var snippet := Fit(file, c, lineCap, tokenCap).value;
      && IsTakenWindow(file.value, c, lineCap, tokenCap, snippet.window)
      && 1 <= snippet.window.start <= snippet.window.end <= |file.value|
      && snippet.content == TextOf(file.value, snippet.window)
  {
    hide JoinLines, EstimateTokens, TrimWindow;
    FitExists(file, c, lineCap, tokenCap);
    if HasText(file, c) {
      var last := LastLine(file.value, c);
      assert last == Min(c.endLine, |file.value|);
      WindowKeepsAnchor(c.startLine, last, lineCap, c.anchorLine);
      var first := TrimWindow(c.startLine, last, lineCap, c.anchorLine);
      var tokens := EstimateTokens(TextOf(file.value, first));
      if tokens > tokenCap {
        WindowKeepsAnchor(c.startLine, last, Max(1, first.Length() * tokenCap / tokens), c.anchorLine);
      }
    }
  }

  lemma OneWindow(file: seq<string>, c: Candidate, lineCap: int, tokenCap: int, v: Window, w: Window)
    requires lineCap >= 1 && tokenCap >= 1
    requires IsTakenWindow(file, c, lineCap, tokenCap, v) && IsTakenWindow(file, c, lineCap, tokenCap, w)
    ensures v == w
  {
  }

  lemma EmptyText(file: seq<string>, w: Window)
    requires 1 <= w.start <= w.end <= |file|
    ensures TextOf(file, w) == "" <==> w.start == w.end && file[w.start - 1] == ""
  {
    var lines := file[w.start - 1..w.end];
    assert |lines| == 1 ==> lines[0] == file[w.start - 1];
  }

  /** For every list of candidates, limits and files: each candidate has its turn after those before it. */
  lemma RunTakesTurns(files: Files, l: Limits, kept: seq<Scored>, k: nat)
    requires k < |kept|
    ensures Run(files, l, []).items == [] && Run(files, l, []).dropped == 0
    ensures IsTurn(files, l, Run(files, l, kept[..k]), kept[k], Run(files, l, kept[..k + 1]))
  {
    hide Run, IsTurn, Step;
    NothingKept(files, l);
    OneMore(files, l, kept, k);
    RunStaysWithinBudget(files, l, kept[..k]);
    StepIsTurn(files, l, Run(files, l, kept[..k]), kept[k]);
  }

  lemma StepIsTurn(files: Files, l: Limits, b: Budget, s: Scored)
    requires Balanced(l, b)
    ensures IsTurn(files, l, b, s, Step(files, l, b, s))
  {
    hide LineCap, TokenCap, Fit, EstimateTokens, IsTakenWindow, TextOf, IsLineCap, IsTokenCap, HasText, TotalTokens,
         TotalLines, ExpansionTokens, ExpansionLines;
    var c, file := s.candidate, files(s.candidate.filePath);
    var lineCap, tokenCap := LineCap(l, b, c), TokenCap(l, b, c);
    LineCapMeans(l, b, c);
    TokenCapMeans(l, b, c);
    assert CountOf(b.counts, c.relationship) == HowMany(b.items, c.relationship);
    if lineCap >= 1 && tokenCap >= 1 {
      FitIsTheWindow(file, c, lineCap, tokenCap);
    }
  }

  /** What is fitted is the text of the one window to take, and empty for a window of one empty line only. */
  lemma FitIsTheWindow(file: Option<seq<string>>, c: Candidate, lineCap: int, tokenCap: int)
    requires lineCap >= 1 && tokenCap >= 1
    ensures Fit(file, c, lineCap, tokenCap).Some? <==> HasText(file, c)
    ensures HasText(file, c) ==> file.Some?
    ensures HasText(file, c) ==>
      var snippet := Fit(file, c, lineCap, tokenCap).value;
      var w := snippet.window;
      && (forall v :: IsTakenWindow(file.value, c, lineCap, tokenCap, v) <==> v == w)
      && 1 <= w.start <= w.end <= |file.value| && snippet.content == TextOf(file.value, w)
      && (snippet.content == "" <==> w.start == w.end && file.value[w.start - 1] == "")
  {
    hide Fit, EstimateTokens, IsTakenWindow, TextOf;
    FitIsTaken(file, c, lineCap, tokenCap);
    if HasText(file, c) {
      var snippet := Fit(file, c, lineCap, tokenCap).value;
      EmptyText(file.value, snippet.window);
      forall v | IsTakenWindow(file.value, c, lineCap, tokenCap, v) ensures v == snippet.window {
        OneWindow(file.value, c, lineCap, tokenCap, v, snippet.window);
      }
    }
  }
}
