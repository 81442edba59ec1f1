/** Greedy budgeting of ranked candidates under token, line, per-relationship and expansion caps. */
module ContextBudget {
  import opened Wrappers
  import opened ContextDomain
  import opened ContextSnippets

  const CHARS_PER_TOKEN := 4

  function EstimateTokens(text: string): (n: nat)
    ensures n >= 1 <==> text != []
  {
    if text == [] then 0 else Max(1, (|text| + CHARS_PER_TOKEN - 1) / CHARS_PER_TOKEN)
  }

  /** The estimate is the least number of tokens of four characters that hold the text. */
  lemma EstimateIsLeast(text: string, n: nat)
    ensures EstimateTokens(text) <= n <==> |text| <= 4 * n
  {
  }

  /** What a repository snapshot gives for a path: the lines of a readable text file, or nothing. */
  type Files = string -> Option<seq<string>>

  datatype Limits = Limits(
    maxTokens: int,
    maxLines: int,
    maxTokensPerItem: int,
    maxLinesPerItem: int,
    targetReservation: real,
    maxItemsPerRelationship: int,
    maxExpansionTokens: Option<int>,
    maxExpansionLines: Option<int>)

  datatype Item = Item(source: Scored, window: Window, content: string, tokens: nat)

  predicate IsTarget(c: Candidate) { c.kind == TargetSymbolItem || c.kind == TargetFileRegion }

  predicate IsExpansion(c: Candidate) { c.distance >= 2 }

  /** `int(x)` on a float. */
  function Truncate(x: real): int { if x >= 0.0 then x.Floor else -((-x).Floor) }

  function LineCapOf(l: Limits, c: Candidate): int {
    if IsTarget(c) then Max(l.maxLinesPerItem, Truncate(l.maxLines as real * l.targetReservation))
    else l.maxLinesPerItem
  }

  function TokenCapOf(l: Limits, c: Candidate): int {
    if IsTarget(c) then Max(l.maxTokensPerItem, Truncate(l.maxTokens as real * l.targetReservation))
    else l.maxTokensPerItem
  }

  /** What is left of the budget, and what it has bought. */
  datatype Budget = Budget(
    tokens: int,
    lines: int,
    expansionTokens: Option<int>,
    expansionLines: Option<int>,
    counts: map<Relationship, nat>,
    items: seq<Item>,
    dropped: nat)

  function Start(l: Limits): Budget {
    Budget(l.maxTokens, l.maxLines, l.maxExpansionTokens, l.maxExpansionLines, map[], [], 0)
  }

  function CountOf(counts: map<Relationship, nat>, r: Relationship): nat { if r in counts then counts[r] else 0 }

  function LineCap(l: Limits, b: Budget, c: Candidate): int {
    var cap := Min(LineCapOf(l, c), b.lines);
    if IsExpansion(c) && b.expansionLines.Some? then Min(cap, b.expansionLines.value) else cap
  }

  function TokenCap(l: Limits, b: Budget, c: Candidate): int {
    var cap := Min(TokenCapOf(l, c), b.tokens);
    if IsExpansion(c) && b.expansionTokens.Some? then Min(cap, b.expansionTokens.value) else cap
  }

  /** The snippet that fits: the capped one, or a stricter re-extraction in proportion to the tokens allowed. */
  function Fit(file: Option<seq<string>>, c: Candidate, lineCap: int, tokenCap: int): Option<Snippet>
    requires lineCap >= 1 && tokenCap >= 1
  {
    var first := Extract(file, c.startLine, c.endLine, lineCap, c.anchorLine);
    if first.None? then None
    else
      var tokens := EstimateTokens(first.value.content);
      if tokens <= tokenCap then first
      else
        var stricter := Max(1, first.value.window.Length() * tokenCap / tokens);
        Extract(file, c.startLine, c.endLine, stricter, c.anchorLine)
  }

  predicate RelationshipFull(l: Limits, b: Budget, c: Candidate) {
    !IsTarget(c) && CountOf(b.counts, c.relationship) >= l.maxItemsPerRelationship
  }

  /** The item the candidate turns into, or nothing when it is dropped. */
  function Offer(files: Files, l: Limits, b: Budget, s: Scored): Option<Item> {
    var c := s.candidate;
    if RelationshipFull(l, b, c) || LineCap(l, b, c) < 1 || TokenCap(l, b, c) < 1 then None
    else
      match Fit(files(c.filePath), c, LineCap(l, b, c), TokenCap(l, b, c))
      case None => None
      case Some(snippet) =>
        if snippet.content == [] then None
        else Some(Item(s, snippet.window, snippet.content, EstimateTokens(snippet.content)))
  }

  function Less(left: Option<int>, applies: bool, used: int): Option<int> {
    if applies && left.Some? then Some(left.value - used) else left
  }

  function Step(files: Files, l: Limits, b: Budget, s: Scored): Budget {
    match Offer(files, l, b, s)
    case None => b.(dropped := b.dropped + 1)
    case Some(item) =>
      var c := s.candidate;
      Budget(
        b.tokens - item.tokens,
        b.lines - item.window.Length(),
        Less(b.expansionTokens, IsExpansion(c), item.tokens),
        Less(b.expansionLines, IsExpansion(c), item.window.Length()),
        b.counts[c.relationship := CountOf(b.counts, c.relationship) + 1],
        b.items + [item],
        b.dropped)
  }

  /** The budget after the ranked candidates `kept`, in order. */
  function Run(files: Files, l: Limits, kept: seq<Scored>): Budget {
    if kept == [] then Start(l)
    else Step(files, l, Run(files, l, kept[..|kept| - 1]), kept[|kept| - 1])
  }

  function TotalTokens(items: seq<Item>): nat {
    if items == [] then 0 else TotalTokens(items[..|items| - 1]) + items[|items| - 1].tokens
  }

  function TotalLines(items: seq<Item>): int {
    if items == [] then 0 else TotalLines(items[..|items| - 1]) + items[|items| - 1].window.Length()
  }

  datatype BudgetResult = BudgetResult(items: seq<Item>, droppedBudget: nat, totalTokens: nat, totalLines: int)

  method Build(files: Files, l: Limits, kept: seq<Scored>) returns (r: BudgetResult)
    ensures var b := Run(files, l, kept);
      r == BudgetResult(b.items, b.dropped, TotalTokens(b.items), TotalLines(b.items))
  {
    hide Fit, LineCapOf, TokenCapOf, Truncate, Run, FitsAroundAnchor, TrimWindow, JoinLines, EstimateTokens,
         TotalTokens, TotalLines;
    var remainingTokens, remainingLines := l.maxTokens, l.maxLines;
    var expansionTokens, expansionLines := l.maxExpansionTokens, l.maxExpansionLines;
    var items: seq<Item>, dropped, counts: map<Relationship, nat> := [], 0, map[];
    NothingKept(files, l);
    for k := 0 to |kept|
      invariant Budget(remainingTokens, remainingLines, expansionTokens, expansionLines, counts, items, dropped)
             == Run(files, l, kept[..k])
    {
      var scored := kept[k];
      var candidate := scored.candidate;
      OneMore(files, l, kept, k);
      if !IsTarget(candidate) {
        if CountOf(counts, candidate.relationship) >= l.maxItemsPerRelationship {
          dropped := dropped + 1;
          continue;
        }
      }
      if remainingLines < 1 || remainingTokens < 1 {
        dropped := dropped + 1;
        continue;
      }
      if IsExpansion(candidate) && ((expansionTokens.Some? && expansionTokens.value < 1)
                                    || (expansionLines.Some? && expansionLines.value < 1)) {
        dropped := dropped + 1;
        continue;
      }
      var lineCap := Min(LineCapOf(l, candidate), remainingLines);
      var tokenCap := Min(TokenCapOf(l, candidate), remainingTokens);
      if IsExpansion(candidate) {
        if expansionLines.Some? {
          lineCap := Min(lineCap, expansionLines.value);
        }
        if expansionTokens.Some? {
          tokenCap := Min(tokenCap, expansionTokens.value);
        }
      }
      if lineCap < 1 || tokenCap < 1 {
        dropped := dropped + 1;
        continue;
      }
      var snippet := FitSnippet(files(candidate.filePath), candidate, lineCap, tokenCap);
      if snippet.None? || snippet.value.content == [] {
        dropped := dropped + 1;
        continue;
      }
      var tokens, lineCount := EstimateTokens(snippet.value.content), snippet.value.window.Length();
      items := items + [Item(scored, snippet.value.window, snippet.value.content, tokens)];
      remainingTokens := remainingTokens - tokens;
      remainingLines := remainingLines - lineCount;
      if IsExpansion(candidate) {
        if expansionTokens.Some? {
          expansionTokens := Some(expansionTokens.value - tokens);
        }
        if expansionLines.Some? {
          expansionLines := Some(expansionLines.value - lineCount);
        }
      }
      counts := counts[candidate.relationship := CountOf(counts, candidate.relationship) + 1];
    }
    assert kept[..|kept|] == kept;
    r := BudgetResult(items, dropped, TotalTokens(items), TotalLines(items));
  }

  /** The snippet shows exactly the lines of a window around the anchor that lies inside the one the line cap gives. */
  ghost predicate FitsAroundAnchor(file: Option<seq<string>>, c: Candidate, lineCap: int, snippet: Snippet)
    requires file.Some? && lineCap >= 1 && 1 <= c.startLine <= Min(c.endLine, |file.value|)
  {
    var w, end := snippet.window, Min(c.endLine, |file.value|);
    var first := TrimWindow(c.startLine, end, lineCap, c.anchorLine);
    && c.startLine <= first.start <= w.start <= w.end <= first.end <= end && w.Length() <= lineCap
    && w.Contains(Clamp(c.anchorLine, c.startLine, end))
    && snippet.content == JoinLines(file.value[w.start - 1..w.end])
  }

  /** A snippet exists exactly where there are lines; it fits around the anchor, and is shorter only if it had to be. */
  method FitSnippet(file: Option<seq<string>>, candidate: Candidate, lineCap: int, tokenCap: int)
    returns (snippet: Option<Snippet>)
    requires lineCap >= 1 && tokenCap >= 1
    ensures snippet == Fit(file, candidate, lineCap, tokenCap)
    ensures snippet.Some? <==> file.Some? && 1 <= candidate.startLine <= Min(candidate.endLine, |file.value|)
    ensures snippet.Some? ==> FitsAroundAnchor(file, candidate, lineCap, snippet.value)
    ensures snippet.Some? ==>
      var first := TrimWindow(candidate.startLine, Min(candidate.endLine, |file.value|), lineCap, candidate.anchorLine);
      EstimateTokens(JoinLines(file.value[first.start - 1..first.end])) <= tokenCap ==> snippet.value.window == first
  {
    hide EstimateTokens, JoinLines;
    FitExists(file, candidate, lineCap, tokenCap);
    if Fit(file, candidate, lineCap, tokenCap).Some? {
      FitKeepsAnchor(file, candidate, lineCap, tokenCap);
      FitIsWindow(file, candidate, lineCap, tokenCap);
      WindowKeepsAnchor(candidate.startLine, Min(candidate.endLine, |file.value|), lineCap, candidate.anchorLine);
    }
    snippet := Extract(file, candidate.startLine, candidate.endLine, lineCap, candidate.anchorLine);
    if snippet.None? {
      return;
    }
    var tokens := EstimateTokens(snippet.value.content);
    if tokens > tokenCap {
      var currentLines := snippet.value.window.Length();
      var stricterLineCap := Max(1, currentLines * tokenCap / tokens);
      snippet := Extract(file, candidate.startLine, candidate.endLine, stricterLineCap, candidate.anchorLine);
    }
  }

  lemma NothingKept(files: Files, l: Limits)
    ensures Run(files, l, []) == Start(l)
  {
  }

  lemma OneMore(files: Files, l: Limits, kept: seq<Scored>, k: nat)
    requires k < |kept|
    ensures Run(files, l, kept[..k + 1]) == Step(files, l, Run(files, l, kept[..k]), kept[k])
    ensures Run(files, l, kept[..0]) == Start(l)
  {
    assert kept[..k + 1][..k] == kept[..k];
  }

  // ----- What every run keeps

  /** The window an item may show: inside its span and the file, around its anchor, and exactly those lines. */
  ghost predicate ShowsSpan(files: Files, item: Item) {
    var c := item.source.candidate;
    var file := files(c.filePath);
    && file.Some? && 1 <= c.startLine <= Min(c.endLine, |file.value|)
    && c.startLine <= item.window.start <= item.window.end <= Min(c.endLine, |file.value|)
    && item.window.Contains(Clamp(c.anchorLine, c.startLine, Min(c.endLine, |file.value|)))
    && item.content == JoinLines(file.value[item.window.start - 1..item.window.end])
    && item.content != [] && item.tokens == EstimateTokens(item.content) >= 1
  }

  /** The second, stricter extraction stays inside the first and keeps the anchor. */
  lemma FitKeepsAnchor(file: Option<seq<string>>, c: Candidate, lineCap: int, tokenCap: int)
    requires lineCap >= 1 && tokenCap >= 1 && Fit(file, c, lineCap, tokenCap).Some?
    ensures file.Some? && 1 <= c.startLine <= Min(c.endLine, |file.value|)
    ensures var w := Fit(file, c, lineCap, tokenCap).value.window;
      var end := Min(c.endLine, |file.value|);
      var first := TrimWindow(c.startLine, end, lineCap, c.anchorLine);
      && w.Contains(Clamp(c.anchorLine, c.startLine, end))
      && first.start <= w.start <= w.end <= first.end && w.Length() <= lineCap
  {
    hide JoinLines, EstimateTokens;
    var first := Extract(file, c.startLine, c.endLine, lineCap, c.anchorLine);
    var end := Min(c.endLine, |file.value|);
    WindowKeepsAnchor(c.startLine, end, lineCap, c.anchorLine);
    var tokens := EstimateTokens(first.value.content);
    if tokens > tokenCap {
      var current := first.value.window.Length();
      ProportionIsSmaller(current, tokenCap, tokens);
      var stricter := Max(1, current * tokenCap / tokens);
      WindowKeepsAnchor(c.startLine, end, stricter, c.anchorLine);
      WindowsNest(c.startLine, end, stricter, lineCap, c.anchorLine);
    }
  }

  lemma ProportionIsSmaller(lines: int, cap: int, tokens: int)
    requires lines >= 0 && 0 < cap < tokens
    ensures lines * cap / tokens <= lines
  {
    assert lines * cap <= lines * tokens;
  }

  lemma OfferIsSound(files: Files, l: Limits, b: Budget, s: Scored)
    requires Offer(files, l, b, s).Some?
    ensures var item := Offer(files, l, b, s).value;
      && item.source == s && ShowsSpan(files, item) && 1 <= item.window.Length() <= LineCap(l, b, s.candidate)
      && TokenCap(l, b, s.candidate) >= 1 && !RelationshipFull(l, b, s.candidate)
  {
    hide LineCap, TokenCap, RelationshipFull, JoinLines, EstimateTokens;
    var c := s.candidate;
    FitKeepsAnchor(files(c.filePath), c, LineCap(l, b, c), TokenCap(l, b, c));
  }

  function ExpansionTokens(items: seq<Item>): nat {
    if items == [] then 0
    else
      var last := items[|items| - 1];
      ExpansionTokens(items[..|items| - 1]) + if IsExpansion(last.source.candidate) then last.tokens else 0
  }

  function ExpansionLines(items: seq<Item>): int {
    if items == [] then 0
    else
      var last := items[|items| - 1];
      ExpansionLines(items[..|items| - 1]) + if IsExpansion(last.source.candidate) then last.window.Length() else 0
  }

  function HowMany(items: seq<Item>, r: Relationship): nat {
    if items == [] then 0
    else
      var last := items[|items| - 1];
      HowMany(items[..|items| - 1], r) + if last.source.candidate.relationship == r then 1 else 0
  }

  /** The items were chosen from the candidates in order, each at most once. */
  ghost predicate ChosenFrom(items: seq<Item>, kept: seq<Scored>)
    decreases |kept|
  {
    if kept == [] then items == []
    else
      var front := kept[..|kept| - 1];
      || ChosenFrom(items, front)
      || (items != [] && items[|items| - 1].source == kept[|kept| - 1] && ChosenFrom(items[..|items| - 1], front))
  }

  /** The counters say exactly what has been spent. */
  ghost predicate Balanced(l: Limits, b: Budget) {
    && TotalTokens(b.items) + b.tokens == l.maxTokens
    && TotalLines(b.items) + b.lines == l.maxLines
    && b.expansionTokens.Some? == l.maxExpansionTokens.Some? && b.expansionLines.Some? == l.maxExpansionLines.Some?
    && (l.maxExpansionTokens.Some? ==> ExpansionTokens(b.items) + b.expansionTokens.value == l.maxExpansionTokens.value)
    && (l.maxExpansionLines.Some? ==> ExpansionLines(b.items) + b.expansionLines.value == l.maxExpansionLines.value)
    && (forall r :: CountOf(b.counts, r) == HowMany(b.items, r))
  }

  /** When item `k` was taken there was still a token to spend, and its relationship was not full. */
  ghost predicate TakenWithRoom(l: Limits, items: seq<Item>, k: nat)
    requires k < |items|
  {
    var c := items[k].source.candidate;
    && TotalTokens(items[..k]) < l.maxTokens
    && (IsExpansion(c) && l.maxExpansionTokens.Some? ==> ExpansionTokens(items[..k]) < l.maxExpansionTokens.value)
    && (!IsTarget(c) ==> HowMany(items[..k], c.relationship) < l.maxItemsPerRelationship)
  }

  predicate FitsLineCap(l: Limits, item: Item) { 1 <= item.window.Length() <= LineCapOf(l, item.source.candidate) }

  ghost predicate WithinBudget(files: Files, l: Limits, kept: seq<Scored>, b: Budget) {
    && Balanced(l, b)
    && (b.items != [] ==> b.lines >= 0)
    && (l.maxExpansionLines.Some? && ExpansionLines(b.items) > 0 ==> b.expansionLines.value >= 0)
    && (forall item | item in b.items :: ShowsSpan(files, item) && FitsLineCap(l, item))
    && (forall k: nat | k < |b.items| :: TakenWithRoom(l, b.items, k))
    && ChosenFrom(b.items, kept)
    && |b.items| + b.dropped == |kept|
  }

  lemma StepKeepsBalance(files: Files, l: Limits, b: Budget, s: Scored)
    requires Balanced(l, b)
    ensures Balanced(l, Step(files, l, b, s))
  {
    hide Offer;
    if Offer(files, l, b, s).Some? {
      OfferHasSource(files, l, b, s);
      TakingKeepsBalance(l, b, Offer(files, l, b, s).value, Step(files, l, b, s));
    }
  }

  lemma TakingKeepsBalance(l: Limits, b: Budget, item: Item, after: Budget)
    requires Balanced(l, b) && after.items == b.items + [item]
    requires after.tokens == b.tokens - item.tokens && after.lines == b.lines - item.window.Length()
    requires var c := item.source.candidate;
      && after.expansionTokens == Less(b.expansionTokens, IsExpansion(c), item.tokens)
      && after.expansionLines == Less(b.expansionLines, IsExpansion(c), item.window.Length())
      && after.counts == b.counts[c.relationship := CountOf(b.counts, c.relationship) + 1]
    ensures Balanced(l, after)
  {
    var c := item.source.candidate;
    TakingAdds(b.items, item);
    hide TotalTokens, TotalLines, ExpansionTokens, ExpansionLines, HowMany, IsExpansion;
    forall r ensures CountOf(after.counts, r) == HowMany(after.items, r) {
      assert CountOf(b.counts, r) == HowMany(b.items, r);
      assert CountOf(after.counts, r) == CountOf(b.counts, r) + if r == c.relationship then 1 else 0;
    }
  }

  /** What one more item adds to every total. */
  lemma TakingAdds(items: seq<Item>, item: Item)
    ensures var all, c, n := items + [item], item.source.candidate, item.window.Length();
      && TotalTokens(all) == TotalTokens(items) + item.tokens
      && TotalLines(all) == TotalLines(items) + n
      && ExpansionTokens(all) == ExpansionTokens(items) + (if IsExpansion(c) then item.tokens else 0)
      && ExpansionLines(all) == ExpansionLines(items) + (if IsExpansion(c) then n else 0)
      && forall r :: HowMany(all, r) == HowMany(items, r) + if r == c.relationship then 1 else 0
  {
    var all := items + [item];
    assert all[..|all| - 1] == items && all[|all| - 1] == item;
  }

  lemma OfferHasSource(files: Files, l: Limits, b: Budget, s: Scored)
    requires Offer(files, l, b, s).Some?
    ensures Offer(files, l, b, s).value.source == s
  {
  }

  lemma StepStaysWithinBudget(files: Files, l: Limits, kept: seq<Scored>, b: Budget, s: Scored)
    requires WithinBudget(files, l, kept, b)
    ensures WithinBudget(files, l, kept + [s], Step(files, l, b, s))
  {
    hide Offer, ShowsSpan, Balanced, RelationshipFull, LineCapOf;
    StepKeepsBalance(files, l, b, s);
    assert (kept + [s])[..|kept|] == kept;
    var after := Step(files, l, b, s);
    if Offer(files, l, b, s).Some? {
      var item, c := Offer(files, l, b, s).value, s.candidate;
      OfferIsSound(files, l, b, s);
      var items := after.items;
      assert items[..|b.items|] == b.items;
      TakingLeavesRoom(l, b, c, item);
      forall k: nat | k < |items| ensures TakenWithRoom(l, items, k) {
        if k < |b.items| {
          assert items[..k] == b.items[..k];
          assert TakenWithRoom(l, b.items, k);
        }
      }
      LinesLeft(l, b, after, item);
    }
  }

  lemma TakingLeavesRoom(l: Limits, b: Budget, c: Candidate, item: Item)
    requires Balanced(l, b) && item.source.candidate == c && TokenCap(l, b, c) >= 1 && !RelationshipFull(l, b, c)
    ensures TakenWithRoom(l, b.items + [item], |b.items|)
  {
    assert (b.items + [item])[..|b.items|] == b.items;
  }

  lemma LinesLeft(l: Limits, b: Budget, after: Budget, item: Item)
    requires Balanced(l, b) && item.window.Length() <= LineCap(l, b, item.source.candidate)
    requires after.lines == b.lines - item.window.Length() && after.items == b.items + [item]
    requires after.expansionLines == Less(b.expansionLines, IsExpansion(item.source.candidate), item.window.Length())
    requires l.maxExpansionLines.Some? && ExpansionLines(b.items) > 0 ==> b.expansionLines.value >= 0
    ensures after.lines >= 0
    ensures l.maxExpansionLines.Some? && ExpansionLines(after.items) > 0 ==> after.expansionLines.value >= 0
  {
    assert after.items[..|after.items| - 1] == b.items;
  }

  lemma {:induction false} RunStaysWithinBudget(files: Files, l: Limits, kept: seq<Scored>)
    ensures WithinBudget(files, l, kept, Run(files, l, kept))
    decreases |kept|
  {
    hide Step;
    if kept == [] {
      StartIsWithinBudget(files, l);
    } else {
      var front, s := kept[..|kept| - 1], kept[|kept| - 1];
      RunStaysWithinBudget(files, l, front);
      StepStaysWithinBudget(files, l, front, Run(files, l, front), s);
      assert front + [s] == kept;
    }
  }

  lemma StartIsWithinBudget(files: Files, l: Limits)
    ensures WithinBudget(files, l, [], Start(l))
  {
  }

  // ----- The promises

  lemma {:induction false} NonTargetsOf(l: Limits, items: seq<Item>, r: Relationship)
    requires forall k: nat | k < |items| :: TakenWithRoom(l, items, k)
    ensures NonTargets(items, r) <= Max(l.maxItemsPerRelationship, 0)
    decreases |items|
  {
    if items != [] {
      var k := |items| - 1;
      var front := items[..k];
      forall j: nat | j < |front| ensures TakenWithRoom(l, front, j) {
        assert front[..j] == items[..j];
        assert TakenWithRoom(l, items, j);
      }
      NonTargetsOf(l, front, r);
      assert TakenWithRoom(l, items, k);
      NonTargetsAmong(front, r);
    }
  }

  function NonTargets(items: seq<Item>, r: Relationship): nat {
    if items == [] then 0
    else
      var c := items[|items| - 1].source.candidate;
      NonTargets(items[..|items| - 1], r) + if c.relationship == r && !IsTarget(c) then 1 else 0
  }

  lemma {:induction false} NonTargetsAmong(items: seq<Item>, r: Relationship)
    ensures NonTargets(items, r) <= HowMany(items, r)
    decreases |items|
  {
    if items != [] {
      NonTargetsAmong(items[..|items| - 1], r);
    }
  }

  /**
    * For every list of candidates: lines stay within the line budget and expansion lines within theirs; tokens,
    * and expansion tokens, were still below their caps when the last such item was taken; no relationship exceeds
    * its cap of non-target items; items are a subsequence of the input and, with the drops, account for all of it;
    * and each item shows lines of its own span around its anchor, no more than one item may.
    */
  lemma BudgetIsKept(files: Files, l: Limits, kept: seq<Scored>)
    ensures var b := Run(files, l, kept);
      && TotalLines(b.items) <= Max(l.maxLines, 0)
      && (l.maxExpansionLines.Some? ==> ExpansionLines(b.items) <= Max(l.maxExpansionLines.value, 0))
      && (forall k: nat | k < |b.items| :: TotalTokens(b.items[..k]) < l.maxTokens)
      && (l.maxExpansionTokens.Some? ==> forall k: nat | k < |b.items| && IsExpansion(b.items[k].source.candidate) ::
            ExpansionTokens(b.items[..k]) < l.maxExpansionTokens.value)
      && (forall r :: NonTargets(b.items, r) <= Max(l.maxItemsPerRelationship, 0))
      && ChosenFrom(b.items, kept) && |b.items| + b.dropped == |kept|
      && (forall item | item in b.items :: ShowsSpan(files, item) && FitsLineCap(l, item))
  {
    hide Run, ShowsSpan, ChosenFrom, FitsLineCap;
    var b := Run(files, l, kept);
    RunStaysWithinBudget(files, l, kept);
    forall r ensures NonTargets(b.items, r) <= Max(l.maxItemsPerRelationship, 0) {
      NonTargetsOf(l, b.items, r);
    }
    forall k: nat | k < |b.items|
      ensures TotalTokens(b.items[..k]) < l.maxTokens
      ensures IsExpansion(b.items[k].source.candidate) && l.maxExpansionTokens.Some? ==>
        ExpansionTokens(b.items[..k]) < l.maxExpansionTokens.value
    {
      assert TakenWithRoom(l, b.items, k);
    }
  }

  /** All that fits of the candidate is one line, and that line is empty. */
  predicate OnlyAnEmptyLineFits(file: Option<seq<string>>, c: Candidate, lineCap: int, tokenCap: int)
    requires lineCap >= 1 && tokenCap >= 1
  {
    var fit := Fit(file, c, lineCap, tokenCap);
    && file.Some? && fit.Some? && 1 <= fit.value.window.start <= |file.value|
    && fit.value.window.start == fit.value.window.end && file.value[fit.value.window.start - 1] == []
  }

  /**
    * A candidate is dropped only for one of these reasons: its relationship is full, some budget it draws on has no
    * room, its lines cannot be had, or all that fits of them is one empty line. Size alone never drops it.
    */
  lemma DroppedOnlyFor(files: Files, l: Limits, b: Budget, s: Scored)
    ensures Offer(files, l, b, s).None?
      <==> || RelationshipFull(l, b, s.candidate) || LineCap(l, b, s.candidate) < 1 || TokenCap(l, b, s.candidate) < 1
           || files(s.candidate.filePath).None?
           || !(1 <= s.candidate.startLine <= Min(s.candidate.endLine, |files(s.candidate.filePath).value|))
           || OnlyAnEmptyLineFits(files(s.candidate.filePath), s.candidate, LineCap(l, b, s.candidate),
                                  TokenCap(l, b, s.candidate))
  {
    hide LineCap, TokenCap, RelationshipFull, EstimateTokens, Fit, JoinLines;
    var c := s.candidate;
    var file, lineCap, tokenCap := files(c.filePath), LineCap(l, b, c), TokenCap(l, b, c);
    if !RelationshipFull(l, b, c) && lineCap >= 1 && tokenCap >= 1 {
      FitExists(file, c, lineCap, tokenCap);
      if Fit(file, c, lineCap, tokenCap).Some? {
        FitIsWindow(file, c, lineCap, tokenCap);
        var w := Fit(file, c, lineCap, tokenCap).value.window;
        EmptyJoin(file.value[w.start - 1..w.end]);
        OneEmptyLine(file.value, w.start - 1, w.end);
      }
    }
  }

  lemma OneEmptyLine(lines: seq<string>, from: nat, to: nat)
    requires from < to <= |lines|
    ensures lines[from..to] == [[]] <==> to == from + 1 && lines[from] == []
  {
    if lines[from..to] == [[]] {
      assert |lines[from..to]| == 1 && lines[from..to][0] == lines[from];
    }
  }

  lemma FitExists(file: Option<seq<string>>, c: Candidate, lineCap: int, tokenCap: int)
    requires lineCap >= 1 && tokenCap >= 1
    ensures Fit(file, c, lineCap, tokenCap).Some? <==> file.Some? && 1 <= c.startLine <= Min(c.endLine, |file.value|)
  {
    hide Extract;
  }

  lemma FitIsWindow(file: Option<seq<string>>, c: Candidate, lineCap: int, tokenCap: int)
    requires lineCap >= 1 && tokenCap >= 1 && Fit(file, c, lineCap, tokenCap).Some?
    ensures var snippet := Fit(file, c, lineCap, tokenCap).value;
      var w, end := snippet.window, Min(c.endLine, |file.value|);
      && 1 <= w.start <= w.end <= |file.value| && snippet.content == JoinLines(file.value[w.start - 1..w.end])
      && (w.truncated <==> w.Length() < end - c.startLine + 1)
  {
    hide JoinLines, EstimateTokens;
    var end := Min(c.endLine, |file.value|);
    WindowKeepsAnchor(c.startLine, end, lineCap, c.anchorLine);
    var first := Extract(file, c.startLine, c.endLine, lineCap, c.anchorLine).value;
    var tokens := EstimateTokens(first.content);
    if tokens > tokenCap {
      WindowKeepsAnchor(c.startLine, end, Max(1, first.window.Length() * tokenCap / tokens), c.anchorLine);
    }
  }

  lemma EmptyJoin(lines: seq<string>)
    requires lines != []
    ensures JoinLines(lines) == [] <==> lines == [[]]
  {
  }

  lemma OnlyLine(text: string, c: Candidate, lineCap: int, tokenCap: int)
    requires c.startLine == 1 <= c.endLine && lineCap >= 1 && tokenCap >= 1
    ensures Fit(Some([text]), c, lineCap, tokenCap) == Some(Snippet(text, Window(1, 1, false)))
  {
    hide EstimateTokens;
    assert [text][0..1] == [text];
  }

  /** The token ceiling itself can be passed by the last item, for one because a line is never cut. */
  lemma TokensCanOvershoot(files: Files, l: Limits, s: Scored, text: string)
    requires files(s.candidate.filePath) == Some([text]) && s.candidate.startLine == 1 <= s.candidate.endLine
    requires l.maxLines >= 1 && l.maxTokens >= 1 && l.maxLinesPerItem >= 1 && l.maxTokensPerItem >= 1
    requires IsTarget(s.candidate) && !IsExpansion(s.candidate)
    requires |text| > CHARS_PER_TOKEN * l.maxTokens
    ensures TotalTokens(Run(files, l, [s]).items) > l.maxTokens
  {
    hide Fit, Truncate;
    var b, c := Start(l), s.candidate;
    assert [s][..0] == [] && Run(files, l, []) == b;
    assert LineCap(l, b, c) >= 1 && TokenCap(l, b, c) >= 1;
    OnlyLine(text, c, LineCap(l, b, c), TokenCap(l, b, c));
    var items := Run(files, l, [s]).items;
    assert items == [Item(s, Window(1, 1, false), text, EstimateTokens(text))];
    assert items[..0] == [];
  }
}
