/** When the token ceiling of a bundle holds: exactly, for candidates whose lines are equally long. */
module ContextTokens {
  import opened Wrappers
  import opened ContextDomain
  import opened ContextSnippets
  import opened ContextBudget

  /** The span has lines to show. */
  predicate HasLines(files: Files, c: Candidate) {
    files(c.filePath).Some? && 1 <= c.startLine <= Min(c.endLine, |files(c.filePath).value|)
  }

  /** The length of the first line of the span. */
  function LineLength(files: Files, c: Candidate): nat {
    if HasLines(files, c) then |files(c.filePath).value[c.startLine - 1]| else 0
  }

  /** What one line of the span costs. */
  function LineTokens(files: Files, c: Candidate): nat {
    if HasLines(files, c) then EstimateTokens(files(c.filePath).value[c.startLine - 1]) else 0
  }

  ghost predicate AllOfLength(lines: seq<string>, n: nat) { forall line | line in lines :: |line| == n }

  /** All lines of the span are equally long. */
  ghost predicate IsEven(files: Files, c: Candidate) {
    HasLines(files, c) ==>
      var file := files(c.filePath).value;
      AllOfLength(file[c.startLine - 1..Min(c.endLine, |file|)], LineLength(files, c))
  }

  // ----- What equally long lines cost

  /** The characters of `count` joined lines of `n` characters each. */
  function JoinedChars(count: int, n: nat): (chars: nat)
    ensures count >= 1 ==> chars == count * (n + 1) - 1 && chars >= n
  {
    if count < 1 then 0
    else
      Scale(n + 1, 1, count);
      count * (n + 1) - 1
  }

  lemma {:induction false} JoinedLength(lines: seq<string>, n: nat)
    requires lines != [] && AllOfLength(lines, n)
    ensures |JoinLines(lines)| == |lines| * (n + 1) - 1
    decreases |lines|
  {
    hide JoinLines;
    assert lines[0] in lines;
    JoinUnfolds(lines);
    OneLineMore(|lines|, n + 1);
    if |lines| > 1 {
      JoinedLength(lines[1..], n);
    }
  }

  lemma JoinUnfolds(lines: seq<string>)
    requires lines != []
    ensures |JoinLines(lines)| == if |lines| == 1 then |lines[0]| else |lines[0]| + 1 + |JoinLines(lines[1..])|
  {
  }

  lemma OneLineMore(k: nat, width: nat)
    requires k >= 1
    ensures k * width == (k - 1) * width + width
  {
  }

  function CeilTokens(chars: nat): nat { (chars + CHARS_PER_TOKEN - 1) / CHARS_PER_TOKEN }

  lemma EstimateIsCeiling(text: string)
    ensures EstimateTokens(text) == CeilTokens(|text|)
  {
  }

  lemma LongerCostsMore(few: nat, many: nat)
    requires few <= many
    ensures CeilTokens(few) <= CeilTokens(many)
  {
  }

  /** The proportional share of equally long lines fits the cap it was computed for. */
  lemma ShareFits(lines: nat, n: nat, cap: nat, tokens: nat, share: nat)
    requires lines >= 1 && 1 <= cap < tokens && tokens == CeilTokens(lines * (n + 1) - 1)
    requires 1 <= share <= lines * cap / tokens
    ensures CeilTokens(share * (n + 1) - 1) <= cap
  {
    ShareTimesTokens(lines, cap, tokens, share);
    ShareIsFewer(lines, cap, tokens, share);
    var chars := lines * (n + 1) - 1;
    assert 4 * tokens >= chars;
    assert share * (4 * tokens) >= share * chars by { Scale(share, chars, 4 * tokens); }
    assert share * (4 * tokens) == 4 * (share * tokens);
    assert 4 * (lines * cap) >= share * chars;
    Regrouped(lines, n, share);
    assert share * chars == lines * (share * (n + 1)) - share;
    assert lines * (4 * cap) >= lines * (share * (n + 1) - 1) by { Unscaled(lines, cap, share * (n + 1), share); }
    Cancel(lines, share * (n + 1) - 1, 4 * cap);
  }

  lemma ShareTimesTokens(lines: nat, cap: nat, tokens: nat, share: nat)
    requires tokens >= 1 && share <= lines * cap / tokens
    ensures share * tokens <= lines * cap
  {
    var whole := lines * cap;
    assert (whole / tokens) * tokens <= whole;
    Scale(tokens, share, whole / tokens);
  }

  lemma ShareIsFewer(lines: nat, cap: nat, tokens: nat, share: nat)
    requires cap < tokens && share * tokens <= lines * cap
    ensures share <= lines
  {
    Scale(lines, cap, tokens);
    assert tokens * share <= tokens * lines;
    Cancel(tokens, share, lines);
  }

  lemma Scale(k: nat, x: int, y: int)
    requires x <= y
    ensures k * x <= k * y && x * k <= y * k
  {
  }

  lemma Regrouped(lines: nat, n: nat, share: nat)
    ensures share * (lines * (n + 1) - 1) == lines * (share * (n + 1)) - share
  {
    assert share * (lines * (n + 1)) == lines * (share * (n + 1));
  }

  lemma Unscaled(lines: nat, cap: nat, wide: nat, share: nat)
    requires 4 * (lines * cap) >= lines * wide - share && share <= lines
    ensures lines * (4 * cap) >= lines * (wide - 1)
  {
    assert lines * (wide - 1) == lines * wide - lines;
    assert lines * (4 * cap) == 4 * (lines * cap);
  }

  lemma Cancel(k: nat, x: int, y: int)
    requires k >= 1 && k * x <= k * y
    ensures x <= y
  {
    assert k * x - k * y == k * (x - y);
    assert x > y ==> k * (x - y) >= 1 by {
      if x > y {
        Scale(k, 1, x - y);
      }
    }
  }

  // ----- One candidate

  lemma EvenInside(files: Files, c: Candidate, w: Window)
    requires HasLines(files, c) && IsEven(files, c)
    requires c.startLine <= w.start <= w.end <= Min(c.endLine, |files(c.filePath).value|)
    ensures AllOfLength(files(c.filePath).value[w.start - 1..w.end], LineLength(files, c))
  {
    var file := files(c.filePath).value;
    var span, lines := file[c.startLine - 1..Min(c.endLine, |file|)], file[w.start - 1..w.end];
    forall line | line in lines ensures |line| == LineLength(files, c) {
      var i :| 0 <= i < |lines| && lines[i] == line;
      assert span[w.start - c.startLine + i] == line;
    }
  }

  lemma WindowCost(files: Files, c: Candidate, w: Window)
    requires HasLines(files, c) && IsEven(files, c)
    requires c.startLine <= w.start <= w.end <= Min(c.endLine, |files(c.filePath).value|)
    ensures var file := files(c.filePath).value;
      EstimateTokens(JoinLines(file[w.start - 1..w.end])) == CeilTokens(JoinedChars(w.Length(), LineLength(files, c)))
  {
    hide JoinLines, EstimateTokens, CeilTokens, IsEven, LineLength;
    var lines := files(c.filePath).value[w.start - 1..w.end];
    EvenInside(files, c, w);
    assert |lines| == w.Length();
    LinesCost(lines, LineLength(files, c));
  }

  lemma LinesCost(lines: seq<string>, n: nat)
    requires lines != [] && AllOfLength(lines, n)
    ensures EstimateTokens(JoinLines(lines)) == CeilTokens(JoinedChars(|lines|, n))
  {
    hide JoinLines, EstimateTokens, CeilTokens, AllOfLength;
    JoinedLength(lines, n);
    EstimateIsCeiling(JoinLines(lines));
    Scale(n + 1, 1, |lines|);
  }

  /** What fits of equally long lines costs no more than the cap, or is one line. */
  lemma EvenFit(files: Files, c: Candidate, lineCap: int, tokenCap: int)
    requires HasLines(files, c) && IsEven(files, c) && lineCap >= 1 && tokenCap >= 1
    ensures var fit := Fit(files(c.filePath), c, lineCap, tokenCap);
      fit.Some? && LineTokens(files, c) <= EstimateTokens(fit.value.content) <= Max(tokenCap, LineTokens(files, c))
  {
    hide JoinLines, EstimateTokens, CeilTokens, IsEven, TrimWindow;
    var file, n := files(c.filePath).value, LineLength(files, c);
    var end := Min(c.endLine, |file|);
    EstimateIsCeiling(file[c.startLine - 1]);
    WindowKeepsAnchor(c.startLine, end, lineCap, c.anchorLine);
    var w := TrimWindow(c.startLine, end, lineCap, c.anchorLine);
    WindowCost(files, c, w);
    LongerCostsMore(n, JoinedChars(w.Length(), n));
    var tokens := CeilTokens(JoinedChars(w.Length(), n));
    if tokens > tokenCap {
      var share := w.Length() * tokenCap / tokens;
      WindowKeepsAnchor(c.startLine, end, Max(1, share), c.anchorLine);
      var v := TrimWindow(c.startLine, end, Max(1, share), c.anchorLine);
      WindowCost(files, c, v);
      LongerCostsMore(n, JoinedChars(v.Length(), n));
      if share >= 1 {
        ShareFits(w.Length(), n, tokenCap, tokens, v.Length());
      }
    }
  }

  /** The item a candidate turns into passes what is left of the budget exactly when one of its lines does. */
  lemma EvenOffer(files: Files, l: Limits, b: Budget, s: Scored)
    requires IsEven(files, s.candidate) && Offer(files, l, b, s).Some?
    ensures var tokens, line := Offer(files, l, b, s).value.tokens, LineTokens(files, s.candidate);
      b.tokens >= 1 && line <= tokens <= Max(b.tokens, line)
  {
    hide LineCap, Fit, EstimateTokens, IsEven, TokenCapOf;
    var c := s.candidate;
    FitExists(files(c.filePath), c, LineCap(l, b, c), TokenCap(l, b, c));
    EvenFit(files, c, LineCap(l, b, c), TokenCap(l, b, c));
  }

  // ----- The whole list

  /** Candidate `k` is taken although not one of its lines fits what is left of the token budget. */
  ghost predicate IsTakenShort(files: Files, l: Limits, kept: seq<Scored>, k: nat)
    requires k < |kept|
  {
    var b := Run(files, l, kept[..k]);
    Offer(files, l, b, kept[k]).Some? && b.tokens < LineTokens(files, kept[k].candidate)
  }

  ghost predicate SomeTakenShort(files: Files, l: Limits, kept: seq<Scored>) {
    exists k: nat | k < |kept| :: IsTakenShort(files, l, kept, k)
  }

  ghost predicate AllEven(files: Files, kept: seq<Scored>) { forall s | s in kept :: IsEven(files, s.candidate) }

  ghost predicate LinesCostAtMost(files: Files, kept: seq<Scored>, cost: nat) {
    forall s | s in kept :: LineTokens(files, s.candidate) <= cost
  }

  lemma TakenShortInFront(files: Files, l: Limits, front: seq<Scored>, s: Scored)
    ensures SomeTakenShort(files, l, front + [s])
      <==> || SomeTakenShort(files, l, front)
           || (var b := Run(files, l, front);
               Offer(files, l, b, s).Some? && b.tokens < LineTokens(files, s.candidate))
  {
    hide Run, Offer, LineTokens;
    var kept := front + [s];
    assert kept[..|front|] == front;
    assert forall k: nat | k < |front| :: kept[..k] == front[..k];
    forall k: nat | k < |front| ensures IsTakenShort(files, l, kept, k) <==> IsTakenShort(files, l, front, k) {
      assert kept[..k] == front[..k] && kept[k] == front[k];
    }
    if SomeTakenShort(files, l, front) {
      var k: nat :| k < |front| && IsTakenShort(files, l, front, k);
      assert IsTakenShort(files, l, kept, k);
    }
    if SomeTakenShort(files, l, kept) {
      var k: nat :| k < |kept| && IsTakenShort(files, l, kept, k);
      assert k < |front| ==> IsTakenShort(files, l, front, k);
    }
    if Offer(files, l, Run(files, l, front), s).Some? && Run(files, l, front).tokens < LineTokens(files, s.candidate) {
      assert IsTakenShort(files, l, kept, |front|);
    }
  }

  lemma {:induction false} RemainingTokens(files: Files, l: Limits, kept: seq<Scored>, cost: nat)
    requires l.maxTokens >= 0 && AllEven(files, kept) && LinesCostAtMost(files, kept, cost)
    ensures Run(files, l, kept).tokens < 0 <==> SomeTakenShort(files, l, kept)
    ensures Run(files, l, kept).tokens >= -Max(cost - 1, 0)
    decreases |kept|
  {
    hide Offer, SomeTakenShort, IsEven, LineTokens;
    if kept == [] {
      NoneTakenShort(files, l);
    } else {
      var front, s := kept[..|kept| - 1], kept[|kept| - 1];
      assert kept == front + [s];
      assert s in kept;
      RemainingTokens(files, l, front, cost);
      TakenShortInFront(files, l, front, s);
      var b := Run(files, l, front);
      assert Run(files, l, kept) == Step(files, l, b, s);
      if Offer(files, l, b, s).Some? {
        EvenOffer(files, l, b, s);
      }
    }
  }

  lemma NoneTakenShort(files: Files, l: Limits)
    ensures !SomeTakenShort(files, l, []) && Run(files, l, []).tokens == l.maxTokens
  {
  }

  lemma SpentAndLeft(files: Files, l: Limits, kept: seq<Scored>)
    ensures var b := Run(files, l, kept); TotalTokens(b.items) + b.tokens == l.maxTokens
    ensures l.maxTokens < 0 ==> TotalTokens(Run(files, l, kept).items) == 0
  {
    hide Run;
    RunStaysWithinBudget(files, l, kept);
    var items := Run(files, l, kept).items;
    assert items != [] ==> TakenWithRoom(l, items, 0) && items[..0] == [];
  }

  /**
    * For candidates of equally long lines the ceiling holds exactly when no candidate is taken while the tokens left
    * are fewer than one of its lines costs.
    */
  lemma CeilingHoldsExactlyWhen(files: Files, l: Limits, kept: seq<Scored>, cost: nat)
    requires AllEven(files, kept) && LinesCostAtMost(files, kept, cost)
    ensures l.maxTokens >= 0 ==>
      (TotalTokens(Run(files, l, kept).items) <= l.maxTokens <==> !SomeTakenShort(files, l, kept))
    ensures TotalTokens(Run(files, l, kept).items) <= Max(l.maxTokens, 0) + Max(cost - 1, 0)
  {
    hide Run, SomeTakenShort, AllEven, LinesCostAtMost;
    SpentAndLeft(files, l, kept);
    if l.maxTokens >= 0 {
      RemainingTokens(files, l, kept, cost);
    }
  }

  /** So lines of at most four characters never pass it, whatever the limits and the number of candidates. */
  lemma ShortLinesStayBelow(files: Files, l: Limits, kept: seq<Scored>)
    requires AllEven(files, kept)
    requires forall s | s in kept :: LineLength(files, s.candidate) <= CHARS_PER_TOKEN
    ensures TotalTokens(Run(files, l, kept).items) <= Max(l.maxTokens, 0)
  {
    hide Run, AllEven;
    forall s | s in kept ensures LineTokens(files, s.candidate) <= 1 {
      assert LineLength(files, s.candidate) <= CHARS_PER_TOKEN;
    }
    CeilingHoldsExactlyWhen(files, l, kept, 1);
  }

  /** The ceiling holds for every limits and every list of candidates whose lines are all of this length. */
  ghost predicate HoldsForLength(n: nat) {
    forall files: Files, l: Limits, kept: seq<Scored> | AllEven(files, kept) && AllLength(files, kept, n) ::
      TotalTokens(Run(files, l, kept).items) <= Max(l.maxTokens, 0)
  }

  ghost predicate AllLength(files: Files, kept: seq<Scored>, n: nat) {
    forall s | s in kept :: HasLines(files, s.candidate) && LineLength(files, s.candidate) == n
  }

  /** In terms of the length of lines alone, the ceiling is safe exactly up to four characters. */
  lemma LengthIsSafeExactlyWhen(n: nat)
    ensures HoldsForLength(n) <==> n <= CHARS_PER_TOKEN
  {
    hide Run, IsEven;
    if n <= CHARS_PER_TOKEN {
      forall files: Files, l: Limits, kept: seq<Scored> | AllEven(files, kept) && AllLength(files, kept, n)
        ensures TotalTokens(Run(files, l, kept).items) <= Max(l.maxTokens, 0) {
        ShortLinesStayBelow(files, l, kept);
      }
    } else {
      var text := seq(n, _ => 'x');
      var files: Files := _ => Some([text]);
      var s := Scored(Candidate(TargetSymbolItem, "f", None, 1, 1, TargetSymbol, 0, false, None), 0.0);
      var l := Limits(1, 1, 1, 1, 0.0, 1, None, None);
      OneLineIsEven(files, s.candidate, text);
      TokensCanOvershoot(files, l, s, text);
      assert AllEven(files, [s]) && AllLength(files, [s], n);
    }
  }

  lemma OneLineIsEven(files: Files, c: Candidate, text: string)
    requires files(c.filePath) == Some([text]) && c.startLine == 1 <= c.endLine
    ensures IsEven(files, c) && HasLines(files, c) && LineLength(files, c) == |text|
  {
    assert [text][0..1] == [text];
  }

  /** And a single candidate that is taken passes it exactly when one of its lines does. */
  lemma SingleCandidateFitsExactlyWhen(files: Files, l: Limits, s: Scored)
    requires IsEven(files, s.candidate) && Offer(files, l, Start(l), s).Some?
    ensures TotalTokens(Run(files, l, [s]).items) <= l.maxTokens <==> LineTokens(files, s.candidate) <= l.maxTokens
  {
    hide Offer, IsEven, LineTokens, SomeTakenShort;
    assert [s][..0] == [] && Run(files, l, []) == Start(l);
    EvenOffer(files, l, Start(l), s);
    assert Run(files, l, [s]) == Step(files, l, Start(l), s);
    SpentAndLeft(files, l, [s]);
  }

  // ----- Lines of different lengths

  /** Two lines of four characters and two empty ones: each costs at most one token. */
  function Uneven(): Option<seq<string>> { Some(["aaaa", "aaaa", "", ""]) }

  function TwoTokens(): Limits { Limits(2, 100, 2, 100, 0.0, 3, None, None) }

  lemma UnevenContent()
    ensures |JoinLines(["aaaa", "aaaa", "", ""])| == 11 && |JoinLines(["aaaa", "aaaa"])| == 9
  {
    var four := ["aaaa", "aaaa", "", ""];
    assert four[1..] == ["aaaa", "", ""] && ["aaaa", "", ""][1..] == ["", ""] && ["", ""][1..] == [""];
    assert |JoinLines([""])| == 0 && |JoinLines(["", ""])| == 1 && |JoinLines(["aaaa", "", ""])| == 6;
    assert ["aaaa", "aaaa"][1..] == ["aaaa"] && |JoinLines(["aaaa"])| == 4;
  }

  lemma UnevenFit(c: Candidate)
    requires c.startLine == 1 && c.endLine == 4 && c.anchorLine == None
    ensures var fit := Fit(Uneven(), c, 100, 2);
      fit.Some? && fit.value.content != [] && EstimateTokens(fit.value.content) == 3
  {
    hide JoinLines, EstimateTokens, Fit;
    UnevenContent();
    var lines := Uneven().value;
    assert lines[0..4] == lines && lines[0..2] == ["aaaa", "aaaa"];
    HalfIsTaken(lines, c);
  }

  lemma HalfIsTaken(lines: seq<string>, c: Candidate)
    requires c.startLine == 1 && c.endLine == 4 && c.anchorLine == None && |lines| == 4
    requires |JoinLines(lines[0..4])| == 11 && |JoinLines(lines[0..2])| == 9
    ensures var fit := Fit(Some(lines), c, 100, 2);
      fit.Some? && fit.value.content != [] && EstimateTokens(fit.value.content) == 3
  {
    hide JoinLines;
  }

  lemma CheapLines()
    ensures forall line | line in Uneven().value :: EstimateTokens(line) <= 1
  {
  }

  /**
    * With uneven lines the ceiling can be passed although every line fits it: the second extraction takes a share of
    * the lines as if all were equally long.
    */
  lemma UnevenLinesCanOvershoot(files: Files, s: Scored)
    requires s.candidate.kind == TargetSymbolItem && files(s.candidate.filePath) == Uneven()
    requires s.candidate.startLine == 1 && s.candidate.endLine == 4 && s.candidate.anchorLine == None
    requires !IsExpansion(s.candidate)
    ensures TotalTokens(Run(files, TwoTokens(), [s]).items) == 3
    ensures forall line | line in Uneven().value :: EstimateTokens(line) <= 1
  {
    hide Fit, EstimateTokens, Uneven, LineCap, TokenCap, TwoTokens, Run, TotalTokens, Start;
    var l, c := TwoTokens(), s.candidate;
    CapsOfTwo(c);
    UnevenFit(c);
    CheapLines();
    OneTaken(files, l, s);
  }

  lemma CapsOfTwo(c: Candidate)
    requires IsTarget(c) && !IsExpansion(c)
    ensures var l, b := TwoTokens(), Start(TwoTokens()); LineCap(l, b, c) == 100 && TokenCap(l, b, c) == 2
  {
    hide Truncate;
    NothingReserved();
  }

  lemma NothingReserved()
    ensures Truncate(100 as real * 0.0) == 0 && Truncate(2 as real * 0.0) == 0
  {
  }

  lemma OneTaken(files: Files, l: Limits, s: Scored)
    requires Offer(files, l, Start(l), s).Some?
    ensures TotalTokens(Run(files, l, [s]).items) == Offer(files, l, Start(l), s).value.tokens
  {
    hide Offer;
    assert [s][..0] == [] && Run(files, l, []) == Start(l);
    var items := Run(files, l, [s]).items;
    assert items == [Offer(files, l, Start(l), s).value] && items[..0] == [];
  }
}
