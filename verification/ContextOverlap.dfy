/** Greedy suppression of duplicate and overlapping candidates, best-ranked first. */
module ContextOverlap {
  import opened ContextDomain
  import opened Ordering

  // ----- Ranking

  predicate RankLe(x: Scored, y: Scored) {
    var c, d := x.candidate, y.candidate;
    if x.score != y.score then x.score > y.score
    else if c.relationship != d.relationship then Priority(c.relationship) < Priority(d.relationship)
    else if c.filePath != d.filePath then StringLe(c.filePath, d.filePath)
    else if c.startLine != d.startLine then c.startLine < d.startLine
    else StringLe(c.symbolId.GetOr(""), d.symbolId.GetOr(""))
  }

  lemma RankLeIsTotalPreorder()
    ensures TotalPreorder(RankLe)
  {
    forall x, y ensures RankLe(x, y) || RankLe(y, x) { RankLeTotal(x, y); }
    forall x, y, z | RankLe(x, y) && RankLe(y, z) ensures RankLe(x, z) { RankLeTransitive(x, y, z); }
  }

  lemma RankLeTotal(x: Scored, y: Scored)
    ensures RankLe(x, y) || RankLe(y, x)
  {
    hide StringLe;
    StringLeTotal(x.candidate.filePath, y.candidate.filePath);
    StringLeTotal(x.candidate.symbolId.GetOr(""), y.candidate.symbolId.GetOr(""));
  }

  lemma RankLeTransitive(x: Scored, y: Scored, z: Scored)
    requires RankLe(x, y) && RankLe(y, z)
    ensures RankLe(x, z)
  {
    hide StringLe;
    var c, d, e := x.candidate, y.candidate, z.candidate;
    if StringLe(c.filePath, d.filePath) && StringLe(d.filePath, e.filePath) {
      StringLeTransitive(c.filePath, d.filePath, e.filePath);
      if StringLe(e.filePath, d.filePath) {
        StringLeAntisymmetric(d.filePath, e.filePath);
      }
    }
    var s, t, u := c.symbolId.GetOr(""), d.symbolId.GetOr(""), e.symbolId.GetOr("");
    if StringLe(s, t) && StringLe(t, u) {
      StringLeTransitive(s, t, u);
    }
  }

  // ----- Suppression

  predicate IsDuplicate(a: Candidate, b: Candidate) {
    a.filePath == b.filePath && a.startLine == b.startLine && a.endLine == b.endLine && a.symbolId == b.symbolId
  }

  /** A parent always contains what is nested in it, so it takes no part in overlap suppression. */
  predicate IsExempt(c: Candidate) { c.kind == ParentSymbolItem }

  function Span(c: Candidate): int { c.endLine - c.startLine + 1 }

  function OverlapLines(a: Candidate, b: Candidate): nat {
    Max(0, Min(a.endLine, b.endLine) - Max(a.startLine, b.startLine) + 1)
  }

  /** At least three fifths of the smaller span is shared. */
  predicate IsOverlap(a: Candidate, b: Candidate) {
    && a.filePath == b.filePath && !IsExempt(a) && !IsExempt(b)
    && OverlapLines(a, b) != 0
    && var smaller := Min(Span(a), Span(b)); smaller > 0 && OverlapLines(a, b) * 5 >= smaller * 3
  }

  predicate Suppresses(a: Scored, b: Scored) {
    IsDuplicate(a.candidate, b.candidate) || IsOverlap(a.candidate, b.candidate)
  }

  lemma SuppressionIsSymmetric(a: Scored, b: Scored)
    ensures Suppresses(a, b) <==> Suppresses(b, a)
  {
  }

  /**
    * A non-empty span nested in another of the same file is suppressed, however small it is beside the other, exactly
    * if it is a duplicate or neither is exempt: the ratio is taken of the smaller span.
    */
  lemma NestedSpansAreSuppressed(outer: Scored, inner: Scored)
    requires outer.candidate.filePath == inner.candidate.filePath
    requires outer.candidate.startLine <= inner.candidate.startLine
    requires inner.candidate.startLine <= inner.candidate.endLine <= outer.candidate.endLine
    ensures Suppresses(outer, inner)
      <==> || IsDuplicate(outer.candidate, inner.candidate)
           || (!IsExempt(outer.candidate) && !IsExempt(inner.candidate))
  {
    assert OverlapLines(outer.candidate, inner.candidate) == Span(inner.candidate);
  }

  // ----- What the ranking and the suppression say of lines

  ghost predicate Lies(line: int, from: int, to: int) { from <= line <= to }

  ghost function Between(from: int, to: int): set<int> { set line | from <= line <= to && Lies(line, from, to) }

  ghost function LinesIn(c: Candidate): set<int> { Between(c.startLine, c.endLine) }

  ghost function Shared(a: Candidate, b: Candidate): set<int> { LinesIn(a) * LinesIn(b) }

  /** One span for one symbol, or neither a parent and at least three fifths of the shorter span shared. */
  ghost predicate StandsFor(a: Candidate, b: Candidate) {
    a.filePath == b.filePath
    && (|| (a.startLine == b.startLine && a.endLine == b.endLine && a.symbolId == b.symbolId)
        || (&& a.kind != ParentSymbolItem && b.kind != ParentSymbolItem && Shared(a, b) != {}
            && (5 * |Shared(a, b)| >= 3 * |LinesIn(a)| || 5 * |Shared(a, b)| >= 3 * |LinesIn(b)|)))
  }

  lemma {:induction false} LineCount(from: int, n: nat)
    ensures |Between(from, from + n - 1)| == n
    decreases n
  {
    if n == 0 {
      assert Between(from, from - 1) == {};
    } else {
      LineCount(from, n - 1);
      assert Between(from, from + n - 1) == Between(from, from + (n - 1) - 1) + {from + n - 1};
    }
  }

  /** Candidates suppress each other exactly when they stand for each other; a span may have no lines. */
  lemma SuppressionMeans(a: Scored, b: Scored)
    ensures Suppresses(a, b) <==> StandsFor(a.candidate, b.candidate)
  {
    var c, d := a.candidate, b.candidate;
    hide Between;
    var from, to := Max(c.startLine, d.startLine), Min(c.endLine, d.endLine);
    CountBetween(c.startLine, c.endLine);
    CountBetween(d.startLine, d.endLine);
    CountBetween(from, to);
    CommonLines(c.startLine, c.endLine, d.startLine, d.endLine);
  }

  lemma CountBetween(from: int, to: int)
    ensures |Between(from, to)| == Max(0, to - from + 1)
    ensures Between(from, to) == {} <==> to < from
  {
    if to < from {
      assert Between(from, to) == {};
    } else {
      LineCount(from, to - from + 1);
      assert from in Between(from, to);
    }
  }

  lemma CommonLines(a: int, b: int, c: int, d: int)
    ensures Between(a, b) * Between(c, d) == Between(Max(a, c), Min(b, d))
  {
  }

  const RELATIONSHIPS := [
    TargetSymbol, TestsTargetFile, DirectCaller, DirectCallee, ParentSymbol, ImportDependency, IncludeDependency,
    SiblingSymbol, TransitiveCaller, TransitiveCallee]

  ghost function Place(r: Relationship): nat
    ensures Place(r) < |RELATIONSHIPS| && RELATIONSHIPS[Place(r)] == r
  {
    Priority(r)
  }

  /** Higher score first; then the nearer relationship, the path, the start line and the symbol. */
  ghost predicate IsRankedBefore(x: Scored, y: Scored) {
    var c, d := x.candidate, y.candidate;
    && (x.score != y.score ==> x.score > y.score)
    && (x.score == y.score && c.relationship != d.relationship ==>
          exists i, j :: 0 <= i < j < |RELATIONSHIPS| && RELATIONSHIPS[i] == c.relationship
                         && RELATIONSHIPS[j] == d.relationship)
    && (x.score == y.score && c.relationship == d.relationship ==>
          && (c.filePath != d.filePath ==> ComesFirst(c.filePath, d.filePath))
          && (c.filePath == d.filePath ==> c.startLine <= d.startLine)
          && (c.filePath == d.filePath && c.startLine == d.startLine ==> ComesFirst(IdOf(c), IdOf(d))))
  }

  ghost function IdOf(c: Candidate): string { if c.symbolId.Some? then c.symbolId.value else "" }

  lemma RankingMeans(x: Scored, y: Scored)
    ensures RankLe(x, y) <==> IsRankedBefore(x, y)
  {
    hide StringLe, ComesFirst;
    var c, d := x.candidate, y.candidate;
    StringLeMeans(c.filePath, d.filePath);
    StringLeMeans(IdOf(c), IdOf(d));
    assert forall k | 0 <= k < |RELATIONSHIPS| :: Priority(RELATIONSHIPS[k]) == k;
    assert RELATIONSHIPS[Place(c.relationship)] == c.relationship
      && RELATIONSHIPS[Place(d.relationship)] == d.relationship;
  }

  // ----- The filter

  datatype Verdict = Keep | Duplicate | Overlap

  /** The first kept candidate that suppresses this one decides which counter goes up. */
  function Judge(kept: seq<Scored>, s: Scored): Verdict {
    if kept == [] then Keep
    else if IsDuplicate(kept[0].candidate, s.candidate) then Duplicate
    else if IsOverlap(kept[0].candidate, s.candidate) then Overlap
    else Judge(kept[1..], s)
  }

  datatype DedupResult = DedupResult(kept: seq<Scored>, droppedDuplicate: nat, droppedOverlap: nat)

  function Decide(r: DedupResult, s: Scored): DedupResult {
    match Judge(r.kept, s)
    case Keep => r.(kept := r.kept + [s])
    case Duplicate => r.(droppedDuplicate := r.droppedDuplicate + 1)
    case Overlap => r.(droppedOverlap := r.droppedOverlap + 1)
  }

  function Filter(ordered: seq<Scored>): DedupResult {
    if ordered == [] then DedupResult([], 0, 0)
    else Decide(Filter(ordered[..|ordered| - 1]), ordered[|ordered| - 1])
  }

  function Deduplicated(candidates: seq<Scored>): DedupResult { Filter(Sort(candidates, RankLe)) }

  method Deduplicate(candidates: seq<Scored>) returns (r: DedupResult)
    ensures r == Deduplicated(candidates)
  {
    hide IsDuplicate, IsOverlap, RankLe;
    var ordered := Sort(candidates, RankLe);
    var kept: seq<Scored>, droppedDuplicate, droppedOverlap := [], 0, 0;
    for k := 0 to |ordered|
      invariant DedupResult(kept, droppedDuplicate, droppedOverlap) == Filter(ordered[..k])
    {
      assert ordered[..k + 1][..k] == ordered[..k];
      var scored := ordered[k];
      var isDuplicate, isOverlap := false, false;
      var i := 0;
      while i < |kept|
        invariant 0 <= i <= |kept| && !isDuplicate && !isOverlap
        invariant Judge(kept, scored) == Judge(kept[i..], scored)
      {
        var other := kept[i];
        if IsDuplicate(other.candidate, scored.candidate) {
          isDuplicate := true;
          break;
        }
        if IsOverlap(other.candidate, scored.candidate) {
          isOverlap := true;
          break;
        }
        i := i + 1;
      }
      if isDuplicate {
        droppedDuplicate := droppedDuplicate + 1;
        continue;
      }
      if isOverlap {
        droppedOverlap := droppedOverlap + 1;
        continue;
      }
      kept := kept + [scored];
    }
    assert ordered[..|ordered|] == ordered;
    r := DedupResult(kept, droppedDuplicate, droppedOverlap);
  }

  // ----- What the filter keeps

  ghost predicate SomeSuppresses(kept: seq<Scored>, s: Scored) { exists k | k in kept :: Suppresses(k, s) }

  lemma {:induction false} JudgeMeans(kept: seq<Scored>, s: Scored)
    ensures Judge(kept, s) != Keep <==> SomeSuppresses(kept, s)
  {
    hide IsDuplicate, IsOverlap;
    if kept != [] {
      JudgeMeans(kept[1..], s);
      if k :| k in kept && Suppresses(k, s) {
        assert k == kept[0] || k in kept[1..];
      }
      assert Suppresses(kept[0], s) ==> kept[0] in kept && SomeSuppresses(kept, s);
      if k :| k in kept[1..] && Suppresses(k, s) {
        assert k in kept;
      }
    }
  }

  /** Marks that keep exactly the candidates no earlier kept one suppresses. */
  ghost predicate IsGreedy(ordered: seq<Scored>, marks: seq<bool>) {
    && |marks| == |ordered|
    && forall i: nat | i < |ordered| :: marks[i] <==> !SuppressedBefore(ordered, marks, i)
  }

  ghost predicate SuppressedBefore(ordered: seq<Scored>, marks: seq<bool>, i: nat)
    requires i < |ordered| == |marks|
  {
    exists j: nat | j < i :: marks[j] && Suppresses(ordered[j], ordered[i])
  }

  function Marked(ordered: seq<Scored>, marks: seq<bool>): seq<Scored>
    requires |marks| == |ordered|
  {
    if ordered == [] then []
    else
      var k := |ordered| - 1;
      Marked(ordered[..k], marks[..k]) + if marks[k] then [ordered[k]] else []
  }

  lemma {:induction false} MarkedHas(ordered: seq<Scored>, marks: seq<bool>, s: Scored)
    requires |marks| == |ordered|
    ensures s in Marked(ordered, marks) <==> exists j: nat | j < |ordered| :: marks[j] && ordered[j] == s
    decreases |ordered|
  {
    if ordered != [] {
      var k := |ordered| - 1;
      MarkedHas(ordered[..k], marks[..k], s);
      if s in Marked(ordered[..k], marks[..k]) {
        var j: nat :| j < k && marks[..k][j] && ordered[..k][j] == s;
        assert marks[j] && ordered[j] == s;
      }
      if j: nat :| j < |ordered| && marks[j] && ordered[j] == s {
        if j < k {
          assert marks[..k][j] && ordered[..k][j] == s;
        }
      }
    }
  }

  /** The filter computes the one greedy selection: any marks that satisfy the rule mark exactly what it keeps. */
  lemma {:induction false} KeptIsTheGreedySelection(ordered: seq<Scored>, marks: seq<bool>)
    requires IsGreedy(ordered, marks)
    ensures Filter(ordered).kept == Marked(ordered, marks)
    decreases |ordered|
  {
    hide Suppresses, Judge;
    if ordered != [] {
      var k := |ordered| - 1;
      var front, ahead := ordered[..k], marks[..k];
      forall i: nat | i < k ensures ahead[i] <==> !SuppressedBefore(front, ahead, i) {
        SuppressionLooksBack(ordered, marks, i, k);
      }
      KeptIsTheGreedySelection(front, ahead);
      var kept := Filter(front).kept;
      JudgeMeans(kept, ordered[k]);
      LastIsSuppressed(ordered, marks, k);
    }
  }

  lemma SuppressionLooksBack(ordered: seq<Scored>, marks: seq<bool>, i: nat, k: nat)
    requires i < k <= |ordered| == |marks|
    ensures SuppressedBefore(ordered, marks, i) <==> SuppressedBefore(ordered[..k], marks[..k], i)
  {
    hide Suppresses;
    if j: nat :| j < i && marks[j] && Suppresses(ordered[j], ordered[i]) {
      assert marks[..k][j] && Suppresses(ordered[..k][j], ordered[..k][i]);
    }
    if j: nat :| j < i && marks[..k][j] && Suppresses(ordered[..k][j], ordered[..k][i]) {
      assert marks[j] && Suppresses(ordered[j], ordered[i]);
    }
  }

  lemma LastIsSuppressed(ordered: seq<Scored>, marks: seq<bool>, k: nat)
    requires |ordered| == |marks| == k + 1
    ensures SuppressedBefore(ordered, marks, k) <==> SomeSuppresses(Marked(ordered[..k], marks[..k]), ordered[k])
  {
    hide Suppresses, Marked;
    var kept := Marked(ordered[..k], marks[..k]);
    if SuppressedBefore(ordered, marks, k) {
      var j: nat :| j < k && marks[j] && Suppresses(ordered[j], ordered[k]);
      MarkedHas(ordered[..k], marks[..k], ordered[j]);
      assert marks[..k][j] && ordered[..k][j] == ordered[j];
    }
    if s :| s in kept && Suppresses(s, ordered[k]) {
      MarkedHas(ordered[..k], marks[..k], s);
      var j: nat :| j < k && marks[..k][j] && ordered[..k][j] == s;
      assert marks[j] && ordered[j] == s;
    }
  }

  ghost predicate NoneSuppressesAnother(kept: seq<Scored>) {
    forall i, j | 0 <= i < j < |kept| :: !Suppresses(kept[i], kept[j])
  }

  /** Something kept from `kept`, of no worse rank and in the same file, stands in for `s`. */
  ghost predicate StandsIn(kept: seq<Scored>, s: Scored) {
    exists k | k in kept :: Suppresses(k, s) && RankLe(k, s) && k.candidate.filePath == s.candidate.filePath
  }

  ghost predicate IsFiltered(ordered: seq<Scored>, r: DedupResult) {
    && Ascending(r.kept, RankLe) && NoneSuppressesAnother(r.kept)
    && multiset(r.kept) <= multiset(ordered)
    && (forall s | s in ordered :: s in r.kept || StandsIn(r.kept, s))
    && |r.kept| + r.droppedDuplicate + r.droppedOverlap == |ordered|
  }

  lemma {:induction false} FilterIsMaximal(ordered: seq<Scored>)
    requires Ascending(ordered, RankLe)
    ensures IsFiltered(ordered, Filter(ordered))
    decreases |ordered|
  {
    if ordered != [] {
      var k := |ordered| - 1;
      FilterIsMaximal(ordered[..k]);
      DecideKeepsFiltered(ordered[..k], Filter(ordered[..k]), ordered[k]);
      assert ordered == ordered[..k] + [ordered[k]];
    }
  }

  lemma DecideKeepsFiltered(front: seq<Scored>, r: DedupResult, s: Scored)
    requires IsFiltered(front, r) && forall x | x in front :: RankLe(x, s)
    ensures IsFiltered(front + [s], Decide(r, s))
  {
    hide RankLe, Suppresses, Judge;
    var after := Decide(r, s);
    JudgeMeans(r.kept, s);
    forall x | x in r.kept ensures RankLe(x, s) {
      assert x in multiset(r.kept);
      assert x in multiset(front);
    }
    if SomeSuppresses(r.kept, s) {
      var x :| x in r.kept && Suppresses(x, s);
      SameFile(x, s);
      assert StandsIn(r.kept, s);
    }
    forall x | x in front + [s] ensures x in after.kept || StandsIn(after.kept, x) {
      if x in front && x !in r.kept {
        var y :| y in r.kept && Suppresses(y, x) && RankLe(y, x) && y.candidate.filePath == x.candidate.filePath;
        assert y in after.kept;
      }
    }
  }

  lemma SameFile(a: Scored, b: Scored)
    requires Suppresses(a, b)
    ensures a.candidate.filePath == b.candidate.filePath
  {
  }

  /**
    * For every list of candidates: the kept ones are in rank order, none suppresses another, each was a candidate,
    * every candidate is kept or has a kept stand-in of no worse rank in its file, and the counts add up.
    */
  lemma SelectionIsMaximal(candidates: seq<Scored>)
    ensures IsFiltered(candidates, Deduplicated(candidates))
  {
    hide RankLe, Filter;
    var ordered := Sort(candidates, RankLe);
    RankLeIsTotalPreorder();
    SortIsAscending(candidates, RankLe);
    SortIsPermutation(candidates, RankLe);
    FilterIsMaximal(ordered);
    var r := Filter(ordered);
    forall s | s in candidates ensures s in r.kept || StandsIn(r.kept, s) {
      assert s in multiset(candidates);
      assert s in multiset(ordered);
      assert s in ordered;
    }
  }

  /** The best score always survives, at the front, and scores only fall from there. */
  lemma BestScoreComesFirst(candidates: seq<Scored>)
    requires candidates != []
    ensures var kept := Deduplicated(candidates).kept;
      && kept != [] && (forall s | s in candidates :: kept[0].score >= s.score)
      && forall i, j | 0 <= i < j < |kept| :: kept[i].score >= kept[j].score
  {
    hide RankLe, Suppresses, Deduplicated;
    SelectionIsMaximal(candidates);
    var kept := Deduplicated(candidates).kept;
    assert candidates[0] in candidates;
    forall i, j | 0 <= i < j < |kept| ensures kept[i].score >= kept[j].score {
      BetterRankScoresMore(kept[i], kept[j]);
    }
    forall s | s in candidates ensures kept != [] && kept[0].score >= s.score {
      if s !in kept {
        var k :| k in kept && Suppresses(k, s) && RankLe(k, s) && k.candidate.filePath == s.candidate.filePath;
        BetterRankScoresMore(k, s);
      }
    }
  }

  lemma BetterRankScoresMore(x: Scored, y: Scored)
    requires RankLe(x, y)
    ensures x.score >= y.score
    ensures x.score == y.score ==> Priority(x.candidate.relationship) <= Priority(y.candidate.relationship)
  {
  }

  /** Filtering a selection again changes nothing. */
  lemma FilteringTwiceChangesNothing(candidates: seq<Scored>)
    ensures Deduplicated(Deduplicated(candidates).kept) == DedupResult(Deduplicated(candidates).kept, 0, 0)
  {
    hide RankLe, Filter, Suppresses;
    var kept := Deduplicated(candidates).kept;
    SelectionIsMaximal(candidates);
    SortFixesAscending(kept, RankLe);
    FilterFixes(kept);
  }

  lemma {:induction false} FilterFixes(kept: seq<Scored>)
    requires NoneSuppressesAnother(kept)
    ensures Filter(kept) == DedupResult(kept, 0, 0)
    decreases |kept|
  {
    hide Suppresses, Judge, SomeSuppresses, Decide;
    if kept != [] {
      var k := |kept| - 1;
      FilterFixes(kept[..k]);
      JudgeMeans(kept[..k], kept[k]);
      NoneSuppressesLast(kept, k);
      DecideKeeps(kept[..k], kept[k]);
      assert kept == kept[..k] + [kept[k]];
    }
  }

  lemma DecideKeeps(front: seq<Scored>, s: Scored)
    requires Judge(front, s) == Keep
    ensures Decide(DedupResult(front, 0, 0), s) == DedupResult(front + [s], 0, 0)
  {
    hide Judge;
  }

  lemma NoneSuppressesLast(kept: seq<Scored>, k: nat)
    requires NoneSuppressesAnother(kept) && k < |kept|
    ensures !SomeSuppresses(kept[..k], kept[k])
  {
    hide Suppresses;
  }

  /** When no two rank keys tie, the result does not depend on the order the candidates came in. */
  lemma SelectionIgnoresInputOrder(xs: seq<Scored>, ys: seq<Scored>)
    requires multiset(xs) == multiset(ys)
    requires DistinctKeys(xs, RankLe)
    ensures Deduplicated(xs) == Deduplicated(ys)
  {
    hide RankLe, Filter;
    RankLeIsTotalPreorder();
    SortIgnoresInputOrder(xs, ys, RankLe);
  }

  // ----- Which ties matter

  predicate AreTied(x: Scored, y: Scored) { RankLe(x, y) && RankLe(y, x) }

  /** What the filter makes of `rest` after a state. */
  function Continue(r: DedupResult, rest: seq<Scored>): DedupResult
    decreases |rest|
  {
    if rest == [] then r else Continue(Decide(r, rest[0]), rest[1..])
  }

  lemma {:induction false} FilterContinues(done: seq<Scored>, rest: seq<Scored>)
    ensures Filter(done + rest) == Continue(Filter(done), rest)
    decreases |rest|
  {
    hide Decide;
    if rest == [] {
      assert done + rest == done;
    } else {
      var more := done + [rest[0]];
      assert more[..|more| - 1] == done;
      assert done + rest == more + rest[1..];
      FilterContinues(more, rest[1..]);
    }
  }

  /** A candidate that is suppressed already is judged the same after more has been kept. */
  lemma {:induction false} JudgeIgnoresLater(kept: seq<Scored>, more: seq<Scored>, s: Scored)
    requires Judge(kept, s) != Keep
    ensures Judge(kept + more, s) == Judge(kept, s)
  {
    hide IsDuplicate, IsOverlap;
    if kept != [] {
      assert (kept + more)[1..] == kept[1..] + more;
      if Judge(kept[1..], s) != Keep {
        JudgeIgnoresLater(kept[1..], more, s);
      }
    }
  }

  lemma DecideOnlyAppends(r: DedupResult, s: Scored)
    ensures r.kept <= Decide(r, s).kept
    ensures forall x :: Judge(r.kept, x) != Keep ==> Judge(Decide(r, s).kept, x) == Judge(r.kept, x)
  {
    hide Judge;
    forall x | Judge(r.kept, x) != Keep ensures Judge(Decide(r, s).kept, x) == Judge(r.kept, x) {
      JudgeIgnoresLater(r.kept, [s], x);
    }
  }

  lemma {:induction false} ContinueOnlyAppends(r: DedupResult, rest: seq<Scored>)
    ensures r.kept <= Continue(r, rest).kept
    decreases |rest|
  {
    hide Decide;
    if rest != [] {
      DecideOnlyAppends(r, rest[0]);
      ContinueOnlyAppends(Decide(r, rest[0]), rest[1..]);
    }
  }

  /** Which of the two comes first makes no difference. */
  ghost predicate Commute(r: DedupResult, x: Scored, y: Scored) {
    x == y || Judge(r.kept, x) != Keep || Judge(r.kept, y) != Keep
  }

  lemma DecideCommutes(r: DedupResult, x: Scored, y: Scored)
    requires Commute(r, x, y)
    ensures Decide(Decide(r, x), y) == Decide(Decide(r, y), x)
  {
    hide Judge;
    DecideOnlyAppends(r, x);
    DecideOnlyAppends(r, y);
  }

  lemma {:induction false} MovedToFront(r: DedupResult, before: seq<Scored>, x: Scored, after: seq<Scored>)
    requires forall m | m in before :: Commute(r, x, m)
    ensures Continue(r, before + [x] + after) == Continue(r, [x] + (before + after))
    decreases |before|
  {
    hide Decide, Commute;
    if before == [] {
      assert before + [x] + after == [x] + (before + after);
    } else {
      var m, rest := before[0], before[1..];
      assert before == [m] + rest;
      var r' := Decide(r, m);
      forall n | n in rest ensures Commute(r', x, n) {
        assert n in before;
        CommuteStays(r, m, x, n);
      }
      MovedToFront(r', rest, x, after);
      assert (before + [x] + after)[1..] == rest + [x] + after;
      assert ([x] + (rest + after))[1..] == rest + after;
      assert ([x] + (before + after))[1..] == before + after && (before + after)[1..] == rest + after;
      assert m in before;
      DecideCommutes(r, x, m);
    }
  }

  lemma CommuteStays(r: DedupResult, m: Scored, x: Scored, n: Scored)
    requires Commute(r, x, n)
    ensures Commute(Decide(r, m), x, n)
  {
    hide Judge, Decide;
    DecideOnlyAppends(r, m);
  }

  /** Whenever a candidate's turn comes, it commutes with every later one that ties with it. */
  ghost predicate IsSettled(r: DedupResult, rest: seq<Scored>)
    decreases |rest|
  {
    rest != [] ==>
      && (forall m | m in rest && AreTied(rest[0], m) :: Commute(r, rest[0], m))
      && IsSettled(Decide(r, rest[0]), rest[1..])
  }

  lemma {:induction false} SettledTiesDoNotMatter(r: DedupResult, xs: seq<Scored>, ys: seq<Scored>)
    requires IsSettled(r, xs) && Ascending(xs, RankLe) && Ascending(ys, RankLe) && multiset(xs) == multiset(ys)
    ensures Continue(r, xs) == Continue(r, ys)
    decreases |xs|
  {
    hide RankLe, Decide, Commute;
    assert |multiset(xs)| == |xs| && |multiset(ys)| == |ys|;
    if xs != [] {
      var x := xs[0];
      assert x in multiset(ys);
      var j :| 0 <= j < |ys| && ys[j] == x;
      var before, after := ys[..j], ys[j + 1..];
      forall m | m in before ensures Commute(r, x, m) {
        TiedWithFirst(xs, ys, j, m);
      }
      MovedToFront(r, before, x, after);
      WithoutOne(ys, j);
      MultisetOfTail(xs);
      ContinueFirst(r, x, before + after);
      SettledTiesDoNotMatter(Decide(r, x), xs[1..], before + after);
    }
  }

  lemma ContinueFirst(r: DedupResult, x: Scored, rest: seq<Scored>)
    ensures Continue(r, [x] + rest) == Continue(Decide(r, x), rest)
  {
    hide Decide;
    assert ([x] + rest)[1..] == rest;
  }

  lemma WithoutOne(ys: seq<Scored>, j: nat)
    requires j < |ys| && Ascending(ys, RankLe)
    ensures ys == ys[..j] + [ys[j]] + ys[j + 1..]
    ensures Ascending(ys[..j] + ys[j + 1..], RankLe)
    ensures multiset(ys[..j] + ys[j + 1..]) == multiset(ys) - multiset{ys[j]}
  {
    hide RankLe;
    assert ys == ys[..j] + [ys[j]] + ys[j + 1..];
  }

  lemma TiedWithFirst(xs: seq<Scored>, ys: seq<Scored>, j: nat, m: Scored)
    requires Ascending(xs, RankLe) && Ascending(ys, RankLe) && multiset(xs) == multiset(ys)
    requires xs != [] && j < |ys| && ys[j] == xs[0] && m in ys[..j]
    ensures m in xs && AreTied(xs[0], m)
  {
    hide RankLe;
    var i :| 0 <= i < j && ys[i] == m;
    assert m in multiset(ys);
    assert m in multiset(xs);
    var k :| 0 <= k < |xs| && xs[k] == m;
    assert RankLe(ys[i], ys[j]);
    if k > 0 {
      assert RankLe(xs[0], xs[k]);
    }
  }

  /** Two tied candidates, neither of them suppressed when their turn comes, can trade places, and that shows. */
  lemma TradingPlacesShows(r: DedupResult, x: Scored, y: Scored, before: seq<Scored>, after: seq<Scored>)
    requires !Commute(r, x, y)
    ensures Continue(r, [x] + before + [y] + after) != Continue(r, [y] + before + [x] + after)
  {
    hide Judge;
    var xs, ys := [x] + before + [y] + after, [y] + before + [x] + after;
    ContinueOnlyAppends(Decide(r, x), xs[1..]);
    ContinueOnlyAppends(Decide(r, y), ys[1..]);
    var n := |r.kept|;
    assert Decide(r, x).kept[n] == x && Decide(r, y).kept[n] == y;
    assert Continue(r, xs).kept[n] == x && Continue(r, ys).kept[n] == y;
  }

  /** Some arrangement of `rest` that is in order gives another result. */
  ghost predicate HasOtherResult(r: DedupResult, rest: seq<Scored>) {
    exists other :: IsOtherArrangement(rest, other) && Continue(r, other) != Continue(r, rest)
  }

  ghost predicate IsOtherArrangement(rest: seq<Scored>, other: seq<Scored>) {
    multiset(other) == multiset(rest) && Ascending(other, RankLe)
  }

  lemma {:induction false} UnsettledTiesMatter(r: DedupResult, rest: seq<Scored>)
    requires Ascending(rest, RankLe) && !IsSettled(r, rest)
    ensures HasOtherResult(r, rest)
    decreases |rest|
  {
    hide RankLe, Decide, Commute;
    var x, tail := rest[0], rest[1..];
    if m :| m in rest && AreTied(x, m) && !Commute(r, x, m) {
      SwapFirst(r, rest, m);
    } else {
      UnsettledTiesMatter(Decide(r, x), tail);
      var other :| IsOtherArrangement(tail, other) && Continue(Decide(r, x), other) != Continue(Decide(r, x), tail);
      FirstStillFirst(rest, other);
      assert ([x] + other)[1..] == other;
      assert IsOtherArrangement(rest, [x] + other) && Continue(r, [x] + other) != Continue(r, rest);
    }
  }

  lemma FirstStillFirst(rest: seq<Scored>, other: seq<Scored>)
    requires rest != [] && Ascending(rest, RankLe) && IsOtherArrangement(rest[1..], other)
    ensures IsOtherArrangement(rest, [rest[0]] + other)
  {
    hide RankLe;
    var x := rest[0];
    assert rest == [x] + rest[1..];
    forall k | 0 <= k < |other| ensures RankLe(x, other[k]) {
      assert other[k] in multiset(other);
      assert other[k] in multiset(rest[1..]);
      var i :| 0 <= i < |rest[1..]| && rest[1..][i] == other[k];
      assert RankLe(rest[0], rest[i + 1]);
    }
  }

  lemma SwapFirst(r: DedupResult, rest: seq<Scored>, m: Scored)
    requires rest != [] && Ascending(rest, RankLe) && m in rest && AreTied(rest[0], m) && !Commute(r, rest[0], m)
    ensures HasOtherResult(r, rest)
  {
    hide RankLe, Decide, Continue, AreTied, Judge, IsOtherArrangement;
    var x := rest[0];
    var k :| 0 <= k < |rest| && rest[k] == m;
    var before, after := rest[1..k], rest[k + 1..];
    var other := [m] + before + [x] + after;
    SwappedParts(rest, k);
    TradingPlacesShows(r, x, m, before, after);
    assert IsOtherArrangement(rest, other);
  }

  lemma SwappedParts(rest: seq<Scored>, k: nat)
    requires 0 < k < |rest| && Ascending(rest, RankLe) && AreTied(rest[0], rest[k])
    ensures rest == [rest[0]] + rest[1..k] + [rest[k]] + rest[k + 1..]
    ensures IsOtherArrangement(rest, [rest[k]] + rest[1..k] + [rest[0]] + rest[k + 1..])
  {
    hide RankLe, AreTied, Ascending;
    SwapByParts(rest, k);
    SameElements([rest[0]], rest[1..k], [rest[k]], rest[k + 1..]);
    SwappedIsAscending(rest, k);
  }

  lemma SwapByParts<T>(s: seq<T>, k: nat)
    requires 0 < k < |s|
    ensures s == [s[0]] + s[1..k] + [s[k]] + s[k + 1..]
    ensures s[0 := s[k]][k := s[0]] == [s[k]] + s[1..k] + [s[0]] + s[k + 1..]
  {
  }

  lemma SameElements<T>(a: seq<T>, b: seq<T>, c: seq<T>, d: seq<T>)
    ensures multiset(c + b + a + d) == multiset(a + b + c + d)
  {
  }

  lemma SwappedIsAscending(rest: seq<Scored>, k: nat)
    requires 0 < k < |rest| && Ascending(rest, RankLe) && AreTied(rest[0], rest[k])
    ensures Ascending(rest[0 := rest[k]][k := rest[0]], RankLe)
  {
    hide RankLe;
    RankLeIsTotalPreorder();
    var other := rest[0 := rest[k]][k := rest[0]];
    forall i, j | 0 <= i < j < |rest| ensures RankLe(other[i], other[j]) {
      assert RankLe(rest[i], rest[j]);
      assert RankLe(rest[0], rest[j]) && (i > 0 ==> RankLe(rest[0], rest[i]));
      assert i < k ==> RankLe(rest[i], rest[k]);
      assert k < j ==> RankLe(rest[k], rest[j]);
    }
  }

  /** Two tied candidates that differ: one of them is suppressed by what is kept before the first of them. */
  ghost predicate TiesAreSettled(ordered: seq<Scored>) {
    forall i, j | 0 <= i < j < |ordered| && AreTied(ordered[i], ordered[j]) :: IsSettledPair(ordered, i, j)
  }

  ghost predicate IsSettledPair(ordered: seq<Scored>, i: nat, j: nat)
    requires i < j < |ordered|
  {
    var kept := Filter(ordered[..i]).kept;
    ordered[i] == ordered[j] || SomeSuppresses(kept, ordered[i]) || SomeSuppresses(kept, ordered[j])
  }

  lemma {:induction false} SettledStepwise(ordered: seq<Scored>, i: nat)
    requires i <= |ordered|
    ensures IsSettled(Filter(ordered[..i]), ordered[i..])
      <==> forall a, b | i <= a < b < |ordered| && AreTied(ordered[a], ordered[b]) :: IsSettledPair(ordered, a, b)
    decreases |ordered| - i
  {
    hide RankLe, Decide, SomeSuppresses, Judge, IsSettledPair;
    if i < |ordered| {
      var r, rest := Filter(ordered[..i]), ordered[i..];
      SettledStepwise(ordered, i + 1);
      assert ordered[..i + 1][..i] == ordered[..i] && rest[1..] == ordered[i + 1..];
      forall b | i < b < |ordered| ensures Commute(r, ordered[i], ordered[b]) <==> IsSettledPair(ordered, i, b) {
        PairCommutes(ordered, i, b);
      }
      FirstCommutes(r, ordered, i);
    }
  }

  lemma PairCommutes(ordered: seq<Scored>, i: nat, b: nat)
    requires i < b < |ordered|
    ensures Commute(Filter(ordered[..i]), ordered[i], ordered[b]) <==> IsSettledPair(ordered, i, b)
  {
    hide Filter, Judge, SomeSuppresses;
    var kept := Filter(ordered[..i]).kept;
    JudgeMeans(kept, ordered[i]);
    JudgeMeans(kept, ordered[b]);
  }

  lemma FirstCommutes(r: DedupResult, ordered: seq<Scored>, i: nat)
    requires i < |ordered|
    ensures (forall m | m in ordered[i..] && AreTied(ordered[i], m) :: Commute(r, ordered[i], m))
      <==> forall b | i < b < |ordered| && AreTied(ordered[i], ordered[b]) :: Commute(r, ordered[i], ordered[b])
  {
    hide RankLe, Judge;
    var rest := ordered[i..];
    forall b | i < b < |ordered| ensures ordered[b] in rest {
      assert rest[b - i] == ordered[b];
    }
    forall m | m in rest ensures m == ordered[i] || exists b :: i < b < |ordered| && ordered[b] == m {
      var k :| 0 <= k < |rest| && rest[k] == m;
      assert ordered[i + k] == m;
    }
  }

  ghost predicate IgnoresInputOrder(candidates: seq<Scored>) {
    forall other | multiset(other) == multiset(candidates) :: Deduplicated(other) == Deduplicated(candidates)
  }

  /**
    * The result is independent of the order of the input exactly when every tie is settled: of two candidates that tie
    * and differ, one is already suppressed by what is kept before the first of them.
    */
  lemma InputOrderIsIgnoredExactlyWhen(candidates: seq<Scored>)
    ensures IgnoresInputOrder(candidates) <==> TiesAreSettled(Sort(candidates, RankLe))
  {
    hide RankLe, Sort, Filter, IsSettledPair, Deduplicated, IsSettled, Continue, Ascending;
    var ordered := Sort(candidates, RankLe);
    SettledStepwise(ordered, 0);
    assert ordered[..0] == [] && ordered[0..] == ordered;
    if IsSettled(Filter([]), ordered) {
      forall other | multiset(other) == multiset(candidates) ensures Deduplicated(other) == Deduplicated(candidates) {
        SortedResult(candidates);
        SortedResult(other);
        SettledTiesDoNotMatter(Filter([]), ordered, Sort(other, RankLe));
      }
    } else {
      SortedResult(candidates);
      UnsettledTiesMatter(Filter([]), ordered);
      var other :| IsOtherArrangement(ordered, other) && Continue(Filter([]), other) != Continue(Filter([]), ordered);
      SortFixesAscending(other, RankLe);
      SortedResult(other);
      assert Deduplicated(other) != Deduplicated(candidates);
    }
  }

  lemma SortedResult(candidates: seq<Scored>)
    ensures var ordered := Sort(candidates, RankLe);
      && Ascending(ordered, RankLe) && multiset(ordered) == multiset(candidates)
      && Deduplicated(candidates) == Continue(Filter([]), ordered)
  {
    hide RankLe, Sort, Filter, Continue;
    var ordered := Sort(candidates, RankLe);
    RankLeIsTotalPreorder();
    SortIsAscending(candidates, RankLe);
    SortIsPermutation(candidates, RankLe);
    FilterContinues([], ordered);
    assert [] + ordered == ordered;
  }

  /** With a tie it can: of two overlapping candidates with equal keys, the one listed first survives. */
  lemma TiesFollowInputOrder(x: Scored, y: Scored)
    requires RankLe(x, y) && RankLe(y, x) && Suppresses(x, y)
    ensures Deduplicated([x, y]).kept == [x] && Deduplicated([y, x]).kept == [y]
  {
    hide RankLe, Suppresses;
    FilterOfTwo(x, y);
    FilterOfTwo(y, x);
    SuppressionIsSymmetric(x, y);
    SortOfTwo(x, y);
    SortOfTwo(y, x);
  }

  lemma SortOfTwo(x: Scored, y: Scored)
    requires RankLe(x, y)
    ensures Sort([x, y], RankLe) == [x, y]
  {
    hide RankLe;
    assert [x, y][1..] == [y] && [y][1..] == [];
    assert Sort([y], RankLe) == [y];
    assert Sort([x, y], RankLe) == Insert(x, [y], RankLe);
  }

  lemma FilterOfTwo(x: Scored, y: Scored)
    ensures Suppresses(x, y) ==> Filter([x, y]).kept == [x]
  {
    hide IsOverlap, IsDuplicate;
    assert [x, y][..1] == [x] && [x][..0] == [];
    assert Filter([x]) == DedupResult([x], 0, 0);
    assert Filter([x, y]) == Decide(Filter([x]), y);
    assert Judge([x], y) == if IsDuplicate(x.candidate, y.candidate) then Duplicate
                            else if IsOverlap(x.candidate, y.candidate) then Overlap else Keep;
  }
}
