/** What the two hops of call-edge expansion hold, in terms of the index's rows. */
module ExpansionReport {
  import opened Wrappers
  import opened OrderedSets
  import opened Selection
  import opened ContextDomain
  import opened CallLayers
  import opened ContextExpansion

  /** A row about `a` names `x`: as a caller of it, or as one it calls. */
  ghost predicate Leads(index: Index, d: Direction, a: Id, x: Id) {
    if d == Callers then a in index.callers && Some(x) in index.callers[a]
    else a in index.callees && Some(x) in index.callees[a]
  }

  ghost predicate IsNear(index: Index, d: Direction, roots: set<Id>, x: Id) {
    x !in roots && exists a :: a in roots && Leads(index, d, a, x)
  }

  /** Among the first so many of the near ones by id; a negative number counts from the end. */
  ghost predicate IsExpanded(near: seq<Id>, maxRoots: int, a: Id) {
    exists k :: 0 <= k < |near| && k < (if maxRoots >= 0 then maxRoots else |near| + maxRoots) && near[k] == a
  }

  ghost predicate IsFar(index: Index, d: Direction, roots: set<Id>, near: seq<Id>, depth: int, maxRoots: int, x: Id) {
    && depth >= 2 && x !in roots && x !in near
    && exists a :: IsExpanded(near, maxRoots, a) && Leads(index, d, a, x)
  }

  function Resolves(index: Index): Id -> bool {
    (id: Id) => id in index.symbols && index.symbols[id].fileId in index.files
  }

  ghost predicate IsChanged(changed: ChangedLines, path: string, from: int, to: int) {
    path in changed && exists line :: line in changed[path] && from <= line <= to
  }

  /** The candidate of a resolved symbol: its span in its file, and whether a changed line lies in it. */
  ghost function AsCandidate(index: Index, kind: ItemKind, r: Relationship, distance: nat, changed: ChangedLines)
    : Id -> Candidate {
    (id: Id) =>
      if Resolves(index)(id) then
        var symbol := index.symbols[id];
        var path := index.files[symbol.fileId];
        Candidate(kind, path, Some(id), symbol.startLine, symbol.endLine, r, distance,
                  IsChanged(changed, path, symbol.startLine, symbol.endLine), None)
      else Candidate(kind, "", None, 0, 0, r, distance, false, None)
  }

  ghost predicate ReportsIds(index: Index, ids: seq<Id>, kind: ItemKind, r: Relationship, distance: nat,
                             changed: ChangedLines, cs: seq<Candidate>) {
    Selected(ids, Resolves(index), AsCandidate(index, kind, r, distance, changed), cs)
  }

  ghost predicate ListsNear(index: Index, d: Direction, roots: set<Id>, near: seq<Id>) {
    exists s :: IsListing(near, s) && forall x :: x in s <==> IsNear(index, d, roots, x)
  }

  ghost predicate ListsFar(index: Index, d: Direction, roots: set<Id>, near: seq<Id>, depth: int, maxRoots: int,
                           far: seq<Id>) {
    exists s :: IsListing(far, s) && forall x :: x in s <==> IsFar(index, d, roots, near, depth, maxRoots, x)
  }

  /** The two hops from the roots: near and far symbols by id, those that resolve, labelled for their hop. */
  ghost predicate ReportsHops(index: Index, d: Direction, roots: set<Id>, depth: int, maxRoots: int,
                              changed: ChangedLines, first: seq<Candidate>, second: seq<Candidate>) {
    exists near, far ::
      && ListsNear(index, d, roots, near) && ListsFar(index, d, roots, near, depth, maxRoots, far)
      && ReportsIds(index, near, if d == Callers then CallerItem else CalleeItem,
                    if d == Callers then DirectCaller else DirectCallee, 1, changed, first)
      && ReportsIds(index, far, if d == Callers then CallerItem else CalleeItem,
                    if d == Callers then TransitiveCaller else TransitiveCallee, 2, changed, second)
  }

  lemma {:induction false} ResolvedAreReported(index: Index, ids: seq<Id>, hop: Label, changed: ChangedLines)
    ensures ReportsIds(index, ids, hop.kind, hop.relationship, hop.distance, changed,
                       Resolved(index, ids, hop, changed))
    decreases |ids|
  {
    hide Selected;
    var show := AsCandidate(index, hop.kind, hop.relationship, hop.distance, changed);
    if ids == [] {
      NoneSelected(Resolves(index), show);
    } else {
      var front, last := ids[..|ids| - 1], ids[|ids| - 1];
      ResolvedAreReported(index, front, hop, changed);
      SelectedWithLast(front, Resolves(index), show, Resolved(index, front, hop, changed), last);
      assert ids == front + [last];
    }
  }

  lemma LeadsIsNext(index: Index, d: Direction, a: Id, x: Id)
    ensures x in Next(index, d)(a) <==> Leads(index, d, a, x)
  {
  }

  lemma NearIsFirstHop(index: Index, d: Direction, roots: set<Id>)
    ensures ListsNear(index, d, roots, InOrder(FirstHopIds(index, d, roots)))
  {
    hide Next, InOrder, IsListing, Leads;
    var s := FirstHopIds(index, d, roots);
    InOrderIsListing(s);
    forall x ensures x in s <==> IsNear(index, d, roots, x) {
      forall a ensures x in Next(index, d)(a) <==> Leads(index, d, a, x) {
        LeadsIsNext(index, d, a, x);
      }
    }
  }

  lemma ExpandedIsPrefix(near: seq<Id>, maxRoots: int, a: Id)
    ensures a in Elements(Prefix(near, maxRoots)) <==> IsExpanded(near, maxRoots, a)
  {
    var part := Prefix(near, maxRoots);
    if a in part {
      var k :| 0 <= k < |part| && part[k] == a;
      assert near[k] == a;
    }
    if IsExpanded(near, maxRoots, a) {
      var k :| 0 <= k < |near| && k < (if maxRoots >= 0 then maxRoots else |near| + maxRoots) && near[k] == a;
      assert part[k] == a;
    }
  }

  lemma FarIsSecondHop(index: Index, d: Direction, roots: set<Id>, depth: int, maxRoots: int)
    ensures ListsFar(index, d, roots, InOrder(FirstHopIds(index, d, roots)), depth, maxRoots,
                     InOrder(SecondHopIds(index, d, roots, depth, maxRoots)))
  {
    hide Next, InOrder, IsListing, Leads, Prefix, IsExpanded, FirstLayer;
    var near, s := InOrder(FirstHopIds(index, d, roots)), SecondHopIds(index, d, roots, depth, maxRoots);
    InOrderIsListing(s);
    forall x ensures x in s <==> IsFar(index, d, roots, near, depth, maxRoots, x) {
      forall a ensures x in Next(index, d)(a) <==> Leads(index, d, a, x)
               ensures a in ExpansionRoots(index, d, roots, maxRoots) <==> IsExpanded(near, maxRoots, a) {
        LeadsIsNext(index, d, a, x);
        ExpandedIsPrefix(near, maxRoots, a);
      }
    }
  }

  /** For every index, cycles and unresolved rows included: what the two hops hold. */
  lemma HopsAreReported(index: Index, d: Direction, roots: set<Id>, depth: int, maxRoots: int, changed: ChangedLines)
    ensures ReportsHops(index, d, roots, depth, maxRoots, changed,
                        Resolved(index, InOrder(FirstHopIds(index, d, roots)), FirstHop(d), changed),
                        Resolved(index, InOrder(SecondHopIds(index, d, roots, depth, maxRoots)), SecondHop(d), changed))
  {
    hide InOrder, FirstHopIds, SecondHopIds, Resolved, ReportsIds, ListsNear, ListsFar;
    NearIsFirstHop(index, d, roots);
    FarIsSecondHop(index, d, roots, depth, maxRoots);
    ResolvedAreReported(index, InOrder(FirstHopIds(index, d, roots)), FirstHop(d), changed);
    ResolvedAreReported(index, InOrder(SecondHopIds(index, d, roots, depth, maxRoots)), SecondHop(d), changed);
  }

  /** What one direction contributes: its two hops from the target if it is wanted, and nothing else. */
  ghost predicate Contributes(index: Index, target: Option<Id>, wanted: bool, d: Direction, depth: int, maxRoots: int,
                              changed: ChangedLines, first: seq<Candidate>, second: seq<Candidate>) {
    if target.Some? && wanted then ReportsHops(index, d, {target.value}, depth, maxRoots, changed, first, second)
    else first == [] && second == []
  }

  lemma HopsContribute(index: Index, target: Option<Id>, d: Direction, config: Config, changed: ChangedLines)
    ensures Contributes(index, target, if d == Callers then config.wantsCallers else config.wantsCallees, d,
                        config.depth, config.maxRoots, changed, Near(index, target, d, config, changed),
                        Far(index, target, d, config, changed))
  {
    hide ReportsHops, Resolved, FirstHopIds, SecondHopIds, InOrder;
    if target.Some? {
      HopsAreReported(index, d, {target.value}, config.depth, config.maxRoots, changed);
    }
  }

  /** Fixed generation: the other candidates, then near and far callers, then near and far callees. */
  ghost predicate GeneratesFixed(base: seq<Candidate>, index: Index, target: Option<Id>, config: Config,
                                 changed: ChangedLines, cs: seq<Candidate>) {
    exists nearCallers, farCallers, nearCallees, farCallees ::
      && Contributes(index, target, config.wantsCallers, Callers, config.depth, config.maxRoots, changed, nearCallers,
                     farCallers)
      && Contributes(index, target, config.wantsCallees, Callees, config.depth, config.maxRoots, changed, nearCallees,
                     farCallees)
      && cs == base + nearCallers + farCallers + nearCallees + farCallees
  }

  /** Adaptive generation: the near ones of both directions come before the far ones. */
  ghost predicate GeneratesAdaptive(base: seq<Candidate>, index: Index, target: Option<Id>, config: Config,
                                    changed: ChangedLines, cs: seq<Candidate>) {
    exists nearCallers, farCallers, nearCallees, farCallees ::
      && Contributes(index, target, config.wantsCallers, Callers, config.depth, config.maxRoots, changed, nearCallers,
                     farCallers)
      && Contributes(index, target, config.wantsCallees, Callees, config.depth, config.maxRoots, changed, nearCallees,
                     farCallees)
      && cs == base + nearCallers + nearCallees + farCallers + farCallees
  }

  lemma GenerationIsReported(base: seq<Candidate>, index: Index, target: Option<Id>, config: Config,
                             changed: ChangedLines)
    ensures GeneratesFixed(base, index, target, config, changed, Fixed(base, index, target, config, changed))
    ensures GeneratesAdaptive(base, index, target, config, changed, Adaptive(base, index, target, config, changed))
  {
    hide Near, Far, Contributes;
    HopsContribute(index, target, Callers, config, changed);
    HopsContribute(index, target, Callees, config, changed);
    var a, b := Near(index, target, Callers, config, changed), Far(index, target, Callers, config, changed);
    var c, e := Near(index, target, Callees, config, changed), Far(index, target, Callees, config, changed);
    assert Fixed(base, index, target, config, changed) == base + a + b + c + e;
    assert Adaptive(base, index, target, config, changed) == base + a + c + b + e;
  }

  // ----- The adaptive decision

  ghost predicate HasAny(cs: seq<Candidate>, r: Relationship) { exists c :: c in cs && c.relationship == r }

  ghost predicate HasChanged(cs: seq<Candidate>, r: Relationship) {
    exists c :: c in cs && c.relationship == r && c.isOnChangedLine
  }

  ghost predicate IsOnly(cs: seq<Candidate>, r: Relationship, k: int) {
    0 <= k < |cs| && cs[k].relationship == r && forall j | 0 <= j < |cs| && j != k :: cs[j].relationship != r
  }

  ghost predicate HasOne(cs: seq<Candidate>, r: Relationship) { exists k :: IsOnly(cs, r, k) }

  /** When a reason applies, said of the candidates themselves. */
  ghost predicate IsReason(r: Reason, target: Option<Symbol>, near: seq<Candidate>, far: seq<Candidate>,
                           category: Option<Category>) {
    match r
    case CallChainContinuation => HasAny(far, TransitiveCaller) || HasAny(far, TransitiveCallee)
    case ChangedNeighbor =>
      || (HasAny(far, TransitiveCaller) && HasChanged(near, DirectCaller))
      || (HasAny(far, TransitiveCallee) && HasChanged(near, DirectCallee))
    case StaticCategoryRelevance =>
      && category in {Some(Category.MemorySafety), Some(ResourceManagement), Some(Concurrency), Some(ApiMisuse),
                      Some(Security)}
      && ((HasAny(far, TransitiveCaller) && HasAny(near, DirectCaller))
          || (HasAny(far, TransitiveCallee) && HasAny(near, DirectCallee)))
    case ThinWrapper =>
      && target.Some? && target.value.endLine - target.value.startLine <= 8
      && HasOne(near, DirectCallee) && HasAny(far, TransitiveCallee)
  }

  lemma {:induction false} WithHolds(cs: seq<Candidate>, r: Relationship)
    ensures forall c :: c in With(cs, r) <==> c in cs && c.relationship == r
    decreases |cs|
  {
    if cs != [] {
      WithHolds(cs[1..], r);
      assert cs == [cs[0]] + cs[1..];
    }
  }

  lemma WithMeans(cs: seq<Candidate>, r: Relationship)
    ensures With(cs, r) != [] <==> HasAny(cs, r)
    ensures AnyChanged(With(cs, r)) <==> HasChanged(cs, r)
  {
    hide With;
    WithHolds(cs, r);
    if With(cs, r) != [] {
      assert With(cs, r)[0] in With(cs, r);
    }
  }

  lemma {:induction false} WithCounts(cs: seq<Candidate>, r: Relationship)
    ensures |With(cs, r)| == 1 <==> HasOne(cs, r)
    decreases |cs|
  {
    if cs != [] {
      var rest := cs[1..];
      WithCounts(rest, r);
      WithMeans(rest, r);
      if cs[0].relationship == r {
        OneWithFirst(cs, r);
      } else {
        OneWithoutFirst(cs, r);
      }
    }
  }

  lemma OneWithFirst(cs: seq<Candidate>, r: Relationship)
    requires cs != [] && cs[0].relationship == r
    ensures HasOne(cs, r) <==> !HasAny(cs[1..], r)
  {
    if HasOne(cs, r) {
      var k :| IsOnly(cs, r, k);
      forall c | c in cs[1..] ensures c.relationship != r {
        var j :| 0 <= j < |cs| - 1 && cs[1..][j] == c;
        assert cs[j + 1] == c;
      }
    }
    if !HasAny(cs[1..], r) {
      forall j | 0 < j < |cs| ensures cs[j].relationship != r {
        assert cs[j] in cs[1..];
      }
      assert IsOnly(cs, r, 0);
    }
  }

  lemma OnlyMoves(cs: seq<Candidate>, r: Relationship, k: int)
    requires cs != [] && cs[0].relationship != r
    ensures IsOnly(cs[1..], r, k) <==> IsOnly(cs, r, k + 1)
  {
    var rest := cs[1..];
    assert forall j | 0 <= j < |rest| :: rest[j] == cs[j + 1];
    if IsOnly(rest, r, k) {
      forall j | 0 <= j < |cs| && j != k + 1 ensures cs[j].relationship != r {
        assert j > 0 ==> cs[j] == rest[j - 1];
      }
    }
    if IsOnly(cs, r, k + 1) {
      forall j | 0 <= j < |rest| && j != k ensures rest[j].relationship != r {
        assert rest[j] == cs[j + 1];
      }
    }
  }

  lemma OneWithoutFirst(cs: seq<Candidate>, r: Relationship)
    requires cs != [] && cs[0].relationship != r
    ensures HasOne(cs, r) <==> HasOne(cs[1..], r)
  {
    hide IsOnly;
    if k :| IsOnly(cs, r, k) {
      OnlyMoves(cs, r, k - 1);
      assert IsOnly(cs, r, k - 1 + 1);
    }
    if k :| IsOnly(cs[1..], r, k) {
      OnlyMoves(cs, r, k);
    }
  }

  /** A reason is given exactly when it applies. */
  lemma ReasonsMean(r: Reason, target: Option<Symbol>, near: seq<Candidate>, far: seq<Candidate>,
                    category: Option<Category>)
    ensures Applies(r, target, near, far, category) <==> IsReason(r, target, near, far, category)
  {
    hide With, AnyChanged, HasAny, HasChanged, HasOne;
    WithMeans(near, DirectCaller);
    WithMeans(near, DirectCallee);
    WithMeans(far, TransitiveCaller);
    WithMeans(far, TransitiveCallee);
    WithCounts(near, DirectCallee);
  }
}
