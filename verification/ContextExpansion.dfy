/** Call-edge expansion to one or two hops, and the policy that decides whether the second hop is kept. */
module ContextExpansion {
  import opened Wrappers
  import opened ContextDomain
  import opened OrderedSets
  import opened CallLayers

  datatype Symbol = Symbol(fileId: Id, startLine: int, endLine: int)

  /** What the index answers; a call row may name no resolved symbol. */
  datatype Index = Index(
    callers: map<Id, seq<Option<Id>>>,
    callees: map<Id, seq<Option<Id>>>,
    symbols: map<Id, Symbol>,
    files: map<Id, string>)

  datatype Direction = Callers | Callees

  type ChangedLines = map<string, set<int>>

  function Rows(index: Index, d: Direction, id: Id): seq<Option<Id>> {
    var rows := if d == Callers then index.callers else index.callees;
    if id in rows then rows[id] else []
  }

  function RelatedIds(index: Index, d: Direction, id: Id): set<Id> {
    set row | row in Rows(index, d, id) && row.Some? :: row.value
  }

  function Next(index: Index, d: Direction): Neighbours { id => RelatedIds(index, d, id) }

  // ----- Candidates for resolved symbols

  /** How the candidates of one hop are labelled. */
  datatype Label = Label(kind: ItemKind, relationship: Relationship, distance: nat)

  predicate IsResolved(index: Index, id: Id) { id in index.symbols && index.symbols[id].fileId in index.files }

  predicate OnChangedLine(changed: ChangedLines, path: string, from: int, to: int) {
    path in changed && exists line | line in changed[path] :: from <= line <= to
  }

  function SymbolCandidate(index: Index, id: Id, hop: Label, changed: ChangedLines): Candidate
    requires IsResolved(index, id)
  {
    var symbol := index.symbols[id];
    var path := index.files[symbol.fileId];
    Candidate(hop.kind, path, Some(id), symbol.startLine, symbol.endLine, hop.relationship, hop.distance,
              OnChangedLine(changed, path, symbol.startLine, symbol.endLine), None)
  }

  /** An id without a symbol, or a symbol without a file, yields nothing. */
  function Resolved(index: Index, ids: seq<Id>, hop: Label, changed: ChangedLines): seq<Candidate> {
    if ids == [] then []
    else
      var last := ids[|ids| - 1];
      Resolved(index, ids[..|ids| - 1], hop, changed)
      + if IsResolved(index, last) then [SymbolCandidate(index, last, hop, changed)] else []
  }

  method ResolveCandidates(index: Index, ids: set<Id>, hop: Label, changed: ChangedLines) returns (r: seq<Candidate>)
    ensures r == Resolved(index, InOrder(ids), hop, changed)
  {
    hide Resolved, IsResolved, SymbolCandidate, InOrder;
    var sorted := SortIds(ids);
    r := [];
    NothingResolved(index, hop, changed);
    for k := 0 to |sorted|
      invariant r == Resolved(index, sorted[..k], hop, changed)
    {
      OneMoreResolved(index, sorted, k, hop, changed);
      if IsResolved(index, sorted[k]) {
        r := r + [SymbolCandidate(index, sorted[k], hop, changed)];
      }
    }
    assert sorted[..|sorted|] == sorted;
  }

  lemma OneMoreResolved(index: Index, ids: seq<Id>, k: nat, hop: Label, changed: ChangedLines)
    requires k < |ids|
    ensures Resolved(index, ids[..k + 1], hop, changed)
      == Resolved(index, ids[..k], hop, changed)
         + if IsResolved(index, ids[k]) then [SymbolCandidate(index, ids[k], hop, changed)] else []
  {
    hide IsResolved, SymbolCandidate;
    assert ids[..k + 1][..k] == ids[..k];
  }

  lemma NothingResolved(index: Index, hop: Label, changed: ChangedLines)
    ensures Resolved(index, [], hop, changed) == []
  {
  }

  // ----- Two hops

  function HopKind(d: Direction): ItemKind { if d == Callers then CallerItem else CalleeItem }

  function FirstHop(d: Direction): Label { Label(HopKind(d), if d == Callers then DirectCaller else DirectCallee, 1) }

  function SecondHop(d: Direction): Label {
    Label(HopKind(d), if d == Callers then TransitiveCaller else TransitiveCallee, 2)
  }

  /** The first-layer symbols whose own neighbours are looked up. */
  ghost function ExpansionRoots(index: Index, d: Direction, roots: set<Id>, maxRoots: int): set<Id> {
    Elements(Prefix(InOrder(FirstLayer(Next(index, d), roots)), maxRoots))
  }

  ghost function FirstHopIds(index: Index, d: Direction, roots: set<Id>): set<Id> { FirstLayer(Next(index, d), roots) }

  ghost function SecondHopIds(index: Index, d: Direction, roots: set<Id>, depth: int, maxRoots: int): set<Id> {
    if depth >= 2 then SecondLayer(Next(index, d), roots, ExpansionRoots(index, d, roots, maxRoots)) else {}
  }

  method CallEdgeCandidates(index: Index, symbolIds: seq<Id>, d: Direction, depth: int, maxRoots: int,
                            changed: ChangedLines)
    returns (depth1: seq<Candidate>, depth2: seq<Candidate>, depth1Ids: set<Id>)
    ensures depth1Ids == FirstHopIds(index, d, Elements(symbolIds))
    ensures depth1 == Resolved(index, InOrder(depth1Ids), FirstHop(d), changed)
    ensures depth2 == Resolved(index, InOrder(SecondHopIds(index, d, Elements(symbolIds), depth, maxRoots)),
                               SecondHop(d), changed)
  {
    hide Resolved, RelatedIds, Fan, Prefix, FirstHop, SecondHop, Next;
    var roots := Elements(symbolIds);
    depth1Ids := Gather(index, d, symbolIds);
    depth1Ids := depth1Ids - roots;
    depth1 := ResolveCandidates(index, depth1Ids, FirstHop(d), changed);
    depth2 := [];
    NothingResolved(index, SecondHop(d), changed);
    if depth >= 2 {
      if depth1Ids != {} {
        var sorted := SortIds(depth1Ids);
        var expansionRoots := Prefix(sorted, maxRoots);
        var depth2Ids := Gather(index, d, expansionRoots);
        depth2Ids := depth2Ids - depth1Ids;
        depth2Ids := depth2Ids - roots;
        depth2 := ResolveCandidates(index, depth2Ids, SecondHop(d), changed);
      } else {
        NothingToExpand(index, d, roots, depth, maxRoots);
      }
    }
  }

  lemma NothingToExpand(index: Index, d: Direction, roots: set<Id>, depth: int, maxRoots: int)
    requires FirstHopIds(index, d, roots) == {}
    ensures SecondHopIds(index, d, roots, depth, maxRoots) == {}
    ensures InOrder({}) == []
  {
    hide RelatedIds, Next;
    assert InOrder({}) == [] && Prefix(InOrder({}), maxRoots) == [];
    assert ExpansionRoots(index, d, roots, maxRoots) == {};
    assert Fan(Next(index, d), {}) == {};
  }

  method Gather(index: Index, d: Direction, ids: seq<Id>) returns (found: set<Id>)
    ensures found == Fan(Next(index, d), Elements(ids))
  {
    hide RelatedIds;
    found := {};
    for k := 0 to |ids|
      invariant found == Fan(Next(index, d), Elements(ids[..k]))
    {
      FanGrows(Next(index, d), ids, k);
      found := found + RelatedIds(index, d, ids[k]);
    }
    assert ids[..|ids|] == ids;
  }

  // ----- The hops are the true layers of the call graph

  lemma PrefixIsPart<T>(xs: seq<T>, n: int)
    ensures Elements(Prefix(xs, n)) <= Elements(xs)
    ensures |xs| <= n ==> Prefix(xs, n) == xs
  {
  }

  /**
    * For every graph, cycles included: the first hop holds exactly the symbols at distance one, the second only
    * symbols at distance two, and all of them when the first hop fits in the cap on expansion roots.
    */
  lemma HopsAreLayers(index: Index, d: Direction, roots: set<Id>, depth: int, maxRoots: int, x: Id)
    ensures x in FirstHopIds(index, d, roots) <==> AtDistance(Next(index, d), roots, x, 1)
    ensures x in SecondHopIds(index, d, roots, depth, maxRoots)
      ==> depth >= 2 && AtDistance(Next(index, d), roots, x, 2)
    ensures depth >= 2 && |FirstHopIds(index, d, roots)| <= maxRoots && AtDistance(Next(index, d), roots, x, 2) ==>
      x in SecondHopIds(index, d, roots, depth, maxRoots)
  {
    hide AtDistance, FirstLayer, SecondLayer, Next, Prefix;
    var next, first := Next(index, d), FirstLayer(Next(index, d), roots);
    FirstLayerIsDistanceOne(next, roots, x);
    PrefixIsPart(InOrder(first), maxRoots);
    assert Elements(InOrder(first)) == first;
    SecondLayerIsDistanceTwo(next, roots, ExpansionRoots(index, d, roots, maxRoots), x);
  }

  /** The first-layer symbols expanded at this depth. */
  ghost function Expanded(index: Index, d: Direction, roots: set<Id>, depth: int, maxRoots: int): set<Id> {
    if depth >= 2 then ExpansionRoots(index, d, roots, maxRoots) else {}
  }

  /**
    * The second hop is all of distance two exactly when what the symbols left unexpanded lead to, beyond the first hop
    * and the roots, is led to by the expanded ones too.
    */
  lemma SecondHopIsWholeExactlyWhen(index: Index, d: Direction, roots: set<Id>, depth: int, maxRoots: int)
    ensures var next, first := Next(index, d), FirstHopIds(index, d, roots);
      var expanded := Expanded(index, d, roots, depth, maxRoots);
      IsLayer(next, roots, 2, SecondHopIds(index, d, roots, depth, maxRoots))
      <==> Fan(next, first - expanded) - first - roots <= Fan(next, expanded)
  {
    hide AtDistance, FirstLayer, Next, Prefix, Fan;
    var next, first := Next(index, d), FirstLayer(Next(index, d), roots);
    var expanded := Expanded(index, d, roots, depth, maxRoots);
    PrefixIsPart(InOrder(first), maxRoots);
    assert Elements(InOrder(first)) == first;
    NothingFanned(next);
    assert SecondHopIds(index, d, roots, depth, maxRoots) == SecondLayer(next, roots, expanded);
    PartShowsAllExactlyWhen(next, roots, expanded);
  }

  lemma NothingFanned(next: Neighbours)
    ensures Fan(next, {}) == {}
  {
  }

  /** No root comes back as its own neighbour, directly or through a cycle, and no symbol is in both hops. */
  lemma RootsNeverReappear(index: Index, d: Direction, roots: set<Id>, depth: int, maxRoots: int)
    ensures FirstHopIds(index, d, roots) !! roots
    ensures SecondHopIds(index, d, roots, depth, maxRoots) !! roots
    ensures FirstHopIds(index, d, roots) !! SecondHopIds(index, d, roots, depth, maxRoots)
  {
  }

  /** A hop has one candidate for each of its ids that resolves, labelled for that hop. */
  lemma {:induction false} CandidatesAreResolvedIds(index: Index, ids: seq<Id>, hop: Label, changed: ChangedLines,
                                                    c: Candidate)
    ensures c in Resolved(index, ids, hop, changed)
      <==> exists id | id in ids :: IsResolved(index, id) && c == SymbolCandidate(index, id, hop, changed)
    decreases |ids|
  {
    hide IsResolved, SymbolCandidate;
    if ids != [] {
      var front, last := ids[..|ids| - 1], ids[|ids| - 1];
      CandidatesAreResolvedIds(index, front, hop, changed, c);
      assert ids == front + [last];
    }
  }

  // ----- The adaptive policy

  datatype Category =
    | Correctness | Security | MemorySafety | ResourceManagement | Concurrency | Performance | Maintainability | Style
    | Portability | UndefinedBehavior | ApiMisuse | UnknownCategory

  predicate IsTrigger(category: Option<Category>) {
    category.Some? && category.value in {MemorySafety, ResourceManagement, Concurrency, ApiMisuse, Security}
  }

  const THIN_WRAPPER_MAX_SPAN_LINES := 8

  datatype Reason = CallChainContinuation | ChangedNeighbor | StaticCategoryRelevance | ThinWrapper

  const REASON_ORDER := [CallChainContinuation, ChangedNeighbor, StaticCategoryRelevance, ThinWrapper]

  datatype ExpansionDirection = OnlyCallers | OnlyCallees | Both

  datatype Decision = Decision(expand: bool, reasons: seq<Reason>, direction: Option<ExpansionDirection>)

  function With(cs: seq<Candidate>, r: Relationship): seq<Candidate> {
    if cs == [] then [] else (if cs[0].relationship == r then [cs[0]] else []) + With(cs[1..], r)
  }

  predicate AnyChanged(cs: seq<Candidate>) { exists c | c in cs :: c.isOnChangedLine }

  predicate IsThinWrapper(target: Option<Symbol>, directCallees: nat) {
    target.Some? && target.value.endLine - target.value.startLine <= THIN_WRAPPER_MAX_SPAN_LINES && directCallees == 1
  }

  /** When a reason is given; each of them needs a second hop to exist on the side it speaks of. */
  predicate Applies(r: Reason, target: Option<Symbol>, depth1: seq<Candidate>, depth2: seq<Candidate>,
                    category: Option<Category>) {
    var callers, callees := With(depth1, DirectCaller), With(depth1, DirectCallee);
    var farCallers, farCallees := With(depth2, TransitiveCaller) != [], With(depth2, TransitiveCallee) != [];
    match r
    case CallChainContinuation => farCallers || farCallees
    case ChangedNeighbor => (farCallers && AnyChanged(callers)) || (farCallees && AnyChanged(callees))
    case StaticCategoryRelevance =>
      IsTrigger(category) && ((farCallers && callers != []) || (farCallees && callees != []))
    case ThinWrapper => farCallees && IsThinWrapper(target, |callees|)
  }

  function Chosen(order: seq<Reason>, chosen: set<Reason>): seq<Reason> {
    if order == [] then [] else (if order[0] in chosen then [order[0]] else []) + Chosen(order[1..], chosen)
  }

  ghost function DirectionOf(callers: bool, callees: bool): Option<ExpansionDirection> {
    if callers && callees then Some(Both) else if callers then Some(OnlyCallers)
    else if callees then Some(OnlyCallees) else None
  }

  /** Expansion happens exactly when some second hop exists, in exactly the directions that have one. */
  method Decide(target: Option<Symbol>, depth1: seq<Candidate>, depth2: seq<Candidate>, category: Option<Category>)
    returns (decision: Decision)
    ensures decision.direction
         == DirectionOf(With(depth2, TransitiveCaller) != [], With(depth2, TransitiveCallee) != [])
    ensures decision.expand <==> decision.direction.Some?
    ensures forall r :: r in decision.reasons <==> Applies(r, target, depth1, depth2, category)
    ensures decision.reasons == Chosen(REASON_ORDER, Elements(decision.reasons))
  {
    hide With, AnyChanged, IsThinWrapper, IsTrigger, Chosen, Elements;
    var depth1Callers, depth1Callees := With(depth1, DirectCaller), With(depth1, DirectCallee);
    var depth2Callers, depth2Callees := With(depth2, TransitiveCaller), With(depth2, TransitiveCallee);
    var reasons: set<Reason>, wantsCallers, wantsCallees := {}, false, false;
    if depth2Callers != [] {
      reasons := reasons + {CallChainContinuation};
      wantsCallers := true;
    }
    if depth2Callees != [] {
      reasons := reasons + {CallChainContinuation};
      wantsCallees := true;
    }
    assert CallChainContinuation in reasons <==> Applies(CallChainContinuation, target, depth1, depth2, category);
    if depth2Callers != [] && AnyChanged(depth1Callers) {
      reasons := reasons + {ChangedNeighbor};
      wantsCallers := true;
    }
    if depth2Callees != [] && AnyChanged(depth1Callees) {
      reasons := reasons + {ChangedNeighbor};
      wantsCallees := true;
    }
    assert ChangedNeighbor in reasons <==> Applies(ChangedNeighbor, target, depth1, depth2, category);
    if IsTrigger(category) {
      if depth1Callers != [] && depth2Callers != [] {
        reasons := reasons + {StaticCategoryRelevance};
        wantsCallers := true;
      }
      if depth1Callees != [] && depth2Callees != [] {
        reasons := reasons + {StaticCategoryRelevance};
        wantsCallees := true;
      }
    }
    assert StaticCategoryRelevance in reasons <==> Applies(StaticCategoryRelevance, target, depth1, depth2, category);
    if IsThinWrapper(target, |depth1Callees|) && depth2Callees != [] {
      reasons := reasons + {ThinWrapper};
      wantsCallees := true;
    }
    ChosenInOrder(reasons);
    if !wantsCallers && !wantsCallees {
      NothingChosen(REASON_ORDER);
      return Decision(false, [], None);
    }
    var direction;
    if wantsCallers && wantsCallees {
      direction := Both;
    } else if wantsCallers {
      direction := OnlyCallers;
    } else {
      direction := OnlyCallees;
    }
    decision := Decision(true, Chosen(REASON_ORDER, reasons), Some(direction));
  }

  lemma ChosenInOrder(reasons: set<Reason>)
    ensures Elements(Chosen(REASON_ORDER, reasons)) == reasons
    ensures forall r :: r in Chosen(REASON_ORDER, reasons) <==> r in reasons
  {
    forall r ensures r in Chosen(REASON_ORDER, reasons) <==> r in reasons {
      ChosenHas(REASON_ORDER, reasons, r);
      EveryReasonHasAPlace(r);
    }
  }

  lemma {:induction false} NothingChosen(order: seq<Reason>)
    ensures Chosen(order, {}) == []
  {
    if order != [] {
      NothingChosen(order[1..]);
    }
  }

  lemma EveryReasonHasAPlace(r: Reason)
    ensures r in REASON_ORDER
  {
    var place := match r
      case CallChainContinuation => 0
      case ChangedNeighbor => 1
      case StaticCategoryRelevance => 2
      case ThinWrapper => 3;
    assert REASON_ORDER[place] == r;
  }

  lemma {:induction false} ChosenHas(order: seq<Reason>, chosen: set<Reason>, r: Reason)
    ensures r in Chosen(order, chosen) <==> r in order && r in chosen
  {
    if order != [] {
      ChosenHas(order[1..], chosen, r);
      assert order == [order[0]] + order[1..];
    }
  }

  // ----- Fixed and adaptive generation

  datatype Config = Config(wantsCallers: bool, wantsCallees: bool, depth: int, maxRoots: int)

  method Generate(base: seq<Candidate>, index: Index, target: Option<Id>, config: Config, changed: ChangedLines)
    returns (candidates: seq<Candidate>)
    ensures candidates == Fixed(base, index, target, config, changed)
  {
    hide Near, Far;
    candidates := base;
    UnwantedHops(index, target, config, changed);
    if target.Some? {
      if config.wantsCallers {
        var depth1, depth2 := Hops(index, target.value, Callers, config, changed);
        candidates := candidates + (depth1 + depth2);
      }
      if config.wantsCallees {
        var depth1, depth2 := Hops(index, target.value, Callees, config, changed);
        candidates := candidates + (depth1 + depth2);
      }
    }
  }

  /** The callers, or the callees, of one target. */
  method Hops(index: Index, target: Id, d: Direction, config: Config, changed: ChangedLines)
    returns (depth1: seq<Candidate>, depth2: seq<Candidate>)
    requires Wants(config, d)
    ensures depth1 == Near(index, Some(target), d, config, changed)
      && depth2 == Far(index, Some(target), d, config, changed)
  {
    hide Resolved, FirstHopIds, SecondHopIds;
    assert Elements([target]) == {target};
    var near, far, _ := CallEdgeCandidates(index, [target], d, config.depth, config.maxRoots, changed);
    return near, far;
  }

  lemma UnwantedHops(index: Index, target: Option<Id>, config: Config, changed: ChangedLines)
    ensures forall d | target.None? || !Wants(config, d) ::
      Near(index, target, d, config, changed) == [] && Far(index, target, d, config, changed) == []
  {
  }

  predicate Wants(config: Config, d: Direction) { if d == Callers then config.wantsCallers else config.wantsCallees }

  ghost function Near(index: Index, target: Option<Id>, d: Direction, config: Config, changed: ChangedLines)
    : seq<Candidate> {
    if target.Some? && Wants(config, d) then
      Resolved(index, InOrder(FirstHopIds(index, d, {target.value})), FirstHop(d), changed)
    else []
  }

  ghost function Far(index: Index, target: Option<Id>, d: Direction, config: Config, changed: ChangedLines)
    : seq<Candidate> {
    if target.Some? && Wants(config, d) then
      Resolved(index, InOrder(SecondHopIds(index, d, {target.value}, config.depth, config.maxRoots)), SecondHop(d),
               changed)
    else []
  }

  ghost function Fixed(base: seq<Candidate>, index: Index, target: Option<Id>, config: Config, changed: ChangedLines)
    : seq<Candidate>
  {
    base + (Near(index, target, Callers, config, changed) + Far(index, target, Callers, config, changed))
    + (Near(index, target, Callees, config, changed) + Far(index, target, Callees, config, changed))
  }

  ghost function Adaptive(base: seq<Candidate>, index: Index, target: Option<Id>, config: Config, changed: ChangedLines)
    : seq<Candidate>
  {
    base + (Near(index, target, Callers, config, changed) + Near(index, target, Callees, config, changed))
    + (Far(index, target, Callers, config, changed) + Far(index, target, Callees, config, changed))
  }

  /**
    * Adaptive generation keeps what fixed generation at its depth gives, whatever the category: a direction is dropped
    * only when its second hop is empty.
    */
  method GenerateAdaptive(base: seq<Candidate>, index: Index, target: Option<Id>, config: Config, changed: ChangedLines,
                          maxDepth: int, category: Option<Category>)
    returns (candidates: seq<Candidate>, decision: Decision, found: nat, selected: nat)
    requires target.Some? ==> target.value in index.symbols
    ensures candidates == Adaptive(base, index, target, config.(depth := maxDepth), changed)
    ensures selected == found
  {
    hide Near, Far, With, Applies;
    var deep := config.(depth := maxDepth);
    UnwantedHops(index, target, deep, changed);
    var depth1Callers: seq<Candidate>, depth2Callers: seq<Candidate> := [], [];
    var depth1Callees: seq<Candidate>, depth2Callees: seq<Candidate> := [], [];
    if target.Some? {
      if config.wantsCallers {
        depth1Callers, depth2Callers := Hops(index, target.value, Callers, deep, changed);
      }
      if config.wantsCallees {
        depth1Callees, depth2Callees := Hops(index, target.value, Callees, deep, changed);
      }
    }
    FarSplits(index, target, deep, changed);
    var depth1All, depth2All := depth1Callers + depth1Callees, depth2Callers + depth2Callees;
    var symbol := if target.Some? then Some(index.symbols[target.value]) else None;
    decision := Decide(symbol, depth1All, depth2All, category);
    var selectedDepth2: seq<Candidate>;
    if !decision.expand {
      selectedDepth2 := [];
    } else if decision.direction == Some(Both) {
      selectedDepth2 := depth2All;
    } else if decision.direction == Some(OnlyCallers) {
      selectedDepth2 := depth2Callers;
    } else {
      selectedDepth2 := depth2Callees;
    }
    assert selectedDepth2 == depth2All;
    candidates := base + depth1All + selectedDepth2;
    found, selected := |depth2All|, |selectedDepth2|;
  }

  /** The relationship tells the two second hops apart. */
  lemma FarSplits(index: Index, target: Option<Id>, config: Config, changed: ChangedLines)
    ensures var callers := Far(index, target, Callers, config, changed);
      var callees := Far(index, target, Callees, config, changed);
      With(callers + callees, TransitiveCaller) == callers && With(callers + callees, TransitiveCallee) == callees
  {
    hide FirstHopIds, SecondHopIds, With, Resolved;
    var callers, callees := Far(index, target, Callers, config, changed), Far(index, target, Callees, config, changed);
    HopIsLabelled(index, target, Callers, config, changed);
    HopIsLabelled(index, target, Callees, config, changed);
    WithOfConcatenation(callers, callees, TransitiveCaller);
    WithOfConcatenation(callers, callees, TransitiveCallee);
    WithAllOrNone(callers, TransitiveCaller, TransitiveCallee);
    WithAllOrNone(callees, TransitiveCallee, TransitiveCaller);
  }

  lemma HopIsLabelled(index: Index, target: Option<Id>, d: Direction, config: Config, changed: ChangedLines)
    ensures forall c | c in Far(index, target, d, config, changed) :: c.relationship == SecondHop(d).relationship
  {
    hide Resolved, SecondHopIds;
    if target.Some? && Wants(config, d) {
      forall c | c in Far(index, target, d, config, changed) ensures c.relationship == SecondHop(d).relationship {
        CandidatesAreResolvedIds(index, InOrder(SecondHopIds(index, d, {target.value}, config.depth, config.maxRoots)),
                                 SecondHop(d), changed, c);
      }
    }
  }

  lemma Regroup<T>(a: seq<T>, b: seq<T>, c: seq<T>)
    ensures a + (b + c) == a + b + c
  {
  }

  lemma {:induction false} WithOfConcatenation(xs: seq<Candidate>, ys: seq<Candidate>, r: Relationship)
    ensures With(xs + ys, r) == With(xs, r) + With(ys, r)
  {
    if xs == [] {
      assert xs + ys == ys;
    } else {
      var head := if xs[0].relationship == r then [xs[0]] else [];
      WithOfConcatenation(xs[1..], ys, r);
      assert (xs + ys)[1..] == xs[1..] + ys && (xs + ys)[0] == xs[0];
      assert With(xs + ys, r) == head + With(xs[1..] + ys, r);
      assert With(xs, r) == head + With(xs[1..], r);
      Regroup(head, With(xs[1..], r), With(ys, r));
    }
  }

  lemma {:induction false} WithAllOrNone(xs: seq<Candidate>, all: Relationship, none: Relationship)
    requires all != none && forall c | c in xs :: c.relationship == all
    ensures With(xs, all) == xs && With(xs, none) == []
  {
    if xs != [] {
      WithAllOrNone(xs[1..], all, none);
    }
  }

  /** Both modes therefore produce the same candidates, as a multiset. */
  lemma AdaptiveEqualsFixed(base: seq<Candidate>, index: Index, target: Option<Id>, config: Config,
                            changed: ChangedLines)
    ensures multiset(Adaptive(base, index, target, config, changed))
         == multiset(Fixed(base, index, target, config, changed))
  {
    hide Near, Far;
  }
}
