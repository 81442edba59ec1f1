/** The change units of a run: which unions the call, containment and import evidence asks for, and what they group. */
module ChangeUnits {
  import opened Wrappers
  import opened Ordering
  import opened Connectivity
  import opened Conservation
  import opened ChangeGrouping

  type Id = string

  datatype Candidate = Candidate(symbol: Option<Id>, filePath: string, startLine: int, name: string)

  datatype Symbol = Symbol(parent: Option<Id>, file: Id)

  /** What the index answers: resolved callers and callees in row order, known symbols, resolved imports of a file. */
  datatype Graph = Graph(
    callers: map<Id, seq<Option<Id>>>,
    callees: map<Id, seq<Option<Id>>>,
    symbols: map<Id, Symbol>,
    imports: map<Id, seq<Option<Id>>>)

  const MAX_FANOUT_PER_SYMBOL := 50

  function Rows(m: map<Id, seq<Option<Id>>>, id: Id): seq<Option<Id>> { if id in m then m[id] else [] }

  function Capped(rows: seq<Option<Id>>): seq<Option<Id>> {
    if |rows| > MAX_FANOUT_PER_SYMBOL then rows[..MAX_FANOUT_PER_SYMBOL] else rows
  }

  function CallRows(g: Graph, s: Id): seq<Option<Id>> { Capped(Rows(g.callers, s)) + Capped(Rows(g.callees, s)) }

  function ParentOf(g: Graph, s: Id): Option<Id> { if s in g.symbols then g.symbols[s].parent else None }

  function FileOf(g: Graph, s: Option<Id>): Option<Id> {
    if s.Some? && s.value in g.symbols then Some(g.symbols[s.value].file) else None
  }

  // ----- The evidence, as a relation on candidates

  ghost predicate Calls(g: Graph, a: Id, b: Id) { Some(b) in CallRows(g, a) }

  ghost predicate Contains(g: Graph, b: Id, a: Id) { ParentOf(g, a) == Some(b) }

  ghost predicate Siblings(g: Graph, a: Id, b: Id) {
    a != b && ParentOf(g, a).Some? && ParentOf(g, a) == ParentOf(g, b)
  }

  ghost predicate FileImports(g: Graph, f: Option<Id>, h: Option<Id>) {
    f.Some? && h.Some? && h in Rows(g.imports, f.value)
  }

  ghost predicate Related(g: Graph, a: Id, b: Id) {
    Calls(g, a, b) || Contains(g, a, b) || Siblings(g, a, b) || FileImports(g, FileOf(g, Some(a)), FileOf(g, Some(b)))
  }

  /** Two candidates with symbols are related when one calls, contains or imports the other, or they are siblings. */
  ghost function Evidence(cs: seq<Candidate>, g: Graph): (nat, nat) -> bool {
    (i: nat, j: nat) =>
      i < |cs| && j < |cs| && cs[i].symbol.Some? && cs[j].symbol.Some?
        && Related(g, cs[i].symbol.value, cs[j].symbol.value)
  }

  // ----- The same evidence in the index's own terms

  /** One of the first fifty rows about `a` names `b`. */
  ghost predicate NamedEarly(rows: map<Id, seq<Option<Id>>>, a: Id, b: Id) {
    a in rows && exists k :: 0 <= k < 50 && k < |rows[a]| && rows[a][k] == Some(b)
  }

  /** `a` is called by or calls `b`, is its child or its sibling, or stands in a file that imports the file of `b`. */
  ghost predicate PointsTo(g: Graph, a: Id, b: Id) {
    || NamedEarly(g.callers, a, b) || NamedEarly(g.callees, a, b)
    || (a in g.symbols && g.symbols[a].parent == Some(b))
    || (a != b && a in g.symbols && b in g.symbols
        && exists p :: g.symbols[a].parent == Some(p) && g.symbols[b].parent == Some(p))
    || (a in g.symbols && b in g.symbols
        && g.symbols[a].file in g.imports && Some(g.symbols[b].file) in g.imports[g.symbols[a].file])
  }

  ghost function Pointers(cs: seq<Candidate>, g: Graph): (nat, nat) -> bool {
    (i: nat, j: nat) =>
      i < |cs| && j < |cs| && exists a, b :: cs[i].symbol == Some(a) && cs[j].symbol == Some(b) && PointsTo(g, a, b)
  }

  lemma CallsAreNamedEarly(g: Graph, a: Id, b: Id)
    ensures Calls(g, a, b) <==> NamedEarly(g.callers, a, b) || NamedEarly(g.callees, a, b)
  {
    AmongCapped(g.callers, a, b);
    AmongCapped(g.callees, a, b);
  }

  lemma AmongCapped(rows: map<Id, seq<Option<Id>>>, a: Id, b: Id)
    ensures Some(b) in Capped(Rows(rows, a)) <==> NamedEarly(rows, a, b)
  {
    var capped := Capped(Rows(rows, a));
    if Some(b) in capped {
      var k :| 0 <= k < |capped| && capped[k] == Some(b);
      assert rows[a][k] == Some(b);
    }
    if NamedEarly(rows, a, b) {
      var k :| 0 <= k < 50 && k < |rows[a]| && rows[a][k] == Some(b);
      assert capped[k] == Some(b);
    }
  }

  lemma RelatedIsPointing(g: Graph, a: Id, b: Id)
    ensures Related(g, a, b) || Related(g, b, a) <==> PointsTo(g, a, b) || PointsTo(g, b, a)
  {
    hide Calls, NamedEarly;
    CallsAreNamedEarly(g, a, b);
    CallsAreNamedEarly(g, b, a);
    if Siblings(g, a, b) {
      var p := ParentOf(g, a).value;
      assert g.symbols[a].parent == Some(p) && g.symbols[b].parent == Some(p);
    }
  }

  lemma ComponentsOfPointers(ix: seq<seq<nat>>, cs: seq<Candidate>, g: Graph)
    requires AreComponents(ix, |cs|, Evidence(cs, g))
    ensures AreComponents(ix, |cs|, Pointers(cs, g))
  {
    hide Related, PointsTo, AreComponents;
    forall i: nat, j: nat ensures Linked(Evidence(cs, g), i, j) <==> Linked(Pointers(cs, g), i, j) {
      if i < |cs| && j < |cs| && cs[i].symbol.Some? && cs[j].symbol.Some? {
        RelatedIsPointing(g, cs[i].symbol.value, cs[j].symbol.value);
      }
    }
    SameComponents(ix, |cs|, Evidence(cs, g), Pointers(cs, g));
  }

  // ----- Indices by key

  ghost predicate Distinct(ids: seq<Id>) { forall a, b | 0 <= a < b < |ids| :: ids[a] != ids[b] }

  ghost predicate IsIndex(keys: seq<Option<Id>>, m: map<Id, seq<nat>>, order: seq<Id>) {
    && (forall s :: s in order <==> s in m)
    && Distinct(order)
    && (forall s | s in m :: m[s] != [] && forall i: nat :: i in m[s] <==> i < |keys| && keys[i] == Some(s))
    && (forall i: nat | i < |keys| && keys[i].Some? :: keys[i].value in m)
  }

  /** The dictionary from each key to the positions that carry it, with its keys in insertion order. */
  method IndexBy(keys: seq<Option<Id>>) returns (m: map<Id, seq<nat>>, order: seq<Id>)
    ensures IsIndex(keys, m, order)
  {
    m, order := map[], [];
    for i := 0 to |keys|
      invariant IsIndex(keys[..i], m, order)
    {
      if keys[i].Some? {
        var s := keys[i].value;
        if s !in m {
          order := order + [s];
          m := m[s := [i]];
        } else {
          m := m[s := m[s] + [i]];
        }
      }
    }
    assert keys[..|keys|] == keys;
  }

  // ----- One union of two lists of candidates

  ghost predicate Covered(edges: seq<Edge>, xs: seq<nat>, ys: seq<nat>) {
    forall i, j | i in xs && j in ys :: (i, j) in edges
  }

  ghost predicate Grows(edges: seq<Edge>, more: seq<Edge>) { forall e | e in edges :: e in more }

  /** The union-find holds exactly what the edges so far make of it, and each of them is justified. */
  ghost predicate InStep(uf: UnionFind, n: nat, edges: seq<Edge>, ev: (nat, nat) -> bool)
    reads uf
  {
    && uf.Valid() && |uf.parent| == n && Within(edges, n) && uf.Roots() == RootsAfter(n, edges)
    && forall e | e in edges :: Connected(ev, e.0, e.1)
  }

  lemma OneMoreUnion(n: nat, edges: seq<Edge>, e: Edge)
    requires Within(edges, n) && e.0 < n && e.1 < n
    ensures Within(edges + [e], n) && RootsAfter(n, edges + [e]) == Joined(RootsAfter(n, edges), e.0, e.1)
  {
    assert (edges + [e])[..|edges|] == edges;
  }

  method UnionAll(uf: UnionFind, n: nat, xs: seq<nat>, ys: seq<nat>, ghost ev: (nat, nat) -> bool,
                  ghost edges: seq<Edge>)
    returns (ghost more: seq<Edge>)
    requires InStep(uf, n, edges, ev)
    requires forall i | i in xs + ys :: i < n
    requires forall i, j | i in xs && j in ys :: Connected(ev, i, j)
    modifies uf
    ensures InStep(uf, n, more, ev) && Grows(edges, more) && Covered(more, xs, ys)
  {
    hide RootsAfter, Connected;
    more := edges;
    for a := 0 to |xs|
      invariant InStep(uf, n, more, ev) && Grows(edges, more) && Covered(more, xs[..a], ys)
    {
      for b := 0 to |ys|
        invariant InStep(uf, n, more, ev) && Grows(edges, more) && Covered(more, xs[..a], ys)
          && Covered(more, [xs[a]], ys[..b])
      {
        assert xs[a] in xs && ys[b] in ys && xs[a] in xs + ys && ys[b] in xs + ys;
        OneMoreUnion(n, more, (xs[a], ys[b]));
        uf.Union(xs[a], ys[b]);
        more := more + [(xs[a], ys[b])];
      }
      assert ys[..|ys|] == ys && xs[..a + 1] == xs[..a] + [xs[a]];
    }
    assert xs[..|xs|] == xs;
  }

  // ----- The three kinds of evidence

  function SymbolKeys(cs: seq<Candidate>): (keys: seq<Option<Id>>)
    ensures |keys| == |cs|
  {
    seq(|cs|, k requires 0 <= k < |cs| => cs[k].symbol)
  }

  ghost predicate Indexed(cs: seq<Candidate>, index: map<Id, seq<nat>>, order: seq<Id>) {
    IsIndex(SymbolKeys(cs), index, order)
  }

  lemma RelatedCandidates(cs: seq<Candidate>, g: Graph, index: map<Id, seq<nat>>, order: seq<Id>, a: Id, b: Id)
    requires Indexed(cs, index, order) && a in index && b in index
    requires Related(g, a, b) || Related(g, b, a)
    ensures forall i | i in index[a] + index[b] :: i < |cs|
    ensures forall i, j | i in index[a] && j in index[b] :: Connected(Evidence(cs, g), i, j)
  {
    hide Related, Connected;
    forall i, j | i in index[a] && j in index[b] ensures Connected(Evidence(cs, g), i, j) {
      LinkConnects(Evidence(cs, g), i, j);
    }
  }

  /** Every row that names a changed symbol has been united with the symbol asked about. */
  ghost predicate RowsCovered(edges: seq<Edge>, index: map<Id, seq<nat>>, s: Id, rows: seq<Option<Id>>) {
    s in index && forall t | t in rows && t.Some? && t.value in index :: Covered(edges, index[s], index[t.value])
  }

  method UniteRows(uf: UnionFind, cs: seq<Candidate>, g: Graph, index: map<Id, seq<nat>>, ghost order: seq<Id>,
                   s: Id, rows: seq<Option<Id>>, ghost edges: seq<Edge>)
    returns (ghost more: seq<Edge>)
    requires Indexed(cs, index, order) && s in index && InStep(uf, |cs|, edges, Evidence(cs, g))
    requires forall t | t in rows && t.Some? :: Related(g, s, t.value)
    modifies uf
    ensures InStep(uf, |cs|, more, Evidence(cs, g)) && Grows(edges, more) && RowsCovered(more, index, s, rows)
  {
    hide Related, InStep, Indexed;
    more := edges;
    for k := 0 to |rows|
      invariant InStep(uf, |cs|, more, Evidence(cs, g)) && Grows(edges, more) && RowsCovered(more, index, s, rows[..k])
    {
      assert rows[k] in rows && rows[..k + 1] == rows[..k] + [rows[k]];
      if rows[k].Some? && rows[k].value in index {
        RelatedCandidates(cs, g, index, order, s, rows[k].value);
        more := UnionAll(uf, |cs|, index[s], index[rows[k].value], Evidence(cs, g), more);
      }
    }
    assert rows[..|rows|] == rows;
  }

  ghost predicate CallsCovered(edges: seq<Edge>, g: Graph, index: map<Id, seq<nat>>, ids: seq<Id>) {
    forall s | s in ids :: RowsCovered(edges, index, s, CallRows(g, s))
  }

  method UniteCalls(uf: UnionFind, cs: seq<Candidate>, g: Graph, index: map<Id, seq<nat>>, ghost order: seq<Id>,
                    ids: seq<Id>, ghost edges: seq<Edge>)
    returns (ghost more: seq<Edge>)
    requires Indexed(cs, index, order) && (forall s | s in ids :: s in index)
      && InStep(uf, |cs|, edges, Evidence(cs, g))
    modifies uf
    ensures InStep(uf, |cs|, more, Evidence(cs, g)) && Grows(edges, more) && CallsCovered(more, g, index, ids)
  {
    hide InStep, Indexed, Capped;
    more := edges;
    for k := 0 to |ids|
      invariant InStep(uf, |cs|, more, Evidence(cs, g)) && Grows(edges, more) && CallsCovered(more, g, index, ids[..k])
    {
      var s := ids[k];
      assert s in ids && ids[..k + 1] == ids[..k] + [s];
      more := UniteRows(uf, cs, g, index, order, s, Capped(Rows(g.callers, s)), more);
      more := UniteRows(uf, cs, g, index, order, s, Capped(Rows(g.callees, s)), more);
    }
    assert ids[..|ids|] == ids;
  }

  function ChildrenOf(g: Graph, ids: seq<Id>, p: Id): (r: seq<Id>)
    ensures forall s :: s in r <==> s in ids && ParentOf(g, s) == Some(p)
  {
    if ids == [] then []
    else
      var last := |ids| - 1;
      assert forall s :: s in ids <==> s in ids[..last] || s == ids[last];
      ChildrenOf(g, ids[..last], p) + if ParentOf(g, ids[last]) == Some(p) then [ids[last]] else []
  }

  lemma {:induction false} ChildrenAreDistinct(g: Graph, ids: seq<Id>, p: Id)
    requires Distinct(ids)
    ensures Distinct(ChildrenOf(g, ids, p))
  {
    if ids != [] {
      var last := |ids| - 1;
      ChildrenAreDistinct(g, ids[..last], p);
      var r := ChildrenOf(g, ids[..last], p);
      forall a | 0 <= a < |r| ensures r[a] != ids[last] {
        assert r[a] in ids[..last];
        var k :| 0 <= k < last && ids[k] == r[a];
      }
      assert ChildrenOf(g, ids, p) == r + if ParentOf(g, ids[last]) == Some(p) then [ids[last]] else [];
    }
  }

  ghost predicate ParentsCovered(edges: seq<Edge>, g: Graph, index: map<Id, seq<nat>>, ids: seq<Id>) {
    forall s | s in ids && s in index && ParentOf(g, s).Some? && ParentOf(g, s).value in index ::
      Covered(edges, index[ParentOf(g, s).value], index[s])
  }

  ghost predicate Families(g: Graph, ids: seq<Id>, byParent: map<Id, seq<Id>>, parents: seq<Id>) {
    && (forall p :: p in parents <==> p in byParent)
    && (forall p | p in byParent :: byParent[p] == ChildrenOf(g, ids, p))
    && (forall s | s in ids && ParentOf(g, s).Some? :: ParentOf(g, s).value in byParent)
  }

  lemma ChildrenStep(g: Graph, ids: seq<Id>, p: Id)
    requires ids != []
    ensures var last := |ids| - 1;
      ChildrenOf(g, ids, p)
      == ChildrenOf(g, ids[..last], p) + if ParentOf(g, ids[last]) == Some(p) then [ids[last]] else []
  {
  }

  lemma FamiliesGrow(g: Graph, ids: seq<Id>, k: nat, byParent: map<Id, seq<Id>>, parents: seq<Id>)
    requires k < |ids| && Families(g, ids[..k], byParent, parents)
    ensures var s := ids[k];
      match ParentOf(g, s)
      case None => Families(g, ids[..k + 1], byParent, parents)
      case Some(p) =>
        if p in byParent then Families(g, ids[..k + 1], byParent[p := byParent[p] + [s]], parents)
        else Families(g, ids[..k + 1], byParent[p := [s]], parents + [p])
  {
    hide ChildrenOf;
    var s := ids[k];
    assert ids[..k + 1] == ids[..k] + [s];
    forall p ensures ChildrenOf(g, ids[..k + 1], p)
      == ChildrenOf(g, ids[..k], p) + if ParentOf(g, s) == Some(p) then [s] else []
    {
      assert ids[..k + 1][..k] == ids[..k];
      ChildrenStep(g, ids[..k + 1], p);
    }
    if ParentOf(g, s).Some? && ParentOf(g, s).value !in byParent {
      NoChildYet(g, ids[..k], ParentOf(g, s).value);
    }
  }

  lemma {:induction false} NoChildYet(g: Graph, ids: seq<Id>, p: Id)
    requires forall s | s in ids :: ParentOf(g, s) != Some(p)
    ensures ChildrenOf(g, ids, p) == []
  {
    if ids != [] {
      NoChildYet(g, ids[..|ids| - 1], p);
    }
  }

  method UniteParents(uf: UnionFind, cs: seq<Candidate>, g: Graph, index: map<Id, seq<nat>>, ghost order: seq<Id>,
                      ids: seq<Id>, ghost edges: seq<Edge>)
    returns (byParent: map<Id, seq<Id>>, parents: seq<Id>, ghost more: seq<Edge>)
    requires Indexed(cs, index, order) && (forall s | s in ids :: s in index)
      && InStep(uf, |cs|, edges, Evidence(cs, g))
    modifies uf
    ensures InStep(uf, |cs|, more, Evidence(cs, g)) && Grows(edges, more)
    ensures ParentsCovered(more, g, index, ids) && Families(g, ids, byParent, parents)
  {
    hide InStep, Indexed, ChildrenOf, Families;
    byParent, parents, more := map[], [], edges;
    assert ids[..0] == [] && Families(g, [], byParent, parents) by { NoFamilies(g); }
    for k := 0 to |ids|
      invariant InStep(uf, |cs|, more, Evidence(cs, g)) && Grows(edges, more)
      invariant ParentsCovered(more, g, index, ids[..k]) && Families(g, ids[..k], byParent, parents)
    {
      var s := ids[k];
      assert s in ids && ids[..k + 1] == ids[..k] + [s];
      FamiliesGrow(g, ids, k, byParent, parents);
      var p := ParentOf(g, s);
      if p.Some? {
        if p.value in index {
          RelatedCandidates(cs, g, index, order, p.value, s);
          more := UnionAll(uf, |cs|, index[p.value], index[s], Evidence(cs, g), more);
        }
        if p.value in byParent {
          byParent := byParent[p.value := byParent[p.value] + [s]];
        } else {
          byParent, parents := byParent[p.value := [s]], parents + [p.value];
        }
      }
    }
    assert ids[..|ids|] == ids;
  }

  lemma NoFamilies(g: Graph)
    ensures Families(g, [], map[], [])
  {
  }

  /** Neighbours in the list have been united. */
  ghost predicate Chained(edges: seq<Edge>, index: map<Id, seq<nat>>, siblings: seq<Id>) {
    && (forall s | s in siblings :: s in index)
    && (forall k | 0 <= k < |siblings| - 1 :: Covered(edges, index[siblings[k]], index[siblings[k + 1]]))
  }

  method UniteSiblings(uf: UnionFind, cs: seq<Candidate>, g: Graph, index: map<Id, seq<nat>>, ghost order: seq<Id>,
                       siblings: seq<Id>, ghost edges: seq<Edge>)
    returns (ghost more: seq<Edge>)
    requires Indexed(cs, index, order) && InStep(uf, |cs|, edges, Evidence(cs, g))
    requires forall s | s in siblings :: s in index
    requires forall a, b | 0 <= a < b < |siblings| :: Siblings(g, siblings[a], siblings[b])
    modifies uf
    ensures InStep(uf, |cs|, more, Evidence(cs, g)) && Grows(edges, more) && Chained(more, index, siblings)
  {
    hide InStep, Indexed, Siblings;
    more := edges;
    var k := 0;
    while k + 1 < |siblings|
      invariant InStep(uf, |cs|, more, Evidence(cs, g)) && Grows(edges, more)
      invariant forall m | 0 <= m < k && m < |siblings| - 1 :: Covered(more, index[siblings[m]], index[siblings[m + 1]])
    {
      RelatedCandidates(cs, g, index, order, siblings[k], siblings[k + 1]);
      more := UnionAll(uf, |cs|, index[siblings[k]], index[siblings[k + 1]], Evidence(cs, g), more);
      k := k + 1;
    }
  }

  ghost predicate FamiliesChained(edges: seq<Edge>, index: map<Id, seq<nat>>, byParent: map<Id, seq<Id>>,
                                  parents: seq<Id>) {
    forall p | p in parents :: p in byParent && Chained(edges, index, byParent[p])
  }

  lemma FamilyIsOfSiblings(g: Graph, ids: seq<Id>, p: Id)
    requires Distinct(ids)
    ensures var r := ChildrenOf(g, ids, p); forall a, b | 0 <= a < b < |r| :: Siblings(g, r[a], r[b])
  {
    hide ChildrenOf;
    ChildrenAreDistinct(g, ids, p);
    var r := ChildrenOf(g, ids, p);
    assert forall a | 0 <= a < |r| :: r[a] in r;
  }

  lemma GrowsStepwise(edges: seq<Edge>, more: seq<Edge>, index: map<Id, seq<nat>>, siblings: seq<Id>)
    requires Grows(edges, more) && Chained(edges, index, siblings)
    ensures Chained(more, index, siblings)
  {
  }

  method UniteFamilies(uf: UnionFind, cs: seq<Candidate>, g: Graph, index: map<Id, seq<nat>>, ghost order: seq<Id>,
                       ghost ids: seq<Id>, byParent: map<Id, seq<Id>>, parents: seq<Id>, ghost edges: seq<Edge>)
    returns (ghost more: seq<Edge>)
    requires Indexed(cs, index, order) && InStep(uf, |cs|, edges, Evidence(cs, g))
    requires (forall s | s in ids :: s in index) && Distinct(ids)
    requires Families(g, ids, byParent, parents)
    modifies uf
    ensures InStep(uf, |cs|, more, Evidence(cs, g)) && Grows(edges, more)
    ensures FamiliesChained(more, index, byParent, parents)
  {
    hide InStep, Indexed, Siblings, ChildrenOf, Chained;
    more := edges;
    for k := 0 to |parents|
      invariant InStep(uf, |cs|, more, Evidence(cs, g)) && Grows(edges, more)
      invariant FamiliesChained(more, index, byParent, parents[..k])
    {
      assert parents[k] in parents && parents[..k + 1] == parents[..k] + [parents[k]];
      ghost var before := more;
      FamilyIsOfSiblings(g, ids, parents[k]);
      assert byParent[parents[k]] == ChildrenOf(g, ids, parents[k]);
      more := UniteSiblings(uf, cs, g, index, order, byParent[parents[k]], more);
      forall p | p in parents[..k] ensures Chained(more, index, byParent[p]) {
        GrowsStepwise(before, more, index, byParent[p]);
      }
    }
    assert parents[..|parents|] == parents;
  }

  // ----- Imports between the files of changed candidates

  function FileKeys(cs: seq<Candidate>, g: Graph): (keys: seq<Option<Id>>)
    ensures |keys| == |cs|
  {
    seq(|cs|, k requires 0 <= k < |cs| => FileOf(g, cs[k].symbol))
  }

  ghost predicate ImportsCovered(edges: seq<Edge>, g: Graph, byFile: map<Id, seq<nat>>, files: seq<Id>) {
    forall f | f in files :: RowsCovered(edges, byFile, f, Rows(g.imports, f))
  }

  lemma ImportingCandidates(cs: seq<Candidate>, g: Graph, byFile: map<Id, seq<nat>>, files: seq<Id>, f: Id, h: Id)
    requires IsIndex(FileKeys(cs, g), byFile, files) && f in byFile && h in byFile
    requires Some(h) in Rows(g.imports, f)
    ensures forall i | i in byFile[f] + byFile[h] :: i < |cs|
    ensures forall i, j | i in byFile[f] && j in byFile[h] :: Connected(Evidence(cs, g), i, j)
  {
    hide Connected, Calls, Contains, Siblings;
    forall i, j | i in byFile[f] && j in byFile[h] ensures Connected(Evidence(cs, g), i, j) {
      assert FileKeys(cs, g)[i] == Some(f) && FileKeys(cs, g)[j] == Some(h);
      LinkConnects(Evidence(cs, g), i, j);
    }
  }

  method UniteFileRows(uf: UnionFind, cs: seq<Candidate>, g: Graph, byFile: map<Id, seq<nat>>, ghost files: seq<Id>,
                       f: Id, ghost edges: seq<Edge>)
    returns (ghost more: seq<Edge>)
    requires IsIndex(FileKeys(cs, g), byFile, files) && f in byFile && InStep(uf, |cs|, edges, Evidence(cs, g))
    modifies uf
    ensures InStep(uf, |cs|, more, Evidence(cs, g)) && Grows(edges, more)
    ensures RowsCovered(more, byFile, f, Rows(g.imports, f))
  {
    hide InStep, IsIndex;
    var rows := Rows(g.imports, f);
    more := edges;
    for k := 0 to |rows|
      invariant InStep(uf, |cs|, more, Evidence(cs, g)) && Grows(edges, more) && RowsCovered(more, byFile, f, rows[..k])
    {
      assert rows[k] in rows && rows[..k + 1] == rows[..k] + [rows[k]];
      if rows[k].Some? && rows[k].value in byFile {
        ImportingCandidates(cs, g, byFile, files, f, rows[k].value);
        more := UnionAll(uf, |cs|, byFile[f], byFile[rows[k].value], Evidence(cs, g), more);
      }
    }
    assert rows[..|rows|] == rows;
  }

  lemma KeysAreIndexed(keys: seq<Option<Id>>, m: map<Id, seq<nat>>, order: seq<Id>)
    requires IsIndex(keys, m, order)
    ensures forall s :: s in order <==> s in m
  {
  }

  lemma SortedHasSameMembers(ids: seq<Id>)
    ensures forall s :: s in Sort(ids, StringLe) <==> s in ids
  {
    hide Sort;
    SortIsPermutation(ids, StringLe);
    assert forall s :: s in Sort(ids, StringLe) <==> s in multiset(Sort(ids, StringLe));
    assert forall s :: s in ids <==> s in multiset(ids);
  }

  method UniteImports(uf: UnionFind, cs: seq<Candidate>, g: Graph, ghost edges: seq<Edge>)
    returns (ghost more: seq<Edge>, ghost byFile: map<Id, seq<nat>>, ghost files: seq<Id>)
    requires InStep(uf, |cs|, edges, Evidence(cs, g))
    modifies uf
    ensures InStep(uf, |cs|, more, Evidence(cs, g)) && Grows(edges, more)
    ensures IsIndex(FileKeys(cs, g), byFile, files) && ImportsCovered(more, g, byFile, files)
  {
    hide InStep, IsIndex, Sort;
    var index, keys := IndexBy(FileKeys(cs, g));
    KeysAreIndexed(FileKeys(cs, g), index, keys);
    var distinct := Sort(keys, StringLe);
    SortedHasSameMembers(keys);
    byFile, files := index, keys;
    more := edges;
    for k := 0 to |distinct|
      invariant InStep(uf, |cs|, more, Evidence(cs, g)) && Grows(edges, more)
      invariant ImportsCovered(more, g, byFile, distinct[..k])
    {
      assert distinct[k] in distinct && distinct[..k + 1] == distinct[..k] + [distinct[k]];
      more := UniteFileRows(uf, cs, g, index, files, distinct[k], more);
    }
    assert distinct[..|distinct|] == distinct;
  }

  // ----- All the evidence has been used

  /** Siblings anywhere in a chain are connected, although only neighbours were united. */
  lemma {:induction false} ChainConnects(edges: seq<Edge>, index: map<Id, seq<nat>>, siblings: seq<Id>, a: nat, b: nat,
                                         i: nat, j: nat)
    requires Chained(edges, index, siblings) && (forall s | s in siblings :: index[s] != [])
    requires a < b < |siblings| && i in index[siblings[a]] && j in index[siblings[b]]
    ensures Connected(EdgeRelation(edges), i, j)
    decreases b - a
  {
    hide Connected;
    var r := EdgeRelation(edges);
    assert siblings[a + 1] in siblings;
    var k := index[siblings[a + 1]][0];
    assert Covered(edges, index[siblings[a]], index[siblings[a + 1]]);
    if b == a + 1 {
      LinkConnects(r, i, j);
    } else {
      LinkConnects(r, i, k);
      ChainConnects(edges, index, siblings, a + 1, b, k, j);
      ConnectedThrough(r, i, k, j);
    }
  }

  ghost predicate AllUsed(cs: seq<Candidate>, g: Graph, index: map<Id, seq<nat>>, order: seq<Id>, ids: seq<Id>,
                          byParent: map<Id, seq<Id>>, parents: seq<Id>, byFile: map<Id, seq<nat>>, files: seq<Id>,
                          edges: seq<Edge>)
  {
    && Indexed(cs, index, order) && (forall s :: s in ids <==> s in index)
    && CallsCovered(edges, g, index, ids)
    && ParentsCovered(edges, g, index, ids)
    && Families(g, ids, byParent, parents) && FamiliesChained(edges, index, byParent, parents)
    && IsIndex(FileKeys(cs, g), byFile, files) && ImportsCovered(edges, g, byFile, files)
  }

  lemma SiblingsAreConnected(cs: seq<Candidate>, g: Graph, index: map<Id, seq<nat>>, order: seq<Id>, ids: seq<Id>,
                             byParent: map<Id, seq<Id>>, parents: seq<Id>, edges: seq<Edge>, i: nat, j: nat, a: Id,
                             b: Id)
    requires Indexed(cs, index, order) && (forall s :: s in ids <==> s in index)
    requires Families(g, ids, byParent, parents) && FamiliesChained(edges, index, byParent, parents)
    requires a in index && b in index && i in index[a] && j in index[b] && Siblings(g, a, b)
    ensures Connected(EdgeRelation(edges), i, j)
  {
    hide Connected, ChildrenOf;
    var p := ParentOf(g, a).value;
    assert p in parents;
    var siblings := byParent[p];
    assert a in siblings && b in siblings;
    var x :| 0 <= x < |siblings| && siblings[x] == a;
    var y :| 0 <= y < |siblings| && siblings[y] == b;
    if x < y {
      ChainConnects(edges, index, siblings, x, y, i, j);
    } else {
      ChainConnects(edges, index, siblings, y, x, j, i);
      ConnectedBothWays(EdgeRelation(edges), j, i);
    }
  }

  lemma EvidenceIsSpanned(cs: seq<Candidate>, g: Graph, index: map<Id, seq<nat>>, order: seq<Id>, ids: seq<Id>,
                          byParent: map<Id, seq<Id>>, parents: seq<Id>, byFile: map<Id, seq<nat>>, files: seq<Id>,
                          edges: seq<Edge>, i: nat, j: nat)
    requires AllUsed(cs, g, index, order, ids, byParent, parents, byFile, files, edges)
    requires Evidence(cs, g)(i, j)
    ensures Connected(EdgeRelation(edges), i, j)
  {
    hide Connected, Families, FamiliesChained, Siblings, Capped;
    var r := EdgeRelation(edges);
    var a, b := cs[i].symbol.value, cs[j].symbol.value;
    assert SymbolKeys(cs)[i] == Some(a) && SymbolKeys(cs)[j] == Some(b);
    assert i in index[a] && j in index[b];
    if Calls(g, a, b) {
      assert RowsCovered(edges, index, a, CallRows(g, a));
      LinkConnects(r, i, j);
    } else if Contains(g, a, b) {
      LinkConnects(r, i, j);
    } else if Siblings(g, a, b) {
      SiblingsAreConnected(cs, g, index, order, ids, byParent, parents, edges, i, j, a, b);
    } else {
      var f, h := FileOf(g, Some(a)).value, FileOf(g, Some(b)).value;
      assert FileKeys(cs, g)[i] == Some(f) && FileKeys(cs, g)[j] == Some(h);
      assert RowsCovered(edges, byFile, f, Rows(g.imports, f));
      LinkConnects(r, i, j);
    }
  }

  // ----- The groups

  predicate CandidateLe(a: Candidate, b: Candidate) {
    if a.filePath != b.filePath then StringLe(a.filePath, b.filePath)
    else a.startLine < b.startLine || (a.startLine == b.startLine && StringLe(a.name, b.name))
  }

  predicate FirstLe(a: seq<Candidate>, b: seq<Candidate>) {
    a == [] || (b != [] && CandidateLe(a[0], b[0]))
  }

  function Arranged(groups: seq<seq<Candidate>>): (r: seq<seq<Candidate>>)
    ensures |r| == |groups| && forall k | 0 <= k < |r| :: r[k] == Sort(groups[k], CandidateLe)
  {
    seq(|groups|, k requires 0 <= k < |groups| => Sort(groups[k], CandidateLe))
  }

  function Presented(cs: seq<Candidate>, ix: seq<seq<nat>>): seq<seq<Candidate>>
    requires AllBelow(ix, |cs|)
  {
    Sort(Arranged(PickEach(cs, ix)), FirstLe)
  }

  // ----- What the presented units hold, and in which order

  /** By file path, then by start line, then by name. */
  ghost predicate IsListedBefore(a: Candidate, b: Candidate) {
    && (a.filePath != b.filePath ==> ComesFirst(a.filePath, b.filePath))
    && (a.filePath == b.filePath ==> a.startLine <= b.startLine)
    && (a.filePath == b.filePath && a.startLine == b.startLine ==> ComesFirst(a.name, b.name))
  }

  lemma CandidateLeMeans(a: Candidate, b: Candidate)
    ensures CandidateLe(a, b) <==> IsListedBefore(a, b)
  {
    hide StringLe, ComesFirst;
    StringLeMeans(a.filePath, b.filePath);
    StringLeMeans(a.name, b.name);
  }

  lemma CandidateLeIsTotalPreorder()
    ensures TotalPreorder(CandidateLe)
  {
    hide StringLe;
    StringLeIsTotalPreorder();
    forall x, y, z | CandidateLe(x, y) && CandidateLe(y, z) ensures CandidateLe(x, z) {
      CandidateLeTransitive(x, y, z);
    }
  }

  lemma CandidateLeTransitive(x: Candidate, y: Candidate, z: Candidate)
    requires CandidateLe(x, y) && CandidateLe(y, z)
    ensures CandidateLe(x, z)
  {
    hide StringLe;
    StringLeIsTotalPreorder();
    if x.filePath == z.filePath && StringLe(y.filePath, z.filePath) && StringLe(x.filePath, y.filePath) {
      StringLeAntisymmetric(x.filePath, y.filePath);
    }
  }

  lemma FirstLeIsTotalPreorder()
    ensures TotalPreorder(FirstLe)
  {
    hide CandidateLe;
    CandidateLeIsTotalPreorder();
  }

  /**
    * The units hold exactly the components of the evidence, one each, and so every candidate exactly as often as it was
    * given; within a unit, and by the first of each unit, candidates are listed in order.
    */
  ghost predicate AreChangeUnits(cs: seq<Candidate>, g: Graph, units: seq<seq<Candidate>>, ix: seq<seq<nat>>) {
    && AreComponents(ix, |cs|, Pointers(cs, g)) && AreBagsOf(units, cs, ix)
    && multiset(Flat(units)) == multiset(cs)
    && (forall u | u in units :: u != [] && forall i, j | 0 <= i < j < |u| :: IsListedBefore(u[i], u[j]))
    && forall a, b | 0 <= a < b < |units| :: StartsBefore(units[a], units[b])
  }

  ghost predicate StartsBefore(u: seq<Candidate>, v: seq<Candidate>) { u != [] && v != []
                                                                      && IsListedBefore(u[0], v[0]) }

  lemma ArrangedHoldsSame(groups: seq<seq<Candidate>>)
    ensures Bags(Arranged(groups)) == Bags(groups)
  {
    forall k | 0 <= k < |groups| ensures multiset(Arranged(groups)[k]) == multiset(groups[k]) {
      SortIsPermutation(groups[k], CandidateLe);
    }
  }

  lemma ArrangedIsListed(groups: seq<seq<Candidate>>, u: seq<Candidate>)
    requires u in Arranged(groups) && forall m | m in groups :: m != []
    ensures u != [] && forall i, j | 0 <= i < j < |u| :: IsListedBefore(u[i], u[j])
  {
    hide CandidateLe, IsListedBefore, Sort;
    var k :| 0 <= k < |groups| && u == Sort(groups[k], CandidateLe);
    assert groups[k] in groups;
    SortIsPermutation(groups[k], CandidateLe);
    CandidateLeIsTotalPreorder();
    SortIsAscending(groups[k], CandidateLe);
    forall i, j | 0 <= i < j < |u| ensures IsListedBefore(u[i], u[j]) {
      CandidateLeMeans(u[i], u[j]);
    }
  }

  lemma PresentedAreUnits(cs: seq<Candidate>, g: Graph, ix: seq<seq<nat>>)
    requires AreComponents(ix, |cs|, Evidence(cs, g)) && AllBelow(ix, |cs|)
    ensures AreChangeUnits(cs, g, Presented(cs, ix), ix)
  {
    hide AreComponents, Sort, Flat, FirstLe, IsListedBefore, PickEach, Arranged;
    ComponentsOfPointers(ix, cs, g);
    var groups := PickEach(cs, ix);
    var arranged, units := Arranged(groups), Presented(cs, ix);
    ArrangedHoldsSame(groups);
    SortIsPermutation(arranged, FirstLe);
    BagsOfRearranged(units, arranged);
    ComponentsConserve(units, cs, ix, Pointers(cs, g));
    PickedAreNotEmpty(cs, ix, Evidence(cs, g));
    forall u | u in units ensures u != [] && forall i, j | 0 <= i < j < |u| :: IsListedBefore(u[i], u[j]) {
      assert u in multiset(units);
      assert u in multiset(arranged);
      ArrangedIsListed(groups, u);
    }
    FirstLeIsTotalPreorder();
    SortIsAscending(arranged, FirstLe);
    forall a, b | 0 <= a < b < |units| ensures StartsBefore(units[a], units[b]) {
      assert units[a] in units && units[b] in units;
      FirstLeMeans(units[a], units[b]);
    }
  }

  lemma FirstLeMeans(u: seq<Candidate>, v: seq<Candidate>)
    requires u != [] && v != [] && FirstLe(u, v)
    ensures StartsBefore(u, v)
  {
    CandidateLeMeans(u[0], v[0]);
  }

  lemma PickedAreNotEmpty(cs: seq<Candidate>, ix: seq<seq<nat>>, r: (nat, nat) -> bool)
    requires AreComponents(ix, |cs|, r) && AllBelow(ix, |cs|)
    ensures forall m | m in PickEach(cs, ix) :: m != []
  {
    hide Connected;
    forall m | m in PickEach(cs, ix) ensures m != [] {
      var k :| 0 <= k < |ix| && PickEach(cs, ix)[k] == m;
      assert ix[k] in ix;
    }
  }

  method CollectGroups(uf: UnionFind, n: nat) returns (ix: seq<seq<nat>>)
    requires uf.Valid() && |uf.parent| == n
    modifies uf
    ensures ix == GroupsByLabel(old(uf.Roots()))
  {
    hide GroupOf, Firsts, RootOf, RootsOf, Collected;
    ghost var roots := uf.Roots();
    var order: seq<nat>, members: map<nat, seq<nat>> := [], map[];
    NothingCollected(roots);
    for i := 0 to n
      invariant uf.Valid() && |uf.parent| == n && uf.Roots() == roots
      invariant Collected(roots, i, order, members)
    {
      var root := uf.Find(i);
      CollectedGrows(roots, i, order, members);
      ghost var next := members[root := (if root in members then members[root] else []) + [i]];
      if root !in members {
        order, members := order + [root], members[root := []];
      }
      members := members[root := members[root] + [i]];
      assert members == next;
    }
    AllCollected(roots, order, members);
    ix := seq(|order|, k requires 0 <= k < |order| && order[k] in members => members[order[k]]);
  }

  /** The dictionary of groups after the first `i` candidates. */
  ghost predicate Collected(labels: seq<nat>, i: nat, order: seq<nat>, members: map<nat, seq<nat>>) {
    && i <= |labels| && order == Firsts(labels[..i])
    && (forall x: nat :: x in members <==> x in order)
    && (forall x | x in members :: members[x] == GroupOf(labels[..i], x))
  }

  lemma NothingCollected(labels: seq<nat>)
    ensures Collected(labels, 0, [], map[])
  {
  }

  lemma CollectedGrows(labels: seq<nat>, i: nat, order: seq<nat>, members: map<nat, seq<nat>>)
    requires i < |labels| && Collected(labels, i, order, members)
    ensures var root := labels[i];
      var order' := if root in members then order else order + [root];
      var before := if root in members then members[root] else [];
      Collected(labels, i + 1, order', members[root := before + [i]])
  {
    hide GroupOf, Firsts;
    NextLabel(labels, i);
    if labels[i] !in members {
      NoGroupYet(labels[..i], labels[i]);
    }
  }

  lemma NextLabel(labels: seq<nat>, i: nat)
    requires i < |labels|
    ensures var before, x := labels[..i], labels[i];
      && Firsts(labels[..i + 1]) == (if x in Firsts(before) then Firsts(before) else Firsts(before) + [x])
      && forall root :: GroupOf(labels[..i + 1], root) == GroupOf(before, root) + if x == root then [i] else []
  {
    assert labels[..i + 1][..i] == labels[..i];
  }

  lemma AllCollected(labels: seq<nat>, order: seq<nat>, members: map<nat, seq<nat>>)
    requires Collected(labels, |labels|, order, members)
    ensures order == Firsts(labels)
    ensures forall x: nat :: x in members <==> x in order
    ensures forall x | x in members :: members[x] == GroupOf(labels, x)
  {
    assert labels[..|labels|] == labels;
  }

  /**
    * The groups are exactly the components of the evidence, whatever order `shuffled` in which the set of changed
    * symbols happens to be walked; the units are those groups, members and units sorted for presentation.
    */
  method GroupIntoChangeUnits(cs: seq<Candidate>, g: Graph, shuffled: seq<Id>)
    returns (units: seq<seq<Candidate>>, ix: seq<seq<nat>>)
    requires forall s :: s in shuffled <==> exists i :: 0 <= i < |cs| && cs[i].symbol == Some(s)
    requires Distinct(shuffled)
    ensures AreComponents(ix, |cs|, Evidence(cs, g))
    ensures AllBelow(ix, |cs|) && units == Presented(cs, ix)
    ensures AreChangeUnits(cs, g, units, ix)
  {
    hide AreChangeUnits, AreComponents, InStep, GroupsByLabel, Captures, RootsAfter;
    var index, order := IndexBy(SymbolKeys(cs));
    SameKeys(cs, index, order, shuffled);
    var sorted := Sort(order, StringLe);
    SortedHasSameMembers(order);
    var uf := new UnionFind(|cs|);
    ghost var edges: seq<Edge> := [];
    assert InStep(uf, |cs|, edges, Evidence(cs, g)) by { NothingUnited(uf, cs, g); }
    edges := UniteCalls(uf, cs, g, index, order, sorted, edges);
    ghost var afterCalls := edges;
    var byParent, parents;
    byParent, parents, edges := UniteParents(uf, cs, g, index, order, shuffled, edges);
    ghost var afterParents := edges;
    edges := UniteFamilies(uf, cs, g, index, order, shuffled, byParent, parents, edges);
    ghost var afterFamilies := edges;
    ghost var byFile: map<Id, seq<nat>>, files: seq<Id>;
    edges, byFile, files := UniteImports(uf, cs, g, edges);
    EverythingUsed(cs, g, index, order, sorted, shuffled, byParent, parents, byFile, files,
                   afterCalls, afterParents, afterFamilies, edges);
    forall i: nat, j: nat | Evidence(cs, g)(i, j) ensures Connected(EdgeRelation(edges), i, j) {
      EvidenceIsSpanned(cs, g, index, order, shuffled, byParent, parents, byFile, files, edges, i, j);
    }
    RootsCapture(uf, cs, g, edges);
    ix := CollectGroups(uf, |cs|);
    LabelledGroupsAreComponents(RootsAfter(|cs|, edges), Evidence(cs, g));
    WithinBounds(ix, |cs|, Evidence(cs, g));
    units := Presented(cs, ix);
    PresentedAreUnits(cs, g, ix);
  }

  /** Two runs over the same candidates and index give the same units, in whatever order each walked the symbols. */
  lemma WalkOrderDoesNotMatter(cs: seq<Candidate>, g: Graph, ix: seq<seq<nat>>, jx: seq<seq<nat>>,
                               units: seq<seq<Candidate>>, others: seq<seq<Candidate>>)
    requires AreComponents(ix, |cs|, Evidence(cs, g)) && AreComponents(jx, |cs|, Evidence(cs, g))
    requires AllBelow(ix, |cs|) && units == Presented(cs, ix)
    requires AllBelow(jx, |cs|) && others == Presented(cs, jx)
    ensures units == others
  {
    hide AreComponents;
    ComponentsAreUnique(ix, jx, |cs|, Evidence(cs, g));
  }

  lemma SameKeys(cs: seq<Candidate>, index: map<Id, seq<nat>>, order: seq<Id>, shuffled: seq<Id>)
    requires Indexed(cs, index, order)
    requires forall s :: s in shuffled <==> exists i :: 0 <= i < |cs| && cs[i].symbol == Some(s)
    ensures forall s :: s in shuffled <==> s in index
  {
    forall s ensures s in shuffled <==> s in index {
      if s in index {
        assert index[s][0] in index[s];
        assert SymbolKeys(cs)[index[s][0]] == Some(s);
      }
      if i :| 0 <= i < |cs| && cs[i].symbol == Some(s) {
        assert SymbolKeys(cs)[i] == Some(s);
      }
    }
  }

  lemma NothingUnited(uf: UnionFind, cs: seq<Candidate>, g: Graph)
    requires uf.Valid() && |uf.parent| == |cs| && uf.Roots() == seq(|cs|, k => k)
    ensures InStep(uf, |cs|, [], Evidence(cs, g))
  {
  }

  lemma RootsCapture(uf: UnionFind, cs: seq<Candidate>, g: Graph, edges: seq<Edge>)
    requires InStep(uf, |cs|, edges, Evidence(cs, g))
    requires forall i: nat, j: nat | Evidence(cs, g)(i, j) :: Connected(EdgeRelation(edges), i, j)
    ensures uf.Valid() && |uf.parent| == |cs| && Within(edges, |cs|) && uf.Roots() == RootsAfter(|cs|, edges)
    ensures Captures(RootsAfter(|cs|, edges), Evidence(cs, g)) && LeastRoots(RootsAfter(|cs|, edges))
  {
    SpanningUnionsCapture(|cs|, edges, Evidence(cs, g));
  }

  lemma WithinBounds(ix: seq<seq<nat>>, n: nat, r: (nat, nat) -> bool)
    requires AreComponents(ix, n, r)
    ensures AllBelow(ix, n)
  {
    forall m, i | m in ix && i in m ensures i < n {
      var a: nat :| a < |ix| && ix[a] == m;
      assert InGroup(ix, i, a) && Grouped(ix, i);
    }
  }

  lemma EverythingUsed(cs: seq<Candidate>, g: Graph, index: map<Id, seq<nat>>, order: seq<Id>, sorted: seq<Id>,
                       ids: seq<Id>, byParent: map<Id, seq<Id>>, parents: seq<Id>, byFile: map<Id, seq<nat>>,
                       files: seq<Id>, e1: seq<Edge>, e2: seq<Edge>, e3: seq<Edge>, e4: seq<Edge>)
    requires Indexed(cs, index, order) && (forall s :: s in ids <==> s in index)
      && (forall s :: s in sorted <==> s in index)
    requires CallsCovered(e1, g, index, sorted) && Grows(e1, e2)
    requires ParentsCovered(e2, g, index, ids) && Families(g, ids, byParent, parents) && Grows(e2, e3)
    requires FamiliesChained(e3, index, byParent, parents) && Grows(e3, e4)
    requires IsIndex(FileKeys(cs, g), byFile, files) && ImportsCovered(e4, g, byFile, files)
    ensures AllUsed(cs, g, index, order, ids, byParent, parents, byFile, files, e4)
  {
    hide ChildrenOf, CallRows, Families, IsIndex, Indexed;
    assert Grows(e1, e4) && Grows(e2, e4);
    forall s | s in ids ensures RowsCovered(e4, index, s, CallRows(g, s)) {
      assert RowsCovered(e1, index, s, CallRows(g, s));
    }
    forall p | p in parents ensures p in byParent && Chained(e4, index, byParent[p]) {
      GrowsStepwise(e3, e4, index, byParent[p]);
    }
  }

  // ----- What the result means

  /** A candidate without a symbol always stands alone. */
  lemma NoSymbolStandsAlone(cs: seq<Candidate>, g: Graph, ix: seq<seq<nat>>, a: nat, i: nat)
    requires AreComponents(ix, |cs|, Evidence(cs, g)) && InGroup(ix, i, a) && i < |cs| && cs[i].symbol.None?
    ensures ix[a] == [i]
  {
    hide Related;
    forall j | j in ix[a] ensures j == i {
      assert InGroup(ix, j, a) && Connected(Evidence(cs, g), i, j);
      var p :| Walk(Evidence(cs, g), i, p, j);
    }
    var m := ix[a];
    assert m in ix && m[0] in m && m[|m| - 1] in m;
  }

  /** Two siblings among the changed symbols always share a unit, however many siblings stand between them. */
  lemma SiblingsShareUnit(cs: seq<Candidate>, g: Graph, ix: seq<seq<nat>>, i: nat, j: nat, a: nat, b: nat)
    requires AreComponents(ix, |cs|, Evidence(cs, g)) && InGroup(ix, i, a) && InGroup(ix, j, b)
    requires i < |cs| && j < |cs| && cs[i].symbol.Some? && cs[j].symbol.Some?
    requires Siblings(g, cs[i].symbol.value, cs[j].symbol.value)
    ensures a == b
  {
    LinkConnects(Evidence(cs, g), i, j);
  }
}
