/** What a change may affect: symbols one and two call edges away and likely tests, ranked and capped. */
module AffectedSurface {
  import opened Wrappers
  import opened Ordering
  import Conservation
  import opened OrderedSets
  import opened CallLayers

  const MAX_AFFECTED_SURFACE_PER_UNIT := 25
  const MAX_FANOUT_PER_SYMBOL := 50

  datatype Symbol = Symbol(fileId: Id, qualifiedName: string)

  /** What the index answers; `tests` lists the likely test files of a file. */
  datatype Index = Index(
    callers: map<Id, seq<Option<Id>>>,
    callees: map<Id, seq<Option<Id>>>,
    symbols: map<Id, Symbol>,
    files: map<Id, string>,
    tests: map<Id, seq<Id>>)

  datatype Relation = Test | DirectlyDependent | IndirectlyAffected

  function Rank(r: Relation): nat {
    match r
    case Test => 0
    case DirectlyDependent => 1
    case IndirectlyAffected => 2
  }

  datatype Ref = Ref(filePath: string, qualifiedName: Option<string>, relation: Relation, distance: nat)

  // ----- The call graph, whole and as far as the fan-out cap shows it

  function Rows(m: map<Id, seq<Option<Id>>>, id: Id): seq<Option<Id>> { if id in m then m[id] else [] }

  function Named(rows: seq<Option<Id>>): set<Id> { set row | row in rows && row.Some? :: row.value }

  function Neighbouring(index: Index, id: Id): set<Id> {
    Named(Rows(index.callers, id)) + Named(Rows(index.callees, id))
  }

  function NeighbouringCapped(index: Index, id: Id): set<Id> {
    Named(Prefix(Rows(index.callers, id), MAX_FANOUT_PER_SYMBOL))
    + Named(Prefix(Rows(index.callees, id), MAX_FANOUT_PER_SYMBOL))
  }

  function Whole(index: Index): Neighbours { id => Neighbouring(index, id) }

  function Shown(index: Index): Neighbours { id => NeighbouringCapped(index, id) }

  // ----- Insertion-ordered results

  /** A dictionary: writing to a key that is there keeps the key's place. */
  datatype Found = Found(order: seq<Id>, refs: map<Id, Ref>) {
    function Put(key: Id, ref: Ref): Found { Found(if key in refs then order else order + [key], refs[key := ref]) }

    ghost predicate Valid() {
      && (forall x :: x in order <==> x in refs)
      && forall i, j | 0 <= i < j < |order| :: order[i] != order[j]
    }

    function Values(): seq<Ref>
      requires forall x | x in order :: x in refs
    {
      Read(refs, order)
    }
  }

  function Read(refs: map<Id, Ref>, order: seq<Id>): (r: seq<Ref>)
    requires forall x | x in order :: x in refs
    ensures |r| == |order| && forall i | 0 <= i < |order| :: r[i] == refs[order[i]]
  {
    seq(|order|, i requires 0 <= i < |order| => refs[order[i]])
  }

  predicate IsResolved(index: Index, id: Id) { id in index.symbols && index.symbols[id].fileId in index.files }

  function SymbolRef(index: Index, id: Id, relation: Relation, distance: nat): Ref
    requires IsResolved(index, id)
  {
    Ref(index.files[index.symbols[id].fileId], Some(index.symbols[id].qualifiedName), relation, distance)
  }

  function TestRef(index: Index, fileId: Id): Ref
    requires fileId in index.files
  {
    Ref(index.files[fileId], None, Test, 1)
  }

  method CollectLayer(index: Index, ids: set<Id>, excluded: set<Id>) returns (layer: set<Id>)
    ensures layer == Fan(Shown(index), ids) - excluded
  {
    hide NeighbouringCapped, Fan, Named, Prefix, Elements, Rows, InOrder;
    var sorted := SortIds(ids);
    layer := {};
    NothingFanned(Shown(index));
    for k := 0 to |sorted|
      invariant layer == Fan(Shown(index), Elements(sorted[..k])) - excluded
    {
      var more := NamedOutside(Prefix(Rows(index.callers, sorted[k]), MAX_FANOUT_PER_SYMBOL), excluded);
      var yetMore := NamedOutside(Prefix(Rows(index.callees, sorted[k]), MAX_FANOUT_PER_SYMBOL), excluded);
      LayerGrows(index, sorted, k, excluded, layer, more, yetMore);
      layer := layer + more + yetMore;
    }
    assert sorted[..|sorted|] == sorted;
    assert Elements(sorted) == ids by { ElementsInOrder(ids); }
  }

  lemma ElementsInOrder(ids: set<Id>)
    ensures Elements(InOrder(ids)) == ids
  {
  }

  lemma NothingFanned(next: Neighbours)
    ensures forall ids: seq<Id> :: Fan(next, Elements(ids[..0])) == {}
  {
  }

  lemma LayerGrows(index: Index, ids: seq<Id>, k: nat, excluded: set<Id>, layer: set<Id>, more: set<Id>,
                   yetMore: set<Id>)
    requires k < |ids| && layer == Fan(Shown(index), Elements(ids[..k])) - excluded
    requires more == Named(Prefix(Rows(index.callers, ids[k]), MAX_FANOUT_PER_SYMBOL)) - excluded
    requires yetMore == Named(Prefix(Rows(index.callees, ids[k]), MAX_FANOUT_PER_SYMBOL)) - excluded
    ensures layer + more + yetMore == Fan(Shown(index), Elements(ids[..k + 1])) - excluded
  {
    hide NeighbouringCapped, Fan, Named, Prefix, Elements, Rows;
    FanGrows(Shown(index), ids, k);
    BothSides(index, ids[k]);
  }

  lemma BothSides(index: Index, id: Id)
    ensures Shown(index)(id) == Named(Prefix(Rows(index.callers, id), MAX_FANOUT_PER_SYMBOL))
                              + Named(Prefix(Rows(index.callees, id), MAX_FANOUT_PER_SYMBOL))
  {
  }

  method NamedOutside(rows: seq<Option<Id>>, excluded: set<Id>) returns (ids: set<Id>)
    ensures ids == Named(rows) - excluded
  {
    ids := {};
    for k := 0 to |rows|
      invariant ids == Named(rows[..k]) - excluded
    {
      assert rows[..k + 1] == rows[..k] + [rows[k]];
      if rows[k].Some? && rows[k].value !in excluded {
        ids := ids + {rows[k].value};
      }
    }
    assert rows[..|rows|] == rows;
  }

  // ----- What is found, key by key

  ghost function DirectIds(index: Index, changed: set<Id>): set<Id> { FirstLayer(Shown(index), changed) }

  ghost function IndirectIds(index: Index, changed: set<Id>): set<Id> {
    SecondLayer(Shown(index), changed, DirectIds(index, changed))
  }

  /** The indexed test files the index links to a file that holds a changed symbol. */
  ghost predicate IsTestFile(index: Index, changed: set<Id>, fileId: Id) {
    && fileId in index.files
    && exists s | s in changed && s in index.symbols ::
         index.symbols[s].fileId in index.tests && fileId in index.tests[index.symbols[s].fileId]
  }

  /** A test file wins over a symbol of the same id; else the layer the symbol is in decides. */
  ghost predicate HoldsFor(index: Index, changed: set<Id>, found: Found, x: Id) {
    if IsTestFile(index, changed, x) then x in found.refs && found.refs[x] == TestRef(index, x)
    else HoldsSymbol(index, DirectIds(index, changed), IndirectIds(index, changed), found, x)
  }

  ghost predicate HoldsSymbol(index: Index, direct: set<Id>, indirect: set<Id>, found: Found, x: Id) {
    if x in direct && IsResolved(index, x) then
      x in found.refs && found.refs[x] == SymbolRef(index, x, DirectlyDependent, 1)
    else if x in indirect && IsResolved(index, x) then
      x in found.refs && found.refs[x] == SymbolRef(index, x, IndirectlyAffected, 2)
    else x !in found.refs
  }

  /** `found` is `before` with the resolved ones of `ids` added, all of one relation. */
  ghost predicate Placed(index: Index, ids: set<Id>, relation: Relation, distance: nat, before: Found, found: Found) {
    && found.Valid()
    && (forall x :: x in found.refs <==> x in before.refs || (x in ids && IsResolved(index, x)))
    && (forall x | x in before.refs :: found.refs[x] == before.refs[x])
    && (forall x | x in ids && IsResolved(index, x) :: found.refs[x] == SymbolRef(index, x, relation, distance))
  }

  method PutSymbols(index: Index, ids: set<Id>, relation: Relation, distance: nat, before: Found) returns (found: Found)
    requires before.Valid() && forall x | x in ids :: x !in before.refs
    ensures Placed(index, ids, relation, distance, before, found)
  {
    hide IsResolved, SymbolRef, Placed, Elements, InOrder;
    var sorted := SortIds(ids);
    found := before;
    NothingPlaced(index, relation, distance, before);
    ElementsInOrder(ids);
    assert Elements(sorted[..0]) == {} by { NoElements(sorted); }
    for k := 0 to |sorted|
      invariant Placed(index, Elements(sorted[..k]), relation, distance, before, found)
    {
      var id := sorted[k];
      OneMoreElement(sorted, k);
      assert id in ids by { AmongElements(sorted, k); }
      PlaceOne(index, Elements(sorted[..k]), relation, distance, before, found, id);
      if IsResolved(index, id) {
        if id in found.refs {
          continue;
        }
        found := found.Put(id, SymbolRef(index, id, relation, distance));
      }
    }
    assert sorted[..|sorted|] == sorted;
  }

  lemma NoElements(ids: seq<Id>)
    ensures Elements(ids[..0]) == {}
  {
  }

  lemma AmongElements(ids: seq<Id>, k: nat)
    requires k < |ids|
    ensures ids[k] in Elements(ids)
  {
  }

  lemma OneMoreElement(ids: seq<Id>, k: nat)
    requires k < |ids|
    ensures Elements(ids[..k + 1]) == Elements(ids[..k]) + {ids[k]}
  {
  }

  lemma NothingPlaced(index: Index, relation: Relation, distance: nat, before: Found)
    requires before.Valid()
    ensures Placed(index, {}, relation, distance, before, before)
  {
  }

  lemma PlaceOne(index: Index, ids: set<Id>, relation: Relation, distance: nat, before: Found, found: Found, id: Id)
    requires Placed(index, ids, relation, distance, before, found) && id !in before.refs
    ensures Placed(index, ids + {id}, relation, distance, before,
                   if IsResolved(index, id) && id !in found.refs then
                     found.Put(id, SymbolRef(index, id, relation, distance))
                   else found)
  {
    hide IsResolved, SymbolRef;
    if IsResolved(index, id) && id !in found.refs {
      PutKeepsValid(found, id, SymbolRef(index, id, relation, distance));
    }
  }

  lemma PutKeepsValid(found: Found, key: Id, ref: Ref)
    requires found.Valid()
    ensures found.Put(key, ref).Valid()
  {
  }

  function ChangedFiles(index: Index, changed: set<Id>): set<Id> {
    set s | s in changed && s in index.symbols :: index.symbols[s].fileId
  }

  ghost predicate Linked(index: Index, fileIds: seq<Id>, x: Id) {
    exists f | f in fileIds :: f in index.tests && x in index.tests[f]
  }

  method PutTests(index: Index, changed: set<Id>, before: Found) returns (found: Found)
    requires before.Valid()
    ensures found.Valid()
    ensures forall x | !IsTestFile(index, changed, x) ::
      (x in found.refs <==> x in before.refs) && (x in found.refs ==> found.refs[x] == before.refs[x])
    ensures forall x | IsTestFile(index, changed, x) :: x in found.refs && found.refs[x] == TestRef(index, x)
  {
    hide TestsPut, Linked, ChangedFiles, TestRef, InOrder, Elements;
    var sorted := SortIds(ChangedFiles(index, changed));
    var seen: set<Id> := {};
    found := before;
    NothingPut(index, before, sorted);
    for k := 0 to |sorted|
      invariant TestsPut(index, before, found, seen)
      invariant forall x :: x in seen <==> Linked(index, sorted[..k], x)
    {
      var edges := if sorted[k] in index.tests then index.tests[sorted[k]] else [];
      ghost var seenBefore := seen;
      NoElements(edges);
      for e := 0 to |edges|
        invariant TestsPut(index, before, found, seen)
        invariant seen == seenBefore + Elements(edges[..e])
      {
        OneMoreElement(edges, e);
        if edges[e] in seen {
          continue;
        }
        TestOne(index, before, found, seen, edges[e]);
        seen := seen + {edges[e]};
        if edges[e] !in index.files {
          continue;
        }
        found := found.Put(edges[e], TestRef(index, edges[e]));
      }
      assert edges[..|edges|] == edges;
      SeenGrows(index, sorted, k, seenBefore, seen);
    }
    assert sorted[..|sorted|] == sorted;
    forall x ensures IsTestFile(index, changed, x) <==> x in index.files && x in seen {
      TestFilesAreLinked(index, changed, sorted, x);
    }
    AllPut(index, changed, before, found, seen);
  }

  lemma NothingPut(index: Index, before: Found, fileIds: seq<Id>)
    requires before.Valid()
    ensures TestsPut(index, before, before, {})
    ensures forall x :: !Linked(index, fileIds[..0], x)
  {
  }

  lemma LinksGrow(index: Index, fileIds: seq<Id>, k: nat)
    requires k < |fileIds|
    ensures var edges := if fileIds[k] in index.tests then index.tests[fileIds[k]] else [];
      forall x :: Linked(index, fileIds[..k + 1], x) <==> Linked(index, fileIds[..k], x) || x in edges
  {
    var edges := if fileIds[k] in index.tests then index.tests[fileIds[k]] else [];
    assert fileIds[..k + 1] == fileIds[..k] + [fileIds[k]];
    forall x ensures Linked(index, fileIds[..k + 1], x) <==> Linked(index, fileIds[..k], x) || x in edges {
      if f :| f in fileIds[..k] && f in index.tests && x in index.tests[f] {
        assert f in fileIds[..k + 1];
      }
      assert fileIds[k] in fileIds[..k + 1];
    }
  }

  lemma SeenGrows(index: Index, fileIds: seq<Id>, k: nat, before: set<Id>, seen: set<Id>)
    requires k < |fileIds| && forall x :: x in before <==> Linked(index, fileIds[..k], x)
    requires seen == before + Elements(if fileIds[k] in index.tests then index.tests[fileIds[k]] else [])
    ensures forall x :: x in seen <==> Linked(index, fileIds[..k + 1], x)
  {
    hide Linked;
    LinksGrow(index, fileIds, k);
  }

  lemma TestOne(index: Index, before: Found, found: Found, seen: set<Id>, x: Id)
    requires TestsPut(index, before, found, seen) && x !in seen
    ensures TestsPut(index, before, if x in index.files then found.Put(x, TestRef(index, x)) else found, seen + {x})
  {
    hide TestRef;
    if x in index.files {
      PutKeepsValid(found, x, TestRef(index, x));
    }
  }

  lemma AllPut(index: Index, changed: set<Id>, before: Found, found: Found, seen: set<Id>)
    requires TestsPut(index, before, found, seen)
    requires forall x :: IsTestFile(index, changed, x) <==> x in index.files && x in seen
    ensures found.Valid()
    ensures forall x | !IsTestFile(index, changed, x) ::
      (x in found.refs <==> x in before.refs) && (x in found.refs ==> found.refs[x] == before.refs[x])
    ensures forall x | IsTestFile(index, changed, x) :: x in found.refs && found.refs[x] == TestRef(index, x)
  {
    hide IsTestFile, TestRef;
  }

  ghost predicate TestsPut(index: Index, before: Found, found: Found, seen: set<Id>) {
    && found.Valid()
    && (forall x | x !in seen || x !in index.files ::
          (x in found.refs <==> x in before.refs) && (x in found.refs ==> found.refs[x] == before.refs[x]))
    && forall x | x in seen && x in index.files :: x in found.refs && found.refs[x] == TestRef(index, x)
  }

  lemma TestFilesAreLinked(index: Index, changed: set<Id>, fileIds: seq<Id>, x: Id)
    requires forall f :: f in fileIds <==> f in ChangedFiles(index, changed)
    ensures IsTestFile(index, changed, x) <==> x in index.files && Linked(index, fileIds, x)
  {
    if s :| s in changed && s in index.symbols && index.symbols[s].fileId in index.tests
            && x in index.tests[index.symbols[s].fileId] {
      assert index.symbols[s].fileId in fileIds;
    }
    if f :| f in fileIds && f in index.tests && x in index.tests[f] {
      assert f in ChangedFiles(index, changed);
    }
  }

  // ----- The surface

  predicate RefLe(a: Ref, b: Ref) {
    if Rank(a.relation) != Rank(b.relation) then Rank(a.relation) < Rank(b.relation)
    else if a.filePath != b.filePath then StringLe(a.filePath, b.filePath)
    else StringLe(a.qualifiedName.GetOr(""), b.qualifiedName.GetOr(""))
  }

  /** `surface` is the first part, up to the cap, of the ranked references of some complete set of findings. */
  ghost predicate IsSurface(index: Index, changed: set<Id>, surface: seq<Ref>) {
    if changed == {} then surface == []
    else exists found: Found :: IsComplete(index, changed, found)
                             && surface == Prefix(Sort(found.Values(), RefLe), MAX_AFFECTED_SURFACE_PER_UNIT)
  }

  ghost predicate IsComplete(index: Index, changed: set<Id>, found: Found) {
    found.Valid() && forall x :: HoldsFor(index, changed, found, x)
  }

  method DeriveAffectedSurface(index: Index, candidates: seq<Option<Id>>) returns (surface: seq<Ref>)
    ensures IsSurface(index, Named(candidates), surface)
  {
    hide IsTestFile, NeighbouringCapped, IsResolved, SymbolRef, TestRef;
    var changed := Named(candidates);
    if changed == {} {
      return [];
    }
    var depth1Ids := CollectLayer(index, changed, changed);
    var found := PutSymbols(index, depth1Ids, DirectlyDependent, 1, Found([], map[]));
    var depth2Ids: set<Id> := {};
    if depth1Ids != {} {
      depth2Ids := CollectLayer(index, depth1Ids, changed + depth1Ids);
      found := PutSymbols(index, depth2Ids, IndirectlyAffected, 2, found);
    }
    assert depth2Ids == IndirectIds(index, changed);
    ghost var symbolsOnly := found;
    assert forall x :: HoldsSymbol(index, depth1Ids, depth2Ids, symbolsOnly, x);
    found := PutTests(index, changed, found);
    CompleteWith(index, changed, symbolsOnly, found);
    surface := Prefix(Sort(found.Values(), RefLe), MAX_AFFECTED_SURFACE_PER_UNIT);
  }

  lemma CompleteWith(index: Index, changed: set<Id>, before: Found, found: Found)
    requires found.Valid()
    requires forall x :: HoldsSymbol(index, DirectIds(index, changed), IndirectIds(index, changed), before, x)
    requires forall x | !IsTestFile(index, changed, x) ::
      (x in found.refs <==> x in before.refs) && (x in found.refs ==> found.refs[x] == before.refs[x])
    requires forall x | IsTestFile(index, changed, x) :: x in found.refs && found.refs[x] == TestRef(index, x)
    ensures IsComplete(index, changed, found)
  {
    hide IsTestFile, DirectIds, IndirectIds, IsResolved, SymbolRef, TestRef;
    forall x ensures HoldsFor(index, changed, found, x) {
      assert HoldsSymbol(index, DirectIds(index, changed), IndirectIds(index, changed), before, x);
    }
  }

  // ----- The surface is determined

  lemma RefLeIsTotalPreorder()
    ensures TotalPreorder(RefLe)
  {
    hide StringLe, Rank;
    forall x, y ensures RefLe(x, y) || RefLe(y, x) {
      StringLeTotal(x.filePath, y.filePath);
      StringLeTotal(x.qualifiedName.GetOr(""), y.qualifiedName.GetOr(""));
    }
    forall x, y, z | RefLe(x, y) && RefLe(y, z) ensures RefLe(x, z) { RefLeTransitive(x, y, z); }
  }

  lemma RefLeTransitive(x: Ref, y: Ref, z: Ref)
    requires RefLe(x, y) && RefLe(y, z)
    ensures RefLe(x, z)
  {
    hide StringLe, Rank;
    if StringLe(x.filePath, y.filePath) && StringLe(y.filePath, z.filePath) {
      StringLeTransitive(x.filePath, y.filePath, z.filePath);
      if StringLe(z.filePath, y.filePath) {
        StringLeAntisymmetric(y.filePath, z.filePath);
      }
    }
    var s, t, u := x.qualifiedName.GetOr(""), y.qualifiedName.GetOr(""), z.qualifiedName.GetOr("");
    if StringLe(s, t) && StringLe(t, u) {
      StringLeTransitive(s, t, u);
    }
  }

  lemma {:induction false} ValuesByKey(found: Found, other: Found)
    requires found.Valid() && other.Valid() && found.refs == other.refs
    ensures multiset(found.Values()) == multiset(other.Values())
  {
    SameKeysSameOrder(found.order, other.order);
    ValuesArePermuted(found.refs, found.order, other.order);
  }

  lemma SameKeysSameOrder(a: seq<Id>, b: seq<Id>)
    requires forall x :: x in a <==> x in b
    requires forall i, j | 0 <= i < j < |a| :: a[i] != a[j]
    requires forall i, j | 0 <= i < j < |b| :: b[i] != b[j]
    ensures multiset(a) == multiset(b)
  {
    OnceEach(a);
    OnceEach(b);
  }

  lemma {:induction false} OnceEach(a: seq<Id>)
    requires forall i, j | 0 <= i < j < |a| :: a[i] != a[j]
    ensures forall x :: multiset(a)[x] == if x in a then 1 else 0
  {
    if a != [] {
      var front := a[..|a| - 1];
      OnceEach(front);
      assert a == front + [a[|a| - 1]];
    }
  }

  lemma {:induction false} ValuesArePermuted(refs: map<Id, Ref>, a: seq<Id>, b: seq<Id>)
    requires multiset(a) == multiset(b)
    requires forall x | x in a || x in b :: x in refs
    ensures multiset(Read(refs, a)) == multiset(Read(refs, b))
    decreases |a|
  {
    hide Read;
    if a == [] {
      assert |multiset(b)| == 0;
    } else {
      assert a[0] in multiset(b);
      var k :| 0 <= k < |b| && b[k] == a[0];
      var rest := b[..k] + b[k + 1..];
      MultisetOfTail(a);
      Conservation.Removed(b, k);
      assert a[..0] + a[1..] == a[1..];
      assert multiset(a[1..]) == multiset(rest);
      ValuesArePermuted(refs, a[1..], rest);
      ReadWithoutOne(refs, a, 0);
      ReadWithoutOne(refs, b, k);
    }
  }

  lemma ReadWithoutOne(refs: map<Id, Ref>, order: seq<Id>, k: nat)
    requires k < |order| && forall x | x in order :: x in refs
    ensures multiset(Read(refs, order)) == multiset(Read(refs, order[..k] + order[k + 1..])) + multiset{refs[order[k]]}
  {
    var values := Read(refs, order);
    Conservation.Removed(values, k);
    assert values[..k] + values[k + 1..] == Read(refs, order[..k] + order[k + 1..]);
  }

  /** What was found is settled key by key, so the complete findings differ at most in the order of their keys. */
  lemma CompleteFindingsAgree(index: Index, changed: set<Id>, found: Found, other: Found)
    requires IsComplete(index, changed, found) && IsComplete(index, changed, other)
    ensures found.refs == other.refs
  {
    hide IsTestFile, DirectIds, IndirectIds, IsResolved, SymbolRef, TestRef;
    forall x ensures x in found.refs <==> x in other.refs
             ensures x in found.refs ==> found.refs[x] == other.refs[x] {
      assert HoldsFor(index, changed, found, x) && HoldsFor(index, changed, other, x);
    }
  }

  /**
    * References that tie in rank are equal, so the surface depends on nothing but the index and the changed symbols:
    * not on the order of the candidates, and not on the order in which keys were found.
    */
  lemma SurfaceIsUnique(index: Index, changed: set<Id>, one: seq<Ref>, two: seq<Ref>)
    requires IsSurface(index, changed, one) && IsSurface(index, changed, two)
    ensures one == two
  {
    hide IsComplete, RefLe;
    if changed != {} {
      var found := SomeFindings(index, changed, one);
      var other := SomeFindings(index, changed, two);
      CompleteFindingsAgree(index, changed, found, other);
      ValuesByKey(found, other);
      RefLeIsTotalPreorder();
      TiedRefsAreEqual(index, changed, found);
      SortIgnoresInputOrder(found.Values(), other.Values(), RefLe);
    }
  }

  lemma SomeFindings(index: Index, changed: set<Id>, surface: seq<Ref>) returns (found: Found)
    requires IsSurface(index, changed, surface) && changed != {}
    ensures IsComplete(index, changed, found) && found.Valid()
    ensures surface == Prefix(Sort(found.Values(), RefLe), MAX_AFFECTED_SURFACE_PER_UNIT)
  {
    hide HoldsFor, RefLe, Sort, Prefix;
    found :| IsComplete(index, changed, found)
             && surface == Prefix(Sort(found.Values(), RefLe), MAX_AFFECTED_SURFACE_PER_UNIT);
  }

  lemma CompleteIsValid(index: Index, changed: set<Id>, found: Found)
    requires IsComplete(index, changed, found)
    ensures found.Valid()
  {
  }

  lemma RefIsOneOf(index: Index, changed: set<Id>, found: Found, r: Ref)
    requires IsComplete(index, changed, found) && r in found.Values()
    ensures exists x :: Describes(index, changed, x, r)
  {
    hide IsTestFile, DirectIds, IndirectIds, IsResolved, SymbolRef, TestRef;
    var i :| 0 <= i < |found.order| && found.refs[found.order[i]] == r;
    var x := found.order[i];
    assert HoldsFor(index, changed, found, x);
    assert Describes(index, changed, x, r);
  }

  /** `r` is the reference of the test file, near symbol or far symbol `x`. */
  ghost predicate Describes(index: Index, changed: set<Id>, x: Id, r: Ref) {
    || (IsTestFile(index, changed, x) && r == TestRef(index, x))
    || (IsResolved(index, x) && x in DirectIds(index, changed) && r == SymbolRef(index, x, DirectlyDependent, 1))
    || (IsResolved(index, x) && x in IndirectIds(index, changed) && r == SymbolRef(index, x, IndirectlyAffected, 2))
  }

  lemma TiedRefsAreEqual(index: Index, changed: set<Id>, found: Found)
    requires IsComplete(index, changed, found)
    ensures DistinctKeys(found.Values(), RefLe)
  {
    hide IsComplete, StringLe, IsTestFile, DirectIds, IndirectIds;
    CompleteIsValid(index, changed, found);
    forall r, s | r in found.Values() && s in found.Values() && RefLe(r, s) && RefLe(s, r) ensures r == s {
      RefIsOneOf(index, changed, found, r);
      RefIsOneOf(index, changed, found, s);
      if StringLe(r.filePath, s.filePath) && StringLe(s.filePath, r.filePath) {
        StringLeAntisymmetric(r.filePath, s.filePath);
      }
      StringLeAntisymmetric(r.qualifiedName.GetOr(""), s.qualifiedName.GetOr(""));
    }
  }

  // ----- Distances

  /** Every reported distance is the length of a walk from a changed symbol in the whole call graph. */
  lemma ReportedDistancesAreReal(index: Index, changed: set<Id>, surface: seq<Ref>, r: Ref)
    requires IsSurface(index, changed, surface) && r in surface && r.relation != Test
    ensures r.distance == Rank(r.relation)
    ensures exists x :: IsResolved(index, x) && r == SymbolRef(index, x, r.relation, r.distance)
                        && AtDistance(Shown(index), changed, x, r.distance)
                        && Reaches(Whole(index), changed, x, r.distance)
  {
    hide IsComplete, AtDistance, Reaches, Shown, Whole, FirstLayer, SecondLayer, IsTestFile, RefLe, Sort;
    var found := SomeFindings(index, changed, surface);
    SortIsPermutation(found.Values(), RefLe);
    assert r in multiset(Sort(found.Values(), RefLe));
    assert r in found.Values();
    RefIsOneOf(index, changed, found, r);
    var x :| Describes(index, changed, x, r);
    FirstLayerIsDistanceOne(Shown(index), changed, x);
    SecondLayerIsDistanceTwo(Shown(index), changed, DirectIds(index, changed), x);
    ShownIsPart(index);
    assert AtDistance(Shown(index), changed, x, r.distance);
    ShortestIsAWalk(Shown(index), changed, x, r.distance);
    ReachesMonotone(Shown(index), Whole(index), changed, x, r.distance);
  }

  lemma ShortestIsAWalk(next: Neighbours, roots: set<Id>, x: Id, n: nat)
    requires AtDistance(next, roots, x, n)
    ensures Reaches(next, roots, x, n)
  {
  }

  lemma ShownIsPart(index: Index)
    ensures forall y :: Shown(index)(y) <= Whole(index)(y)
  {
  }

  /** No row of these symbols is beyond the fan-out cap. */
  ghost predicate NoCapBites(index: Index, ids: set<Id>) {
    forall y | y in ids ::
      |Rows(index.callers, y)| <= MAX_FANOUT_PER_SYMBOL && |Rows(index.callees, y)| <= MAX_FANOUT_PER_SYMBOL
  }

  lemma SameFan(index: Index, ids: set<Id>)
    requires NoCapBites(index, ids)
    ensures Fan(Shown(index), ids) == Fan(Whole(index), ids)
  {
    hide Named, Rows;
    forall y | y in ids ensures Shown(index)(y) == Whole(index)(y) {
    }
  }

  /**
    * The distances found are the true ones of the whole call graph exactly when what the cap hides behind the changed
    * symbols, and then behind the symbols at distance one, is shown or known anyway.
    */
  lemma DistancesAreExactExactlyWhen(index: Index, changed: set<Id>)
    ensures var first := DirectIds(index, changed);
      (forall x :: HasTrueDistance(index, changed, x))
      <==> && HidesNothingNew(Shown(index), Whole(index), changed, changed)
           && HidesNothingNew(Shown(index), Whole(index), first, changed + first)
  {
    hide AtDistance, HidesNothingNew, FirstLayer, SecondLayer, Shown, Whole;
    ShownIsPart(index);
    LayersAgreeExactlyWhen(Shown(index), Whole(index), changed);
    assert forall x :: HasTrueDistance(index, changed, x) <==> LayersAgree(Shown(index), Whole(index), changed, x);
  }

  /** The symbol is found at distance one, or two, exactly if that is its distance in the whole call graph. */
  ghost predicate HasTrueDistance(index: Index, changed: set<Id>, x: Id) {
    && (x in DirectIds(index, changed) <==> AtDistance(Whole(index), changed, x, 1))
    && (x in IndirectIds(index, changed) <==> AtDistance(Whole(index), changed, x, 2))
  }

  /** In particular, when no row looked up is beyond the cap. */
  lemma DistancesAreExactWithoutCaps(index: Index, changed: set<Id>, x: Id)
    requires NoCapBites(index, changed) && NoCapBites(index, DirectIds(index, changed))
    ensures x in DirectIds(index, changed) <==> AtDistance(Whole(index), changed, x, 1)
    ensures x in IndirectIds(index, changed) <==> AtDistance(Whole(index), changed, x, 2)
  {
    hide AtDistance, Shown, Whole, NoCapBites, Fan, DirectIds, IndirectIds;
    SameFan(index, changed);
    SameFan(index, DirectIds(index, changed));
    DistancesAreExactExactlyWhen(index, changed);
    assert HasTrueDistance(index, changed, x);
  }

  /** A row beyond the cap does no harm when it only repeats: here fifty-one call sites of one caller. */
  lemma RepeatedRowsDoNoHarm(a: Id, b: Id)
    requires a != b
    ensures !NoCapBites(Repeated(a, b), {a}) && forall x :: HasTrueDistance(Repeated(a, b), {a}, x)
  {
    hide HasTrueDistance;
    var index, n := Repeated(a, b), MAX_FANOUT_PER_SYMBOL;
    assert Rows(index.callers, a)[n] == Some(b);
    forall y ensures Shown(index)(y) == Whole(index)(y) {
      RepeatedIsShown(Rows(index.callers, y));
      RepeatedIsShown(Rows(index.callees, y));
    }
    DistancesAreExactExactlyWhen(index, {a});
  }

  function Repeated(a: Id, b: Id): Index {
    Index(map[a := seq(MAX_FANOUT_PER_SYMBOL + 1, _ => Some(b))],
          map[b := seq(MAX_FANOUT_PER_SYMBOL + 1, _ => Some(a))], map[], map[], map[])
  }

  lemma RepeatedIsShown(rows: seq<Option<Id>>)
    requires forall i | 0 <= i < |rows| :: rows[i] == rows[0]
    ensures Named(Prefix(rows, MAX_FANOUT_PER_SYMBOL)) == Named(rows)
  {
    var shown := Prefix(rows, MAX_FANOUT_PER_SYMBOL);
    if rows != [] {
      assert shown[0] == rows[0] && shown[0] in shown && rows[0] in rows;
      assert forall row | row in rows :: row == rows[0];
      assert forall row | row in shown :: row == rows[0];
    } else {
      assert shown == rows;
    }
  }

  /**
    * One table of calls: `b` calls `a` at fifty sites, `c` calls `a` once after them, and `c` calls `b`. All three are
    * in one file.
    */
  function Crowded(a: Id, b: Id, c: Id): Index {
    Index(map[a := seq(MAX_FANOUT_PER_SYMBOL, _ => Some(b)) + [Some(c)], b := [Some(c)]],
          map[b := seq(MAX_FANOUT_PER_SYMBOL, _ => Some(a)), c := [Some(a), Some(b)]],
          map[a := Symbol("f", "a"), b := Symbol("f", "b"), c := Symbol("f", "c")], map["f" := "f.py"], map[])
  }

  lemma CrowdedLayers(a: Id, b: Id, c: Id)
    requires a != b && b != c && a != c
    ensures DirectIds(Crowded(a, b, c), {a}) == {b} && IndirectIds(Crowded(a, b, c), {a}) == {c}
    ensures Reaches(Whole(Crowded(a, b, c)), {a}, c, 1)
  {
    var index := Crowded(a, b, c);
    var rows, calls := index.callers[a], index.callees[b];
    assert rows[MAX_FANOUT_PER_SYMBOL] == Some(c);
    assert Some(c) in rows;
    OneStep(Whole(index), {a}, c);
    assert c in Whole(index)(a);
    var shown := Prefix(rows, MAX_FANOUT_PER_SYMBOL);
    assert shown[0] == Some(b) && forall row | row in shown :: row == Some(b);
    assert Named(shown) == {b};
    assert Shown(index)(a) == {b};
    assert calls[0] == Some(a) && forall row | row in calls :: row == Some(a);
    assert Named(calls) == {a};
    assert index.callers[b][0] == Some(c);
    assert Shown(index)(b) == {a, c};
  }

  /** A surface that is not cut holds the reference of every key. */
  lemma ShortSurfaceHoldsAll(index: Index, changed: set<Id>, surface: seq<Ref>, found: Found, x: Id)
    requires IsComplete(index, changed, found) && found.Valid() && x in found.refs
    requires surface == Prefix(Sort(found.Values(), RefLe), MAX_AFFECTED_SURFACE_PER_UNIT)
    requires |found.order| <= MAX_AFFECTED_SURFACE_PER_UNIT
    ensures found.refs[x] in surface
  {
    hide Sort, RefLe, IsComplete;
    var k :| 0 <= k < |found.order| && found.order[k] == x;
    var values := found.Values();
    assert values[k] == found.refs[x];
    SortIsPermutation(values, RefLe);
    assert found.refs[x] in multiset(values);
    assert found.refs[x] in multiset(Sort(values, RefLe));
  }

  lemma {:induction false} DistinctAmong(order: seq<Id>, ids: set<Id>)
    requires forall x | x in order :: x in ids
    requires forall i, j | 0 <= i < j < |order| :: order[i] != order[j]
    ensures |order| <= |ids|
  {
    if order != [] {
      assert order[0] in order && forall x | x in order[1..] :: x in order && x != order[0];
      DistinctAmong(order[1..], ids - {order[0]});
    }
  }

  /**
    * The fan-out cap can overstate a distance: fifty call sites of one caller hide the caller after them, which every
    * surface then reports two hops away although it calls the changed symbol itself.
    */
  lemma CapCanOverstateDistance(a: Id, b: Id, c: Id, surface: seq<Ref>)
    requires a != b && b != c && a != c
    requires IsSurface(Crowded(a, b, c), {a}, surface)
    ensures Ref("f.py", Some("c"), IndirectlyAffected, 2) in surface
    ensures Reaches(Whole(Crowded(a, b, c)), {a}, c, 1)
  {
    hide Sort, RefLe, Reaches, Whole, Shown, DirectIds, IndirectIds;
    var index := Crowded(a, b, c);
    CrowdedLayers(a, b, c);
    var found := SomeFindings(index, {a}, surface);
    forall x | x in found.order ensures x in {b, c} {
      assert HoldsFor(index, {a}, found, x);
    }
    DistinctAmong(found.order, {b, c});
    assert HoldsFor(index, {a}, found, c);
    ShortSurfaceHoldsAll(index, {a}, surface, found, c);
  }

  /** What the cap leaves out never ranks before what it keeps. */
  lemma TruncationKeepsTheBest(index: Index, changed: set<Id>, surface: seq<Ref>)
    requires IsSurface(index, changed, surface) && changed != {}
    ensures exists found: Found, rest: seq<Ref> ::
      && IsComplete(index, changed, found) && Ascending(surface + rest, RefLe)
      && multiset(surface + rest) == multiset(found.Values())
      && |surface| <= MAX_AFFECTED_SURFACE_PER_UNIT && (rest != [] ==> |surface| == MAX_AFFECTED_SURFACE_PER_UNIT)
  {
    hide IsComplete, RefLe, Sort;
    var found := SomeFindings(index, changed, surface);
    var sorted := Sort(found.Values(), RefLe);
    RefLeIsTotalPreorder();
    SortIsAscending(found.Values(), RefLe);
    SortIsPermutation(found.Values(), RefLe);
    var rest := sorted[|surface|..];
    assert surface + rest == sorted;
  }
}
