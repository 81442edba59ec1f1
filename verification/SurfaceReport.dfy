/** What an affected surface holds, in terms of the index's rows. */
module SurfaceReport {
  import opened Wrappers
  import opened Ordering
  import opened OrderedSets
  import opened CallLayers
  import opened AffectedSurface

  /** One of the first fifty rows about `a` names `x`, as a caller or as one it calls. */
  ghost predicate Meets(index: Index, a: Id, x: Id) {
    || (a in index.callers && exists k :: 0 <= k < 50 && k < |index.callers[a]| && index.callers[a][k] == Some(x))
    || (a in index.callees && exists k :: 0 <= k < 50 && k < |index.callees[a]| && index.callees[a][k] == Some(x))
  }

  ghost predicate IsDirect(index: Index, changed: set<Id>, x: Id) {
    x !in changed && exists a :: a in changed && Meets(index, a, x)
  }

  ghost predicate IsIndirect(index: Index, changed: set<Id>, x: Id) {
    x !in changed && !IsDirect(index, changed, x) && exists a :: IsDirect(index, changed, a) && Meets(index, a, x)
  }

  ghost predicate IsTest(index: Index, changed: set<Id>, x: Id) {
    x in index.files && exists s :: s in changed && s in index.symbols && IsTestOf(index, index.symbols[s].fileId, x)
  }

  ghost predicate IsTestOf(index: Index, fileId: Id, x: Id) { fileId in index.tests && x in index.tests[fileId] }

  ghost predicate HasFile(index: Index, x: Id) { x in index.symbols && index.symbols[x].fileId in index.files }

  /** The reference `x` gets: as a likely test, or as a symbol one or two calls from the change. */
  ghost predicate RefersTo(index: Index, changed: set<Id>, x: Id, r: Ref) {
    if IsTest(index, changed, x) then r == Ref(index.files[x], None, Test, 1)
    else
      && HasFile(index, x)
      && ((IsDirect(index, changed, x)
           && r == Ref(index.files[index.symbols[x].fileId], Some(index.symbols[x].qualifiedName), DirectlyDependent,
                       1))
          || (IsIndirect(index, changed, x)
              && r == Ref(index.files[index.symbols[x].fileId], Some(index.symbols[x].qualifiedName),
                          IndirectlyAffected, 2)))
  }

  const RELATIONS := [Test, DirectlyDependent, IndirectlyAffected]

  /** Tests first, then direct, then indirect; by file path, then by name. */
  ghost predicate IsRankedBefore(a: Ref, b: Ref) {
    exists i, j :: 0 <= i <= j < |RELATIONS| && RELATIONS[i] == a.relation && RELATIONS[j] == b.relation
      && (i == j && a.filePath != b.filePath ==> ComesFirst(a.filePath, b.filePath))
      && (i == j && a.filePath == b.filePath ==> ComesFirst(NameIn(a), NameIn(b)))
  }

  ghost function NameIn(r: Ref): string { if r.qualifiedName.Some? then r.qualifiedName.value else "" }

  /** References of distinct ids: one for every id that has one, each its own. */
  ghost predicate AreAll(index: Index, changed: set<Id>, ids: seq<Id>, refs: seq<Ref>) {
    && |refs| == |ids| && (forall i, j | 0 <= i < j < |ids| :: ids[i] != ids[j])
    && (forall k | 0 <= k < |ids| :: RefersTo(index, changed, ids[k], refs[k]))
    && forall x, r | RefersTo(index, changed, x, r) :: x in ids
  }

  /** The first twenty-five of all references in their ranking; nothing for no change. */
  ghost predicate IsReported(index: Index, changed: set<Id>, surface: seq<Ref>) {
    if changed == {} then surface == []
    else exists ids, refs, ranked: seq<Ref> ::
      && AreAll(index, changed, ids, refs) && multiset(ranked) == multiset(refs)
      && (forall i, j | 0 <= i < j < |ranked| :: IsRankedBefore(ranked[i], ranked[j]))
      && surface == ranked[..if |ranked| <= 25 then |ranked| else 25]
  }

  lemma RefLeMeans(a: Ref, b: Ref)
    ensures RefLe(a, b) <==> IsRankedBefore(a, b)
  {
    hide StringLe, ComesFirst;
    StringLeMeans(a.filePath, b.filePath);
    StringLeMeans(NameIn(a), NameIn(b));
    assert forall k | 0 <= k < |RELATIONS| :: Rank(RELATIONS[k]) == k;
    assert RELATIONS[Rank(a.relation)] == a.relation && RELATIONS[Rank(b.relation)] == b.relation;
  }

  lemma MeetsIsShown(index: Index, a: Id, x: Id)
    ensures x in Shown(index)(a) <==> Meets(index, a, x)
  {
    AmongFirst(Rows(index.callers, a), x);
    AmongFirst(Rows(index.callees, a), x);
  }

  lemma AmongFirst(rows: seq<Option<Id>>, x: Id)
    ensures x in Named(Prefix(rows, MAX_FANOUT_PER_SYMBOL))
      <==> exists k :: 0 <= k < 50 && k < |rows| && rows[k] == Some(x)
  {
    var part := Prefix(rows, MAX_FANOUT_PER_SYMBOL);
    if x in Named(part) {
      var k :| 0 <= k < |part| && part[k] == Some(x);
      assert rows[k] == Some(x);
    }
    if k :| 0 <= k < 50 && k < |rows| && rows[k] == Some(x) {
      assert part[k] == Some(x);
    }
  }

  lemma DirectMeans(index: Index, changed: set<Id>, x: Id)
    ensures x in DirectIds(index, changed) <==> IsDirect(index, changed, x)
  {
    hide Shown, Meets;
    forall a ensures x in Shown(index)(a) <==> Meets(index, a, x) {
      MeetsIsShown(index, a, x);
    }
  }

  lemma IndirectMeans(index: Index, changed: set<Id>, x: Id)
    ensures x in IndirectIds(index, changed) <==> IsIndirect(index, changed, x)
  {
    hide Shown, Meets, DirectIds, IsDirect;
    forall a ensures x in Shown(index)(a) <==> Meets(index, a, x)
             ensures a in DirectIds(index, changed) <==> IsDirect(index, changed, a) {
      MeetsIsShown(index, a, x);
      DirectMeans(index, changed, a);
    }
    InSecondLayer(index, changed, x);
  }

  lemma InSecondLayer(index: Index, changed: set<Id>, x: Id)
    ensures x in IndirectIds(index, changed)
      <==> && x !in changed && x !in DirectIds(index, changed)
           && exists a :: a in DirectIds(index, changed) && x in Shown(index)(a)
  {
    hide Shown;
  }

  lemma TestMeans(index: Index, changed: set<Id>, x: Id)
    ensures IsTestFile(index, changed, x) <==> IsTest(index, changed, x)
  {
  }

  lemma HeldIsReferred(index: Index, changed: set<Id>, found: Found, x: Id)
    requires HoldsFor(index, changed, found, x)
    ensures forall r :: RefersTo(index, changed, x, r) <==> x in found.refs && r == found.refs[x]
  {
    hide IsTestFile, IsTest, DirectIds, IndirectIds, IsDirect, IsIndirect;
    TestMeans(index, changed, x);
    DirectMeans(index, changed, x);
    IndirectMeans(index, changed, x);
    NotBoth(index, changed, x);
    TestIsIndexed(index, changed, x);
  }

  lemma NotBoth(index: Index, changed: set<Id>, x: Id)
    ensures !(IsDirect(index, changed, x) && IsIndirect(index, changed, x))
  {
  }

  lemma TestIsIndexed(index: Index, changed: set<Id>, x: Id)
    ensures IsTest(index, changed, x) ==> x in index.files
  {
  }

  /** For every index and change: the surface is what is reported. */
  lemma SurfaceIsReported(index: Index, changed: set<Id>, surface: seq<Ref>)
    requires IsSurface(index, changed, surface)
    ensures IsReported(index, changed, surface)
  {
    hide HoldsFor, RefLe, Sort, RefersTo, IsRankedBefore;
    if changed != {} {
      var found := SomeFindings(index, changed, surface);
      var values := found.Values();
      var ranked := Sort(values, RefLe);
      forall x, r ensures RefersTo(index, changed, x, r) <==> x in found.refs && r == found.refs[x] {
        assert HoldsFor(index, changed, found, x);
        HeldIsReferred(index, changed, found, x);
      }
      assert AreAll(index, changed, found.order, values);
      SortIsPermutation(values, RefLe);
      RefLeIsTotalPreorder();
      SortIsAscending(values, RefLe);
      forall i, j | 0 <= i < j < |ranked| ensures IsRankedBefore(ranked[i], ranked[j]) {
        RefLeMeans(ranked[i], ranked[j]);
      }
      assert surface == ranked[..if |ranked| <= 25 then |ranked| else 25];
    }
  }
}
