/** Breadth-first layers of a call graph: what lies at distance one and two from a set of symbols. */
module CallLayers {
  import opened OrderedSets

  type Id = string

  /** The neighbours a query returns for a symbol. */
  type Neighbours = Id -> set<Id>

  /** Some walk of exactly `n` edges leads from a root to `x`. */
  ghost predicate Reaches(next: Neighbours, roots: set<Id>, x: Id, n: nat)
    decreases n
  {
    if n == 0 then x in roots else exists y :: Reaches(next, roots, y, n - 1) && x in next(y)
  }

  /** The shortest walk from a root to `x` has `n` edges. */
  ghost predicate AtDistance(next: Neighbours, roots: set<Id>, x: Id, n: nat) {
    Reaches(next, roots, x, n) && forall m: nat | m < n :: !Reaches(next, roots, x, m)
  }

  function Fan(next: Neighbours, from: set<Id>): set<Id> { set y, x | y in from && x in next(y) :: x }

  function FirstLayer(next: Neighbours, roots: set<Id>): set<Id> { Fan(next, roots) - roots }

  /** The second layer as far as the symbols `expanded` of the first one show it. */
  function SecondLayer(next: Neighbours, roots: set<Id>, expanded: set<Id>): set<Id> {
    Fan(next, expanded) - FirstLayer(next, roots) - roots
  }

  lemma OneStep(next: Neighbours, roots: set<Id>, x: Id)
    ensures Reaches(next, roots, x, 1) <==> x in Fan(next, roots)
  {
    if x in Fan(next, roots) {
      var y :| y in roots && x in next(y);
      assert Reaches(next, roots, y, 0) && x in next(y);
    }
  }

  lemma FirstLayerIsDistanceOne(next: Neighbours, roots: set<Id>, x: Id)
    ensures x in FirstLayer(next, roots) <==> AtDistance(next, roots, x, 1)
  {
    OneStep(next, roots, x);
    assert Reaches(next, roots, x, 0) <==> x in roots;
  }

  /** Expanding part of the first layer shows only symbols at distance two; expanding all of it shows them all. */
  lemma SecondLayerIsDistanceTwo(next: Neighbours, roots: set<Id>, expanded: set<Id>, x: Id)
    requires expanded <= FirstLayer(next, roots)
    ensures x in SecondLayer(next, roots, expanded) ==> AtDistance(next, roots, x, 2)
    ensures AtDistance(next, roots, x, 2) && expanded == FirstLayer(next, roots)
      ==> x in SecondLayer(next, roots, expanded)
  {
    OneStep(next, roots, x);
    assert Reaches(next, roots, x, 0) <==> x in roots;
    if x in SecondLayer(next, roots, expanded) {
      var y :| y in expanded && x in next(y);
      OneStep(next, roots, y);
      assert Reaches(next, roots, y, 1) && x in next(y);
      assert Reaches(next, roots, x, 2);
    }
    if AtDistance(next, roots, x, 2) {
      var y :| Reaches(next, roots, y, 1) && x in next(y);
      OneStep(next, roots, y);
      assert x !in Fan(next, roots);
      assert y !in roots;
    }
  }

  /** Whatever these symbols lead to by more edges is seen already, or fewer edges show it too. */
  ghost predicate HidesNothingNew(few: Neighbours, many: Neighbours, ids: set<Id>, seen: set<Id>) {
    Fan(many, ids) - seen <= Fan(few, ids)
  }

  /** Where `x` lies by fewer edges is where it lies by more. */
  ghost predicate LayersAgree(few: Neighbours, many: Neighbours, roots: set<Id>, x: Id) {
    && (x in FirstLayer(few, roots) <==> AtDistance(many, roots, x, 1))
    && (x in SecondLayer(few, roots, FirstLayer(few, roots)) <==> AtDistance(many, roots, x, 2))
  }

  /** The layers by fewer edges are the true ones exactly when neither expansion loses a symbol not seen before. */
  lemma LayersAgreeExactlyWhen(few: Neighbours, many: Neighbours, roots: set<Id>)
    requires forall y :: few(y) <= many(y)
    ensures var first := FirstLayer(few, roots);
      (forall x :: LayersAgree(few, many, roots, x))
      <==> HidesNothingNew(few, many, roots, roots) && HidesNothingNew(few, many, first, roots + first)
  {
    hide AtDistance, Fan, FirstLayer, SecondLayer;
    var first, second := FirstLayer(few, roots), SecondLayer(few, roots, FirstLayer(few, roots));
    AreTrueLayers(many, roots, first, second);
    assert (forall x :: LayersAgree(few, many, roots, x))
      <==> IsLayer(many, roots, 1, first) && IsLayer(many, roots, 2, second) by {
      assert forall x ::
        LayersAgree(few, many, roots, x)
        <==> (x in first <==> AtDistance(many, roots, x, 1)) && (x in second <==> AtDistance(many, roots, x, 2));
    }
    SameLayers(few, many, roots);
  }

  /** The set holds exactly the symbols at distance `n`. */
  ghost predicate IsLayer(next: Neighbours, roots: set<Id>, n: nat, layer: set<Id>) {
    forall x :: x in layer <==> AtDistance(next, roots, x, n)
  }

  lemma AreTrueLayers(next: Neighbours, roots: set<Id>, first: set<Id>, second: set<Id>)
    ensures IsLayer(next, roots, 1, first) <==> first == FirstLayer(next, roots)
    ensures IsLayer(next, roots, 2, second) <==> second == SecondLayer(next, roots, FirstLayer(next, roots))
  {
    hide AtDistance, FirstLayer, SecondLayer;
    var one, two := FirstLayer(next, roots), SecondLayer(next, roots, FirstLayer(next, roots));
    forall x ensures x in one <==> AtDistance(next, roots, x, 1)
             ensures x in two <==> AtDistance(next, roots, x, 2) {
      FirstLayerIsDistanceOne(next, roots, x);
      SecondLayerIsDistanceTwo(next, roots, one, x);
    }
    assert first == one <==> forall x :: x in first <==> x in one;
    assert second == two <==> forall x :: x in second <==> x in two;
  }

  lemma SameLayers(few: Neighbours, many: Neighbours, roots: set<Id>)
    requires forall y :: few(y) <= many(y)
    ensures var first := FirstLayer(few, roots);
      && first == FirstLayer(many, roots)
      && SecondLayer(few, roots, first) == SecondLayer(many, roots, FirstLayer(many, roots))
      <==> HidesNothingNew(few, many, roots, roots) && HidesNothingNew(few, many, first, roots + first)
  {
    hide Fan;
    var first := FirstLayer(few, roots);
    FanMonotone(few, many, roots);
    FanMonotone(few, many, first);
    SameRest(Fan(few, roots), Fan(many, roots), roots);
    SameRest(Fan(few, first), Fan(many, first), roots + first);
    assert forall fan: set<Id> :: fan - first - roots == fan - (roots + first);
  }

  lemma SameRest(part: set<Id>, whole: set<Id>, seen: set<Id>)
    requires part <= whole
    ensures part - seen == whole - seen <==> whole - seen <= part
  {
    assert part - seen <= whole - seen;
    assert whole - seen <= part ==> whole - seen <= part - seen;
    assert part - seen <= part;
  }

  lemma FanMonotone(few: Neighbours, many: Neighbours, ids: set<Id>)
    requires forall y :: few(y) <= many(y)
    ensures Fan(few, ids) <= Fan(many, ids)
  {
  }

  /**
    * Expanding part of the first layer shows all of the second exactly when what the rest of it leads to, beyond the
    * first layer and the roots, is shown by that part too.
    */
  lemma PartShowsAllExactlyWhen(next: Neighbours, roots: set<Id>, expanded: set<Id>)
    requires expanded <= FirstLayer(next, roots)
    ensures var first := FirstLayer(next, roots);
      IsLayer(next, roots, 2, SecondLayer(next, roots, expanded))
      <==> Fan(next, first - expanded) - first - roots <= Fan(next, expanded)
  {
    hide AtDistance;
    var first := FirstLayer(next, roots);
    FanOfParts(next, first, expanded);
    var rest := Fan(next, first - expanded);
    SameRest(Fan(next, expanded), Fan(next, expanded) + rest, first + roots);
    assert forall fan: set<Id> :: fan - first - roots == fan - (first + roots);
    assert rest - (first + roots) <= Fan(next, expanded)
      <==> Fan(next, expanded) + rest - (first + roots) <= Fan(next, expanded);
    AreTrueLayers(next, roots, first, SecondLayer(next, roots, expanded));
  }

  lemma FanOfParts(next: Neighbours, ids: set<Id>, some: set<Id>)
    requires some <= ids
    ensures Fan(next, ids) == Fan(next, some) + Fan(next, ids - some)
  {
  }

  /** More edges can only add walks. */
  lemma {:induction false} ReachesMonotone(few: Neighbours, many: Neighbours, roots: set<Id>, x: Id, n: nat)
    requires forall y :: few(y) <= many(y)
    requires Reaches(few, roots, x, n)
    ensures Reaches(many, roots, x, n)
    decreases n
  {
    if n > 0 {
      var y :| Reaches(few, roots, y, n - 1) && x in few(y);
      ReachesMonotone(few, many, roots, y, n - 1);
      assert x in many(y);
    }
  }

  lemma FanGrows(next: Neighbours, ids: seq<Id>, k: nat)
    requires k < |ids|
    ensures Fan(next, Elements(ids[..k + 1])) == Fan(next, Elements(ids[..k])) + next(ids[k])
  {
    assert Elements(ids[..k + 1]) == Elements(ids[..k]) + {ids[k]};
  }
}
