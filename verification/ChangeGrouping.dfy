/** Changed candidates grouped into change units by real graph evidence, with a union-find whose roots are least. */
module ChangeGrouping {
  import opened Connectivity

  // ----- Union-find in which a parent never exceeds its child

  ghost predicate Descending(p: seq<nat>) { forall i: nat | i < |p| :: p[i] <= i }

  function RootOf(p: seq<nat>, x: nat): (r: nat)
    requires Descending(p) && x < |p|
    ensures r <= x && p[r] == r
    decreases x
  {
    if p[x] == x then x else RootOf(p, p[x])
  }

  lemma {:induction false} HalvingKeepsRoots(p: seq<nat>, x: nat, y: nat)
    requires Descending(p) && x < |p| && y < |p|
    ensures Descending(p[x := p[p[x]]]) && RootOf(p[x := p[p[x]]], y) == RootOf(p, y)
    decreases y
  {
    var q := p[x := p[p[x]]];
    if q[y] != y {
      HalvingKeepsRoots(p, x, q[y]);
      if y == x {
        assert RootOf(p, p[x]) == RootOf(p, p[p[x]]);
      }
    }
  }

  lemma {:induction false} LinkingMovesOneRoot(p: seq<nat>, low: nat, high: nat, y: nat)
    requires Descending(p) && low < high < |p| && p[low] == low && p[high] == high && y < |p|
    ensures Descending(p[high := low])
    ensures RootOf(p[high := low], y) == if RootOf(p, y) == high then low else RootOf(p, y)
    decreases y
  {
    var q := p[high := low];
    if y != high && p[y] != y {
      LinkingMovesOneRoot(p, low, high, p[y]);
    }
  }

  function Min(a: nat, b: nat): nat { if a < b then a else b }

  /** The roots after joining the classes of `a` and `b`: the lower root takes over. */
  function Joined(roots: seq<nat>, a: nat, b: nat): (r: seq<nat>)
    requires a < |roots| && b < |roots|
    ensures |r| == |roots|
  {
    seq(|roots|, k requires 0 <= k < |roots| =>
      if roots[k] == roots[a] || roots[k] == roots[b] then Min(roots[a], roots[b]) else roots[k])
  }

  function RootsOf(p: seq<nat>): (r: seq<nat>)
    requires Descending(p)
    ensures |r| == |p|
  {
    seq(|p|, k requires 0 <= k < |p| => RootOf(p, k))
  }

  class UnionFind {
    var parent: seq<nat>

    ghost predicate Valid() reads this { Descending(parent) }

    ghost function Roots(): (r: seq<nat>)
      reads this
      requires Valid()
      ensures |r| == |parent|
    {
      RootsOf(parent)
    }

    constructor (n: nat)
      ensures Valid() && |parent| == n
      ensures Roots() == seq(n, k => k)
    {
      parent := seq(n, k => k);
    }

    method Find(x0: nat) returns (x: nat)
      requires Valid() && x0 < |parent|
      modifies this
      ensures Valid() && |parent| == old(|parent|) && Roots() == old(Roots())
      ensures x == Roots()[x0] && parent[x] == x
    {
      x := x0;
      while parent[x] != x
        invariant Valid() && |parent| == old(|parent|) && x < |parent|
        invariant Roots() == old(Roots()) && RootOf(parent, x) == RootOf(old(parent), x0)
        decreases x
      {
        ghost var before := parent;
        parent := parent[x := parent[parent[x]]];
        forall y: nat | y < |parent| ensures Descending(parent) && RootOf(parent, y) == RootOf(before, y) {
          HalvingKeepsRoots(before, x, y);
        }
        x := parent[x];
      }
    }

    method Union(a: nat, b: nat)
      requires Valid() && a < |parent| && b < |parent|
      modifies this
      ensures Valid() && |parent| == old(|parent|)
      ensures Roots() == Joined(old(Roots()), a, b)
    {
      var ra := Find(a);
      var rb := Find(b);
      if ra != rb {
        ghost var before := parent;
        ghost var low, high := if ra < rb then ra else rb, if ra < rb then rb else ra;
        forall y: nat | y < |parent|
          ensures Descending(before[high := low])
          ensures RootOf(before[high := low], y) == if RootOf(before, y) == high then low else RootOf(before, y)
        {
          LinkingMovesOneRoot(before, low, high, y);
        }
        if ra < rb {
          parent := parent[rb := ra];
        } else {
          parent := parent[ra := rb];
        }
      }
    }
  }

  // ----- What a sequence of unions computes

  type Edge = (nat, nat)

  ghost predicate Within(edges: seq<Edge>, n: nat) { forall e | e in edges :: e.0 < n && e.1 < n }

  /** The roots after uniting every edge, in the order given. */
  ghost function RootsAfter(n: nat, edges: seq<Edge>): (roots: seq<nat>)
    requires Within(edges, n)
    ensures |roots| == n
  {
    if edges == [] then seq(n, k => k)
    else
      var last := |edges| - 1;
      assert edges[last] in edges;
      Joined(RootsAfter(n, edges[..last]), edges[last].0, edges[last].1)
  }

  ghost function EdgeRelation(edges: seq<Edge>): (nat, nat) -> bool { (x: nat, y: nat) => (x, y) in edges }

  /** Every root is a member of its own class and the least of it. */
  ghost predicate LeastRoots(roots: seq<nat>) {
    forall x: nat | x < |roots| :: roots[x] <= x && roots[roots[x]] == roots[x]
  }

  lemma {:induction false} RootsAreLeast(n: nat, edges: seq<Edge>)
    requires Within(edges, n)
    ensures LeastRoots(RootsAfter(n, edges))
  {
    if edges != [] {
      RootsAreLeast(n, edges[..|edges| - 1]);
    }
  }

  lemma MoreEdgesConnectMore(edges: seq<Edge>, more: seq<Edge>, x: nat, y: nat)
    requires forall e | e in edges :: e in more
    requires Connected(EdgeRelation(edges), x, y)
    ensures Connected(EdgeRelation(more), x, y)
  {
    hide Connected;
    forall a: nat, b: nat | EdgeRelation(edges)(a, b) ensures Connected(EdgeRelation(more), a, b) {
      LinkConnects(EdgeRelation(more), a, b);
    }
    ConnectedCarriesOver(EdgeRelation(edges), EdgeRelation(more), x, y);
  }

  lemma {:induction false} SameRootIsConnected(n: nat, edges: seq<Edge>, x: nat, y: nat)
    requires Within(edges, n) && x < n && y < n && RootsAfter(n, edges)[x] == RootsAfter(n, edges)[y]
    ensures Connected(EdgeRelation(edges), x, y)
    decreases |edges|
  {
    hide Connected;
    var r := EdgeRelation(edges);
    if edges == [] {
      ConnectedToSelf(r, x);
    } else {
      var front, e := edges[..|edges| - 1], edges[|edges| - 1];
      assert e in edges;
      var roots := RootsAfter(n, front);
      forall u: nat, v: nat | u < n && v < n && roots[u] == roots[v] ensures Connected(r, u, v) {
        SameRootIsConnected(n, front, u, v);
        MoreEdgesConnectMore(front, edges, u, v);
      }
      if roots[x] != roots[y] {
        LinkConnects(r, e.0, e.1);
        ConnectedBothWays(r, e.0, e.1);
        var a, b := if roots[x] == roots[e.0] then e.0 else e.1, if roots[x] == roots[e.0] then e.1 else e.0;
        ConnectedThrough(r, x, a, b);
        ConnectedThrough(r, x, b, y);
      }
    }
  }

  lemma {:induction false} EdgesShareRoots(n: nat, edges: seq<Edge>, e: Edge)
    requires Within(edges, n) && e in edges
    ensures RootsAfter(n, edges)[e.0] == RootsAfter(n, edges)[e.1]
    decreases |edges|
  {
    var front := edges[..|edges| - 1];
    if e in front {
      EdgesShareRoots(n, front, e);
    } else {
      var i :| 0 <= i < |edges| && edges[i] == e;
      assert i == |edges| - 1 || edges[i] == front[i];
    }
  }

  /** The unions capture exactly the components of the edges, and each component is named by its least index. */
  lemma UnionsCapture(n: nat, edges: seq<Edge>)
    requires Within(edges, n)
    ensures Captures(RootsAfter(n, edges), EdgeRelation(edges)) && LeastRoots(RootsAfter(n, edges))
  {
    hide RootsAfter;
    var roots, r := RootsAfter(n, edges), EdgeRelation(edges);
    RootsAreLeast(n, edges);
    var mark := (k: nat) => if k < |roots| then roots[k] else k;
    forall a: nat, b: nat | r(a, b) ensures mark(a) == mark(b) {
      EdgesShareRoots(n, edges, (a, b));
    }
    forall x: nat, y: nat | x < n && y < n ensures roots[x] == roots[y] <==> Connected(r, x, y) {
      if roots[x] == roots[y] {
        SameRootIsConnected(n, edges, x, y);
      } else if Connected(r, x, y) {
        var p :| Walk(r, x, p, y);
        LabelIsConstant(r, mark, x, p, y);
      }
    }
  }

  /** Least roots that capture the same relation are the same roots. */
  lemma LeastRootsAreDetermined(roots: seq<nat>, other: seq<nat>, r: (nat, nat) -> bool)
    requires |roots| == |other| && LeastRoots(roots) && LeastRoots(other) && Captures(roots, r) && Captures(other, r)
    ensures roots == other
  {
    hide Connected;
    forall x: nat | x < |roots| ensures roots[x] == other[x] {
      var a, b := roots[x], other[x];
      assert roots[a] == roots[x] && other[b] == other[x];
      assert Connected(r, a, x) && Connected(r, b, x);
      assert other[a] == other[x] && roots[b] == roots[x];
      assert other[a] <= a && roots[b] <= b;
    }
  }

  /** `edges` has the same components as `r`: each edge is connected in `r`, and each link of `r` by edges. */
  ghost predicate Spans(edges: seq<Edge>, r: (nat, nat) -> bool) {
    && (forall e | e in edges :: Connected(r, e.0, e.1))
    && (forall x: nat, y: nat | r(x, y) :: Connected(EdgeRelation(edges), x, y))
  }

  lemma SpanningUnionsCapture(n: nat, edges: seq<Edge>, r: (nat, nat) -> bool)
    requires Within(edges, n) && Spans(edges, r)
    ensures Captures(RootsAfter(n, edges), r) && LeastRoots(RootsAfter(n, edges))
  {
    hide Connected, RootsAfter;
    UnionsCapture(n, edges);
    var q := EdgeRelation(edges);
    forall x: nat, y: nat | x < n && y < n ensures Connected(q, x, y) <==> Connected(r, x, y) {
      if Connected(q, x, y) { ConnectedCarriesOver(q, r, x, y); }
      if Connected(r, x, y) { ConnectedCarriesOver(r, q, x, y); }
    }
  }

  /** Whatever the order in which the same evidence is presented, the roots come out the same. */
  lemma UnionOrderDoesNotMatter(n: nat, edges: seq<Edge>, other: seq<Edge>, r: (nat, nat) -> bool)
    requires Within(edges, n) && Within(other, n) && Spans(edges, r) && Spans(other, r)
    ensures RootsAfter(n, edges) == RootsAfter(n, other)
  {
    hide RootsAfter, Spans, Captures;
    SpanningUnionsCapture(n, edges, r);
    SpanningUnionsCapture(n, other, r);
    LeastRootsAreDetermined(RootsAfter(n, edges), RootsAfter(n, other), r);
  }
}
