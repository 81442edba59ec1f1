/** Connected components of a relation on indices: walks, and what a labelling must do to capture them. */
module Connectivity {

  ghost predicate Linked(r: (nat, nat) -> bool, x: nat, y: nat) { r(x, y) || r(y, x) }

  /** `steps` leads from `x` to `y` along links. */
  ghost predicate Walk(r: (nat, nat) -> bool, x: nat, steps: seq<nat>, y: nat)
    decreases |steps|
  {
    if steps == [] then x == y else Linked(r, x, steps[0]) && Walk(r, steps[0], steps[1..], y)
  }

  /** The reflexive, symmetric and transitive closure of `r`. */
  ghost predicate Connected(r: (nat, nat) -> bool, x: nat, y: nat) {
    exists steps :: Walk(r, x, steps, y)
  }

  lemma ConnectedToSelf(r: (nat, nat) -> bool, x: nat)
    ensures Connected(r, x, x)
  {
    assert Walk(r, x, [], x);
  }

  lemma LinkConnects(r: (nat, nat) -> bool, x: nat, y: nat)
    requires Linked(r, x, y)
    ensures Connected(r, x, y)
  {
    assert [y][1..] == [];
    assert Walk(r, y, [], y);
    assert Walk(r, x, [y], y);
  }

  lemma {:induction false} WalkThrough(r: (nat, nat) -> bool, x: nat, p: seq<nat>, y: nat, q: seq<nat>, z: nat)
    requires Walk(r, x, p, y) && Walk(r, y, q, z)
    ensures Walk(r, x, p + q, z)
    decreases |p|
  {
    if p == [] {
      assert p + q == q;
    } else {
      WalkThrough(r, p[0], p[1..], y, q, z);
      assert (p + q)[1..] == p[1..] + q;
    }
  }

  lemma ConnectedThrough(r: (nat, nat) -> bool, x: nat, y: nat, z: nat)
    requires Connected(r, x, y) && Connected(r, y, z)
    ensures Connected(r, x, z)
  {
    var p :| Walk(r, x, p, y);
    var q :| Walk(r, y, q, z);
    WalkThrough(r, x, p, y, q, z);
  }

  lemma {:induction false} WalkBack(r: (nat, nat) -> bool, x: nat, p: seq<nat>, y: nat)
    requires Walk(r, x, p, y)
    ensures Connected(r, y, x)
    decreases |p|
  {
    if p == [] {
      ConnectedToSelf(r, x);
    } else {
      WalkBack(r, p[0], p[1..], y);
      LinkConnects(r, p[0], x);
      ConnectedThrough(r, y, p[0], x);
    }
  }

  lemma ConnectedBothWays(r: (nat, nat) -> bool, x: nat, y: nat)
    requires Connected(r, x, y)
    ensures Connected(r, y, x)
  {
    var p :| Walk(r, x, p, y);
    WalkBack(r, x, p, y);
  }

  /** A mark that never changes along a link is constant on every component. */
  lemma {:induction false} LabelIsConstant(r: (nat, nat) -> bool, mark: nat -> nat, x: nat, p: seq<nat>, y: nat)
    requires forall a, b | r(a, b) :: mark(a) == mark(b)
    requires Walk(r, x, p, y)
    ensures mark(x) == mark(y)
    decreases |p|
  {
    if p != [] {
      LabelIsConstant(r, mark, p[0], p[1..], y);
    }
  }

  /** If every link of `r` is connected in `q`, so is every walk of `r`. */
  lemma {:induction false} WalkCarriesOver(r: (nat, nat) -> bool, q: (nat, nat) -> bool, x: nat, p: seq<nat>, y: nat)
    requires forall a, b | r(a, b) :: Connected(q, a, b)
    requires Walk(r, x, p, y)
    ensures Connected(q, x, y)
    decreases |p|
  {
    if p == [] {
      ConnectedToSelf(q, x);
    } else {
      if r(p[0], x) {
        ConnectedBothWays(q, p[0], x);
      }
      WalkCarriesOver(r, q, p[0], p[1..], y);
      ConnectedThrough(q, x, p[0], y);
    }
  }

  lemma ConnectedCarriesOver(r: (nat, nat) -> bool, q: (nat, nat) -> bool, x: nat, y: nat)
    requires forall a, b | r(a, b) :: Connected(q, a, b)
    requires Connected(r, x, y)
    ensures Connected(q, x, y)
  {
    var p :| Walk(r, x, p, y);
    WalkCarriesOver(r, q, x, p, y);
  }

  /** Relations with the same links connect the same indices. */
  lemma SameRelation(r: (nat, nat) -> bool, q: (nat, nat) -> bool, x: nat, y: nat)
    requires forall i: nat, j: nat :: Linked(r, i, j) <==> Linked(q, i, j)
    ensures Connected(r, x, y) <==> Connected(q, x, y)
  {
    hide Connected, Linked;
    forall i: nat, j: nat ensures r(i, j) ==> Connected(q, i, j)
                          ensures q(i, j) ==> Connected(r, i, j) {
      if r(i, j) {
        assert Linked(r, i, j) by { IsLink(r, i, j); }
        LinkConnects(q, i, j);
      }
      if q(i, j) {
        assert Linked(q, i, j) by { IsLink(q, i, j); }
        LinkConnects(r, i, j);
      }
    }
    if Connected(r, x, y) {
      ConnectedCarriesOver(r, q, x, y);
    }
    if Connected(q, x, y) {
      ConnectedCarriesOver(q, r, x, y);
    }
  }

  lemma IsLink(r: (nat, nat) -> bool, x: nat, y: nat)
    requires r(x, y)
    ensures Linked(r, x, y)
  {
  }

  // ----- Components as lists of indices

  ghost predicate Increasing(g: seq<nat>) { forall i, j | 0 <= i < j < |g| :: g[i] < g[j] }

  ghost predicate InGroup(groups: seq<seq<nat>>, i: nat, a: nat) { a < |groups| && i in groups[a] }

  ghost predicate Grouped(groups: seq<seq<nat>>, i: nat) { exists a: nat :: InGroup(groups, i, a) }

  ghost predicate Precedes(g: seq<nat>, h: seq<nat>) { g != [] && h != [] && g[0] < h[0] }

  /**
    * The components of `r` on `0..n`: every index in exactly one group, groups and members in order of first
    * appearance, and two indices in one group exactly when connected.
    */
  ghost predicate AreComponents(groups: seq<seq<nat>>, n: nat, r: (nat, nat) -> bool) {
    && (forall g | g in groups :: g != [] && Increasing(g))
    && (forall a, b | 0 <= a < b < |groups| :: Precedes(groups[a], groups[b]))
    && (forall i: nat :: Grouped(groups, i) <==> i < n)
    && (forall a: nat, b: nat, i: nat, j: nat | InGroup(groups, i, a) && InGroup(groups, j, b) ::
          a == b <==> Connected(r, i, j))
  }

  lemma SameComponents(groups: seq<seq<nat>>, n: nat, r: (nat, nat) -> bool, q: (nat, nat) -> bool)
    requires AreComponents(groups, n, r)
    requires forall i: nat, j: nat :: Linked(r, i, j) <==> Linked(q, i, j)
    ensures AreComponents(groups, n, q)
  {
    hide Connected, Linked, Increasing;
    forall i: nat, j: nat ensures Connected(r, i, j) <==> Connected(q, i, j) {
      SameRelation(r, q, i, j);
    }
  }

  /** Each index lies in one group only. */
  lemma GroupsAreDisjoint(groups: seq<seq<nat>>, n: nat, r: (nat, nat) -> bool, a: nat, b: nat, i: nat)
    requires AreComponents(groups, n, r) && InGroup(groups, i, a) && InGroup(groups, i, b)
    ensures a == b
  {
    ConnectedToSelf(r, i);
  }

  // ----- Groups read off a labelling of the indices

  /** The indices with one label, in order. */
  function GroupOf(labels: seq<nat>, root: nat): (g: seq<nat>)
    ensures forall i: nat :: i in g <==> i < |labels| && labels[i] == root
  {
    if labels == [] then []
    else
      var last := |labels| - 1;
      var g := GroupOf(labels[..last], root);
      if labels[last] == root then g + [last] else g
  }

  lemma {:induction false} GroupIsIncreasing(labels: seq<nat>, root: nat)
    ensures Increasing(GroupOf(labels, root))
  {
    if labels != [] {
      var last := |labels| - 1;
      GroupIsIncreasing(labels[..last], root);
      assert forall k | 0 <= k < |GroupOf(labels[..last], root)| ::
        GroupOf(labels[..last], root)[k] in GroupOf(labels[..last], root);
    }
  }

  /** The labels in order of first appearance. */
  function Firsts(labels: seq<nat>): (roots: seq<nat>)
    ensures forall x: nat :: x in roots <==> x in labels
  {
    if labels == [] then []
    else
      var last := |labels| - 1;
      var roots := Firsts(labels[..last]);
      assert labels == labels[..last] + [labels[last]];
      if labels[last] in roots then roots else roots + [labels[last]]
  }

  lemma {:induction false} FirstsAreDistinct(labels: seq<nat>)
    ensures forall a, b | 0 <= a < b < |Firsts(labels)| :: Firsts(labels)[a] != Firsts(labels)[b]
  {
    if labels != [] {
      FirstsAreDistinct(labels[..|labels| - 1]);
    }
  }

  function GroupsByLabel(labels: seq<nat>): (groups: seq<seq<nat>>)
    ensures |groups| == |Firsts(labels)|
  {
    seq(|Firsts(labels)|, k requires 0 <= k < |Firsts(labels)| => GroupOf(labels, Firsts(labels)[k]))
  }

  /** Indices carry the same label exactly when connected. */
  ghost predicate Captures(labels: seq<nat>, r: (nat, nat) -> bool) {
    forall i: nat, j: nat | i < |labels| && j < |labels| :: labels[i] == labels[j] <==> Connected(r, i, j)
  }

  lemma {:induction false} NoGroupYet(labels: seq<nat>, root: nat)
    requires root !in labels
    ensures GroupOf(labels, root) == []
  {
    if labels != [] {
      NoGroupYet(labels[..|labels| - 1], root);
    }
  }

  lemma GroupIsNonEmpty(labels: seq<nat>, root: nat)
    requires root in labels
    ensures GroupOf(labels, root) != [] && GroupOf(labels, root)[0] < |labels|
  {
    var i :| 0 <= i < |labels| && labels[i] == root;
    assert i in GroupOf(labels, root);
    assert GroupOf(labels, root)[0] in GroupOf(labels, root);
  }

  lemma {:induction false} FirstsInOrder(labels: seq<nat>, a: nat, b: nat)
    requires a < b < |Firsts(labels)|
    ensures Precedes(GroupOf(labels, Firsts(labels)[a]), GroupOf(labels, Firsts(labels)[b]))
  {
    var last := |labels| - 1;
    var front := labels[..last];
    var roots := Firsts(front);
    if b < |roots| {
      FirstsInOrder(front, a, b);
    } else {
      GroupIsNonEmpty(front, roots[a]);
      NoGroupYet(front, labels[last]);
    }
  }

  lemma LabelledGroupsAreComponents(labels: seq<nat>, r: (nat, nat) -> bool)
    requires Captures(labels, r)
    ensures AreComponents(GroupsByLabel(labels), |labels|, r)
  {
    hide GroupOf, Firsts, Connected;
    var groups, roots := GroupsByLabel(labels), Firsts(labels);
    FirstsAreDistinct(labels);
    forall g | g in groups ensures g != [] && Increasing(g) {
      var k :| 0 <= k < |groups| && groups[k] == g;
      assert roots[k] in labels;
      GroupIsNonEmpty(labels, roots[k]);
      GroupIsIncreasing(labels, roots[k]);
    }
    forall a, b | 0 <= a < b < |groups| ensures Precedes(groups[a], groups[b]) {
      FirstsInOrder(labels, a, b);
    }
    forall i: nat ensures Grouped(groups, i) <==> i < |labels| {
      if i < |labels| {
        assert labels[i] in roots;
        var a: nat :| a < |roots| && roots[a] == labels[i];
        assert InGroup(groups, i, a);
      }
    }
    forall a: nat, b: nat, i: nat, j: nat | InGroup(groups, i, a) && InGroup(groups, j, b)
      ensures a == b <==> Connected(r, i, j)
    {
      assert labels[i] == roots[a] && labels[j] == roots[b];
    }
  }

  /** Increasing lists with the same members are equal. */
  lemma {:induction false} IncreasingIsUnique(g: seq<nat>, h: seq<nat>)
    requires Increasing(g) && Increasing(h) && forall i :: i in g <==> i in h
    ensures g == h
    decreases |g|
  {
    assert forall k | 0 <= k < |h| :: h[k] in h;
    assert forall k | 0 <= k < |g| :: g[k] in g;
    if g != [] {
      assert g[0] in h;
      SameTailMembers(g, h);
      IncreasingIsUnique(g[1..], h[1..]);
      assert g == [g[0]] + g[1..] && h == [h[0]] + h[1..];
    }
  }

  lemma SameTailMembers(g: seq<nat>, h: seq<nat>)
    requires Increasing(g) && Increasing(h) && g != [] && h != [] && forall i :: i in g <==> i in h
    ensures g[0] == h[0] && forall i :: i in g[1..] <==> i in h[1..]
  {
    assert g[0] in g && h[0] in h;
    assert g[0] in h && h[0] in g;
    var a :| 0 <= a < |h| && h[a] == g[0];
    var b :| 0 <= b < |g| && g[b] == h[0];
    forall i ensures i in g[1..] <==> i in g && i != g[0] {
    }
    forall i ensures i in h[1..] <==> i in h && i != h[0] {
    }
  }

  function Heads(groups: seq<seq<nat>>): (heads: seq<nat>)
    requires forall g | g in groups :: g != []
    ensures |heads| == |groups| && forall a | 0 <= a < |heads| :: groups[a] in groups && heads[a] == groups[a][0]
  {
    seq(|groups|, a requires 0 <= a < |groups| => assert groups[a] in groups; groups[a][0])
  }

  /** A group of one list of components is a group of any other. */
  lemma GroupIsShared(xs: seq<seq<nat>>, ys: seq<seq<nat>>, n: nat, r: (nat, nat) -> bool, a: nat)
    requires AreComponents(xs, n, r) && AreComponents(ys, n, r) && a < |xs|
    ensures xs[a] in ys
  {
    hide Connected;
    var g := xs[a];
    assert g in xs && g[0] in g;
    assert InGroup(xs, g[0], a) && Grouped(xs, g[0]) && Grouped(ys, g[0]);
    var b: nat :| InGroup(ys, g[0], b);
    var h := ys[b];
    assert h in ys;
    forall i ensures i in g <==> i in h {
      if i in g {
        assert InGroup(xs, i, a) && Grouped(xs, i) && Grouped(ys, i);
        var c: nat :| InGroup(ys, i, c);
      }
      if i in h {
        assert InGroup(ys, i, b) && Grouped(ys, i) && Grouped(xs, i);
        var c: nat :| InGroup(xs, i, c);
      }
    }
    IncreasingIsUnique(g, h);
  }

  lemma HeadsAreIncreasing(xs: seq<seq<nat>>, n: nat, r: (nat, nat) -> bool)
    requires AreComponents(xs, n, r)
    ensures (forall g | g in xs :: g != []) && Increasing(Heads(xs))
  {
    hide Connected;
    forall a, b | 0 <= a < b < |xs| ensures Heads(xs)[a] < Heads(xs)[b] {
      assert Precedes(xs[a], xs[b]);
    }
  }

  /** The definition leaves no choice: a relation has one list of components. */
  lemma ComponentsAreUnique(xs: seq<seq<nat>>, ys: seq<seq<nat>>, n: nat, r: (nat, nat) -> bool)
    requires AreComponents(xs, n, r) && AreComponents(ys, n, r)
    ensures xs == ys
  {
    hide AreComponents;
    HeadsAreIncreasing(xs, n, r);
    HeadsAreIncreasing(ys, n, r);
    forall i ensures i in Heads(xs) <==> i in Heads(ys) {
      if a :| 0 <= a < |xs| && Heads(xs)[a] == i {
        GroupIsShared(xs, ys, n, r, a);
        HeadOfMember(ys, xs[a]);
      }
      if a :| 0 <= a < |ys| && Heads(ys)[a] == i {
        GroupIsShared(ys, xs, n, r, a);
        HeadOfMember(xs, ys[a]);
      }
    }
    IncreasingIsUnique(Heads(xs), Heads(ys));
    forall a | 0 <= a < |xs| ensures xs[a] == ys[a] {
      GroupIsShared(xs, ys, n, r, a);
      var b :| 0 <= b < |ys| && ys[b] == xs[a];
      assert Heads(ys)[b] == Heads(ys)[a];
    }
  }

  lemma HeadOfMember(groups: seq<seq<nat>>, g: seq<nat>)
    requires (forall h | h in groups :: h != []) && g in groups
    ensures g[0] in Heads(groups)
  {
    var b :| 0 <= b < |groups| && groups[b] == g;
    assert Heads(groups)[b] == g[0];
  }
}
