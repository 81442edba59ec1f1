/** Nothing is lost and nothing is doubled when the elements of a list are grouped and rearranged. */
module Conservation {
  import opened Ordering
  import opened Connectivity

  /** The elements at the given positions. */
  function Pick<T>(xs: seq<T>, g: seq<nat>): (r: seq<T>)
    requires Below(g, |xs|)
    ensures |r| == |g| && forall k | 0 <= k < |g| :: g[k] in g && r[k] == xs[g[k]]
  {
    assert forall k | 0 <= k < |g| :: g[k] in g;
    seq(|g|, k requires 0 <= k < |g| => assert g[k] in g; xs[g[k]])
  }

  predicate Below(g: seq<nat>, n: nat) { forall i | i in g :: i < n }

  predicate AllBelow(groups: seq<seq<nat>>, n: nat) { forall g | g in groups :: Below(g, n) }

  lemma PickOneMore<T>(xs: seq<T>, g: seq<nat>, i: nat)
    requires Below(g, |xs|) && i < |xs|
    ensures Below(g + [i], |xs|) && Pick(xs, g + [i]) == Pick(xs, g) + [xs[i]]
  {
  }

  function PickEach<T>(xs: seq<T>, groups: seq<seq<nat>>): (r: seq<seq<T>>)
    requires AllBelow(groups, |xs|)
    ensures |r| == |groups| && forall k | 0 <= k < |r| :: groups[k] in groups && r[k] == Pick(xs, groups[k])
  {
    seq(|groups|, k requires 0 <= k < |groups| => assert groups[k] in groups; Pick(xs, groups[k]))
  }

  function Flat<T>(xss: seq<seq<T>>): seq<T> {
    if xss == [] then [] else Flat(xss[..|xss| - 1]) + xss[|xss| - 1]
  }

  function Bags<T>(xss: seq<seq<T>>): (r: seq<multiset<T>>)
    ensures |r| == |xss| && forall k | 0 <= k < |r| :: r[k] == multiset(xss[k])
  {
    seq(|xss|, k requires 0 <= k < |xss| => multiset(xss[k]))
  }

  /** The lists hold exactly the elements of `xs` at the groups: one list for each group, in any order. */
  ghost predicate AreBagsOf<T>(xss: seq<seq<T>>, xs: seq<T>, groups: seq<seq<nat>>) {
    && AllBelow(groups, |xs|)
    && multiset(Bags(xss)) == multiset(Bags(PickEach(xs, groups)))
  }

  function Sum<T>(bags: seq<multiset<T>>): multiset<T> {
    if bags == [] then multiset{} else Sum(bags[..|bags| - 1]) + bags[|bags| - 1]
  }

  lemma {:induction false} FlatIsSum<T>(xss: seq<seq<T>>)
    ensures multiset(Flat(xss)) == Sum(Bags(xss))
    decreases |xss|
  {
    if xss != [] {
      var front := xss[..|xss| - 1];
      FlatIsSum(front);
      assert Bags(xss)[..|xss| - 1] == Bags(front);
    }
  }

  lemma {:induction false} SumWithout<T>(bags: seq<multiset<T>>, k: nat)
    requires k < |bags|
    ensures Sum(bags) == Sum(bags[..k] + bags[k + 1..]) + bags[k]
    decreases |bags|
  {
    var n := |bags| - 1;
    var rest := bags[..k] + bags[k + 1..];
    if k == n {
      assert rest == bags[..n];
    } else {
      SumWithout(bags[..n], k);
      assert rest[..|rest| - 1] == bags[..n][..k] + bags[..n][k + 1..] && rest[|rest| - 1] == bags[n];
    }
  }

  /** A sum does not depend on the order. */
  lemma {:induction false} SumOfRearranged<T>(xs: seq<multiset<T>>, ys: seq<multiset<T>>)
    requires multiset(xs) == multiset(ys)
    ensures Sum(xs) == Sum(ys)
    decreases |xs|
  {
    assert |multiset(xs)| == |xs| && |multiset(ys)| == |ys|;
    if xs != [] {
      var n := |xs| - 1;
      var k := PlaceOf(ys, xs, n);
      var rest := ys[..k] + ys[k + 1..];
      Removed(ys, k);
      Removed(xs, n);
      assert xs[..n] + xs[n + 1..] == xs[..n];
      SumOfRearranged(xs[..n], rest);
      SumWithout(ys, k);
    }
  }

  lemma PlaceOf<T>(ys: seq<T>, xs: seq<T>, n: nat) returns (k: nat)
    requires multiset(xs) == multiset(ys) && n < |xs|
    ensures k < |ys| && ys[k] == xs[n]
  {
    assert xs[n] in multiset(ys);
    k :| 0 <= k < |ys| && ys[k] == xs[n];
  }

  lemma Removed<T>(ys: seq<T>, k: nat)
    requires k < |ys|
    ensures multiset(ys[..k] + ys[k + 1..]) == multiset(ys) - multiset{ys[k]}
  {
    assert ys == ys[..k] + [ys[k]] + ys[k + 1..];
  }

  lemma MappedWithout<T, U>(f: T -> U, ys: seq<T>, k: nat)
    requires k < |ys|
    ensures multiset(Mapped(f, ys)) == multiset(Mapped(f, ys[..k] + ys[k + 1..])) + multiset{f(ys[k])}
  {
    hide Mapped;
    var p, q := Mapped(f, ys), Mapped(f, ys[..k] + ys[k + 1..]);
    assert |q| == |p| - 1;
    forall i | 0 <= i < |q| ensures q[i] == (p[..k] + p[k + 1..])[i] {
      assert q[i] == f((ys[..k] + ys[k + 1..])[i]);
    }
    assert q == p[..k] + p[k + 1..];
    Removed(p, k);
    assert p[k] in multiset(p);
  }

  lemma {:induction false} MappedOfRearranged<T, U>(f: T -> U, xs: seq<T>, ys: seq<T>)
    requires multiset(xs) == multiset(ys)
    ensures multiset(Mapped(f, xs)) == multiset(Mapped(f, ys))
    decreases |xs|
  {
    hide Mapped;
    assert |multiset(xs)| == |xs| && |multiset(ys)| == |ys|;
    if xs == [] {
      assert xs == ys;
    } else {
      var n := |xs| - 1;
      var k := PlaceOf(ys, xs, n);
      Removed(ys, k);
      Removed(xs, n);
      MappedOfRearranged(f, xs[..n] + xs[n + 1..], ys[..k] + ys[k + 1..]);
      MappedWithout(f, ys, k);
      MappedWithout(f, xs, n);
    }
  }

  // ----- The components of a relation hold every position once

  lemma {:induction false} GroupHoldsOnce(g: seq<nat>, i: nat)
    requires Increasing(g)
    ensures multiset(g)[i] == if i in g then 1 else 0
    decreases |g|
  {
    if g != [] {
      var n := |g| - 1;
      GroupHoldsOnce(g[..n], i);
      assert g == g[..n] + [g[n]];
    }
  }

  lemma {:induction false} PositionsOnce(groups: seq<seq<nat>>, k: nat, n: nat, r: (nat, nat) -> bool, i: nat)
    requires AreComponents(groups, n, r) && k <= |groups|
    ensures HowOften(Flat(groups[..k]), i) == if exists a: nat :: a < k && InGroup(groups, i, a) then 1 else 0
    decreases k
  {
    hide Connected, Increasing;
    if k > 0 {
      PositionsOnce(groups, k - 1, n, r, i);
      assert groups[..k][..k - 1] == groups[..k - 1];
      assert groups[k - 1] in groups;
      GroupHoldsOnce(groups[k - 1], i);
      forall a: nat | a < k - 1 && InGroup(groups, i, a) && InGroup(groups, i, k - 1) ensures false {
        ConnectedToSelf(r, i);
      }
      assert i in groups[k - 1] <==> InGroup(groups, i, k - 1);
    }
  }

  function Upto(n: nat): (r: seq<nat>)
    ensures |r| == n && forall k | 0 <= k < n :: r[k] == k
  {
    seq(n, k => k)
  }

  lemma UptoHoldsOnce(n: nat, i: nat)
    ensures HowOften(Upto(n), i) == if i < n then 1 else 0
  {
    GroupHoldsOnce(Upto(n), i);
    assert i < n ==> Upto(n)[i] == i;
  }

  lemma EachPositionOnce(groups: seq<seq<nat>>, n: nat, r: (nat, nat) -> bool, i: nat)
    requires AreComponents(groups, n, r)
    ensures HowOften(Flat(groups), i) == if i < n then 1 else 0
  {
    hide Connected, Flat, HowOften;
    assert groups[..|groups|] == groups;
    PositionsOnce(groups, |groups|, n, r, i);
    assert Grouped(groups, i) <==> i < n;
    assert Grouped(groups, i) <==> exists a: nat :: a < |groups| && InGroup(groups, i, a);
  }

  lemma PositionsArePermuted(groups: seq<seq<nat>>, n: nat, r: (nat, nat) -> bool)
    requires AreComponents(groups, n, r)
    ensures multiset(Flat(groups)) == multiset(Upto(n))
  {
    hide AreComponents;
    var flat, all := Flat(groups), Upto(n);
    forall i: nat ensures HowOften(flat, i) == HowOften(all, i) {
      EachPositionOnce(groups, n, r, i);
      UptoHoldsOnce(n, i);
    }
    SameCounts(flat, all);
  }

  function HowOften(g: seq<nat>, i: nat): nat { multiset(g)[i] }

  lemma SameCounts(g: seq<nat>, h: seq<nat>)
    requires forall i: nat :: HowOften(g, i) == HowOften(h, i)
    ensures multiset(g) == multiset(h)
  {
    forall i | i in multiset(g) + multiset(h) ensures multiset(g)[i] == multiset(h)[i] {
      assert HowOften(g, i) == HowOften(h, i);
    }
  }

  lemma PickOfPermuted<T>(xs: seq<T>, g: seq<nat>, h: seq<nat>)
    requires multiset(g) == multiset(h) && Below(g, |xs|) && Below(h, |xs|)
    ensures multiset(Pick(xs, g)) == multiset(Pick(xs, h))
  {
    assert |multiset(g)| == |g| && |multiset(h)| == |h|;
    if g == [] {
      assert g == h;
    } else {
      assert g[0] in g;
      var at := (i: nat) => if i < |xs| then xs[i] else xs[0];
      MappedOfRearranged(at, g, h);
      assert Mapped(at, g) == Pick(xs, g) && Mapped(at, h) == Pick(xs, h);
    }
  }

  lemma {:induction false} FlatWithin(groups: seq<seq<nat>>, n: nat)
    requires AllBelow(groups, n)
    ensures Below(Flat(groups), n)
    decreases |groups|
  {
    if groups != [] {
      assert groups[|groups| - 1] in groups;
      FlatWithin(groups[..|groups| - 1], n);
    }
  }

  lemma {:induction false} FlatOfPicked<T>(xs: seq<T>, groups: seq<seq<nat>>)
    requires AllBelow(groups, |xs|)
    requires Below(Flat(groups), |xs|)
    ensures Flat(PickEach(xs, groups)) == Pick(xs, Flat(groups))
    decreases |groups|
  {
    if groups != [] {
      var n := |groups| - 1;
      assert groups[n] in groups;
      FlatWithin(groups[..n], |xs|);
      FlatOfPicked(xs, groups[..n]);
      assert PickEach(xs, groups)[..n] == PickEach(xs, groups[..n]);
    }
  }

  /** Lists that hold the components of a list hold each of its elements exactly as often as it does. */
  lemma ComponentsConserve<T>(xss: seq<seq<T>>, xs: seq<T>, groups: seq<seq<nat>>, r: (nat, nat) -> bool)
    requires AreComponents(groups, |xs|, r) && AreBagsOf(xss, xs, groups)
    ensures multiset(Flat(xss)) == multiset(xs)
  {
    hide AreComponents, Flat, Sum;
    var picked := PickEach(xs, groups);
    FlatIsSum(xss);
    FlatIsSum(picked);
    SumOfRearranged(Bags(xss), Bags(picked));
    FlatWithin(groups, |xs|);
    FlatOfPicked(xs, groups);
    PositionsArePermuted(groups, |xs|, r);
    PickOfPermuted(xs, Flat(groups), Upto(|xs|));
    assert Pick(xs, Upto(|xs|)) == xs;
  }

  lemma BagsOfRearranged<T>(xss: seq<seq<T>>, yss: seq<seq<T>>)
    requires multiset(xss) == multiset(yss)
    ensures multiset(Bags(xss)) == multiset(Bags(yss))
  {
    var bag := (xs: seq<T>) => multiset(xs);
    MappedOfRearranged(bag, xss, yss);
    assert Mapped(bag, xss) == Bags(xss) && Mapped(bag, yss) == Bags(yss);
  }
}
