/** Sets of strings as ascending lists, and the slices and element sets of lists. */
module OrderedSets {
  import opened Ordering

  ghost predicate IsLeast(s: set<string>, x: string) { x in s && forall y | y in s :: StringLe(x, y) }

  lemma LeastExists(s: set<string>)
    requires s != {}
    ensures exists x :: IsLeast(s, x)
  {
    hide StringLe;
    var x :| x in s;
    var rest := s - {x};
    StringLeTotal(x, x);
    if rest == {} {
      assert s == {x};
      assert IsLeast(s, x);
    } else {
      LeastExists(rest);
      var z :| IsLeast(rest, z);
      StringLeTotal(x, z);
      if StringLe(x, z) {
        forall y | y in s ensures StringLe(x, y) {
          if y != x {
            assert y in rest;
            StringLeTransitive(x, z, y);
          }
        }
        assert IsLeast(s, x);
      } else {
        assert forall y | y in s :: y == x || y in rest;
        assert IsLeast(s, z);
      }
    }
  }

  ghost function Least(s: set<string>): (x: string)
    requires s != {}
    ensures IsLeast(s, x)
  {
    LeastExists(s);
    var x :| IsLeast(s, x);
    x
  }

  /** The ids as a list, ascending: what sorting a set gives, whatever order the set is walked in. */
  ghost function InOrder(s: set<string>): (r: seq<string>)
    ensures |r| == |s| && (forall x :: x in r <==> x in s) && Ascending(r, StringLe) && multiset(r) == multiset(s)
    decreases |s|
  {
    hide StringLe, Least;
    if s == {} then []
    else
      var x := Least(s);
      [x] + InOrder(s - {x})
  }

  /** Sorting the elements listed in any order gives the one ascending list. */
  lemma SortedIsInOrder(s: set<string>, listed: seq<string>)
    requires multiset(listed) == multiset(s)
    ensures Sort(listed, StringLe) == InOrder(s)
  {
    hide StringLe, Sort;
    StringLeIsTotalPreorder();
    SortIsAscending(listed, StringLe);
    SortIsPermutation(listed, StringLe);
    var sorted := Sort(listed, StringLe);
    forall x, y | x in sorted && y in sorted && StringLe(x, y) && StringLe(y, x) ensures x == y {
      StringLeAntisymmetric(x, y);
    }
    AscendingIsUnique(sorted, InOrder(s), StringLe);
  }

  method SortIds(ids: set<string>) returns (sorted: seq<string>)
    ensures sorted == InOrder(ids)
  {
    var rest, listed: seq<string> := ids, [];
    while rest != {}
      invariant multiset(listed) + multiset(rest) == multiset(ids)
      decreases |rest|
    {
      var x :| x in rest;
      rest, listed := rest - {x}, listed + [x];
    }
    SortedIsInOrder(ids, listed);
    sorted := Sort(listed, StringLe);
  }

  /** A slice `xs[:n]`, which counts from the end when `n` is negative. */
  function Prefix<T>(xs: seq<T>, n: int): seq<T> {
    if n >= |xs| then xs else if n >= 0 then xs[..n] else if |xs| + n > 0 then xs[..|xs| + n] else []
  }

  function Elements<T>(xs: seq<T>): set<T> { set x | x in xs }

  /** The names in ascending order, each once. */
  ghost predicate IsListing(names: seq<string>, s: set<string>) {
    && (forall n :: n in names <==> n in s)
    && forall i, j | 0 <= i < j < |names| :: names[i] != names[j] && ComesFirst(names[i], names[j])
  }

  lemma InOrderIsListing(s: set<string>)
    ensures IsListing(InOrder(s), s)
  {
    hide ComesFirst, StringLe;
    var names := InOrder(s);
    forall i, j | 0 <= i < j < |names| ensures names[i] != names[j] && ComesFirst(names[i], names[j]) {
      StringLeMeans(names[i], names[j]);
      EachOnce(s, names, i, j);
    }
  }

  lemma EachOnce(s: set<string>, names: seq<string>, i: nat, j: nat)
    requires multiset(names) == multiset(s) && i < j < |names|
    ensures names[i] != names[j]
  {
    assert names[i] in multiset(names);
    if names[i] == names[j] {
      PlacedTwice(names, i, j);
    }
  }

  lemma PlacedTwice(names: seq<string>, i: nat, j: nat)
    requires i < j < |names| && names[i] == names[j]
    ensures multiset(names)[names[i]] >= 2
  {
    assert names == names[..i] + [names[i]] + names[i + 1..j] + [names[j]] + names[j + 1..];
  }
}
