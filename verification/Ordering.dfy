/** The built-in `sorted`: a stable sort under a key order, and the code-point order on strings. */
module Ordering {

  /** Strings compare lexicographically by code point. */
  predicate StringLe(a: string, b: string) {
    a == [] || (b != [] && (a[0] < b[0] || (a[0] == b[0] && StringLe(a[1..], b[1..]))))
  }

  lemma {:induction false} StringLeTotal(a: string, b: string)
    ensures StringLe(a, b) || StringLe(b, a)
  {
    if a != [] && b != [] && a[0] == b[0] {
      StringLeTotal(a[1..], b[1..]);
    }
  }

  lemma {:induction false} StringLeTransitive(a: string, b: string, c: string)
    requires StringLe(a, b) && StringLe(b, c)
    ensures StringLe(a, c)
  {
    if a != [] && a[0] == b[0] && b[0] == c[0] {
      StringLeTransitive(a[1..], b[1..], c[1..]);
    }
  }

  lemma {:induction false} StringLeAntisymmetric(a: string, b: string)
    requires StringLe(a, b) && StringLe(b, a)
    ensures a == b
  {
    if a != [] {
      StringLeAntisymmetric(a[1..], b[1..]);
      assert a == [a[0]] + a[1..] && b == [b[0]] + b[1..];
    }
  }

  /** The first string is a beginning of the second, or has the smaller character where the two first differ. */
  ghost predicate ComesFirst(a: string, b: string) {
    a <= b || exists k: nat :: DifferFirstAt(a, b, k) && a[k] < b[k]
  }

  ghost predicate DifferFirstAt(a: string, b: string, k: nat) {
    k < |a| && k < |b| && a[..k] == b[..k] && a[k] != b[k]
  }

  /** What the recursive comparison decides, said without recursion. */
  lemma {:induction false} StringLeMeans(a: string, b: string)
    ensures StringLe(a, b) <==> ComesFirst(a, b)
    decreases |a|
  {
    if a != [] && b != [] && a[0] == b[0] {
      StringLeMeans(a[1..], b[1..]);
      TailsCompare(a, b);
    } else if a != [] && b != [] {
      assert DifferFirstAt(a, b, 0);
      assert forall k: nat | DifferFirstAt(a, b, k) :: k > 0 ==> a[0] == a[..k][0] && b[0] == b[..k][0];
    }
  }

  lemma TailsCompare(a: string, b: string)
    requires a != [] && b != [] && a[0] == b[0]
    ensures ComesFirst(a, b) <==> ComesFirst(a[1..], b[1..])
  {
    var x, y := a[1..], b[1..];
    assert a == [a[0]] + x && b == [b[0]] + y;
    assert a <= b <==> x <= y;
    if k: nat :| DifferFirstAt(a, b, k) && a[k] < b[k] {
      assert k > 0 && x[..k - 1] == a[..k][1..] && y[..k - 1] == b[..k][1..];
      assert DifferFirstAt(x, y, k - 1) && x[k - 1] < y[k - 1];
    }
    if k: nat :| DifferFirstAt(x, y, k) && x[k] < y[k] {
      assert a[..k + 1] == [a[0]] + x[..k] && b[..k + 1] == [b[0]] + y[..k];
      assert DifferFirstAt(a, b, k + 1) && a[k + 1] < b[k + 1];
    }
  }

  ghost predicate TotalPreorder<T(!new)>(le: (T, T) -> bool) {
    && (forall x, y :: le(x, y) || le(y, x))
    && (forall x, y, z :: le(x, y) && le(y, z) ==> le(x, z))
  }

  lemma StringLeIsTotalPreorder()
    ensures TotalPreorder(StringLe)
  {
    forall x, y ensures StringLe(x, y) || StringLe(y, x) { StringLeTotal(x, y); }
    forall x, y, z | StringLe(x, y) && StringLe(y, z) ensures StringLe(x, z) { StringLeTransitive(x, y, z); }
  }

  ghost predicate Ascending<T>(xs: seq<T>, le: (T, T) -> bool) {
    forall i, j | 0 <= i < j < |xs| :: le(xs[i], xs[j])
  }

  /** Puts `x` in front of the first element it does not exceed, so equal keys keep their order. */
  function Insert<T>(x: T, xs: seq<T>, le: (T, T) -> bool): seq<T> {
    if xs == [] || le(x, xs[0]) then [x] + xs else [xs[0]] + Insert(x, xs[1..], le)
  }

  function Sort<T>(xs: seq<T>, le: (T, T) -> bool): seq<T> {
    if xs == [] then [] else Insert(xs[0], Sort(xs[1..], le), le)
  }

  lemma {:induction false} InsertIsPermutation<T>(x: T, xs: seq<T>, le: (T, T) -> bool)
    ensures multiset(Insert(x, xs, le)) == multiset{x} + multiset(xs)
  {
    if xs != [] && !le(x, xs[0]) {
      InsertIsPermutation(x, xs[1..], le);
      assert xs == [xs[0]] + xs[1..];
    }
  }

  lemma {:induction false} SortIsPermutation<T>(xs: seq<T>, le: (T, T) -> bool)
    ensures multiset(Sort(xs, le)) == multiset(xs)
    ensures |Sort(xs, le)| == |xs|
  {
    if xs != [] {
      SortIsPermutation(xs[1..], le);
      InsertIsPermutation(xs[0], Sort(xs[1..], le), le);
      assert xs == [xs[0]] + xs[1..];
    }
    assert |multiset(Sort(xs, le))| == |multiset(xs)|;
  }

  lemma {:induction false} InsertKeepsAscending<T(!new)>(x: T, xs: seq<T>, le: (T, T) -> bool)
    requires TotalPreorder(le) && Ascending(xs, le)
    ensures Ascending(Insert(x, xs, le), le)
  {
    if xs != [] && !le(x, xs[0]) {
      InsertKeepsAscending(x, xs[1..], le);
      InsertIsPermutation(x, xs[1..], le);
      var r := Insert(x, xs[1..], le);
      forall j | 0 <= j < |r| ensures le(xs[0], r[j]) {
        assert r[j] in multiset(r);
        assert r[j] == x || r[j] in xs[1..];
      }
    }
  }

  lemma {:induction false} SortIsAscending<T(!new)>(xs: seq<T>, le: (T, T) -> bool)
    requires TotalPreorder(le)
    ensures Ascending(Sort(xs, le), le)
  {
    if xs != [] {
      SortIsAscending(xs[1..], le);
      InsertKeepsAscending(xs[0], Sort(xs[1..], le), le);
    }
  }

  /** Sorting what is already in order changes nothing. */
  lemma {:induction false} SortFixesAscending<T>(xs: seq<T>, le: (T, T) -> bool)
    requires Ascending(xs, le)
    ensures Sort(xs, le) == xs
  {
    if xs != [] {
      SortFixesAscending(xs[1..], le);
      if |xs| > 1 {
        assert le(xs[0], xs[1]);
      }
      assert xs == [xs[0]] + xs[1..];
    }
  }

  ghost predicate DistinctKeys<T>(xs: seq<T>, le: (T, T) -> bool) {
    forall x, y | x in xs && y in xs && le(x, y) && le(y, x) :: x == y
  }

  lemma AscendingHeadsAgree<T>(xs: seq<T>, ys: seq<T>, le: (T, T) -> bool)
    requires multiset(xs) == multiset(ys) && xs != [] && ys != []
    requires Ascending(xs, le) && Ascending(ys, le)
    requires DistinctKeys(xs, le)
    ensures xs[0] == ys[0]
  {
    assert xs[0] in multiset(ys) && ys[0] in multiset(xs);
    var i :| 0 <= i < |ys| && ys[i] == xs[0];
    var j :| 0 <= j < |xs| && xs[j] == ys[0];
    if i != 0 && j != 0 {
      assert le(xs[0], xs[j]) && le(ys[0], ys[i]);
    }
  }

  lemma MultisetOfTail<T>(xs: seq<T>)
    requires xs != []
    ensures multiset(xs[1..]) == multiset(xs) - multiset{xs[0]}
  {
    assert xs == [xs[0]] + xs[1..];
  }

  lemma TailAscends<T>(xs: seq<T>, le: (T, T) -> bool)
    requires xs != [] && Ascending(xs, le)
    ensures Ascending(xs[1..], le) && (DistinctKeys(xs, le) ==> DistinctKeys(xs[1..], le))
  {
    assert forall x | x in xs[1..] :: x in xs;
  }

  /** Without key ties, a multiset has one ascending arrangement. */
  lemma {:induction false} AscendingIsUnique<T>(xs: seq<T>, ys: seq<T>, le: (T, T) -> bool)
    requires multiset(xs) == multiset(ys)
    requires Ascending(xs, le) && Ascending(ys, le)
    requires DistinctKeys(xs, le)
    ensures xs == ys
  {
    hide Ascending, DistinctKeys;
    assert |xs| == |ys| by { assert |multiset(xs)| == |xs| && |multiset(ys)| == |ys|; }
    if xs != [] {
      AscendingHeadsAgree(xs, ys, le);
      TailAscends(xs, le);
      TailAscends(ys, le);
      assert multiset(xs[1..]) == multiset(ys[1..]) by {
        MultisetOfTail(xs);
        MultisetOfTail(ys);
      }
      AscendingIsUnique(xs[1..], ys[1..], le);
      assert xs == [xs[0]] + xs[1..] && ys == [ys[0]] + ys[1..];
    }
  }

  /** When no two keys tie, sorting forgets the order its input came in. */
  lemma SortIgnoresInputOrder<T(!new)>(xs: seq<T>, ys: seq<T>, le: (T, T) -> bool)
    requires TotalPreorder(le)
    requires multiset(xs) == multiset(ys)
    requires DistinctKeys(xs, le)
    ensures Sort(xs, le) == Sort(ys, le)
  {
    SortIsPermutation(xs, le);
    SortIsPermutation(ys, le);
    SortIsAscending(xs, le);
    SortIsAscending(ys, le);
    forall x, y | x in Sort(xs, le) && y in Sort(xs, le) && le(x, y) && le(y, x) ensures x == y {
      assert x in multiset(Sort(xs, le)) && y in multiset(Sort(xs, le));
      assert x in xs && y in xs;
    }
    AscendingIsUnique(Sort(xs, le), Sort(ys, le), le);
  }

  // ----- Sorting and mapping

  function Mapped<T, U>(f: T -> U, xs: seq<T>): (r: seq<U>)
    ensures |r| == |xs| && forall i | 0 <= i < |xs| :: r[i] == f(xs[i])
  {
    if xs == [] then [] else [f(xs[0])] + Mapped(f, xs[1..])
  }

  lemma MappedOfOneMore<T, U>(f: T -> U, xs: seq<T>, x: T)
    ensures Mapped(f, xs + [x]) == Mapped(f, xs) + [f(x)]
  {
  }

  lemma {:induction false} InsertOfMapped<T, U>(f: T -> U, x: T, xs: seq<T>, le: (T, T) -> bool, le': (U, U) -> bool)
    requires forall a, b | a in [x] + xs && b in [x] + xs :: le'(f(a), f(b)) == le(a, b)
    ensures Insert(f(x), Mapped(f, xs), le') == Mapped(f, Insert(x, xs, le))
  {
    if xs == [] {
      assert Insert(x, xs, le) == [x] && [x][1..] == [];
    } else {
      assert x in [x] + xs && xs[0] in [x] + xs;
      assert Mapped(f, xs)[1..] == Mapped(f, xs[1..]);
      if le(x, xs[0]) {
        assert ([x] + xs)[1..] == xs;
      } else {
        forall a, b | a in [x] + xs[1..] && b in [x] + xs[1..] ensures le'(f(a), f(b)) == le(a, b) {
          assert a in [x] + xs && b in [x] + xs;
        }
        InsertOfMapped(f, x, xs[1..], le, le');
        var rest := Insert(x, xs[1..], le);
        assert ([xs[0]] + rest)[1..] == rest;
      }
    }
  }

  /** A map that keeps the order of keys can be done before or after sorting. */
  lemma {:induction false} SortOfMapped<T, U>(f: T -> U, xs: seq<T>, le: (T, T) -> bool, le': (U, U) -> bool)
    requires forall a, b | a in xs && b in xs :: le'(f(a), f(b)) == le(a, b)
    ensures Sort(Mapped(f, xs), le') == Mapped(f, Sort(xs, le))
  {
    if xs != [] {
      var rest := Sort(xs[1..], le);
      forall a, b | a in xs[1..] && b in xs[1..] ensures le'(f(a), f(b)) == le(a, b) {
        assert a in xs && b in xs;
      }
      SortOfMapped(f, xs[1..], le, le');
      SortIsPermutation(xs[1..], le);
      forall a | a in [xs[0]] + rest ensures a in xs {
        if a in rest {
          assert a in multiset(rest);
          assert a in xs[1..];
        }
      }
      assert Mapped(f, xs)[1..] == Mapped(f, xs[1..]);
      InsertOfMapped(f, xs[0], rest, le, le');
    }
  }
}
