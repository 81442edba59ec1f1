/** Which elements of a list a filter lets through, and what a dictionary filled in a loop holds at the end. */
module Selection {
  import opened Wrappers
  import opened Connectivity

  /** `at` holds, in order, exactly the places of `xs` that pass. */
  ghost predicate ArePlaces<T>(xs: seq<T>, pass: T -> bool, at: seq<nat>) {
    Increasing(at) && forall k: nat :: k in at <==> k < |xs| && pass(xs[k])
  }

  ghost predicate IsView<T, U>(xs: seq<T>, at: seq<nat>, show: T -> U, out: seq<U>) {
    |out| == |at| && forall k | 0 <= k < |at| :: at[k] < |xs| && out[k] == show(xs[at[k]])
  }

  /** `out` shows, in order, exactly the elements that pass. */
  ghost predicate Selected<T, U>(xs: seq<T>, pass: T -> bool, show: T -> U, out: seq<U>) {
    exists at :: ArePlaces(xs, pass, at) && IsView(xs, at, show, out)
  }

  lemma NoneSelected<T, U>(pass: T -> bool, show: T -> U)
    ensures Selected([], pass, show, [])
  {
    assert ArePlaces([], pass, []) && IsView([], [], show, []);
  }

  lemma PlacesWithLast<T>(xs: seq<T>, pass: T -> bool, at: seq<nat>, x: T)
    requires ArePlaces(xs, pass, at)
    ensures ArePlaces(xs + [x], pass, if pass(x) then at + [|xs|] else at)
  {
    var all := xs + [x];
    var more := if pass(x) then at + [|xs|] else at;
    assert forall k | 0 <= k < |at| :: at[k] in at;
    forall k: nat ensures k in more <==> k < |all| && pass(all[k]) {
      assert k in more <==> k in at || (pass(x) && k == |xs|);
      assert k < |xs| ==> all[k] == xs[k];
      assert all[|xs|] == x;
    }
  }

  lemma ShowsWithLast<T, U>(xs: seq<T>, at: seq<nat>, show: T -> U, out: seq<U>, x: T)
    requires IsView(xs, at, show, out)
    ensures IsView(xs + [x], at, show, out) && IsView(xs + [x], at + [|xs|], show, out + [show(x)])
  {
  }

  lemma SelectedWithLast<T, U>(xs: seq<T>, pass: T -> bool, show: T -> U, out: seq<U>, x: T)
    requires Selected(xs, pass, show, out)
    ensures Selected(xs + [x], pass, show, out + if pass(x) then [show(x)] else [])
  {
    hide ArePlaces, IsView;
    var at :| ArePlaces(xs, pass, at) && IsView(xs, at, show, out);
    PlacesWithLast(xs, pass, at, x);
    ShowsWithLast(xs, at, show, out, x);
    assert out + [] == out;
  }

  function OneUp(at: seq<nat>): (r: seq<nat>)
    ensures |r| == |at| && forall k | 0 <= k < |at| :: r[k] == at[k] + 1
  {
    seq(|at|, k requires 0 <= k < |at| => at[k] + 1)
  }

  lemma AmongOneUp(at: seq<nat>, k: nat)
    ensures k in OneUp(at) <==> k > 0 && k - 1 in at
  {
    if k > 0 && k - 1 in at {
      var i :| 0 <= i < |at| && at[i] == k - 1;
      assert OneUp(at)[i] == k;
    }
    if k in OneUp(at) {
      var i :| 0 <= i < |at| && OneUp(at)[i] == k;
      assert at[i] in at;
    }
  }

  lemma PlacesWithFirst<T>(x: T, xs: seq<T>, pass: T -> bool, at: seq<nat>)
    requires ArePlaces(xs, pass, at)
    ensures ArePlaces([x] + xs, pass, if pass(x) then [0] + OneUp(at) else OneUp(at))
  {
    hide OneUp;
    var up, all := OneUp(at), [x] + xs;
    var more := if pass(x) then [0] + up else up;
    forall k: nat ensures k in more <==> k < |all| && pass(all[k]) {
      AmongOneUp(at, k);
      assert k in [0] + up <==> k == 0 || k in up;
      assert 0 < k < |all| ==> all[k] == xs[k - 1];
    }
  }

  lemma ShowsWithFirst<T, U>(x: T, xs: seq<T>, at: seq<nat>, show: T -> U, out: seq<U>)
    requires IsView(xs, at, show, out)
    ensures IsView([x] + xs, OneUp(at), show, out) && IsView([x] + xs, [0] + OneUp(at), show, [show(x)] + out)
  {
  }

  lemma SelectedWithFirst<T, U>(x: T, xs: seq<T>, pass: T -> bool, show: T -> U, out: seq<U>)
    requires Selected(xs, pass, show, out)
    ensures Selected([x] + xs, pass, show, (if pass(x) then [show(x)] else []) + out)
  {
    hide ArePlaces, IsView, OneUp;
    var at :| ArePlaces(xs, pass, at) && IsView(xs, at, show, out);
    PlacesWithFirst(x, xs, pass, at);
    ShowsWithFirst(x, xs, at, show, out);
    assert [] + out == out;
  }

  /** What is shown comes from an element that passes, and every element that passes is shown. */
  lemma SelectedMembers<T, U>(xs: seq<T>, pass: T -> bool, show: T -> U, out: seq<U>, y: U)
    requires Selected(xs, pass, show, out)
    ensures y in out <==> exists k :: 0 <= k < |xs| && pass(xs[k]) && show(xs[k]) == y
  {
    var at :| ArePlaces(xs, pass, at) && IsView(xs, at, show, out);
    if y in out {
      var i :| 0 <= i < |out| && out[i] == y;
      assert at[i] in at;
      assert show(xs[at[i]]) == y;
    }
    if k :| 0 <= k < |xs| && pass(xs[k]) && show(xs[k]) == y {
      assert k in at;
      var i :| 0 <= i < |at| && at[i] == k;
      assert out[i] == y;
    }
  }

  // ----- Dictionaries filled in a loop: the last one of a name counts

  ghost predicate GivesAt<T, U>(xs: seq<T>, name: T -> string, value: T -> Option<U>, n: string, k: int) {
    0 <= k < |xs| && name(xs[k]) == n && value(xs[k]).Some?
  }

  ghost predicate IsLastOf<T, U>(xs: seq<T>, name: T -> string, value: T -> Option<U>, n: string, k: int) {
    GivesAt(xs, name, value, n, k) && forall j | k < j < |xs| :: !GivesAt(xs, name, value, n, j)
  }

  /** The names are those of the elements with a value; each has the value of the last such element of its name. */
  ghost predicate HoldsLast<T, U>(xs: seq<T>, name: T -> string, value: T -> Option<U>, m: map<string, U>) {
    && (forall n :: n in m <==> exists k :: GivesAt(xs, name, value, n, k))
    && forall n, k | n in m && IsLastOf(xs, name, value, n, k) :: Some(m[n]) == value(xs[k])
  }

  lemma NothingHeld<T, U>(name: T -> string, value: T -> Option<U>)
    ensures HoldsLast([], name, value, map[])
  {
  }

  lemma OneMoreHeld<T, U>(xs: seq<T>, name: T -> string, value: T -> Option<U>, m: map<string, U>, x: T)
    requires HoldsLast(xs, name, value, m)
    ensures HoldsLast(xs + [x], name, value, if value(x).Some? then m[name(x) := value(x).value] else m)
  {
    var all := xs + [x];
    var more := if value(x).Some? then m[name(x) := value(x).value] else m;
    assert forall n, k | 0 <= k < |xs| :: GivesAt(all, name, value, n, k) <==> GivesAt(xs, name, value, n, k);
    forall n ensures n in more <==> exists k :: GivesAt(all, name, value, n, k) {
      if value(x).Some? && name(x) == n {
        assert GivesAt(all, name, value, n, |xs|);
      }
      if k :| GivesAt(all, name, value, n, k) {
        assert k < |xs| ==> GivesAt(xs, name, value, n, k);
      }
    }
    forall n, k | n in more && IsLastOf(all, name, value, n, k) ensures Some(more[n]) == value(all[k]) {
      assert value(x).Some? && name(x) == n ==> GivesAt(all, name, value, n, |xs|);
      if k < |xs| {
        assert IsLastOf(xs, name, value, n, k) && n in m;
      }
    }
  }
}
