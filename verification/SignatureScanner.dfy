/** The bracket, quote and `lambda` aware scan behind every top-level split and find. */
module SignatureScanner {
  import opened Wrappers

  predicate IsWordChar(c: char) {
    'a' <= c <= 'z' || 'A' <= c <= 'Z' || '0' <= c <= '9' || c == '_'
  }

  predicate IsQuote(c: char) { c == '\'' || c == '"' }

  predicate IsOpen(c: char) { c == '(' || c == '[' || c == '{' }

  predicate IsClose(c: char) { c == ')' || c == ']' || c == '}' }

  const LAMBDA := "lambda"

  /** What the scanner remembers between characters; `skip` counts characters it has decided to jump over. */
  datatype State = State(depth: int, lambdas: nat, quote: Option<char>, skip: nat)

  const START := State(0, 0, None, 0)

  /** `t` is what is left to scan; `afterWord` says whether the character before it can belong to a word. */
  predicate StartsLambda(afterWord: bool, t: string) {
    !afterWord && LAMBDA <= t && (|t| == 6 || !IsWordChar(t[6]))
  }

  /** The scanner reads `c`; `atLambda` says whether a `lambda` keyword starts there. */
  function Next(c: char, atLambda: bool, st: State): State {
    if st.skip > 0 then st.(skip := st.skip - 1)
    else if st.quote.Some? then
      if c == '\\' then st.(skip := 1) else if c == st.quote.value then st.(quote := None) else st
    else if IsQuote(c) then st.(quote := Some(c))
    else if IsOpen(c) then st.(depth := st.depth + 1)
    else if IsClose(c) then st.(depth := st.depth - 1)
    else if st.depth == 0 && atLambda then st.(lambdas := st.lambdas + 1, skip := 5)
    else if c == ':' && st.depth == 0 && st.lambdas > 0 then st.(lambdas := st.lambdas - 1)
    else st
  }

  predicate Marks(c: char, atLambda: bool, st: State) {
    st == START && !IsQuote(c) && !IsOpen(c) && !IsClose(c) && !atLambda
  }

  function MaskFrom(afterWord: bool, t: string, st: State): (mask: seq<bool>)
    ensures |mask| == |t|
    decreases t
  {
    if t == [] then [] else
      var at := StartsLambda(afterWord, t);
      [Marks(t[0], at, st)] + MaskFrom(IsWordChar(t[0]), t[1..], Next(t[0], at, st))
  }

  /** The state in which the scan leaves `t`. */
  function EndState(afterWord: bool, t: string, st: State): State
    decreases t
  {
    if t == [] then st else
      EndState(IsWordChar(t[0]), t[1..], Next(t[0], StartsLambda(afterWord, t), st))
  }

  /** True exactly at the characters outside brackets, strings and `lambda` parameter lists. */
  function Mask(s: string): (mask: seq<bool>)
    ensures |mask| == |s|
  {
    MaskFrom(false, s, START)
  }

  predicate IsWordBoundary(s: string, idx: int) {
    idx < 0 || idx >= |s| || !IsWordChar(s[idx])
  }

  function Repeat(b: bool, n: nat): (r: seq<bool>)
    ensures |r| == n
  {
    seq(n, _ => b)
  }

  // ----- The scanning loop

  /** The mask from index `i` on, when the scan reaches `i` in state `st`. */
  ghost function MaskAt(s: string, i: nat, st: State): (mask: seq<bool>)
    requires i <= |s|
    ensures |mask| == |s| - i
  {
    MaskFrom(i > 0 && IsWordChar(s[i - 1]), s[i..], st)
  }

  predicate LambdaAt(s: string, i: nat)
    requires i < |s|
  {
    s[i] == 'l' && i + 6 <= |s| && s[i..i + 6] == LAMBDA && IsWordBoundary(s, i - 1) && IsWordBoundary(s, i + 6)
  }

  lemma MaskAtUnfolds(s: string, i: nat, st: State)
    requires i < |s|
    ensures MaskAt(s, i, st) == [Marks(s[i], LambdaAt(s, i), st)] + MaskAt(s, i + 1, Next(s[i], LambdaAt(s, i), st))
  {
    if i + 6 <= |s| {
      assert s[i..i + 6] == s[i..][..6];
      assert LAMBDA <= s[i..] <==> s[i..i + 6] == LAMBDA;
      assert s[i..i + 6] == LAMBDA ==> s[i] == s[i..i + 6][0];
    }
    assert s[i..][1..] == s[i + 1..];
  }

  lemma {:induction false} MaskAtSkips(s: string, i: nat, st: State)
    requires i + st.skip <= |s|
    ensures MaskAt(s, i, st) == Repeat(false, st.skip) + MaskAt(s, i + st.skip, st.(skip := 0))
    decreases st.skip
  {
    if st.skip > 0 {
      MaskAtUnfolds(s, i, st);
      MaskAtSkips(s, i + 1, st.(skip := st.skip - 1));
    }
  }

  /** What one turn of the loop does: it reads a character and jumps over what that character tells it to skip. */
  lemma MaskAtTurn(s: string, i: nat, st: State, j: nat, after: State, marked: bool)
    requires i < j <= |s|
    requires var next := Next(s[i], LambdaAt(s, i), st);
      && after == next.(skip := 0)
      && marked == Marks(s[i], LambdaAt(s, i), st)
      && (j == i + 1 + next.skip || i + 1 == j == |s|)
    requires Mask(s)[i..] == MaskAt(s, i, st)
    ensures Mask(s)[i] == marked && (forall k | i < k < j :: !Mask(s)[k])
    ensures Mask(s)[j..] == MaskAt(s, j, after)
  {
    var next := Next(s[i], LambdaAt(s, i), st);
    MaskAtUnfolds(s, i, st);
    if j == i + 1 + next.skip {
      MaskAtSkips(s, i + 1, next);
    }
    assert MaskAt(s, i, st) == [marked] + Repeat(false, j - i - 1) + MaskAt(s, j, after);
    ReadOff(Mask(s), i, marked, j, MaskAt(s, j, after));
  }

  lemma ReadOff(mask: seq<bool>, i: nat, marked: bool, j: nat, rest: seq<bool>)
    requires i < j <= |mask| && mask[i..] == [marked] + Repeat(false, j - i - 1) + rest
    ensures mask[i] == marked && (forall k | i < k < j :: !mask[k])
    ensures mask[j..] == rest
  {
    assert forall k | i <= k < |mask| :: mask[k] == mask[i..][k - i];
    assert mask[j..] == mask[i..][j - i..];
  }

  method TopLevelMask(s: string) returns (mask: seq<bool>)
    ensures mask == Mask(s)
  {
    mask := Repeat(false, |s|);
    var depth, lambdaDepth, quote: Option<char>, i := 0, 0, None, 0;
    var n := |s|;
    assert s[0..] == s;
    while i < n
      invariant 0 <= i <= n == |mask| && lambdaDepth >= 0 && (quote.Some? ==> IsQuote(quote.value))
      invariant forall k | i <= k < n :: !mask[k]
      invariant forall k | 0 <= k < i :: mask[k] == Mask(s)[k]
      invariant Mask(s)[i..] == MaskAt(s, i, State(depth, lambdaDepth, quote, 0))
      decreases n - i
    {
      ghost var before, st := i, State(depth, lambdaDepth, quote, 0);
      var c := s[i];
      if quote.Some? {
        if c == '\\' && i + 1 < n {
          i := i + 2;
        } else {
          if c == quote.value {
            quote := None;
          }
          i := i + 1;
        }
      } else if IsQuote(c) {
        quote := Some(c);
        i := i + 1;
      } else if IsOpen(c) {
        depth := depth + 1;
        i := i + 1;
      } else if IsClose(c) {
        depth := depth - 1;
        i := i + 1;
      } else if depth == 0 && LambdaAt(s, i) {
        lambdaDepth := lambdaDepth + 1;
        i := i + 6;
      } else if c == ':' && depth == 0 && lambdaDepth > 0 {
        lambdaDepth := lambdaDepth - 1;
        i := i + 1;
      } else {
        if depth == 0 && lambdaDepth == 0 {
          mask := mask[i := true];
        }
        i := i + 1;
      }
      MaskAtTurn(s, before, st, i, State(depth, lambdaDepth, quote, 0), mask[before]);
    }
  }

  // ----- The scan composes over concatenation

  /** No word runs across the seam between `x` and `y`. */
  predicate WordSeam(x: string, y: string) {
    x == [] || y == [] || !IsWordChar(x[|x| - 1]) || !IsWordChar(y[0])
  }

  predicate AfterWord(afterWord: bool, x: string) {
    if x == [] then afterWord else IsWordChar(x[|x| - 1])
  }

  lemma LambdaAcrossSeam(x: string, y: string)
    requires x != [] && y != [] && |x| < 6 && LAMBDA <= x + y
    ensures IsWordChar(x[|x| - 1]) && IsWordChar(y[0])
  {
    assert (x + y)[|x|] == LAMBDA[|x|] && (x + y)[|x| - 1] == LAMBDA[|x| - 1];
  }

  lemma LambdaStopsAtSeam(afterWord: bool, x: string, y: string)
    requires x != [] && WordSeam(x, y)
    ensures StartsLambda(afterWord, x + y) == StartsLambda(afterWord, x)
  {
    if y == [] {
      assert x + y == x;
    } else if |x| >= 6 {
      assert (x + y)[..6] == x[..6];
      assert LAMBDA <= x + y <==> LAMBDA <= x;
      assert LAMBDA <= x && |x| == 6 ==> x[5] == LAMBDA[5];
    } else if LAMBDA <= x + y {
      LambdaAcrossSeam(x, y);
    }
  }

  lemma {:induction false} EndStateOfConcatenation(afterWord: bool, x: string, y: string, st: State)
    requires WordSeam(x, y)
    ensures EndState(afterWord, x + y, st) == EndState(AfterWord(afterWord, x), y, EndState(afterWord, x, st))
    decreases |x|
  {
    if x == [] {
      assert x + y == y;
    } else {
      LambdaStopsAtSeam(afterWord, x, y);
      assert (x + y)[1..] == x[1..] + y;
      EndStateOfConcatenation(IsWordChar(x[0]), x[1..], y, Next(x[0], StartsLambda(afterWord, x), st));
    }
  }

  lemma {:induction false} MaskOfConcatenation(afterWord: bool, x: string, y: string, st: State)
    requires WordSeam(x, y)
    ensures MaskFrom(afterWord, x + y, st)
         == MaskFrom(afterWord, x, st) + MaskFrom(AfterWord(afterWord, x), y, EndState(afterWord, x, st))
    decreases |x|
  {
    if x == [] {
      assert x + y == y;
    } else {
      LambdaStopsAtSeam(afterWord, x, y);
      assert (x + y)[1..] == x[1..] + y;
      MaskOfConcatenation(IsWordChar(x[0]), x[1..], y, Next(x[0], StartsLambda(afterWord, x), st));
    }
  }

  /** Around a marked separator the scan of the whole is the scan of the two sides, each begun afresh. */
  lemma MaskAroundSeparator(x: string, c: char, y: string)
    requires !IsWordChar(c)
    requires Mask(x + [c] + y)[|x|]
    ensures Mask(x + [c] + y) == Mask(x) + [true] + Mask(y)
  {
    assert x + [c] + y == x + ([c] + y);
    MaskOfConcatenation(false, x, [c] + y, START);
    var st := EndState(false, x, START);
    assert Mask(x + [c] + y)[|x|] == MaskFrom(AfterWord(false, x), [c] + y, st)[0];
    assert ([c] + y)[1..] == y;
    assert st == START && Next(c, false, st) == START;
    assert !(LAMBDA <= [c] + y) by { assert IsWordChar(LAMBDA[0]); }
  }

  // ----- Splitting and finding

  function Cut(s: string, mask: seq<bool>, sep: char): (pieces: seq<string>)
    requires |mask| == |s|
    ensures |pieces| >= 1
  {
    if s == [] then [[]]
    else
      var rest := Cut(s[1..], mask[1..], sep);
      if mask[0] && s[0] == sep then [[]] + rest else [[s[0]] + rest[0]] + rest[1..]
  }

  function Split(s: string, sep: char): (pieces: seq<string>)
    ensures |pieces| >= 1
  {
    Cut(s, Mask(s), sep)
  }

  function FirstMarked(s: string, mask: seq<bool>, c: char): (r: Option<nat>)
    requires |mask| == |s|
    ensures r.Some? ==> r.value < |s| && mask[r.value] && s[r.value] == c
    ensures r.Some? ==> forall k | 0 <= k < r.value :: !(mask[k] && s[k] == c)
    ensures r.None? ==> forall k | 0 <= k < |s| :: !(mask[k] && s[k] == c)
  {
    if s == [] then None
    else if mask[0] && s[0] == c then Some(0)
    else
      match FirstMarked(s[1..], mask[1..], c)
      case None => None
      case Some(k) => Some(k + 1)
  }

  function FindTopLevel(s: string, c: char): (r: Option<nat>)
    ensures r.Some? ==> r.value < |s|
  {
    FirstMarked(s, Mask(s), c)
  }

  lemma FindIsFirst(s: string, c: char)
    ensures match FindTopLevel(s, c)
      case Some(k) => Mask(s)[k] && s[k] == c && forall j | 0 <= j < k :: !(Mask(s)[j] && s[j] == c)
      case None => forall j | 0 <= j < |s| :: !(Mask(s)[j] && s[j] == c)
  {
  }

  lemma FoundAt(s: string, c: char, k: nat)
    requires k < |s| && Mask(s)[k] && s[k] == c
    requires forall j | 0 <= j < k :: !(Mask(s)[j] && s[j] == c)
    ensures FindTopLevel(s, c) == Some(k)
  {
    FindIsFirst(s, c);
  }

  /** `current` is the piece under construction when `pieces` are those of what is left. */
  function Prefixed(current: string, pieces: seq<string>): seq<string>
    requires |pieces| >= 1
  {
    [current + pieces[0]] + pieces[1..]
  }

  lemma {:induction false} CutGrows(s: string, mask: seq<bool>, sep: char, i: nat)
    requires |mask| == |s| && i < |s|
    ensures Cut(s[i..], mask[i..], sep)
         == (var rest := Cut(s[i + 1..], mask[i + 1..], sep);
             if mask[i] && s[i] == sep then [[]] + rest else Prefixed([s[i]], rest))
  {
    assert s[i..][1..] == s[i + 1..] && mask[i..][1..] == mask[i + 1..];
  }

  lemma CutOfNothing(s: string, mask: seq<bool>, sep: char)
    requires |mask| == |s|
    ensures Cut(s[|s|..], mask[|s|..], sep) == [[]]
  {
  }

  method SplitTopLevel(s: string, sep: char) returns (parts: seq<string>)
    ensures parts == Split(s, sep)
  {
    hide Mask, Cut;
    var mask := TopLevelMask(s);
    parts := [];
    var current := [];
    assert s[0..] == s && mask[0..] == mask && [] + Cut(s, mask, sep)[0] == Cut(s, mask, sep)[0];
    for i := 0 to |s|
      invariant Cut(s, mask, sep) == parts + Prefixed(current, Cut(s[i..], mask[i..], sep))
    {
      CutGrows(s, mask, sep, i);
      ghost var rest := Cut(s[i + 1..], mask[i + 1..], sep);
      assert [] + rest[0] == rest[0] && current + [] == current;
      assert (current + [s[i]]) + rest[0] == current + ([s[i]] + rest[0]);
      if mask[i] && s[i] == sep {
        parts := parts + [current];
        current := [];
      } else {
        current := current + [s[i]];
      }
    }
    CutOfNothing(s, mask, sep);
    assert current + [] == current;
    parts := parts + [current];
  }

  method FindTopLevelIndex(s: string, c: char) returns (r: Option<nat>)
    ensures r == FindTopLevel(s, c)
  {
    var mask := TopLevelMask(s);
    for i := 0 to |s|
      invariant forall k | 0 <= k < i :: !(mask[k] && s[k] == c)
    {
      if mask[i] && s[i] == c {
        return Some(i);
      }
    }
    return None;
  }

  // ----- A top-level split loses nothing, and each piece scans alone as it did in the whole

  /** The pieces with one separator between neighbours. */
  function Join<T>(pieces: seq<seq<T>>, sep: T): seq<T> {
    if pieces == [] then [] else if |pieces| == 1 then pieces[0] else pieces[0] + [sep] + Join(pieces[1..], sep)
  }

  function Masks(pieces: seq<string>): (r: seq<seq<bool>>)
    ensures |r| == |pieces|
  {
    seq(|pieces|, k requires 0 <= k < |pieces| => Mask(pieces[k]))
  }

  lemma JoinMasksOfCons(piece: string, rest: seq<string>)
    requires rest != []
    ensures Join(Masks([piece] + rest), true) == Mask(piece) + [true] + Join(Masks(rest), true)
  {
    assert Masks([piece] + rest) == [Mask(piece)] + Masks(rest);
    assert ([Mask(piece)] + Masks(rest))[1..] == Masks(rest);
  }

  predicate HoldsTopLevel(s: string, c: char) {
    exists k :: 0 <= k < |s| && Mask(s)[k] && s[k] == c
  }

  lemma {:induction false} CutAtFirst(s: string, mask: seq<bool>, sep: char, k: nat)
    requires |mask| == |s| && k < |s| && mask[k] && s[k] == sep
    requires forall j | 0 <= j < k :: !(mask[j] && s[j] == sep)
    ensures Cut(s, mask, sep) == [s[..k]] + Cut(s[k + 1..], mask[k + 1..], sep)
  {
    if k > 0 {
      CutAtFirst(s[1..], mask[1..], sep, k - 1);
      assert s[1..][k..] == s[k + 1..] && mask[1..][k..] == mask[k + 1..];
      assert [s[0]] + s[1..][..k - 1] == s[..k];
    }
  }

  lemma {:induction false} CutNowhere(s: string, mask: seq<bool>, sep: char)
    requires |mask| == |s|
    requires forall j | 0 <= j < |s| :: !(mask[j] && s[j] == sep)
    ensures Cut(s, mask, sep) == [s]
  {
    if s != [] {
      CutNowhere(s[1..], mask[1..], sep);
      assert [s[0]] + s[1..] == s;
    }
  }

  lemma SplitNowhere(s: string, sep: char)
    requires FindTopLevel(s, sep).None?
    ensures Split(s, sep) == [s] && !HoldsTopLevel(s, sep)
  {
    FindIsFirst(s, sep);
    CutNowhere(s, Mask(s), sep);
  }

  /** How a split unfolds at its first top-level separator. */
  lemma SplitAtFirst(s: string, sep: char)
    requires !IsWordChar(sep) && FindTopLevel(s, sep).Some?
    ensures var k := FindTopLevel(s, sep).value;
      && s[k] == sep
      && Split(s, sep) == [s[..k]] + Split(s[k + 1..], sep)
      && Mask(s) == Mask(s[..k]) + [true] + Mask(s[k + 1..])
      && !HoldsTopLevel(s[..k], sep)
  {
    hide FindTopLevel;
    var k := FindTopLevel(s, sep).value;
    FindIsFirst(s, sep);
    assert s == s[..k] + [sep] + s[k + 1..];
    MaskAroundSeparator(s[..k], sep, s[k + 1..]);
    assert Mask(s)[k + 1..] == Mask(s[k + 1..]);
    CutAtFirst(s, Mask(s), sep, k);
    assert forall j | 0 <= j < k :: Mask(s[..k])[j] == Mask(s)[j] && s[..k][j] == s[j];
  }

  /**
    * For every string and every separator that cannot be part of a word: rejoining the pieces gives the string
    * back, scanning each piece alone marks exactly what the whole scan marked in it, and no piece holds a
    * top-level separator.
    */
  lemma {:induction false} SplitComposes(s: string, sep: char)
    requires !IsWordChar(sep)
    ensures Join(Split(s, sep), sep) == s
    ensures Join(Masks(Split(s, sep)), true) == Mask(s)
    ensures forall p | p in Split(s, sep) :: !HoldsTopLevel(p, sep)
    decreases |s|
  {
    hide FindTopLevel, Split, Mask;
    match FindTopLevel(s, sep)
    case None =>
      SplitNowhere(s, sep);
    case Some(k) =>
      SplitAtFirst(s, sep);
      var rest := Split(s[k + 1..], sep);
      SplitComposes(s[k + 1..], sep);
      assert ([s[..k]] + rest)[1..] == rest;
      JoinMasksOfCons(s[..k], rest);
      assert s == s[..k] + [sep] + s[k + 1..];
  }
}
